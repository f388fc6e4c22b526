# YasouOS: models and proofs

Dafny models of the parts of the YasouOS kernel in which several pieces have to agree, and proofs of what they
promise. `dafny verify dfyconfig.toml` checks all of it.

How the pieces are modelled:

- **Descriptor rings** (`VirtioTx*`, `VirtioRx*`, `E1000*`, on `Ring16`, `VirtioQueue`, `Transitions`). Driver and
  device are two sides of a state machine whose transitions are single memory accesses, or a few that the other side
  cannot tell apart; the device takes available entries in order and completes each entry it took once, in any order
  (section 2.6 of VirtIO 1.1), or fills descriptors from head to tail (section 3.2.6 of the Intel 8254x Software
  Developer's Manual). Indices are 16 bits and wrap. Unbounded history counters, which no transition reads, say what
  happened. The theorems are about every run. The classes in the `*Driver` modules are the C functions over shared
  arrays; the device's moves between the driver's accesses come from an arbitrary script, and each method is proved to
  be a run of the state machine.
- **Device tree** (`Fdt*`, on `Bits`, `Bytes`). Trees, their flattening (sections 5.2, 5.4.1 and 5.4.2 of the
  Devicetree Specification v0.4) with no-ops anywhere, a token reader proved to invert the writer and to stay inside
  the block on arbitrary bytes, both walkers as folds over tokens, and the loops over the blob in memory.
- **Resource manager and network devices** (`Resources`, `ResourceManager`, `Netdev`, on `Links`). The static pool and
  the list threaded through it, refined from sequences of allocations.
- **Address registers** (`PciBars`, `PciAllocator`). Registers with hardwired low bits (section 6.2.5.1 of PCI Local
  Bus 3.0), paired where a range has 64 address bits, the probe, the bump allocator and the enumeration of two buses.
- **Checksums, ARP, TCP and HTTP** (`Checksum`, `Arp`, `Ipv4`, `Tcp`, `Icmp`, `TcpServer`, `HttpServer`, `Http`,
  `Decimal`, `Ping`). RFC 1071 arithmetic modulo 65535 over headers built in place (RFC 791, RFC 9293, RFC 792,
  RFC 826); the connectionless server against one that keeps SND.NXT and RCV.NXT (section 3.4 of RFC 9293); numerals
  written and read back.
- **Command line and logging** (`CmdLine`, `InitApps`, `LogLevels`, `Log`), and the **device registry** (`DeviceTree`).

Where the code does not do what its comments or its callers suggest, the models follow the code, and the exact
condition is proved:

- An end tag reports the node opened last, so an inner node's end tag repeats the report of its rightmost leaf, though
  the comment says that the node itself is reported (kernel/platform/fdt_parser.c:294-298). Each device is reported
  once exactly when no inner node's rightmost leaf qualifies (`FdtDevices.OnceEachIffNoEcho`).
- The receive error paths keep the buffer (drivers/virtio_net/virtio_net.c:487-508, drivers/e1000/e1000.c:193-208):
  after 16 refusals the virtio queue is deaf, after seven drops in a row the e1000 ring stalls, and not before
  (`VirtioRxRuns.DeafAfterSixteenRefusals`, `E1000.StallsAfterSevenDrops`); runs from the initial state get there.
- The transmit guard admits 2048 bytes although the header shares the 2048-byte slot
  (drivers/virtio_net/virtio_net.c:574). What spills over lands on the header of the next slot, so an acceptable
  packet leaves every frame intact, in every run, exactly when its bytes from index 2038 on are zero
  (`VirtioTxSpill.WireRightIffClean`); memory is left alone exactly by packets that fit behind the header
  (`VirtioTxRuns.NeighboursSafeIffFits`).
- Two levels for one log tag: the first wins at registration, the last for tags already registered
  (common/log.c:55-63, common/log.c:107-113). `LogLevels.TagSettledIff` says which level every tag has in every run and
  when that is the promised one, `LogLevels.OverrideSettlesIff` when a further override is harmless.
- An ARP request is answered without a test of its length (apps/http-hello/http_hello.c:182-189). The answer depends
  on the frame received alone exactly when that is a whole packet (`HttpServer.ArpFromFrameIffWhole`).
- Each half of a 64-bit address register is sized and placed as a register of its own
  (kernel/devices/devices_riscv.c:80-127). Sizes are right exactly when no 64-bit register asks for 4 GB or more and no
  I/O register hardwires upper bits, and none is wrong but 0 exactly when no upper half has a hardwired bit and no I/O
  register hardwires upper bits (`PciBars.SizesRightIff`, `PciBars.NoWrongSizeIff`). A placed register answers to its
  range exactly when it is no upper half and its own upper half read 0 (`PciBars.AnswersToGivenIff`).
- The connectionless server numbers its replies right exactly when a segment carries at most one of SYN, data and FIN
  (`TcpServer.AgreeIffOnePart`).

## Model

| member | source | states |
|---|---|---|
| VirtioTxRuns.DescriptorsPartitioned | drivers/virtio_net/virtio_net.c:549-632 | in every run of driver micro-steps and device steps each of the 16 descriptors has exactly one owner if it is in use and none otherwise, and published + held + completed + reserved is the number in use |
| VirtioTxRuns.SlotsReadBeforeReuse | drivers/virtio_net/virtio_net.c:557-570 | through any number of index wraps the modular index distances are the queue lengths and at most 16, and the ring slot about to be written, by either side, is not one still to be read |
| VirtioTxRuns.WireInOrder | drivers/virtio_net/virtio_net.c:573-646 | for every run of clean packets, those whose bytes from index 2038 on are zero, the frames the device reads are the published packets in call order, each behind ten zero bytes, and stay so in every outstanding buffer |
| VirtioTxRuns.RefusedIffAllOutstanding | drivers/virtio_net/virtio_net.c:582-595 | a packet of acceptable length is refused exactly when all 16 descriptors are outstanding |
| VirtioTxRuns.FieldsUnseen | drivers/virtio_net/virtio_net.c:612-617 | no move of the device depends on what stands in the reserved descriptor, so the order in which its fields are stored does not show |
| VirtioTxRuns.ReclaimUnseen | drivers/virtio_net/virtio_net.c:557-570 | no move of the device changes the completion being reclaimed or depends on the in-use flags and the reclaim index |
| VirtioTxRuns.NeighboursSafeIffFits | drivers/virtio_net/virtio_net.c:601-608 | the copy loop leaves every other slot untouched exactly when offset, header and packet fit 2048 bytes |
| VirtioTxSpill.UncleanCorruptsWire | drivers/virtio_net/virtio_net.c:574-608 | for every packet that passes the guard and is not clean, a run in which the frame of another packet reaches the wire altered |
| VirtioTxSpill.WireRightIffClean | drivers/virtio_net/virtio_net.c:574-608 | a packet that passes the guard can be sent beside clean ones, in any run, without the wire ever being wrong exactly when it is clean |
| VirtioTx.StepKeepsOwn | drivers/virtio_net/virtio_net.c:549-632 | every micro-step and every device step keeps the ownership invariant |
| VirtioTx.CallAdmitsIff | drivers/virtio_net/virtio_net.c:573-576 | a call goes on exactly for packets of 1 to 2048 bytes |
| VirtioTx.StepKeepsContent | drivers/virtio_net/virtio_net.c:596-646 | every step keeps what each outstanding buffer and the wire hold, while clean packets are accepted |
| VirtioTx.ReclaimTest | drivers/virtio_net/virtio_net.c:557-557 | the 16-bit inequality tested by the reclaim loop holds exactly while completions covered by the sampled index remain |
| VirtioTx.UsedSlotFree | drivers/virtio_net/virtio_net.c:559-569 | the used-ring slot the device is about to write has been read by the driver |
| VirtioTx.Conservation | drivers/virtio_net/virtio_net.c:549-632 | the owners' counts add up to the number of descriptors in use |
| VirtioTxDriver.TxQueue.Transmit | drivers/virtio_net/virtio_net.c:573-647 | for every schedule of device moves between its memory accesses, the call is a run of the state machine; 0 exactly publishes the packet next in order, -1 publishes nothing and, past the guard, means all 16 were outstanding |
| VirtioTxDriver.TxQueue.Send | drivers/virtio_net/virtio_net.c:582-646 | the part of the call after reclaiming: what is published, written and returned |
| VirtioTxDriver.TxQueue.ReclaimTx | drivers/virtio_net/virtio_net.c:549-571 | the loop ends and has freed exactly the descriptors whose completion was published when the used index was sampled |
| VirtioTxDriver.TxQueue.ReclaimTurn | drivers/virtio_net/virtio_net.c:557-570 | one turn frees the descriptor of the next completion |
| VirtioTxDriver.TxQueue.FindFree | drivers/virtio_net/virtio_net.c:582-595 | the first descriptor not in use, or none |
| VirtioTxDriver.TxQueue.ReserveDescriptor | drivers/virtio_net/virtio_net.c:582-597 | a descriptor is reserved unless all are outstanding |
| VirtioTxDriver.TxQueue.FillHeader | drivers/virtio_net/virtio_net.c:601-603 | ten zero bytes are stored at the start of the buffer, nothing else changes |
| VirtioTxDriver.TxQueue.FillPayload | drivers/virtio_net/virtio_net.c:605-608 | the packet is stored behind the header, nothing else changes |
| VirtioTxDriver.TxQueue.SetupDescriptor | drivers/virtio_net/virtio_net.c:612-617 | the descriptor written is the one the state machine writes |
| VirtioTxDriver.TxQueue.AddToRing | drivers/virtio_net/virtio_net.c:619-628 | the ring entry written is the one the state machine writes |
| VirtioTxDriver.TxQueue.BumpIndex | drivers/virtio_net/virtio_net.c:624-631 | the packet becomes the last published one |
| VirtioTxDriver.TxQueue.WireSoFar | drivers/virtio_net/virtio_net.c:573-647 | at any moment the wire is a prefix of the packets accepted so far, framed, if all were clean |
| VirtioRxRuns.BuffersConserved | drivers/virtio_net/virtio_net.c:312-330 | posted + held + completed + being reposted + retired is 16 in every run, retired being exactly the completions refused |
| VirtioQueue.Platforms | drivers/virtio_net/virtio_net.h:8-18 | the ring sizes and alignment offsets the driver is built for |
| VirtioRxRuns.DeliveredInOrder | drivers/virtio_net/virtio_net.c:441-545 | in every run, whatever lengths the device reports, callers have received the payloads of the accepted completions, header stripped, in completion order, and nothing else |
| VirtioRxRuns.HeadStays | drivers/virtio_net/virtio_net.c:474-485 | no move of the device changes the completion the driver is looking at |
| VirtioRxRuns.CirculatingBuffers | drivers/virtio_net/virtio_net.c:487-532 | each error return takes one buffer away for good, and without one all 16 circulate |
| VirtioRxRuns.DeafAfterSixteenRefusals | drivers/virtio_net/virtio_net.c:487-508 | at rest, nothing can happen any more exactly when 16 completions have been refused |
| VirtioRxRuns.DeafReached | drivers/virtio_net/virtio_net.c:487-508 | from every state in which the driver rests and the device holds nothing back, the initial one included, some run reaches that state |
| VirtioRx.StepKeepsOwn | drivers/virtio_net/virtio_net.c:441-545 | every step keeps the ownership of receive buffers |
| VirtioRx.AdmitsIff | drivers/virtio_net/virtio_net.c:487-508 | a completion is copied out exactly when its reported length is 10 to 2048 and at most 10 more than the caller's buffer holds, and else lost with its buffer |
| VirtioRx.StepKeepsDelivery | drivers/virtio_net/virtio_net.c:510-517 | every step keeps what was delivered equal to what was due |
| VirtioRx.StepKeepsIntact | drivers/virtio_net/virtio_net.c:510-514 | no step changes a completed buffer before it is consumed |
| VirtioRxDriver.RxQueue.constructor | drivers/virtio_net/virtio_net.c:312-330 | population: every buffer posted once, in order, with its writable descriptor |
| VirtioRxDriver.RxQueue.Receive | drivers/virtio_net/virtio_net.c:441-545 | for every schedule of device moves, one call delivers bytes 10 up to the reported length of the next completion's buffer and reposts it, exactly when that length is 10 to 2048 and fits; or refuses it and loses the buffer; or finds none |
| VirtioRxDriver.RxQueue.FetchEntry | drivers/virtio_net/virtio_net.c:474-508 | exactly the completions the tests admit go on to be copied |
| VirtioRxDriver.RxQueue.CopyOut | drivers/virtio_net/virtio_net.c:510-513 | the bytes copied are the payload of the buffer as the device completed it |
| VirtioRxDriver.RxQueue.RepostEntry | drivers/virtio_net/virtio_net.c:519-528 | the buffer's id is stored in a ring slot that holds no entry the device has yet to read |
| VirtioRxDriver.RxQueue.BumpIndex | drivers/virtio_net/virtio_net.c:524-531 | the buffer is posted again |
| VirtioRxDriver.RxQueue.DeliveredSoFar | drivers/virtio_net/virtio_net.c:441-545 | at any moment what was delivered is what was due |
| E1000.RingConserved | drivers/e1000/e1000.c:174-227 | between calls pending + available + dropped since the last success is 7 and the tail is the current index - 1 - dropped, modulo 8 |
| E1000.DeliveredInOrder | drivers/e1000/e1000.c:174-227 | what was delivered is the arrivals in order minus exactly the frames without end-of-packet or larger than the caller's buffer |
| E1000.UnreadSafe | drivers/e1000/e1000.c:204-224 | no frame that arrived and was not read is overwritten |
| E1000.StallsAfterSevenDrops | drivers/e1000/e1000.c:192-210 | no transition changes anything any more exactly after seven drops without a success |
| E1000.StallReached | drivers/e1000/e1000.c:192-210 | from every state at rest with no frame pending, the initial one included, some run reaches that state |
| E1000.NextKeepsInv | drivers/e1000/e1000.c:174-227 | every driver and device step keeps the ring invariant |
| E1000.HeadSlotFree | drivers/e1000/e1000.c:183-190 | the descriptor the device writes next is not one waiting to be read |
| E1000.RecyclesInOrder | drivers/e1000/e1000.c:217-224 | a copied frame's status is cleared before its descriptor is lent to the device again, and both are |
| E1000.LooksIff | drivers/e1000/e1000.c:183-208 | a call looks at the current descriptor exactly when status bit 0 is set, and copies exactly when bit 1 is set too and the length fits the caller's buffer |
| E1000Driver.Ring.constructor | drivers/e1000/e1000.c:91-102 | the ring as initialised: eight clear descriptors, seven available |
| E1000Driver.Ring.Receive | drivers/e1000/e1000.c:174-227 | for every schedule of arrivals one call delivers the next frame, exactly when its status has bit 1 and it fits the buffer, or drops it, or finds none |
| E1000Driver.Ring.CopyOut | drivers/e1000/e1000.c:209-212 | the bytes copied are the frame that arrived |
| E1000Driver.Ring.DeliveredSoFar | drivers/e1000/e1000.c:174-227 | at any moment what was delivered is what was due |
| Fdt.SwapsToBigEndian | kernel/platform/fdt_parser.c:40-45 | swapping a loaded word by masks and shifts reads its four bytes big-endian |
| Fdt.ReadsBigEndian | kernel/platform/fdt_parser.c:54-60 | the byte-wise read is the big-endian value |
| Fdt.Be32IsBigEndian | kernel/platform/fdt_parser.c:54-60 | the value of a word is the number its bytes are to the base 256 |
| Fdt.AlignUpMeaning | kernel/platform/fdt_parser.c:48-50 | the mask trick is the next multiple of four, short of a 32-bit wrap |
| FdtTokens.ReadsInsideBlock | kernel/platform/fdt_parser.c:243-363 | on arbitrary bytes in a block of whole words, what is read as token, name, property header and value depends on nothing outside the block, and the next position is inside it |
| FdtTokens.Next | kernel/platform/fdt_parser.c:243-379 | on arbitrary bytes a token read leaves the position aligned, later, and at most at the end of the block |
| FdtTokens.ReadsBack | kernel/platform/fdt_parser.c:252-370 | reading what was written for a token yields the token and the position behind it |
| FdtWalk.WalksInsideBlock | kernel/platform/fdt_parser.c:243-380 | the whole walk over arbitrary bytes depends on nothing outside the block |
| FdtWalk.WalksBlock | kernel/platform/fdt_parser.c:242-374 | walking a written block folds the loop's turn over its tokens up to the end token |
| FdtWalk.WalksOpenBlock | kernel/platform/fdt_parser.c:242-250 | walking tokens up to the end of the block without an end token folds them all and says that it did not finish |
| FdtWalk.MeaningUnique | kernel/platform/fdt_parser.c:173-177 | the name found at an offset is "reg", "compatible" or "bootargs" exactly when the strings block holds those letters and a zero there |
| FdtDevices.EnumeratesTree | kernel/platform/fdt_parser.c:242-374 | for every tree, with no-ops anywhere, the callbacks made are the postorder ones in which each end tag reports the node opened last |
| FdtDevices.CallsAreReports | kernel/platform/fdt_parser.c:293-302 | the callbacks are the qualifying devices the end tags look at, in order |
| FdtDevices.PropertyMeaning | kernel/platform/fdt_parser.c:330-355 | reg of 16 bytes or more gives base and size as big-endian 64-bit numbers, a non-empty compatible the string, anything shorter nothing |
| FdtDevices.LeafMeaning | kernel/platform/fdt_parser.c:242-302 | a node without subnodes is reported exactly when it has a usable reg and compatible, with the last of each |
| FdtDevices.LookedAt | kernel/platform/fdt_parser.c:274-302 | end tags look only at leaves, and at each leaf once and once more for every ancestor whose rightmost leaf it is |
| FdtDevices.OnceEachIffNoEcho | kernel/platform/fdt_parser.c:293-302 | every qualifying leaf is reported exactly once, in document order, exactly when no inner node's rightmost leaf qualifies |
| FdtDevices.NestedEchoes | kernel/platform/fdt_parser.c:293-302 | a qualifying leaf below k inner nodes with one subnode each is reported k + 1 times |
| FdtDevices.ReportedTwice | kernel/platform/fdt_parser.c:293-302 | a concrete well-formed tree of an inner node over one qualifying leaf, which is reported twice |
| FdtDevices.NopsChangeNoCalls | kernel/platform/fdt_parser.c:368-370 | inserted no-ops change no callback |
| FdtBootargs.FindsBootargs | kernel/platform/fdt_parser.c:94-191 | for every tree the result is the last non-empty bootargs value inside a depth-1 node named chosen, nothing if there is none |
| FdtBootargs.FoldsDeep | kernel/platform/fdt_parser.c:131-147 | deeper nodes named chosen neither start nor end the search |
| FdtBootargs.ArgsOfMember | kernel/platform/fdt_parser.c:171-181 | of a node's properties exactly those named bootargs with a value that is not empty count |
| FdtBootargs.NopsChangeNoArgs | kernel/platform/fdt_parser.c:185-187 | inserted no-ops change no result |
| FdtParser.NextToken | kernel/platform/fdt_parser.c:106-183 | one turn's reads yield the token at the position, or stop |
| FdtParser.NameLength | kernel/platform/fdt_parser.c:262-272 | the length of the name up to its terminator, or the space left |
| FdtParser.TakeProperty | kernel/platform/fdt_parser.c:330-355 | what reg and compatible do to the device being built |
| FdtParser.ReadHeader | kernel/platform/fdt_parser.c:207-231 | the header checks, and the block they delimit |
| FdtParser.ValidIff | kernel/platform/fdt_parser.c:213-228 | of headers given by their bytes, exactly those with the magic number and offsets inside the blob are accepted |
| FdtParser.DeviceTurn | kernel/platform/fdt_parser.c:252-379 | one turn of the loop is one step of the fold |
| FdtParser.WalkDevices | kernel/platform/fdt_parser.c:242-379 | the loop ends with the callbacks of the walk and their count |
| FdtParser.EnumerateDevices | kernel/platform/fdt_parser.c:202-380 | -1 without a valid header, else the number of callbacks made |
| FdtParser.WalkBootargs | kernel/platform/fdt_parser.c:99-199 | the loop ends with the value of the walk if the end token was reached, else nothing |
| FdtParser.GetBootargs | kernel/platform/fdt_parser.c:71-200 | the bootargs value found from the header on |
| FdtParser.OpenBlockFindsNothing | kernel/platform/fdt_parser.c:99-104 | nothing is found in a block without an end token, whatever its properties say |
| FdtParser.BothWalkTrees | kernel/platform/fdt_parser.c:71-380 | on a blob given by its header bytes, a flattened tree and a strings block, both functions return what they should as functions of the tree and of the names the strings block spells |
| Resources.ExclusiveInEveryRun | kernel/resources/resources.c:63-121 | after any sequence of acquisitions and releases no device and no pool slot is allocated twice, every allocation matches its driver, and there are at most 16 |
| Resources.ReleaseUndoesAcquire | kernel/resources/resources.c:133-200 | releasing what was just acquired restores the allocations |
| Resources.NextKeepsSound | kernel/resources/resources.c:133-200 | each operation keeps allocations exclusive |
| Resources.MatchesIff | kernel/resources/resources.c:32-58 | a driver is for a device exactly when an entry before the first all-zero one names its compatible string or both its nonzero ids |
| Resources.AcquiredMeans | kernel/resources/resources.c:133-179 | an acquisition hands out the first device the driver is for that nobody has and whose hook succeeds, in the first slot nobody has |
| Resources.UnavailableMeans | kernel/resources/resources.c:133-179 | an acquisition fails exactly when all 16 slots are taken or there is no such device |
| ResourceManager.Manager.DeviceMatchesDriver | kernel/resources/resources.c:32-58 | exactly when an entry before the table's terminator matches by compatible string or by ids |
| ResourceManager.Manager.DeviceIsAllocated | kernel/resources/resources.c:63-70 | exactly when the device is on the list |
| ResourceManager.Manager.FirstUnused | kernel/resources/resources.c:75-83 | the first slot of the pool not on the list, or none |
| ResourceManager.Manager.AcquireAvailable | kernel/resources/resources.c:133-179 | the first device in list order that matches, is free and initialises, in the first unused slot, at the head of the list; failure exactly when there is none, changing nothing; an operation of the allocation histories; the hook runs on matching free devices only |
| ResourceManager.Manager.TryDevice | kernel/resources/resources.c:139-175 | one device of the scan: passed over, out of slots, or acquired |
| ResourceManager.Manager.Bind | kernel/resources/resources.c:152-173 | a reserved slot joins the list, or goes back to the pool blank |
| ResourceManager.Manager.RemoveAllocation | kernel/resources/resources.c:107-121 | found exactly when on the list; then only its link disappears and the list stays linked |
| ResourceManager.Manager.Release | kernel/resources/resources.c:181-200 | -1 exactly when not allocated, changing nothing; else only its entry disappears and the others keep their order; an operation of the allocation histories |
| ResourceManager.BypassLinks | kernel/resources/resources.c:113-118 | bypassing a slot takes exactly it off an acyclic list |
| Netdev.Netdev.TryDriver | apps/netdev-mac/netdev.c:15-64 | a driver with a context left acquires for it, and moves to the next context only on success |
| Netdev.Netdev.NextDevice | apps/netdev-mac/netdev.c:11-68 | the first driver in order that can get a device gets it; those before it were out of contexts or devices |
| Netdev.Netdev.AcquireAll | apps/netdev-mac/netdev.c:8-74 | contexts handed out over all calls are pairwise distinct, the new allocations are exactly the devices returned, and fewer than asked for means every driver was out of contexts or devices |
| Netdev.HandOutNext | apps/netdev-mac/netdev.c:18-63 | the next context of a driver was never handed out before |
| PciBars.ProbesSize | kernel/devices/devices_riscv.c:80-100 | the size computed for every register the bus allows, misread ones included |
| PciBars.NoWrongSizeIff | kernel/devices/devices_riscv.c:80-100 | no register of a row of devices is given a size its range does not have exactly when no upper half of a 64-bit register has a hardwired bit and no I/O register hardwires upper bits |
| PciBars.SizesRightIff | kernel/devices/devices_riscv.c:80-100 | every register is given the size of its range, and an upper half none, exactly when no 64-bit register asks for 4 GB or more and no I/O register hardwires upper bits |
| PciBars.WriteBack | kernel/devices/devices_riscv.c:84-84 | writing back what was read restores the register |
| PciBars.MaskRoundsUp | kernel/devices/devices_riscv.c:119-119 | the mask trick is rounding up to the size |
| PciBars.RoundUpIsLeast | kernel/devices/devices_riscv.c:119-119 | nothing smaller from the cursor on is aligned |
| PciBars.Places | kernel/devices/devices_riscv.c:124-125 | a placed register keeps its type bits and reads back the address |
| PciBars.GivenRangesDisjoint | kernel/devices/devices_riscv.c:102-128 | after any sequence of placements the ranges handed out are aligned to their sizes, inside the window and disjoint |
| PciBars.AnswersToGivenIff | kernel/devices/devices_riscv.c:102-128 | after any sequence of placements a register answers to the range handed out for it, over all 64 address bits, exactly when it is no upper half and its own upper half, if any, read 0 from the start |
| PciBars.InWindowIff | kernel/devices/devices_riscv.c:102-128 | the range a placed register starts lies in the window exactly when its upper half, if any, read 0 |
| PciBars.DecodedDisjoint | kernel/devices/devices_riscv.c:102-128 | the ranges any two placed registers start are disjoint, wherever they lie |
| PciBars.UpperHalfMoves | kernel/devices/devices_riscv.c:102-128 | placing an upper half moves the range of its register, of 8 GB or more, behind the window |
| PciBars.UpperOf64GbMisread | kernel/devices/devices_riscv.c:80-128 | a concrete 64 GB range whose upper half is given 16 bytes of the window, which moves it |
| PciBars.Above4GbMissed | kernel/devices/devices_riscv.c:102-128 | a concrete 1 MB range at 32 GB that is given the start of the window and answers 32 GB above it |
| PciBars.RefusedIffNoRoom | kernel/devices/devices_riscv.c:115-122 | a memory register is refused exactly when no aligned range from the cursor on fits the window |
| PciBars.EveryRunTight | kernel/devices/devices_riscv.c:102-128 | each range handed out starts at the first multiple of its size behind the one before |
| PciBars.AssignKeepsSound | kernel/devices/devices_riscv.c:102-128 | one placement keeps all of this |
| PciAllocator.Allocator.ProbeSize | kernel/devices/devices_riscv.c:80-100 | the size computed, with every register as before |
| PciAllocator.Allocator.AssignIfNeeded | kernel/devices/devices_riscv.c:102-128 | the register is placed, or nothing changes; either way the result is what it reads |
| PciAllocator.Allocator.ReadAllBars | kernel/devices/devices_riscv.c:215-225 | probing all six registers leaves them as they were |
| PciAllocator.Allocator.ProcessDevice | kernel/devices/devices_riscv.c:295-340 | a present device has registers 0, 1 and 4 placed in this order and reports the range selected from what they then read |
| PciAllocator.Allocator.Enumerate | kernel/devices/devices_riscv.c:342-354 | all 64 devices in order; what was reported is what the registers read at the end |
| PciAllocator.ReportsDecodedIff | kernel/devices/devices_riscv.c:149-154 | the range reported from a register is the one the device answers to exactly when its upper half, if any, reads 0, it does not ask for 4 GB or more, and hardwires no upper I/O bits |
| PciAllocator.SelectReports | kernel/devices/devices_riscv.c:239-290 | the range reported is that of register 4 for a virtio device whose register 0 is I/O, else of a memory register 1 beside an I/O register 0, else of register 0 |
| PciAllocator.ReportsMean | kernel/devices/devices_riscv.c:342-354 | one report for every device that is there, in order, each the range of its device |
| Checksum.Fold | apps/network/ipv4/ipv4.c:58-60 | the folding loop ends with the one's-complement representative of the sum |
| Checksum.FoldedUnique | apps/network/ipv4/ipv4.c:58-62 | it is the only 16-bit value with the residue of the sum modulo 65535 that is zero only for zero |
| Checksum.SumHeader | apps/network/ipv4/ipv4.c:51-56 | the sum of the words in network order, without 32-bit overflow |
| Checksum.Completes | apps/network/ipv4/ipv4.c:90-92 | storing the complement of the folded sum where there was zero makes the whole verify |
| Checksum.DetectsOneWord | apps/network/ipv4/ipv4.c:65-78 | changing one word of verifying data goes undetected exactly when it swaps 0x0000 and 0xFFFF |
| Checksum.SumIsNumber | apps/network/ipv4/ipv4.c:51-60 | the sum of the words is, modulo 65535, the number the bytes are to the base 256; an odd last byte counts as if a zero followed |
| Checksum.VerifiesIff | apps/network/ipv4/ipv4.c:65-78 | bytes verify exactly when that number is a positive multiple of 65535 |
| Checksum.LoadSwaps | common/byteorder.h:39-56 | a word loaded in host order and swapped is the word in network order |
| Ipv4.BuiltVerifies | apps/network/ipv4/ipv4.c:80-93 | every built header verifies |
| Ipv4.DetectsAnyWord | apps/network/ipv4/ipv4.c:65-78 | a change of any one word of a built header fails verification, except 0x0000 for 0xFFFF and back |
| Ipv4.HeaderFields | apps/network/ipv4/ipv4.c:80-93 | where every field of a built header is, byte by byte |
| Ipv4.HeaderChecksum | apps/network/ipv4/ipv4.c:50-63 | the checksum in network order |
| Ipv4.VerifyChecksum | apps/network/ipv4/ipv4.c:65-78 | true exactly when the words fold to all ones |
| Ipv4.BuildHeader | apps/network/ipv4/ipv4.c:80-93 | exactly the header's 20 bytes are stored, and they verify |
| Tcp.PseudoSums | apps/network/tcp/tcp.c:82-88 | the sum the code starts from is the sum of the pseudo-header |
| Tcp.SegmentChecksum | apps/network/tcp/tcp.c:79-111 | the checksum over pseudo-header and segment of any length up to 65535, odd or even, without 32-bit overflow |
| Tcp.BuiltVerifies | apps/network/tcp/tcp.c:113-129 | every built segment of a length IPv4 can carry verifies with its pseudo-header |
| Tcp.HeaderFields | apps/network/tcp/tcp.c:113-129 | where every field of a built header is, byte by byte |
| Tcp.PseudoFields | apps/network/tcp/tcp.c:79-88 | the pseudo-header, byte by byte |
| Tcp.BuildHeader | apps/network/tcp/tcp.c:113-129 | exactly the header's 20 bytes are stored, and header and payload verify |
| Icmp.BuiltVerifies | apps/network/icmp/icmp.c:49-65 | every built echo header verifies |
| Icmp.HeaderFields | apps/network/icmp/icmp.c:49-65 | where every field of a built header is, byte by byte |
| Icmp.HeaderChecksum | apps/network/icmp/icmp.c:4-21 | the checksum of the eight header bytes, 0 for too short a length |
| Icmp.BuildRequest | apps/network/icmp/icmp.c:49-56 | exactly the request's bytes are stored, and they verify |
| Icmp.BuildResponse | apps/network/icmp/icmp.c:58-65 | exactly the reply's bytes are stored, and they verify |
| TcpServer.AgreeIffOnePart | apps/http-hello/http_hello.c:217-270 | on the segment a connection expects, the code's replies are those of a server keeping SND.NXT and RCV.NXT exactly when it carries at most one of SYN, data and FIN |
| TcpServer.RepliesOf | apps/http-hello/http_hello.c:228-270 | how many replies a segment gets, and every number in them |
| TcpServer.DataOnFinMisnumbered | apps/http-hello/http_hello.c:240-270 | a concrete request on a FIN whose FIN is acknowledged below the data |
| TcpServer.RefinesStateful | apps/http-hello/http_hello.c:161-164 | in every run of any number of interleaved clients that wait for each reply and send bare acknowledgments at any time, the replies to every segment under way are the stateful server's, none for an acknowledgment |
| TcpServer.GapFreeResponses | apps/http-hello/http_hello.c:216-271 | in every such run no client rejects a reply or gets one unasked, and each has received whole responses without a gap, one for every request sent but the one outstanding |
| TcpServer.RepliesExpected | apps/http-hello/http_hello.c:228-270 | in every such run a reply under way is the only one, acknowledges all its client sent, starts where the client expects the next byte, and carries a response exactly to a request |
| TcpServer.NextKeepsInv | apps/http-hello/http_hello.c:216-271 | every step keeps client and connection in agreement |
| HttpServer.PayloadLengthIff | apps/http-hello/http_hello.c:222-222 | the 16-bit payload length is what is left behind both headers exactly when the packet has no IP options and its total length covers them |
| HttpServer.AcceptedIff | apps/http-hello/http_hello.c:201-213 | the frames looked into are those of 54 bytes or more with type 0x0800, protocol 6 and destination port 80 |
| HttpServer.ParseReads | apps/http-hello/http_hello.c:201-222 | from a frame built with Ethernet, IPv4 and TCP headers the server reads the source address and port, the numbers, SYN, FIN and payload length that were put into it |
| HttpServer.Server.SendTcpPacket | apps/http-hello/http_hello.c:83-122 | the frame handed to the device is exactly the Ethernet, IPv4 and TCP headers and the payload |
| HttpServer.ReplyFrameVerifies | apps/http-hello/http_hello.c:83-122 | both checksums of every reply frame verify |
| HttpServer.ReplyReads | apps/http-hello/http_hello.c:83-122 | the client reads in a reply frame the request's addresses and ports exchanged, the reply's numbers, its length, flags and payload |
| HttpServer.Server.Process | apps/http-hello/http_hello.c:166-271 | for a received frame of any length: an ARP request is answered, a TCP frame to port 80 by exactly the connectionless server's replies, the counter moving with each SYN, and anything else by nothing |
| HttpServer.ArpAnswerReads | apps/http-hello/http_hello.c:180-194 | the requester reads in the answer its own addresses and that the address it asked for is at the server |
| HttpServer.ArpFromFrameIffWhole | apps/http-hello/http_hello.c:175-194 | the answer depends on nothing but the frame received exactly when that has the 42 bytes of a packet |
| Arp.BuildReply | apps/network/arp/arp.c:66-92 | exactly the 42 bytes of the reply are stored |
| Http.ResponseFits | apps/http-hello/http_hello.c:245-246 | every response fits its 192-byte buffer |
| Http.ResponseReads | apps/http-hello/http_hello.c:60-81 | a reader finds the headers, a content length that is the number of bytes after the blank line, and the client's address in them |
| Http.QuadReads | apps/http-hello/http_hello.c:32-46 | the dotted quad reads back as the address |
| Http.WriteHello | apps/http-hello/http_hello.c:32-46 | the body is stored |
| Http.BuildResponse | apps/http-hello/http_hello.c:60-81 | the response is stored |
| Decimal.DigitsDenote | apps/http-hello/http_hello.c:49-57 | the digits written for a number denote it |
| Decimal.DigitsCanonical | apps/packet-print/packet_print.c:124-139 | a numeral without leading zeros is the one written for its value |
| Decimal.WriteU8 | apps/http-hello/http_hello.c:15-29 | the numeral of an octet is stored |
| Decimal.WriteSize | apps/http-hello/http_hello.c:49-57 | the numeral of a size of up to four digits is stored |
| Decimal.ExtractDigits | apps/packet-print/packet_print.c:128-132 | the digits are extracted last first |
| Decimal.ReverseInPlace | apps/packet-print/packet_print.c:133-138 | the first bytes are reversed, the others kept |
| Ping.Answer | apps/packet-print/packet_print.c:101-142 | a ping is answered with pong and the canonical digits of the successor, anything else not |
| Ping.Carries | apps/packet-print/packet_print.c:106-110 | leading zeros and a non-digit tail do not change the number read |
| Ping.ParseNumber | apps/packet-print/packet_print.c:106-110 | the loop yields the value of the run of digits |
| Ping.AnswerCarriesSuccessor | apps/packet-print/packet_print.c:112-142 | the answer, read as a ping is, carries the successor |
| LogLevels.EveryInterleavingSettles | common/log.c:65-134 | after any interleaving of configuration and registration without conflicting overrides every tag has its override, else the global level, else its default, even with full tables |
| LogLevels.TagSettledIff | common/log.c:55-134 | after any interleaving, conflicts included, a tag has the last override recorded for its name since it was registered and since the last global level, else the promised level; so it is settled exactly when there is none or that is the promised level |
| LogLevels.OrderDoesNotMatter | common/log.c:55-134 | a tag's level depends on the configuration calls alone, not on when it was registered between them |
| LogLevels.ConflictDependsOnOrder | common/log.c:107-113 | two levels for one name: a tag registered before has the last, one registered after the first |
| LogLevels.OverrideSettlesIff | common/log.c:100-114 | a further override leaves the tags settled exactly when the table is full, no tag has the name, or no earlier override gave the name another level first |
| LogLevels.InitsDecide | common/log.c:65-121 | what configuration remembers does not depend on the tags |
| Log.Log.Init | common/log.c:65-121 | the pointer-advancing loop applies exactly the settings of the line's tokens, in order |
| Log.Log.ReadSetting | common/log.c:74-99 | what one token asks for |
| LogLevels.LevelNames | common/log.c:27-33 | the level each of the four words names, and that no other word names one |
| LogLevels.SettingsMean | common/log.c:74-114 | which tokens set the global level, which a tag's, and which nothing |
| Log.LineSettingsAreTokens | common/log.c:69-120 | the settings applied are those of the line's tokens |
| Log.Log.SetGlobal | common/log.c:82-90 | every registered tag gets the level or its override |
| Log.Log.AddOverride | common/log.c:99-114 | the override is recorded and applied, or ignored when the table is full |
| Log.Log.ApplyOverrides | common/log.c:55-63 | the first override for the tag's name wins |
| Log.Log.RegisterTag | common/log.c:123-134 | the tag gets the next slot and its level, or nothing when the registry is full |
| CmdLine.TokensAreRuns | kernel/init_apps.c:120-150 | the tokens are exactly the maximal runs of characters that are not blank, in order |
| InitApps.VisitsExactly | kernel/init_apps.c:24-117 | the tokens visited are exactly those equal to the parameter or starting with it and an equals sign, in order and once each |
| InitApps.FindParam | kernel/init_apps.c:120-150 | the first token from a position on that names the parameter, or none |
| InitApps.FindNextParam | kernel/init_apps.c:153-165 | the next such token |
| InitApps.ParamHasValue | kernel/init_apps.c:168-195 | exactly when the text behind the token's first equals sign is the value |
| InitApps.InitApps | kernel/init_apps.c:24-117 | the loop ends having visited those tokens in order, starting the applications their values name |
| InitApps.TokenStarts | kernel/init_apps.c:34-113 | a token starts the one application its value names, if there is one |
| DeviceTree.Registry.Add | kernel/devices/devices.c:14-56 | a device is appended at the end of the list, unless there are 128 |
| DeviceTree.Registry.Scan | kernel/devices/devices.c:97-113 | a first scan registers its first 128 devices in order and builds the hierarchy |
| DeviceTree.Registry.BuildTree | kernel/devices/devices.c:59-95 | the chain below the first depth-0 device is exactly the depth-1 devices in list order; without one nothing is linked |
| DeviceTree.Registry.PrintDevice | kernel/devices/devices.c:198-242 | the recursion ends having visited the device and the chain below it |
| DeviceTree.Registry.PrintTree | kernel/devices/devices.c:244-268 | the devices visited, in order, with or without a root |
| DeviceTree.PrintedExactlyOnce | kernel/devices/devices.c:244-268 | every registered device is printed exactly once |
| DeviceTree.PrintsRegistered | kernel/devices/devices.c:244-268 | only registered devices are printed |

## Left out

- VirtioRxRuns.DeliveredInOrder: the device writes only to buffers it holds; what a completion contains is the 2048 bytes from the start of its buffer, so at alignment offset 2 a reported length of 2047 or 2048 delivers the two bytes behind the buffer too, as the code does.
- ResourceManager.Manager.AcquireAvailable: the outcome of `init_context` is a parameter, and the hook is taken not to call the manager; devices and resources are named by index instead of pointer.
- FdtParser.ReadHeader: the blob, the structure block and the last whole word of it lie in memory, the block starts at a multiple of four, and its end does not wrap 32 bits, because the code then reads outside the blob.
- FdtParser.EnumerateDevices: under the assumptions of `ReadHeader`; the name of a property is looked up in the strings block by a total function, because bounds of malformed strings blocks are not modelled; names and property values are reported as byte slices instead of pointers.
- FdtParser.GetBootargs: the blob lies in memory and its structure block starts at a multiple of four; the returned value is the property's bytes; that they end in a terminator is up to the blob.
- DeviceTree.Registry.Scan: a first scan only; a second one would set parents of new devices without linking them below the root, because the chain is started only when there is none.
- DeviceTree.Registry.BuildTree: a first scan only, on a list without links, as in `Scan`.
- TcpServer.RefinesStateful: clients wait for each reply and send SYN, data and FIN in separate segments; losses, retransmissions, resets and window limits are not modelled.
- Tcp.BuildHeader: for payloads over 65515 bytes the 16-bit length wraps; the stored header is still stated, verification is not claimed, and IPv4 could not carry the segment.
- Ping.ParseNumber: requires a number whose successor fits the C `int`, because signed overflow is undefined there.
- InitApps.InitApps: applications are taken to return, in the order they are started; what they do is not modelled here.
- PciAllocator.Allocator.Enumerate: the command register and configuration addresses are not modelled; registers are named by bus, device and number.
- HttpServer.Server.Process: the receive buffer is a parameter; the frames handed to the network device are returned.
- Grouped accesses: the four fields of a descriptor are stored in one step (the device does not look at a reserved descriptor, `VirtioTxRuns.FieldsUnseen`); reading a completion, clearing its flag and counting it are one step (`VirtioTxRuns.ReclaimUnseen`); so are reading and checking a receive completion (`VirtioRxRuns.HeadStays`), reading, and clearing or passing over, a filled e1000 descriptor (`E1000.UnreadSafe`), and, on the device's side, writing a completion and its index. Fences are implied by the order of the steps.
- `rx_desc_in_use` is written but never read by the code; it appears only as the 16 bytes behind the transmit buffers, where an overlong packet in the last slot spills.
- The e1000 model has one row of bytes per receive buffer, so a length beyond the buffer is not an overrun.
- Register, port and MMIO access, device notification, feature negotiation and queue set-up: straight-line I/O.
- The rtl8139 driver, virtio-rng, the virtio-blk stub, e1000 transmit, the arm64 and amd64 enumerations, ARP requests, UDP builders, MAC applications: they would add easier members, or keep no invariant with the device.
- Console output, except for the order in which the device tree is printed.
