/** Probing and placing base address registers, as code over the configuration registers. */
module PciAllocator {
  import opened Bits
  import opened PciBars
  import opened Wrappers

  const BUSES: nat := 2
  const DEVICES: nat := 32

  datatype BarInfo = BarInfo(value: nat, size: nat)

  /** The range reported for a device. */
  datatype Selected = Selected(base: nat, size: nat)

  function AddressOf(value: nat): nat {
    if And(value, 1) != 0 then And(value, 0xFFFF_FFFC) else And(value, 0xFFFF_FFF0)
  }

  /** Which of the three registers gives the device's range. */
  function Select(vendor: nat, bar0: BarInfo, bar1: BarInfo, bar4: BarInfo): Selected {
    if vendor == 0x1AF4 && And(bar0.value, 1) != 0 then Selected(AddressOf(bar4.value), bar4.size)
    else if And(bar0.value, 1) != 0 && bar1.size > 0 && And(bar1.value, 1) == 0 then
      Selected(AddressOf(bar1.value), bar1.size)
    else Selected(AddressOf(bar0.value), bar0.size)
  }

  function InfoOf(r: Register): BarInfo {
    BarInfo(r.value, r.Probed())
  }

  predicate Present(vendor: nat) {
    vendor != 0 && vendor != 0xFFFF
  }

  /** The register whose range is reported for the device at `at`: register 4 of a virtio device whose register 0 is
      I/O, else the memory register 1 of a device whose register 0 is I/O, else register 0. */
  ghost function Choice(vendor: nat, bars: seq<Register>, at: nat): nat
    requires at + 4 < |bars|
  {
    if vendor == 0x1AF4 && bars[at].IsIo() then at + 4
    else if bars[at].IsIo() && bars[at + 1].Probed() > 0 && !bars[at + 1].IsIo() then at + 1
    else at
  }

  /** `r` is what that register holds besides its low two or four bits, and its size as computed; so it is the range the
      device answers to, if that is below 4 GB in size and place and the register hardwires no upper I/O bits. */
  ghost predicate Reported(vendor: nat, bars: seq<Register>, at: nat, r: Selected) {
    at + 4 < |bars| &&
    var i := Choice(vendor, bars, at);
    var v := bars[i].value;
    && r.size == bars[i].Probed() && r.base == v - v % (if v % 2 == 1 then 4 else 16)
    && (!Upper(bars, i) && UpperValue(bars, i) == 0 && !Huge(bars[i]) && !ShortIo(bars[i]) ==>
          r == Selected(Decoded(bars, i).base, Decoded(bars, i).size))
  }

  lemma {:induction false} SelectReports(vendor: nat, bars: seq<Register>, at: nat)
    requires Laid(bars) && at % BARS == 0 && at + BARS <= |bars|
    ensures Reported(vendor, bars, at, Select(vendor, InfoOf(bars[at]), InfoOf(bars[at + 1]), InfoOf(bars[at + 4])))
  {
    hide Low, Pow2, And, Register.Probed, Decoded, RangeSize, UpperValue;
    var i := Choice(vendor, bars, at);
    IoBit(bars, at);
    SizedIoBit(bars, at + 1);
    AddressMeans(bars, i);
    if !Upper(bars, i) {
      ReportsDecodedIff(bars, i);
    }
  }

  lemma {:induction false} IoBit(bars: seq<Register>, i: nat)
    requires Laid(bars) && i < |bars| && !Upper(bars, i)
    ensures And(bars[i].value, 1) != 0 <==> bars[i].IsIo()
  {
    assert bars[i].Ok(false);
    AndOne(bars[i].value);
    LowBit(bars[i].value, bars[i].bits);
  }

  lemma {:induction false} SizedIoBit(bars: seq<Register>, i: nat)
    requires Laid(bars) && i < |bars|
    ensures bars[i].Probed() > 0 ==> (And(bars[i].value, 1) != 0 <==> bars[i].IsIo())
  {
    KindAt(bars, i);
    AndOne(bars[i].value);
  }

  lemma {:induction false} AddressMeans(bars: seq<Register>, i: nat)
    requires Laid(bars) && i < |bars|
    ensures var v := bars[i].value; AddressOf(v) == v - v % (if v % 2 == 1 then 4 else 16)
  {
    hide Low, Pow2, And;
    var v := bars[i].value;
    assert bars[i].Ok(Upper(bars, i));
    PowersOfTwo();
    AndOne(v);
    AndHigh(v, 2, 32);
    AndHigh(v, 4, 32);
    Euclid(v, 2);
    Euclid(v, 4);
    RemainderIs(v, 4, Shr(v, 2), Low(v, 2));
    RemainderIs(v, 16, Shr(v, 4), Low(v, 4));
  }

  /** How many of the first `n` devices are there. */
  function Devices(vendors: seq<nat>, n: nat): nat
    requires n <= |vendors|
  {
    if n == 0 then 0 else Devices(vendors, n - 1) + if vendors[n - 1] == 0 || vendors[n - 1] == 0xFFFF then 0 else 1
  }

  /** One report for every device that is there, in order, and each the range of that device. */
  lemma {:induction false} ReportsMean(vendors: seq<nat>, bars: seq<Register>, n: nat, d: nat)
    requires Laid(bars) && d < n <= |vendors| && n * BARS <= |bars|
    ensures |Reports(vendors, bars, n)| == Devices(vendors, n)
    ensures vendors[d] != 0 && vendors[d] != 0xFFFF ==>
              Devices(vendors, d) < Devices(vendors, n)
              && Reported(vendors[d], bars, d * BARS, Reports(vendors, bars, n)[Devices(vendors, d)])
  {
    hide Reported, Select, Laid, InfoOf, Reports, Devices;
    ReportsCount(vendors, bars, n - 1);
    OneMoreReport(vendors, bars, n - 1);
    if d < n - 1 {
      ReportsMean(vendors, bars, n - 1, d);
    } else if vendors[d] != 0 && vendors[d] != 0xFFFF {
      FirstOfDevice(d);
      SelectReports(vendors[d], bars, d * BARS);
    }
  }

  lemma {:induction false} OneMoreReport(vendors: seq<nat>, bars: seq<Register>, n: nat)
    requires n < |vendors| && (n + 1) * BARS <= |bars|
    ensures var at := n * BARS;
            if vendors[n] == 0 || vendors[n] == 0xFFFF then
              Reports(vendors, bars, n + 1) == Reports(vendors, bars, n) && Devices(vendors, n + 1) == Devices(vendors, n)
            else
              && Devices(vendors, n + 1) == Devices(vendors, n) + 1
              && Reports(vendors, bars, n + 1)
              == Reports(vendors, bars, n)
                 + [Select(vendors[n], InfoOf(bars[at]), InfoOf(bars[at + 1]), InfoOf(bars[at + 4]))]
  {
    hide Select, InfoOf;
  }

  lemma {:induction false} ReportsCount(vendors: seq<nat>, bars: seq<Register>, n: nat)
    requires n <= |vendors| && n * BARS <= |bars|
    ensures |Reports(vendors, bars, n)| == Devices(vendors, n)
  {
    hide Select;
    if n > 0 {
      ReportsCount(vendors, bars, n - 1);
    }
  }

  lemma FirstOfDevice(d: nat)
    ensures (d * BARS) % BARS == 0
  {}

  /** The registers placed for the device whose first register is `at`. */
  function Turns(vendor: nat, at: nat): seq<nat> {
    if Present(vendor) then [at, at + 1, at + 4] else []
  }

  /** The registers placed for the first `n` devices, in order. */
  function TurnsOf(vendors: seq<nat>, n: nat): (ats: seq<nat>)
    requires n <= |vendors|
    ensures forall i | 0 <= i < |ats| :: ats[i] < n * BARS
  {
    if n == 0 then [] else TurnsOf(vendors, n - 1) + Turns(vendors[n - 1], (n - 1) * BARS)
  }

  /** The ranges the first `n` devices report, given what the registers read. */
  function Reports(vendors: seq<nat>, bars: seq<Register>, n: nat): seq<Selected>
    requires n <= |vendors| && n * BARS <= |bars|
  {
    if n == 0 then []
    else
      var at := (n - 1) * BARS;
      var before := Reports(vendors, bars, n - 1);
      if !Present(vendors[n - 1]) then before
      else before + [Select(vendors[n - 1], InfoOf(bars[at]), InfoOf(bars[at + 1]), InfoOf(bars[at + 4]))]
  }

  lemma {:induction false} ReportsFrame(vendors: seq<nat>, bars: seq<Register>, bars': seq<Register>, n: nat)
    requires n <= |vendors| && n * BARS <= |bars| && |bars'| == |bars|
    requires forall b | 0 <= b < n * BARS :: bars'[b] == bars[b]
    ensures Reports(vendors, bars', n) == Reports(vendors, bars, n)
  {
    if n > 0 {
      ReportsFrame(vendors, bars, bars', n - 1);
    }
  }

  /** A device's turn leaves the registers before its own alone. */
  lemma {:induction false} TurnsFrame(s: Allocation, vendor: nat, at: nat)
    requires at + BARS <= |s.bars|
    ensures forall b | 0 <= b < at :: AssignAll(s, Turns(vendor, at)).bars[b] == s.bars[b]
  {
    AssignThree(s, at);
    assert AssignAll(s, []) == s;
  }

  lemma {:induction false} AssignAllAppend(s: Allocation, ats: seq<nat>, bs: seq<nat>)
    requires (forall i | 0 <= i < |ats| :: ats[i] < |s.bars|) && forall i | 0 <= i < |bs| :: bs[i] < |s.bars|
    ensures AssignAll(s, ats + bs) == AssignAll(AssignAll(s, ats), bs)
    decreases |bs|
  {
    if bs == [] {
      assert ats + bs == ats;
    } else {
      var init := bs[..|bs| - 1];
      assert (ats + bs)[..|ats + bs| - 1] == ats + init;
      AssignAllAppend(s, ats, init);
    }
  }

  lemma {:induction false} AssignThree(s: Allocation, at: nat)
    requires at + 4 < |s.bars|
    ensures AssignAll(s, [at, at + 1, at + 4]) == Assign(Assign(Assign(s, at), at + 1), at + 4)
  {
    assert [at, at + 1, at + 4][..2] == [at, at + 1] && [at, at + 1][..1] == [at] && [at][..0] == [];
    assert AssignAll(s, [at]) == Assign(s, at);
    assert AssignAll(s, [at, at + 1]) == Assign(Assign(s, at), at + 1);
  }

  /** Placing one register keeps what the others read and what every register asks for. */
  lemma {:induction false} AssignFrame(s: Allocation, at: nat, b: nat)
    requires at < |s.bars| && b < |s.bars|
    ensures Assign(s, at).bars[b].Probed() == s.bars[b].Probed()
    ensures b != at ==> Assign(s, at).bars[b] == s.bars[b]
  {
    hide Low, Pow2, RoundUp;
  }

  class Allocator {
    var next: nat
    const bars: array<Register>
    ghost var regions: seq<Region>
    ghost var current: map<nat, nat>

    ghost function State(): Allocation
      reads this, bars
    {
      Allocation(next, bars[..], regions, current)
    }

    ghost predicate Valid()
      reads this, bars
    {
      bars.Length == 384 && Sound(State())
    }

    constructor (bars: array<Register>)
      requires bars.Length == 384 && Laid(bars[..])
      ensures Valid() && Tight(State()) && regions == [] && current == map[] && this.bars == bars
    {
      this.next, this.bars, regions, current := MMIO_BASE, bars, [], map[];
    }

    /** `pci_probe_bar_size` on a register that reads the same afterwards. */
    method ProbeSize(at: nat) returns (size: nat)
      requires Valid() && at < bars.Length
      modifies bars
      ensures bars[..] == old(bars[..]) && size == bars[at].Probed()
    {
      hide Register.Write, Register.Probed, Low, Ordered, Held;
      ghost var r, upper := bars[at], Upper(bars[..], at);
      var original := bars[at].value;
      assert r.Ok(upper);
      ProbesSize(r, upper);
      bars[at] := bars[at].Write(0xFFFF_FFFF);
      var mask := bars[at].value;
      WriteBack(r, upper, 0xFFFF_FFFF);
      bars[at] := bars[at].Write(original);
      assert bars[..] == old(bars[..]);
      if mask == 0 || mask == 0xFFFF_FFFF { return 0; }
      if And(original, 1) == 0 {
        mask := And(mask, 0xFFFF_FFF0);
      } else {
        mask := And(mask, 0xFFFF_FFFC);
      }
      size := (Not32(mask) + 1) % 0x1_0000_0000;
    }

    /** `pci_assign_bar_if_needed` on a probed register: place it or change nothing; either way the register
        reads what is returned. */
    method AssignIfNeeded(at: nat, size: nat) returns (value: nat)
      requires Valid() && at < bars.Length && size == bars[at].Probed()
      modifies this, bars
      ensures Valid() && State() == Assign(old(State()), at)
      ensures value == bars[at].value
    {
      hide Low, Pow2, RoundUp, And, Or, Ordered, Held, Register.Ok, Register.Probed, Register.Write;
      AssignKeepsSound(State(), at);
      value := bars[at].value;
      AndOne(value);
      KindAt(bars[..], at);
      if And(value, 1) != 0 { return; }
      if size == 0 { return; }
      RoundsUp(next, bars[at].Exp());
      if next + size > MMIO_LIMIT { return; }
      MaskRoundsUp(next, bars[at].Exp());
      var aligned := MaskUp(next, size);
      if aligned + size > MMIO_LIMIT { return; }
      Placed(State(), at);
      Places(bars[at], Upper(bars[..], at), aligned);
      value := NewValue(aligned, value);
      ghost var before := State();
      bars[at] := bars[at].Write(value);
      next := aligned + size;
      regions, current := regions + [Region(aligned, size)], current[at := |regions|];
      assert bars[..] == before.bars[at := bars[at]];
    }

    /** `pci_read_bar` */
    method ReadBar(at: nat) returns (info: BarInfo)
      requires Valid() && at < bars.Length
      modifies bars
      ensures bars[..] == old(bars[..]) && info == InfoOf(bars[at])
    {
      var size := ProbeSize(at);
      info := BarInfo(bars[at].value, size);
    }

    /** `pci_print_all_bars`: probes all six registers, and leaves them as they were. */
    method ReadAllBars(at: nat) returns (implemented: seq<BarInfo>)
      requires Valid() && at + BARS <= bars.Length
      modifies bars
      ensures bars[..] == old(bars[..])
    {
      implemented := [];
      for i := 0 to BARS
        invariant bars[..] == old(bars[..])
      {
        var info := ReadBar(at + i);
        if info.value != 0 {
          implemented := implemented + [info];
        }
      }
    }

    /** Place a register that was read before, if it has a size. */
    method Place(at: nat, info: BarInfo) returns (placed: BarInfo)
      requires Valid() && at < bars.Length && info == InfoOf(bars[at])
      modifies this, bars
      ensures Valid() && State() == Assign(old(State()), at)
      ensures placed == InfoOf(bars[at])
    {
      hide Low, Pow2, RoundUp, Ordered, Held;
      placed := info;
      AssignFrame(State(), at, at);
      if info.size > 0 {
        var value := AssignIfNeeded(at, info.size);
        placed := info.(value := value);
      }
    }

    /** `pci_process_device`: place registers 0, 1 and 4 of a device that is present, and report the range
        selected from what they then read. */
    method ProcessDevice(vendor: nat, at: nat) returns (found: Option<Selected>)
      requires Valid() && at + BARS <= bars.Length
      modifies this, bars
      ensures Valid() && State() == AssignAll(old(State()), Turns(vendor, at))
      ensures found == if !Present(vendor) then None
                       else Some(Select(vendor, InfoOf(bars[at]), InfoOf(bars[at + 1]), InfoOf(bars[at + 4])))
      ensures found.None? <==> vendor == 0 || vendor == 0xFFFF
      ensures State() == if found.None? then old(State())
                         else Assign(Assign(Assign(old(State()), at), at + 1), at + 4)
      ensures found.Some? && at % 6 == 0 ==> Reported(vendor, bars[..], at, found.value)
    {
      hide Sound, Assign, Register.Probed, Select, Reported;
      assert AssignAll(State(), []) == State();
      if !Present(vendor) { return None; }
      ghost var s := State();
      AssignThree(s, at);
      var bar0 := ReadBar(at);
      var bar1 := ReadBar(at + 1);
      var bar4 := ReadBar(at + 4);
      assert State() == s;
      AssignFrame(s, at, at + 1);
      AssignFrame(s, at, at + 4);
      bar0 := Place(at, bar0);
      AssignFrame(State(), at + 1, at);
      AssignFrame(State(), at + 1, at + 4);
      bar1 := Place(at + 1, bar1);
      AssignFrame(State(), at + 4, at);
      AssignFrame(State(), at + 4, at + 1);
      bar4 := Place(at + 4, bar4);
      ghost var s' := State();
      var _ := ReadAllBars(at);
      assert State() == s';
      found := Some(Select(vendor, bar0, bar1, bar4));
      RowOf();
      if at % BARS == 0 {
        SelectReports(vendor, bars[..], at);
      }
    }

    lemma RowOf()
      requires Valid()
      ensures Laid(bars[..])
    {}

    /** One device of the enumeration, the `n`th. */
    method ProcessNext(ghost s: Allocation, vendors: seq<nat>, n: nat, found: seq<Selected>) returns (found': seq<Selected>)
      requires Valid() && |vendors| == BUSES * DEVICES && n < BUSES * DEVICES && |s.bars| == bars.Length
      requires State() == AssignAll(s, TurnsOf(vendors, n)) && found == Reports(vendors, bars[..], n)
      modifies this, bars
      ensures Valid() && State() == AssignAll(s, TurnsOf(vendors, n + 1)) && found' == Reports(vendors, bars[..], n + 1)
    {
      hide Sound, Assign, Select, Present, InfoOf;
      AssignAllAppend(s, TurnsOf(vendors, n), Turns(vendors[n], n * BARS));
      TurnsFrame(State(), vendors[n], n * BARS);
      ReportsFrame(vendors, bars[..], AssignAll(State(), Turns(vendors[n], n * BARS)).bars, n);
      var r := ProcessDevice(vendors[n], n * BARS);
      found' := if r.Some? then found + [r.value] else found;
    }

    /** `pcie_enumerate_devices`: two buses of 32 devices; `vendors` is what their vendor registers read. What
        was reported is what the registers read at the end. */
    method Enumerate(vendors: seq<nat>) returns (found: seq<Selected>)
      requires Valid() && |vendors| == 64
      modifies this, bars
      ensures Valid() && State() == AssignAll(old(State()), TurnsOf(vendors, 64))
      ensures found == Reports(vendors, bars[..], 64)
    {
      hide Sound, Assign, AssignAll, Select, Present, InfoOf;
      found := [];
      ghost var s := State();
      NoTurns(s, vendors);
      for bus := 0 to BUSES
        invariant Valid() && State() == AssignAll(s, TurnsOf(vendors, bus * DEVICES))
        invariant found == Reports(vendors, bars[..], bus * DEVICES)
      {
        for dev := 0 to DEVICES
          invariant Valid() && State() == AssignAll(s, TurnsOf(vendors, bus * DEVICES + dev))
          invariant found == Reports(vendors, bars[..], bus * DEVICES + dev)
        {
          found := ProcessNext(s, vendors, bus * DEVICES + dev, found);
        }
      }
    }
  }

  lemma NoTurns(s: Allocation, vendors: seq<nat>)
    ensures AssignAll(s, TurnsOf(vendors, 0)) == s && TurnsOf(vendors, 0) == []
  {}

  /** The low bit of what a register reads tells I/O from memory, whenever the register has a size. */
  lemma {:induction false} KindAt(bars: seq<Register>, at: nat)
    requires Laid(bars) && at < |bars|
    ensures var r := bars[at];
            && (r.Probed() == 0 || (r.value % 2 != 0 <==> r.IsIo()))
            && (r.Probed() > 0 && !r.IsIo() ==> r.Probed() == Pow2(r.Exp()) && r.Exp() <= 32)
  {
    hide Low, Pow2;
    var r := bars[at];
    assert r.Ok(Upper(bars, at));
    if r.bits > 0 {
      LowBit(r.value, r.bits);
    }
  }

  /** The address reported for a register is what it holds besides its hardwired bits. */
  lemma {:induction false} AddressIsBase(r: Register)
    requires r.Ok(false)
    ensures AddressOf(r.value) == r.Base()
  {
    hide Low, Pow2, And;
    PowersOfTwo();
    AndOne(r.value);
    LowBit(r.value, r.bits);
    var j := if r.IsIo() then 2 else 4;
    AndHigh(r.value, j, 32);
    LowLow(r.value, j, r.bits);
    Pow2Grows(1, j);
    assert Low(r.flags, j) == r.flags by { FlagsFit(r.flags, j); }
  }

  lemma {:induction false} FlagsFit(flags: nat, j: nat)
    requires (j == 2 && flags == 1) || (j == 4 && flags < 16)
    ensures Low(flags, j) == flags
  {
    PowersOfTwo();
    LowAll(flags, j);
  }

  /** The range reported from a register is the one the device answers to exactly when it is below 4 GB in size and
      place, and the register hardwires no upper I/O bits. */
  lemma {:induction false} ReportsDecodedIff(bars: seq<Register>, i: nat)
    requires Laid(bars) && i < |bars| && !Upper(bars, i)
    ensures AddressOf(bars[i].value) == Decoded(bars, i).base && bars[i].Probed() == Decoded(bars, i).size
            <==> UpperValue(bars, i) == 0 && !Huge(bars[i]) && !ShortIo(bars[i])
  {
    hide AddressOf, Register.Probed, Register.Base, RangeSize, Register.Ok;
    assert bars[i].Ok(false);
    AddressIsBase(bars[i]);
    SizeRight(bars, i);
  }
}
