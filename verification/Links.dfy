/** Singly linked lists threaded through a static array, named by index. */
module Links {
  import opened Wrappers

  /** What follows position `i` of a list; position -1 is the list head. */
  function Link(list: seq<nat>, i: int): Option<nat>
    requires -1 <= i < |list|
  {
    if i + 1 < |list| then Some(list[i + 1]) else None
  }
}
