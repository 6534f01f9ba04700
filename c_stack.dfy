/**
 * The bounded LIFO stack of the C rewrite (libber): a fixed array of
 * LIBBER_MAX_SIZE unsigned 16-bit entries and a `top` index, -1 when empty.
 * Every operation reports failure by returning -1.
 */
module CStack {

  /** LIBBER_MAX_SIZE */
  const MaxSize: int := 1000

  /** uint16_t */
  newtype u16 = x: int | 0 <= x < 0x1_0000

  class Stack {
    var data: array<u16>
    var top: int

    /** `top` always stays within -1 .. MaxSize - 1. */
    ghost predicate Valid()
      reads this
    {
      data.Length == MaxSize && -1 <= top < MaxSize
    }

    /** The stored entries, bottom first. */
    ghost function Contents(): (s: seq<u16>)
      reads this, data
      requires Valid()
      ensures |s| == top + 1
    {
      data[..top + 1]
    }

    /** stack_init: a stack with `top == -1`, hence empty. */
    constructor Init()
      ensures Valid() && fresh(data)
      ensures top == -1 && Contents() == []
    {
      data := new u16[MaxSize];
      top := -1;
    }

    /** stack_empty */
    method IsEmpty() returns (r: bool)
      requires Valid()
      ensures r <==> top == -1
      ensures r <==> Contents() == []
    {
      r := top == -1;
    }

    /** stack_full: exactly MaxSize entries are stored. */
    method IsFull() returns (r: bool)
      requires Valid()
      ensures r <==> top == MaxSize - 1
      ensures r <==> |Contents()| == MaxSize
    {
      r := top == MaxSize - 1;
    }

    /**
     * stack_push: on a full stack returns -1 and changes nothing; otherwise
     * stores `v` one above the old top, returns `v`, and leaves every other
     * slot as it was.
     */
    method Push(v: u16) returns (r: int)
      requires Valid()
      modifies this`top, data
      ensures Valid() && data == old(data)
      ensures old(top) == MaxSize - 1 ==> r == -1 && top == old(top) && data[..] == old(data[..])
      ensures old(top) < MaxSize - 1 ==>
                r == v as int && top == old(top) + 1 && data[top] == v &&
                forall k :: 0 <= k < data.Length && k != top ==> data[k] == old(data[k])
      ensures Contents() == if old(top) == MaxSize - 1 then old(Contents()) else old(Contents()) + [v]
    {
      var full := IsFull();
      if full {
        return -1;
      }
      top := top + 1;
      data[top] := v;
      r := v as int;
    }

    /**
     * stack_pop: on an empty stack returns -1 and changes nothing; otherwise
     * returns the top entry and removes it.
     */
    method Pop() returns (r: int)
      requires Valid()
      modifies this`top
      ensures Valid() && unchanged(data)
      ensures old(top) == -1 ==> r == -1 && top == -1
      ensures old(top) != -1 ==> r == old(data[top]) as int && top == old(top) - 1
      ensures old(Contents()) == [] ==> Contents() == []
      ensures old(Contents()) != [] ==>
                r == old(Contents())[|old(Contents())| - 1] as int &&
                Contents() == old(Contents())[..|old(Contents())| - 1]
    {
      var empty := IsEmpty();
      if empty {
        return -1;
      }
      r := data[top] as int;
      top := top - 1;
    }

    /** stack_peek: the top entry, or -1 when empty; nothing changes. */
    method Peek() returns (r: int)
      requires Valid()
      ensures Contents() == [] ==> r == -1
      ensures Contents() != [] ==> r == Contents()[|Contents()| - 1] as int
    {
      var empty := IsEmpty();
      if empty {
        return -1;
      }
      r := data[top] as int;
    }
  }

  /**
   * LIFO: pushing onto a stack that is not full and popping again yields the
   * pushed value and restores the previous contents.
   */
  method PushThenPop(s: Stack, v: u16) returns (r: int)
    requires s.Valid() && s.top < MaxSize - 1
    modifies s`top, s.data
    ensures s.Valid()
    ensures r == v as int
    ensures s.top == old(s.top) && s.Contents() == old(s.Contents())
  {
    var pushed := s.Push(v);
    r := s.Pop();
  }
}
