/** The trace ring's calls on the buffer itself, when neither side moves under
    the other. */
module TraceBuffer {
  import opened RingSlots
  import opened TraceRing

  class Buffer<E> {
    const ev: array<E>
    var w: nat
    var r: nat
    var dropped: nat

    ghost predicate Valid()
      reads this
    {
      ev.Length == CAP && w < CAP && r < CAP && dropped < TWO_32
    }

    /** The events that wait, oldest first. */
    ghost function Waiting(): seq<E>
      requires Valid()
      reads this, ev
    {
      Laid(ev[..], r, Size(w, r))
    }

    constructor (blank: E)
      ensures Valid() && Waiting() == [] && dropped == 0 && fresh(ev)
    {
      ev := new E[CAP](i => blank);
      w, r, dropped := 0, 0, 0;
    }

    /** `lxb_ring_push`: a full ring counts the drop and keeps its events. */
    method Push(e: E) returns (ok: bool)
      requires Valid()
      modifies this, ev
      ensures Valid() && ok == (|old(Waiting())| < 8191)
      ensures Waiting() == if ok then old(Waiting()) + [e] else old(Waiting())
      ensures dropped == if ok then old(dropped) else (old(dropped) + 1) % 0x1_0000_0000
    {
      if (w + 1) % CAP == r {
        dropped := (dropped + 1) % TWO_32;
        return false;
      }
      ev[w] := e;
      w := (w + 1) % CAP;
      ok := true;
    }

    /** `lxb_ring_pop` */
    method Pop(blank: E) returns (some: bool, e: E)
      requires Valid()
      modifies this
      ensures Valid() && some == (old(Waiting()) != []) && dropped == old(dropped)
      ensures some ==> e == old(Waiting())[0] && Waiting() == old(Waiting())[1..]
      ensures !some ==> Waiting() == old(Waiting())
    {
      some, e := r != w, blank;
      if some {
        e := ev[r];
        r := (r + 1) % CAP;
      }
    }

    /** `lxb_ring_size` */
    method Used() returns (n: nat)
      requires Valid()
      ensures n == |Waiting()|
    {
      n := if w >= r then w - r else w + CAP - r;
    }
  }
}
