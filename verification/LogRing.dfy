/** One thread's ring, as `ring_put`, `ring_take` and `ring_push` use it. */
module LogRing {
  import opened Bytes
  import opened LogRecord

  /** `n` bytes from position `pos` on. */
  ghost function Window(buf: seq<byte>, pos: nat, n: nat): (s: seq<byte>)
    requires |buf| == RING
    ensures |s| == n
  {
    seq(n, i requires 0 <= i < n => buf[(pos + i) % RING])
  }

  /** How far past `pos` the slot `k` lies. */
  function Offset(pos: nat, k: nat): nat
    requires k < RING
  {
    (k + RING - pos % RING) % RING
  }

  lemma OffsetOf(pos: nat, i: nat)
    requires i < RING
    ensures Offset(pos, (pos + i) % RING) == i
  {
    var p := pos % RING;
    assert (pos + i) % RING == (p + i) % RING by {
      assert pos == RING * (pos / RING) + p;
      assert pos + i == RING * (pos / RING) + (p + i);
      ModShift(pos / RING, p + i);
    }
    if p + i < RING {
      assert (p + i) % RING == p + i;
    } else {
      assert (p + i) % RING == p + i - RING;
    }
  }

  lemma ModShift(q: nat, x: nat)
    ensures (RING * q + x) % RING == x % RING
  {
  }

  class Ring {
    const buf: array<byte>
    var prod: nat
    var cons: nat
    ghost var queue: seq<Rec>

    ghost predicate Valid()
      reads this, buf
    {
      && buf.Length == RING
      && cons <= prod <= cons + RING
      && Holds(buf[..], cons, prod, queue)
    }

    constructor ()
      ensures Valid() && queue == [] && fresh(buf)
    {
      buf := new byte[RING];
      prod, cons, queue := 0, 0, [];
    }

    /** `ring_put`: up to the end of the buffer, then from its start. */
    method Put(pos: nat, src: seq<byte>)
      requires buf.Length == RING && |src| <= RING
      modifies buf
      ensures forall k :: 0 <= k < RING ==>
                buf[k] == if Offset(pos, k) < |src| then src[Offset(pos, k)] else old(buf[k])
    {
      var off := pos % RING;
      var first := RING - off;
      if first > |src| { first := |src|; }
      var i := 0;
      while i < first
        invariant 0 <= i <= first
        invariant forall k :: 0 <= k < RING ==> buf[k] == if off <= k < off + i then src[k - off] else old(buf[k])
      {
        buf[off + i] := src[i];
        i := i + 1;
      }
      if |src| > first {
        i := 0;
        while i < |src| - first
          invariant 0 <= i <= |src| - first
          invariant forall k :: 0 <= k < RING ==>
                      buf[k] == if off <= k then src[k - off] else if k < i then src[first + k] else old(buf[k])
        {
          buf[i] := src[first + i];
          i := i + 1;
        }
      }
    }

    /** `ring_take` */
    method Take(pos: nat, n: nat) returns (dst: seq<byte>)
      requires buf.Length == RING && n <= RING
      ensures dst == Window(buf[..], pos, n)
    {
      var off := pos % RING;
      var first := RING - off;
      if first > n { first := n; }
      dst := buf[off..off + first];
      if n > first { dst := dst + buf[..n - first]; }
      forall i | 0 <= i < n ensures dst[i] == buf[(pos + i) % RING] {
        OffsetOf(pos, i);
        WrapAt(pos, i);
      }
    }

    /** `ring_push`: queued, or no room. */
    method Push(r: Rec) returns (ok: bool)
      requires Valid() && LogRecord.Valid(r)
      modifies this`prod, this`queue, buf
      ensures Valid() && cons == old(cons)
      ensures ok <==> old(prod) - cons + Size(|r.line|) <= 256 * 1024
      ensures queue == if ok then old(queue) + [r] else old(queue)
      ensures prod == if ok then old(prod) + Size(|r.line|) else old(prod)
    {
      hide Header, Holds, Size;
      var need := Size(|r.line|);
      if prod - cons + need > RING { return false; }
      ghost var was := buf[..];
      Put(prod, Header(r));
      Put(prod + REC_HDR, r.line);
      PutBoth(was, buf[..], prod, r);
      WrittenBehind(was, buf[..], cons, prod, queue, r);
      HoldsAppend(buf[..], cons, prod, queue, r);
      prod := prod + need;
      queue := queue + [r];
      ok := true;
    }

    /** The header of the oldest record. */
    method Peek() returns (h: Head)
      requires Valid() && queue != []
      ensures h == HeadOf(queue[0])
    {
      hide Size, Header;
      ghost var want := queue[0];
      HeadReadsBack(want);
      ImageAt(buf[..], cons, want);
      var header := Take(cons, REC_HDR);
      assert header == Image(want)[..REC_HDR] == Header(want);
      h := ReadHead(header);
    }

    /** The line behind a header that was read, and the record given up. */
    method Give(h: Head) returns (r: Rec)
      requires Valid() && queue != [] && h == HeadOf(queue[0])
      modifies this`cons, this`queue
      ensures Valid() && prod == old(prod)
      ensures r == old(queue)[0] && queue == old(queue)[1..]
      ensures cons == old(cons) + Size(|r.line|)
    {
      hide Size, Header;
      ghost var want := queue[0];
      HoldsOrdered(buf[..], cons + Size(|want.line|), prod, queue[1..]);
      ImageAt(buf[..], cons, want);
      var line := Take(cons + REC_HDR, h.len);
      assert line == want.line by { WindowShift(buf[..], cons, REC_HDR, h.len); }
      r := Rec(h.ts, h.level, line);
      cons := cons + Size(h.len);
      queue := queue[1..];
    }

    /** The oldest record, read back and given up, as one round of the writer does. */
    method TakeOldest() returns (r: Rec)
      requires Valid() && queue != []
      modifies this`cons, this`queue
      ensures Valid() && prod == old(prod)
      ensures r == old(queue)[0] && queue == old(queue)[1..]
      ensures cons == old(cons) + Size(|r.line|)
    {
      var h := Peek();
      r := Give(h);
    }
  }

  lemma WrapAt(pos: nat, i: nat)
    requires i < RING
    ensures (pos + i) % RING == if pos % RING + i < RING then pos % RING + i else pos % RING + i - RING
  {
    ModShift(pos / RING, pos % RING + i);
  }

  lemma ImageAt(buf: seq<byte>, pos: nat, r: Rec)
    requires |buf| == RING && Stored(buf, pos, r)
    ensures Window(buf, pos, REC_HDR + |r.line|) == Image(r)
    ensures Window(buf, pos, REC_HDR) == Image(r)[..REC_HDR]
  {
  }

  lemma WindowShift(buf: seq<byte>, pos: nat, a: nat, n: nat)
    requires |buf| == RING
    ensures Window(buf, pos + a, n) == Window(buf, pos, a + n)[a..]
  {
  }

  /** The header and the line, one behind the other, are the record's bytes; the
      rest of the ring is as it was. */
  lemma PutBoth(was: seq<byte>, now: seq<byte>, pos: nat, r: Rec)
    requires |was| == RING && |now| == RING && LogRecord.Valid(r)
    requires forall k :: 0 <= k < RING ==>
               now[k] == if Offset(pos + REC_HDR, k) < |r.line| then r.line[Offset(pos + REC_HDR, k)]
                         else if Offset(pos, k) < REC_HDR then Header(r)[Offset(pos, k)] else was[k]
    ensures Stored(now, pos, r)
    ensures forall q :: pos + |Image(r)| <= q < pos + RING ==> now[q % RING] == was[q % RING]
  {
    hide Header;
    forall i | pos <= i < pos + |Image(r)| ensures now[i % RING] == Image(r)[i - pos] {
      OffsetOf(pos, i - pos);
      OffsetBehind(pos, i % RING);
    }
    forall q | pos + |Image(r)| <= q < pos + RING ensures now[q % RING] == was[q % RING] {
      OffsetOf(pos, q - pos);
      OffsetBehind(pos, q % RING);
    }
  }

  lemma OffsetBehind(pos: nat, k: nat)
    requires k < RING
    ensures Offset(pos + REC_HDR, k) ==
            if Offset(pos, k) >= REC_HDR then Offset(pos, k) - REC_HDR else Offset(pos, k) + RING - REC_HDR
  {
    WrapAt(pos, REC_HDR);
  }

  /** Bytes written past the queue leave what it holds. */
  lemma {:induction false} WrittenBehind(was: seq<byte>, now: seq<byte>, pos: nat, end: nat, recs: seq<Rec>, r: Rec)
    requires |was| == RING && |now| == RING && LogRecord.Valid(r)
    requires Holds(was, pos, end, recs) && end - pos + |Image(r)| <= RING
    requires forall q :: end + |Image(r)| <= q < end + RING ==> now[q % RING] == was[q % RING]
    ensures Holds(now, pos, end, recs)
    decreases |recs|
  {
    hide Image;
    HoldsOrdered(was, pos, end, recs);
    if recs != [] {
      var n := pos + Size(|recs[0].line|);
      HoldsOrdered(was, n, end, recs[1..]);
      WrittenBehind(was, now, n, end, recs[1..], r);
      forall i | pos <= i < pos + |Image(recs[0])| ensures now[i % RING] == was[i % RING] {
        assert (i + RING) % RING == i % RING;
      }
    }
  }
}
