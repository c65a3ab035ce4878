/** A queued log line and the bytes it takes in a ring. */
module LogRecord {
  import opened Bytes
  import opened RingSlots

  const RING: nat := 0x4_0000
  const REC_HDR: nat := 16
  const LINE_MAX: nat := 4096
  const NLEVELS: nat := 6

  datatype Rec = Rec(ts: nat, level: nat, line: seq<byte>)

  /** What the queueing arm of `log_log` hands over: a formatted line is never
      empty and fits its buffer, and the level is below FATAL. */
  predicate Valid(r: Rec) {
    r.ts < TWO_64 && r.level < NLEVELS - 1 && 1 <= |r.line| < LINE_MAX
  }

  /** `rec_size`: header and line, padded to 8. */
  function Size(len: nat): (n: nat)
    ensures n >= REC_HDR + len && n % 8 == 0
  {
    REC_HDR + (len + 7) / 8 * 8
  }

  /** `k` bytes, least significant first. */
  function Le(n: nat, k: nat): (s: seq<byte>)
    ensures |s| == k
  {
    if k == 0 then [] else [n % 256] + Le(n / 256, k - 1)
  }

  function FromLe(s: seq<byte>): nat {
    if s == [] then 0 else s[0] + 256 * FromLe(s[1..])
  }

  function Pow256(k: nat): (p: nat)
    ensures p >= 1
  {
    if k == 0 then 1 else 256 * Pow256(k - 1)
  }

  lemma {:induction false} LeRoundTrip(n: nat, k: nat)
    requires n < Pow256(k)
    ensures FromLe(Le(n, k)) == n
    decreases k
  {
    if k > 0 {
      assert n / 256 < Pow256(k - 1);
      LeRoundTrip(n / 256, k - 1);
      assert Le(n, k)[1..] == Le(n / 256, k - 1);
    }
  }

  /** The header as it lies in memory: stamp, length, level, padding. */
  function Header(r: Rec): (s: seq<byte>)
    requires Valid(r)
    ensures |s| == REC_HDR
  {
    Le(r.ts, 8) + Le(|r.line|, 4) + Le(r.level, 1) + [0, 0, 0]
  }

  /** Everything a push writes. */
  function Image(r: Rec): (s: seq<byte>)
    requires Valid(r)
    ensures |s| == REC_HDR + |r.line|
  {
    Header(r) + r.line
  }

  /** The header fields, read back. */
  datatype Head = Head(ts: nat, len: nat, level: nat)

  function ReadHead(s: seq<byte>): Head
    requires |s| >= REC_HDR
  {
    Head(FromLe(s[0..8]), FromLe(s[8..12]), FromLe(s[12..13]))
  }

  /** The header a record goes out with. */
  function HeadOf(r: Rec): Head { Head(r.ts, |r.line|, r.level) }

  /** The bytes a run of records takes. */
  function Span(recs: seq<Rec>): nat {
    if recs == [] then 0 else Span(recs[..|recs| - 1]) + Size(|recs[|recs| - 1].line|)
  }

  lemma {:induction false} SpanGrows(recs: seq<Rec>, k: nat)
    requires k <= |recs|
    ensures Span(recs[..k]) <= Span(recs) && (k < |recs| ==> Span(recs[..k]) < Span(recs))
  {
    if k < |recs| {
      var init := recs[..|recs| - 1];
      SpanGrows(init, k);
      assert init[..k] == recs[..k];
    } else {
      assert recs[..k] == recs;
    }
  }

  lemma {:induction false} SpanFront(r: Rec, recs: seq<Rec>)
    ensures Span([r] + recs) == Size(|r.line|) + Span(recs)
  {
    var all := [r] + recs;
    if recs == [] {
      assert all == [r] && all[..0] == [];
    } else {
      assert all[..|all| - 1] == [r] + recs[..|recs| - 1];
      SpanFront(r, recs[..|recs| - 1]);
    }
  }

  /** The writer's test for "not a record". */
  predicate NotARecord(h: Head, pos: nat, end: nat) {
    h.len == 0 || h.len > LINE_MAX || h.level >= NLEVELS || pos + Size(h.len) > end
  }

  lemma PowBounds()
    ensures Pow256(8) == TWO_64 && Pow256(4) == 0x1_0000_0000 && Pow256(1) == 256
  {
    assert Pow256(2) == 0x1_0000;
    assert Pow256(6) == 0x1_0000_0000_0000;
  }

  /** A header reads back as what was queued. */
  lemma HeadReadsBack(r: Rec)
    requires Valid(r)
    ensures ReadHead(Image(r)) == Head(r.ts, |r.line|, r.level)
    ensures ReadHead(Header(r)) == Head(r.ts, |r.line|, r.level)
  {
    hide Le, FromLe, Pow256;
    PowBounds();
    LeRoundTrip(r.ts, 8);
    LeRoundTrip(|r.line|, 4);
    LeRoundTrip(r.level, 1);
    var h := Header(r);
    assert h[0..8] == Le(r.ts, 8) && h[8..12] == Le(|r.line|, 4) && h[12..13] == Le(r.level, 1);
    var s := Image(r);
    assert s[0..8] == h[0..8] && s[8..12] == h[8..12] && s[12..13] == h[12..13];
  }

  // ---- positions in the ring ----

  /** The record's bytes lie at `pos`, wrapping at the ring's end. */
  ghost predicate Stored(buf: seq<byte>, pos: nat, r: Rec)
    requires |buf| == RING
  {
    Valid(r) && forall i :: pos <= i < pos + |Image(r)| ==> buf[i % RING] == Image(r)[i - pos]
  }

  /** The bytes from `pos` to `end` are these records, in order. */
  ghost predicate Holds(buf: seq<byte>, pos: nat, end: nat, recs: seq<Rec>)
    requires |buf| == RING
    decreases |recs|
  {
    if recs == [] then pos == end
    else
      && Stored(buf, pos, recs[0]) && pos + Size(|recs[0].line|) <= end
      && Holds(buf, pos + Size(|recs[0].line|), end, recs[1..])
  }

  lemma {:induction false} HoldsOrdered(buf: seq<byte>, pos: nat, end: nat, recs: seq<Rec>)
    requires |buf| == RING && Holds(buf, pos, end, recs)
    ensures pos <= end && (recs == [] <==> pos == end)
    decreases |recs|
  {
    if recs != [] { HoldsOrdered(buf, pos + Size(|recs[0].line|), end, recs[1..]); }
  }

  /** A byte written behind the records leaves them alone. */
  lemma {:induction false} HoldsKept(buf: seq<byte>, pos: nat, end: nat, recs: seq<Rec>, q: nat, b: byte)
    requires |buf| == RING && Holds(buf, pos, end, recs) && end <= q < pos + RING
    ensures Holds(buf[q % RING := b], pos, end, recs)
    decreases |recs|
  {
    HoldsOrdered(buf, pos, end, recs);
    if recs != [] {
      var n := pos + Size(|recs[0].line|);
      HoldsOrdered(buf, n, end, recs[1..]);
      HoldsKept(buf, n, end, recs[1..], q, b);
      StoredKept(buf, pos, recs[0], q, b);
    }
  }

  lemma StoredKept(buf: seq<byte>, pos: nat, r: Rec, q: nat, b: byte)
    requires |buf| == RING && Stored(buf, pos, r) && pos + |Image(r)| <= q < pos + RING
    ensures Stored(buf[q % RING := b], pos, r)
  {
    hide Image;
    forall i | pos <= i < pos + |Image(r)| ensures buf[q % RING := b][i % RING] == Image(r)[i - pos] {
      Apart(i, q, RING);
    }
  }

  /** A record written at the end joins the queue. */
  lemma {:induction false} HoldsAppend(buf: seq<byte>, pos: nat, end: nat, recs: seq<Rec>, r: Rec)
    requires |buf| == RING && Holds(buf, pos, end, recs) && Stored(buf, end, r)
    ensures Holds(buf, pos, end + Size(|r.line|), recs + [r])
    decreases |recs|
  {
    if recs == [] {
      assert (recs + [r])[1..] == [];
    } else {
      HoldsAppend(buf, pos + Size(|recs[0].line|), end, recs[1..], r);
      assert (recs + [r])[1..] == recs[1..] + [r];
    }
  }

  /** Queued records lie end to end. */
  lemma {:induction false} HoldsSpan(buf: seq<byte>, pos: nat, end: nat, recs: seq<Rec>)
    requires |buf| == RING && Holds(buf, pos, end, recs)
    ensures end == pos + Span(recs)
    decreases |recs|
  {
    if recs != [] {
      HoldsSpan(buf, pos + Size(|recs[0].line|), end, recs[1..]);
      assert recs == [recs[0]] + recs[1..];
      SpanFront(recs[0], recs[1..]);
    }
  }

  // ---- how much a record takes ----

  /** No smaller multiple of eight holds the sixteen octets of a header and a line. */
  lemma SizeIsLeast(len: nat, n: nat)
    ensures Size(len) >= 16 + len && Size(len) % 8 == 0
    ensures n >= 16 + len && n % 8 == 0 ==> Size(len) <= n
  {
  }

}
