/** One producer and the writer thread on one ring, one step per byte and per
    atomic access. Each side may act on an index the other has moved since. */
module LogRingProtocol {
  import opened Bytes
  import opened LogRecord
  import opened RingSlots

  /** The producer: between calls, or writing a record with the `cons` it loaded. */
  datatype Producer = Resting | Writing(rec: Rec, seen: nat, written: nat)

  /** The writer thread on this ring: between passes, or inside one with the
      `prod` it loaded, having copied `got` of the record at `cons`. */
  datatype Consumer = Away | Taking(end: nat, got: seq<byte>)

  datatype Sys = Sys(buf: seq<byte>, prod: nat, cons: nat, producer: Producer, consumer: Consumer,
                     pushed: seq<Rec>, taken: nat, emitted: seq<Rec>)

  predicate Init(s: Sys) {
    && |s.buf| == RING && s.prod == 0 && s.cons == 0
    && s.producer == Resting && s.consumer == Away
    && s.pushed == [] && s.taken == 0 && s.emitted == []
  }

  // ---- the producer ----

  /** The loads of `prod` and `cons`, and the test for room. */
  predicate Begins(s: Sys, s': Sys, r: Rec) {
    && s.producer == Resting && Valid(r)
    && s' == if s.prod - s.cons + Size(|r.line|) > RING then s
             else s.(producer := Writing(r, s.cons, 0))
  }

  /** One byte of header or line. */
  predicate Writes(s: Sys, s': Sys) {
    && s.producer.Writing? && |s.buf| == RING && Valid(s.producer.rec)
    && s.producer.written < |Image(s.producer.rec)|
    && var p := s.producer;
       s' == s.(buf := s.buf[(s.prod + p.written) % RING := Image(p.rec)[p.written]],
                producer := p.(written := p.written + 1))
  }

  /** The store that publishes the record. */
  predicate Commits(s: Sys, s': Sys) {
    && s.producer.Writing? && Valid(s.producer.rec) && s.producer.written == |Image(s.producer.rec)|
    && var r := s.producer.rec;
       s' == s.(prod := s.prod + Size(|r.line|), producer := Resting, pushed := s.pushed + [r])
  }

  // ---- the writer ----

  /** The load of `prod` at the start of a pass; an empty ring is passed over. */
  predicate Snapshots(s: Sys, s': Sys) {
    && s.consumer == Away
    && s' == if s.cons == s.prod then s else s.(consumer := Taking(s.prod, []))
  }

  /** How much to copy: the header, and the line once the header is there. */
  function Wanted(got: seq<byte>): nat {
    if |got| < REC_HDR then REC_HDR else REC_HDR + ReadHead(got).len
  }

  /** One byte is copied out. */
  predicate Copies(s: Sys, s': Sys) {
    && s.consumer.Taking? && |s.buf| == RING && |s.consumer.got| < Wanted(s.consumer.got)
    && var c := s.consumer;
       s' == s.(consumer := c.(got := c.got + [s.buf[(s.cons + |c.got|) % RING]]))
  }

  /** Not a record: the ring is given back whole. */
  predicate GivesBack(s: Sys, s': Sys) {
    && s.consumer.Taking? && |s.consumer.got| >= REC_HDR
    && NotARecord(ReadHead(s.consumer.got), s.cons, s.consumer.end)
    && s' == s.(cons := s.consumer.end, consumer := Away)
  }

  /** The line is handed to the sinks and `cons` moves past it. */
  predicate Emits(s: Sys, s': Sys) {
    && s.consumer.Taking? && |s.consumer.got| >= REC_HDR && |s.consumer.got| == Wanted(s.consumer.got)
    && !NotARecord(ReadHead(s.consumer.got), s.cons, s.consumer.end)
    && var h := ReadHead(s.consumer.got);
       var pos := s.cons + Size(h.len);
       s' == s.(cons := pos, taken := s.taken + 1,
                emitted := s.emitted + [Rec(h.ts, h.level, s.consumer.got[REC_HDR..])],
                consumer := if pos == s.consumer.end then Away else Taking(s.consumer.end, []))
  }

  ghost predicate Next(s: Sys, s': Sys) {
    || (exists r :: Begins(s, s', r)) || Writes(s, s') || Commits(s, s')
    || Snapshots(s, s') || Copies(s, s') || GivesBack(s, s') || Emits(s, s')
  }

  ghost predicate IsRun(run: seq<Sys>) {
    run != [] && Init(run[0]) && forall i :: 0 <= i < |run| - 1 ==> Next(run[i], run[i + 1])
  }

  // ---- what every step keeps ----

  /** Queued and not yet taken. */
  ghost function Queue(s: Sys): seq<Rec>
    requires s.taken <= |s.pushed|
  {
    s.pushed[s.taken..]
  }

  ghost predicate RingOk(s: Sys) {
    && |s.buf| == RING && s.taken <= |s.pushed|
    && s.emitted == s.pushed[..s.taken]
    && Holds(s.buf, s.cons, s.prod, Queue(s))
    && s.prod - s.cons <= RING
  }

  /** The bytes written so far lie past `prod`, in room the producer saw free. */
  ghost predicate ProducerOk(s: Sys)
    requires |s.buf| == RING
  {
    s.producer.Writing? ==>
      var p := s.producer;
      && Valid(p.rec) && p.written <= |Image(p.rec)|
      && p.seen <= s.cons && s.prod - p.seen + Size(|p.rec.line|) <= RING
      && forall i :: s.prod <= i < s.prod + p.written ==> s.buf[i % RING] == Image(p.rec)[i - s.prod]
  }

  /** The snapshot is a whole number of queued records ahead; what was copied is
      the start of the oldest of them. */
  ghost predicate ConsumerOk(s: Sys)
    requires |s.buf| == RING && s.taken <= |s.pushed|
  {
    s.consumer.Taking? ==>
      && (exists n :: Ends(s, n))
      && Queue(s) != [] && Valid(Queue(s)[0])
      && s.consumer.got <= Image(Queue(s)[0])
  }

  /** The snapshot covers the first `n` queued records. */
  ghost predicate Ends(s: Sys, n: nat)
    requires |s.buf| == RING && s.taken <= |s.pushed|
  {
    0 < n <= |Queue(s)| && s.consumer.Taking? && Holds(s.buf, s.cons, s.consumer.end, Queue(s)[..n])
  }

  ghost predicate Inv(s: Sys) { RingOk(s) && ProducerOk(s) && ConsumerOk(s) }

  lemma InitInv(s: Sys)
    requires Init(s)
    ensures Inv(s)
  {
  }

  /** A byte past `prod` disturbs no record that is queued. */
  lemma FarByte(s: Sys, s': Sys, q: nat, b: byte, p: Producer)
    requires Inv(s) && s' == s.(buf := s.buf[q % RING := b], producer := p)
    requires s.prod <= q < s.cons + RING
    ensures RingOk(s') && ConsumerOk(s')
  {
    hide Image, Size;
    HoldsKept(s.buf, s.cons, s.prod, Queue(s), q, b);
    if s.consumer.Taking? {
      var n: nat :| Ends(s, n);
      EndsBelow(s, n);
      HoldsKept(s.buf, s.cons, s.consumer.end, Queue(s)[..n], q, b);
      assert Ends(s', n);
    }
  }

  /** The snapshot never passes `prod`. */
  lemma {:induction false} PrefixBelow(buf: seq<byte>, pos: nat, end: nat, recs: seq<Rec>, mid: nat, n: nat)
    requires |buf| == RING && n <= |recs| && Holds(buf, pos, end, recs) && Holds(buf, pos, mid, recs[..n])
    ensures mid <= end
    decreases n
  {
    HoldsOrdered(buf, pos, end, recs);
    if n > 0 {
      assert recs[..n][1..] == recs[1..][..n - 1];
      PrefixBelow(buf, pos + Size(|recs[0].line|), end, recs[1..], mid, n - 1);
    }
  }

  lemma EndsBelow(s: Sys, n: nat)
    requires RingOk(s) && Ends(s, n)
    ensures s.consumer.end <= s.prod
  {
    PrefixBelow(s.buf, s.cons, s.prod, Queue(s), s.consumer.end, n);
  }

  lemma BeginsKeeps(s: Sys, s': Sys, r: Rec)
    requires Inv(s) && Begins(s, s', r)
    ensures Inv(s')
  {
    hide Holds, Image;
    if s'.consumer.Taking? && s' != s {
      var n: nat :| Ends(s, n);
      assert Ends(s', n);
    }
  }

  lemma WritesKeeps(s: Sys, s': Sys)
    requires Inv(s) && Writes(s, s')
    ensures Inv(s')
  {
    hide Holds, Image;
    var p := s.producer;
    FarByte(s, s', s.prod + p.written, Image(p.rec)[p.written], s'.producer);
    forall i | s.prod <= i < s.prod + p.written
      ensures s'.buf[i % RING] == Image(p.rec)[i - s.prod]
    {
      Apart(i, s.prod + p.written, RING);
    }
  }

  lemma CommitsKeeps(s: Sys, s': Sys)
    requires Inv(s) && Commits(s, s')
    ensures Inv(s')
  {
    hide Image;
    var r := s.producer.rec;
    HoldsAppend(s.buf, s.cons, s.prod, Queue(s), r);
    assert Queue(s') == Queue(s) + [r];
    assert s'.pushed[..s.taken] == s.pushed[..s.taken];
    if s.consumer.Taking? {
      var n: nat :| Ends(s, n);
      assert Queue(s')[..n] == Queue(s)[..n];
      assert Ends(s', n);
    }
  }

  lemma SnapshotsKeeps(s: Sys, s': Sys)
    requires Inv(s) && Snapshots(s, s')
    ensures Inv(s')
  {
    hide Image;
    HoldsOrdered(s.buf, s.cons, s.prod, Queue(s));
    if s'.consumer.Taking? {
      assert Queue(s)[..|Queue(s)|] == Queue(s);
      assert Ends(s', |Queue(s')|);
    }
  }

  lemma CopiesKeeps(s: Sys, s': Sys)
    requires Inv(s) && Copies(s, s')
    ensures Inv(s')
  {
    hide Image, Size;
    var n: nat :| Ends(s, n);
    var r, got := Queue(s)[0], s.consumer.got;
    HeadOfPrefix(got, r);
    assert s.cons <= s.cons + |got| < s.cons + |Image(r)|;
    assert Ends(s', n);
  }

  /** A copied header is the queued record's header. */
  lemma HeadOfPrefix(got: seq<byte>, r: Rec)
    requires Valid(r) && got <= Image(r)
    ensures |got| >= REC_HDR ==> ReadHead(got) == Head(r.ts, |r.line|, r.level)
    ensures Wanted(got) <= |Image(r)|
  {
    hide FromLe, Le;
    HeadReadsBack(r);
    if |got| >= REC_HDR {
      var s := Image(r);
      assert got[0..8] == s[0..8] && got[8..12] == s[8..12] && got[12..13] == s[12..13];
    }
  }

  /** ALWAYS A RECORD. What the writer finds at `cons` passes its test. */
  lemma AlwaysARecord(s: Sys)
    requires Inv(s) && s.consumer.Taking? && |s.consumer.got| >= REC_HDR
    ensures !NotARecord(ReadHead(s.consumer.got), s.cons, s.consumer.end)
  {
    hide Size, Image;
    var n: nat :| Ends(s, n);
    HeadOfPrefix(s.consumer.got, Queue(s)[0]);
    HoldsOrdered(s.buf, s.cons + Size(|Queue(s)[0].line|), s.consumer.end, Queue(s)[..n][1..]);
  }

  lemma EmitsKeeps(s: Sys, s': Sys)
    requires Inv(s) && Emits(s, s')
    ensures Inv(s') && s'.emitted == s.emitted + [s.pushed[s.taken]]
  {
    hide Size, Header;
    var n: nat :| Ends(s, n);
    var r, got := Queue(s)[0], s.consumer.got;
    HeadOfPrefix(got, r);
    assert got == Image(r);
    assert got[REC_HDR..] == r.line;
    var rest := Queue(s)[..n][1..];
    assert rest == Queue(s')[..n - 1];
    assert Queue(s') == Queue(s)[1..];
    HoldsOrdered(s.buf, s'.cons, s.consumer.end, rest);
    assert s'.emitted == s.pushed[..s.taken + 1];
    if s'.consumer.Taking? { assert Ends(s', n - 1); }
  }

  lemma NextKeeps(s: Sys, s': Sys)
    requires Inv(s) && Next(s, s')
    ensures Inv(s')
  {
    hide Inv, Begins, Writes, Commits, Snapshots, Copies, Emits;
    if r :| Begins(s, s', r) {
      BeginsKeeps(s, s', r);
    } else if Writes(s, s') {
      WritesKeeps(s, s');
    } else if Commits(s, s') {
      CommitsKeeps(s, s');
    } else if Snapshots(s, s') {
      SnapshotsKeeps(s, s');
    } else if Copies(s, s') {
      CopiesKeeps(s, s');
    } else if Emits(s, s') {
      EmitsKeeps(s, s');
    } else {
      AlwaysARecord(s);
    }
  }

  lemma {:induction false} RunInv(run: seq<Sys>, k: nat)
    requires IsRun(run) && k < |run|
    ensures Inv(run[k])
  {
    hide Inv, Init, Next;
    if k == 0 {
      InitInv(run[0]);
    } else {
      RunInv(run, k - 1);
      assert Next(run[k - 1], run[k - 1 + 1]);
      NextKeeps(run[k - 1], run[k]);
    }
  }

  /** EXACTLY ONCE, IN ORDER. At every point of every interleaving the bytes
      between `cons` and `prod` are the queued records in order, and what the
      sinks were handed is exactly the records pushed before those. */
  lemma QueueIsExact(run: seq<Sys>, k: nat)
    requires IsRun(run) && k < |run|
    ensures var s := run[k];
            && s.emitted <= s.pushed && |s.buf| == RING
            && Holds(s.buf, s.cons, s.prod, s.pushed[|s.emitted|..])
  {
    hide Init, Next, Holds, ProducerOk, ConsumerOk;
    RunInv(run, k);
  }

  /** The writer's "not a record" arm is never taken. */
  lemma NeverGivenBack(run: seq<Sys>, k: nat)
    requires IsRun(run) && k + 1 < |run|
    ensures !GivesBack(run[k], run[k + 1])
  {
    hide Init, Next, Inv;
    RunInv(run, k);
    if run[k].consumer.Taking? && |run[k].consumer.got| >= REC_HDR { AlwaysARecord(run[k]); }
  }
}
