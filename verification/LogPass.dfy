/** `writer_pass` on the rings themselves: states and headers are read, lines
    copied out of the buffers, and each ring's `cons` moved. */
module LogPass {
  import opened Bytes
  import opened LogRecord
  import opened LogRing
  import opened LogWriter
  import LogFlush

  /** `log_cur_t`: a ring, the next position in it, its snapshot, and the header
      read there. */
  datatype Cur = Cur(ring: nat, pos: nat, end: nat, head: Head)

  ghost function Bufs(rings: seq<Ring>): set<array<byte>> { set i | 0 <= i < |rings| :: rings[i].buf }

  /** Rings that are different objects with buffers of their own, each in order. */
  ghost predicate RingsOk(rings: seq<Ring>)
    reads rings, Bufs(rings)
  {
    && (forall i, j :: 0 <= i < j < |rings| ==> rings[i] != rings[j] && rings[i].buf != rings[j].buf)
    && (forall i :: 0 <= i < |rings| ==> rings[i].Valid())
  }

  ghost function Queues(rings: seq<Ring>): (qs: seq<seq<Rec>>)
    reads rings
    ensures |qs| == |rings| && forall i :: 0 <= i < |rings| ==> qs[i] == rings[i].queue
  {
    seq(|rings|, i requires 0 <= i < |rings| reads rings => rings[i].queue)
  }

  ghost function Starts(rings: seq<Ring>): (cs: seq<nat>)
    reads rings
    ensures |cs| == |rings| && forall i :: 0 <= i < |rings| ==> cs[i] == rings[i].cons
  {
    seq(|rings|, i requires 0 <= i < |rings| reads rings => rings[i].cons)
  }

  /** The cursors as the merge sees them. */
  function Abs(cur: seq<Cur>, out: seq<Line>): (a: seq<Cursor>)
    ensures |a| == |cur| && forall c :: 0 <= c < |cur| ==> a[c] == Cursor(cur[c].ring, |From(out, cur[c].ring)|)
  {
    seq(|cur|, c requires 0 <= c < |cur| => Cursor(cur[c].ring, |From(out, cur[c].ring)|))
  }

  /** A cursor stands where its ring does, before its snapshot, with the header of
      the next record. */
  ghost predicate CurOk(c: Cur, snap: seq<Rec>, at: nat, start: nat) {
    && at < |snap|
    && c.pos == start + Span(snap[..at]) && c.end == start + Span(snap) && c.head == HeadOf(snap[at])
  }

  ghost predicate CursOk(cur: seq<Cur>, snaps: seq<seq<Rec>>, starts: seq<nat>, out: seq<Line>) {
    && |snaps| == |starts| && PassOk(snaps, Abs(cur, out), out)
    && (forall c :: 0 <= c < |cur| ==>
          cur[c].ring < |snaps| && CurOk(cur[c], snaps[cur[c].ring], |From(out, cur[c].ring)|, starts[cur[c].ring]))
  }

  /** A ring from which the first `k` records have been taken. */
  ghost predicate Taken(r: Ring, queue: seq<Rec>, start: nat, k: nat)
    reads r
  {
    k <= |queue| && r.queue == queue[k..] && r.cons == start + Span(queue[..k])
  }

  /** The line a cursor gives next. */
  function NextLine(cur: seq<Cur>, k: nat, snaps: seq<seq<Rec>>, out: seq<Line>): Line
    requires k < |cur| && cur[k].ring < |snaps| && |From(out, cur[k].ring)| < |snaps[cur[k].ring]|
  {
    Line(cur[k].ring, snaps[cur[k].ring][|From(out, cur[k].ring)|])
  }

  lemma FromOthers(cur: seq<Cur>, snaps: seq<seq<Rec>>, starts: seq<nat>, out: seq<Line>, k: nat)
    requires CursOk(cur, snaps, starts, out) && k < |cur|
    ensures var out' := out + [NextLine(cur, k, snaps, out)];
            && |From(out', cur[k].ring)| == |From(out, cur[k].ring)| + 1
            && forall c :: 0 <= c < |cur| && c != k ==>
                 cur[c].ring != cur[k].ring && From(out', cur[c].ring) == From(out, cur[c].ring)
  {
    hide From, Greedy, Tracked;
    var l := NextLine(cur, k, snaps, out);
    FromAppend(out, l, cur[k].ring);
    forall c | 0 <= c < |cur| && c != k
      ensures cur[c].ring != cur[k].ring && From(out + [l], cur[c].ring) == From(out, cur[c].ring)
    {
      var a := Abs(cur, out);
      assert a[c].ring != a[k].ring;
      FromAppend(out, l, cur[c].ring);
    }
  }

  /** The cursors after the `k`-th gave its line and has another. */
  lemma CursNext(cur: seq<Cur>, snaps: seq<seq<Rec>>, starts: seq<nat>, out: seq<Line>, k: nat, c: Cur)
    requires CursOk(cur, snaps, starts, out) && k < |cur| && c.ring == cur[k].ring
    requires forall d :: 0 <= d < |cur| ==> cur[k].head.ts <= cur[d].head.ts
    requires CurOk(c, snaps[c.ring], |From(out, c.ring)| + 1, starts[c.ring])
    ensures var out' := out + [NextLine(cur, k, snaps, out)];
            && CursOk(cur[k := c], snaps, starts, out')
            && Remaining(snaps, Abs(cur[k := c], out')) < Remaining(snaps, Abs(cur, out))
  {
    hide From, PassOk, Remaining, CurOk;
    CurAt(cur, snaps, starts, out, k);
    var a, out' := Abs(cur, out), out + [NextLine(cur, k, snaps, out)];
    FromOthers(cur, snaps, starts, out, k);
    Oldests(cur, snaps, starts, out, k);
    CurAtIsShort(c, snaps[c.ring], |From(out, c.ring)| + 1, starts[c.ring]);
    RoundOk(snaps, a, out, k);
    assert Abs(cur[k := c], out') == Advance(snaps, a, k);
  }

  /** And when it has none. */
  lemma CursDrop(cur: seq<Cur>, snaps: seq<seq<Rec>>, starts: seq<nat>, out: seq<Line>, k: nat)
    requires CursOk(cur, snaps, starts, out) && k < |cur|
    requires forall d :: 0 <= d < |cur| ==> cur[k].head.ts <= cur[d].head.ts
    requires |From(out, cur[k].ring)| + 1 == |snaps[cur[k].ring]|
    ensures var out' := out + [NextLine(cur, k, snaps, out)];
            && CursOk(Drop(cur, k), snaps, starts, out')
            && Remaining(snaps, Abs(Drop(cur, k), out')) < Remaining(snaps, Abs(cur, out))
  {
    hide From, PassOk, Remaining, CurOk;
    CurAt(cur, snaps, starts, out, k);
    var a, out' := Abs(cur, out), out + [NextLine(cur, k, snaps, out)];
    FromOthers(cur, snaps, starts, out, k);
    Oldests(cur, snaps, starts, out, k);
    RoundOk(snaps, a, out, k);
    assert Abs(Drop(cur, k), out') == Advance(snaps, a, k);
  }

  lemma CurAt(cur: seq<Cur>, snaps: seq<seq<Rec>>, starts: seq<nat>, out: seq<Line>, k: nat)
    requires CursOk(cur, snaps, starts, out) && k < |cur|
    ensures |snaps| == |starts| && cur[k].ring < |snaps| && |From(out, cur[k].ring)| < |snaps[cur[k].ring]|
    ensures CurOk(cur[k], snaps[cur[k].ring], |From(out, cur[k].ring)|, starts[cur[k].ring])
  {
  }

  lemma CurAtIsShort(c: Cur, snap: seq<Rec>, at: nat, start: nat)
    requires CurOk(c, snap, at, start)
    ensures at < |snap|
  {
  }

  lemma Oldests(cur: seq<Cur>, snaps: seq<seq<Rec>>, starts: seq<nat>, out: seq<Line>, k: nat)
    requires CursOk(cur, snaps, starts, out) && k < |cur|
    requires forall d :: 0 <= d < |cur| ==> cur[k].head.ts <= cur[d].head.ts
    ensures var a := Abs(cur, out);
            forall d :: 0 <= d < |a| ==>
              && a[d].ring < |snaps| && a[d].at < |snaps[a[d].ring]|
              && NextOf(snaps, a[k]).ts <= NextOf(snaps, a[d]).ts
  {
    hide From, Greedy, CursorsOk, PassOk;
    assert CurOk(cur[k], snaps[cur[k].ring], |From(out, cur[k].ring)|, starts[cur[k].ring]);
  }

  // ---- the pass ----

  /** The cursor with the smallest stamp, the first of them on a tie. */
  method Oldest(cur: array<Cur>, n: nat) returns (k: nat)
    requires 0 < n <= cur.Length
    ensures k < n && forall c :: 0 <= c < n ==> cur[k].head.ts <= cur[c].head.ts
    ensures forall c :: 0 <= c < k ==> cur[k].head.ts < cur[c].head.ts
  {
    k := 0;
    for i := 1 to n
      invariant k < n && k < i
      invariant forall c :: 0 <= c < i ==> cur[k].head.ts <= cur[c].head.ts
      invariant forall c :: 0 <= c < k ==> cur[k].head.ts < cur[c].head.ts
    {
      if cur[i].head.ts < cur[k].head.ts { k := i; }
    }
  }

  /** A ring's positions, and the header of its next record if it has one. */
  method Look(r: Ring, i: nat) returns (empty: bool, c: Cur)
    requires r.Valid()
    ensures empty <==> r.queue == []
    ensures !empty ==> c == Cur(i, r.cons, r.cons + Span(r.queue), HeadOf(r.queue[0]))
  {
    var end, pos := r.prod, r.cons;
    HoldsOrdered(r.buf[..], pos, end, r.queue);
    empty, c := pos == end, Cur(i, pos, end, Head(0, 0, 0));
    if !empty {
      HoldsSpan(r.buf[..], pos, end, r.queue);
      var h := r.Peek();
      c := c.(head := h);
    }
  }

  lemma RingAt(rings: seq<Ring>, i: nat)
    requires RingsOk(rings) && i < |rings|
    ensures rings[i].Valid()
  {
  }

  // ---- what other threads queue meanwhile ----

  /** Every ring has given exactly what was put out of it; `queues` is all that was
      ever queued there. */
  ghost predicate TakenAll(rings: seq<Ring>, queues: seq<seq<Rec>>, starts: seq<nat>, out: seq<Line>)
    reads rings
  {
    && |queues| == |starts| == |rings|
    && (forall i :: 0 <= i < |rings| ==> Taken(rings[i], queues[i], starts[i], |From(out, i)|))
  }

  /** The queues with more behind them. */
  ghost predicate Grown(queues: seq<seq<Rec>>, queues': seq<seq<Rec>>, pushed: seq<Line>) {
    |queues'| == |queues| && forall i :: 0 <= i < |queues| ==> queues'[i] == queues[i] + From(pushed, i)
  }

  /** Lines of a batch that the thread of a live ring had room for. */
  ghost predicate Queued(pushed: seq<Line>, batch: seq<Line>, states: seq<LogFlush.RingState>) {
    forall l :: l in pushed ==> l in batch && l.ring < |states| && states[l.ring].Live?
  }

  ghost predicate Came(l: Line, arrivals: nat -> seq<Line>) { exists k :: l in arrivals(k) }

  /** One line is queued by its ring's thread, if the ring has one and has room. */
  method PushOne(rings: seq<Ring>, states: array<LogFlush.RingState>, l: Line,
                 ghost queues: seq<seq<Rec>>, ghost starts: seq<nat>, ghost out: seq<Line>)
      returns (ok: bool, ghost queues': seq<seq<Rec>>)
    requires RingsOk(rings) && states.Length == |rings| && TakenAll(rings, queues, starts, out)
    modifies rings, Bufs(rings)
    ensures RingsOk(rings) && TakenAll(rings, queues', starts, out)
    ensures ok ==> l.ring < |rings| && states[l.ring].Live?
    ensures |queues'| == |queues|
    ensures forall i :: 0 <= i < |queues| ==> queues'[i] == if ok && i == l.ring then queues[i] + [l.rec] else queues[i]
  {
    hide From, Span;
    ok, queues' := false, queues;
    if l.ring < |rings| && states[l.ring].Live? && LogRecord.Valid(l.rec) {
      var r := rings[l.ring];
      ok := r.Push(l.rec);
      if ok {
        queues' := queues[l.ring := queues[l.ring] + [l.rec]];
        Behind(queues[l.ring], l.rec, |From(out, l.ring)|);
      }
    }
  }

  lemma Behind(queue: seq<Rec>, r: Rec, k: nat)
    requires k <= |queue|
    ensures (queue + [r])[k..] == queue[k..] + [r] && (queue + [r])[..k] == queue[..k]
  {
  }

  /** The lines other threads try to queue at one point of the pass. */
  method Arrive(rings: seq<Ring>, states: array<LogFlush.RingState>, batch: seq<Line>,
                ghost queues: seq<seq<Rec>>, ghost starts: seq<nat>, ghost out: seq<Line>)
      returns (ghost queues': seq<seq<Rec>>, ghost pushed: seq<Line>)
    requires RingsOk(rings) && states.Length == |rings| && TakenAll(rings, queues, starts, out)
    modifies rings, Bufs(rings)
    ensures RingsOk(rings) && TakenAll(rings, queues', starts, out)
    ensures Grown(queues, queues', pushed) && Queued(pushed, batch, states[..])
  {
    hide From, RingsOk, TakenAll;
    queues', pushed := queues, [];
    NothingFrom();
    for j := 0 to |batch|
      invariant RingsOk(rings) && TakenAll(rings, queues', starts, out)
      invariant Grown(queues, queues', pushed) && Queued(pushed, batch, states[..])
    {
      var ok;
      ghost var before := queues';
      ok, queues' := PushOne(rings, states, batch[j], queues', starts, out);
      if ok {
        OneMore(queues, before, queues', pushed, batch[j]);
        pushed := pushed + [batch[j]];
      }
    }
  }

  lemma NothingFrom()
    ensures forall i :: From([], i) == []
  {
  }

  lemma OneMore(queues: seq<seq<Rec>>, before: seq<seq<Rec>>, now: seq<seq<Rec>>, pushed: seq<Line>, l: Line)
    requires Grown(queues, before, pushed) && |now| == |before|
    requires forall i :: 0 <= i < |before| ==> now[i] == if i == l.ring then before[i] + [l.rec] else before[i]
    ensures Grown(queues, now, pushed + [l])
  {
    hide From;
    forall i | 0 <= i < |queues| ensures now[i] == queues[i] + From(pushed + [l], i) {
      FromAppend(pushed, l, i);
    }
  }

  /** Two batches in a row. */
  lemma {:induction false} GrownTwice(a: seq<seq<Rec>>, b: seq<seq<Rec>>, c: seq<seq<Rec>>, p: seq<Line>, q: seq<Line>)
    requires Grown(a, b, p) && Grown(b, c, q)
    ensures Grown(a, c, p + q)
    decreases |q|
  {
    forall i | 0 <= i < |a| ensures c[i] == a[i] + From(p + q, i) {
      FromConcat(p, q, i);
    }
  }

  lemma {:induction false} FromConcat(p: seq<Line>, q: seq<Line>, i: nat)
    ensures From(p + q, i) == From(p, i) + From(q, i)
    decreases |q|
  {
    if q == [] {
      assert p + q == p;
    } else {
      FromConcat(p, q[..|q| - 1], i);
      assert (p + q)[..|p + q| - 1] == p + q[..|q| - 1];
    }
  }

  // ---- the first loop ----

  /** Cursors at the start of their snapshots. */
  ghost predicate CursFresh(cur: seq<Cur>, qs: seq<seq<Rec>>, starts: seq<nat>) {
    && |qs| <= |starts|
    && (forall c :: 0 <= c < |cur| ==>
          cur[c].ring < |qs| && CurOk(cur[c], qs[cur[c].ring], 0, starts[cur[c].ring]))
  }

  /** One more ring was looked at, and its snapshot was empty, or has a cursor. */
  lemma Looked(cur: seq<Cur>, qs: seq<seq<Rec>>, starts: seq<nat>, q: seq<Rec>, c: Cur)
    requires CursFresh(cur, qs, starts) && Listed(qs, Abs(cur, []), |qs|) && |qs| < |starts|
    requires q != [] ==> c == Cur(|qs|, starts[|qs|], starts[|qs|] + Span(q), HeadOf(q[0]))
    ensures var now := if q == [] then cur else cur + [c];
            CursFresh(now, qs + [q], starts) && Listed(qs + [q], Abs(now, []), |qs| + 1)
  {
    hide CursFresh, Listed, Span;
    FreshMore(cur, qs, starts, q);
    if q != [] { FreshOne(cur, qs + [q], starts, c); }
    ListedMore(qs, q, Abs(cur, []));
    ListOne(qs + [q], Abs(cur, []), |qs|);
    NothingFrom();
    if q != [] { assert Abs(cur + [c], []) == Abs(cur, []) + [Cursor(|qs|, 0)]; }
  }

  lemma FreshMore(cur: seq<Cur>, qs: seq<seq<Rec>>, starts: seq<nat>, q: seq<Rec>)
    requires CursFresh(cur, qs, starts) && |qs| < |starts|
    ensures CursFresh(cur, qs + [q], starts)
  {
    hide CurOk;
  }

  lemma FreshOne(cur: seq<Cur>, qs: seq<seq<Rec>>, starts: seq<nat>, c: Cur)
    requires CursFresh(cur, qs, starts) && c.ring < |qs| && qs[c.ring] != []
    requires c == Cur(c.ring, starts[c.ring], starts[c.ring] + Span(qs[c.ring]), HeadOf(qs[c.ring][0]))
    ensures CursFresh(cur + [c], qs, starts)
  {
    assert qs[c.ring][..0] == [];
    assert CurOk(c, qs[c.ring], 0, starts[c.ring]);
    hide CurOk;
  }

  lemma ListedMore(qs: seq<seq<Rec>>, q: seq<Rec>, cur: seq<Cursor>)
    requires Listed(qs, cur, |qs|)
    ensures Listed(qs + [q], cur, |qs|)
  {
    var all := qs + [q];
    assert forall r: nat :: r < |qs| ==> (Waits(all, r) <==> Waits(qs, r));
    hide Waits, Tracked;
  }

  lemma NoCursors(starts: seq<nat>)
    ensures CursFresh([], [], starts) && Abs([], []) == [] && Listed([], [], 0)
  {
    NoneListed([]);
  }

  lemma ListedIsOk(cur: seq<Cur>, qs: seq<seq<Rec>>, starts: seq<nat>)
    requires |qs| == |starts| && CursFresh(cur, qs, starts) && Listed(qs, Abs(cur, []), |qs|)
    ensures CursOk(cur, qs, starts, [])
  {
    hide CurOk;
    StartOk(qs, Abs(cur, []));
  }

  /** The snapshots lie between what was queued at the start and what is now. */
  ghost predicate Between(queues0: seq<seq<Rec>>, snaps: seq<seq<Rec>>, queues: seq<seq<Rec>>) {
    && |snaps| <= |queues0| == |queues|
    && (forall i :: 0 <= i < |snaps| ==> queues0[i] <= snaps[i] <= queues[i])
    && (forall i :: 0 <= i < |queues| ==> queues0[i] <= queues[i])
  }

  lemma BetweenGrown(queues0: seq<seq<Rec>>, snaps: seq<seq<Rec>>, queues: seq<seq<Rec>>, queues': seq<seq<Rec>>,
                     pushed: seq<Line>)
    requires Between(queues0, snaps, queues) && Grown(queues, queues', pushed)
    ensures Between(queues0, snaps, queues')
  {
    hide From;
  }
  /** Where the first loop stands: `i` rings have had their turn. */
  ghost predicate Scanned(rings: seq<Ring>, queues: seq<seq<Rec>>, pushed: seq<Line>, list: seq<Cur>, snaps: seq<seq<Rec>>,
                          queues0: seq<seq<Rec>>, starts: seq<nat>)
    reads rings, Bufs(rings)
  {
    && RingsOk(rings) && TakenAll(rings, queues, starts, []) && Grown(queues0, queues, pushed)
    && Between(queues0, snaps, queues) && CursFresh(list, snaps, starts) && Listed(snaps, Abs(list, []), |snaps|)
  }

  /** The first loop: a snapshot of each ring in turn, and a cursor for each ring in
      use with something queued; an empty ring whose thread is gone is freed. Lines
      may be queued before the load of a ring's state and before that of its `prod`. */
  method ListRings(rings: seq<Ring>, states: array<LogFlush.RingState>, arrivals: nat -> seq<Line>)
      returns (cur: array<Cur>, n: nat, ghost snaps: seq<seq<Rec>>, ghost queues: seq<seq<Rec>>, ghost pushed: seq<Line>)
    requires RingsOk(rings) && states.Length == |rings|
    requires forall i :: 0 <= i < |rings| && (states[i].Free? || states[i].Claiming?) ==> rings[i].queue == []
    modifies states, rings, Bufs(rings)
    ensures RingsOk(rings) && fresh(cur) && n <= cur.Length && |snaps| == |rings|
    ensures TakenAll(rings, queues, old(Starts(rings)), []) && CursOk(cur[..n], snaps, old(Starts(rings)), [])
    ensures Grown(old(Queues(rings)), queues, pushed) && Between(old(Queues(rings)), snaps, queues)
    ensures forall l :: l in pushed ==> Came(l, arrivals)
    ensures forall i :: 0 <= i < |rings| ==>
              states[i] == if old(states[i]).Dead? && old(rings[i].queue) == [] then LogFlush.Free else old(states[i])
  {
    hide CursOk, Between, TakenAll, Grown, Scanned;
    ghost var queues0, starts, states0 := Queues(rings), Starts(rings), states[..];
    cur := new Cur[|rings|](i => Cur(0, 0, 0, Head(0, 0, 0)));
    n, snaps, queues, pushed := 0, [], queues0, [];
    ScanBegins(rings);
    assert cur[..0] == [];
    for i := 0 to |rings|
      invariant n <= i && |snaps| == i && Scanned(rings, queues, pushed, cur[..n], snaps, queues0, starts)
      invariant states[..] == Freed(states0, queues0, i) && forall l :: l in pushed ==> Came(l, arrivals)
      invariant forall j :: 0 <= j < |rings| && !states0[j].Live? ==> rings[j].queue == queues0[j]
    {
      n, snaps, queues, pushed := Scan(rings, states, i, arrivals(2 * i), arrivals(2 * i + 1), cur, n, snaps, queues, pushed,
                                       queues0, starts, states0);
    }
    ScanDone(rings, queues, pushed, cur[..n], snaps, queues0, starts);
  }

  lemma ScanDone(rings: seq<Ring>, queues: seq<seq<Rec>>, pushed: seq<Line>, list: seq<Cur>, snaps: seq<seq<Rec>>,
                 queues0: seq<seq<Rec>>, starts: seq<nat>)
    requires Scanned(rings, queues, pushed, list, snaps, queues0, starts) && |snaps| == |starts|
    ensures RingsOk(rings) && TakenAll(rings, queues, starts, []) && CursOk(list, snaps, starts, [])
    ensures Grown(queues0, queues, pushed) && Between(queues0, snaps, queues)
  {
    hide Listed, CursFresh, Abs, RingsOk, Between, TakenAll, Grown, CursOk;
    ListedIsOk(list, snaps, starts);
  }

  lemma ScanBegins(rings: seq<Ring>)
    requires RingsOk(rings)
    ensures Scanned(rings, Queues(rings), [], [], [], Queues(rings), Starts(rings))
  {
    hide Listed, CursFresh, RingsOk, Between, TakenAll, Grown;
    Untouched(rings);
    NoCursors(Starts(rings));
  }

  /** One turn of it. */
  method Scan(rings: seq<Ring>, states: array<LogFlush.RingState>, i: nat, first: seq<Line>, then_: seq<Line>,
              cur: array<Cur>, n0: nat, ghost snaps0: seq<seq<Rec>>, ghost queues1: seq<seq<Rec>>, ghost pushed0: seq<Line>,
              ghost queues0: seq<seq<Rec>>, ghost starts: seq<nat>, ghost states0: seq<LogFlush.RingState>)
      returns (n: nat, ghost snaps: seq<seq<Rec>>, ghost queues: seq<seq<Rec>>, ghost pushed: seq<Line>)
    requires states.Length == |rings| == |states0| == |queues0| == cur.Length && |snaps0| == i < |rings| && n0 <= i
    requires Scanned(rings, queues1, pushed0, cur[..n0], snaps0, queues0, starts)
    requires states[..] == Freed(states0, queues0, i)
    requires forall j :: 0 <= j < |rings| && !states0[j].Live? ==> rings[j].queue == queues0[j]
    requires states0[i].Free? || states0[i].Claiming? ==> queues0[i] == []
    modifies cur, states, rings, Bufs(rings)
    ensures n <= i + 1 == |snaps| && Scanned(rings, queues, pushed, cur[..n], snaps, queues0, starts)
    ensures forall l :: l in pushed ==> l in pushed0 || l in first || l in then_
    ensures states[..] == Freed(states0, queues0, i + 1)
    ensures forall j :: 0 <= j < |rings| && !states0[j].Live? ==> rings[j].queue == queues0[j]
  {
    hide Listed, CursFresh, Abs, RingsOk, Between, TakenAll, Grown, Span, From;
    ghost var list := cur[..n0];
    var empty, c;
    empty, c, queues, pushed := Visit(rings, states, i, first, then_, queues0, snaps0, queues1, pushed0, starts);
    ghost var q := rings[i].queue;
    Looked(list, snaps0, starts, q, c);
    snaps := snaps0 + [q];
    assert states[..] == Freed(states0, queues0, i + 1);
    n := n0;
    if !empty {
      cur[n] := c;
      n := n + 1;
      assert cur[..n] == list + [c];
    }
  }

  /** The states when the rings below `i` have had their turn. */
  ghost function Freed(states: seq<LogFlush.RingState>, queues: seq<seq<Rec>>, i: nat): (r: seq<LogFlush.RingState>)
    requires |queues| == |states|
    ensures |r| == |states| && forall j :: 0 <= j < |states| ==>
              r[j] == if j < i && states[j].Dead? && queues[j] == [] then LogFlush.Free else states[j]
  {
    seq(|states|, j requires 0 <= j < |states| =>
      if j < i && states[j].Dead? && queues[j] == [] then LogFlush.Free else states[j])
  }

  /** One ring's turn. */
  method Visit(rings: seq<Ring>, states: array<LogFlush.RingState>, i: nat, first: seq<Line>, then_: seq<Line>,
               ghost queues0: seq<seq<Rec>>, ghost snaps: seq<seq<Rec>>, ghost queues: seq<seq<Rec>>,
               ghost pushed: seq<Line>, ghost starts: seq<nat>)
      returns (empty: bool, c: Cur, ghost queues': seq<seq<Rec>>, ghost pushed': seq<Line>)
    requires RingsOk(rings) && states.Length == |rings| && TakenAll(rings, queues, starts, [])
    requires Grown(queues0, queues, pushed) && Between(queues0, snaps, queues) && |snaps| == i < |rings|
    requires states[i].Free? || states[i].Claiming? ==> rings[i].queue == []
    modifies states, rings, Bufs(rings)
    ensures RingsOk(rings) && TakenAll(rings, queues', starts, [])
    ensures Grown(queues0, queues', pushed') && |starts| == |rings| && Between(queues0, snaps + [rings[i].queue], queues')
    ensures forall l :: l in pushed' ==> l in pushed || l in first || l in then_
    ensures empty <==> rings[i].queue == []
    ensures !empty ==> c == Cur(i, starts[i], starts[i] + Span(rings[i].queue), HeadOf(rings[i].queue[0]))
    ensures states[..] == old(states[..])[i := if old(states[i]).Dead? && empty then LogFlush.Free else old(states[i])]
    ensures forall j :: 0 <= j < |rings| && !old(states[j]).Live? ==> rings[j].queue == old(rings[j].queue)
  {
    hide Span, RingsOk, From, Between, Grown, Taken;
    queues', pushed' := Meanwhile(rings, states, first, queues0, snaps, queues, pushed, starts);
    var st := states[i];
    queues', pushed' := Meanwhile(rings, states, then_, queues0, snaps, queues', pushed', starts);
    SnapOne(rings, queues0, snaps, queues', starts, i);
    empty, c := true, Cur(0, 0, 0, Head(0, 0, 0));
    if st.Live? || st.Dead? {
      RingAt(rings, i);
      empty, c := Look(rings[i], i);
      if empty && st.Dead? { states[i] := LogFlush.Free; }
    }
  }

  lemma Untouched(rings: seq<Ring>)
    ensures TakenAll(rings, Queues(rings), Starts(rings), []) && Grown(Queues(rings), Queues(rings), [])
    ensures Between(Queues(rings), [], Queues(rings))
  {
    NothingFrom();
  }

  /** The next snapshot is what its ring holds. */
  lemma SnapOne(rings: seq<Ring>, queues0: seq<seq<Rec>>, snaps: seq<seq<Rec>>, queues: seq<seq<Rec>>, starts: seq<nat>,
                i: nat)
    requires TakenAll(rings, queues, starts, []) && Between(queues0, snaps, queues) && |snaps| == i < |rings|
    ensures rings[i].queue == queues[i] && rings[i].cons == starts[i]
    ensures Between(queues0, snaps + [rings[i].queue], queues)
  {
    NothingFrom();
    assert Taken(rings[i], queues[i], starts[i], 0);
    assert queues[i][0..] == queues[i] && queues[i][..0] == [];
  }

  /** Lines that arrive during the first loop. */
  method Meanwhile(rings: seq<Ring>, states: array<LogFlush.RingState>, batch: seq<Line>, ghost queues0: seq<seq<Rec>>,
                   ghost snaps: seq<seq<Rec>>, ghost queues: seq<seq<Rec>>, ghost pushed: seq<Line>, ghost starts: seq<nat>)
      returns (ghost queues': seq<seq<Rec>>, ghost pushed': seq<Line>)
    requires RingsOk(rings) && states.Length == |rings| && TakenAll(rings, queues, starts, [])
    requires Grown(queues0, queues, pushed) && Between(queues0, snaps, queues)
    modifies rings, Bufs(rings)
    ensures RingsOk(rings) && TakenAll(rings, queues', starts, [])
    ensures Grown(queues0, queues', pushed') && Between(queues0, snaps, queues')
    ensures forall l :: l in pushed' ==> l in pushed || l in batch
    ensures forall i :: 0 <= i < |rings| && !states[i].Live? ==> rings[i].queue == old(rings[i].queue)
  {
    hide RingsOk, From, Span;
    ghost var more;
    queues', more := Arrive(rings, states, batch, queues, starts, []);
    pushed' := pushed + more;
    GrownTwice(queues0, queues, queues', pushed, more);
    BetweenGrown(queues0, snaps, queues, queues', more);
    NothingFrom();
    forall i | 0 <= i < |rings| && !states[i].Live? ensures rings[i].queue == old(rings[i].queue) {
      NoneFrom(more, i);
    }
  }

  lemma {:induction false} NoneFrom(ls: seq<Line>, i: nat)
    requires forall l :: l in ls ==> l.ring != i
    ensures From(ls, i) == []
  {
    if ls != [] {
      assert ls[|ls| - 1] in ls;
      NoneFrom(ls[..|ls| - 1], i);
    }
  }

  /** A queued record passes the writer's test: the arm that gives a ring back
      whole is dead. */
  lemma IsARecord(r: Ring, c: Cur, snap: seq<Rec>, at: nat, start: nat)
    requires r.Valid() && CurOk(c, snap, at, start) && r.queue != [] && r.queue[0] == snap[at]
    ensures !NotARecord(c.head, c.pos, c.end)
    ensures c.pos + Size(c.head.len) == start + Span(snap[..at + 1])
    ensures c.pos + Size(c.head.len) == c.end <==> at + 1 == |snap|
  {
    hide Size;
    assert snap[..at + 1][..at] == snap[..at];
    SpanGrows(snap, at + 1);
    assert snap[..|snap|] == snap;
  }

  /** And the snapshots are the front of what was queued. */
  ghost predicate Reached(rings: seq<Ring>, snaps: seq<seq<Rec>>, queues: seq<seq<Rec>>, starts: seq<nat>, out: seq<Line>)
    reads rings
  {
    && |snaps| == |queues| && TakenAll(rings, queues, starts, out)
    && (forall i :: 0 <= i < |snaps| ==> snaps[i] <= queues[i])
  }

  lemma FrontOf(snap: seq<Rec>, queue: seq<Rec>, at: nat)
    requires snap <= queue && at < |snap|
    ensures queue[at..] != [] && queue[at..][0] == snap[at] && queue[..at] == snap[..at]
  {
  }

  lemma TakenNext(queue: seq<Rec>, at: nat)
    requires at < |queue|
    ensures queue[at..][1..] == queue[at + 1..] && Span(queue[..at + 1]) == Span(queue[..at]) + Size(|queue[at].line|)
  {
    assert queue[..at + 1][..at] == queue[..at];
  }

  /** A cursor's record goes out of its ring; the next header is read if there is
      one before the snapshot. */
  method Emit(r: Ring, c: Cur, ghost snap: seq<Rec>, ghost queue: seq<Rec>, ghost at: nat, ghost start: nat)
      returns (rec: Rec, next: Cur, more: bool)
    requires r.Valid() && snap <= queue && CurOk(c, snap, at, start) && Taken(r, queue, start, at)
    modifies r
    ensures r.Valid() && r.prod == old(r.prod) && Taken(r, queue, start, at + 1) && rec == snap[at]
    ensures more <==> at + 1 < |snap|
    ensures more ==> next.ring == c.ring && CurOk(next, snap, at + 1, start)
  {
    hide Span, Size, NotARecord;
    FrontOf(snap, queue, at);
    IsARecord(r, c, snap, at, start);
    assert !NotARecord(c.head, c.pos, c.end);
    TakenNext(queue, at);
    rec := r.Give(c.head);
    next := c.(pos := c.pos + Size(c.head.len));
    more := next.pos != c.end;
    if more {
      FrontOf(snap, queue, at + 1);
      var h := r.Peek();
      next := next.(head := h);
    }
  }

  /** The same among all the rings. */
  method EmitIn(rings: seq<Ring>, c: Cur, ghost out: seq<Line>, ghost snaps: seq<seq<Rec>>, ghost queues: seq<seq<Rec>>,
                ghost starts: seq<nat>)
      returns (rec: Rec, next: Cur, more: bool)
    requires RingsOk(rings) && Reached(rings, snaps, queues, starts, out) && c.ring < |rings| == |snaps| == |starts|
    requires CurOk(c, snaps[c.ring], |From(out, c.ring)|, starts[c.ring])
    modifies rings
    ensures RingsOk(rings) && |From(out, c.ring)| < |snaps[c.ring]| && rec == snaps[c.ring][|From(out, c.ring)|]
    ensures Reached(rings, snaps, queues, starts, out + [Line(c.ring, rec)])
    ensures forall i :: 0 <= i < |rings| ==> rings[i].prod == old(rings[i].prod)
    ensures more <==> |From(out, c.ring)| + 1 < |snaps[c.ring]|
    ensures more ==> next.ring == c.ring && CurOk(next, snaps[c.ring], |From(out, c.ring)| + 1, starts[c.ring])
  {
    hide From, Span, Size, Taken;
    ghost var at := |From(out, c.ring)|;
    CurAtIsShort(c, snaps[c.ring], at, starts[c.ring]);
    rec, next, more := Emit(rings[c.ring], c, snaps[c.ring], queues[c.ring], at, starts[c.ring]);
    forall i | 0 <= i < |rings|
      ensures Taken(rings[i], queues[i], starts[i], |From(out + [Line(c.ring, rec)], i)|)
    {
      FromAppend(out, Line(c.ring, rec), i);
    }
  }

  lemma DropLast(before: seq<Cur>, now: seq<Cur>, k: nat)
    requires k < |before| == |now| + 1
    requires forall j :: 0 <= j < |now| ==> now[j] == if j == k then before[|now|] else before[j]
    ensures now == Drop(before, k)
  {
  }

  /** One round of the second loop. */
  method Round(rings: seq<Ring>, cur: array<Cur>, n0: nat, out0: seq<Line>,
               ghost snaps: seq<seq<Rec>>, ghost queues: seq<seq<Rec>>, ghost starts: seq<nat>)
      returns (n: nat, out: seq<Line>)
    requires RingsOk(rings) && |queues| == |starts| == |rings| && 0 < n0 <= cur.Length
    requires CursOk(cur[..n0], snaps, starts, out0) && Reached(rings, snaps, queues, starts, out0)
    modifies cur, rings
    ensures RingsOk(rings) && n <= cur.Length && |out| == |out0| + 1
    ensures CursOk(cur[..n], snaps, starts, out) && Reached(rings, snaps, queues, starts, out)
    ensures Remaining(snaps, Abs(cur[..n], out)) < old(Remaining(snaps, Abs(cur[..n0], out0)))
    ensures forall i :: 0 <= i < |rings| ==> rings[i].prod == old(rings[i].prod)
  {
    hide From, Remaining, Span, Size, CursOk, Abs, Drop, CurOk, Taken;
    ghost var before := cur[..n0];
    var k := Oldest(cur, n0);
    var c := cur[k];
    CurAt(before, snaps, starts, out0, k);
    var rec, next, more := EmitIn(rings, c, out0, snaps, queues, starts);
    out := out0 + [Line(c.ring, rec)];
    n := n0;
    if more {
      cur[k] := next;
      assert cur[..n] == before[k := next];
      CursNext(before, snaps, starts, out0, k, next);
    } else {
      n := n0 - 1;
      cur[k] := cur[n];
      CursDrop(before, snaps, starts, out0, k);
      DropLast(before, cur[..n], k);
    }
  }

  /** The second loop. Lines may be queued behind the snapshots before every round;
      they stay. It ends because what is left of the snapshots shrinks. */
  method Drain(rings: seq<Ring>, states: array<LogFlush.RingState>, cur: array<Cur>, n0: nat, arrivals: nat -> seq<Line>,
               ghost snaps: seq<seq<Rec>>, ghost queues0: seq<seq<Rec>>, ghost starts: seq<nat>)
      returns (out: seq<Line>, lines: nat, ghost queues: seq<seq<Rec>>, ghost pushed: seq<Line>)
    requires RingsOk(rings) && states.Length == |rings| && n0 <= cur.Length
    requires CursOk(cur[..n0], snaps, starts, []) && Reached(rings, snaps, queues0, starts, [])
    modifies cur, rings, Bufs(rings)
    ensures RingsOk(rings) && Complete(snaps, out) && Greedy(snaps, out) && lines == |out|
    ensures Grown(queues0, queues, pushed) && Reached(rings, snaps, queues, starts, out)
    ensures forall l :: l in pushed ==> Came(l, arrivals)
  {
    hide PassOk, Remaining, Span, Complete, Greedy, From, RingsOk, CursOk, Grown, Taken;
    out, lines, queues, pushed := [], 0, queues0, [];
    var n: nat := n0;
    GrownNone(queues0);
    while n > 0
      invariant RingsOk(rings) && n <= cur.Length && lines == |out|
      invariant CursOk(cur[..n], snaps, starts, out) && Reached(rings, snaps, queues, starts, out)
      invariant Grown(queues0, queues, pushed) && forall l :: l in pushed ==> Came(l, arrivals)
      decreases Remaining(snaps, Abs(cur[..n], out))
    {
      ghost var before := queues;
      ghost var more;
      queues, more := Arrive(rings, states, arrivals(lines), queues, starts, out);
      GrownTwice(queues0, before, queues, pushed, more);
      PrefixesKept(snaps, before, queues, more);
      pushed := pushed + more;
      n, out := Round(rings, cur, n, out, snaps, queues, starts);
      lines := lines + 1;
    }
    Finished(cur[..n], snaps, starts, out);
  }

  lemma GrownNone(queues: seq<seq<Rec>>)
    ensures Grown(queues, queues, [])
  {
    NothingFrom();
  }

  lemma PrefixesKept(snaps: seq<seq<Rec>>, before: seq<seq<Rec>>, now: seq<seq<Rec>>, more: seq<Line>)
    requires |snaps| == |before| && Grown(before, now, more) && forall i :: 0 <= i < |snaps| ==> snaps[i] <= before[i]
    ensures forall i :: 0 <= i < |snaps| ==> snaps[i] <= now[i]
  {
    hide From;
  }

  lemma Finished(cur: seq<Cur>, snaps: seq<seq<Rec>>, starts: seq<nat>, out: seq<Line>)
    requires CursOk(cur, snaps, starts, out) && cur == []
    ensures Complete(snaps, out) && Greedy(snaps, out)
  {
    DoneIsComplete(snaps, Abs(cur, out), out);
  }

  /** `writer_pass`, with lines queued by other threads all the while. What was
      queued at the start is in the snapshots; the output is their complete greedy
      merge; and of every ring what went out and what is left is what was queued and
      what was queued meanwhile, in order. */
  method WriterPass(rings: seq<Ring>, states: array<LogFlush.RingState>, early: nat -> seq<Line>, late: nat -> seq<Line>)
      returns (out: seq<Line>, lines: nat, ghost snaps: seq<seq<Rec>>, ghost pushed: seq<Line>)
    requires RingsOk(rings) && states.Length == |rings|
    requires forall i :: 0 <= i < |rings| && (states[i].Free? || states[i].Claiming?) ==> rings[i].queue == []
    modifies states, rings, Bufs(rings)
    ensures RingsOk(rings) && lines == |out| && |snaps| == |rings|
    ensures Complete(snaps, out) && Greedy(snaps, out)
    ensures forall i :: 0 <= i < |rings| ==>
              && old(rings[i].queue) <= snaps[i]
              && From(out, i) + rings[i].queue == old(rings[i].queue) + From(pushed, i)
    ensures forall l :: l in pushed ==> Came(l, early) || Came(l, late)
    ensures forall i :: 0 <= i < |rings| ==>
              states[i] == if old(states[i]).Dead? && old(rings[i].queue) == [] then LogFlush.Free else old(states[i])
  {
    hide CursOk, Complete, Greedy, From, Span, RingsOk;
    ghost var queues0, starts := Queues(rings), Starts(rings);
    ghost var queues, first, more;
    var cur, n;
    cur, n, snaps, queues, first := ListRings(rings, states, early);
    ghost var between := queues;
    out, lines, queues, more := Drain(rings, states, cur, n, late, snaps, between, starts);
    pushed := first + more;
    GrownTwice(queues0, between, queues, first, more);
    forall i | 0 <= i < |rings| ensures From(out, i) + rings[i].queue == queues0[i] + From(pushed, i) {
      AllTaken(snaps, out);
      assert Taken(rings[i], queues[i], starts[i], |From(out, i)|);
    }
  }

  lemma AllTaken(snaps: seq<seq<Rec>>, out: seq<Line>)
    requires Complete(snaps, out)
    ensures forall i :: 0 <= i < |snaps| ==> From(out, i) == snaps[i]
  {
  }
}
