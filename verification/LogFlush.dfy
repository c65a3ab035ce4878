/** The writer loop, the threads that own rings, and `log_flush`, one step per
    atomic access. Lines are counted per ring: queued, taken by the writer, and
    flushed out of the sinks' buffers. */
module LogFlush {
  datatype RingState = Free | Claiming | Live | Dead

  /** A ring as the threads and the writer share it. */
  datatype Ring = Ring(state: RingState, owned: bool, queued: nat, taken: nat, flushed: nat)

  /** The writer: `ends` are the snapshots of the rings it has passed. */
  datatype Writer =
    | Between
    | AtState(ends: seq<nat>)
    | AtProd(ends: seq<nat>, seen: RingState)
    | AtFree(ends: seq<nat>)
    | Draining(ends: seq<nat>)
    | Flushing(ends: seq<nat>)
    | Counting
    | Exited

  /** A `log_flush` call that saw async mode on. `before` counts the lines that
      were queued in each ring when it loaded the pass counter. */
  datatype Flusher = Waiting(want: nat, before: seq<nat>) | Returned(before: seq<nat>) | TimedOut

  datatype Sys = Sys(rings: seq<Ring>, writer: Writer, passes: nat, flushers: map<nat, Flusher>)

  const EMPTY := Ring(Free, false, 0, 0, 0)

  predicate Init(s: Sys) {
    (forall i :: 0 <= i < |s.rings| ==> s.rings[i] == EMPTY) && s.writer == Between && s.passes == 0 && s.flushers == map[]
  }

  // ---- threads that log ----

  /** `ring_get`: the compare-exchange, and the store that makes the ring live. */
  predicate Claims(s: Sys, s': Sys, i: nat) {
    i < |s.rings| && s.rings[i].state == Free &&
    s' == s.(rings := s.rings[i := s.rings[i].(state := Claiming, owned := true)])
  }

  predicate GoesLive(s: Sys, s': Sys, i: nat) {
    i < |s.rings| && s.rings[i].state == Claiming &&
    s' == s.(rings := s.rings[i := s.rings[i].(state := Live)])
  }

  /** No memory for the ring, or no destructor: it is put back. */
  predicate Abandons(s: Sys, s': Sys, i: nat) {
    i < |s.rings| && s.rings[i].state == Claiming &&
    s' == s.(rings := s.rings[i := s.rings[i].(state := Free, owned := false)])
  }

  /** A line is queued by the ring's thread. */
  predicate Queues(s: Sys, s': Sys, i: nat) {
    i < |s.rings| && s.rings[i].state == Live &&
    s' == s.(rings := s.rings[i := s.rings[i].(queued := s.rings[i].queued + 1)])
  }

  /** `ring_thread_exit` */
  predicate Exits(s: Sys, s': Sys, i: nat) {
    i < |s.rings| && s.rings[i].state == Live &&
    s' == s.(rings := s.rings[i := s.rings[i].(state := Dead, owned := false)])
  }

  // ---- the writer ----

  predicate PassBegins(s: Sys, s': Sys) {
    s.writer == Between && s' == s.(writer := AtState([]))
  }

  /** The load of the next ring's state; a ring nobody filled is passed over. */
  predicate LoadsState(s: Sys, s': Sys) {
    && s.writer.AtState? && |s.writer.ends| < |s.rings|
    && var ends := s.writer.ends; var r := s.rings[|ends|];
       s' == s.(writer := if r.state == Live || r.state == Dead then AtProd(ends, r.state)
                          else AtState(ends + [r.taken]))
  }

  /** The load of its `prod`; an empty ring that is dead is given back next. */
  predicate LoadsProd(s: Sys, s': Sys) {
    && s.writer.AtProd? && |s.writer.ends| < |s.rings|
    && var ends := s.writer.ends; var r := s.rings[|ends|];
       s' == s.(writer := if r.queued == r.taken && s.writer.seen == Dead then AtFree(ends)
                          else AtState(ends + [r.queued]))
  }

  predicate Frees(s: Sys, s': Sys) {
    && s.writer.AtFree? && |s.writer.ends| < |s.rings|
    && var i := |s.writer.ends|; var r := s.rings[i];
       s' == s.(rings := s.rings[i := r.(state := Free)], writer := AtState(s.writer.ends + [r.taken]))
  }

  predicate ScanEnds(s: Sys, s': Sys) {
    s.writer.AtState? && |s.writer.ends| == |s.rings| && s' == s.(writer := Draining(s.writer.ends))
  }

  /** One line of some ring, up to that ring's snapshot. */
  predicate Takes(s: Sys, s': Sys, i: nat) {
    && s.writer.Draining? && i < |s.rings| && i < |s.writer.ends| && s.rings[i].taken < s.writer.ends[i]
    && s' == s.(rings := s.rings[i := s.rings[i].(taken := s.rings[i].taken + 1)])
  }

  predicate DrainEnds(s: Sys, s': Sys) {
    && s.writer.Draining? && |s.writer.ends| == |s.rings|
    && (forall i :: 0 <= i < |s.rings| ==> s.rings[i].taken >= s.writer.ends[i])
    && s' == s.(writer := Flushing(s.writer.ends))
  }

  /** `sinks_flush` */
  predicate Flushes(s: Sys, s': Sys) {
    && s.writer.Flushing?
    && s' == s.(rings := seq(|s.rings|, i requires 0 <= i < |s.rings| => s.rings[i].(flushed := s.rings[i].taken)),
                writer := Counting)
  }

  /** The pass counter moves on; the writer may then leave for good. */
  predicate Counts(s: Sys, s': Sys, stop: bool) {
    s.writer == Counting && s' == s.(passes := s.passes + 1, writer := if stop then Exited else Between)
  }

  /** After the writer has left: a new one starts, or `log_async_stop` makes a
      last pass of its own, which is not counted. */
  predicate Restarts(s: Sys, s': Sys) {
    s.writer == Exited && (s' == s.(writer := Between) || s' == s.(writer := AtState([])))
  }

  predicate LastPassEnds(s: Sys, s': Sys) {
    s.writer == Counting && s' == s.(writer := Exited)
  }

  // ---- log_flush ----

  function Queued(s: Sys): seq<nat> { seq(|s.rings|, i requires 0 <= i < |s.rings| => s.rings[i].queued) }

  predicate FlushStarts(s: Sys, s': Sys, t: nat) {
    && (t in s.flushers ==> !s.flushers[t].Waiting?)
    && s' == s.(flushers := s.flushers[t := Waiting(s.passes + 2, Queued(s))])
  }

  predicate FlushReturns(s: Sys, s': Sys, t: nat) {
    && t in s.flushers && s.flushers[t].Waiting? && s.passes >= s.flushers[t].want
    && s' == s.(flushers := s.flushers[t := Returned(s.flushers[t].before)])
  }

  predicate FlushTimesOut(s: Sys, s': Sys, t: nat) {
    t in s.flushers && s.flushers[t].Waiting? && s' == s.(flushers := s.flushers[t := TimedOut])
  }

  ghost predicate ThreadStep(s: Sys, s': Sys, i: nat) {
    Claims(s, s', i) || GoesLive(s, s', i) || Abandons(s, s', i) || Queues(s, s', i) || Exits(s, s', i)
  }

  ghost predicate ScanStep(s: Sys, s': Sys) {
    PassBegins(s, s') || LoadsState(s, s') || LoadsProd(s, s') || Frees(s, s') || ScanEnds(s, s')
  }

  ghost predicate DrainStep(s: Sys, s': Sys) {
    (exists i :: Takes(s, s', i)) || DrainEnds(s, s') || Flushes(s, s') || (exists stop :: Counts(s, s', stop))
    || Restarts(s, s') || LastPassEnds(s, s')
  }

  ghost predicate FlushStep(s: Sys, s': Sys, t: nat) {
    FlushStarts(s, s', t) || FlushReturns(s, s', t) || FlushTimesOut(s, s', t)
  }

  ghost predicate Next(s: Sys, s': Sys) {
    || (exists i :: ThreadStep(s, s', i)) || ScanStep(s, s') || DrainStep(s, s')
    || (exists t :: FlushStep(s, s', t))
  }

  ghost predicate IsRun(run: seq<Sys>) {
    run != [] && Init(run[0]) && forall i :: 0 <= i < |run| - 1 ==> Next(run[i], run[i + 1])
  }

  // ---- what every step keeps ----

  /** A ring that is free, or being claimed, is empty; a free or dead one is nobody's. */
  predicate RingOk(r: Ring) {
    && r.flushed <= r.taken <= r.queued
    && (r.state == Free || r.state == Claiming ==> r.taken == r.queued)
    && (r.owned <==> r.state == Claiming || r.state == Live)
  }

  function Ends(w: Writer): seq<nat> {
    if w.AtState? || w.AtProd? || w.AtFree? || w.Draining? || w.Flushing? then w.ends else []
  }

  ghost predicate WriterOk(s: Sys) {
    var w := s.writer; var ends := Ends(w);
    && |ends| <= |s.rings|
    && (forall j :: 0 <= j < |ends| ==> s.rings[j].taken <= ends[j] <= s.rings[j].queued)
    && (w.AtProd? ==> |ends| < |s.rings| && (w.seen == Dead ==> s.rings[|ends|].state == Dead))
    && (w.AtFree? ==> |ends| < |s.rings| && s.rings[|ends|].state == Dead
                      && s.rings[|ends|].taken == s.rings[|ends|].queued)
    && (w.Draining? || w.Flushing? ==> |ends| == |s.rings|)
    && (w.Flushing? ==> forall j :: 0 <= j < |ends| ==> ends[j] == s.rings[j].taken)
  }

  /** Everything counted in `before` has left the sinks' buffers. */
  ghost predicate Out(s: Sys, before: seq<nat>) {
    |before| == |s.rings| && forall j :: 0 <= j < |before| ==> before[j] <= s.rings[j].flushed
  }

  /** The pass under way covers everything counted in `before`. */
  ghost predicate Covers(s: Sys, before: seq<nat>) {
    var ends := Ends(s.writer);
    && |before| == |s.rings| && |ends| <= |s.rings|
    && (forall j :: 0 <= j < |ends| ==> before[j] <= ends[j])
    && (s.writer.Counting? ==> Out(s, before))
  }

  /** The pass that ran at the call promises nothing; the next one covers what
      was queued; after it, that is out. */
  ghost predicate FlusherOk(s: Sys, f: Flusher) {
    match f
    case Waiting(want, before) =>
      && |before| == |s.rings| && 2 <= want <= s.passes + 2
      && (forall j :: 0 <= j < |before| ==> before[j] <= s.rings[j].queued)
      && (s.passes + 1 == want ==> Covers(s, before))
      && (s.passes >= want ==> Out(s, before))
    case Returned(before) => Out(s, before)
    case TimedOut => true
  }

  ghost predicate Inv(s: Sys) {
    && (forall i :: 0 <= i < |s.rings| ==> RingOk(s.rings[i]))
    && WriterOk(s)
    && (forall t :: t in s.flushers ==> FlusherOk(s, s.flushers[t]))
  }

  lemma InitInv(s: Sys)
    requires Init(s)
    ensures Inv(s)
  {
  }

  lemma ThreadKeeps(s: Sys, s': Sys, i: nat)
    requires Inv(s) && ThreadStep(s, s', i)
    ensures Inv(s')
  {
    forall t | t in s'.flushers ensures FlusherOk(s', s'.flushers[t]) {
      assert FlusherOk(s, s.flushers[t]);
    }
  }

  lemma ScanRings(s: Sys, s': Sys)
    requires Inv(s) && ScanStep(s, s')
    ensures (forall i :: 0 <= i < |s'.rings| ==> RingOk(s'.rings[i])) && WriterOk(s')
  {
  }

  lemma ScanKeeps(s: Sys, s': Sys)
    requires Inv(s) && ScanStep(s, s')
    ensures Inv(s')
  {
    ScanRings(s, s');
    forall t | t in s'.flushers ensures FlusherOk(s', s'.flushers[t]) {
      ScanFlusher(s, s', s.flushers[t]);
    }
  }

  lemma ScanFlusher(s: Sys, s': Sys, f: Flusher)
    requires Inv(s) && FlusherOk(s, f) && ScanStep(s, s')
    ensures FlusherOk(s', f)
  {
  }

  lemma DrainKeeps(s: Sys, s': Sys)
    requires Inv(s) && DrainStep(s, s')
    ensures Inv(s')
  {
    forall t | t in s'.flushers ensures FlusherOk(s', s'.flushers[t]) {
      DrainFlusher(s, s', s.flushers[t]);
    }
  }

  lemma DrainFlusher(s: Sys, s': Sys, f: Flusher)
    requires Inv(s) && FlusherOk(s, f) && DrainStep(s, s')
    ensures FlusherOk(s', f)
  {
  }

  lemma FlushKeeps(s: Sys, s': Sys, t: nat)
    requires Inv(s) && FlushStep(s, s', t)
    ensures Inv(s')
  {
    forall u | u in s'.flushers ensures FlusherOk(s', s'.flushers[u]) {
      if u != t { assert FlusherOk(s, s.flushers[u]); }
    }
  }

  lemma NextKeeps(s: Sys, s': Sys)
    requires Inv(s) && Next(s, s')
    ensures Inv(s')
  {
    hide Inv, ThreadStep, ScanStep, DrainStep, FlushStep;
    if i :| ThreadStep(s, s', i) {
      ThreadKeeps(s, s', i);
    } else if ScanStep(s, s') {
      ScanKeeps(s, s');
    } else if DrainStep(s, s') {
      DrainKeeps(s, s');
    } else {
      var t :| FlushStep(s, s', t);
      FlushKeeps(s, s', t);
    }
  }

  lemma {:induction false} RunInv(run: seq<Sys>, k: nat)
    requires IsRun(run) && k < |run|
    ensures Inv(run[k])
  {
    hide Inv, Init, Next;
    if k == 0 {
      InitInv(run[0]);
    } else {
      RunInv(run, k - 1);
      assert Next(run[k - 1], run[k - 1 + 1]);
      NextKeeps(run[k - 1], run[k]);
    }
  }

  /** FLUSHED MEANS OUT. In every interleaving, when `log_flush` has returned 0,
      every line that was queued in any ring before the call has been taken and
      flushed out of the sinks. */
  lemma FlushedMeansOut(run: seq<Sys>, k: nat, t: nat)
    requires IsRun(run) && k < |run| && t in run[k].flushers && run[k].flushers[t].Returned?
    ensures Out(run[k], run[k].flushers[t].before)
  {
    hide Next, Init, WriterOk;
    RunInv(run, k);
  }

  /** RECYCLED EMPTY. A ring is free only when it is empty and nobody's, so its
      next owner finds no line of the last one and overwrites none. */
  lemma FreeIsEmpty(run: seq<Sys>, k: nat, i: nat)
    requires IsRun(run) && k < |run| && i < |run[k].rings|
    ensures var r := run[k].rings[i];
            && (r.state == Free ==> r.taken == r.queued && !r.owned)
            && (r.state == Claiming ==> r.taken == r.queued)
  {
    hide Next, Init, WriterOk, FlusherOk;
    RunInv(run, k);
  }

  // ---- one pass is not enough ----

  /** A run with one ring: the writer goes past it, its thread claims it and queues
      a line, a flush starts, and the pass ends. */
  const LIVE := EMPTY.(state := Live, owned := true)
  const S0 := Sys([EMPTY], Between, 0, map[])
  const S1 := S0.(writer := AtState([]))
  const S2 := S0.(writer := AtState([0]))
  const S3 := S2.(rings := [EMPTY.(state := Claiming, owned := true)])
  const S4 := S2.(rings := [LIVE])
  const S5 := S2.(rings := [LIVE.(queued := 1)])
  const S6 := S5.(flushers := map[0 := Waiting(2, [1])])
  const S7 := S6.(writer := Draining([0]))
  const S8 := S6.(writer := Flushing([0]))
  const S9 := S6.(writer := Counting)
  const S10 := S6.(writer := Between, passes := 1)

  lemma EarlySteps()
    ensures ScanStep(S0, S1) && ScanStep(S1, S2) && ThreadStep(S2, S3, 0) && ThreadStep(S3, S4, 0)
    ensures ThreadStep(S4, S5, 0)
  {
    var none: seq<nat> := [];
    assert none + [0] == [0];
  }

  lemma FlushBegins()
    ensures FlushStep(S5, S6, 0)
  {
    assert Queued(S5) == [1] && map[][0 := Waiting(2, [1])] == map[0 := Waiting(2, [1])];
  }

  lemma LateSteps()
    ensures ScanStep(S6, S7) && DrainStep(S7, S8) && DrainStep(S8, S9) && DrainStep(S9, S10)
  {
    assert S9.rings == seq(|S8.rings|, i requires 0 <= i < |S8.rings| => S8.rings[i].(flushed := S8.rings[i].taken));
    assert Counts(S9, S10, false);
  }

  /** What `log_flush` waits for is needed: the pass that ran at the call may
      have gone past a ring before its line was queued, so one pass is not
      enough. */
  lemma OnePassIsNotEnough() returns (run: seq<Sys>)
    ensures IsRun(run) && |run| == 11
    ensures run[6].flushers == map[0 := Waiting(2, [1])] && run[10].passes == 1
    ensures !Out(run[10], [1])
  {
    hide ThreadStep, ScanStep, DrainStep, FlushStep;
    EarlySteps();
    FlushBegins();
    LateSteps();
    run := [S0, S1, S2, S3, S4, S5, S6, S7, S8, S9, S10];
    assert S10.rings[0].flushed < [1][0];
  }
}
