/** The trace ring between one producer and one consumer. Each side reads its own
    index and an old value of the other's; copying an event in or out takes many
    steps. */
module TraceRing {
  import opened RingSlots

  const CAP: nat := 8192
  const TWO_32: nat := 0x1_0000_0000

  /** The shared memory: indices, drop counter, slots. */
  datatype Ring<E> = Ring(w: nat, r: nat, dropped: nat, ev: seq<E>)

  /** `push` of `e`: after the loads, and while it copies into the slot. */
  datatype Producer<E> = Idle | Loaded(e: E, seenR: nat) | Copying(e: E)

  datatype Consumer = Resting | Polled(seenW: nat) | Reading

  /** What happened: the event of every push that began, how each that ended did
      (true for accepted), the events published and those handed out, the drops,
      and how far back each side's next read may be. */
  datatype Log<E> = Log(offered: seq<E>, fates: seq<bool>, accepted: seq<E>, popped: seq<E>, drops: nat,
                        knownR: nat, knownW: nat)

  datatype Sys<E> = Sys(ring: Ring<E>, prod: Producer<E>, cons: Consumer, log: Log<E>)

  ghost predicate Init<E>(s: Sys<E>) {
    && s.ring.w == 0 && s.ring.r == 0 && s.ring.dropped == 0 && |s.ring.ev| == CAP && s.prod == Idle && s.cons == Resting
    && s.log == Log([], [], [], [], 0, 0, 0)
  }

  // ---- lxb_ring_push ----

  /** The two loads; `at` is how many events had been popped when the value of
      `r` that is seen was stored. */
  ghost predicate PushLoads<E>(s: Sys<E>, s': Sys<E>, e: E, at: nat) {
    && s.prod == Idle && s.log.knownR <= at <= |s.log.popped|
    && s' == s.(prod := Loaded(e, at % CAP), log := s.log.(knownR := at, offered := s.log.offered + [e]))
  }

  ghost predicate PushDrops<E>(s: Sys<E>, s': Sys<E>) {
    && s.prod.Loaded? && (s.ring.w + 1) % CAP == s.prod.seenR
    && s' == s.(prod := Idle, ring := s.ring.(dropped := (s.ring.dropped + 1) % TWO_32),
                log := s.log.(drops := s.log.drops + 1, fates := s.log.fates + [false]))
  }

  ghost predicate PushBegins<E>(s: Sys<E>, s': Sys<E>) {
    s.prod.Loaded? && (s.ring.w + 1) % CAP != s.prod.seenR && s' == s.(prod := Copying(s.prod.e))
  }

  /** Part of the copy: the slot holds anything. */
  ghost predicate PushCopies<E>(s: Sys<E>, s': Sys<E>, part: E) {
    && s.prod.Copying? && s.ring.w < |s.ring.ev|
    && s' == s.(ring := s.ring.(ev := s.ring.ev[s.ring.w := part]))
  }

  /** The copy is complete and the index is stored. */
  ghost predicate PushEnds<E>(s: Sys<E>, s': Sys<E>) {
    && s.prod.Copying? && s.ring.w < |s.ring.ev| && s.ring.ev[s.ring.w] == s.prod.e
    && s' == s.(prod := Idle, ring := s.ring.(w := (s.ring.w + 1) % CAP),
                log := s.log.(accepted := s.log.accepted + [s.prod.e], fates := s.log.fates + [true]))
  }

  // ---- lxb_ring_pop ----

  ghost predicate PopLoads<E>(s: Sys<E>, s': Sys<E>, at: nat) {
    && s.cons == Resting && s.log.knownW <= at <= |s.log.accepted|
    && s' == s.(cons := Polled(at % CAP), log := s.log.(knownW := at))
  }

  ghost predicate PopEmpty<E>(s: Sys<E>, s': Sys<E>) {
    s.cons.Polled? && s.ring.r == s.cons.seenW && s' == s.(cons := Resting)
  }

  ghost predicate PopBegins<E>(s: Sys<E>, s': Sys<E>) {
    s.cons.Polled? && s.ring.r != s.cons.seenW && s' == s.(cons := Reading)
  }

  ghost predicate PopEnds<E>(s: Sys<E>, s': Sys<E>) {
    && s.cons == Reading && s.ring.r < |s.ring.ev|
    && s' == s.(cons := Resting, ring := s.ring.(r := (s.ring.r + 1) % CAP),
                log := s.log.(popped := s.log.popped + [s.ring.ev[s.ring.r]]))
  }

  ghost predicate PushStep<E(!new)>(s: Sys<E>, s': Sys<E>) {
    || (exists e, at :: PushLoads(s, s', e, at)) || PushDrops(s, s') || PushBegins(s, s')
    || (exists part :: PushCopies(s, s', part)) || PushEnds(s, s')
  }

  ghost predicate PopStep<E>(s: Sys<E>, s': Sys<E>) {
    (exists at :: PopLoads(s, s', at)) || PopEmpty(s, s') || PopBegins(s, s') || PopEnds(s, s')
  }

  ghost predicate Next<E(!new)>(s: Sys<E>, s': Sys<E>) { PushStep(s, s') || PopStep(s, s') }

  ghost predicate IsRun<E(!new)>(run: seq<Sys<E>>) {
    run != [] && Init(run[0]) && forall i :: 0 <= i < |run| - 1 ==> Next(run[i], run[i + 1])
  }

  // ---- what every step keeps ----

  lemma OneOn(a: nat)
    ensures (a % CAP + 1) % CAP == (a + 1) % CAP
  {
  }

  predicate IndexOk<E>(s: Sys<E>) {
    var l := s.log;
    && s.ring.w == |l.accepted| % CAP && s.ring.r == |l.popped| % CAP && |s.ring.ev| == CAP
    && l.knownR <= |l.popped| <= l.knownW <= |l.accepted| < l.knownR + CAP
  }

  /** The producer never fills the last slot, and the consumer reads only what is
      published. */
  predicate SidesOk<E>(s: Sys<E>) {
    var l := s.log;
    && (s.prod.Loaded? ==> s.prod.seenR == l.knownR % CAP)
    && (s.prod.Copying? ==> |l.accepted| + 1 < l.knownR + CAP)
    && (s.cons.Polled? ==> s.cons.seenW == l.knownW % CAP)
    && (s.cons == Reading ==> |l.popped| < l.knownW)
  }

  /** The events whose fate was to be accepted, in order. */
  function Chosen<E>(es: seq<E>, fates: seq<bool>): seq<E>
    requires |fates| <= |es|
  {
    if fates == [] then [] else
      var n := |fates| - 1;
      Chosen(es, fates[..n]) + if fates[n] then [es[n]] else []
  }

  lemma {:induction false} ChosenMore<E>(es: seq<E>, fates: seq<bool>, e: E)
    requires |fates| <= |es|
    ensures Chosen(es + [e], fates) == Chosen(es, fates)
  {
    if fates != [] {
      ChosenMore(es, fates[..|fates| - 1], e);
    }
  }

  lemma ChosenNext<E>(es: seq<E>, fates: seq<bool>, f: bool)
    requires |fates| < |es|
    ensures Chosen(es, fates + [f]) == Chosen(es, fates) + if f then [es[|fates|]] else []
  {
    assert (fates + [f])[..|fates|] == fates;
  }

  /** Pushes that began and have not ended: at most one, with one producer. */
  function InHand<E>(p: Producer<E>): nat { if p.Idle? then 0 else 1 }

  ghost predicate CountsOk<E>(s: Sys<E>) {
    var l := s.log;
    && |l.offered| == |l.fates| + InHand(s.prod) && s.ring.dropped == l.drops % TWO_32
    && (!s.prod.Idle? ==> l.offered[|l.fates|] == s.prod.e)
    && |l.fates| == |l.accepted| + l.drops && l.accepted == Chosen(l.offered, l.fates)
  }

  /** The slots from `r` to `w` hold the events not handed out yet. */
  ghost predicate SlotsOk<E>(ev: seq<E>, accepted: seq<E>, from: nat) {
    |ev| == CAP && forall k :: from <= k < |accepted| ==> ev[k % CAP] == accepted[k]
  }

  ghost predicate Inv<E>(s: Sys<E>) {
    && IndexOk(s) && SidesOk(s) && CountsOk(s)
    && SlotsOk(s.ring.ev, s.log.accepted, |s.log.popped|) && s.log.popped == s.log.accepted[..|s.log.popped|]
  }

  /** The test for a full ring, on positions. */
  lemma Room(a: nat, r: nat)
    requires r <= a < r + CAP
    ensures (a % CAP + 1) % CAP == r % CAP <==> a + 1 == r + CAP
  {
  }

  lemma PushIndex<E(!new)>(s: Sys<E>, s': Sys<E>)
    requires IndexOk(s) && SidesOk(s) && CountsOk(s) && PushStep(s, s')
    ensures IndexOk(s') && SidesOk(s') && CountsOk(s')
  {
    var l := s.log;
    hide Chosen;
    Room(|l.accepted|, l.knownR);
    if PushEnds(s, s') {
      OneOn(|l.accepted|);
      ChosenNext(l.offered, l.fates, true);
    } else if PushDrops(s, s') {
      ChosenNext(l.offered, l.fates, false);
    } else if e, at :| PushLoads(s, s', e, at) {
      ChosenMore(l.offered, l.fates, e);
    }
  }

  lemma PopIndex<E>(s: Sys<E>, s': Sys<E>)
    requires IndexOk(s) && SidesOk(s) && CountsOk(s) && PopStep(s, s')
    ensures IndexOk(s') && SidesOk(s') && CountsOk(s')
  {
    var l := s.log;
    OneOn(|l.popped|);
    if |l.popped| < l.knownW { Apart(|l.popped|, l.knownW, CAP); }
  }

  /** A store to the slot after the last published event touches none of them. */
  lemma CopyKeeps<E>(ev: seq<E>, accepted: seq<E>, from: nat, part: E)
    requires SlotsOk(ev, accepted, from) && |accepted| < from + CAP
    ensures SlotsOk(ev[|accepted| % CAP := part], accepted, from)
  {
    forall k | from <= k < |accepted| ensures ev[|accepted| % CAP := part][k % CAP] == accepted[k] {
      Apart(k, |accepted|, CAP);
    }
  }

  lemma PushKeeps<E(!new)>(s: Sys<E>, s': Sys<E>)
    requires Inv(s) && PushStep(s, s')
    ensures Inv(s')
  {
    PushIndex(s, s');
    if part :| PushCopies(s, s', part) {
      CopyKeeps(s.ring.ev, s.log.accepted, |s.log.popped|, part);
    }
  }

  lemma PopKeeps<E>(s: Sys<E>, s': Sys<E>)
    requires Inv(s) && PopStep(s, s')
    ensures Inv(s')
  {
    PopIndex(s, s');
  }

  lemma {:induction false} RunInv<E(!new)>(run: seq<Sys<E>>, k: nat)
    requires IsRun(run) && k < |run|
    ensures Inv(run[k])
  {
    if k > 0 {
      hide PushStep, PopStep, Inv;
      RunInv(run, k - 1);
      assert Next(run[k - 1], run[k - 1 + 1]);
      if PushStep(run[k - 1], run[k]) {
        PushKeeps(run[k - 1], run[k]);
      } else {
        PopKeeps(run[k - 1], run[k]);
      }
    }
  }

  // ---- the ring is a queue ----

  ghost function Queue<E>(s: Sys<E>): seq<E>
    requires Inv(s)
  {
    s.log.accepted[|s.log.popped|..]
  }

  /** REFINES A QUEUE. In every interleaving the ring is a queue of at most 8191
      events: what was handed out is a prefix of what was accepted, a step adds
      the accepted event at the back, takes the front, or changes nothing. */
  lemma RefinesQueue<E(!new)>(run: seq<Sys<E>>, k: nat)
    requires IsRun(run) && k < |run|
    ensures Inv(run[k]) && |Queue(run[k])| <= 8191
    ensures run[k].log.popped <= run[k].log.accepted
    ensures k + 1 < |run| ==> Inv(run[k + 1]) && QueueStep(run[k], run[k + 1])
  {
    RunInv(run, k);
    if k + 1 < |run| {
      RunInv(run, k + 1);
      hide Inv;
      assert Next(run[k], run[k + 1]);
      Stepped(run[k], run[k + 1]);
    }
  }

  ghost predicate QueueStep<E>(s: Sys<E>, s': Sys<E>)
    requires Inv(s) && Inv(s')
  {
    if PushEnds(s, s') then Queue(s') == Queue(s) + [s.prod.e]
    else if PopEnds(s, s') then
      Queue(s) != [] && Queue(s') == Queue(s)[1..] && s'.log.popped == s.log.popped + [Queue(s)[0]]
    else Queue(s') == Queue(s) && s'.log.popped == s.log.popped
  }

  lemma Stepped<E(!new)>(s: Sys<E>, s': Sys<E>)
    requires Inv(s) && Inv(s') && Next(s, s')
    ensures QueueStep(s, s')
  {
    var n := |s.log.popped|;
    if PushEnds(s, s') {
      assert (s.log.accepted + [s.prod.e])[n..] == s.log.accepted[n..] + [s.prod.e];
    } else if PopEnds(s, s') {
      assert s.ring.ev[n % CAP] == s.log.accepted[n];
      assert s.log.accepted[n..][1..] == s.log.accepted[n + 1..];
    }
  }

  /** NO TORN EVENT. While the consumer reads a slot, the producer never copies
      into that slot, and the slot holds the accepted event all along. */
  lemma NeverCollide<E(!new)>(run: seq<Sys<E>>, k: nat)
    requires IsRun(run) && k < |run| && run[k].cons == Reading
    ensures run[k].prod.Copying? ==> run[k].ring.w != run[k].ring.r
    ensures Inv(run[k]) && Queue(run[k]) != [] && run[k].ring.r < |run[k].ring.ev|
    ensures run[k].ring.ev[run[k].ring.r] == Queue(run[k])[0]
  {
    RunInv(run, k);
    var s := run[k];
    Apart(|s.log.popped|, |s.log.accepted|, CAP);
    assert s.ring.ev[|s.log.popped| % CAP] == s.log.accepted[|s.log.popped|];
  }

  /** NOTHING UNACCOUNTED. Every push that began, but for the one in hand, was
      accepted or dropped: the ring got exactly the events of the accepted ones, in
      order, and the shared counter is the number of the others modulo two to the
      thirty-second. */
  lemma AttemptsAccounted<E(!new)>(run: seq<Sys<E>>, k: nat)
    requires IsRun(run) && k < |run|
    ensures var s := run[k]; var l := s.log;
            && |l.offered| == |l.accepted| + l.drops + InHand(s.prod)
            && |l.fates| <= |l.offered| && l.accepted == Chosen(l.offered, l.fates)
            && s.ring.dropped == l.drops % 0x1_0000_0000
  {
    hide Next;
    RunInv(run, k);
  }

  /** A push is dropped only when 8191 events waited at the moment whose read
      index it saw. */
  lemma DroppedWhenFull<E(!new)>(run: seq<Sys<E>>, k: nat)
    requires IsRun(run) && k + 1 < |run| && PushDrops(run[k], run[k + 1])
    ensures |run[k].log.accepted| - run[k].log.knownR == 8191
  {
    hide Next;
    RunInv(run, k);
    Room(|run[k].log.accepted|, run[k].log.knownR);
  }

  /** `lxb_ring_size` */
  function Size(w: nat, r: nat): nat { (w - r) % CAP }

  /** With no side moving, the utilisation is the queue's length. */
  lemma SizeIsLength<E(!new)>(run: seq<Sys<E>>, k: nat)
    requires IsRun(run) && k < |run|
    ensures Inv(run[k]) && Size(run[k].ring.w, run[k].ring.r) == |Queue(run[k])|
  {
    hide Next;
    RunInv(run, k);
  }
}
