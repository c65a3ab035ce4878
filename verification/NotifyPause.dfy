/** The pause and re-arm handshake, one step per shared access: the lock, the
    paused mark, the counter that is read without the lock, and the gate. */
module NotifyPause {
  /** Where a thread is. The `Pause` and `Arm` points up to the re-arm belong to
      `notify_pause_ent`, `Ask` to `notify_rearm_paused`, `Forget` to a delete or
      a disarm of a paused registration. */
  datatype Pc =
    | Out
    | PauseMark(fd: nat)
    | PauseCount
    | PauseUnlock
    | PauseCheck
    | AskCount
    | AskGate
    | ArmLock
    | ArmLoop
    | ArmCount
    | ForgetMark(fd: nat)
    | ForgetCount

  datatype Lock = Free | Held(holder: nat)

  datatype Sys = Sys(paused: set<nat>, count: int, gate: bool, lock: Lock, pcs: map<nat, Pc>)

  function At(s: Sys, t: nat): Pc { if t in s.pcs then s.pcs[t] else Out }

  predicate Init(s: Sys) { s.paused == {} && s.count == 0 && s.lock == Free && s.pcs == map[] }

  predicate Goes(s: Sys, s': Sys, t: nat, pc: Pc) { s'.pcs == s.pcs[t := pc] }

  // ---- notify_pause_ent ----

  predicate PauseEnters(s: Sys, s': Sys, t: nat, fd: nat) {
    At(s, t) == Out && s.lock == Free && Goes(s, s', t, PauseMark(fd)) && s' == s.(lock := Held(t), pcs := s'.pcs)
  }

  /** Not registered, paused already, or no room. */
  predicate PauseDeclines(s: Sys, s': Sys, t: nat) {
    At(s, t).PauseMark? && Goes(s, s', t, Out) && s' == s.(lock := Free, pcs := s'.pcs)
  }

  predicate Marks(s: Sys, s': Sys, t: nat) {
    && At(s, t).PauseMark? && At(s, t).fd !in s.paused && Goes(s, s', t, PauseCount)
    && s' == s.(paused := s.paused + {At(s, t).fd}, pcs := s'.pcs)
  }

  predicate CountsUp(s: Sys, s': Sys, t: nat) {
    At(s, t) == PauseCount && Goes(s, s', t, PauseUnlock) && s' == s.(count := s.count + 1, pcs := s'.pcs)
  }

  predicate PauseUnlocks(s: Sys, s': Sys, t: nat) {
    At(s, t) == PauseUnlock && Goes(s, s', t, PauseCheck) && s' == s.(lock := Free, pcs := s'.pcs)
  }

  /** The second look at the gate. */
  predicate Checks(s: Sys, s': Sys, t: nat) {
    At(s, t) == PauseCheck && Goes(s, s', t, if s.gate then ArmLock else Out) && s' == s.(pcs := s'.pcs)
  }

  // ---- notify_rearm_paused ----

  /** Whoever opens the gate goes on to `notify_rearm_paused`; others may too. */
  predicate Opens(s: Sys, s': Sys, t: nat) {
    At(s, t) == Out && Goes(s, s', t, AskCount) && s' == s.(gate := true, pcs := s'.pcs)
  }

  predicate Asks(s: Sys, s': Sys, t: nat) {
    At(s, t) == Out && Goes(s, s', t, AskCount) && s' == s.(pcs := s'.pcs)
  }

  predicate Closes(s: Sys, s': Sys) { s' == s.(gate := false) }

  predicate ReadsCount(s: Sys, s': Sys, t: nat) {
    At(s, t) == AskCount && Goes(s, s', t, if s.count == 0 then Out else AskGate) && s' == s.(pcs := s'.pcs)
  }

  predicate ReadsGate(s: Sys, s': Sys, t: nat) {
    At(s, t) == AskGate && Goes(s, s', t, if s.gate then ArmLock else Out) && s' == s.(pcs := s'.pcs)
  }

  // ---- notify_rearm_locked ----

  predicate ArmLocks(s: Sys, s': Sys, t: nat) {
    At(s, t) == ArmLock && s.lock == Free && Goes(s, s', t, ArmLoop) && s' == s.(lock := Held(t), pcs := s'.pcs)
  }

  predicate Unmarks(s: Sys, s': Sys, t: nat, fd: nat) {
    && At(s, t) == ArmLoop && fd in s.paused && Goes(s, s', t, ArmCount)
    && s' == s.(paused := s.paused - {fd}, pcs := s'.pcs)
  }

  predicate CountsDown(s: Sys, s': Sys, t: nat) {
    At(s, t) == ArmCount && Goes(s, s', t, ArmLoop) && s' == s.(count := s.count - 1, pcs := s'.pcs)
  }

  predicate ArmEnds(s: Sys, s': Sys, t: nat) {
    At(s, t) == ArmLoop && s.paused == {} && Goes(s, s', t, Out) && s' == s.(lock := Free, pcs := s'.pcs)
  }

  // ---- a paused registration that goes away ----

  predicate ForgetEnters(s: Sys, s': Sys, t: nat, fd: nat) {
    At(s, t) == Out && s.lock == Free && Goes(s, s', t, ForgetMark(fd)) && s' == s.(lock := Held(t), pcs := s'.pcs)
  }

  predicate Forgets(s: Sys, s': Sys, t: nat) {
    && At(s, t).ForgetMark?
    && if At(s, t).fd in s.paused then
         Goes(s, s', t, ForgetCount) && s' == s.(paused := s.paused - {At(s, t).fd}, pcs := s'.pcs)
       else
         Goes(s, s', t, Out) && s' == s.(lock := Free, pcs := s'.pcs)
  }

  predicate ForgetEnds(s: Sys, s': Sys, t: nat) {
    At(s, t) == ForgetCount && Goes(s, s', t, Out) && s' == s.(count := s.count - 1, lock := Free, pcs := s'.pcs)
  }

  // ---- runs ----

  predicate PauseStep(s: Sys, s': Sys, t: nat, fd: nat) {
    || PauseEnters(s, s', t, fd) || PauseDeclines(s, s', t) || Marks(s, s', t) || CountsUp(s, s', t)
    || PauseUnlocks(s, s', t) || Checks(s, s', t)
  }

  predicate AskStep(s: Sys, s': Sys, t: nat) {
    Opens(s, s', t) || Asks(s, s', t) || ReadsCount(s, s', t) || ReadsGate(s, s', t)
  }

  predicate ArmStep(s: Sys, s': Sys, t: nat, fd: nat) {
    ArmLocks(s, s', t) || Unmarks(s, s', t, fd) || CountsDown(s, s', t) || ArmEnds(s, s', t)
  }

  predicate ForgetStep(s: Sys, s': Sys, t: nat, fd: nat) {
    ForgetEnters(s, s', t, fd) || Forgets(s, s', t) || ForgetEnds(s, s', t)
  }

  predicate Step(s: Sys, s': Sys, t: nat, fd: nat) {
    PauseStep(s, s', t, fd) || AskStep(s, s', t) || ArmStep(s, s', t, fd) || ForgetStep(s, s', t, fd) || Closes(s, s')
  }

  ghost predicate Next(s: Sys, s': Sys) { exists t, fd :: Step(s, s', t, fd) }

  ghost predicate IsRun(run: seq<Sys>) {
    run != [] && Init(run[0]) && forall i :: 0 <= i < |run| - 1 ==> Next(run[i], run[i + 1])
  }

  // ---- what every step keeps ----

  predicate Holds(pc: Pc) {
    pc.PauseMark? || pc == PauseCount || pc == PauseUnlock || pc == ArmLoop || pc == ArmCount || pc.ForgetMark?
    || pc == ForgetCount
  }

  /** The thread will still ask the gate, or re-arm. */
  predicate Pending(pc: Pc) {
    pc == PauseCount || pc == PauseUnlock || pc == PauseCheck || pc == AskCount || pc == AskGate || pc == ArmLock
    || pc == ArmLoop || pc == ArmCount
  }

  /** How far the counter is off while the holder is between mark and count. */
  function Skew(pc: Pc): int {
    if pc == PauseCount then -1 else if pc == ArmCount || pc == ForgetCount then 1 else 0
  }

  ghost predicate LockOk(s: Sys) { forall t: nat :: Holds(At(s, t)) <==> s.lock == Held(t) }

  ghost predicate CountOk(s: Sys) {
    s.count == |s.paused| + if s.lock.Held? then Skew(At(s, s.lock.holder)) else 0
  }

  ghost predicate SomePending(s: Sys) { exists t :: Pending(At(s, t)) }

  ghost predicate Inv(s: Sys) {
    LockOk(s) && CountOk(s) && (s.gate && s.paused != {} ==> SomePending(s))
  }

  lemma InitInv(s: Sys)
    requires Init(s)
    ensures Inv(s)
  {
  }

  lemma LockKeeps(s: Sys, s': Sys, t: nat, fd: nat)
    requires LockOk(s) && Step(s, s', t, fd)
    ensures LockOk(s')
  {
    assert Holds(At(s, t)) <==> s.lock == Held(t);
    forall u: nat ensures Holds(At(s', u)) <==> s'.lock == Held(u) {
      assert Holds(At(s, u)) <==> s.lock == Held(u);
    }
  }

  lemma CountPause(s: Sys, s': Sys, t: nat, fd: nat)
    requires LockOk(s) && CountOk(s) && PauseStep(s, s', t, fd)
    ensures CountOk(s')
  {
    assert Holds(At(s, t)) <==> s.lock == Held(t);
  }

  lemma CountArm(s: Sys, s': Sys, t: nat, fd: nat)
    requires LockOk(s) && CountOk(s) && ArmStep(s, s', t, fd)
    ensures CountOk(s')
  {
    assert Holds(At(s, t)) <==> s.lock == Held(t);
  }

  lemma CountForget(s: Sys, s': Sys, t: nat, fd: nat)
    requires LockOk(s) && CountOk(s) && ForgetStep(s, s', t, fd)
    ensures CountOk(s')
  {
    assert Holds(At(s, t)) <==> s.lock == Held(t);
  }

  lemma CountKeeps(s: Sys, s': Sys, t: nat, fd: nat)
    requires LockOk(s) && CountOk(s) && Step(s, s', t, fd)
    ensures CountOk(s')
  {
    hide PauseStep, ArmStep, ForgetStep;
    assert Holds(At(s, t)) <==> s.lock == Held(t);
    if PauseStep(s, s', t, fd) {
      CountPause(s, s', t, fd);
    } else if ArmStep(s, s', t, fd) {
      CountArm(s, s', t, fd);
    } else if ForgetStep(s, s', t, fd) {
      CountForget(s, s', t, fd);
    }
  }

  /** The witness stays where it is, or the thread that moves is one. */
  lemma PendingKeeps(s: Sys, s': Sys, t: nat, fd: nat)
    requires Inv(s) && Step(s, s', t, fd)
    ensures s'.gate && s'.paused != {} ==> SomePending(s')
  {
    hide LockOk, CountOk;
    if s'.gate && s'.paused != {} && !Pending(At(s', t)) {
      if s.gate && s.paused != {} {
        var u :| Pending(At(s, u));
        if u == t { LastWitness(s, s', t, fd); } else { assert At(s', u) == At(s, u); }
      }
    }
  }

  /** A pending thread leaves with the gate open and a registration paused only
      when it read a zero counter, and then the pause is not counted yet. */
  lemma LastWitness(s: Sys, s': Sys, t: nat, fd: nat)
    requires Inv(s) && Step(s, s', t, fd) && Pending(At(s, t)) && !Pending(At(s', t))
    requires s'.gate && s'.paused != {}
    ensures SomePending(s')
  {
    assert ReadsCount(s, s', t) && s.count == 0;
    assert s.lock.Held? && At(s, s.lock.holder) == PauseCount;
    assert At(s', s.lock.holder) == PauseCount;
  }

  lemma NextKeeps(s: Sys, s': Sys)
    requires Inv(s) && Next(s, s')
    ensures Inv(s')
  {
    hide Step, LockOk, CountOk;
    var t, fd :| Step(s, s', t, fd);
    LockKeeps(s, s', t, fd);
    CountKeeps(s, s', t, fd);
    PendingKeeps(s, s', t, fd);
  }

  lemma {:induction false} RunInv(run: seq<Sys>, k: nat)
    requires IsRun(run) && k < |run|
    ensures Inv(run[k])
  {
    hide Inv, Init, Next;
    if k == 0 {
      InitInv(run[0]);
    } else {
      RunInv(run, k - 1);
      assert Next(run[k - 1], run[k - 1 + 1]);
      NextKeeps(run[k - 1], run[k]);
    }
  }

  /** NO ACCEPT IS LOST. In every interleaving of pausers, closers, openers and
      deletes, a registration that is paused behind an open gate has a thread
      whose look at the gate or whose re-arm is still to come. */
  lemma NoAcceptLost(run: seq<Sys>, k: nat)
    requires IsRun(run) && k < |run| && run[k].gate && run[k].paused != {}
    ensures exists t :: Pending(At(run[k], t))
  {
    hide Next, Init, LockOk, CountOk;
    RunInv(run, k);
  }

  /** So a state in which every thread is out has nothing paused behind an open
      gate, and the counter is the number of paused registrations. */
  lemma QuiescentIsArmed(run: seq<Sys>, k: nat)
    requires IsRun(run) && k < |run| && forall t: nat :: At(run[k], t) == Out
    ensures run[k].gate ==> run[k].paused == {}
    ensures run[k].count == |run[k].paused|
  {
    hide Next, Init;
    RunInv(run, k);
    var s := run[k];
    assert s.lock.Held? ==> Holds(At(s, s.lock.holder));
  }
}
