/** Every run of registrations, deletes and dispatched events, with what became
    of each registration. A worker that dispatches an event captures the fd and
    the generation first and deletes later, so anything may come in between. */
module NotifyHistory {
  import opened NotifyTable

  /** How a registration left the table: to the destroy callback, or back to an
      owner that frees it. */
  datatype End = End(fd: nat, gen: nat, destroyed: bool)

  datatype Sys = Sys(relays: nat, regs: map<nat, Reg>, born: set<(nat, nat)>, ended: seq<End>, captured: map<nat, (nat, nat)>)

  predicate Init(s: Sys) { s.relays > 0 && s.regs == map[] && s.born == {} && s.ended == [] && s.captured == map[] }

  /** A new registration, on the shard `Add` picks; generations are not used twice
      for a fd. */
  predicate Registers(s: Sys, s': Sys, fd: nat, r: Reg, pin: int, want: int) {
    && 0 < fd < MAX_FDS && fd !in s.regs && (fd, r.gen) !in s.born
    && s.relays > 0 && r.thr == ShardFor(s.regs, fd, pin, want, s.relays)
    && s' == s.(regs := s.regs[fd := r], born := s.born + {(fd, r.gen)})
  }

  /** An update, a pause or a disarm: same owner, same generation. */
  predicate Changes(s: Sys, s': Sys, fd: nat, wanted: set<Flag>, paused: bool) {
    && fd in s.regs
    && s' == s.(regs := s.regs[fd := s.regs[fd].(wanted := wanted, paused := paused)])
  }

  predicate Rearms(s: Sys, s': Sys) { s' == s.(regs := Rearmed(s.regs)) }

  /** A delete that may be qualified by a generation. */
  function Deleted(s: Sys, fd: int, gen: nat, check: bool): Sys {
    if DeleteRc(s.regs, fd, gen, check) != Done then s
    else s.(regs := s.regs - {fd}, ended := s.ended + [End(fd, s.regs[fd].gen, true)])
  }

  predicate Deletes(s: Sys, s': Sys, fd: int) { s' == Deleted(s, fd, 0, false) }

  predicate Deregisters(s: Sys, s': Sys, fd: nat) {
    && fd in s.regs
    && s' == s.(regs := s.regs - {fd}, ended := s.ended + [End(fd, s.regs[fd].gen, false)])
  }

  /** The dispatch loop: the lookup under the read lock, and the delete that
      follows a fatal event. */
  predicate Captures(s: Sys, s': Sys, w: nat, fd: nat) {
    fd in s.regs && s' == s.(captured := s.captured[w := (fd, s.regs[fd].gen)])
  }

  predicate Fatal(s: Sys, s': Sys, w: nat) {
    w in s.captured && s' == Deleted(s, s.captured[w].0, s.captured[w].1, true).(captured := s.captured - {w})
  }

  ghost predicate Next(s: Sys, s': Sys) {
    || (exists fd, r, pin, want :: Registers(s, s', fd, r, pin, want))
    || (exists fd, wanted, paused :: Changes(s, s', fd, wanted, paused))
    || Rearms(s, s')
    || (exists fd :: Deletes(s, s', fd))
    || (exists fd :: Deregisters(s, s', fd))
    || (exists w, fd :: Captures(s, s', w, fd))
    || (exists w :: Fatal(s, s', w))
  }

  ghost predicate IsRun(run: seq<Sys>) {
    run != [] && Init(run[0]) && forall i :: 0 <= i < |run| - 1 ==> Next(run[i], run[i + 1])
  }

  /** Everything live was born, everything that ended was born and is not live,
      and nothing ended twice. */
  ghost predicate Inv(s: Sys) {
    && (forall fd :: fd in s.regs ==> 0 < fd < MAX_FDS && (fd, s.regs[fd].gen) in s.born)
    && (forall i :: 0 <= i < |s.ended| ==> Gone(s, s.ended[i]))
    && (forall i, j :: 0 <= i < j < |s.ended| ==> (s.ended[i].fd, s.ended[i].gen) != (s.ended[j].fd, s.ended[j].gen))
    && (forall w :: w in s.captured ==> s.captured[w] in s.born)
  }

  predicate Gone(s: Sys, e: End) {
    (e.fd, e.gen) in s.born && (e.fd in s.regs ==> s.regs[e.fd].gen != e.gen)
  }

  lemma RemoveKeeps(s: Sys, s': Sys, fd: nat, destroyed: bool)
    requires Inv(s) && fd in s.regs
    requires s' == s.(regs := s.regs - {fd}, ended := s.ended + [End(fd, s.regs[fd].gen, destroyed)])
    ensures Inv(s')
  {
    forall i | 0 <= i < |s.ended| ensures Gone(s', s'.ended[i]) && (s.ended[i].fd, s.ended[i].gen) != (fd, s.regs[fd].gen) {
      assert Gone(s, s.ended[i]);
    }
  }

  /** What has ended stays so while the fds it had get new generations only. */
  lemma GoneKept(s: Sys, s': Sys)
    requires s'.ended == s.ended && s.born <= s'.born && forall i :: 0 <= i < |s.ended| ==> Gone(s, s.ended[i])
    requires forall fd :: fd in s'.regs ==>
               (fd in s.regs && s.regs[fd].gen == s'.regs[fd].gen) || (fd, s'.regs[fd].gen) !in s.born
    ensures forall i :: 0 <= i < |s.ended| ==> Gone(s', s.ended[i])
  {
    forall i | 0 <= i < |s.ended| ensures Gone(s', s.ended[i]) {
      assert Gone(s, s.ended[i]);
    }
  }

  lemma NextKeeps(s: Sys, s': Sys)
    requires Inv(s) && Next(s, s')
    ensures Inv(s')
  {
    hide Gone, ShardFor;
    if fd, r, pin, want :| Registers(s, s', fd, r, pin, want) {
      GoneKept(s, s');
    } else if fd, wanted, paused :| Changes(s, s', fd, wanted, paused) {
      GoneKept(s, s');
    } else if Rearms(s, s') {
      GoneKept(s, s');
    } else if fd :| Deletes(s, s', fd) {
      if DeleteRc(s.regs, fd, 0, false) == Done { RemoveKeeps(s, s', fd, true); }
    } else if fd :| Deregisters(s, s', fd) {
      RemoveKeeps(s, s', fd, false);
    } else if w :| Fatal(s, s', w) {
      var fd, gen := s.captured[w].0, s.captured[w].1;
      var t := Deleted(s, fd, gen, true);
      if DeleteRc(s.regs, fd, gen, true) == Done { RemoveKeeps(s, t, fd, true); }
      GoneKept(t, s');
    } else {
      var w, fd :| Captures(s, s', w, fd);
      GoneKept(s, s');
    }
  }

  lemma InitInv(s: Sys)
    requires Init(s)
    ensures Inv(s)
  {
  }

  lemma {:induction false} RunInv(run: seq<Sys>, k: nat)
    requires IsRun(run) && k < |run|
    ensures Inv(run[k])
  {
    hide Inv, Next;
    if k == 0 {
      InitInv(run[0]);
    } else {
      RunInv(run, k - 1);
      assert Next(run[k - 1], run[k - 1 + 1]);
      NextKeeps(run[k - 1], run[k]);
    }
  }

  /** EACH REGISTRATION ENDS ONCE. In every run no registration is destroyed
      twice, destroyed after it was handed back, or destroyed while it is live. */
  lemma EndsOnce(run: seq<Sys>, k: nat, i: nat, j: nat)
    requires IsRun(run) && k < |run| && i < j < |run[k].ended|
    ensures (run[k].ended[i].fd, run[k].ended[i].gen) != (run[k].ended[j].fd, run[k].ended[j].gen)
    ensures Gone(run[k], run[k].ended[i]) && Gone(run[k], run[k].ended[j])
  {
    hide Next, Init;
    RunInv(run, k);
  }

  /** A STALE EVENT IS HARMLESS. When an event is captured at one point of a run
      and acted on at a later one, a registration the fd has then and did not
      have at the capture stays, and at most the captured one is destroyed. */
  lemma StaleIsHarmless(run: seq<Sys>, i: nat, j: nat, w: nat, fd: nat)
    requires IsRun(run) && i < j < |run| - 1
    requires Captures(run[i], run[i + 1], w, fd) && Fatal(run[j], run[j + 1], w)
    requires run[j].captured[w] == run[i + 1].captured[w]
    ensures fd in run[j].regs && (fd, run[j].regs[fd].gen) !in run[i].born ==>
              run[j + 1].regs == run[j].regs && run[j + 1].ended == run[j].ended
    ensures run[j + 1].ended == run[j].ended || run[j + 1].ended == run[j].ended + [End(fd, run[i].regs[fd].gen, true)]
    ensures forall g :: g != fd && g in run[j].regs ==> g in run[j + 1].regs && run[j + 1].regs[g] == run[j].regs[g]
  {
    hide Next, Init;
    RunInv(run, i);
  }

  // ---- both legs of a connection on one worker ----

  /** A registration keeps its shard and its owner, and its generation is not used
      again. */
  ghost predicate Keeps(s: Sys, fd: nat, gen: nat, thr: nat, priv: nat) {
    (fd, gen) in s.born && (fd in s.regs && s.regs[fd].gen == gen ==> s.regs[fd].thr == thr && s.regs[fd].priv == priv)
  }

  lemma NextStays(s: Sys, s': Sys, fd: nat, gen: nat, thr: nat, priv: nat)
    requires Keeps(s, fd, gen, thr, priv) && Next(s, s')
    ensures Keeps(s', fd, gen, thr, priv)
  {
  }

  lemma {:induction false} Stays(run: seq<Sys>, i: nat, k: nat, fd: nat)
    requires IsRun(run) && i <= k < |run| && fd in run[i].regs
    ensures Keeps(run[k], fd, run[i].regs[fd].gen, run[i].regs[fd].thr, run[i].regs[fd].priv)
    decreases k - i
  {
    hide Next, Init;
    if i == k {
      RunInv(run, k);
    } else {
      Stays(run, i, k - 1, fd);
      assert Next(run[k - 1], run[k - 1 + 1]);
      var r := run[i].regs[fd];
      NextStays(run[k - 1], run[k], fd, r.gen, r.thr, r.priv);
    }
  }

  /** ONE WORKER FOR BOTH LEGS. A fd that was registered with a live partner and no
      shard of its own is on its partner's shard at every later point of the run at
      which both registrations are still there. */
  lemma PartnersStay(run: seq<Sys>, i: nat, k: nat, fd: nat, r: Reg, pin: int, want: int)
    requires IsRun(run) && i < k < |run| && Registers(run[i], run[i + 1], fd, r, pin, want)
    requires want < 0 && pin > 0 && pin in run[i].regs
    requires fd in run[k].regs && run[k].regs[fd].gen == r.gen
    requires pin in run[k].regs && run[k].regs[pin].gen == run[i].regs[pin].gen
    ensures run[k].regs[fd].thr == run[k].regs[pin].thr
  {
    hide Next, Init;
    Stays(run, i + 1, k, fd);
    Stays(run, i, k, pin);
  }

  /** A fd that asked for a shard stays on it; without a shard and without a live
      partner it stays where its number puts it. */
  lemma PlaceStays(run: seq<Sys>, i: nat, k: nat, fd: nat, r: Reg, pin: int, want: int)
    requires IsRun(run) && i < k < |run| && Registers(run[i], run[i + 1], fd, r, pin, want)
    requires want >= 0 || pin <= 0 || pin !in run[i].regs
    requires fd in run[k].regs && run[k].regs[fd].gen == r.gen
    ensures run[i].relays > 0 && run[k].regs[fd].thr == if want >= 0 then want else fd % run[i].relays
  {
    hide Next, Init;
    Stays(run, i + 1, k, fd);
  }
}
