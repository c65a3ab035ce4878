/** A worker's ring of parked fds waiting to be resumed. */
module NotifyResume {
  import opened NotifyTable
  import NotifyHistory
  import opened RingSlots

  const CAP: nat := 4096

  /** A wake: a parked fd and the generation it was parked under; 0 asks for no
      check. */
  datatype Wake = Wake(fd: nat, gen: nat)

  /** The wake still stands: the fd is registered, has an owner, and has the
      generation asked for. */
  predicate Stands(w: Wake, v: map<nat, Reg>) {
    w.gen == 0 || (w.fd in v && v[w.fd].priv != 0 && v[w.fd].gen == w.gen)
  }

  /** The wakes that stand when their turn comes; `table(k)` is the registrations
      as the `k`-th lookup finds them. */
  function Standing(ws: seq<Wake>, table: nat -> map<nat, Reg>, k: nat): seq<nat> {
    if ws == [] then [] else
      (if Stands(ws[0], table(k)) then [ws[0].fd] else []) + Standing(ws[1..], table, k + 1)
  }

  lemma StandingStep(ws: seq<Wake>, table: nat -> map<nat, Reg>, k: nat)
    ensures ws == [] ==> Standing(ws, table, k) == []
    ensures ws != [] ==>
              Standing(ws, table, k)
              == (if Stands(ws[0], table(k)) then [ws[0].fd] else []) + Standing(ws[1..], table, k + 1)
  {
  }

  /** The wakes a draining worker meets beyond the `n` that wait, when `arrivals[k]`
      come before its k-th look: as many of them as there is room for, until a look
      finds nothing. */
  function Accepted(n: nat, arrivals: seq<seq<Wake>>): seq<Wake>
    requires n <= CAP
    decreases |arrivals|
  {
    if arrivals == [] then [] else
      var some := Fitting(n, arrivals[0]);
      if n + |some| == 0 then [] else some + Accepted(n + |some| - 1, arrivals[1..])
  }

  function Fitting(n: nat, ws: seq<Wake>): (r: seq<Wake>)
    requires n <= CAP
    ensures n + |r| <= CAP && r <= ws && (r == ws || n + |r| == CAP)
  {
    if |ws| <= CAP - n then ws else ws[..CAP - n]
  }

  /** One look: what waits and what came, less the oldest. */
  lemma LookStep(ws: seq<Wake>, arrivals: seq<seq<Wake>>)
    requires |ws| <= CAP && arrivals != []
    ensures var all := ws + Fitting(|ws|, arrivals[0]); var met := ws + Accepted(|ws|, arrivals);
      && (all == [] ==> met == [])
      && (all != [] ==> met != [] && met[0] == all[0] && met[1..] == all[1..] + Accepted(|all| - 1, arrivals[1..]))
  {
    hide Fitting, Accepted;
    var some := Fitting(|ws|, arrivals[0]);
    AcceptedStep(|ws|, arrivals);
    if ws + some != [] {
      var rest := Accepted(|ws| + |some| - 1, arrivals[1..]);
      assert ws + (some + rest) == (ws + some) + rest;
    }
  }

  lemma AcceptedStep(n: nat, arrivals: seq<seq<Wake>>)
    requires n <= CAP && arrivals != []
    ensures var some := Fitting(n, arrivals[0]);
      Accepted(n, arrivals) == if n + |some| == 0 then [] else some + Accepted(n + |some| - 1, arrivals[1..])
  {
  }

  class Resume {
    const rq: array<Wake>
    var head: nat
    var tail: nat
    var count: nat

    ghost predicate Valid()
      reads this
    {
      rq.Length == CAP && head < CAP && count <= CAP && tail == Slot(head, count, CAP)
    }

    /** The wakes that wait, oldest first. */
    ghost function Waiting(): (ws: seq<Wake>)
      requires Valid()
      reads this, rq
      ensures |ws| == count
    {
      Laid(rq[..], head, count)
    }

    constructor ()
      ensures Valid() && Waiting() == [] && fresh(rq)
    {
      rq := new Wake[CAP](i => Wake(0, 0));
      head, tail, count := 0, 0, 0;
    }

    /** `notify_wake_worker_gen`: a full ring leaves the fd parked. */
    method Push(w: Wake) returns (ok: bool)
      requires Valid()
      modifies this, rq
      ensures Valid() && ok == (|old(Waiting())| < 4096)
      ensures Waiting() == if ok then old(Waiting()) + [w] else old(Waiting())
    {
      if count >= CAP { return false; }
      rq[tail] := w;
      tail := (tail + 1) % CAP;
      count := count + 1;
      ok := true;
    }

    /** The section of `notify_drain_resume` under the ring's lock. */
    method Pop() returns (some: bool, w: Wake)
      requires Valid()
      modifies this
      ensures Valid() && some == (old(Waiting()) != [])
      ensures some ==> w == old(Waiting())[0] && Waiting() == old(Waiting())[1..]
      ensures !some ==> Waiting() == old(Waiting())
    {
      some, w := false, Wake(0, 0);
      if count > 0 {
        some, w := true, rq[head];
        head := (head + 1) % CAP;
        count := count - 1;
      }
    }

    /** Other threads push these one after the other. */
    method Arrive(ws: seq<Wake>)
      requires Valid()
      modifies this, rq
      ensures Valid() && Waiting() == old(Waiting()) + Fitting(|old(Waiting())|, ws)
    {
      hide Laid;
      assert old(Waiting()) + Fitting(|old(Waiting())|, ws[..0]) == Waiting();
      for i := 0 to |ws|
        invariant Valid() && Waiting() == old(Waiting()) + Fitting(|old(Waiting())|, ws[..i])
      {
        assert ws[..i + 1] == ws[..i] + [ws[i]];
        var _ := Push(ws[i]);
      }
      assert ws[..|ws|] == ws;
    }

    /** `notify_drain_resume`: every wake is taken, in order, those that arrive in
        the meantime too, and the ones whose registration is then still the one that
        was parked are resumed. */
    method Drain(table: nat -> map<nat, Reg>, arrivals: seq<seq<Wake>>) returns (resumed: seq<nat>)
      requires Valid()
      modifies this, rq
      ensures Valid() && Waiting() == []
      ensures resumed == Standing(old(Waiting()) + Accepted(|old(Waiting())|, arrivals), table, 0)
    {
      hide Laid, Standing, Accepted, Fitting;
      resumed := [];
      var more, k, left := true, 0, arrivals;
      ghost var met := Waiting() + Accepted(|Waiting()|, left);
      while more
        invariant Valid() && (!more ==> Waiting() == [] && met == [])
        invariant more ==> met == Waiting() + Accepted(|Waiting()|, left)
        invariant resumed + Standing(met, table, k)
               == Standing(old(Waiting()) + Accepted(|old(Waiting())|, arrivals), table, 0)
        decreases |left|, |Waiting()|, more
      {
        StandingStep(met, table, k);
        NoneLeft(|Waiting()|);
        if left != [] {
          LookStep(Waiting(), left);
          Arrive(left[0]);
          left := left[1..];
        }
        var w;
        more, w := Pop();
        if more {
          if Stands(w, table(k)) {
            resumed := resumed + [w.fd];
          }
          met := met[1..];
          NoneLeft(|Waiting()|);
          k := k + 1;
        }
      }
      StandingStep([], table, k);
    }
  }

  lemma NoneLeft(n: nat)
    requires n <= CAP
    ensures Accepted(n, []) == []
  {
  }

  /** A STALE WAKE IS HARMLESS, A GOOD ONE IS NOT LOST. A wake for a registration at
      one point of a run, taken at a later one, stands exactly if that registration
      is still there, on the same shard with the same owner, and has an owner; one
      that names no generation always stands. */
  lemma StandsExactly(run: seq<NotifyHistory.Sys>, i: nat, k: nat, fd: nat)
    requires NotifyHistory.IsRun(run) && i <= k < |run| && fd in run[i].regs && run[i].regs[fd].gen != 0
    ensures var was, now := run[i].regs[fd], run[k].regs;
            && (Stands(Wake(fd, was.gen), now) <==>
                  && fd in now && now[fd].gen == was.gen && now[fd].thr == was.thr && now[fd].priv == was.priv
                  && was.priv != 0)
            && Stands(Wake(fd, 0), now)
  {
    hide NotifyHistory.IsRun;
    NotifyHistory.Stays(run, i, k, fd);
  }
}
