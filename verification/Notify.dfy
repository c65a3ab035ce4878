/** The notifier's registration table with its counters, its pause table and the
    kernel's interest lists, updated in place. Each method is one section under
    the lock. */
module Notify {
  import opened NotifyTable

  class Notifier {
    const relays: nat
    const earr: array<Ent>
    const pausedFds: array<nat>
    const load: array<nat>
    const wake: array<bool>
    var nPausedFds: nat
    var nFds: int
    var nPaused: int
    /** The interest lists, by shard and fd. */
    var kernel: map<(nat, nat), set<Flag>>
    /** The fds whose pause was answered `Paused` since a re-arm last found any. */
    ghost var pausedSince: seq<nat>

    ghost predicate Valid()
      reads this, earr, pausedFds, load, wake
    {
      Core() && SinceOk(pausedFds[..nPausedFds], pausedSince)
    }

    /** All of it but the history of pauses. */
    ghost predicate Core()
      reads this, earr, pausedFds, load, wake
    {
      && 0 < relays < MAX_THREADS && load != pausedFds
      && EntsOk(earr[..], relays)
      && nPausedFds <= pausedFds.Length == MAX_PAUSED && TableOk(earr[..], pausedFds[..nPausedFds])
      && nFds == |Live(earr[..])| && nPaused == |PausedSet(earr[..])|
      && ShardsOk(earr[..], load[..], wake[..])
      && MirrorOk(earr[..], kernel)
    }

    /** The registrations. */
    ghost function Regs(): map<nat, Reg>
      reads this, earr
    {
      View(earr[..])
    }

    constructor (nThrs: nat)
      requires 0 < nThrs < MAX_THREADS
      ensures Valid() && Regs() == map[] && relays == nThrs
      ensures fresh(earr) && fresh(pausedFds) && fresh(load) && fresh(wake)
    {
      relays := nThrs;
      earr := new Ent[MAX_FDS](i => Ent(false, {}, 0, 0, 0, false, {}));
      pausedFds := new nat[MAX_PAUSED](i => 0);
      load := new nat[MAX_THREADS](i => 0);
      wake := new bool[MAX_THREADS](i => false);
      nPausedFds, nFds, nPaused, kernel, pausedSince := 0, 0, 0, map[], [];
      new;
      assert Live(earr[..]) == {} && PausedSet(earr[..]) == {};
      assert forall t :: OnShard(earr[..], t) == {};
    }

    /** What the kernel watches for: nothing while a registration is paused, and
        otherwise what it wants; and only for registrations, on their shard. */
    lemma KernelIs(t: nat, fd: nat)
      requires Valid() && (t, fd) in kernel
      ensures fd in Regs() && Regs()[fd].thr == t
      ensures kernel[(t, fd)] == if Regs()[fd].paused then {} else Regs()[fd].wanted
    {
    }

    /** No shard has more than it can poll. */
    lemma ShardHasRoom(t: nat)
      requires Valid() && t < load.Length
      ensures |set fd | fd in Regs() && Regs()[fd].thr == t| <= load[t] <= 8192
    {
      assert (set fd | fd in Regs() && Regs()[fd].thr == t) == OnShard(earr[..], t);
    }

    /** The worker of shard `t` adds its wake fd. */
    method StartWorker(t: nat, ok: bool) returns (added: bool)
      requires Valid() && t <= relays && !wake[t]
      modifies load, wake
      ensures Valid() && Regs() == old(Regs())
      ensures added == (ok && old(load[t]) < MAX_POLL_FDS)
      ensures wake[..] == if added then old(wake[..])[t := true] else old(wake[..])
    {
      added := load[t] < MAX_POLL_FDS && ok;
      if added {
        wake[t] := true;
        load[t] := load[t] + 1;
      }
    }

    /** The kernel drops a closed fd from its interest lists by itself. */
    method KernelDrops(fd: nat)
      requires Valid()
      modifies `kernel
      ensures Valid() && Regs() == old(Regs())
      ensures forall k :: k in kernel <==> k in old(kernel) && k.1 != fd
      ensures forall k :: k in kernel ==> kernel[k] == old(kernel)[k]
    {
      kernel := map k | k in kernel && k.1 != fd :: kernel[k];
    }

    /** `epoll_ctl(MOD)`, which answers ENOENT for a fd the kernel dropped. */
    method EpMod(t: nat, fd: nat, mask: set<Flag>) returns (ok: bool)
      modifies `kernel
      ensures ok == ((t, fd) in old(kernel))
      ensures kernel == if ok then old(kernel)[(t, fd) := mask] else old(kernel)
    {
      ok := (t, fd) in kernel;
      if ok {
        kernel := kernel[(t, fd) := mask];
      }
    }

    /** Register a fd, or change what a registration of the same owner wants.
        `granted` is the kernel's own answer. */
    method Add(fd: int, kinds: set<Kind>, priv: nat, gen: nat, pin: int, want: int, granted: bool) returns (rc: Rc)
      requires Valid()
      modifies this, earr, load
      ensures Valid()
      ensures rc == AddRc(old(Regs()), old(load[..]), old(kernel.Keys), fd, kinds, priv, pin, want, relays, granted)
      ensures Regs() == if rc != Done then old(Regs())
                        else if fd in old(Regs()) then old(Regs())[fd := old(Regs()[fd]).(wanted := Mask(kinds))]
                        else old(Regs())[fd := Reg(ShardFor(old(Regs()), fd, pin, want, relays), priv, gen, Mask(kinds), false)]
      ensures kernel.Keys == if rc != Done || fd in old(Regs()) then old(kernel.Keys)
                             else old(kernel.Keys) + {(ShardFor(old(Regs()), fd, pin, want, relays), fd as nat)}
      ensures pausedSince == old(pausedSince)
      // A new registration goes to the shard asked for, to its live partner's, or by its fd.
      ensures rc == Done && fd !in old(Regs()) && want >= 0 ==> Regs()[fd].thr == want
      ensures rc == Done && fd !in old(Regs()) && want < 0 && pin > 0 && pin in old(Regs()) ==>
                Regs()[fd].thr == old(Regs()[pin]).thr
      ensures rc == Done && fd !in old(Regs()) && want < 0 && (pin <= 0 || pin !in old(Regs())) ==>
                Regs()[fd].thr == fd % relays
      // Another owner's registration is left alone.
      ensures fd in old(Regs()) && old(Regs()[fd]).priv != priv ==> rc != Done && Regs() == old(Regs())
    {
      hide Mask, MirrorOk, TableOk, Live, PausedSet, OnShard;
      if fd <= 0 || fd >= MAX_FDS || want >= MAX_THREADS { return Invalid; }
      var events := Mask(kinds);
      if events == {} { return Invalid; }
      if earr[fd].live {
        rc := Update(fd, events, priv, granted);
        return;
      }
      var t;
      if want >= 0 {
        t := want;
      } else if pin > 0 && pin < MAX_FDS && earr[pin].live {
        t := earr[pin].thr;
      } else {
        t := fd % relays;
      }
      assert t == ShardFor(Regs(), fd, pin, want, relays);
      if load[t] >= MAX_POLL_FDS { return Invalid; }
      if t > relays || !granted { return Refused; }
      Insert(fd, events, priv, gen, t);
      rc := Done;
    }

    /** The arm for a fd that is registered already. */
    method Update(fd: nat, events: set<Flag>, priv: nat, granted: bool) returns (rc: Rc)
      requires Valid() && 0 < fd < MAX_FDS && fd in Regs() && events != {}
      modifies this, earr
      ensures Valid()
      ensures rc == UpdateRc(old(Regs()[fd]), fd, old(kernel.Keys), events, priv, granted)
      ensures Regs() == if rc == Done then old(Regs())[fd := old(Regs()[fd]).(wanted := events)] else old(Regs())
      ensures kernel.Keys == old(kernel.Keys)
      ensures pausedSince == old(pausedSince)
    {
      hide ShardsOk, Live, PausedSet, SinceOk;
      var ent := earr[fd];
      if ent.priv != priv { return Exists; }
      ghost var es, was := earr[..], kernel;
      ghost var e := if ent.paused then ent.(held := events) else ent.(events := events);
      if ent.paused {
        earr[fd] := ent.(held := events);
      } else if ent.events != events {
        var ok := false;
        if granted {
          ok := EpMod(ent.thr, fd, events);
        }
        if !ok { return Refused; }
        earr[fd] := ent.(events := events);
      }
      assert earr[..] == es[fd := e];
      assert KernelAt(fd, e, was, kernel);
      Write(es, fd, e, relays, pausedFds[..nPausedFds], load[..], load[..], wake[..], was, kernel);
      rc := Done;
    }

    method Insert(fd: nat, events: set<Flag>, priv: nat, gen: nat, t: nat)
      requires Valid() && 0 < fd < MAX_FDS && fd !in Regs() && t <= relays && load[t] < MAX_POLL_FDS
      modifies this, earr, load
      ensures Valid() && Regs() == old(Regs())[fd := Reg(t, priv, gen, events, false)]
      ensures kernel.Keys == old(kernel.Keys) + {(t, fd)}
      ensures pausedSince == old(pausedSince)
    {
      var e := Ent(true, events, t, priv, gen, false, earr[fd].held);
      kernel := kernel[(t, fd) := events];
      earr[fd] := e;
      nFds := nFds + 1;
      load[t] := load[t] + 1;
      assert earr[..] == old(earr[..])[fd := e];
      Write(old(earr[..]), fd, e, relays, pausedFds[..nPausedFds], old(load[..]), load[..], wake[..], old(kernel), kernel);
    }
  
    /** Take a registration out of the table, the counts and the kernel. */
    method Remove(fd: nat)
      requires Valid() && 0 < fd < MAX_FDS && fd in Regs()
      modifies this, earr, load
      ensures Valid() && Regs() == old(Regs()) - {fd}
      ensures nFds == old(nFds) - 1 && nPaused == old(nPaused) - if old(Regs()[fd]).paused then 1 else 0
      ensures kernel.Keys == old(kernel.Keys) - {(old(Regs()[fd]).thr, fd)}
      ensures pausedSince == old(pausedSince)
    {
      hide ShardsOk, Live, PausedSet, SinceOk;
      var ent := earr[fd];
      var t := ent.thr;
      var e := ent.(live := false, events := {}, priv := 0, thr := 0, paused := false);
      LoadedShard(fd);
      earr[fd] := e;
      if ent.paused { nPaused := nPaused - 1; }
      kernel := kernel - {(t, fd)};
      nFds := nFds - 1;
      load[t] := load[t] - 1;
      assert earr[..] == old(earr[..])[fd := e];
      Write(old(earr[..]), fd, e, relays, pausedFds[..nPausedFds], old(load[..]), load[..], wake[..], old(kernel), kernel);
    }

    lemma LoadedShard(fd: nat)
      requires Valid() && 0 < fd < MAX_FDS && fd in Regs()
      ensures earr[fd].thr < load.Length && load[earr[fd].thr] > 0
    {
      assert fd in OnShard(earr[..], earr[fd].thr);
    }

    /** `__notify_delete_ent`: with `check`, only the registration the event was
        captured against. `destroyed` is the owner the destroy callback gets. */
    method Delete(fd: int, gen: nat, check: bool) returns (rc: Rc, destroyed: nat)
      requires Valid()
      modifies this, earr, load
      ensures Valid()
      ensures rc == DeleteRc(old(Regs()), fd, gen, check)
      ensures rc == Done <==> fd in old(Regs()) && (check ==> old(Regs()[fd]).gen == gen)
      ensures rc == Stale <==> fd in old(Regs()) && check && old(Regs()[fd]).gen != gen
      ensures rc == NotFound <==> 0 < fd < 65535 && fd !in old(Regs())
      ensures Regs() == if rc == Done then old(Regs()) - {fd} else old(Regs())
      ensures destroyed == if rc == Done then old(Regs()[fd]).priv else 0
      ensures kernel.Keys == old(kernel.Keys) - if rc == Done then {(old(Regs()[fd]).thr, fd as nat)} else {}
      ensures pausedSince == old(pausedSince)
    {
      if fd <= 0 || fd >= MAX_FDS { return Invalid, 0; }
      if !earr[fd].live { return NotFound, 0; }
      if check && earr[fd].gen != gen { return Stale, 0; }
      destroyed := earr[fd].priv;
      Remove(fd);
      rc := Done;
    }

    /** `notify_deregister_ent`: the owner closes and frees by itself. */
    method Deregister(fd: int) returns (rc: Rc)
      requires Valid()
      modifies this, earr, load
      ensures Valid()
      ensures rc == DeleteRc(old(Regs()), fd, 0, false) && (rc == Done <==> fd in old(Regs()))
      ensures rc == NotFound <==> 0 < fd < 65535 && fd !in old(Regs())
      ensures Regs() == if rc == Done then old(Regs()) - {fd} else old(Regs())
      ensures kernel.Keys == old(kernel.Keys) - if rc == Done then {(old(Regs()[fd]).thr, fd as nat)} else {}
      ensures pausedSince == old(pausedSince)
    {
      if fd <= 0 || fd >= MAX_FDS { return Invalid; }
      if !earr[fd].live { return NotFound; }
      Remove(fd);
      rc := Done;
    }

    /** `notify_disarm_ent`: the registration stays, with nothing wanted. */
    method Disarm(fd: int) returns (rc: Rc)
      requires Valid()
      modifies this, earr
      ensures Valid()
      ensures rc == DeleteRc(old(Regs()), fd, 0, false) && (rc == Done <==> fd in old(Regs()))
      ensures rc == NotFound <==> 0 < fd < 65535 && fd !in old(Regs())
      ensures Regs() == if rc == Done then old(Regs())[fd := old(Regs()[fd]).(wanted := {}, paused := false)]
                        else old(Regs())
      ensures nPausedFds == old(nPausedFds) && kernel.Keys == old(kernel.Keys)
      ensures nPaused == old(nPaused) - if rc == Done && old(Regs()[fd]).paused then 1 else 0
      ensures pausedSince == old(pausedSince)
    {
      hide ShardsOk, Live, PausedSet, SinceOk;
      if fd <= 0 || fd >= MAX_FDS { return Invalid; }
      var ent := earr[fd];
      if !ent.live { return NotFound; }
      var e := ent.(events := {}, paused := false);
      if ent.paused { nPaused := nPaused - 1; }
      if ent.events != {} {
        var _ := EpMod(ent.thr, fd, {});
      }
      earr[fd] := e;
      assert earr[..] == old(earr[..])[fd := e];
      assert KernelAt(fd, e, old(kernel), kernel);
      Write(old(earr[..]), fd, e, relays, pausedFds[..nPausedFds], load[..], load[..], wake[..], old(kernel), kernel);
      rc := Done;
    }
  
    /** `notify_rearm_locked` */
    method RearmLocked() returns (n: nat, woken: set<nat>)
      requires Valid()
      modifies this, earr
      ensures Valid() && nPaused == 0 && n == old(nPaused) && kernel.Keys == old(kernel.Keys)
      ensures Regs() == Rearmed(old(Regs())) && woken == Sleepers(old(Regs())) && pausedSince == []
    {
      hide ShardsOk, Live, PausedSet, MirrorOk, HalfArmed, Woken, SinceOk;
      NoPauses();
      n, woken := 0, {};
      ghost var was := earr[..];
      NoneArmed(was);
      for i := 0 to nPausedFds
        invariant Valid() && nPausedFds == old(nPausedFds) && pausedSince == old(pausedSince)
        invariant HalfArmed(earr[..], was, pausedFds[..i])
        invariant n + nPaused == old(nPaused) && kernel.Keys == old(kernel.Keys)
        invariant woken == Woken(was, pausedFds[..i])
      {
        var fd := pausedFds[i];
        assert pausedFds[..i + 1] == pausedFds[..i] + [fd];
        HalfStep(earr[..], was, pausedFds[..i], fd);
        var ent := earr[fd];
        if ent.live && ent.paused {
          RearmOne(fd);
          woken := woken + {ent.thr};
          n := n + 1;
        }
      }
      AllArmed(earr[..], was, pausedFds[..nPausedFds]);
      nPausedFds, pausedSince := 0, [];
      assert pausedFds[..0] == [];
    }

    method RearmOne(fd: nat)
      requires Valid() && 0 < fd < MAX_FDS && earr[fd].live && earr[fd].paused
      modifies earr, `kernel, `nPaused
      ensures Valid() && nPaused == old(nPaused) - 1 && kernel.Keys == old(kernel.Keys)
      ensures earr[..] == old(earr[..])[fd := Armed(old(earr[fd]))]
    {
      hide ShardsOk, Live, PausedSet, SinceOk;
      var ent := earr[fd];
      var e := Armed(ent);
      var _ := EpMod(ent.thr, fd, ent.held);
      earr[fd] := e;
      nPaused := nPaused - 1;
      assert earr[..] == old(earr[..])[fd := e];
      assert KernelAt(fd, e, old(kernel), kernel);
      Write(old(earr[..]), fd, e, relays, pausedFds[..nPausedFds], load[..], load[..], wake[..], old(kernel), kernel);
    }
  
    /** The pause table has no room, not even without its dead entries. */
    ghost predicate Full()
      requires Valid()
      reads this, earr, pausedFds, load, wake
    {
      nPausedFds >= MAX_PAUSED && |Kept(earr[..], pausedFds[..nPausedFds])| >= MAX_PAUSED
    }

    /** Drop table entries that are not paused any more. */
    method Compact()
      requires Core()
      modifies `nPausedFds, pausedFds
      ensures Core() && pausedFds[..nPausedFds] == old(Kept(earr[..], pausedFds[..nPausedFds]))
      ensures nPaused == old(nPaused)
    {
      hide ShardsOk, Live, PausedSet, MirrorOk, Kept;
      ghost var table := pausedFds[..nPausedFds];
      var j := 0;
      KeptTable(earr[..], table, relays);
      for i := 0 to nPausedFds
        invariant j <= i <= nPausedFds <= pausedFds.Length && |table| == nPausedFds
        invariant forall k :: i <= k < nPausedFds ==> pausedFds[k] == table[k]
        invariant pausedFds[..j] == Kept(earr[..], table[..i])
      {
        var fd := pausedFds[i];
        KeptNext(earr[..], table, i);
        if earr[fd].live && earr[fd].paused {
          pausedFds[j] := fd;
          j := j + 1;
          assert pausedFds[..j] == pausedFds[..j - 1] + [fd];
        }
      }
      nPausedFds := j;
      assert table[..|table|] == table;
    }

    /** The section of `notify_pause_ent` before the gate is asked. A refusal for
        want of room means 1024 paused registrations if and only if no fd stands
        in the table twice; one gets there a second time exactly when it is paused
        again without a re-arm having found anything in between. */
    method PauseLocked(fd: int) returns (rc: Rc)
      requires Valid()
      modifies this, earr, pausedFds
      ensures Valid()
      ensures rc == PauseRc(old(Regs()), old(Full()), fd)
      ensures rc == Paused || rc == NoSpace <==> fd in old(Regs()) && !old(Regs()[fd]).paused
      ensures rc == Done <==> fd in old(Regs()) && old(Regs()[fd]).paused
      ensures rc == NotFound <==> 0 < fd < 65535 && fd !in old(Regs())
      ensures Regs() == if rc == Paused then old(Regs())[fd := old(Regs()[fd]).(paused := true)] else old(Regs())
      ensures nPaused == old(nPaused) + (if rc == Paused then 1 else 0) && kernel.Keys == old(kernel.Keys)
      ensures rc == Paused && old(nPausedFds) < MAX_PAUSED ==>
                && pausedFds[..nPausedFds] == old(pausedFds[..nPausedFds]) + [fd]
                && (NoRepeats(pausedFds[..nPausedFds]) <==>
                      NoRepeats(old(pausedFds[..nPausedFds])) && fd !in old(pausedFds[..nPausedFds]))
      ensures rc == Paused && old(nPausedFds) >= MAX_PAUSED ==>
                && pausedFds[..nPausedFds] == old(Kept(earr[..], pausedFds[..nPausedFds])) + [fd]
                && (NoRepeats(pausedFds[..nPausedFds]) <==> NoRepeats(old(Kept(earr[..], pausedFds[..nPausedFds]))))
      ensures pausedSince == if rc == Paused then old(pausedSince) + [fd] else old(pausedSince)
      ensures rc == NoSpace ==>
                && (nPaused == 1024 <==> NoRepeats(pausedFds[..nPausedFds]))
                && (NoRepeats(pausedSince) ==> nPaused == 1024)
                && (|pausedSince| <= 1024 ==> (nPaused == 1024 <==> NoRepeats(pausedSince)))
    {
      hide ShardsOk, Live, PausedSet, Kept, SinceOk, MirrorOk, NoRepeats;
      ghost var table, since := pausedFds[..nPausedFds], pausedSince;
      if fd <= 0 || fd >= MAX_FDS { return Invalid; }
      var ent := earr[fd];
      if !ent.live { return NotFound; }
      if ent.paused { return Done; }
      if nPausedFds >= MAX_PAUSED {
        KeptSince(earr[..], table, since);
        KeptIsPaused(earr[..], table);
        Compact();
        if nPausedFds >= MAX_PAUSED {
          RefusalIsRight(earr[..], table, since, relays);
          return NoSpace;
        }
      }
      OneMorePause(table, since, pausedFds[..nPausedFds], fd);
      Hold(fd);
      rc := Paused;
    }

    method Hold(fd: nat)
      requires Core() && 0 < fd < MAX_FDS && earr[fd].live && !earr[fd].paused && nPausedFds < MAX_PAUSED
      modifies this, earr, pausedFds
      ensures Core() && pausedSince == old(pausedSince) + [fd] && Regs() == old(Regs())[fd := old(Regs()[fd]).(paused := true)]
      ensures nPaused == old(nPaused) + 1 && pausedFds[..nPausedFds] == old(pausedFds[..nPausedFds]) + [fd]
      ensures kernel.Keys == old(kernel.Keys)
    {
      hide ShardsOk, Live, PausedSet, SinceOk;
      var ent := earr[fd];
      var e := ent.(held := ent.events, events := {}, paused := true);
      var _ := EpMod(ent.thr, fd, {});
      earr[fd] := e;
      pausedFds[nPausedFds] := fd;
      nPausedFds := nPausedFds + 1;
      nPaused := nPaused + 1;
      pausedSince := pausedSince + [fd];
      assert earr[..] == old(earr[..])[fd := e];
      assert KernelAt(fd, e, old(kernel), kernel);
      ghost var table := pausedFds[..nPausedFds];
      assert table == old(pausedFds[..nPausedFds]) + [fd];
      assert TableOk(old(earr[..]), table);
      Write(old(earr[..]), fd, e, relays, table, load[..], load[..], wake[..], old(kernel), kernel);
    }

    /** `notify_pause_ent`, when no other thread comes between its two sections. */
    method Pause(fd: int, open: bool) returns (rc: Rc)
      requires Valid()
      modifies this, earr, pausedFds
      ensures Valid()
      ensures var p := PauseRc(old(Regs()), old(Full()), fd);
              && rc == (if p == Paused && open then Done else p)
              && Regs() == (if p != Paused then old(Regs()) else if open then Rearmed(old(Regs()))
                            else old(Regs())[fd := old(Regs()[fd]).(paused := true)])
              && (p == Paused && open ==> nPaused == 0)
    {
      hide EntsOk, TableOk, ShardsOk, Live, PausedSet, MirrorOk, Rearmed, View;
      rc := PauseLocked(fd);
      if rc != Paused || !open { return; }
      RearmedHold(old(Regs()), fd);
      var n, woken := RearmLocked();
      rc := Done;
    }

    /** `notify_rearm_paused` */
    method RearmPaused(open: bool) returns (n: nat, woken: set<nat>)
      requires Valid()
      modifies this, earr
      ensures Valid() && (open ==> nPaused == 0)
      ensures n == if open then old(nPaused) else 0
      ensures Regs() == if open then Rearmed(old(Regs())) else old(Regs())
      ensures woken == if open then Sleepers(old(Regs())) else {}
      ensures pausedSince == if open && old(nPaused) > 0 then [] else old(pausedSince)
    {
      if nPaused == 0 || !open {
        NonePaused();
        return 0, {};
      }
      n, woken := RearmLocked();
    }

    lemma NonePaused()
      requires Valid()
      ensures nPaused == 0 ==> Rearmed(Regs()) == Regs() && Sleepers(Regs()) == {}
    {
      if nPaused == 0 {
        assert forall fd :: fd in Regs() && Regs()[fd].paused ==> fd in PausedSet(earr[..]);
      }
    }
  }

  /** THE BOUND COUNTS ENTRIES. A registration that is paused and disarmed again
      and again leaves an entry each time, and all of them come back to life with
      its last pause: the next registration is refused for want of room while a
      single one is paused. */
  method OneFillsTheTable(n: Notifier, fd: nat, next: nat) returns (rc: Rc)
    requires n.Valid() && 0 < fd < MAX_FDS && fd in n.Regs() && !n.Regs()[fd].paused
    requires 0 < next < MAX_FDS && next != fd && next in n.Regs() && !n.Regs()[next].paused
    requires n.nPaused == 0 && n.nPausedFds == 0
    modifies n, n.earr, n.pausedFds
    ensures n.Valid() && rc == NoSpace && n.nPaused == 1 && next in n.Regs() && !n.Regs()[next].paused
  {
    hide ShardsOk, Live, PausedSet, MirrorOk, EntsOk, TableOk, Kept, View, SinceOk, NoRepeats;
    for i := 0 to MAX_PAUSED
      invariant n.Valid() && fd in n.Regs() && n.nPausedFds == i
      invariant next in n.Regs() && !n.Regs()[next].paused
      invariant n.pausedFds[..n.nPausedFds] == Repeat(fd, i)
      invariant n.Regs()[fd].paused == (i > 0) && n.nPaused == if i > 0 then 1 else 0
    {
      if i > 0 {
        var _ := n.Disarm(fd);
      }
      var paused := n.PauseLocked(fd);
      assert Repeat(fd, i + 1) == Repeat(fd, i) + [fd];
      assert paused == Paused;
    }
    RepeatsKept(n.earr[..], fd, MAX_PAUSED);
    rc := n.PauseLocked(next);
  }
}
