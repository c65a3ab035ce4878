/** What the notifier keeps: registrations by fd, and the sets the counters
    must agree with. */
module NotifyTable {
  const MAX_FDS: nat := 65535
  const MAX_POLL_FDS: nat := 8192
  const MAX_THREADS: nat := 33
  const MAX_PAUSED: nat := 1024

  /** Interest bits of the kernel, and the kinds of event a caller asks for. */
  datatype Flag = In | Out | RdHup | Hup | Err

  datatype Kind = WantIn | WantOut | WantHup | WantError | Shut | HalfClosed

  /** `notify_conv2poll_events` */
  function Mask(kinds: set<Kind>): set<Flag> {
    (if WantIn in kinds then {In} else {}) + (if WantOut in kinds then {Out} else {})
    + (if WantHup in kinds then {RdHup, Hup} else {}) + (if WantError in kinds then {Err} else {})
  }

  /** Each kind of event that has a bit asks for it; the last two have none. */
  lemma MaskIs(kinds: set<Kind>)
    ensures In in Mask(kinds) <==> WantIn in kinds
    ensures Out in Mask(kinds) <==> WantOut in kinds
    ensures RdHup in Mask(kinds) <==> WantHup in kinds
    ensures Hup in Mask(kinds) <==> WantHup in kinds
    ensures Err in Mask(kinds) <==> WantError in kinds
    ensures Mask(kinds) == {} <==> kinds <= {Shut, HalfClosed}
  {
    if kinds <= {Shut, HalfClosed} {
      assert WantIn !in kinds && WantOut !in kinds && WantHup !in kinds && WantError !in kinds;
    } else {
      var k :| k in kinds && k !in {Shut, HalfClosed};
      assert k == WantIn || k == WantOut || k == WantHup || k == WantError;
    }
  }

  /** One slot of `earr`. `events` is the mask armed right now, `held` the one a
      pause put aside; `priv` 0 is a null pointer. */
  datatype Ent = Ent(live: bool, events: set<Flag>, thr: nat, priv: nat, gen: nat, paused: bool, held: set<Flag>)

  /** A registration as its owner sees it: `wanted` is the mask it has, or gets
      back when it is re-armed. */
  datatype Reg = Reg(thr: nat, priv: nat, gen: nat, wanted: set<Flag>, paused: bool)

  datatype Rc = Done | Paused | Invalid | Exists | NotFound | Stale | NoSpace | Refused

  function ToReg(e: Ent): Reg {
    Reg(e.thr, e.priv, e.gen, if e.paused then e.held else e.events, e.paused)
  }

  function View(es: seq<Ent>): map<nat, Reg> {
    map fd: nat | fd < |es| && es[fd].live :: ToReg(es[fd])
  }

  function Live(es: seq<Ent>): set<nat> { set fd: nat | fd < |es| && es[fd].live }

  function PausedSet(es: seq<Ent>): set<nat> { set fd: nat | fd < |es| && es[fd].paused }

  predicate Owns(e: Ent, t: nat) { e.live && e.thr == t }

  function OnShard(es: seq<Ent>, t: nat): set<nat> { set fd: nat | fd < |es| && Owns(es[fd], t) }

  /** Every registration back in force. */
  function Rearmed(v: map<nat, Reg>): map<nat, Reg> { map fd | fd in v :: v[fd].(paused := false) }

  /** The shards that own a paused registration. */
  function Sleepers(v: map<nat, Reg>): set<nat> { set fd | fd in v && v[fd].paused :: v[fd].thr }

  /** Re-arming gives each registration back what it wants and changes nothing else
      of it; the shards to wake are those of the registrations that were paused. */
  lemma RearmedIs(v: map<nat, Reg>)
    ensures Rearmed(v).Keys == v.Keys
    ensures forall fd :: fd in v ==>
              && Rearmed(v)[fd].wanted == v[fd].wanted && !Rearmed(v)[fd].paused
              && Rearmed(v)[fd].thr == v[fd].thr && Rearmed(v)[fd].priv == v[fd].priv && Rearmed(v)[fd].gen == v[fd].gen
    ensures forall t :: t in Sleepers(v) <==> exists fd :: fd in v && v[fd].paused && v[fd].thr == t
  {
  }

  /** The shard of a new registration: the one asked for, else its partner's,
      else by fd. */
  function ShardFor(v: map<nat, Reg>, fd: nat, pin: int, want: int, relays: nat): nat
    requires relays > 0
  {
    if want >= 0 then want else if pin > 0 && pin in v then v[pin].thr else fd % relays
  }

  /** What adding answers for a fd that is registered: another owner's is left
      alone, and a mask that is armed and changes needs the kernel. */
  function UpdateRc(r: Reg, fd: nat, armed: set<(nat, nat)>, events: set<Flag>, priv: nat, granted: bool): Rc {
    if r.priv != priv then Exists
    else if r.paused || r.wanted == events || (granted && (r.thr, fd) in armed) then Done
    else Refused
  }

  /** A FD THAT IS NEW is taken exactly when its number is in range, it asks for
      something the kernel can watch, its shard exists and has room, and the kernel
      grants it; the shard is the one asked for, the live partner's, or by number. */
  lemma AddsNew(v: map<nat, Reg>, load: seq<nat>, armed: set<(nat, nat)>, fd: int, kinds: set<Kind>, priv: nat,
                pin: int, want: int, relays: nat, granted: bool)
    requires |load| == 33 && 0 < relays < 33 && (forall p :: p in v ==> v[p].thr <= relays) && fd !in v
    ensures AddRc(v, load, armed, fd, kinds, priv, pin, want, relays, granted) == Done <==>
            && 0 < fd < 65535 && !(kinds <= {Shut, HalfClosed}) && granted
            && (want >= 0 ==> want <= relays && load[want] < 8192)
            && (want < 0 && pin > 0 && pin in v ==> load[v[pin].thr] < 8192)
            && (want < 0 && !(pin > 0 && pin in v) ==> load[fd % relays] < 8192)
  {
    hide Mask;
    MaskIs(kinds);
  }

  /** What else adding answers: another owner's registration is reported, arguments
      that cannot be served or a full shard are invalid, the kernel's no is passed on. */
  lemma AddRefuses(v: map<nat, Reg>, load: seq<nat>, armed: set<(nat, nat)>, fd: int, kinds: set<Kind>, priv: nat,
                   pin: int, want: int, relays: nat, granted: bool)
    requires |load| == 33 && 0 < relays < 33 && (forall p :: p in v ==> v[p].thr <= relays)
    ensures var rc := AddRc(v, load, armed, fd, kinds, priv, pin, want, relays, granted);
            var bad := !(0 < fd < 65535) || want >= 33 || kinds <= {Shut, HalfClosed};
            && (bad ==> rc == Invalid)
            && (!bad && fd in v ==> rc != Invalid && (rc == Exists <==> v[fd].priv != priv))
            && (!bad && fd in v && v[fd].priv == priv && v[fd].paused ==> rc == Done)
            && (!bad && fd !in v && rc != Done && rc != Invalid ==> rc == Refused && (want > relays || !granted))
  {
    hide Mask;
    MaskIs(kinds);
  }

  /** What adding answers. */
  function AddRc(v: map<nat, Reg>, load: seq<nat>, armed: set<(nat, nat)>, fd: int, kinds: set<Kind>, priv: nat,
                 pin: int, want: int, relays: nat, granted: bool): Rc
    requires |load| == MAX_THREADS && 0 < relays < MAX_THREADS && forall p :: p in v ==> v[p].thr <= relays
  {
    if !(0 < fd < MAX_FDS) || want >= MAX_THREADS || Mask(kinds) == {} then Invalid
    else if fd in v then UpdateRc(v[fd], fd, armed, Mask(kinds), priv, granted)
    else
      var t := ShardFor(v, fd, pin, want, relays);
      if load[t] >= MAX_POLL_FDS then Invalid else if t > relays || !granted then Refused else Done
  }

  /** What deleting answers; with `check`, only the registration of generation
      `gen` goes. */
  function DeleteRc(v: map<nat, Reg>, fd: int, gen: nat, check: bool): Rc {
    if !(0 < fd < MAX_FDS) then Invalid else if fd !in v then NotFound
    else if check && v[fd].gen != gen then Stale else Done
  }

  /** What pausing answers before the gate is asked: `Paused` is the one answer
      that changes anything. */
  function PauseRc(v: map<nat, Reg>, full: bool, fd: int): Rc {
    if !(0 < fd < MAX_FDS) then Invalid else if fd !in v then NotFound
    else if v[fd].paused then Done else if full then NoSpace else Paused
  }

  /** The shards of the paused entries of a stretch of the pause table. */
  function Woken(es: seq<Ent>, table: seq<nat>): set<nat> {
    set i | 0 <= i < |table| && table[i] < |es| && es[table[i]].paused :: es[table[i]].thr
  }

  predicate InRange(table: seq<nat>, n: nat) { forall i :: 0 <= i < |table| ==> table[i] < n }

  /** The pause table without entries that are not paused any more. */
  function Kept(es: seq<Ent>, table: seq<nat>): seq<nat>
    requires InRange(table, |es|)
  {
    if table == [] then [] else
      var rest := Kept(es, table[..|table| - 1]);
      var fd := table[|table| - 1];
      if es[fd].live && es[fd].paused then rest + [fd] else rest
  }

  lemma {:induction false} KeptIsPaused(es: seq<Ent>, table: seq<nat>)
    requires InRange(table, |es|)
    ensures |Kept(es, table)| <= |table|
    ensures forall fd :: fd in Kept(es, table) <==> fd in table && es[fd].live && es[fd].paused
  {
    if table != [] {
      KeptIsPaused(es, table[..|table| - 1]);
      assert table == table[..|table| - 1] + [table[|table| - 1]];
    }
  }

  lemma KeptNext(es: seq<Ent>, table: seq<nat>, i: nat)
    requires InRange(table, |es|) && i < |table|
    ensures Kept(es, table[..i + 1])
            == Kept(es, table[..i]) + if es[table[i]].live && es[table[i]].paused then [table[i]] else []
  {
    assert table[..i + 1][..i] == table[..i];
  }

  // ---- the invariant, part by part ----

  ghost predicate EntsOk(es: seq<Ent>, relays: nat) {
    && |es| == MAX_FDS && !es[0].live
    && (forall fd :: 0 <= fd < |es| && es[fd].live ==> es[fd].thr <= relays)
    && (forall fd :: 0 <= fd < |es| && es[fd].paused ==> es[fd].live && es[fd].events == {})
  }

  ghost predicate TableOk(es: seq<Ent>, table: seq<nat>) {
    && |table| <= MAX_PAUSED
    && InRange(table, |es|)
    && (forall fd :: 0 <= fd < |es| && es[fd].paused ==> fd in table)
  }

  ghost predicate ShardsOk(es: seq<Ent>, load: seq<nat>, wake: seq<bool>) {
    && |load| == |wake| == MAX_THREADS
    && (forall t :: 0 <= t < |load| ==> load[t] == |OnShard(es, t)| + if wake[t] then 1 else 0)
    && (forall t :: 0 <= t < |load| ==> load[t] <= MAX_POLL_FDS)
  }

  /** What the kernel is armed with is what the table says, nothing is armed
      that is not registered, and nothing on two shards. */
  ghost predicate MirrorOk(es: seq<Ent>, kernel: map<(nat, nat), set<Flag>>) {
    forall k :: k in kernel ==>
      k.1 < |es| && es[k.1].live && es[k.1].thr == k.0 && kernel[k] == es[k.1].events
  }

  lemma KeptTable(es: seq<Ent>, table: seq<nat>, relays: nat)
    requires EntsOk(es, relays) && TableOk(es, table)
    ensures TableOk(es, Kept(es, table)) && Kept(es, table[..0]) == []
  {
    KeptIsPaused(es, table);
    var kept := Kept(es, table);
    forall i | 0 <= i < |kept| ensures kept[i] < |es| {
      assert kept[i] in kept;
    }
  }

  function Repeat(fd: nat, n: nat): seq<nat> { seq(n, i => fd) }

  lemma {:induction false} RepeatsKept(es: seq<Ent>, fd: nat, n: nat)
    requires fd in View(es) && View(es)[fd].paused
    ensures InRange(Repeat(fd, n), |es|) && Kept(es, Repeat(fd, n)) == Repeat(fd, n)
  {
    if n > 0 {
      RepeatsKept(es, fd, n - 1);
      assert Repeat(fd, n)[..n - 1] == Repeat(fd, n - 1);
    }
  }

  ghost predicate NoRepeats(s: seq<nat>) { forall i, j :: 0 <= i < j < |s| ==> s[i] != s[j] }

  function Members(s: seq<nat>): set<nat> { set x | x in s }

  lemma {:induction false} MembersCount(s: seq<nat>)
    ensures |Members(s)| <= |s| && (|Members(s)| == |s| <==> NoRepeats(s))
  {
    if s != [] {
      var init, x := s[..|s| - 1], s[|s| - 1];
      MembersCount(init);
      assert s == init + [x];
      assert Members(s) == Members(init) + {x};
      assert NoRepeats(s) <==> NoRepeats(init) && x !in init by {
        assert forall i :: 0 <= i < |init| ==> init[i] == s[i];
      }
      assert x in init <==> x in Members(init);
    }
  }

  /** The entries kept in the table are as many as the paused registrations if
      and only if none of them stands in it twice. */
  lemma KeptCountsPaused(es: seq<Ent>, table: seq<nat>, relays: nat)
    requires EntsOk(es, relays) && TableOk(es, table)
    ensures |Kept(es, table)| >= |PausedSet(es)|
    ensures |Kept(es, table)| == |PausedSet(es)| <==> NoRepeats(Kept(es, table))
  {
    KeptIsPaused(es, table);
    var kept := Kept(es, table);
    MembersCount(kept);
    assert Members(kept) == PausedSet(es);
  }

  // ---- the table against the pauses that filled it ----

  /** The table holds no entry that no pause put there, and all of them as long as
      they fit. */
  ghost predicate SinceOk(table: seq<nat>, since: seq<nat>) {
    multiset(table) <= multiset(since) && (|since| <= MAX_PAUSED ==> table == since)
  }

  lemma NoPauses()
    ensures SinceOk([], [])
  {
  }

  lemma {:induction false} AtMostOnce(s: seq<nat>, x: nat)
    requires NoRepeats(s)
    ensures multiset(s)[x] <= 1
  {
    if s != [] {
      var init := s[..|s| - 1];
      assert s == init + [s[|s| - 1]];
      AtMostOnce(init, x);
      if s[|s| - 1] == x { assert x !in init; }
    }
  }

  lemma Twice(s: seq<nat>, i: nat, j: nat)
    requires i < j < |s| && s[i] == s[j]
    ensures multiset(s)[s[i]] >= 2
  {
    assert s == s[..j] + [s[j]] + s[j + 1..];
    assert s[..j][i] == s[i];
    assert s[i] in multiset(s[..j]);
  }

  lemma FewerRepeats(a: seq<nat>, b: seq<nat>)
    requires multiset(a) <= multiset(b) && NoRepeats(b)
    ensures NoRepeats(a)
  {
    forall i, j | 0 <= i < j < |a| ensures a[i] != a[j] {
      AtMostOnce(b, a[i]);
      if a[i] == a[j] { Twice(a, i, j); }
    }
  }

  lemma {:induction false} KeptIsPart(es: seq<Ent>, table: seq<nat>)
    requires InRange(table, |es|)
    ensures multiset(Kept(es, table)) <= multiset(table) && (|Kept(es, table)| == |table| ==> Kept(es, table) == table)
  {
    if table != [] {
      var init, fd := table[..|table| - 1], table[|table| - 1];
      assert table == init + [fd] && table[..|table|] == table;
      KeptNext(es, table, |table| - 1);
      hide Kept;
      KeptIsPart(es, init);
      KeptIsPaused(es, init);
    }
  }

  /** What a compaction leaves, for a table that was full. */
  lemma KeptSince(es: seq<Ent>, table: seq<nat>, since: seq<nat>)
    requires TableOk(es, table) && SinceOk(table, since) && |table| == MAX_PAUSED
    ensures var kept := Kept(es, table);
            && multiset(kept) <= multiset(since) && |since| >= MAX_PAUSED
            && (|kept| >= MAX_PAUSED ==> SinceOk(kept, since) && (NoRepeats(since) ==> NoRepeats(kept)))
  {
    KeptIsPart(es, table);
    KeptIsPaused(es, table);
    assert |multiset(table)| <= |multiset(since)|;
    if NoRepeats(since) { FewerRepeats(Kept(es, table), since); }
  }

  /** WHEN A REFUSAL IS RIGHT. A pause refused for want of room finds 1024 paused
      registrations if and only if no entry repeats: always, when no fd was paused
      twice since a re-arm found any; and for the first 1024 pauses since then,
      only then. */
  lemma RefusalIsRight(es: seq<Ent>, table: seq<nat>, since: seq<nat>, relays: nat)
    requires EntsOk(es, relays) && TableOk(es, table) && SinceOk(table, since)
    requires |table| == MAX_PAUSED && |Kept(es, table)| >= MAX_PAUSED
    ensures |PausedSet(es)| == 1024 <==> NoRepeats(Kept(es, table))
    ensures NoRepeats(since) ==> |PausedSet(es)| == 1024
    ensures |since| <= 1024 ==> (|PausedSet(es)| == 1024 <==> NoRepeats(since))
  {
    hide SinceOk, PausedSet, NoRepeats;
    KeptSince(es, table, since);
    KeptCountsPaused(es, table, relays);
    KeptIsPaused(es, table);
    SameTable(Kept(es, table), since);
  }

  lemma SameTable(table: seq<nat>, since: seq<nat>)
    requires SinceOk(table, since)
    ensures |since| <= MAX_PAUSED ==> table == since
  {
  }

  /** One more pause, behind the table itself or behind what was kept of it. */
  lemma OneMorePause(table: seq<nat>, since: seq<nat>, now: seq<nat>, fd: nat)
    requires SinceOk(table, since) && (now == table || (multiset(now) <= multiset(since) && |since| >= MAX_PAUSED))
    ensures SinceOk(now + [fd], since + [fd])
    ensures NoRepeats(now + [fd]) <==> NoRepeats(now) && fd !in now
  {
    var all := now + [fd];
    assert forall i :: 0 <= i < |now| ==> now[i] == all[i];
    if fd in now {
      var i :| 0 <= i < |now| && now[i] == fd;
      assert all[i] == all[|now|];
    }
  }

  // ---- what one write does to the sets ----

  function One(e: Ent, t: nat): nat { if Owns(e, t) then 1 else 0 }

  lemma ShardAt(es: seq<Ent>, fd: nat, e: Ent, t: nat)
    requires fd < |es|
    ensures |OnShard(es[fd := e], t)| == |OnShard(es, t)| - One(es[fd], t) + One(e, t)
  {
    var was, now := OnShard(es, t), OnShard(es[fd := e], t);
    hide Owns;
    assert fd in was <==> Owns(es[fd], t);
    if Owns(e, t) {
      assert now == was + {fd};
    } else {
      assert now == was - {fd};
    }
  }

  /** The loads after one write. */
  lemma Loads(es: seq<Ent>, fd: nat, e: Ent, load: seq<nat>, load': seq<nat>, wake: seq<bool>)
    requires fd < |es| && ShardsOk(es, load, wake) && LoadAt(es[fd], e, load, load')
    ensures ShardsOk(es[fd := e], load', wake)
  {
    hide OnShard;
    forall t: nat | t < |load| ensures |OnShard(es[fd := e], t)| == |OnShard(es, t)| - One(es[fd], t) + One(e, t) {
      ShardAt(es, fd, e, t);
    }
  }

  lemma PausedAt(es: seq<Ent>, fd: nat, e: Ent)
    requires fd < |es|
    ensures |PausedSet(es[fd := e])| == |PausedSet(es)| - (if es[fd].paused then 1 else 0) + (if e.paused then 1 else 0)
  {
    var was, now := PausedSet(es), PausedSet(es[fd := e]);
    assert fd in was <==> es[fd].paused;
    if e.paused {
      assert now == was + {fd};
    } else {
      assert now == was - {fd};
    }
  }

  lemma LiveAt(es: seq<Ent>, fd: nat, e: Ent)
    requires fd < |es|
    ensures |Live(es[fd := e])| == |Live(es)| - (if es[fd].live then 1 else 0) + (if e.live then 1 else 0)
  {
    var was, now := Live(es), Live(es[fd := e]);
    assert fd in was <==> es[fd].live;
    if e.live {
      assert now == was + {fd};
    } else {
      assert now == was - {fd};
    }
  }

  lemma ViewAt(es: seq<Ent>, fd: nat, e: Ent)
    requires fd < |es|
    ensures View(es[fd := e]) == if e.live then View(es)[fd := ToReg(e)] else View(es) - {fd}
  {
    hide ToReg;
    var was, now := View(es), View(es[fd := e]);
    if e.live {
      assert now == was[fd := ToReg(e)];
    } else {
      assert now == was - {fd};
    }
  }

  // ---- one write keeps each part of the invariant ----

  lemma EntsAt(es: seq<Ent>, fd: nat, e: Ent, relays: nat)
    requires EntsOk(es, relays) && 0 < fd < MAX_FDS
    requires (e.live ==> e.thr <= relays) && (e.paused ==> e.live && e.events == {})
    ensures EntsOk(es[fd := e], relays)
  {
  }

  lemma TableAt(es: seq<Ent>, fd: nat, e: Ent, table: seq<nat>)
    requires TableOk(es, table) && fd < |es| && (e.paused ==> fd in table)
    ensures TableOk(es[fd := e], table)
  {
  }

  lemma MirrorAt(es: seq<Ent>, fd: nat, e: Ent, kernel: map<(nat, nat), set<Flag>>, kernel': map<(nat, nat), set<Flag>>)
    requires MirrorOk(es, kernel) && fd < |es|
    requires forall k :: k in kernel' && k.1 != fd ==> k in kernel && kernel'[k] == kernel[k]
    requires forall k :: k in kernel' && k.1 == fd ==> Owns(e, k.0) && kernel'[k] == e.events
    ensures MirrorOk(es[fd := e], kernel')
  {
  }

  ghost predicate KernelAt(fd: nat, e: Ent, kernel: map<(nat, nat), set<Flag>>, kernel': map<(nat, nat), set<Flag>>) {
    && (forall k :: k in kernel' && k.1 != fd ==> k in kernel && kernel'[k] == kernel[k])
    && (forall k :: k in kernel' && k.1 == fd ==> Owns(e, k.0) && kernel'[k] == e.events)
  }

  ghost predicate LoadAt(was: Ent, e: Ent, load: seq<nat>, load': seq<nat>) {
    && |load'| == |load| && (forall t :: 0 <= t < |load| ==> load'[t] == load[t] - One(was, t) + One(e, t))
    && (forall t :: 0 <= t < |load| ==> load'[t] <= load[t] || load'[t] <= MAX_POLL_FDS)
  }

  /** All of it at once. */
  lemma Write(es: seq<Ent>, fd: nat, e: Ent, relays: nat, table: seq<nat>, load: seq<nat>, load': seq<nat>,
              wake: seq<bool>, kernel: map<(nat, nat), set<Flag>>, kernel': map<(nat, nat), set<Flag>>)
    requires EntsOk(es, relays) && TableOk(es, table) && ShardsOk(es, load, wake) && MirrorOk(es, kernel)
    requires 0 < fd < MAX_FDS && (e.live ==> e.thr <= relays)
    requires e.paused ==> e.live && e.events == {} && fd in table
    requires LoadAt(es[fd], e, load, load') && KernelAt(fd, e, kernel, kernel')
    ensures EntsOk(es[fd := e], relays) && TableOk(es[fd := e], table)
    ensures ShardsOk(es[fd := e], load', wake) && MirrorOk(es[fd := e], kernel')
    ensures View(es[fd := e]) == if e.live then View(es)[fd := ToReg(e)] else View(es) - {fd}
    ensures |Live(es[fd := e])| == |Live(es)| - (if es[fd].live then 1 else 0) + (if e.live then 1 else 0)
    ensures |PausedSet(es[fd := e])| == |PausedSet(es)| - (if es[fd].paused then 1 else 0) + (if e.paused then 1 else 0)
  {
    hide ShardsOk, TableOk, MirrorOk, View, Live, PausedSet;
    EntsAt(es, fd, e, relays);
    TableAt(es, fd, e, table);
    Loads(es, fd, e, load, load', wake);
    MirrorAt(es, fd, e, kernel, kernel');
    LiveAt(es, fd, e);
    PausedAt(es, fd, e);
    ViewAt(es, fd, e);
  }

  // ---- re-arming entry by entry ----

  function Armed(e: Ent): Ent { e.(events := e.held, paused := false) }

  /** The slots when the entries `done` of the pause table have been re-armed. */
  ghost predicate HalfArmed(es: seq<Ent>, was: seq<Ent>, done: seq<nat>) {
    |es| == |was| && forall fd :: 0 <= fd < |es| ==> es[fd] == if was[fd].paused && fd in done then Armed(was[fd]) else was[fd]
  }

  lemma NoneArmed(was: seq<Ent>)
    ensures HalfArmed(was, was, []) && Woken(was, []) == {}
  {
  }

  lemma HalfStep(es: seq<Ent>, was: seq<Ent>, done: seq<nat>, fd: nat)
    requires HalfArmed(es, was, done) && fd < |es|
    ensures HalfArmed(if es[fd].paused then es[fd := Armed(es[fd])] else es, was, done + [fd])
    ensures Woken(was, done + [fd]) == Woken(was, done) + if es[fd].paused then {es[fd].thr} else {}
  {
    HalfNext(es, was, done, fd);
    WokenNext(es, was, done, fd);
  }

  lemma HalfNext(es: seq<Ent>, was: seq<Ent>, done: seq<nat>, fd: nat)
    requires HalfArmed(es, was, done) && fd < |es|
    ensures HalfArmed(if es[fd].paused then es[fd := Armed(es[fd])] else es, was, done + [fd])
  {
    assert forall x :: x in done + [fd] <==> x in done || x == fd;
  }

  lemma WokenNext(es: seq<Ent>, was: seq<Ent>, done: seq<nat>, fd: nat)
    requires HalfArmed(es, was, done) && fd < |es|
    ensures Woken(was, done + [fd]) == Woken(was, done) + if es[fd].paused then {es[fd].thr} else {}
  {
    WokenIn(was, done);
    WokenIn(was, done + [fd]);
    assert forall x :: x in done + [fd] <==> x in done || x == fd;
  }

  /** Membership in `Woken`, by fd. */
  lemma WokenIn(es: seq<Ent>, table: seq<nat>)
    ensures Woken(es, table) == set fd: nat | fd < |es| && fd in table && es[fd].paused :: es[fd].thr
  {
    forall fd: nat | fd < |es| && fd in table && es[fd].paused ensures es[fd].thr in Woken(es, table) {
      var i :| 0 <= i < |table| && table[i] == fd;
    }
  }

  lemma RearmedHold(v: map<nat, Reg>, fd: nat)
    requires fd in v
    ensures Rearmed(v[fd := v[fd].(paused := true)]) == Rearmed(v)
  {
  }

  /** When the whole table has been gone through nothing is paused. */
  lemma AllArmed(es: seq<Ent>, was: seq<Ent>, table: seq<nat>)
    requires HalfArmed(es, was, table) && TableOk(was, table) && EntsOk(was, MAX_THREADS)
    ensures PausedSet(es) == {} && TableOk(es, []) && View(es) == Rearmed(View(was)) && Woken(was, table) == Sleepers(View(was))
  {
    assert forall fd :: 0 <= fd < |es| ==> !es[fd].paused;
    AllWoken(was, table);
  }

  lemma AllWoken(es: seq<Ent>, table: seq<nat>)
    requires TableOk(es, table) && EntsOk(es, MAX_THREADS)
    ensures Woken(es, table) == Sleepers(View(es))
  {
    WokenIn(es, table);
    var v := View(es);
    forall fd: nat | fd < |es| && fd in table && es[fd].paused ensures es[fd].thr in Sleepers(v) {
      assert fd in v && v[fd].paused && v[fd].thr == es[fd].thr;
    }
  }
}
