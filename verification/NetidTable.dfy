/** The two tables and the state word of sockproxy_ai_admit.c, without
    concurrency: replacing the set, and reading it. */
module NetidTable {
  import opened Bytes
  import opened NetidSet

  /** A slot word: zero, or a tag with bit 0 set and two flag bits. */
  datatype Slot = Empty | Used(tag: Tag, flags: Flags)

  type Table = t: seq<Slot> | |t| == SLOTS witness seq(SLOTS, i => Empty)

  function Slot0(t: Tag): (at: nat)
    ensures at < SLOTS
  {
    SlotBound(t.bits);
    ((t.bits ^ (t.bits >> 30)) & 0xfff) as nat
  }

  lemma SlotBound(b: bv64)
    ensures ((b ^ (b >> 30)) & 0xfff) as nat < SLOTS
  {
    var low := (b ^ (b >> 30)) & 0xfff;
    assert low < 0x1000;
  }

  /** The slot `d` steps along a tag's probe. */
  function Pos(t: Tag, d: nat): (at: nat)
    requires d < SLOTS
    ensures at < SLOTS
  {
    if Slot0(t) + d < SLOTS then Slot0(t) + d else Slot0(t) + d - SLOTS
  }

  function Next(at: nat): nat
    requires at < SLOTS
  {
    if at + 1 < SLOTS then at + 1 else 0
  }

  lemma PosNext(t: Tag, d: nat)
    requires d + 1 < SLOTS
    ensures Pos(t, d + 1) == Next(Pos(t, d))
  {
  }

  // ---- a table that stands for a map ----

  /** The first `d` slots of the probe are taken by other tags. */
  ghost predicate Passed(tbl: Table, t: Tag, d: nat) {
    d <= SLOTS && forall j :: 0 <= j < d ==> var s := tbl[Pos(t, j)]; s.Used? && s.tag != t
  }

  /** A probe for `t` stops on its own slot after `d` steps. */
  ghost predicate FoundAt(tbl: Table, t: Tag, d: nat) {
    d < SLOTS && Passed(tbl, t, d) && var s := tbl[Pos(t, d)]; s.Used? && s.tag == t
  }

  ghost function UsedBelow(tbl: Table, n: nat): set<nat>
    requires n <= SLOTS
  {
    set i | 0 <= i < n && tbl[i].Used?
  }

  ghost function UsedSlots(tbl: Table): set<nat> { UsedBelow(tbl, SLOTS) }

  ghost predicate Counted(tbl: Table, m: map<Tag, Flags>) { |UsedSlots(tbl)| == |m| <= SVC_MAX }

  ghost predicate Faithful(tbl: Table, m: map<Tag, Flags>) {
    forall i :: 0 <= i < SLOTS && tbl[i].Used? ==> tbl[i].tag in m && tbl[i].flags == m[tbl[i].tag]
  }

  ghost predicate Distinct(tbl: Table) {
    forall i, j :: 0 <= i < j < SLOTS && tbl[i].Used? && tbl[j].Used? ==> tbl[i].tag != tbl[j].tag
  }

  ghost predicate Reachable(tbl: Table, m: map<Tag, Flags>) {
    forall t :: t in m ==> exists d :: FoundAt(tbl, t, d)
  }

  /** Each service of the map has one slot, the one its probe stops on, with its flags. */
  ghost predicate Stands(tbl: Table, m: map<Tag, Flags>) {
    Counted(tbl, m) && Faithful(tbl, m) && Distinct(tbl) && Reachable(tbl, m)
  }

  lemma {:induction false} AllUsed(tbl: Table, n: nat)
    requires n <= SLOTS && forall i :: 0 <= i < n ==> tbl[i].Used?
    ensures |UsedBelow(tbl, n)| == n
  {
    if n > 0 {
      AllUsed(tbl, n - 1);
      assert UsedBelow(tbl, n) == UsedBelow(tbl, n - 1) + {n - 1};
    }
  }

  /** PROBES END. A table that stands for a set has an empty slot (at most a
      quarter of its slots are taken), so no probe goes all the way round. */
  lemma ProbeEnds(tbl: Table, m: map<Tag, Flags>, t: Tag)
    requires Stands(tbl, m)
    ensures !Passed(tbl, t, SLOTS)
  {
    if forall i :: 0 <= i < SLOTS ==> tbl[i].Used? {
      AllUsed(tbl, SLOTS);
    } else {
      var i :| 0 <= i < SLOTS && tbl[i].Empty?;
      var d := if i >= Slot0(t) then i - Slot0(t) else i + SLOTS - Slot0(t);
      assert Pos(t, d) == i;
    }
  }

  /** What a probe that stopped after `d` steps says about the set. */
  lemma StoppedProbe(tbl: Table, m: map<Tag, Flags>, t: Tag, d: nat)
    requires Stands(tbl, m) && d < SLOTS && Passed(tbl, t, d)
    ensures tbl[Pos(t, d)].Empty? ==> t !in m
    ensures var s := tbl[Pos(t, d)]; s.Used? && s.tag == t ==> t in m && s.flags == m[t]
  {
    if t in m {
      var e: nat :| FoundAt(tbl, t, e);
      assert tbl[Pos(t, e)].tag == t;
      assert e > d ==> tbl[Pos(t, d)].Used?;
    }
  }

  /** A slot that stays taken, by the same tag, leaves every other probe alone;
      so does one that was empty, since no probe of a kept tag passes it. */
  lemma ProbesKept(tbl: Table, m: map<Tag, Flags>, p: nat, v: Slot)
    requires Reachable(tbl, m) && p < SLOTS && v.Used?
    requires tbl[p].Used? ==> tbl[p].tag == v.tag
    requires tbl[p].Empty? ==> v.tag !in m
    ensures Reachable(tbl[p := v], m)
  {
    hide Pos;
    var n: Table := tbl[p := v];
    forall u | u in m ensures exists e :: FoundAt(n, u, e) {
      var e :| FoundAt(tbl, u, e);
      assert FoundAt(n, u, e);
    }
  }

  lemma InsertedReachable(tbl: Table, m: map<Tag, Flags>, t: Tag, d: nat, f: Flags)
    requires Reachable(tbl, m) && t !in m && d < SLOTS && Passed(tbl, t, d) && tbl[Pos(t, d)].Empty?
    ensures Reachable(tbl[Pos(t, d) := Used(t, f)], m[t := f])
  {
    hide Pos;
    var n: Table := tbl[Pos(t, d) := Used(t, f)];
    ProbesKept(tbl, m, Pos(t, d), Used(t, f));
    assert FoundAt(n, t, d);
  }

  /** Writing a new tag into the empty slot its probe ended on. */
  lemma Inserted(tbl: Table, m: map<Tag, Flags>, t: Tag, d: nat, f: Flags)
    requires Stands(tbl, m) && d < SLOTS && Passed(tbl, t, d) && tbl[Pos(t, d)].Empty?
    requires |m| < SVC_MAX
    ensures t !in m && Stands(tbl[Pos(t, d) := Used(t, f)], m[t := f])
  {
    hide Pos, Passed, FoundAt, Reachable, Counted;
    StoppedProbe(tbl, m, t, d);
    InsertedReachable(tbl, m, t, d, f);
    InsertedCounted(tbl, m, Pos(t, d), t, f);
  }

  lemma InsertedCounted(tbl: Table, m: map<Tag, Flags>, p: nat, t: Tag, f: Flags)
    requires Counted(tbl, m) && |m| < SVC_MAX && p < SLOTS && tbl[p].Empty? && t !in m
    ensures Counted(tbl[p := Used(t, f)], m[t := f])
  {
    assert UsedSlots(tbl[p := Used(t, f)]) == UsedSlots(tbl) + {p};
    assert m[t := f].Keys == m.Keys + {t};
  }

  /** Changing the flags in the slot a tag was found in. */
  lemma Merged(tbl: Table, m: map<Tag, Flags>, t: Tag, d: nat, f: Flags)
    requires Stands(tbl, m) && FoundAt(tbl, t, d)
    ensures t in m && tbl[Pos(t, d)].flags == m[t]
    ensures Stands(tbl[Pos(t, d) := Used(t, f)], m[t := f])
  {
    hide Pos, Passed, Reachable;
    StoppedProbe(tbl, m, t, d);
    ProbesKept(tbl, m, Pos(t, d), Used(t, f));
    assert m[t := f].Keys == m.Keys;
    assert UsedSlots(tbl[Pos(t, d) := Used(t, f)]) == UsedSlots(tbl);
    ReachableKeys(tbl[Pos(t, d) := Used(t, f)], m, m[t := f]);
  }

  lemma ReachableKeys(tbl: Table, m: map<Tag, Flags>, n: map<Tag, Flags>)
    requires Reachable(tbl, m) && m.Keys == n.Keys
    ensures Reachable(tbl, n)
  {
  }

  lemma Cleared(tbl: Table)
    requires forall i :: 0 <= i < SLOTS ==> tbl[i].Empty?
    ensures Stands(tbl, map[])
  {
    assert UsedSlots(tbl) == {};
  }

  // ---- the state word ----

  datatype Mode = NoneBound | Listed | AllBound

  /** The published word: which table, what mode, which flags matter, and a
      25-bit generation. */
  datatype Word = Word(mode: Mode, all: Flags, any: Flags, second: bool, gen: nat)

  const GENERATIONS: nat := 0x200_0000

  /** `any` names exactly the flags some slot carries. */
  ghost predicate AnyOf(any: Flags, listed: map<Tag, Flags>) {
    && (any.closed <==> exists t :: t in listed && listed[t].closed)
    && (any.fwd <==> exists t :: t in listed && listed[t].fwd)
  }

  /** What a word says of the set it publishes. */
  ghost predicate Publishes(w: Word, m: Model) {
    && w.gen < GENERATIONS
    && w.mode == (if m.all.bound then AllBound else if m.listed != map[] then Listed else NoneBound)
    && w.all == (if m.all.bound then m.all.flags else NO_FLAGS)
    && AnyOf(w.any, m.listed)
  }

  /** The answer when the word alone gives it: nothing is bound, or every service
      is and no slot could add a flag. */
  function WordAnswers(w: Word): bool {
    || w.mode == NoneBound
    || (w.mode == AllBound && (w.any.closed ==> w.all.closed) && (w.any.fwd ==> w.all.fwd))
  }

  /** The answer so far, before any slot is looked at. */
  function FromWord(w: Word): Answer {
    if w.mode == AllBound then Bound(w.all) else Unbound
  }

  function WithSlot(a: Answer, f: Flags): Answer {
    Bound(if a.Bound? then Join(a.flags, f) else f)
  }

  lemma WordAnswersRight(w: Word, m: Model, ident: seq<byte>)
    requires Publishes(w, m) && ident != [] && WordAnswers(w)
    ensures FromWord(w) == Ask(m, ident)
  {
    hide TagOf;
    var t := TagOf(ident);
    if m.all.bound && t in m.listed { assert Within(m.listed[t], w.any); }
  }

  /** A probe that stopped gives the set's answer. */
  lemma ProbeAnswersRight(w: Word, m: Model, tbl: Table, ident: seq<byte>, d: nat)
    requires Publishes(w, m) && Stands(tbl, m.listed) && ident != []
    requires d < SLOTS && Passed(tbl, TagOf(ident), d)
    ensures var s := tbl[Pos(TagOf(ident), d)];
            && (s.Empty? ==> FromWord(w) == Ask(m, ident))
            && (s.Used? && s.tag == TagOf(ident) ==> WithSlot(FromWord(w), s.flags) == Ask(m, ident))
  {
    hide TagOf, Pos, Passed, Counted, Faithful, Distinct, Reachable, AnyOf;
    StoppedProbe(tbl, m.listed, TagOf(ident), d);
  }

  lemma AnyGrows(any: Flags, listed: map<Tag, Flags>, t: Tag, f: Flags)
    requires AnyOf(any, listed)
    ensures t !in listed ==> AnyOf(Join(any, f), listed[t := f])
    ensures t in listed ==> AnyOf(Join(any, f), listed[t := Join(listed[t], f)])
  {
    var n := listed[t := if t in listed then Join(listed[t], f) else f];
    assert t in n;
    assert forall u :: u in listed ==> u in n && Within(listed[u], n[u]);
  }

  class NetidTables {
    const tbl0: array<Slot>
    const tbl1: array<Slot>
    var state: Word
    ghost var model: Model

    ghost predicate Valid()
      reads this, tbl0, tbl1
    {
      && tbl0.Length == SLOTS && tbl1.Length == SLOTS && tbl0 != tbl1
      && Publishes(state, model)
      && Stands(if state.second then tbl1[..] else tbl0[..], model.listed)
    }

    /** Zeroed memory: nothing is bound. */
    constructor ()
      ensures Valid() && model == Model(map[], All(false, NO_FLAGS))
      ensures fresh(tbl0) && fresh(tbl1)
    {
      tbl0 := new Slot[SLOTS](i => Empty);
      tbl1 := new Slot[SLOTS](i => Empty);
      state := Word(NoneBound, NO_FLAGS, NO_FLAGS, false, 0);
      model := Model(map[], All(false, NO_FLAGS));
      new;
      Cleared(tbl0[..]);
    }

    /** The slot a tag belongs in. The loop has no bound of its own: it ends
        because the table is never full. */
    static method FindSlot(tbl: array<Slot>, t: Tag, ghost m: map<Tag, Flags>) returns (at: nat, ghost d: nat)
      requires tbl.Length == SLOTS && Stands(tbl[..], m)
      ensures d < SLOTS && at == Pos(t, d) && Passed(tbl[..], t, d)
      ensures tbl[at].Used? ==> tbl[at].tag == t
    {
      hide Stands;
      at, d := Slot0(t), 0;
      ProbeEnds(tbl[..], m, t);
      while tbl[at].Used? && tbl[at].tag != t
        invariant d < SLOTS && at == Pos(t, d) && Passed(tbl[..], t, d)
        decreases SLOTS - d
      {
        assert Passed(tbl[..], t, d + 1);
        PosNext(t, d);
        at, d := Next(at), d + 1;
      }
    }

    /** One listed service goes into the table being filled. */
    static method Insert(tbl: array<Slot>, e: Entry, cnt: nat, all: All, any: Flags, ghost m: Model)
        returns (cnt': nat, all': All, any': Flags)
      requires tbl.Length == SLOTS && Stands(tbl[..], m.listed) && e.ident != []
      requires cnt == |m.listed| <= SVC_MAX && all == m.all && AnyOf(any, m.listed)
      modifies tbl
      ensures var n := Absorb(m, e);
              && Stands(tbl[..], n.listed) && cnt' == |n.listed| && all' == n.all && AnyOf(any', n.listed)
    {
      hide TagOf, Stands, AnyOf, Pos, Passed;
      cnt', all', any' := cnt, all, any;
      ghost var was := tbl[..];
      var t := TagOf(e.ident);
      var at, d := FindSlot(tbl, t, m.listed);
      AnyGrows(any, m.listed, t, e.flags);
      StoppedProbe(was, m.listed, t, d);
      if tbl[at].Empty? {
        if cnt == SVC_MAX {
          all' := All(true, Join(all.flags, e.flags));
          return;
        }
        Inserted(was, m.listed, t, d, e.flags);
        cnt' := cnt + 1;
        tbl[at] := Used(t, e.flags);
      } else {
        Merged(was, m.listed, t, d, Join(m.listed[t], e.flags));
        tbl[at] := Used(t, Join(tbl[at].flags, e.flags));
      }
      any' := Join(any, e.flags);
      assert tbl[..] == was[at := tbl[at]];
    }

    /** Empty the table, then insert every listed service. */
    static method Fill(tbl: array<Slot>, entries: seq<Entry>, all: All)
        returns (cnt: nat, all': All, any: Flags)
      requires tbl.Length == SLOTS
      modifies tbl
      ensures var m := Build(entries, all);
              && Stands(tbl[..], m.listed) && cnt == |m.listed| && all' == m.all && AnyOf(any, m.listed)
    {
      hide TagOf, Stands, AnyOf, Absorb;
      var i := 0;
      while i < SLOTS
        invariant i <= SLOTS && forall j :: 0 <= j < i ==> tbl[j] == Empty
      {
        tbl[i] := Empty;
        i := i + 1;
      }
      Cleared(tbl[..]);
      NoFlags();
      cnt, all', any, i := 0, all, NO_FLAGS, 0;
      assert entries[..0] == [];
      while i < |entries|
        invariant 0 <= i <= |entries|
        invariant var m := Build(entries[..i], all);
                  && Stands(tbl[..], m.listed) && cnt == |m.listed| && all' == m.all && AnyOf(any, m.listed)
      {
        ghost var m := Build(entries[..i], all);
        assert entries[..i + 1][..i] == entries[..i];
        AbsorbEmpty(m, entries[i]);
        if entries[i].ident != [] {
          cnt, all', any := Insert(tbl, entries[i], cnt, all', any, m);
        }
        i := i + 1;
      }
      assert entries[..i] == entries;
    }

    /** `ai_gw_netid_bound_set`: fill the table requests are not reading, then
        swap the word. */
    method BoundSet(entries: seq<Entry>, all: All)
      requires Valid()
      modifies this, if state.second then tbl0 else tbl1
      ensures Valid() && model == Build(entries, all)
      ensures state.second != old(state.second)
      ensures state.gen == (old(state.gen) + 1) % GENERATIONS
    {
      hide Stands, AnyOf, Build;
      var second := !state.second;
      var cnt, all', any := Fill(if second then tbl1 else tbl0, entries, all);
      model := Build(entries, all);
      EmptyMap(model.listed);
      state := Word(if all'.bound then AllBound else if cnt > 0 then Listed else NoneBound,
                    if all'.bound then all'.flags else NO_FLAGS,
                    any, second, (state.gen + 1) % GENERATIONS);
    }

    /** `ai_gw_netid_bound`, with no replacement running. */
    method Bound(ident: seq<byte>) returns (a: Answer)
      requires Valid()
      ensures a == Ask(model, ident)
    {
      hide Stands, Pos, Passed, AnyOf, Publishes, TagOf;
      if state.mode == NoneBound || ident == [] {
        if ident != [] { WordAnswersRight(state, model, ident); }
        return Unbound;
      }
      var t := TagOf(ident);
      a := FromWord(state);
      if WordAnswers(state) {
        WordAnswersRight(state, model, ident);
        return;
      }
      var tbl := if state.second then tbl1 else tbl0;
      ProbeEnds(tbl[..], model.listed, t);
      NonePassed(tbl[..], t);
      var at, i := Slot0(t), 0;
      while i < SLOTS
        invariant i <= SLOTS && Passed(tbl[..], t, i) && (i < SLOTS ==> at == Pos(t, i))
        invariant a == FromWord(state)
      {
        ProbeAnswersRight(state, model, tbl[..], ident, i);
        if tbl[at].Empty? { return; }
        if tbl[at].tag == t {
          a := WithSlot(a, tbl[at].flags);
          return;
        }
        OnePassed(tbl[..], t, i);
        if i + 1 < SLOTS { PosNext(t, i); }
        at, i := Next(at), i + 1;
      }
    }
  }

  lemma NonePassed(tbl: Table, t: Tag)
    ensures Passed(tbl, t, 0) && Pos(t, 0) == Slot0(t)
  {
  }

  lemma OnePassed(tbl: Table, t: Tag, d: nat)
    requires d < SLOTS && Passed(tbl, t, d)
    ensures var s := tbl[Pos(t, d)]; s.Used? && s.tag != t ==> Passed(tbl, t, d + 1)
  {
  }

  lemma NoFlags()
    ensures AnyOf(NO_FLAGS, map[])
  {
  }

  lemma EmptyMap(listed: map<Tag, Flags>)
    ensures |listed| == 0 <==> listed == map[]
  {
  }

  lemma AbsorbEmpty(m: Model, e: Entry)
    ensures e.ident == [] ==> Absorb(m, e) == m
  {
  }
}
