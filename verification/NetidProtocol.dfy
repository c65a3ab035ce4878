/** Readers against a replacing writer, one step per atomic access. */
module NetidProtocol {
  import opened Bytes
  import opened NetidSet
  import opened NetidTable
  import opened RingSlots

  type Tid = nat

  /** One publication: the word that was stored and the set it stands for. */
  datatype Edition = Edition(word: Word, model: Model)

  /** Where a reader is. `seen` numbers the edition whose word it last loaded,
      `began` the one at its first load, `retries` counts its re-reads. */
  datatype Reader =
    | Idle
    | Deciding(ident: seq<byte>, st: Word, seen: nat, began: nat, retries: nat)
    | Probing(ident: seq<byte>, st: Word, seen: nat, began: nat, retries: nat, d: nat)
    | Checking(ident: seq<byte>, st: Word, seen: nat, began: nat, retries: nat, ret: Answer)
    | Done(ident: seq<byte>, seen: nat, began: nat, retries: nat, ret: Answer)

  /** The shared words, every publication so far, and the readers. */
  datatype Sys = Sys(word: Word, tbl0: Table, tbl1: Table, editions: seq<Edition>, readers: map<Tid, Reader>)

  function Current(s: Sys): nat
    requires s.editions != []
  {
    |s.editions| - 1
  }

  function TableAt(s: Sys, second: bool): Table { if second then s.tbl1 else s.tbl0 }

  predicate Init(s: Sys) {
    && s.word == Word(NoneBound, NO_FLAGS, NO_FLAGS, false, 0)
    && s.tbl0 == seq(SLOTS, i => Empty) && s.tbl1 == s.tbl0
    && s.editions == [Edition(s.word, Model(map[], All(false, NO_FLAGS)))]
    && s.readers == map[]
  }

  // ---- the writer ----

  /** One store into the table that is not published. */
  predicate WriterStores(s: Sys, s': Sys, i: nat, v: Slot) {
    i < SLOTS &&
    if s.word.second then s' == s.(tbl0 := s.tbl0[i := v]) else s' == s.(tbl1 := s.tbl1[i := v])
  }

  /** The store of the state word, once the hidden table holds the new set. No
      read is overtaken by 2^25 publications, where the generation would repeat. */
  ghost predicate WriterPublishes(s: Sys, s': Sys, entries: seq<Entry>, all: All, w: Word) {
    var m := Build(entries, all);
    && s.editions != []
    && Publishes(w, m) && w.second != s.word.second && w.gen == (s.word.gen + 1) % GENERATIONS
    && Stands(TableAt(s, w.second), m.listed)
    && (forall t :: t in s.readers && InCall(s.readers[t]) ==> |s.editions| - s.readers[t].seen < GENERATIONS)
    && s' == s.(word := w, editions := s.editions + [Edition(w, m)])
  }

  predicate InCall(r: Reader) { r.Deciding? || r.Probing? || r.Checking? }

  // ---- a reader ----

  /** The first load of the state word. */
  predicate ReaderStarts(s: Sys, s': Sys, t: Tid, ident: seq<byte>) {
    && s.editions != []
    && (t in s.readers ==> !InCall(s.readers[t]))
    && s' == s.(readers := s.readers[t := Deciding(ident, s.word, Current(s), Current(s), 0)])
  }

  /** The branches on the loaded word: an answer at once, or a probe. */
  predicate ReaderDecides(s: Sys, s': Sys, t: Tid) {
    && t in s.readers && s.readers[t].Deciding?
    && var r := s.readers[t];
       var next :=
         if r.ident == [] then Done(r.ident, r.seen, r.began, r.retries, Unbound)
         else if WordAnswers(r.st) then Done(r.ident, r.seen, r.began, r.retries, FromWord(r.st))
         else Probing(r.ident, r.st, r.seen, r.began, r.retries, 0);
       s' == s.(readers := s.readers[t := next])
  }

  /** The load of one slot, from the table the reader's word names. */
  predicate ReaderLoads(s: Sys, s': Sys, t: Tid) {
    && t in s.readers && s.readers[t].Probing? && s.readers[t].d < SLOTS
    && var r := s.readers[t];
       var v := TableAt(s, r.st.second)[Pos(TagOf(r.ident), r.d)];
       var next :=
         if v.Empty? then Checking(r.ident, r.st, r.seen, r.began, r.retries, FromWord(r.st))
         else if v.tag == TagOf(r.ident) then
           Checking(r.ident, r.st, r.seen, r.began, r.retries, WithSlot(FromWord(r.st), v.flags))
         else r.(d := r.d + 1);
       s' == s.(readers := s.readers[t := next])
  }

  /** The probe's own bound, met only by a table that was refilled underneath. */
  predicate ReaderGivesUp(s: Sys, s': Sys, t: Tid) {
    && t in s.readers && s.readers[t].Probing? && s.readers[t].d == SLOTS
    && var r := s.readers[t];
       s' == s.(readers := s.readers[t := Checking(r.ident, r.st, r.seen, r.began, r.retries, FromWord(r.st))])
  }

  /** The second load of the word: the same, or read once more from the new one. */
  predicate ReaderChecks(s: Sys, s': Sys, t: Tid) {
    && t in s.readers && s.readers[t].Checking? && s.editions != []
    && var r := s.readers[t];
       var next :=
         if s.word == r.st then Done(r.ident, Current(s), r.began, r.retries, r.ret)
         else Deciding(r.ident, s.word, Current(s), r.began, r.retries + 1);
       s' == s.(readers := s.readers[t := next])
  }

  ghost predicate Next(s: Sys, s': Sys) {
    || (exists i, v :: WriterStores(s, s', i, v))
    || (exists entries, all, w :: WriterPublishes(s, s', entries, all, w))
    || (exists t, ident :: ReaderStarts(s, s', t, ident))
    || (exists t :: ReaderDecides(s, s', t))
    || (exists t :: ReaderLoads(s, s', t))
    || (exists t :: ReaderGivesUp(s, s', t))
    || (exists t :: ReaderChecks(s, s', t))
  }

  /** A run: any interleaving of the steps above. */
  ghost predicate IsRun(run: seq<Sys>) {
    && run != [] && Init(run[0])
    && forall i :: 0 <= i < |run| - 1 ==> Next(run[i], run[i + 1])
  }

  // ---- what every step keeps ----

  /** Each edition's word publishes its set; generations count publications. */
  ghost predicate EditionsOk(eds: seq<Edition>) {
    && eds != []
    && (forall i :: 0 <= i < |eds| ==> Publishes(eds[i].word, eds[i].model))
    && (forall i :: 0 <= i < |eds| ==> eds[i].word.gen == i % GENERATIONS)
  }

  ghost predicate SharedOk(s: Sys) {
    && EditionsOk(s.editions)
    && s.word == s.editions[Current(s)].word
    && Stands(TableAt(s, s.word.second), s.editions[Current(s)].model.listed)
  }

  /** While nothing was published since its load, what a reader has is right;
      once something was, nothing is claimed of it. */
  ghost predicate ReaderOk(s: Sys, r: Reader)
    requires s.editions != []
  {
    && (!r.Idle? ==> r.began <= r.seen <= Current(s) && r.retries <= r.seen - r.began)
    && (InCall(r) ==> r.st == s.editions[r.seen].word && Current(s) - r.seen < GENERATIONS)
    && (r.Probing? || r.Checking? ==> r.ident != [])
    && (r.Probing? && r.seen == Current(s) ==> Passed(TableAt(s, r.st.second), TagOf(r.ident), r.d))
    && (r.Checking? && r.seen == Current(s) ==> r.ret == Ask(s.editions[r.seen].model, r.ident))
    && (r.Done? ==> r.ret == Ask(s.editions[r.seen].model, r.ident))
  }

  ghost predicate Inv(s: Sys) {
    && SharedOk(s)
    && forall t :: t in s.readers ==> ReaderOk(s, s.readers[t])
  }

  lemma InitInv(s: Sys)
    requires Init(s)
    ensures Inv(s)
  {
    Cleared(s.tbl0);
  }

  lemma StoreKeeps(s: Sys, s': Sys, i: nat, v: Slot)
    requires Inv(s) && WriterStores(s, s', i, v)
    ensures Inv(s')
  {
    hide Stands, EditionsOk, TagOf, Ask, Passed;
    forall t | t in s'.readers ensures ReaderOk(s', s'.readers[t]) {
      assert ReaderOk(s, s.readers[t]);
    }
  }

  lemma PublishKeeps(s: Sys, s': Sys, entries: seq<Entry>, all: All, w: Word)
    requires Inv(s) && WriterPublishes(s, s', entries, all, w)
    ensures Inv(s')
  {
    hide Stands, Publishes, TagOf, Ask, Passed, Build;
    var n := |s.editions|;
    GenStep(n);
    forall t | t in s'.readers ensures ReaderOk(s', s'.readers[t]) {
      assert ReaderOk(s, s.readers[t]);
    }
  }

  lemma GenStep(n: nat)
    requires n > 0
    ensures ((n - 1) % GENERATIONS + 1) % GENERATIONS == n % GENERATIONS
  {
  }

  /** Fewer than 2^25 publications apart, equal words are the same publication. */
  lemma SameWordSameEdition(eds: seq<Edition>, i: nat, j: nat)
    requires EditionsOk(eds) && i <= j < |eds| && j - i < GENERATIONS
    requires eds[i].word == eds[j].word
    ensures i == j
  {
    hide Publishes;
    assert i % GENERATIONS == j % GENERATIONS;
    Together(i, j, GENERATIONS);
  }

  /** A step of one reader keeps the rest as it was. */
  lemma OnlyReader(s: Sys, s': Sys, t: Tid, r: Reader)
    requires Inv(s) && s' == s.(readers := s.readers[t := r]) && ReaderOk(s, r)
    ensures Inv(s')
  {
    hide Stands, EditionsOk, TagOf, Ask, Passed;
  }

  lemma StartKeeps(s: Sys, s': Sys, t: Tid, ident: seq<byte>)
    requires Inv(s) && ReaderStarts(s, s', t, ident)
    ensures Inv(s')
  {
    hide Stands, Publishes, TagOf, Ask, Passed;
    OnlyReader(s, s', t, s'.readers[t]);
  }

  lemma DecideKeeps(s: Sys, s': Sys, t: Tid)
    requires Inv(s) && ReaderDecides(s, s', t)
    ensures Inv(s')
  {
    hide Stands, Publishes, TagOf, Ask, Passed, Pos;
    var r := s.readers[t];
    var e := s.editions[r.seen];
    if r.ident == [] {
      AskNobody(e.model);
    } else {
      if WordAnswers(r.st) { WordAnswersRight(e.word, e.model, r.ident); }
      NonePassed(TableAt(s, r.st.second), TagOf(r.ident));
    }
    OnlyReader(s, s', t, s'.readers[t]);
  }

  lemma AskNobody(m: Model)
    ensures Ask(m, []) == Unbound
  {
  }

  lemma LoadKeeps(s: Sys, s': Sys, t: Tid)
    requires Inv(s) && ReaderLoads(s, s', t)
    ensures Inv(s')
  {
    hide Stands, Publishes, TagOf, Ask, Passed, Pos;
    var r := s.readers[t];
    if r.seen == Current(s) {
      var e := s.editions[r.seen];
      var tbl := TableAt(s, r.st.second);
      ProbeAnswersRight(e.word, e.model, tbl, r.ident, r.d);
      OnePassed(tbl, TagOf(r.ident), r.d);
    }
    OnlyReader(s, s', t, s'.readers[t]);
  }

  lemma GiveUpKeeps(s: Sys, s': Sys, t: Tid)
    requires Inv(s) && ReaderGivesUp(s, s', t)
    ensures Inv(s')
  {
    hide Stands, Publishes, TagOf, Ask, Passed, Pos;
    var r := s.readers[t];
    if r.seen == Current(s) {
      ProbeEnds(TableAt(s, r.st.second), s.editions[r.seen].model.listed, TagOf(r.ident));
    }
    OnlyReader(s, s', t, s'.readers[t]);
  }

  lemma CheckKeeps(s: Sys, s': Sys, t: Tid)
    requires Inv(s) && ReaderChecks(s, s', t)
    ensures Inv(s')
  {
    hide Stands, Publishes, TagOf, Ask, Passed, Pos;
    var r := s.readers[t];
    if s.word == r.st { SameWordSameEdition(s.editions, r.seen, Current(s)); }
    OnlyReader(s, s', t, s'.readers[t]);
  }

  lemma NextKeeps(s: Sys, s': Sys)
    requires Inv(s) && Next(s, s')
    ensures Inv(s')
  {
    hide Inv, WriterStores, WriterPublishes, ReaderStarts, ReaderDecides, ReaderLoads, ReaderGivesUp, ReaderChecks;
    if i, v :| WriterStores(s, s', i, v) {
      StoreKeeps(s, s', i, v);
    } else if entries, all, w :| WriterPublishes(s, s', entries, all, w) {
      PublishKeeps(s, s', entries, all, w);
    } else if t, ident :| ReaderStarts(s, s', t, ident) {
      StartKeeps(s, s', t, ident);
    } else if t :| ReaderDecides(s, s', t) {
      DecideKeeps(s, s', t);
    } else if t :| ReaderLoads(s, s', t) {
      LoadKeeps(s, s', t);
    } else if t :| ReaderGivesUp(s, s', t) {
      GiveUpKeeps(s, s', t);
    } else {
      var t :| ReaderChecks(s, s', t);
      CheckKeeps(s, s', t);
    }
  }

  lemma {:induction false} RunInv(run: seq<Sys>, k: nat)
    requires IsRun(run) && k < |run|
    ensures Inv(run[k])
  {
    hide Inv, Init, Next;
    if k == 0 {
      InitInv(run[0]);
    } else {
      RunInv(run, k - 1);
      assert Next(run[k - 1], run[k - 1 + 1]);
      NextKeeps(run[k - 1], run[k]);
    }
  }

  /** LINEARIZABLE READS. In every interleaving a finished read answered exactly
      what the set published at its last load of the state word answers, never a
      mix of two tables; and it read again no more often than sets were
      published while it ran. */
  lemma ReadsAreExact(run: seq<Sys>, k: nat, t: Tid)
    requires IsRun(run) && k < |run|
    requires t in run[k].readers && run[k].readers[t].Done?
    ensures var r := run[k].readers[t];
            && r.began <= r.seen < |run[k].editions|
            && r.ret == Ask(run[k].editions[r.seen].model, r.ident)
            && r.retries <= r.seen - r.began
  {
    hide Next, Init, Ask, SharedOk;
    RunInv(run, k);
  }

  /** A reader goes round again only when a set was published since its load. */
  lemma RetryMeansReplaced(run: seq<Sys>, k: nat, t: Tid)
    requires IsRun(run) && k + 1 < |run|
    requires ReaderChecks(run[k], run[k + 1], t) && run[k + 1].readers[t].Deciding?
    ensures run[k].readers[t].seen < Current(run[k])
  {
    hide Next, Init, Ask, Stands, Publishes, Passed;
    RunInv(run, k);
  }

  // ---- the code's replacement is the writer of the protocol ----

  /** The shared words of the object are those of the state. */
  ghost predicate Shows(n: NetidTables, s: Sys)
    reads n, n.tbl0, n.tbl1
  {
    s.word == n.state && s.tbl0 == n.tbl0[..] && s.tbl1 == n.tbl1[..]
  }

  function Hidden(s: Sys): Table { TableAt(s, !s.word.second) }

  function WithHidden(s: Sys, tbl: Table): Sys { if s.word.second then s.(tbl0 := tbl) else s.(tbl1 := tbl) }

  ghost predicate SomeStore(s: Sys, s': Sys) { exists i, v :: WriterStores(s, s', i, v) }

  ghost predicate IsStores(run: seq<Sys>) {
    run != [] && forall k :: 0 <= k < |run| - 1 ==> SomeStore(run[k], run[k + 1])
  }

  /** Whatever the hidden table is to hold, stores get it there, slot by slot. */
  lemma {:induction false} StoresReach(s: Sys, target: Table, k: nat) returns (run: seq<Sys>)
    requires |Hidden(s)| == |target| == SLOTS && k <= SLOTS
    ensures IsStores(run) && run[0] == s && run[|run| - 1] == WithHidden(s, target[..k] + Hidden(s)[k..])
  {
    hide Hidden;
    if k == 0 {
      run := [s];
      assert target[..0] + Hidden(s)[0..] == Hidden(s);
      SameHidden(s);
    } else {
      run := StoresReach(s, target, k - 1);
      var last := run[|run| - 1];
      var was, now := target[..k - 1] + Hidden(s)[k - 1..], target[..k] + Hidden(s)[k..];
      assert now == was[k - 1 := target[k - 1]];
      var next := WithHidden(s, now);
      assert WriterStores(last, next, k - 1, target[k - 1]);
      OneMoreStore(run, next, k - 1, target[k - 1]);
      run := run + [next];
    }
  }

  lemma SameHidden(s: Sys)
    ensures WithHidden(s, Hidden(s)) == s
  {
  }

  lemma OneMoreStore(run: seq<Sys>, next: Sys, i: nat, v: Slot)
    requires IsStores(run) && WriterStores(run[|run| - 1], next, i, v)
    ensures IsStores(run + [next])
  {
    assert SomeStore(run[|run| - 1], next);
    hide SomeStore;
    var all := run + [next];
    forall k | 0 <= k < |all| - 1 ensures SomeStore(all[k], all[k + 1]) {
      assert k < |run| - 1 ==> SomeStore(run[k], run[k + 1]);
    }
  }

  /** REPLACING IS PUBLISHING. A call of `BoundSet` takes the shared words along a
      run of the protocol's writer: stores into the hidden table, then the store of
      the word with everything that step asks for. */
  method Replace(n: NetidTables, entries: seq<Entry>, all: All, ghost s: Sys)
      returns (ghost stores: seq<Sys>, ghost s': Sys)
    requires n.Valid() && Shows(n, s) && s.editions != []
    requires forall t :: t in s.readers && InCall(s.readers[t]) ==> |s.editions| - s.readers[t].seen < GENERATIONS
    modifies n, if n.state.second then n.tbl0 else n.tbl1
    ensures n.Valid() && n.model == Build(entries, all) && Shows(n, s')
    ensures IsStores(stores) && stores[0] == s
    ensures WriterPublishes(stores[|stores| - 1], s', entries, all, n.state)
  {
    hide Stands, Build, Publishes;
    n.BoundSet(entries, all);
    ghost var target := if n.state.second then n.tbl1[..] else n.tbl0[..];
    stores := StoresReach(s, target, SLOTS);
    assert target[..SLOTS] + Hidden(s)[SLOTS..] == target;
    s' := WithHidden(s, target).(word := n.state, editions := s.editions + [Edition(n.state, n.model)]);
  }
}
