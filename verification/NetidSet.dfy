/** The set of services that have a network-identity binding, as a plain map,
    and the open-addressing table that stands for it. */
module NetidSet {
  import opened Bytes

  /** A service identity's hash above its three low bits, which is all a slot keeps of it. */
  datatype Tag = Tag(bits: bv64)

  /** FNV-1a: one octet more. */
  function Mix(h: bv64, b: byte): bv64 { (h ^ (b as bv64)) * 0x100000001b3 }

  const OFFSET: bv64 := 0xcbf29ce484222325

  function Hash(s: seq<byte>): bv64 {
    if s == [] then OFFSET else Mix(Hash(s[..|s| - 1]), s[|s| - 1])
  }

  function High(h: bv64): bv64 { h >> 3 }

  function TagOf(ident: seq<byte>): Tag { Tag(High(Hash(ident))) }

  /** Fail-closed and forward-identity, as a slot, a request or a whole set carries them. */
  datatype Flags = Flags(closed: bool, fwd: bool)

  const NO_FLAGS := Flags(false, false)

  function Join(a: Flags, b: Flags): Flags { Flags(a.closed || b.closed, a.fwd || b.fwd) }

  predicate Within(a: Flags, b: Flags) { (a.closed ==> b.closed) && (a.fwd ==> b.fwd) }

  /** One listed service; an empty identity stands for a missing one too. */
  datatype Entry = Entry(ident: seq<byte>, flags: Flags)

  /** The `all` argument: for every service. */
  datatype All = All(bound: bool, flags: Flags)

  /** What a read answers: 0, or BOUND with the flags. */
  datatype Answer = Unbound | Bound(flags: Flags)

  const SVC_MAX: nat := 1024
  const SLOTS: nat := 4096

  // ---- the set as a map ----

  datatype Model = Model(listed: map<Tag, Flags>, all: All)

  /** One listed service goes in; past the limit it is folded into `all`. */
  function Absorb(m: Model, e: Entry): Model {
    var t := TagOf(e.ident);
    if e.ident == [] then m
    else if t in m.listed then m.(listed := m.listed[t := Join(m.listed[t], e.flags)])
    else if |m.listed| == SVC_MAX then m.(all := All(true, Join(m.all.flags, e.flags)))
    else m.(listed := m.listed[t := e.flags])
  }

  function Build(entries: seq<Entry>, all: All): (m: Model)
    ensures |m.listed| <= 1024
  {
    if entries == [] then Model(map[], all)
    else Absorb(Build(entries[..|entries| - 1], all), entries[|entries| - 1])
  }

  /** The answer of the set for one service. */
  function Ask(m: Model, ident: seq<byte>): Answer {
    var t := TagOf(ident);
    if ident == [] then Unbound
    else if m.all.bound then Bound(if t in m.listed then Join(m.all.flags, m.listed[t]) else m.all.flags)
    else if t in m.listed then Bound(m.listed[t])
    else Unbound
  }

  lemma AbsorbGrows(m: Model, e: Entry)
    ensures var n := Absorb(m, e);
            && (m.all.bound ==> n.all.bound) && Within(m.all.flags, n.all.flags)
            && (forall t :: t in m.listed ==> t in n.listed && Within(m.listed[t], n.listed[t]))
  {
    hide TagOf;
  }

  /** Covered: this identity is answered bound, with at least these flags. */
  ghost predicate Covered(m: Model, e: Entry) {
    var a := Ask(m, e.ident);
    a.Bound? && Within(e.flags, a.flags)
  }

  /** NEVER UNDER-REPORTED. Every listed service is answered bound, with every
      flag it was listed with, however many services are listed. */
  lemma {:induction false} ListedIsCovered(entries: seq<Entry>, all: All, i: nat)
    requires i < |entries| && entries[i].ident != []
    ensures Covered(Build(entries, all), entries[i])
    decreases |entries|
  {
    hide TagOf;
    var init, last := entries[..|entries| - 1], entries[|entries| - 1];
    if i < |entries| - 1 {
      ListedIsCovered(init, all, i);
      AbsorbGrows(Build(init, all), last);
    }
  }

  /** And a set marked `all` answers bound, with its flags, for every service. */
  lemma {:induction false} AllIsCovered(entries: seq<Entry>, all: All, ident: seq<byte>)
    requires all.bound && ident != []
    ensures Covered(Build(entries, all), Entry(ident, all.flags))
    decreases |entries|
  {
    hide TagOf;
    if entries != [] {
      var init, last := entries[..|entries| - 1], entries[|entries| - 1];
      AllIsCovered(init, all, ident);
      AbsorbGrows(Build(init, all), last);
    }
  }

  /** The service met a full set: its tag is not among those kept. */
  ghost predicate Overflowed(entries: seq<Entry>, all: All, i: nat)
    requires i < |entries|
  {
    && entries[i].ident != []
    && |Build(entries[..i], all).listed| == 1024
    && TagOf(entries[i].ident) !in Build(entries[..i], all).listed
  }

  ghost predicate SameTag(e: Entry, t: Tag) { e.ident != [] && TagOf(e.ident) == t }

  /** Some listed service with this tag, or an overflowed one, accounts for `p`. */
  ghost predicate ByListed(entries: seq<Entry>, t: Tag, p: Flags -> bool) {
    exists i :: 0 <= i < |entries| && SameTag(entries[i], t) && p(entries[i].flags)
  }

  ghost predicate ByOverflow(entries: seq<Entry>, all: All, p: Flags -> bool) {
    exists i :: 0 <= i < |entries| && Overflowed(entries, all, i) && p(entries[i].flags)
  }

  const ANY: Flags -> bool := f => true
  const CLOSED: Flags -> bool := (f: Flags) => f.closed
  const FWD: Flags -> bool := (f: Flags) => f.fwd

  /** Where each bit of a built set comes from. */
  ghost predicate Explained(entries: seq<Entry>, all: All, m: Model) {
    && (forall t :: t in m.listed ==>
          && ByListed(entries, t, ANY)
          && (m.listed[t].closed ==> ByListed(entries, t, CLOSED))
          && (m.listed[t].fwd ==> ByListed(entries, t, FWD)))
    && (m.all.bound ==> all.bound || ByOverflow(entries, all, ANY))
    && (m.all.flags.closed ==> all.flags.closed || ByOverflow(entries, all, CLOSED))
    && (m.all.flags.fwd ==> all.flags.fwd || ByOverflow(entries, all, FWD))
  }

  lemma ListedGrows(init: seq<Entry>, last: Entry, t: Tag, p: Flags -> bool)
    ensures ByListed(init, t, p) ==> ByListed(init + [last], t, p)
    ensures SameTag(last, t) && p(last.flags) ==> ByListed(init + [last], t, p)
  {
    var entries := init + [last];
    if ByListed(init, t, p) {
      var i :| 0 <= i < |init| && SameTag(init[i], t) && p(init[i].flags);
      assert entries[i] == init[i];
    }
    assert entries[|init|] == last;
  }

  lemma OverflowGrows(init: seq<Entry>, last: Entry, all: All, p: Flags -> bool)
    ensures ByOverflow(init, all, p) ==> ByOverflow(init + [last], all, p)
    ensures Overflowed(init + [last], all, |init|) && p(last.flags) ==> ByOverflow(init + [last], all, p)
  {
    hide Build, TagOf;
    var entries := init + [last];
    if ByOverflow(init, all, p) {
      var i :| 0 <= i < |init| && Overflowed(init, all, i) && p(init[i].flags);
      assert entries[i] == init[i] && entries[..i] == init[..i];
    }
  }

  lemma {:induction false} BuildIsExplained(entries: seq<Entry>, all: All)
    ensures Explained(entries, all, Build(entries, all))
    decreases |entries|
  {
    hide TagOf, Absorb, ByListed, ByOverflow;
    if entries != [] {
      var init, last := entries[..|entries| - 1], entries[|entries| - 1];
      BuildIsExplained(init, all);
      ExplainAbsorb(init, last, all, Build(init, all));
      assert init + [last] == entries;
    }
  }

  lemma ExplainAbsorb(init: seq<Entry>, last: Entry, all: All, m: Model)
    requires m == Build(init, all) && Explained(init, all, m)
    ensures Explained(init + [last], all, Absorb(m, last))
  {
    hide TagOf, Build, ByListed, ByOverflow;
    var entries, n := init + [last], Absorb(m, last);
    assert entries[..|init|] == init;
    forall p ensures ByOverflow(init, all, p) ==> ByOverflow(entries, all, p)
             ensures Overflowed(entries, all, |init|) && p(last.flags) ==> ByOverflow(entries, all, p)
    {
      OverflowGrows(init, last, all, p);
    }
    forall t, p ensures ByListed(init, t, p) ==> ByListed(entries, t, p)
                ensures SameTag(last, t) && p(last.flags) ==> ByListed(entries, t, p)
    {
      ListedGrows(init, last, t, p);
    }
    assert ANY(last.flags);
  }

  /** NOTHING UNEXPLAINED. Every bit of an answer is owed to `all`, to a service
      that overflowed the set, or to a listed service with the same tag. */
  lemma AnswerIsExplained(entries: seq<Entry>, all: All, ident: seq<byte>)
    ensures var a := Ask(Build(entries, all), ident); var t := TagOf(ident);
            && (a.Bound? ==> all.bound || ByOverflow(entries, all, ANY) || ByListed(entries, t, ANY))
            && (a.Bound? && a.flags.closed ==>
                  all.flags.closed || ByOverflow(entries, all, CLOSED) || ByListed(entries, t, CLOSED))
            && (a.Bound? && a.flags.fwd ==>
                  all.flags.fwd || ByOverflow(entries, all, FWD) || ByListed(entries, t, FWD))
  {
    hide TagOf, Build, ByListed, ByOverflow;
    BuildIsExplained(entries, all);
  }

  // ---- the hash ----

  /** `netid_hash` */
  method ComputeHash(s: seq<byte>) returns (h: bv64)
    ensures h == Hash(s)
  {
    hide Mix;
    h := 0xcbf29ce484222325;
    for i := 0 to |s|
      invariant h == Hash(s[..i])
    {
      HashNext(s, i);
      h := Mix(h, s[i]);
    }
    assert s[..|s|] == s;
  }

  lemma HashNext(s: seq<byte>, i: nat)
    requires i < |s|
    ensures Hash(s[..i + 1]) == Mix(Hash(s[..i]), s[i])
  {
    hide Mix;
    assert s[..i + 1][..i] == s[..i];
  }

  /** The test vectors of FNV-1a: the empty text, "a" and "foobar". */
  lemma HashVectors()
    ensures Hash([]) == 0xcbf29ce484222325
    ensures Hash([97]) == 0xaf63dc4c8601ec8c
    ensures Hash([102, 111, 111, 98, 97, 114]) == 0x85944171f73967e8
  {
    hide Mix;
    FirstVector();
    var s: seq<byte> := [102, 111, 111, 98, 97, 114];
    FooBar();
    HashNext(s, 0);
    HashNext(s, 1);
    HashNext(s, 2);
    HashNext(s, 3);
    HashNext(s, 4);
    HashNext(s, 5);
    assert s[..0] == [] && s[..6] == s;
  }

  lemma FirstVector()
    ensures Hash([97]) == 0xaf63dc4c8601ec8c
  {
    var s: seq<byte> := [97];
    assert Mix(0xcbf29ce484222325, 97) == 0xaf63dc4c8601ec8c;
    hide Mix;
    HashNext(s, 0);
    assert s[..0] == [] && s[..1] == s;
  }

  lemma FooBar()
    ensures Mix(0xcbf29ce484222325, 102) == 0xaf63db4c8601ead9
    ensures Mix(0xaf63db4c8601ead9, 111) == 0x8985907b541d342
    ensures Mix(0x8985907b541d342, 111) == 0xdcb27518fed9d577
    ensures Mix(0xdcb27518fed9d577, 98) == 0xdd120e790c2512af
    ensures Mix(0xdd120e790c2512af, 97) == 0xcac165afa2fef40a
    ensures Mix(0xcac165afa2fef40a, 114) == 0x85944171f73967e8
  {
  }

  predicate AgreeAbove(x: bv64, y: bv64) { x & 0xfffffffffffffff8 == y & 0xfffffffffffffff8 }

  /** Two services share a slot exactly when their hashes agree above three bits. */
  lemma TagIs(a: seq<byte>, b: seq<byte>)
    ensures TagOf(a) == TagOf(b) <==> AgreeAbove(Hash(a), Hash(b))
  {
    HighBits(Hash(a), Hash(b));
    hide Hash, High, AgreeAbove;
  }

  lemma HighBits(x: bv64, y: bv64)
    ensures High(x) == High(y) <==> AgreeAbove(x, y)
  {
    if x >> 3 == y >> 3 { SameAbove(x, y); }
    if x & 0xfffffffffffffff8 == y & 0xfffffffffffffff8 { SameHigh(x, y); }
  }

  lemma SameAbove(x: bv64, y: bv64)
    requires x >> 3 == y >> 3
    ensures x & 0xfffffffffffffff8 == y & 0xfffffffffffffff8
  {
  }

  lemma SameHigh(x: bv64, y: bv64)
    requires x & 0xfffffffffffffff8 == y & 0xfffffffffffffff8
    ensures x >> 3 == y >> 3
  {
  }
}
