/** The rule list as linked nodes, rewired in place. */
module PdiMap {
  import opened Pdi

  const TWO_32: nat := 0x1_0000_0000

  class Rule {
    const key: Key
    const pref: nat
    const id: nat
    var next: Rule?

    constructor (key: Key, pref: nat, id: nat)
      ensures this.key == key && this.pref == pref && this.id == id && next == null
    {
      this.key, this.pref, this.id, next := key, pref, id, null;
    }

    function ToEntry(): Entry { Entry(pref, key, id) }
  }

  /** The entries of a chain of nodes. */
  function Entries(rules: seq<Rule>): (es: seq<Entry>)
    ensures |es| == |rules| && forall i :: 0 <= i < |rules| ==> es[i] == rules[i].ToEntry()
  {
    seq(|rules|, i requires 0 <= i < |rules| => rules[i].ToEntry())
  }

  /** The node at `i`, or the null that ends the chain. */
  function At(rules: seq<Rule>, i: nat): Rule? { if i < |rules| then rules[i] else null }

  ghost predicate NoRepeat(rules: seq<Rule>) { forall i, j :: 0 <= i < j < |rules| ==> rules[i] != rules[j] }

  /** The chain after the splice, from what the nodes point to. */
  lemma Chained(was: seq<Rule>, rule: Rule, i: nat)
    requires NoRepeat(was) && rule !in was && i <= |was| && rule.next == At(was, i)
    requires forall j {:trigger was[j].next} :: 0 <= j < |was| ==>
               was[j].next == if j == i - 1 then rule else At(was, j + 1)
    ensures var rules := Chain(was, rule, i);
            && NoRepeat(rules) && At(rules, 0) == (if i == 0 then rule else At(was, 0))
            && forall j {:trigger rules[j].next} :: 0 <= j < |rules| ==> rules[j].next == At(rules, j + 1)
  {
    var rules := Chain(was, rule, i);
    forall j | 0 <= j < |rules| ensures rules[j].next == At(rules, j + 1) {
      assert j < i ==> rules[j] == was[j];
      assert j > i ==> rules[j] == was[j - 1];
    }
  }

  lemma Shortened(was: seq<Rule>, i: nat)
    requires NoRepeat(was) && i < |was|
    requires forall j {:trigger was[j].next} :: 0 <= j < |was| ==>
               was[j].next == if j == i - 1 then At(was, i + 1) else At(was, j + 1)
    ensures var rules := was[..i] + was[i + 1..];
            && NoRepeat(rules) && At(rules, 0) == (if i == 0 then At(was, 1) else At(was, 0))
            && forall j {:trigger rules[j].next} :: 0 <= j < |rules| ==> rules[j].next == At(rules, j + 1)
  {
    var rules := was[..i] + was[i + 1..];
    assert forall j :: 0 <= j < |rules| ==> rules[j] == if j < i then was[j] else was[j + 1];
    forall j | 0 <= j < |rules| ensures rules[j].next == At(rules, j + 1) {
      assert rules[j] == if j < i then was[j] else was[j + 1];
    }
  }

  class Map {
    var head: Rule?
    var nr: nat
    /** The nodes in list order. */
    ghost var rules: seq<Rule>

    /** The list is the chain `rules`, without cycles. */
    ghost predicate Linked()
      reads this, rules
    {
      && head == At(rules, 0)
      && (forall i {:trigger rules[i].next} :: 0 <= i < |rules| ==> rules[i].next == At(rules, i + 1))
      && NoRepeat(rules)
    }

    ghost predicate Valid()
      reads this, rules
    {
      && Linked() && nr == |rules| % TWO_32
      && Sorted(Entries(rules)) && Distinct(Entries(rules)) && AllBuilt(Entries(rules))
    }

    constructor ()
      ensures Valid() && rules == []
    {
      head, nr, rules := null, 0, [];
    }

    /** `pdi_rule_insert`; `passed` is the number of nodes walked over. */
    method Insert(rule: Rule) returns (ok: bool, passed: nat)
      requires Valid() && rule !in rules && Built(rule.key)
      modifies this, rule, rules
      ensures Valid() && ok == !Has(old(Entries(rules)), rule.pref, rule.key)
      ensures Entries(rules) == Inserted(old(Entries(rules)), rule.ToEntry())
      ensures rules == if ok && passed <= |old(rules)| then Chain(old(rules), rule, passed) else old(rules)
      ensures ok ==> passed <= |old(rules)|
      ensures forall r :: r in rules ==> r in old(rules) || r == rule
    {
      hide Built, KeyEq, Inserted;
      var prev: Rule? := null;
      var node := head;
      passed := 0;
      while node != null && rule.pref <= node.pref
        invariant passed <= |rules| && node == At(rules, passed)
        invariant prev == if passed == 0 then null else rules[passed - 1]
        invariant forall j :: 0 <= j < passed ==> rules[j].pref >= rule.pref && !SameRule(rules[j].ToEntry(), rule.ToEntry())
        decreases |rules| - passed
        modifies {}
      {
        if rule.pref == node.pref {
          assert Entries(rules)[passed].key == node.key;
          KeyEqIsEquality(rule.key, node.key);
          if KeyEq(rule.key, node.key) {
            Refused(Entries(rules), rule.ToEntry(), passed);
            return false, passed;
          }
        }
        prev := node;
        node := node.next;
        passed := passed + 1;
      }
      Link(prev, rule, node, passed);
      ok := true;
    }

    /** Put `rule` between two neighbours. */
    method Link(prev: Rule?, rule: Rule, node: Rule?, ghost i: nat)
      requires Valid() && rule !in rules && Built(rule.key) && Fits(Entries(rules), rule.ToEntry(), i)
      requires node == At(rules, i) && prev == if i == 0 then null else rules[i - 1]
      modifies this, rule, rules
      ensures Valid() && rules == Chain(old(rules), rule, i)
      ensures !Has(old(Entries(rules)), rule.pref, rule.key)
      ensures Entries(rules) == Inserted(old(Entries(rules)), rule.ToEntry())
    {
      hide Inserted, Sorted, Distinct, AllBuilt, Fits, Has;
      BuiltSplice(Entries(rules), rule.ToEntry(), i);
      ghost var was := rules;
      FitsNew(Entries(was), rule.ToEntry(), i);
      FitsSorted(Entries(was), rule.ToEntry(), i);
      FitsDistinct(Entries(was), rule.ToEntry(), i);
      Rewire(prev, rule, node, i);
      assert Entries(rules) == Splice(Entries(was), rule.ToEntry(), i);
    }

    method Rewire(prev: Rule?, rule: Rule, node: Rule?, ghost i: nat)
      requires Linked() && rule !in rules && i <= |rules| && nr == |rules| % TWO_32
      requires node == At(rules, i) && prev == if i == 0 then null else rules[i - 1]
      modifies this, rule, rules
      ensures Linked() && rules == Chain(old(rules), rule, i) && nr == |rules| % TWO_32
    {
      hide At, Chain;
      ghost var was := rules;
      if prev != null {
        prev.next := rule;
      } else {
        head := rule;
      }
      rule.next := node;
      nr := (nr + 1) % TWO_32;
      assert forall j {:trigger was[j].next} :: 0 <= j < |was| ==>
          was[j].next == if j == i - 1 then rule else At(was, j + 1);
      rules := Chain(was, rule, i);
      Chained(was, rule, i);
    }

    /** `pdi_rule_delete__` */
    method Delete(key: Key, pref: nat) returns (gone: Rule?, passed: nat)
      requires Valid() && Built(key)
      modifies this, rules
      ensures Valid() && (gone != null <==> Has(old(Entries(rules)), pref, key))
      ensures Entries(rules) == Without(old(Entries(rules)), pref, key)
      ensures forall r :: r in rules ==> r in old(rules)
      ensures gone != null ==> passed < |old(rules)| && gone == old(rules)[passed] && gone.pref == pref && gone.key == key
    {
      hide Built, KeyEq, Without;
      var prev: Rule? := null;
      var node := head;
      passed := 0;
      while node != null
        invariant passed <= |rules| && node == At(rules, passed)
        invariant prev == if passed == 0 then null else rules[passed - 1]
        invariant forall j :: 0 <= j < passed ==> !(rules[j].pref == pref && rules[j].key == key)
        decreases |rules| - passed
        modifies {}
      {
        if pref == node.pref {
          assert Entries(rules)[passed].key == node.key;
          KeyEqIsEquality(key, node.key);
          if KeyEq(key, node.key) {
            break;
          }
        }
        prev := node;
        node := node.next;
        passed := passed + 1;
      }
      gone := node;
      if node != null {
        Unlink(prev, node, passed);
      } else {
        WithoutNone(Entries(rules), pref, key);
      }
    }

    method Unlink(prev: Rule?, node: Rule, ghost i: nat)
      requires Valid() && i < |rules| && node == rules[i] && prev == if i == 0 then null else rules[i - 1]
      modifies this, rules
      ensures Valid() && Has(old(Entries(rules)), node.pref, node.key)
      ensures Entries(rules) == Without(old(Entries(rules)), node.pref, node.key)
      ensures forall r :: r in rules ==> r in old(rules)
    {
      hide Without, Sorted, Distinct, AllBuilt, Has;
      ghost var was := rules;
      ghost var es := Entries(was);
      assert es[i].pref == node.pref && es[i].key == node.key;
      WithoutAt(es, node.pref, node.key, i);
      HasAt(es, i);
      CutKeeps(es, i);
      Bypass(prev, node, i);
      assert Entries(rules) == es[..i] + es[i + 1..];
    }

    method Bypass(prev: Rule?, node: Rule, ghost i: nat)
      requires Linked() && i < |rules| && nr == |rules| % TWO_32
      requires node == rules[i] && prev == if i == 0 then null else rules[i - 1]
      modifies this, rules
      ensures Linked() && rules == old(rules)[..i] + old(rules)[i + 1..] && nr == |rules| % TWO_32
    {
      hide At;
      ghost var was := rules;
      if prev != null {
        prev.next := node.next;
      } else {
        head := node.next;
      }
      nr := (nr + TWO_32 - 1) % TWO_32;
      assert forall j {:trigger was[j].next} :: 0 <= j < |was| ==>
          was[j].next == if j == i - 1 then At(was, i + 1) else At(was, j + 1);
      rules := was[..i] + was[i + 1..];
      Shortened(was, i);
    }

    /** `pdi_rule_get__` */
    method Get(p: Packet) returns (found: Rule?)
      requires Valid()
      ensures var i := Lookup(Entries(rules), p);
              found == if i < 0 then null else rules[i]
      ensures found == null ==> forall j :: 0 <= j < |rules| ==> !Describes(rules[j].key, p)
      ensures found != null ==>
                && Describes(found.key, p)
                && exists i :: 0 <= i < |rules| && rules[i] == found
                     && forall j :: 0 <= j < i ==> !Describes(rules[j].key, p)
    {
      hide Matches, Describes, Built, Sorted, Distinct;
      var node := head;
      ghost var i := 0;
      while node != null && !Matches(p, node.key)
        invariant i <= |rules| && node == At(rules, i)
        invariant forall j :: 0 <= j < i ==> !Matches(p, rules[j].key)
        decreases |rules| - i
      {
        node := node.next;
        i := i + 1;
      }
      found := node;
      assert i < |rules| ==> Entries(rules)[i].key == rules[i].key;
      assert forall j :: 0 <= j < i ==> !Matches(p, Entries(rules)[j].key);
      forall j | 0 <= j < |rules| ensures Matches(p, rules[j].key) <==> Describes(rules[j].key, p) {
        assert Built(Entries(rules)[j].key);
        MatchesExactly(rules[j].key, p);
      }
    }
  }

  function Chain(was: seq<Rule>, rule: Rule, i: nat): (r: seq<Rule>)
    requires i <= |was|
    ensures |r| == |was| + 1
    ensures forall j :: 0 <= j < |r| ==> r[j] == if j < i then was[j] else if j == i then rule else was[j - 1]
  {
    was[..i] + [rule] + was[i..]
  }

  /** One operation; a new rule is numbered `id`. */
  method Step(m: Map, op: Op, id: nat)
    requires m.Valid() && Built(op.key)
    modifies m, m.rules
    ensures m.Valid() && (forall j :: 0 <= j < |m.rules| ==> m.rules[j] in old(m.rules) || fresh(m.rules[j]))
    ensures Entries(m.rules) == match op
                                case Insert(pref, key) => Inserted(old(Entries(m.rules)), Entry(pref, key, id))
                                case Delete(pref, key) => Without(old(Entries(m.rules)), pref, key)
  {
    hide Built, Inserted, Without, Sorted, Distinct, AllBuilt;
    match op {
    case Insert(pref, key) =>
      var rule := new Rule(key, pref, id);
      var _, _ := m.Insert(rule);
    case Delete(pref, key) =>
      var _, _ := m.Delete(key, pref);
    }
  }

  /** Any run of inserts and deletes on the linked list leaves the list of the run. */
  method Apply(ops: seq<Op>) returns (m: Map)
    requires forall i :: 0 <= i < |ops| ==> Built(ops[i].key)
    ensures m.Valid() && Entries(m.rules) == After(ops)
  {
    hide Built, Inserted, Without, Sorted, Distinct, AllBuilt;
    m := new Map();
    assert ops[..0] == [];
    for i := 0 to |ops|
      invariant fresh(m) && m.Valid() && (forall j :: 0 <= j < |m.rules| ==> fresh(m.rules[j]))
      invariant Entries(m.rules) == After(ops[..i])
    {
      assert ops[..i + 1][..i] == ops[..i];
      Step(m, ops[i], i);
    }
    assert ops[..|ops|] == ops;
  }

  /** A lookup behind any run finds the best of the rules for its packet, or that
      there is none. */
  method Replay(ops: seq<Op>, p: Packet) returns (m: Map, found: Rule?)
    requires forall i :: 0 <= i < |ops| ==> Built(ops[i].key)
    ensures m.Valid() && Entries(m.rules) == After(ops)
    ensures var rs := After(ops);
            if found == null then forall j :: 0 <= j < |rs| ==> !Describes(rs[j].key, p)
            else exists i :: BestFor(rs, p, i) && found.ToEntry() == rs[i]
  {
    hide Built, After, Describes, BestFor;
    m := Apply(ops);
    found := m.Get(p);
    LookupIsFor(ops, p);
  }
}
