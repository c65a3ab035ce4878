/** Packet-detection rules: IPv4 keys, how they compare and match, and the rule
    list as a sequence. */
module Pdi {
  datatype Field32 = Field32(val: bv32, valid: bv32)

  datatype Field16 = Field16(val: bv16, valid: bv16)

  datatype Field8 = Field8(val: bv8, valid: bv8)

  /** A port field holds a range or a masked value. */
  datatype Port = Range(min: bv16, max: bv16) | Value(v: Field16)

  datatype Key = Key(dest: Field32, source: Field32, dport: Port, sport: Port,
                     inport: Field16, zone: Field16, protocol: Field8, bd: Field16)

  /** What a lookup is made with: plain values. */
  datatype Packet = Packet(dest: bv32, source: bv32, dport: bv16, sport: bv16,
                           inport: bv16, zone: bv16, protocol: bv8, bd: bv16)

  // ---- the INIT macros ----

  function And32(a: bv32, b: bv32): bv32 { a & b }

  function Init32(val: bv32, valid: bv32): Field32 { Field32(And32(val, valid), valid) }

  function And16(a: bv16, b: bv16): bv16 { a & b }

  function Init16(val: bv16, valid: bv16): Field16 { Field16(And16(val, valid), valid) }

  function And8(a: bv8, b: bv8): bv8 { a & b }

  function Init8(val: bv8, valid: bv8): Field8 { Field8(And8(val, valid), valid) }

  function InitPort(range: bool, a: bv16, b: bv16): Port { if range then Range(a, b) else Value(Init16(a, b)) }

  predicate Within32(val: bv32, mask: bv32) { val == val & mask }

  predicate Within16(val: bv16, mask: bv16) { val == val & mask }

  predicate Within8(val: bv8, mask: bv8) { val == val & mask }

  predicate Plain(p: Port) { p.Value? ==> Within16(p.v.val, p.v.valid) }

  /** A key built by the INIT macros: no value bit outside its mask. */
  predicate Built(k: Key) {
    && Within32(k.dest.val, k.dest.valid) && Within32(k.source.val, k.source.valid)
    && Plain(k.dport) && Plain(k.sport)
    && Within16(k.inport.val, k.inport.valid) && Within16(k.zone.val, k.zone.valid)
    && Within8(k.protocol.val, k.protocol.valid) && Within16(k.bd.val, k.bd.valid)
  }

  lemma Init32Within(val: bv32, mask: bv32)
    ensures Within32(And32(val, mask), mask)
  {
  }

  lemma Init16Within(val: bv16, mask: bv16)
    ensures Within16(And16(val, mask), mask)
  {
  }

  lemma Init8Within(val: bv8, mask: bv8)
    ensures Within8(And8(val, mask), mask)
  {
  }

  lemma InitIsPlain(range: bool, a: bv16, b: bv16)
    ensures Plain(InitPort(range, a, b))
  {
    hide Within16, And16;
    Init16Within(a, b);
  }

  /** A key assembled by the INIT macros is built. */
  lemma InitIsBuilt(dest: (bv32, bv32), source: (bv32, bv32), dport: (bool, bv16, bv16), sport: (bool, bv16, bv16),
                    inport: (bv16, bv16), zone: (bv16, bv16), protocol: (bv8, bv8), bd: (bv16, bv16))
    ensures Built(Key(Init32(dest.0, dest.1), Init32(source.0, source.1), InitPort(dport.0, dport.1, dport.2),
                      InitPort(sport.0, sport.1, sport.2), Init16(inport.0, inport.1), Init16(zone.0, zone.1),
                      Init8(protocol.0, protocol.1), Init16(bd.0, bd.1)))
  {
    hide Within32, Within16, Within8, And32, And16, And8, Plain, InitPort;
    Init32Within(dest.0, dest.1);
    Init32Within(source.0, source.1);
    InitIsPlain(dport.0, dport.1, dport.2);
    InitIsPlain(sport.0, sport.1, sport.2);
    Init16Within(inport.0, inport.1);
    Init16Within(zone.0, zone.1);
    Init8Within(protocol.0, protocol.1);
    Init16Within(bd.0, bd.1);
  }

  // ---- PDI_KEY_EQ ----

  predicate MatchAll32(a: Field32, b: Field32) { b.valid == a.valid && a.val & b.valid == b.val }

  predicate MatchAll16(a: Field16, b: Field16) { b.valid == a.valid && a.val & b.valid == b.val }

  predicate MatchAll8(a: Field8, b: Field8) { b.valid == a.valid && a.val & b.valid == b.val }

  predicate RangeMatchAll(a: Port, b: Port) {
    && a.Range? == b.Range?
    && if b.Range? then a.min == b.min && a.max == b.max else a.v.valid == b.v.valid && a.v.val == b.v.val
  }

  predicate KeyEq(a: Key, b: Key) {
    && MatchAll32(a.dest, b.dest) && MatchAll32(a.source, b.source)
    && RangeMatchAll(a.dport, b.dport) && RangeMatchAll(a.sport, b.sport)
    && MatchAll16(a.inport, b.inport) && MatchAll16(a.zone, b.zone)
    && MatchAll8(a.protocol, b.protocol) && MatchAll16(a.bd, b.bd)
  }

  lemma Same32(a: Field32, b: Field32)
    requires Within32(a.val, a.valid) && Within32(b.val, b.valid)
    ensures MatchAll32(a, b) <==> a == b
  {
  }

  lemma Same16(a: Field16, b: Field16)
    requires Within16(a.val, a.valid) && Within16(b.val, b.valid)
    ensures MatchAll16(a, b) <==> a == b
  {
  }

  lemma Same8(a: Field8, b: Field8)
    requires Within8(a.val, a.valid) && Within8(b.val, b.valid)
    ensures MatchAll8(a, b) <==> a == b
  {
  }

  lemma SamePort(a: Port, b: Port)
    ensures RangeMatchAll(a, b) <==> a == b
  {
  }

  /** The masked comparison is equality on built keys. */
  lemma KeyEqIsEquality(a: Key, b: Key)
    requires Built(a) && Built(b)
    ensures KeyEq(a, b) <==> a == b
  {
    hide MatchAll32, MatchAll16, MatchAll8, RangeMatchAll, Within32, Within16, Within8, Plain;
    Same32(a.dest, b.dest);
    Same32(a.source, b.source);
    SamePort(a.dport, b.dport);
    SamePort(a.sport, b.sport);
    Same16(a.inport, b.inport);
    Same16(a.zone, b.zone);
    Same8(a.protocol, b.protocol);
    Same16(a.bd, b.bd);
  }

  // ---- PDI_PKEY_EQ ----

  predicate Test32(x: bv32, val: bv32, mask: bv32) { mask == 0 || x & mask == val }

  predicate Match32(x: bv32, f: Field32) { Test32(x, f.val, f.valid) }

  predicate Test16(x: bv16, val: bv16, mask: bv16) { mask == 0 || x & mask == val }

  predicate Match16(x: bv16, f: Field16) { Test16(x, f.val, f.valid) }

  predicate Test8(x: bv8, val: bv8, mask: bv8) { mask == 0 || x & mask == val }

  predicate Match8(x: bv8, f: Field8) { Test8(x, f.val, f.valid) }

  predicate RangeMatch(x: bv16, p: Port) { if p.Range? then p.min <= x <= p.max else Match16(x, p.v) }

  predicate Matches(p: Packet, k: Key) {
    && Match32(p.dest, k.dest) && Match32(p.source, k.source)
    && RangeMatch(p.dport, k.dport) && RangeMatch(p.sport, k.sport)
    && Match16(p.inport, k.inport) && Match16(p.zone, k.zone)
    && Match8(p.protocol, k.protocol) && Match16(p.bd, k.bd)
  }

  // ---- what a key matches, bit by bit ----

  predicate OneBit32(b: bv32) { b != 0 && b & (b - 1) == 0 }

  predicate OneBit16(b: bv16) { b != 0 && b & (b - 1) == 0 }

  predicate OneBit8(b: bv8) { b != 0 && b & (b - 1) == 0 }

  /** `x` has the value's bit wherever the mask has one. */
  ghost predicate Agree32(x: bv32, val: bv32, mask: bv32) {
    forall b: bv32 :: OneBit32(b) && b & mask != 0 ==> x & b == val & b
  }

  ghost predicate Agree16(x: bv16, val: bv16, mask: bv16) {
    forall b: bv16 :: OneBit16(b) && b & mask != 0 ==> x & b == val & b
  }

  ghost predicate Agree8(x: bv8, val: bv8, mask: bv8) {
    forall b: bv8 :: OneBit8(b) && b & mask != 0 ==> x & b == val & b
  }

  predicate Between(x: bv16, min: bv16, max: bv16) { min <= x && x <= max }

  ghost predicate AgreePort(x: bv16, p: Port) {
    match p
    case Range(min, max) => Between(x, min, max)
    case Value(v) => Agree16(x, v.val, v.valid)
  }

  /** The packets a rule is for, field by field. */
  ghost predicate Describes(k: Key, p: Packet) {
    && Agree32(p.dest, k.dest.val, k.dest.valid)
    && Agree32(p.source, k.source.val, k.source.valid)
    && AgreePort(p.dport, k.dport)
    && AgreePort(p.sport, k.sport)
    && Agree16(p.inport, k.inport.val, k.inport.valid)
    && Agree16(p.zone, k.zone.val, k.zone.valid)
    && Agree8(p.protocol, k.protocol.val, k.protocol.valid)
    && Agree16(p.bd, k.bd.val, k.bd.valid)
  }

  lemma In32(x: bv32, val: bv32, mask: bv32, b: bv32)
    requires x & mask == val & mask && OneBit32(b) && b & mask != 0
    ensures x & b == val & b
  {
  }

  /** The lowest bit in which two values differ under a mask. */
  lemma Differ32(x: bv32, val: bv32, mask: bv32) returns (b: bv32)
    requires x & mask != val & mask
    ensures OneBit32(b) && b & mask != 0 && x & b != val & b
  {
    var d := (x ^ val) & mask;
    b := d & (0 - d);
  }

  lemma Bits32(x: bv32, val: bv32, mask: bv32)
    ensures Agree32(x, val, mask) <==> And32(x, mask) == And32(val, mask)
  {
    hide OneBit32;
    if x & mask == val & mask {
      forall b: bv32 | OneBit32(b) && b & mask != 0 ensures x & b == val & b {
        In32(x, val, mask, b);
      }
    } else {
      var b := Differ32(x, val, mask);
    }
  }

  /** The test of the macro, for a value within its mask. */
  lemma Mask32(x: bv32, val: bv32, mask: bv32)
    requires val == val & mask
    ensures Test32(x, val, mask) <==> And32(x, mask) == And32(val, mask)
  {
  }

  lemma Test32Exactly(x: bv32, val: bv32, mask: bv32)
    requires Within32(val, mask)
    ensures Test32(x, val, mask) <==> Agree32(x, val, mask)
  {
    hide Agree32, Test32, And32;
    Mask32(x, val, mask);
    Bits32(x, val, mask);
  }

  lemma Init32Agrees(x: bv32, val: bv32, mask: bv32)
    ensures Agree32(x, And32(val, mask), mask) <==> Agree32(x, val, mask)
  {
    hide Agree32, And32;
    Bits32(x, And32(val, mask), mask);
    Bits32(x, val, mask);
    Twice32(val, mask);
  }

  lemma Twice32(val: bv32, mask: bv32)
    ensures And32(And32(val, mask), mask) == And32(val, mask)
  {
  }

  lemma In16(x: bv16, val: bv16, mask: bv16, b: bv16)
    requires x & mask == val & mask && OneBit16(b) && b & mask != 0
    ensures x & b == val & b
  {
  }

  /** The lowest bit in which two values differ under a mask. */
  lemma Differ16(x: bv16, val: bv16, mask: bv16) returns (b: bv16)
    requires x & mask != val & mask
    ensures OneBit16(b) && b & mask != 0 && x & b != val & b
  {
    var d := (x ^ val) & mask;
    b := d & (0 - d);
  }

  lemma Bits16(x: bv16, val: bv16, mask: bv16)
    ensures Agree16(x, val, mask) <==> And16(x, mask) == And16(val, mask)
  {
    hide OneBit16;
    if x & mask == val & mask {
      forall b: bv16 | OneBit16(b) && b & mask != 0 ensures x & b == val & b {
        In16(x, val, mask, b);
      }
    } else {
      var b := Differ16(x, val, mask);
    }
  }

  /** The test of the macro, for a value within its mask. */
  lemma Mask16(x: bv16, val: bv16, mask: bv16)
    requires val == val & mask
    ensures Test16(x, val, mask) <==> And16(x, mask) == And16(val, mask)
  {
  }

  lemma Test16Exactly(x: bv16, val: bv16, mask: bv16)
    requires Within16(val, mask)
    ensures Test16(x, val, mask) <==> Agree16(x, val, mask)
  {
    hide Agree16, Test16, And16;
    Mask16(x, val, mask);
    Bits16(x, val, mask);
  }

  lemma Init16Agrees(x: bv16, val: bv16, mask: bv16)
    ensures Agree16(x, And16(val, mask), mask) <==> Agree16(x, val, mask)
  {
    hide Agree16, And16;
    Bits16(x, And16(val, mask), mask);
    Bits16(x, val, mask);
    Twice16(val, mask);
  }

  lemma Twice16(val: bv16, mask: bv16)
    ensures And16(And16(val, mask), mask) == And16(val, mask)
  {
  }

  lemma In8(x: bv8, val: bv8, mask: bv8, b: bv8)
    requires x & mask == val & mask && OneBit8(b) && b & mask != 0
    ensures x & b == val & b
  {
  }

  /** The lowest bit in which two values differ under a mask. */
  lemma Differ8(x: bv8, val: bv8, mask: bv8) returns (b: bv8)
    requires x & mask != val & mask
    ensures OneBit8(b) && b & mask != 0 && x & b != val & b
  {
    var d := (x ^ val) & mask;
    b := d & (0 - d);
  }

  lemma Bits8(x: bv8, val: bv8, mask: bv8)
    ensures Agree8(x, val, mask) <==> And8(x, mask) == And8(val, mask)
  {
    hide OneBit8;
    if x & mask == val & mask {
      forall b: bv8 | OneBit8(b) && b & mask != 0 ensures x & b == val & b {
        In8(x, val, mask, b);
      }
    } else {
      var b := Differ8(x, val, mask);
    }
  }

  /** The test of the macro, for a value within its mask. */
  lemma Mask8(x: bv8, val: bv8, mask: bv8)
    requires val == val & mask
    ensures Test8(x, val, mask) <==> And8(x, mask) == And8(val, mask)
  {
  }

  lemma Test8Exactly(x: bv8, val: bv8, mask: bv8)
    requires Within8(val, mask)
    ensures Test8(x, val, mask) <==> Agree8(x, val, mask)
  {
    hide Agree8, Test8, And8;
    Mask8(x, val, mask);
    Bits8(x, val, mask);
  }

  lemma Init8Agrees(x: bv8, val: bv8, mask: bv8)
    ensures Agree8(x, And8(val, mask), mask) <==> Agree8(x, val, mask)
  {
    hide Agree8, And8;
    Bits8(x, And8(val, mask), mask);
    Bits8(x, val, mask);
    Twice8(val, mask);
  }

  lemma Twice8(val: bv8, mask: bv8)
    ensures And8(And8(val, mask), mask) == And8(val, mask)
  {
  }

  lemma MatchPort(x: bv16, p: Port)
    requires Plain(p)
    ensures RangeMatch(x, p) <==> AgreePort(x, p)
  {
    hide Agree16, Test16, Within16;
    if p.Value? { Test16Exactly(x, p.v.val, p.v.valid); }
  }

  /** A built key is matched by exactly the packets whose every field agrees with
      its value in each bit of its mask, or lies in its range. */
  lemma MatchesExactly(k: Key, p: Packet)
    requires Built(k)
    ensures Matches(p, k) <==> Describes(k, p)
  {
    hide Agree32, Agree16, Agree8, AgreePort, Test32, Test16, Test8, RangeMatch, Within32, Within16, Within8, Plain;
    Test32Exactly(p.dest, k.dest.val, k.dest.valid);
    Test32Exactly(p.source, k.source.val, k.source.valid);
    MatchPort(p.dport, k.dport);
    MatchPort(p.sport, k.sport);
    Test16Exactly(p.inport, k.inport.val, k.inport.valid);
    Test16Exactly(p.zone, k.zone.val, k.zone.valid);
    Test8Exactly(p.protocol, k.protocol.val, k.protocol.valid);
    Test16Exactly(p.bd, k.bd.val, k.bd.valid);
  }

  /** And the INIT macros lose nothing of what they are given: the value counts
      where the mask has a bit, and a range is its two bounds. */
  lemma InitPortAgrees(x: bv16, range: bool, a: bv16, b: bv16)
    ensures AgreePort(x, InitPort(range, a, b)) <==> if range then Between(x, a, b) else Agree16(x, a, b)
  {
    hide Agree16, And16, Between;
    Init16Agrees(x, a, b);
  }

  /** The packets a key of the INIT macros matches, in terms of their arguments. */
  lemma InitMatches(dest: (bv32, bv32), source: (bv32, bv32), dport: (bool, bv16, bv16), sport: (bool, bv16, bv16),
                    inport: (bv16, bv16), zone: (bv16, bv16), protocol: (bv8, bv8), bd: (bv16, bv16), p: Packet)
    ensures Matches(p, Key(Init32(dest.0, dest.1), Init32(source.0, source.1), InitPort(dport.0, dport.1, dport.2),
                           InitPort(sport.0, sport.1, sport.2), Init16(inport.0, inport.1), Init16(zone.0, zone.1),
                           Init8(protocol.0, protocol.1), Init16(bd.0, bd.1)))
       <==> && Agree32(p.dest, dest.0, dest.1) && Agree32(p.source, source.0, source.1)
            && (if dport.0 then Between(p.dport, dport.1, dport.2) else Agree16(p.dport, dport.1, dport.2))
            && (if sport.0 then Between(p.sport, sport.1, sport.2) else Agree16(p.sport, sport.1, sport.2))
            && Agree16(p.inport, inport.0, inport.1) && Agree16(p.zone, zone.0, zone.1)
            && Agree8(p.protocol, protocol.0, protocol.1) && Agree16(p.bd, bd.0, bd.1)
  {
    hide Agree32, Agree16, Agree8, AgreePort, Matches, InitPort, Built, And32, And16, And8, Between;
    InitIsBuilt(dest, source, dport, sport, inport, zone, protocol, bd);
    MatchesExactly(Key(Init32(dest.0, dest.1), Init32(source.0, source.1), InitPort(dport.0, dport.1, dport.2),
                       InitPort(sport.0, sport.1, sport.2), Init16(inport.0, inport.1), Init16(zone.0, zone.1),
                       Init8(protocol.0, protocol.1), Init16(bd.0, bd.1)), p);
    Init32Agrees(p.dest, dest.0, dest.1);
    Init32Agrees(p.source, source.0, source.1);
    InitPortAgrees(p.dport, dport.0, dport.1, dport.2);
    InitPortAgrees(p.sport, sport.0, sport.1, sport.2);
    Init16Agrees(p.inport, inport.0, inport.1);
    Init16Agrees(p.zone, zone.0, zone.1);
    Init8Agrees(p.protocol, protocol.0, protocol.1);
    Init16Agrees(p.bd, bd.0, bd.1);
  }

  // ---- the rule list ----

  /** A rule; `id` tells rules apart and says which came first. */
  datatype Entry = Entry(pref: nat, key: Key, id: nat)

  ghost predicate Sorted(rs: seq<Entry>) {
    forall i, j :: 0 <= i < j < |rs| ==> rs[i].pref >= rs[j].pref
  }

  predicate SameRule(a: Entry, b: Entry) { a.pref == b.pref && a.key == b.key }

  ghost predicate Distinct(rs: seq<Entry>) {
    forall i, j :: 0 <= i < j < |rs| ==> !SameRule(rs[i], rs[j])
  }

  ghost predicate AllBuilt(rs: seq<Entry>) { forall i :: 0 <= i < |rs| ==> Built(rs[i].key) }

  predicate Has(rs: seq<Entry>, pref: nat, key: Key) {
    exists i :: 0 <= i < |rs| && rs[i].pref == pref && rs[i].key == key
  }

  /** The rules of at least, and of less than, a preference. */
  function Above(rs: seq<Entry>, pref: nat): seq<Entry> {
    if rs == [] then [] else (if rs[0].pref >= pref then [rs[0]] else []) + Above(rs[1..], pref)
  }

  function Below(rs: seq<Entry>, pref: nat): seq<Entry> {
    if rs == [] then [] else (if rs[0].pref < pref then [rs[0]] else []) + Below(rs[1..], pref)
  }

  /** The list without the rule of that preference and key. */
  function Without(rs: seq<Entry>, pref: nat, key: Key): seq<Entry> {
    if rs == [] then [] else
      (if rs[0].pref == pref && rs[0].key == key then [] else [rs[0]]) + Without(rs[1..], pref, key)
  }

  /** Insertion: behind everything preferred as much, and no duplicate. */
  function Inserted(rs: seq<Entry>, e: Entry): seq<Entry> {
    if Has(rs, e.pref, e.key) then rs else Above(rs, e.pref) + [e] + Below(rs, e.pref)
  }

  /** The first rule of the list that matches. */
  function Lookup(rs: seq<Entry>, p: Packet): (i: int)
    ensures -1 <= i < |rs| && (i >= 0 ==> Matches(p, rs[i].key))
    ensures forall j :: 0 <= j < (if i < 0 then |rs| else i) ==> !Matches(p, rs[j].key)
  {
    if rs == [] then -1
    else if Matches(p, rs[0].key) then 0
    else
      var i := Lookup(rs[1..], p);
      assert forall j :: 1 <= j < |rs| ==> rs[j] == rs[1..][j - 1];
      if i < 0 then -1 else i + 1
  }

  /** A sorted list splits where the preference drops below. */
  lemma {:induction false} SplitAt(rs: seq<Entry>, pref: nat, i: nat)
    requires i <= |rs| && (forall j :: 0 <= j < i ==> rs[j].pref >= pref)
    requires forall j :: i <= j < |rs| ==> rs[j].pref < pref
    ensures Above(rs, pref) == rs[..i] && Below(rs, pref) == rs[i..]
  {
    if rs != [] {
      SplitAt(rs[1..], pref, if i == 0 then 0 else i - 1);
      if i > 0 {
        assert rs[..i] == [rs[0]] + rs[1..][..i - 1];
        assert rs[i..] == rs[1..][i - 1..];
      } else {
        assert rs[0..] == [rs[0]] + rs[1..][0..];
      }
    }
  }

  lemma {:induction false} WithoutAt(rs: seq<Entry>, pref: nat, key: Key, i: nat)
    requires i < |rs| && rs[i].pref == pref && rs[i].key == key && Distinct(rs)
    ensures Without(rs, pref, key) == rs[..i] + rs[i + 1..]
  {
    if i == 0 {
      WithoutNone(rs[1..], pref, key);
    } else {
      WithoutAt(rs[1..], pref, key, i - 1);
      assert rs[..i] + rs[i + 1..] == [rs[0]] + (rs[1..][..i - 1] + rs[1..][i..]);
    }
  }

  lemma {:induction false} WithoutNone(rs: seq<Entry>, pref: nat, key: Key)
    requires !Has(rs, pref, key)
    ensures Without(rs, pref, key) == rs
  {
    if rs != [] {
      assert !Has(rs[1..], pref, key) by {
        assert forall j :: 0 <= j < |rs[1..]| ==> rs[1..][j] == rs[j + 1];
      }
      WithoutNone(rs[1..], pref, key);
    }
  }

  /** Where the preference drops below in a sorted list. */
  lemma {:induction false} DropsAt(rs: seq<Entry>, pref: nat) returns (i: nat)
    requires Sorted(rs)
    ensures i <= |rs| && (forall j :: 0 <= j < i ==> rs[j].pref >= pref)
    ensures forall j :: i <= j < |rs| ==> rs[j].pref < pref
  {
    i := 0;
    while i < |rs| && rs[i].pref >= pref
      invariant i <= |rs| && forall j :: 0 <= j < i ==> rs[j].pref >= pref
    {
      i := i + 1;
    }
  }

  // ---- what every operation keeps ----

  /** Sorted by preference, and by arrival among equals; no duplicates. */
  ghost predicate Ordered(rs: seq<Entry>) {
    && Distinct(rs)
    && forall i, j :: 0 <= i < j < |rs| ==> rs[i].pref > rs[j].pref || (rs[i].pref == rs[j].pref && rs[i].id < rs[j].id)
  }

  lemma InsertKeeps(rs: seq<Entry>, e: Entry)
    requires Ordered(rs) && forall i :: 0 <= i < |rs| ==> rs[i].id < e.id
    ensures Ordered(Inserted(rs, e)) && forall i :: 0 <= i < |Inserted(rs, e)| ==> Inserted(rs, e)[i].id <= e.id
  {
    if !Has(rs, e.pref, e.key) {
      var i := DropsAt(rs, e.pref);
      SplitAt(rs, e.pref, i);
      Spliced(rs, e, i);
    }
  }

  lemma Spliced(rs: seq<Entry>, e: Entry, i: nat)
    requires Ordered(rs) && !Has(rs, e.pref, e.key) && i <= |rs| && (forall j :: 0 <= j < |rs| ==> rs[j].id < e.id)
    requires (forall j :: 0 <= j < i ==> rs[j].pref >= e.pref) && forall j :: i <= j < |rs| ==> rs[j].pref < e.pref
    ensures Ordered(rs[..i] + [e] + rs[i..])
  {
    var all := rs[..i] + [e] + rs[i..];
    assert forall j :: 0 <= j < |all| ==> all[j] == if j < i then rs[j] else if j == i then e else rs[j - 1];
  }

  lemma Refused(rs: seq<Entry>, e: Entry, i: nat)
    requires i < |rs| && SameRule(rs[i], e)
    ensures Has(rs, e.pref, e.key) && Inserted(rs, e) == rs
  {
  }

  lemma BuiltSplice(rs: seq<Entry>, e: Entry, i: nat)
    requires AllBuilt(rs) && Built(e.key) && Fits(rs, e, i)
    ensures AllBuilt(Splice(rs, e, i)) && i <= |rs|
  {
    hide Built;
  }

  lemma HasAt(rs: seq<Entry>, i: nat)
    requires i < |rs|
    ensures Has(rs, rs[i].pref, rs[i].key)
  {
  }

  lemma CutKeeps(rs: seq<Entry>, i: nat)
    requires i < |rs| && Sorted(rs) && Distinct(rs) && AllBuilt(rs)
    ensures var all := rs[..i] + rs[i + 1..]; Sorted(all) && Distinct(all) && AllBuilt(all)
  {
    hide Built;
    var all := rs[..i] + rs[i + 1..];
    assert forall j :: 0 <= j < |all| ==> all[j] == if j < i then rs[j] else rs[j + 1];
  }

  lemma Cut(rs: seq<Entry>, i: nat)
    requires Ordered(rs) && i < |rs|
    ensures Ordered(rs[..i] + rs[i + 1..])
  {
    var all := rs[..i] + rs[i + 1..];
    assert forall j :: 0 <= j < |all| ==> all[j] == if j < i then rs[j] else rs[j + 1];
  }

  /** `rs` with `e` put in at `i`. */
  function Splice(rs: seq<Entry>, e: Entry, i: nat): (r: seq<Entry>)
    requires i <= |rs|
    ensures |r| == |rs| + 1
    ensures forall j :: 0 <= j < |r| ==> r[j] == if j < i then rs[j] else if j == i then e else rs[j - 1]
  {
    rs[..i] + [e] + rs[i..]
  }

  /** The place a walk over a sorted list without duplicates stops at. */
  ghost predicate Fits(rs: seq<Entry>, e: Entry, i: nat) {
    && i <= |rs| && (i < |rs| ==> rs[i].pref < e.pref)
    && forall j :: 0 <= j < i ==> rs[j].pref >= e.pref && !SameRule(rs[j], e)
  }

  lemma FitsNew(rs: seq<Entry>, e: Entry, i: nat)
    requires Sorted(rs) && Fits(rs, e, i)
    ensures !Has(rs, e.pref, e.key) && Inserted(rs, e) == Splice(rs, e, i)
  {
    assert forall j :: i <= j < |rs| ==> rs[j].pref <= rs[i].pref;
    assert forall j :: 0 <= j < |rs| ==> !SameRule(rs[j], e);
    SplitAt(rs, e.pref, i);
  }

  lemma FitsSorted(rs: seq<Entry>, e: Entry, i: nat)
    requires Sorted(rs) && Fits(rs, e, i)
    ensures Sorted(Splice(rs, e, i))
  {
    assert forall j :: i <= j < |rs| ==> rs[j].pref <= rs[i].pref;
  }

  lemma FitsDistinct(rs: seq<Entry>, e: Entry, i: nat)
    requires Sorted(rs) && Distinct(rs) && Fits(rs, e, i)
    ensures Distinct(Splice(rs, e, i))
  {
    var all := Splice(rs, e, i);
    assert forall j :: i <= j < |rs| ==> rs[j].pref <= rs[i].pref;
    forall j, k | 0 <= j < k < |all| ensures !SameRule(all[j], all[k]) {
      if j != i && k != i {
        assert !SameRule(rs[if j < i then j else j - 1], rs[if k < i then k else k - 1]);
      }
    }
  }

  lemma DeleteKeeps(rs: seq<Entry>, pref: nat, key: Key)
    requires Ordered(rs)
    ensures Ordered(Without(rs, pref, key))
    ensures forall e :: e in Without(rs, pref, key) ==> e in rs
  {
    hide Without;
    if Has(rs, pref, key) {
      var i :| 0 <= i < |rs| && rs[i].pref == pref && rs[i].key == key;
      WithoutAt(rs, pref, key, i);
      Cut(rs, i);
    } else {
      WithoutNone(rs, pref, key);
    }
  }

  /** UNDO. Deleting a rule that was just inserted gives the list back. */
  lemma DeleteUndoesInsert(rs: seq<Entry>, e: Entry)
    requires Ordered(rs) && !Has(rs, e.pref, e.key) && forall i :: 0 <= i < |rs| ==> rs[i].id < e.id
    ensures Without(Inserted(rs, e), e.pref, e.key) == rs
  {
    var i := DropsAt(rs, e.pref);
    SplitAt(rs, e.pref, i);
    Spliced(rs, e, i);
    var all := rs[..i] + [e] + rs[i..];
    assert all[i] == e;
    WithoutAt(all, e.pref, e.key, i);
    assert all[..i] + all[i + 1..] == rs;
  }

  /** And a second insertion of the same rule changes nothing. */
  lemma InsertIsIdempotent(rs: seq<Entry>, e: Entry, id: nat)
    ensures Inserted(Inserted(rs, e), e.(id := id)) == Inserted(rs, e)
  {
    hide Above, Below;
    if !Has(rs, e.pref, e.key) {
      assert Inserted(rs, e)[|Above(rs, e.pref)|] == e;
    }
  }

  // ---- runs ----

  datatype Op = Insert(pref: nat, key: Key) | Delete(pref: nat, key: Key)

  /** The list after a run; a rule is numbered by the operation that made it. */
  function After(ops: seq<Op>): seq<Entry> {
    if ops == [] then [] else
      var rs := After(ops[..|ops| - 1]);
      match ops[|ops| - 1]
      case Insert(pref, key) => Inserted(rs, Entry(pref, key, |ops| - 1))
      case Delete(pref, key) => Without(rs, pref, key)
  }

  lemma {:induction false} RunOrdered(ops: seq<Op>)
    ensures Ordered(After(ops)) && forall i :: 0 <= i < |After(ops)| ==> After(ops)[i].id < |ops|
  {
    if ops != [] {
      var before := ops[..|ops| - 1];
      RunOrdered(before);
      var rs := After(before);
      match ops[|ops| - 1]
      case Insert(pref, key) => InsertKeeps(rs, Entry(pref, key, |ops| - 1));
      case Delete(pref, key) =>
        DeleteKeeps(rs, pref, key);
        var now := Without(rs, pref, key);
        forall i | 0 <= i < |now| ensures now[i].id < |ops| {
          assert now[i] in rs;
        }
    }
  }

  /** FIRST MATCH IS BEST MATCH. After any run, lookup finds a rule if and only if
      one matches, and then the matching rule of highest preference, the one
      inserted first among equals. */
  lemma LookupIsBest(ops: seq<Op>, p: Packet, j: nat)
    requires j < |After(ops)| && Matches(p, After(ops)[j].key)
    ensures var i := Lookup(After(ops), p);
            var rs := After(ops);
            && i >= 0
            && (j == i || rs[i].pref > rs[j].pref || (rs[i].pref == rs[j].pref && rs[i].id < rs[j].id))
  {
    RunOrdered(ops);
  }

  lemma {:induction false} RunBuilt(ops: seq<Op>)
    requires forall i :: 0 <= i < |ops| ==> Built(ops[i].key)
    ensures AllBuilt(After(ops))
  {
    hide Built, Inserted, Without, Ordered;
    if ops != [] {
      var before := ops[..|ops| - 1];
      RunBuilt(before);
      RunOrdered(before);
      var rs := After(before);
      match ops[|ops| - 1]
      case Insert(pref, key) => InsertBuilt(rs, Entry(pref, key, |ops| - 1));
      case Delete(pref, key) => DeleteBuilt(rs, pref, key);
    }
  }

  lemma InsertBuilt(rs: seq<Entry>, e: Entry)
    requires Ordered(rs) && AllBuilt(rs) && Built(e.key)
    ensures AllBuilt(Inserted(rs, e))
  {
    hide Built, Above, Below;
    if !Has(rs, e.pref, e.key) {
      var i := DropsAt(rs, e.pref);
      SplitAt(rs, e.pref, i);
    }
  }

  lemma DeleteBuilt(rs: seq<Entry>, pref: nat, key: Key)
    requires Ordered(rs) && AllBuilt(rs)
    ensures AllBuilt(Without(rs, pref, key))
  {
    hide Built, Without, Ordered;
    DeleteKeeps(rs, pref, key);
    var now := Without(rs, pref, key);
    forall i | 0 <= i < |now| ensures Built(now[i].key) {
      assert now[i] in rs;
    }
  }

  /** The best rule among those for this packet, by preference and then by arrival. */
  ghost predicate BestFor(rs: seq<Entry>, p: Packet, i: int) {
    && 0 <= i < |rs| && Describes(rs[i].key, p)
    && forall j :: 0 <= j < |rs| && j != i && Describes(rs[j].key, p) ==>
         rs[i].pref > rs[j].pref || (rs[i].pref == rs[j].pref && rs[i].id < rs[j].id)
  }

  /** THE RULE FOR A PACKET. After any run over keys of the INIT macros, lookup
      finds the best of the rules that describe the packet, or that there is none. */
  lemma LookupIsFor(ops: seq<Op>, p: Packet)
    requires forall i :: 0 <= i < |ops| ==> Built(ops[i].key)
    ensures var rs := After(ops); var i := Lookup(rs, p);
            if i < 0 then forall j :: 0 <= j < |rs| ==> !Describes(rs[j].key, p) else BestFor(rs, p, i)
  {
    hide Matches, Describes, Built;
    RunBuilt(ops);
    RunOrdered(ops);
    var rs := After(ops);
    forall j | 0 <= j < |rs| ensures Matches(p, rs[j].key) <==> Describes(rs[j].key, p) {
      MatchesExactly(rs[j].key, p);
    }
  }
}
