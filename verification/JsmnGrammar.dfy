/** JSON texts as a grammar of their own (RFC 8259, with the parser's idea of a
    primitive), and the tokens jsmn makes of them. */
module JsmnGrammar {
  import opened Bytes
  import opened JsmnSpec
  import opened JsmnTokens
  import opened JsmnParser

  /** A character of a string: itself, an escape, or four hexadecimal digits. */
  datatype Piece = Plain(b: byte) | Escaped(c: byte) | Unicode(h0: byte, h1: byte, h2: byte, h3: byte)

  /** A value; white space is kept where it stands. */
  datatype Json =
    | Str(body: seq<Piece>)
    | Prim(text: seq<byte>)
    | Arr(items: Items, ws: seq<byte>)
    | Obj(members: Members, ws: seq<byte>)

  datatype Items = NoItem | Item(before: seq<byte>, value: Json, after: seq<byte>, rest: Items)

  datatype Members =
    | NoMember
    | Member(before: seq<byte>, key: seq<Piece>, mid: seq<byte>, gap: seq<byte>, value: Json, after: seq<byte>, rest: Members)

  // ---- what is well formed ----

  /** White space, section 2 of RFC 8259. */
  predicate Blank(b: byte) { b as char in " \t\n\r" }

  /** What may follow a backslash, section 7, but for the four digits of a `u`. */
  predicate Escapable(b: byte) { b as char in "\"\\/bfnrt" }

  predicate Digit16(b: byte) { b as char in "0123456789abcdefABCDEF" }

  /** An octet of a number, a literal, or whatever else is read as a primitive. */
  predicate Bare(b: byte) { 32 < b < 127 && b as char !in ",:]}" }

  predicate PieceOk(p: Piece) {
    match p
    case Plain(b) => b as char != '"' && b as char != '\\' && b != 0
    case Escaped(c) => Escapable(c)
    case Unicode(a, b, c, d) => Digit16(a) && Digit16(b) && Digit16(c) && Digit16(d)
  }

  predicate PiecesOk(ps: seq<Piece>) { forall i :: 0 <= i < |ps| ==> PieceOk(ps[i]) }

  predicate Space(ws: seq<byte>) { forall i :: 0 <= i < |ws| ==> Blank(ws[i]) }

  predicate PrimOk(text: seq<byte>) {
    && text != [] && text[0] as char !in "\"{[" && forall i :: 0 <= i < |text| ==> Bare(text[i])
  }

  /** THE OCTETS ARE JSON'S. What the parser tests for, octet by octet. */
  lemma SpaceIs(b: byte)
    ensures IsSpace(b) <==> Blank(b)
  {
  }

  lemma EscapesIs(b: byte)
    ensures Escapes(b) <==> Escapable(b)
  {
  }

  lemma HexIs(b: byte)
    ensures IsHex(b) <==> Digit16(b)
  {
  }

  lemma BareIs(b: byte)
    ensures !Ends(b) && !Unprintable(b) <==> Bare(b)
    ensures b == QUOTE || Opens(b) <==> b as char in "\"{["
    ensures b == BACKSLASH <==> b as char == '\\'
    ensures Closes(b) <==> b as char in "}]"
    ensures Ends(b) <==> Blank(b) || b as char in ",:]}"
  {
  }

  /** The marks of the grammar, and which bracket is which. */
  lemma Marks()
    ensures QUOTE as char == '"' && BACKSLASH as char == '\\' && COMMA as char == ',' && COLON as char == ':'
    ensures OPEN_ARRAY as char == '[' && CLOSE_ARRAY as char == ']' && OPEN_OBJECT as char == '{'
    ensures CLOSE_OBJECT as char == '}' && LOWER_U as char == 'u'
    ensures Bracket(OPEN_ARRAY) == Bracket(CLOSE_ARRAY) == Array && Bracket(OPEN_OBJECT) == Bracket(CLOSE_OBJECT) == Object
  {
  }

  predicate JsonOk(v: Json) {
    match v
    case Str(body) => PiecesOk(body)
    case Prim(text) => PrimOk(text)
    case Arr(items, ws) => ItemsOk(items) && Space(ws)
    case Obj(members, ws) => MembersOk(members) && Space(ws)
  }

  predicate ItemsOk(items: Items) {
    items.Item? ==> Space(items.before) && JsonOk(items.value) && Space(items.after) && ItemsOk(items.rest)
  }

  predicate MembersOk(ms: Members) {
    ms.Member? ==>
      && Space(ms.before) && PiecesOk(ms.key) && Space(ms.mid) && Space(ms.gap)
      && JsonOk(ms.value) && Space(ms.after) && MembersOk(ms.rest)
  }

  // ---- text ----

  function PieceText(p: Piece): seq<byte> {
    match p
    case Plain(b) => [b]
    case Escaped(c) => [BACKSLASH, c]
    case Unicode(a, b, c, d) => [BACKSLASH, LOWER_U, a, b, c, d]
  }

  function PiecesText(ps: seq<Piece>): seq<byte> {
    if ps == [] then [] else PieceText(ps[0]) + PiecesText(ps[1..])
  }

  function Quoted(ps: seq<Piece>): seq<byte> { [QUOTE] + (PiecesText(ps) + [QUOTE]) }

  function Text(v: Json): seq<byte> {
    match v
    case Str(body) => Quoted(body)
    case Prim(text) => text
    case Arr(items, ws) => [OPEN_ARRAY] + (ItemsText(items) + (ws + [CLOSE_ARRAY]))
    case Obj(members, ws) => [OPEN_OBJECT] + (MembersText(members) + (ws + [CLOSE_OBJECT]))
  }

  function ItemsText(items: Items): seq<byte> {
    match items
    case NoItem => []
    case Item(before, value, after, rest) =>
      before + (Text(value) + (after + if rest.NoItem? then [] else [COMMA] + ItemsText(rest)))
  }

  function MembersText(ms: Members): seq<byte> {
    match ms
    case NoMember => []
    case Member(before, key, mid, gap, value, after, rest) =>
      before + (Quoted(key) + (mid + ([COLON] + (gap + (Text(value) + (after +
        if rest.NoMember? then [] else [COMMA] + MembersText(rest)))))))
  }

  // ---- the tokens of a value, in preorder ----

  predicate Bracketed(v: Json) { v.Arr? || v.Obj? }

  function KindsOf(v: Json): (ks: seq<Type>)
    ensures ks != []
  {
    match v
    case Str(_) => [String]
    case Prim(_) => [Primitive]
    case Arr(items, _) => [Array] + ItemKinds(items)
    case Obj(members, _) => [Object] + MemberKinds(members)
  }

  function ItemKinds(items: Items): seq<Type> {
    if items.NoItem? then [] else KindsOf(items.value) + ItemKinds(items.rest)
  }

  /** A key is a token too, before its value. */
  function MemberKinds(ms: Members): seq<Type> {
    if ms.NoMember? then [] else [String] + (KindsOf(ms.value) + MemberKinds(ms.rest))
  }

  /** Where the tokens lie when the text begins at `p`. */
  function PlacesOf(v: Json, p: nat): (ps: seq<Place>)
    ensures |ps| == |KindsOf(v)|
  {
    match v
    case Str(body) => [Place(p + 1, p + 1 + |PiecesText(body)|)]
    case Prim(text) => [Place(p, p + |text|)]
    case Arr(items, _) => [Place(p, p + |Text(v)|)] + ItemPlaces(items, p + 1)
    case Obj(members, _) => [Place(p, p + |Text(v)|)] + MemberPlaces(members, p + 1)
  }

  function ItemPlaces(items: Items, p: nat): (ps: seq<Place>)
    ensures |ps| == |ItemKinds(items)|
  {
    if items.NoItem? then [] else
      var q := p + |items.before|;
      PlacesOf(items.value, q) + ItemPlaces(items.rest, q + |Text(items.value)| + |items.after| + 1)
  }

  /** Where a member's value begins. */
  function ValueAt(ms: Members, p: nat): nat
    requires ms.Member?
  {
    p + |ms.before| + |Quoted(ms.key)| + |ms.mid| + 1 + |ms.gap|
  }

  function MemberPlaces(ms: Members, p: nat): (ps: seq<Place>)
    ensures |ps| == |MemberKinds(ms)|
  {
    if ms.NoMember? then [] else
      var k, q := p + |ms.before| + 1, ValueAt(ms, p);
      [Place(k, k + |PiecesText(ms.key)|)] +
      (PlacesOf(ms.value, q) + MemberPlaces(ms.rest, q + |Text(ms.value)| + |ms.after| + 1))
  }

  /** The parents, when the value is token `base` under `parent`. */
  function ParentsOf(v: Json, base: nat, parent: int): (ps: seq<int>)
    ensures |ps| == |KindsOf(v)|
  {
    match v
    case Arr(items, _) => [parent] + ItemParents(items, base + 1, base)
    case Obj(members, _) => [parent] + MemberParents(members, base + 1, base)
    case _ => [parent]
  }

  function ItemParents(items: Items, base: nat, arr: nat): (ps: seq<int>)
    ensures |ps| == |ItemKinds(items)|
  {
    if items.NoItem? then [] else
      ParentsOf(items.value, base, arr) + ItemParents(items.rest, base + |KindsOf(items.value)|, arr)
  }

  /** A key's parent is its object, a value's parent is its key. */
  function MemberParents(ms: Members, base: nat, obj: nat): (ps: seq<int>)
    ensures |ps| == |MemberKinds(ms)|
  {
    if ms.NoMember? then [] else
      [obj] + (ParentsOf(ms.value, base + 1, base) + MemberParents(ms.rest, base + 1 + |KindsOf(ms.value)|, obj))
  }

  /** How many children each token has. */
  function SizesOf(v: Json): (ns: seq<nat>)
    ensures |ns| == |KindsOf(v)|
  {
    match v
    case Arr(items, _) => [ItemCount(items)] + ItemSizes(items)
    case Obj(members, _) => [MemberCount(members)] + MemberSizes(members)
    case _ => [0]
  }

  function ItemCount(items: Items): nat { if items.NoItem? then 0 else 1 + ItemCount(items.rest) }

  function MemberCount(ms: Members): nat { if ms.NoMember? then 0 else 1 + MemberCount(ms.rest) }

  function ItemSizes(items: Items): (ns: seq<nat>)
    ensures |ns| == |ItemKinds(items)|
  {
    if items.NoItem? then [] else SizesOf(items.value) + ItemSizes(items.rest)
  }

  function MemberSizes(ms: Members): (ns: seq<nat>)
    ensures |ns| == |MemberKinds(ms)|
  {
    if ms.NoMember? then [] else [1] + (SizesOf(ms.value) + MemberSizes(ms.rest))
  }

  // ---- reading a piece of text ----

  /** What follows a value: the end of the text, or a byte that ends a primitive. */
  predicate Fenced(js: seq<byte>, p: nat) { Stops(js, p) || Ends(js[p]) }

  lemma {:induction false} SkipSpace(js: seq<byte>, p: nat, ws: seq<byte>, t: Tree, cap: nat)
    requires HasAt(js, p, ws) && Space(ws)
    ensures Run(js, p, t, cap) == Run(js, p + |ws|, t, cap)
    decreases |ws|
  {
    if ws != [] {
      Octet(js, p, ws, 0);
      SpaceIs(ws[0]);
      assert ws == ws[..1] + ws[1..];
      HasBoth(js, p, ws[..1], ws[1..]);
      SkipSpace(js, p + 1, ws[1..], t, cap);
    }
  }

  /** White space, or what comes when there is none, fences a value off. */
  lemma SpaceFences(js: seq<byte>, p: nat, ws: seq<byte>)
    requires HasAt(js, p, ws) && Space(ws) && Fenced(js, p + |ws|)
    ensures Fenced(js, p)
  {
    if ws != [] {
      Octet(js, p, ws, 0);
      SpaceIs(ws[0]);
    }
  }

  lemma {:induction false} StringAt(js: seq<byte>, p: nat, ps: seq<Piece>)
    requires PiecesOk(ps) && HasAt(js, p, PiecesText(ps) + [QUOTE])
    ensures StringEnd(js, p) == At(p + |PiecesText(ps)|)
    decreases |ps|
  {
    if ps == [] {
      Octet(js, p, PiecesText(ps) + [QUOTE], 0);
    } else {
      var one, more := PieceText(ps[0]), PiecesText(ps[1..]) + [QUOTE];
      assert PiecesText(ps) + [QUOTE] == one + more;
      HasBoth(js, p, one, more);
      StringAt(js, p + |one|, ps[1..]);
      PieceAt(js, p, ps[0]);
    }
  }

  lemma PieceAt(js: seq<byte>, p: nat, x: Piece)
    requires PieceOk(x) && HasAt(js, p, PieceText(x))
    ensures StringEnd(js, p) == StringEnd(js, p + |PieceText(x)|)
  {
    var t := PieceText(x);
    assert js[p..p + |t|] == t;
    assert js[p] == t[0];
    if x.Escaped? {
      EscapesIs(x.c);
      assert js[p + 1] == t[1];
    } else if x.Unicode? {
      HexIs(x.h0);
      HexIs(x.h1);
      HexIs(x.h2);
      HexIs(x.h3);
      assert js[p + 1] == t[1] && js[p + 2] == t[2] && js[p + 3] == t[3] && js[p + 4] == t[4] && js[p + 5] == t[5];
      assert HexRun(js, p + 5, 1) == At(p + 6);
      assert HexRun(js, p + 4, 2) == At(p + 6);
      assert HexRun(js, p + 3, 3) == At(p + 6);
    }
  }

  lemma ValueStep(js: seq<byte>, p: nat, t: Tree, cap: nat)
    requires p < |js| && js[p] != 0 && !Opens(js[p]) && !Ends(js[p]) && After(js, p).At? && |t.kinds| < cap
    ensures var q := After(js, p).q;
      Run(js, p, t, cap) == Run(js, q, Grow(t, ValueKind(js[p]), ValuePlace(js[p], p, q)), cap)
  {
    hide StringEnd, PrimitiveEnd;
  }

  lemma ReadString(js: seq<byte>, p: nat, ps: seq<Piece>, t: Tree, cap: nat)
    requires PiecesOk(ps) && HasAt(js, p, Quoted(ps)) && |t.kinds| < cap
    ensures var u := Grow(t, String, Place(p + 1, p + 1 + |PiecesText(ps)|));
      Run(js, p, t, cap) == Run(js, p + |Quoted(ps)|, u, cap)
  {
    hide Run, PiecesText;
    Octet(js, p, Quoted(ps), 0);
    HasBoth(js, p, [QUOTE], PiecesText(ps) + [QUOTE]);
    StringAt(js, p + 1, ps);
    ValueStep(js, p, t, cap);
  }

  lemma {:induction false} PrimitiveAt(js: seq<byte>, p: nat, text: seq<byte>)
    requires HasAt(js, p, text) && Fenced(js, p + |text|)
    requires forall i :: 0 <= i < |text| ==> Bare(text[i])
    ensures PrimitiveEnd(js, p) == At(p + |text|)
    decreases |text|
  {
    if text != [] {
      Octet(js, p, text, 0);
      BareIs(text[0]);
      assert text == text[..1] + text[1..];
      HasBoth(js, p, text[..1], text[1..]);
      PrimitiveAt(js, p + 1, text[1..]);
    }
  }

  lemma ReadPrimitive(js: seq<byte>, p: nat, text: seq<byte>, t: Tree, cap: nat)
    requires PrimOk(text) && HasAt(js, p, text) && Fenced(js, p + |text|) && |t.kinds| < cap
    ensures Run(js, p, t, cap) == Run(js, p + |text|, Grow(t, Primitive, Place(p, p + |text|)), cap)
  {
    hide Run;
    Octet(js, p, text, 0);
    BareIs(text[0]);
    PrimitiveAt(js, p, text);
    ValueStep(js, p, t, cap);
  }

  // ---- reading a value ----

  /** The tree after a value read at `p`. */
  function Read(t: Tree, v: Json, p: nat): Tree {
    Tree(t.kinds + KindsOf(v), t.places + PlacesOf(v, p), t.parents + ParentsOf(v, |t.kinds|, t.super),
         t.stack, if Bracketed(v) then Top(t.stack) else t.super)
  }

  /** The tree after the items of the array that is open. */
  function ReadItems(t: Tree, items: Items, p: nat): Tree
    requires t.super >= 0
  {
    Tree(t.kinds + ItemKinds(items), t.places + ItemPlaces(items, p),
         t.parents + ItemParents(items, |t.kinds|, t.super), t.stack, t.super)
  }

  /** After the members the superior token may still be the last key. */
  function LastSuper(ms: Members, base: nat, obj: nat): nat {
    if ms.NoMember? then obj
    else if ms.rest.NoMember? then if Bracketed(ms.value) then obj else base
    else LastSuper(ms.rest, base + 1 + |KindsOf(ms.value)|, obj)
  }

  function ReadMembers(t: Tree, ms: Members, p: nat): Tree
    requires t.super >= 0
  {
    Tree(t.kinds + MemberKinds(ms), t.places + MemberPlaces(ms, p),
         t.parents + MemberParents(ms, |t.kinds|, t.super), t.stack, LastSuper(ms, |t.kinds|, t.super))
  }

  /** Inside an open bracket, which is the superior token. */
  ghost predicate Inside(t: Tree) {
    && t.stack != [] && t.super == Top(t.stack) && 0 <= t.super < |t.kinds|
    && IsContainer(t.kinds[t.super]) && |t.places| == |t.kinds|
  }

  lemma OpenStep(js: seq<byte>, p: nat, t: Tree, cap: nat)
    requires p < |js| && Opens(js[p]) && |t.kinds| < cap && |t.places| == |t.kinds|
    ensures Run(js, p, t, cap) == Run(js, p + 1, Opened(t, Bracket(js[p]), p), cap)
    ensures Inside(Opened(t, Bracket(js[p]), p))
  {
  }

  /** Closing the bracket that was opened at `from` before `u` was read. */
  lemma CloseStep(js: seq<byte>, p: nat, ws: seq<byte>, t: Tree, kind: Type, from: nat, u: Tree, cap: nat)
    requires HasAt(js, p, ws) && Space(ws) && p + |ws| < |js| && |t.places| == |t.kinds|
    requires Closes(js[p + |ws|]) && Bracket(js[p + |ws|]) == kind
    requires u.stack == t.stack + [|t.kinds|] && t.kinds + [kind] <= u.kinds
    requires t.places + [Place(from, -1)] <= u.places
    ensures var q := p + |ws| + 1;
      var done := Tree(u.kinds, u.places[|t.kinds| := Place(from, q)], u.parents, t.stack, Top(t.stack));
      Run(js, p, u, cap) == Run(js, q, done, cap)
  {
    SkipSpace(js, p, ws, u, cap);
    var n := |t.kinds|;
    assert u.kinds[n] == (t.kinds + [kind])[n];
    assert u.places[n] == (t.places + [Place(from, -1)])[n];
    assert u.stack[..|u.stack| - 1] == t.stack;
  }

  lemma ItemParts(js: seq<byte>, e: nat, items: Items)
    requires items.Item? && ItemsOk(items)
    ensures Space(items.before) && Space(items.after) && JsonOk(items.value) && ItemsOk(items.rest)
    ensures e < |js| && js[e] == COMMA ==> Fenced(js, e)
  {
  }

  /** Where the parts of an item lie. */
  lemma ItemAt(js: seq<byte>, p: nat, items: Items)
    requires items.Item? && ItemsOk(items) && HasAt(js, p, ItemsText(items)) && Fenced(js, p + |ItemsText(items)|)
    ensures var q := p + |items.before|; var r := q + |Text(items.value)|; var e := r + |items.after|;
      && HasAt(js, p, items.before) && HasAt(js, q, Text(items.value)) && Fenced(js, r) && HasAt(js, r, items.after)
      && (items.rest.NoItem? ==> e == p + |ItemsText(items)|)
      && (items.rest.Item? ==>
            && e < |js| && js[e] == COMMA && HasAt(js, e + 1, ItemsText(items.rest))
            && e + 1 + |ItemsText(items.rest)| == p + |ItemsText(items)|)
  {
    hide HasAt, Text, JsonOk, ItemsOk, Ends, Stops;
    var q := p + |items.before|;
    var r := q + |Text(items.value)|;
    var e := r + |items.after|;
    var tail := if items.rest.NoItem? then [] else [COMMA] + ItemsText(items.rest);
    HasBoth(js, p, items.before, Text(items.value) + (items.after + tail));
    HasBoth(js, q, Text(items.value), items.after + tail);
    HasBoth(js, r, items.after, tail);
    if items.rest.Item? {
      Octet(js, e, tail, 0);
      HasBoth(js, e, [COMMA], ItemsText(items.rest));
    }
    assert Fenced(js, e) && Space(items.after) by { ItemParts(js, e, items); }
    SpaceFences(js, r, items.after);
  }

  lemma ItemThenRest(t: Tree, items: Items, p: nat)
    requires items.Item? && t.super >= 0 && t.super == Top(t.stack)
    ensures var q := p + |items.before|; var u := Read(t, items.value, q);
      && u.super == t.super
      && ReadItems(t, items, p) == ReadItems(u, items.rest, q + |Text(items.value)| + |items.after| + 1)
  {
    var q := p + |items.before|;
    var e := q + |Text(items.value)| + |items.after| + 1;
    var m := |t.kinds| + |KindsOf(items.value)|;
    Associates(t.kinds, KindsOf(items.value), ItemKinds(items.rest));
    Associates(t.places, PlacesOf(items.value, q), ItemPlaces(items.rest, e));
    Associates(t.parents, ParentsOf(items.value, |t.kinds|, t.super), ItemParents(items.rest, m, t.super));
  }

  lemma Associates<T>(a: seq<T>, b: seq<T>, c: seq<T>)
    ensures a + b + c == a + (b + c)
  {
  }

  lemma NoItems(t: Tree, items: Items, p: nat)
    requires items.NoItem? && t.super >= 0
    ensures ReadItems(t, items, p) == t
  {
    assert t.kinds + [] == t.kinds && t.places + [] == t.places && t.parents + [] == t.parents;
  }

  lemma InsideStill(t: Tree, v: Json, p: nat)
    requires Inside(t)
    ensures Inside(Read(t, v, p)) && Separated(Read(t, v, p)) == Read(t, v, p)
  {
    assert Read(t, v, p).kinds[t.super] == t.kinds[t.super];
  }

  lemma CommaStep(js: seq<byte>, p: nat, t: Tree, cap: nat)
    requires p < |js| && js[p] == COMMA
    ensures Run(js, p, t, cap) == Run(js, p + 1, Separated(t), cap)
  {
  }

  lemma {:induction false} ReadsItems(js: seq<byte>, p: nat, items: Items, t: Tree, cap: nat)
    requires ItemsOk(items) && HasAt(js, p, ItemsText(items)) && Fenced(js, p + |ItemsText(items)|)
    requires Inside(t) && |t.kinds| + |ItemKinds(items)| <= cap
    ensures Run(js, p, t, cap) == Run(js, p + |ItemsText(items)|, ReadItems(t, items, p), cap)
    decreases items
  {
    hide Run, Separated, Read, ReadItems, HasAt, Text, ItemsText, PlacesOf, ParentsOf;
    if items.NoItem? {
      NoItems(t, items, p);
      assert |ItemsText(items)| == 0 by { NothingToRead(items); }
    } else {
      var q := p + |items.before|;
      var r := q + |Text(items.value)|;
      var e := r + |items.after|;
      var u := Read(t, items.value, q);
      ItemAt(js, p, items);
      SkipSpace(js, p, items.before, t, cap);
      ReadsValue(js, q, items.value, t, cap);
      SkipSpace(js, r, items.after, u, cap);
      InsideStill(t, items.value, q);
      ItemThenRest(t, items, p);
      assert |u.kinds| == |t.kinds| + |KindsOf(items.value)| by { ReadAdds(t, items.value, q); }
      if items.rest.Item? {
        CommaStep(js, e, u, cap);
        ReadsItems(js, e + 1, items.rest, u, cap);
      } else {
        NoItems(u, items.rest, e + 1);
      }
    }
  }

  lemma NothingToRead(items: Items)
    requires items.NoItem?
    ensures ItemsText(items) == []
  {
  }

  lemma ReadAdds(t: Tree, v: Json, p: nat)
    ensures |Read(t, v, p).kinds| == |t.kinds| + |KindsOf(v)|
  {
  }

  /** THE ROUND TRIP, for a value inside a text: the parse goes over the text of a
      value and leaves exactly that value's tokens, in preorder. */
  lemma {:induction false} ReadsValue(js: seq<byte>, p: nat, v: Json, t: Tree, cap: nat)
    requires JsonOk(v) && HasAt(js, p, Text(v)) && Fenced(js, p + |Text(v)|)
    requires |t.places| == |t.kinds| && |t.kinds| + |KindsOf(v)| <= cap
    ensures Run(js, p, t, cap) == Run(js, p + |Text(v)|, Read(t, v, p), cap)
    decreases v
  {
    hide Run, HasAt;
    match v
    case Str(body) =>
      ReadString(js, p, body, t, cap);
    case Prim(text) =>
      ReadPrimitive(js, p, text, t, cap);
    case Arr(items, ws) =>
      ReadsArray(js, p, v, t, cap);
    case Obj(members, ws) =>
      ReadsObject(js, p, v, t, cap);
  }

  lemma ArrayParts(v: Json)
    requires v.Arr? && JsonOk(v)
    ensures ItemsOk(v.items) && Space(v.ws) && |KindsOf(v)| == 1 + |ItemKinds(v.items)|
    ensures Text(v) == [OPEN_ARRAY] + (ItemsText(v.items) + (v.ws + [CLOSE_ARRAY]))
  {
  }

  lemma ObjectParts(v: Json)
    requires v.Obj? && JsonOk(v)
    ensures MembersOk(v.members) && Space(v.ws) && |KindsOf(v)| == 1 + |MemberKinds(v.members)|
    ensures Text(v) == [OPEN_OBJECT] + (MembersText(v.members) + (v.ws + [CLOSE_OBJECT]))
  {
  }

  /** Where the parts of a bracketed value lie. */
  lemma BracketAt(js: seq<byte>, p: nat, open: byte, mid: seq<byte>, ws: seq<byte>, close: byte)
    requires HasAt(js, p, [open] + (mid + (ws + [close]))) && Space(ws) && Closes(close)
    ensures var q := p + 1 + |mid|;
      && p < q <= q + |ws| < |js| && js[p] == open && HasAt(js, p + 1, mid) && HasAt(js, q, ws) && js[q + |ws|] == close
      && Fenced(js, q)
  {
    var q := p + 1 + |mid|;
    Octet(js, p, [open] + (mid + (ws + [close])), 0);
    HasBoth(js, p, [open], mid + (ws + [close]));
    HasBoth(js, p + 1, mid, ws + [close]);
    HasBoth(js, q, ws, [close]);
    Octet(js, q + |ws|, [close], 0);
    SpaceFences(js, q, ws);
  }

  /** The tree once the bracket is closed is the tree of the whole value. */
  lemma ArrayDone(t: Tree, v: Json, p: nat)
    requires v.Arr? && |t.places| == |t.kinds|
    ensures var u := ReadItems(Opened(t, Array, p), v.items, p + 1); var n := |t.kinds|;
      && u.stack == t.stack + [n] && t.kinds + [Array] <= u.kinds && t.places + [Place(p, -1)] <= u.places
      && Tree(u.kinds, u.places[n := Place(p, p + |Text(v)|)], u.parents, t.stack, Top(t.stack)) == Read(t, v, p)
  {
    hide Text, ItemKinds, ItemPlaces, ItemParents;
    var n := |t.kinds|;
    Associates(t.kinds, [Array], ItemKinds(v.items));
    Associates(t.parents, [t.super], ItemParents(v.items, n + 1, n));
    Replaced(t.places, Place(p, -1), Place(p, p + |Text(v)|), ItemPlaces(v.items, p + 1));
  }

  lemma Replaced<T>(a: seq<T>, x: T, y: T, b: seq<T>)
    ensures (a + [x] + b)[|a| := y] == a + ([y] + b)
  {
  }

  lemma {:induction false} ReadsArray(js: seq<byte>, p: nat, v: Json, t: Tree, cap: nat)
    requires v.Arr? && JsonOk(v) && HasAt(js, p, Text(v))
    requires |t.places| == |t.kinds| && |t.kinds| + |KindsOf(v)| <= cap
    ensures Run(js, p, t, cap) == Run(js, p + |Text(v)|, Read(t, v, p), cap)
    decreases v, 0
  {
    hide Run, HasAt, ReadItems, Read, ItemPlaces, ItemParents, Text, ItemsText, KindsOf, ItemKinds, JsonOk, ItemsOk;
    ArrayParts(v);
    var mid := ItemsText(v.items);
    var u := Opened(t, Array, p);
    BracketAt(js, p, OPEN_ARRAY, mid, v.ws, CLOSE_ARRAY);
    OpenStep(js, p, t, cap);
    ReadsItems(js, p + 1, v.items, u, cap);
    ArrayDone(t, v, p);
    CloseStep(js, p + 1 + |mid|, v.ws, t, Array, p, ReadItems(u, v.items, p + 1), cap);
  }

  // ---- objects ----

  lemma MemberParts(js: seq<byte>, e: nat, ms: Members)
    requires ms.Member? && MembersOk(ms)
    ensures Space(ms.before) && PiecesOk(ms.key) && Space(ms.mid) && Space(ms.gap) && Space(ms.after)
    ensures JsonOk(ms.value) && MembersOk(ms.rest)
    ensures e < |js| && js[e] == COMMA ==> Fenced(js, e)
  {
  }

  /** What comes after a member's value. */
  lemma MemberFront(js: seq<byte>, p: nat, ms: Members, tail: seq<byte>)
    requires ms.Member?
    requires HasAt(js, p, ms.before + (Quoted(ms.key) + (ms.mid + ([COLON] + (ms.gap + (Text(ms.value) + tail))))))
    ensures HasAt(js, ValueAt(ms, p) + |Text(ms.value)|, tail)
  {
    hide HasAt, Text, Quoted;
    var k := p + |ms.before|;
    var m := k + |Quoted(ms.key)|;
    var c := m + |ms.mid|;
    var t5 := Text(ms.value) + tail;
    var t4 := ms.gap + t5;
    HasBoth(js, p, ms.before, Quoted(ms.key) + (ms.mid + ([COLON] + t4)));
    HasBoth(js, k, Quoted(ms.key), ms.mid + ([COLON] + t4));
    HasBoth(js, m, ms.mid, [COLON] + t4);
    HasBoth(js, c, [COLON], t4);
    HasBoth(js, c + 1, ms.gap, t5);
    HasBoth(js, ValueAt(ms, p), Text(ms.value), tail);
  }

  /** Where the parts of a member lie. */
  lemma MemberAt(js: seq<byte>, p: nat, ms: Members)
    requires ms.Member? && MembersOk(ms) && HasAt(js, p, MembersText(ms)) && Fenced(js, p + |MembersText(ms)|)
    ensures var k := p + |ms.before|; var m := k + |Quoted(ms.key)|; var c := m + |ms.mid|; var q := ValueAt(ms, p);
      && HasAt(js, p, ms.before) && HasAt(js, k, Quoted(ms.key)) && HasAt(js, m, ms.mid)
      && c < |js| && js[c] == COLON && HasAt(js, c + 1, ms.gap) && HasAt(js, q, Text(ms.value))
  {
    hide HasAt, Text, JsonOk, MembersOk, Quoted, Fenced;
    var k := p + |ms.before|;
    var m := k + |Quoted(ms.key)|;
    var c := m + |ms.mid|;
    var tail := if ms.rest.NoMember? then [] else [COMMA] + MembersText(ms.rest);
    var t5 := Text(ms.value) + (ms.after + tail);
    var t4 := ms.gap + t5;
    var t3 := [COLON] + t4;
    HasBoth(js, p, ms.before, Quoted(ms.key) + (ms.mid + t3));
    HasBoth(js, k, Quoted(ms.key), ms.mid + t3);
    HasBoth(js, m, ms.mid, t3);
    HasBoth(js, c, [COLON], t4);
    Octet(js, c, [COLON], 0);
    HasBoth(js, c + 1, ms.gap, t5);
    HasBoth(js, ValueAt(ms, p), Text(ms.value), ms.after + tail);
  }

  lemma MemberEnds(js: seq<byte>, p: nat, ms: Members)
    requires ms.Member? && MembersOk(ms) && HasAt(js, p, MembersText(ms)) && Fenced(js, p + |MembersText(ms)|)
    ensures var r := ValueAt(ms, p) + |Text(ms.value)|; var e := r + |ms.after|;
      && Fenced(js, r) && HasAt(js, r, ms.after)
      && (ms.rest.NoMember? ==> e == p + |MembersText(ms)|)
      && (ms.rest.Member? ==>
            && e < |js| && js[e] == COMMA && HasAt(js, e + 1, MembersText(ms.rest))
            && e + 1 + |MembersText(ms.rest)| == p + |MembersText(ms)|)
  {
    hide HasAt, Text, JsonOk, MembersOk, Quoted, Ends, Stops;
    var r := ValueAt(ms, p) + |Text(ms.value)|;
    var e := r + |ms.after|;
    var tail := if ms.rest.NoMember? then [] else [COMMA] + MembersText(ms.rest);
    MemberFront(js, p, ms, ms.after + tail);
    HasBoth(js, r, ms.after, tail);
    if ms.rest.Member? {
      Octet(js, e, tail, 0);
      HasBoth(js, e, [COMMA], MembersText(ms.rest));
    }
    assert Fenced(js, e) && Space(ms.after) by { MemberParts(js, e, ms); }
    SpaceFences(js, r, ms.after);
  }

  /** The tree after a key and its colon. */
  function AfterKey(t: Tree, ms: Members, p: nat): Tree
    requires ms.Member?
  {
    var k := p + |ms.before| + 1;
    Keyed(Grow(t, String, Place(k, k + |PiecesText(ms.key)|)))
  }

  lemma ReadsKey(js: seq<byte>, p: nat, ms: Members, t: Tree, cap: nat)
    requires ms.Member? && MembersOk(ms) && HasAt(js, p, MembersText(ms)) && Fenced(js, p + |MembersText(ms)|)
    requires |t.kinds| < cap
    ensures ValueAt(ms, p) <= |js| && Run(js, p, t, cap) == Run(js, ValueAt(ms, p), AfterKey(t, ms, p), cap)
  {
    hide Run, Text, JsonOk, MembersOk, Fenced, MembersText, Quoted, PiecesText, Grow;
    MemberAt(js, p, ms);
    MemberParts(js, p, ms);
    var k := p + |ms.before|;
    var m := k + |Quoted(ms.key)|;
    var c := m + |ms.mid|;
    var u := Grow(t, String, Place(k + 1, k + 1 + |PiecesText(ms.key)|));
    SkipSpace(js, p, ms.before, t, cap);
    ReadString(js, k, ms.key, t, cap);
    SkipSpace(js, m, ms.mid, u, cap);
    ColonStep(js, c, u, cap);
    SkipSpace(js, c + 1, ms.gap, Keyed(u), cap);
  }

  lemma ColonStep(js: seq<byte>, p: nat, t: Tree, cap: nat)
    requires p < |js| && js[p] == COLON
    ensures Run(js, p, t, cap) == Run(js, p + 1, Keyed(t), cap)
  {
  }

  /** After a member's value a comma, if one comes, leads back to the object. */
  lemma BackToObject(t: Tree, ms: Members, p: nat)
    requires ms.Member? && Inside(t)
    ensures var u := Read(AfterKey(t, ms, p), ms.value, ValueAt(ms, p));
      && |u.kinds| == |t.kinds| + 1 + |KindsOf(ms.value)|
      && u.super == (if Bracketed(ms.value) then t.super else |t.kinds|)
      && Separated(u) == u.(super := t.super) && Inside(Separated(u))
  {
    hide Text, PlacesOf, ParentsOf, KindsOf;
    var u := Read(AfterKey(t, ms, p), ms.value, ValueAt(ms, p));
    assert u.kinds[t.super] == t.kinds[t.super] && u.kinds[|t.kinds|] == String;
  }

  lemma MemberOne(ms: Members, p: nat, n: nat, obj: nat)
    requires ms.Member?
    ensures var q, k := ValueAt(ms, p), p + |ms.before| + 1; var e := q + |Text(ms.value)| + |ms.after| + 1;
      && MemberKinds(ms) == [String] + (KindsOf(ms.value) + MemberKinds(ms.rest))
      && MemberPlaces(ms, p)
         == [Place(k, k + |PiecesText(ms.key)|)] + (PlacesOf(ms.value, q) + MemberPlaces(ms.rest, e))
      && MemberParents(ms, n, obj)
         == [obj] + (ParentsOf(ms.value, n + 1, n) + MemberParents(ms.rest, n + 1 + |KindsOf(ms.value)|, obj))
    ensures ms.rest.NoMember? ==> MemberKinds(ms.rest) == []
  {
    hide Text, KindsOf, PlacesOf, ParentsOf, Quoted, PiecesText;
  }

  lemma MemberThenRest(t: Tree, ms: Members, p: nat)
    requires ms.Member? && Inside(t)
    ensures var q := ValueAt(ms, p); var u := Read(AfterKey(t, ms, p), ms.value, q);
      && (ms.rest.NoMember? ==> u == ReadMembers(t, ms, p))
      && (ms.rest.Member? ==>
            ReadMembers(u.(super := t.super), ms.rest, q + |Text(ms.value)| + |ms.after| + 1) == ReadMembers(t, ms, p))
  {
    hide Text, PlacesOf, ParentsOf, KindsOf, Quoted, ValueAt, PiecesText, MemberKinds, MemberPlaces, MemberParents;
    MemberOne(ms, p, |t.kinds|, t.super);
    var q, n, k := ValueAt(ms, p), |t.kinds|, p + |ms.before| + 1;
    var e := q + |Text(ms.value)| + |ms.after| + 1;
    Sandwich(t.kinds, String, KindsOf(ms.value), MemberKinds(ms.rest));
    Sandwich(t.places, Place(k, k + |PiecesText(ms.key)|), PlacesOf(ms.value, q), MemberPlaces(ms.rest, e));
    Sandwich(t.parents, t.super, ParentsOf(ms.value, n + 1, n), MemberParents(ms.rest, n + 1 + |KindsOf(ms.value)|, t.super));
  }

  lemma Sandwich<T>(a: seq<T>, x: T, b: seq<T>, c: seq<T>)
    ensures a + [x] + b + c == a + ([x] + (b + c)) && (c == [] ==> a + [x] + b == a + ([x] + (b + c)))
  {
  }

  lemma NoMembers(t: Tree, ms: Members, p: nat)
    requires ms.NoMember? && t.super >= 0
    ensures ReadMembers(t, ms, p) == t && MembersText(ms) == []
  {
    assert t.kinds + [] == t.kinds && t.places + [] == t.places && t.parents + [] == t.parents;
  }

  lemma {:induction false} ReadsMembers(js: seq<byte>, p: nat, ms: Members, t: Tree, cap: nat)
    requires MembersOk(ms) && HasAt(js, p, MembersText(ms)) && Fenced(js, p + |MembersText(ms)|)
    requires Inside(t) && |t.kinds| + |MemberKinds(ms)| <= cap
    ensures Run(js, p, t, cap) == Run(js, p + |MembersText(ms)|, ReadMembers(t, ms, p), cap)
    decreases ms
  {
    hide Run, Separated, Read, ReadMembers, HasAt, Text, MembersText, PlacesOf, ParentsOf, ValueAt;
    if ms.NoMember? {
      NoMembers(t, ms, p);
    } else {
      var q := ValueAt(ms, p);
      var r := q + |Text(ms.value)|;
      var e := r + |ms.after|;
      var key := AfterKey(t, ms, p);
      var u := Read(key, ms.value, q);
      MemberAt(js, p, ms);
      MemberEnds(js, p, ms);
      ReadsKey(js, p, ms, t, cap);
      ReadsValue(js, q, ms.value, key, cap);
      SkipSpace(js, r, ms.after, u, cap);
      BackToObject(t, ms, p);
      MemberThenRest(t, ms, p);
      if ms.rest.Member? {
        CommaStep(js, e, u, cap);
        SeparatedKeeps(u);
        ReadsMembers(js, e + 1, ms.rest, Separated(u), cap);
      }
    }
  }

  lemma SeparatedKeeps(t: Tree)
    ensures Separated(t).kinds == t.kinds
  {
  }

  lemma ObjectDone(t: Tree, v: Json, p: nat)
    requires v.Obj? && |t.places| == |t.kinds|
    ensures var u := ReadMembers(Opened(t, Object, p), v.members, p + 1); var n := |t.kinds|;
      && u.stack == t.stack + [n] && t.kinds + [Object] <= u.kinds && t.places + [Place(p, -1)] <= u.places
      && Tree(u.kinds, u.places[n := Place(p, p + |Text(v)|)], u.parents, t.stack, Top(t.stack)) == Read(t, v, p)
  {
    hide Text, MemberKinds, MemberPlaces, MemberParents, LastSuper;
    var n := |t.kinds|;
    Associates(t.kinds, [Object], MemberKinds(v.members));
    Associates(t.parents, [t.super], MemberParents(v.members, n + 1, n));
    Replaced(t.places, Place(p, -1), Place(p, p + |Text(v)|), MemberPlaces(v.members, p + 1));
  }

  lemma {:induction false} ReadsObject(js: seq<byte>, p: nat, v: Json, t: Tree, cap: nat)
    requires v.Obj? && JsonOk(v) && HasAt(js, p, Text(v))
    requires |t.places| == |t.kinds| && |t.kinds| + |KindsOf(v)| <= cap
    ensures Run(js, p, t, cap) == Run(js, p + |Text(v)|, Read(t, v, p), cap)
    decreases v, 0
  {
    hide Run, HasAt, ReadMembers, Read, MemberPlaces, MemberParents, LastSuper, Text, MembersText, KindsOf, MemberKinds, JsonOk,
         MembersOk;
    ObjectParts(v);
    var mid := MembersText(v.members);
    var u := Opened(t, Object, p);
    BracketAt(js, p, OPEN_OBJECT, mid, v.ws, CLOSE_OBJECT);
    OpenStep(js, p, t, cap);
    ReadsMembers(js, p + 1, v.members, u, cap);
    ObjectDone(t, v, p);
    CloseStep(js, p + 1 + |mid|, v.ws, t, Object, p, ReadMembers(u, v.members, p + 1), cap);
  }

  // ---- a whole text ----

  /** Less room makes no difference, or runs out. */
  lemma {:induction false} LessRoom(js: seq<byte>, p: nat, t: Tree, cap: nat, more: nat)
    requires p <= |js| && cap <= more
    ensures Run(js, p, t, cap) == Run(js, p, t, more) || Run(js, p, t, cap).out == NoMem
    decreases |js| - p
  {
    hide Opened, Grow, Closed, Passed, After;
    if Stops(js, p) {
    } else if Opens(js[p]) {
      LessRoom(js, p + 1, Opened(t, Bracket(js[p]), p), cap, more);
    } else if Closes(js[p]) {
      if CanClose(t, Bracket(js[p])) { LessRoom(js, p + 1, Closed(t, p + 1), cap, more); }
    } else if Ends(js[p]) {
      LessRoom(js, p + 1, Passed(t, js[p]), cap, more);
    } else if After(js, p).At? {
      var q := After(js, p).q;
      LessRoom(js, q, Grow(t, ValueKind(js[p]), ValuePlace(js[p], p, q)), cap, more);
    }
  }

  lemma Document(js: seq<byte>, before: seq<byte>, v: Json, after: seq<byte>, cap: nat)
    requires js == before + (Text(v) + after) && Space(before) && JsonOk(v) && Space(after) && |KindsOf(v)| <= cap
    ensures Run(js, 0, EMPTY, cap)
         == Result(Tokens(|KindsOf(v)|), Tree(KindsOf(v), PlacesOf(v, |before|), ParentsOf(v, 0, -1), [], -1))
  {
    hide Text, JsonOk, KindsOf, PlacesOf, ParentsOf;
    var p := |before|;
    var q := p + |Text(v)|;
    assert HasAt(js, 0, js);
    HasBoth(js, 0, before, Text(v) + after);
    HasBoth(js, p, Text(v), after);
    SkipSpace(js, 0, before, EMPTY, cap);
    SpaceFences(js, q, after);
    ReadsValue(js, p, v, EMPTY, cap);
    SkipSpace(js, q, after, Read(EMPTY, v, p), cap);
    assert [] + KindsOf(v) == KindsOf(v) && [] + PlacesOf(v, p) == PlacesOf(v, p);
    assert [] + ParentsOf(v, 0, -1) == ParentsOf(v, 0, -1);
  }

  /** THE ROUND TRIP. A JSON text with room for its tokens gives the tree it was
      written from; with less room it runs out. */
  lemma RoundTrip(js: seq<byte>, before: seq<byte>, v: Json, after: seq<byte>, cap: nat)
    requires js == before + (Text(v) + after) && Space(before) && JsonOk(v) && Space(after)
    ensures var r := Run(js, 0, EMPTY, cap);
      && (cap < |KindsOf(v)| ==> r.out == NoMem)
      && (|KindsOf(v)| <= cap ==>
            r == Result(Tokens(|KindsOf(v)|), Tree(KindsOf(v), PlacesOf(v, |before|), ParentsOf(v, 0, -1), [], -1)))
  {
    hide Run, Text, JsonOk, KindsOf, PlacesOf, ParentsOf;
    if cap < |KindsOf(v)| {
      Document(js, before, v, after, |KindsOf(v)|);
      LessRoom(js, 0, EMPTY, cap, |KindsOf(v)|);
      if Run(js, 0, EMPTY, cap).out != NoMem { CountIsNeeded(js, 0, EMPTY, cap); }
    } else {
      Document(js, before, v, after, cap);
    }
  }

  // ---- sizes ----

  lemma {:induction false} ChildrenOfBoth(a: seq<int>, b: seq<int>, i: int)
    ensures Children(a + b, i) == Children(a, i) + Children(b, i)
    decreases |b|
  {
    if b == [] {
      assert a + b == a;
    } else {
      var n := |b| - 1;
      ChildrenOfBoth(a, b[..n], i);
      assert (a + b)[..|a| + n] == a + b[..n];
    }
  }

  lemma ChildrenOfOne(x: int, i: int)
    ensures Children([x], i) == if x == i then 1 else 0
  {
    assert [x][..0] == [];
  }

  /** How often token `i` is a parent among the tokens of a value: the size the
      value gives it, and once more for the value's own parent. */
  lemma {:induction false} ValueSizes(v: Json, base: nat, parent: int, i: int)
    requires parent < base
    ensures Children(ParentsOf(v, base, parent), i)
         == (if base <= i < base + |KindsOf(v)| then SizesOf(v)[i - base] else if i == parent then 1 else 0)
    decreases v
  {
    hide Children, ItemParents, ItemSizes, ItemKinds, ItemCount, MemberParents, MemberSizes, MemberKinds, MemberCount;
    ChildrenOfOne(parent, i);
    match v
    case Arr(items, _) =>
      ChildrenOfBoth([parent], ItemParents(items, base + 1, base), i);
      SizesInItems(items, base + 1, base, i);
    case Obj(members, _) =>
      ChildrenOfBoth([parent], MemberParents(members, base + 1, base), i);
      SizesInMembers(members, base + 1, base, i);
    case _ =>
  }

  lemma {:induction false} SizesInItems(items: Items, base: nat, arr: nat, i: int)
    requires arr < base
    ensures Children(ItemParents(items, base, arr), i)
         == (if base <= i < base + |ItemKinds(items)| then ItemSizes(items)[i - base]
             else if i == arr then ItemCount(items) else 0)
    decreases items
  {
    hide ParentsOf, SizesOf, KindsOf;
    if items.Item? {
      var n := base + |KindsOf(items.value)|;
      ChildrenOfBoth(ParentsOf(items.value, base, arr), ItemParents(items.rest, n, arr), i);
      ValueSizes(items.value, base, arr, i);
      SizesInItems(items.rest, n, arr, i);
    }
  }

  lemma {:induction false} SizesInMembers(ms: Members, base: nat, obj: nat, i: int)
    requires obj < base
    ensures Children(MemberParents(ms, base, obj), i)
         == (if base <= i < base + |MemberKinds(ms)| then MemberSizes(ms)[i - base]
             else if i == obj then MemberCount(ms) else 0)
    decreases ms
  {
    hide ParentsOf, SizesOf, KindsOf;
    if ms.Member? {
      var n := base + 1 + |KindsOf(ms.value)|;
      var own, more := ParentsOf(ms.value, base + 1, base), MemberParents(ms.rest, n, obj);
      ChildrenOfOne(obj, i);
      ChildrenOfBoth([obj], own + more, i);
      ChildrenOfBoth(own, more, i);
      ValueSizes(ms.value, base + 1, base, i);
      SizesInMembers(ms.rest, n, obj, i);
    }
  }

  /** The tokens of a value whose text begins at `p`. */
  function TokensOf(v: Json, p: nat): (ts: seq<Token>)
    ensures |ts| == |KindsOf(v)|
  {
    seq(|KindsOf(v)|, i requires 0 <= i < |KindsOf(v)| =>
      Token(KindsOf(v)[i], PlacesOf(v, p)[i].from, PlacesOf(v, p)[i].to, SizesOf(v)[i]))
  }

  /** A token array is fixed by its tree, once the sizes count children. */
  lemma TokensFixed(toks: seq<Token>, parents: seq<int>, v: Json, p: nat)
    requires Kinds(toks) == KindsOf(v) && Places(toks) == PlacesOf(v, p) && parents == ParentsOf(v, 0, -1)
    requires SizesOk(toks, parents)
    ensures toks == TokensOf(v, p)
  {
    hide KindsOf, PlacesOf, ParentsOf, SizesOf, Children;
    assert |toks| == |Kinds(toks)|;
    forall i | 0 <= i < |toks| ensures toks[i] == TokensOf(v, p)[i] {
      ValueSizes(v, 0, -1, i);
      assert Kinds(toks)[i] == toks[i].kind && Places(toks)[i] == Place(toks[i].start, toks[i].end);
    }
  }

  /** What jsmn makes of the text of any value: its tokens in preorder, each with its
      place and the number of its children. */
  method ParseText(js: seq<byte>, tokens: array<Token>, ghost before: seq<byte>, ghost v: Json, ghost after: seq<byte>)
    returns (r: Outcome)
    requires js == before + (Text(v) + after) && Space(before) && JsonOk(v) && Space(after)
    modifies tokens
    ensures tokens.Length < |KindsOf(v)| ==> r == NoMem
    ensures |KindsOf(v)| <= tokens.Length ==>
      r == Tokens(|KindsOf(v)|) && tokens[..r.n] == TokensOf(v, |before|)
  {
    hide Run, Text, JsonOk, KindsOf, PlacesOf, ParentsOf, SizesOf, TokensOf;
    var parser := new Parser();
    NothingRead(js);
    assert tokens[..0] == [];
    r := parser.Parse(js, tokens);
    RoundTrip(js, before, v, after, tokens.Length);
    if |KindsOf(v)| <= tokens.Length {
      TokensFixed(tokens[..parser.toknext], parser.parents, v, |before|);
    }
  }
}
