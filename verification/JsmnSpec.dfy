/** What jsmn reads: strings, primitives and brackets, and the outcome of a parse
    stated with a bracket stack of its own. */
module JsmnSpec {
  import opened Bytes

  const QUOTE: byte := 34
  const BACKSLASH: byte := 92
  const COMMA: byte := 44
  const OPEN_ARRAY: byte := 91
  const CLOSE_ARRAY: byte := 93
  const OPEN_OBJECT: byte := 123
  const CLOSE_OBJECT: byte := 125
  const LOWER_U: byte := 117

  datatype Type = Object | Array | String | Primitive

  /** Where a string or a primitive ends. */
  datatype Found = At(q: nat) | Bad | Partial

  datatype Outcome = Tokens(n: nat) | NoMem | Inval | Part

  /** The end of the text, or a zero byte in it. */
  predicate Stops(js: seq<byte>, p: nat) { p >= |js| || js[p] == 0 }

  predicate IsSpace(c: byte) { c == HT || c == CR || c == LF || c == SP }

  /** A byte that ends a primitive. */
  predicate Ends(c: byte) { IsSpace(c) || c == COLON || c == COMMA || c == CLOSE_ARRAY || c == CLOSE_OBJECT }

  predicate Unprintable(c: byte) { c < 32 || c >= 127 }

  predicate IsHex(c: byte) { 48 <= c <= 57 || 65 <= c <= 70 || 97 <= c <= 102 }

  /** `"`, `/`, `\`, and the letters b, f, n, r and t. */
  predicate Escapes(c: byte) {
    c == QUOTE || c == 47 || c == BACKSLASH || c == 98 || c == 102 || c == 114 || c == 110 || c == 116
  }

  /** Up to `k` hexadecimal digits. */
  function HexRun(js: seq<byte>, p: nat, k: nat): (f: Found)
    requires p <= |js|
    ensures f.At? ==> p <= f.q <= |js|
    ensures !f.Partial?
    decreases k
  {
    if k == 0 || Stops(js, p) then At(p) else if !IsHex(js[p]) then Bad else HexRun(js, p + 1, k - 1)
  }

  /** The quote that closes the string whose contents begin at `p`. */
  function StringEnd(js: seq<byte>, p: nat): (f: Found)
    requires p <= |js|
    ensures f.At? ==> p <= f.q < |js| && js[f.q] == QUOTE
    decreases |js| - p
  {
    if Stops(js, p) then Partial
    else if js[p] == QUOTE then At(p)
    else if js[p] == BACKSLASH && p + 1 < |js| then
      if Escapes(js[p + 1]) then StringEnd(js, p + 2)
      else if js[p + 1] == LOWER_U then
        var h := HexRun(js, p + 2, 4);
        if h.At? then StringEnd(js, h.q) else Bad
      else Bad
    else StringEnd(js, p + 1)
  }

  /** The end of the primitive that goes on at `p`. */
  function PrimitiveEnd(js: seq<byte>, p: nat): (f: Found)
    requires p <= |js|
    ensures !f.Partial? && (f.At? ==> p <= f.q <= |js|)
    ensures f.At? && !Stops(js, p) && !Ends(js[p]) ==> p < f.q
    decreases |js| - p
  {
    if Stops(js, p) || Ends(js[p]) then At(p) else if Unprintable(js[p]) then Bad else PrimitiveEnd(js, p + 1)
  }

  predicate Opens(c: byte) { c == OPEN_OBJECT || c == OPEN_ARRAY }

  predicate Closes(c: byte) { c == CLOSE_OBJECT || c == CLOSE_ARRAY }

  /** The container a bracket stands for. */
  function Bracket(c: byte): Type { if c == OPEN_OBJECT || c == CLOSE_OBJECT then Object else Array }

  /** The string or primitive at `p`: where parsing goes on after it. */
  function After(js: seq<byte>, p: nat): (f: Found)
    requires p < |js| && !Ends(js[p]) && !Opens(js[p]) && js[p] != 0
    ensures f.At? ==> p < f.q <= |js|
  {
    if js[p] == QUOTE then
      var e := StringEnd(js, p + 1);
      if e.At? then At(e.q + 1) else e
    else PrimitiveEnd(js, p)
  }

  function Failed(f: Found): Outcome { if f == Bad then Inval else Part }

  // ---- the tree a text describes ----

  /** Where a token lies in the text; `to` is -1 while its bracket is open. */
  datatype Place = Place(from: int, to: int)

  /** The tokens so far by kind, place and parent (-1 for none), the open brackets
      outermost first, and the superior token the next value belongs to. */
  datatype Tree = Tree(kinds: seq<Type>, places: seq<Place>, parents: seq<int>, stack: seq<nat>, super: int)

  const EMPTY := Tree([], [], [], [], -1)

  predicate IsContainer(k: Type) { k == Object || k == Array }

  /** The innermost open bracket, or -1. */
  function Top(stack: seq<nat>): int { if stack == [] then -1 else stack[|stack| - 1] }

  /** A token is added under the superior one. */
  function Grow(t: Tree, kind: Type, at: Place): Tree {
    t.(kinds := t.kinds + [kind], places := t.places + [at], parents := t.parents + [t.super])
  }

  function Opened(t: Tree, kind: Type, p: nat): Tree {
    Grow(t, kind, Place(p, -1)).(stack := t.stack + [|t.kinds|], super := |t.kinds|)
  }

  /** A closing bracket is for the innermost open one. */
  predicate CanClose(t: Tree, kind: Type) {
    t.stack != [] && Top(t.stack) < |t.kinds| && t.kinds[Top(t.stack)] == kind
  }

  function Closed(t: Tree, to: nat): Tree
    requires t.stack != []
  {
    var rest, k := t.stack[..|t.stack| - 1], Top(t.stack);
    t.(places := if k < |t.places| then t.places[k := t.places[k].(to := to)] else t.places,
       stack := rest, super := Top(rest))
  }

  /** A colon: what follows belongs to the token before it. */
  function Keyed(t: Tree): Tree { t.(super := |t.kinds| - 1) }

  /** A comma ends what belongs to a key: back to the innermost open bracket. */
  function Separated(t: Tree): Tree {
    if 0 <= t.super < |t.kinds| && !IsContainer(t.kinds[t.super]) && t.stack != [] then t.(super := Top(t.stack)) else t
  }

  /** A byte that is neither value nor bracket. */
  function Passed(t: Tree, c: byte): Tree {
    if c == COLON then Keyed(t) else if c == COMMA then Separated(t) else t
  }

  datatype Result = Result(out: Outcome, tree: Tree)

  /** THE REFERENCE: a parse with an explicit stack of open brackets and room for
      `cap` tokens; the tree is as far as it got. */
  function Run(js: seq<byte>, p: nat, t: Tree, cap: nat): Result
    requires p <= |js|
    decreases |js| - p
  {
    if Stops(js, p) then
      Result(if t.stack == [] then Tokens(|t.kinds|) else Part, t)
    else if Opens(js[p]) then
      if |t.kinds| >= cap then Result(NoMem, t) else Run(js, p + 1, Opened(t, Bracket(js[p]), p), cap)
    else if Closes(js[p]) then
      if CanClose(t, Bracket(js[p])) then Run(js, p + 1, Closed(t, p + 1), cap) else Result(Inval, t)
    else if Ends(js[p]) then Run(js, p + 1, Passed(t, js[p]), cap)
    else
      var f := After(js, p);
      if !f.At? then Result(Failed(f), t)
      else if |t.kinds| >= cap then Result(NoMem, t)
      else Run(js, f.q, Grow(t, ValueKind(js[p]), ValuePlace(js[p], p, f.q)), cap)
  }

  function ValueKind(c: byte): Type { if c == QUOTE then String else Primitive }

  /** A string lies between its quotes. */
  function ValuePlace(c: byte, p: nat, q: nat): Place { if c == QUOTE then Place(p + 1, q - 1) else Place(p, q) }

  /** The counting pass, which has no tokens and checks no brackets. */
  function Count(js: seq<byte>, p: nat, n: nat): Outcome
    requires p <= |js|
    decreases |js| - p
  {
    if Stops(js, p) then Tokens(n)
    else if Opens(js[p]) then Count(js, p + 1, n + 1)
    else if Ends(js[p]) then Count(js, p + 1, n)
    else
      var f := After(js, p);
      if !f.At? then Failed(f) else Count(js, f.q, n + 1)
  }

  lemma SameCount(t: Tree, kind: Type, at: Place, p: nat, c: byte)
    ensures |Grow(t, kind, at).kinds| == |Opened(t, kind, p).kinds| == |t.kinds| + 1
    ensures |Passed(t, c).kinds| == |t.kinds| && (t.stack != [] ==> |Closed(t, p + 1).kinds| == |t.kinds|)
  {
  }

  /** COUNTING IS ENOUGH. When the counting pass answers m, a pass with room for
      m tokens never runs out, and a pass that succeeds used exactly m. */
  lemma {:induction false} CountSuffices(js: seq<byte>, p: nat, t: Tree, cap: nat)
    requires p <= |js| && Count(js, p, |t.kinds|).Tokens?
    ensures |t.kinds| <= Count(js, p, |t.kinds|).n
    ensures Count(js, p, |t.kinds|).n <= cap ==> Run(js, p, t, cap).out != NoMem
    ensures Run(js, p, t, cap).out.Tokens? ==> Run(js, p, t, cap).out == Count(js, p, |t.kinds|)
    decreases |js| - p
  {
    hide Opened, Grow, Closed, Passed, After;
    if Stops(js, p) {
    } else {
      SameCount(t, Bracket(js[p]), Place(p, -1), p, js[p]);
      if Opens(js[p]) {
        CountSuffices(js, p + 1, Opened(t, Bracket(js[p]), p), cap);
      } else if Closes(js[p]) {
        if t.stack == [] { CountGrows(js, p + 1, |t.kinds|); } else { CountSuffices(js, p + 1, Closed(t, p + 1), cap); }
      } else if Ends(js[p]) {
        CountSuffices(js, p + 1, Passed(t, js[p]), cap);
      } else {
        var q := After(js, p).q;
        SameCount(t, ValueKind(js[p]), ValuePlace(js[p], p, q), p, js[p]);
        CountSuffices(js, q, Grow(t, ValueKind(js[p]), ValuePlace(js[p], p, q)), cap);
      }
    }
  }

  /** The count only goes up, and a counting pass does not run out of tokens. */
  lemma {:induction false} CountGrows(js: seq<byte>, p: nat, n: nat)
    requires p <= |js|
    ensures Count(js, p, n) != NoMem && (Count(js, p, n).Tokens? ==> n <= Count(js, p, n).n)
    decreases |js| - p
  {
    if Stops(js, p) {
    } else if Opens(js[p]) {
      CountGrows(js, p + 1, n + 1);
    } else if Ends(js[p]) {
      CountGrows(js, p + 1, n);
    } else if After(js, p).At? {
      CountGrows(js, After(js, p).q, n + 1);
    }
  }

  /** And it is what is needed: a pass that succeeds had that much room. */
  lemma {:induction false} CountIsNeeded(js: seq<byte>, p: nat, t: Tree, cap: nat)
    requires p <= |js| && |t.kinds| <= cap && Run(js, p, t, cap).out.Tokens?
    ensures Count(js, p, |t.kinds|) == Run(js, p, t, cap).out && Count(js, p, |t.kinds|).n <= cap
    decreases |js| - p
  {
    hide Opened, Grow, Closed, Passed, After;
    if Stops(js, p) {
    } else {
      SameCount(t, Bracket(js[p]), Place(p, -1), p, js[p]);
      if Opens(js[p]) {
        CountIsNeeded(js, p + 1, Opened(t, Bracket(js[p]), p), cap);
      } else if Closes(js[p]) {
        CountIsNeeded(js, p + 1, Closed(t, p + 1), cap);
      } else if Ends(js[p]) {
        CountIsNeeded(js, p + 1, Passed(t, js[p]), cap);
      } else {
        var q := After(js, p).q;
        SameCount(t, ValueKind(js[p]), ValuePlace(js[p], p, q), p, js[p]);
        CountIsNeeded(js, q, Grow(t, ValueKind(js[p]), ValuePlace(js[p], p, q)), cap);
      }
    }
  }

  /** Every parent comes before its children, and every open bracket is a token. */
  ghost predicate Rooted(t: Tree) {
    && |t.parents| == |t.kinds| && -1 <= t.super < |t.kinds|
    && (forall i :: 0 <= i < |t.parents| ==> -1 <= t.parents[i] < i)
    && (forall i :: 0 <= i < |t.stack| ==> t.stack[i] < |t.kinds|)
  }

  /** A FOREST. Whatever is parsed, parents come first. */
  lemma {:induction false} RunIsForest(js: seq<byte>, p: nat, t: Tree, cap: nat)
    requires p <= |js| && Rooted(t)
    ensures Rooted(Run(js, p, t, cap).tree)
    decreases |js| - p
  {
    if Stops(js, p) {
    } else if Opens(js[p]) {
      if |t.kinds| < cap { RunIsForest(js, p + 1, Opened(t, Bracket(js[p]), p), cap); }
    } else if Closes(js[p]) {
      if CanClose(t, Bracket(js[p])) { RunIsForest(js, p + 1, Closed(t, p + 1), cap); }
    } else if Ends(js[p]) {
      RunIsForest(js, p + 1, Passed(t, js[p]), cap);
    } else if After(js, p).At? && |t.kinds| < cap {
      var q := After(js, p).q;
      RunIsForest(js, q, Grow(t, ValueKind(js[p]), ValuePlace(js[p], p, q)), cap);
    }
  }
}
