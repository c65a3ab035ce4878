/** What jsmn's token array holds at every point of a parse. */
module JsmnTokens {
  import opened Bytes
  import opened JsmnSpec

  /** A token; `end` is -1 while its bracket is open. */
  datatype Token = Token(kind: Type, start: int, end: int, size: nat)

  predicate Container(t: Token) { IsContainer(t.kind) }

  /** A token of the text read so far, tied to its place in it. */
  predicate TokenOk(js: seq<byte>, t: Token, pos: nat)
    requires pos <= |js|
  {
    match t.kind
    case String => 1 <= t.start <= t.end < pos && js[t.start - 1] == QUOTE && StringEnd(js, t.start) == At(t.end)
    case Primitive => 0 <= t.start < t.end <= pos && PrimitiveEnd(js, t.start) == At(t.end)
    case _ =>
      && 0 <= t.start < pos && Opens(js[t.start]) && Bracket(js[t.start]) == t.kind
      && (t.end != -1 ==> t.start < t.end <= pos && Closes(js[t.end - 1]) && Bracket(js[t.end - 1]) == t.kind)
  }

  /** An earlier and a later token: disjoint, or the later inside the earlier. */
  predicate Laminar(a: Token, b: Token) {
    a.start < b.start && (a.end == -1 || a.end <= b.start || (Container(a) && b.end != -1 && b.end < a.end))
  }

  ghost predicate WellFormed(js: seq<byte>, toks: seq<Token>, pos: nat)
    requires pos <= |js|
  {
    && (forall i :: 0 <= i < |toks| ==> TokenOk(js, toks[i], pos))
    && (forall i, j :: 0 <= i < j < |toks| ==> Laminar(toks[i], toks[j]))
  }

  ghost predicate AllClosed(toks: seq<Token>) { forall i :: 0 <= i < |toks| ==> toks[i].end != -1 }

  /** The open brackets, outermost first. */
  function OpenStack(toks: seq<Token>): seq<nat> {
    if toks == [] then [] else
      OpenStack(toks[..|toks| - 1]) + if toks[|toks| - 1].end == -1 then [|toks| - 1] else []
  }

  function Kinds(toks: seq<Token>): (ks: seq<Type>)
    ensures |ks| == |toks| && forall i :: 0 <= i < |toks| ==> ks[i] == toks[i].kind
  {
    seq(|toks|, i requires 0 <= i < |toks| => toks[i].kind)
  }

  function Places(toks: seq<Token>): (ps: seq<Place>)
    ensures |ps| == |toks| && forall i :: 0 <= i < |toks| ==> ps[i] == Place(toks[i].start, toks[i].end)
  {
    seq(|toks|, i requires 0 <= i < |toks| => Place(toks[i].start, toks[i].end))
  }

  /** The tree a token array stands for. */
  function TreeOf(toks: seq<Token>, parents: seq<int>, super: int): Tree {
    Tree(Kinds(toks), Places(toks), parents, OpenStack(toks), super)
  }

  /** How many tokens have `i` for a parent. */
  function Children(parents: seq<int>, i: int): nat {
    if parents == [] then 0 else
      Children(parents[..|parents| - 1], i) + if parents[|parents| - 1] == i then 1 else 0
  }

  /** The sizes count the children in a forest whose parents come first. */
  ghost predicate SizesOk(toks: seq<Token>, parents: seq<int>) {
    && |parents| == |toks|
    && (forall i :: 0 <= i < |parents| ==> -1 <= parents[i] < i)
    && (forall i :: 0 <= i < |toks| ==> toks[i].size == Children(parents, i))
  }

  function Bumped(toks: seq<Token>, p: int): seq<Token>
    requires -1 <= p < |toks|
  {
    if p == -1 then toks else toks[p := toks[p].(size := toks[p].size + 1)]
  }

  // ---- the steps of a parse ----

  lemma AppendKeeps(js: seq<byte>, toks: seq<Token>, pos: nat, t: Token, pos': nat)
    requires pos <= pos' <= |js| && WellFormed(js, toks, pos) && TokenOk(js, t, pos') && pos <= t.start
    ensures WellFormed(js, toks + [t], pos')
  {
    hide StringEnd, PrimitiveEnd;
    var all := toks + [t];
    forall i | 0 <= i < |all| ensures TokenOk(js, all[i], pos') {
      assert i < |toks| ==> TokenOk(js, toks[i], pos);
    }
    forall i, j | 0 <= i < j < |all| ensures Laminar(all[i], all[j]) {
      assert TokenOk(js, toks[i], pos);
      assert j < |toks| ==> Laminar(toks[i], toks[j]);
    }
  }

  lemma BumpKeeps(js: seq<byte>, toks: seq<Token>, pos: nat, p: int)
    requires pos <= |js| && WellFormed(js, toks, pos) && -1 <= p < |toks|
    ensures WellFormed(js, Bumped(toks, p), pos)
  {
    hide StringEnd, PrimitiveEnd;
    var all := Bumped(toks, p);
    forall i | 0 <= i < |all| ensures TokenOk(js, all[i], pos) {
      assert TokenOk(js, toks[i], pos);
    }
    forall i, j | 0 <= i < j < |all| ensures Laminar(all[i], all[j]) {
      assert Laminar(toks[i], toks[j]);
    }
  }

  lemma PassKeeps(js: seq<byte>, toks: seq<Token>, pos: nat, pos': nat)
    requires pos <= pos' <= |js| && WellFormed(js, toks, pos)
    ensures WellFormed(js, toks, pos')
  {
    hide StringEnd, PrimitiveEnd;
    forall i | 0 <= i < |toks| ensures TokenOk(js, toks[i], pos') {
      assert TokenOk(js, toks[i], pos);
    }
  }

  /** Closing the innermost open bracket. */
  lemma CloseKeeps(js: seq<byte>, toks: seq<Token>, pos: nat, k: nat)
    requires pos < |js| && WellFormed(js, toks, pos) && k < |toks| && toks[k].end == -1
    requires forall i :: k < i < |toks| ==> toks[i].end != -1
    requires Closes(js[pos]) && toks[k].kind == Bracket(js[pos])
    ensures WellFormed(js, toks[k := toks[k].(end := pos + 1)], pos + 1)
  {
    hide StringEnd, PrimitiveEnd;
    var all := toks[k := toks[k].(end := pos + 1)];
    forall i | 0 <= i < |all| ensures TokenOk(js, all[i], pos + 1) {
      assert TokenOk(js, toks[i], pos);
    }
    forall i, j | 0 <= i < j < |all| ensures Laminar(all[i], all[j]) {
      assert TokenOk(js, toks[i], pos) && TokenOk(js, toks[j], pos) && Laminar(toks[i], toks[j]);
    }
  }

  // ---- the stack kept in the token array ----

  lemma {:induction false} ClosedTail(toks: seq<Token>, k: nat)
    requires k <= |toks| && forall i :: k <= i < |toks| ==> toks[i].end != -1
    ensures OpenStack(toks) == OpenStack(toks[..k])
  {
    if k < |toks| {
      ClosedTail(toks[..|toks| - 1], k);
      assert toks[..|toks| - 1][..k] == toks[..k];
    } else {
      assert toks[..k] == toks;
    }
  }

  /** The innermost open bracket is the top of the stack; closing it pops. */
  lemma {:induction false} CloseIsPop(toks: seq<Token>, k: nat, end: int)
    requires k < |toks| && toks[k].end == -1 && end != -1
    requires forall i :: k < i < |toks| ==> toks[i].end != -1
    ensures OpenStack(toks) == OpenStack(toks[..k]) + [k]
    ensures OpenStack(toks[k := toks[k].(end := end)]) == OpenStack(toks[..k])
    ensures Kinds(toks[k := toks[k].(end := end)]) == Kinds(toks)
    ensures Places(toks[k := toks[k].(end := end)]) == Places(toks)[k := Place(toks[k].start, end)]
  {
    ClosedTail(toks, k + 1);
    assert toks[..k + 1][..k] == toks[..k];
    var all := toks[k := toks[k].(end := end)];
    ClosedTail(all, k);
    assert all[..k] == toks[..k];
  }

  lemma {:induction false} AppendPushes(toks: seq<Token>, t: Token)
    ensures OpenStack(toks + [t]) == OpenStack(toks) + if t.end == -1 then [|toks|] else []
    ensures Kinds(toks + [t]) == Kinds(toks) + [t.kind]
    ensures Places(toks + [t]) == Places(toks) + [Place(t.start, t.end)]
  {
    assert (toks + [t])[..|toks|] == toks;
  }

  lemma {:induction false} BumpStack(toks: seq<Token>, p: int)
    requires -1 <= p < |toks|
    ensures OpenStack(Bumped(toks, p)) == OpenStack(toks)
    ensures Kinds(Bumped(toks, p)) == Kinds(toks) && Places(Bumped(toks, p)) == Places(toks)
  {
    assert Kinds(Bumped(toks, p)) == Kinds(toks) && Places(Bumped(toks, p)) == Places(toks);
    if p != -1 && p < |toks| - 1 {
      BumpStack(toks[..|toks| - 1], p);
      assert Bumped(toks, p)[..|toks| - 1] == Bumped(toks[..|toks| - 1], p);
    } else if p != -1 {
      assert Bumped(toks, p)[..|toks| - 1] == toks[..|toks| - 1];
    }
  }

  /** The innermost open bracket below `n`, found by looking back, is the top. */
  lemma {:induction false} LookBack(toks: seq<Token>, k: int)
    requires -1 <= k < |toks| && (k != -1 ==> toks[k].end == -1)
    requires forall i :: k < i < |toks| ==> toks[i].end != -1
    ensures Top(OpenStack(toks)) == k
  {
    if k == -1 {
      NoneOpen(toks);
    } else {
      CloseIsPop(toks, k, 0);
    }
  }

  /** Only brackets are ever open. */
  lemma OpenIsContainer(js: seq<byte>, toks: seq<Token>, pos: nat, i: nat)
    requires pos <= |js| && WellFormed(js, toks, pos) && i < |toks| && toks[i].end == -1
    ensures Container(toks[i])
  {
    hide StringEnd, PrimitiveEnd;
    assert TokenOk(js, toks[i], pos);
  }

  lemma {:induction false} NoneOpen(toks: seq<Token>)
    requires AllClosed(toks)
    ensures OpenStack(toks) == []
  {
    ClosedTail(toks, 0);
  }

  // ---- sizes ----

  lemma {:induction false} NoChildYet(parents: seq<int>, k: nat)
    requires |parents| <= k && forall i :: 0 <= i < |parents| ==> -1 <= parents[i] < i
    ensures Children(parents, k) == 0
  {
    if parents != [] {
      NoChildYet(parents[..|parents| - 1], k);
    }
  }

  /** A new token under parent `p`. */
  lemma AppendCounts(toks: seq<Token>, parents: seq<int>, t: Token, p: int)
    requires SizesOk(toks, parents) && t.size == 0 && -1 <= p < |toks|
    ensures SizesOk(Bumped(toks, p) + [t], parents + [p])
  {
    assert (parents + [p])[..|parents|] == parents;
    NoChildYet(parents, |toks|);
    var all := Bumped(toks, p) + [t];
    forall i | 0 <= i < |all| ensures all[i].size == Children(parents + [p], i) {
      assert i < |toks| ==> toks[i].size == Children(parents, i);
    }
  }

  lemma EndCounts(toks: seq<Token>, parents: seq<int>, k: nat, end: int)
    requires SizesOk(toks, parents) && k < |toks|
    ensures SizesOk(toks[k := toks[k].(end := end)], parents)
  {
    var all := toks[k := toks[k].(end := end)];
    forall i | 0 <= i < |all| ensures all[i].size == Children(parents, i) {
      assert toks[i].size == Children(parents, i);
    }
  }
}
