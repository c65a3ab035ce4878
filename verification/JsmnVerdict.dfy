/** What a text that was refused, or found incomplete, can still become. */
module JsmnVerdict {
  import opened Bytes
  import opened JsmnSpec
  import JsmnGrammar

  // ---- a refusal is final ----

  lemma {:induction false} HexFinal(js: seq<byte>, t: seq<byte>, p: nat, k: nat)
    requires p <= |js| && (HexRun(js, p, k).At? ==> !Stops(js, HexRun(js, p, k).q))
    ensures HexRun(js + t, p, k) == HexRun(js, p, k)
    decreases k
  {
    if k > 0 && !Stops(js, p) && IsHex(js[p]) { HexFinal(js, t, p + 1, k - 1); }
  }

  /** A string that ended, or was wrong, stays so. */
  lemma {:induction false} StringFinal(js: seq<byte>, t: seq<byte>, p: nat)
    requires p <= |js| && StringEnd(js, p) != Partial
    ensures StringEnd(js + t, p) == StringEnd(js, p)
    decreases |js| - p
  {
    hide HexRun, Escapes;
    if js[p] == QUOTE {
    } else if js[p] == BACKSLASH && p + 1 < |js| {
      if Escapes(js[p + 1]) {
        StringFinal(js, t, p + 2);
      } else if js[p + 1] == LOWER_U {
        var h := HexRun(js, p + 2, 4);
        if h.At? { StringFinal(js, t, h.q); }
        HexFinal(js, t, p + 2, 4);
      }
    } else {
      StringFinal(js, t, p + 1);
    }
  }

  /** So does a primitive that something ended, or that was wrong. */
  lemma {:induction false} PrimitiveFinal(js: seq<byte>, t: seq<byte>, p: nat)
    requires p <= |js| && (PrimitiveEnd(js, p).At? ==> PrimitiveEnd(js, p).q < |js|)
    ensures PrimitiveEnd(js + t, p) == PrimitiveEnd(js, p)
    decreases |js| - p
  {
    if !Stops(js, p) && !Ends(js[p]) && !Unprintable(js[p]) { PrimitiveFinal(js, t, p + 1); }
  }

  lemma AfterFinal(js: seq<byte>, t: seq<byte>, p: nat)
    requires p < |js| && !Ends(js[p]) && !Opens(js[p]) && js[p] != 0
    requires var f := After(js, p); f != Partial && (f.At? ==> f.q < |js|)
    ensures After(js + t, p) == After(js, p)
  {
    hide StringEnd, PrimitiveEnd;
    if js[p] == QUOTE { StringFinal(js, t, p + 1); } else { PrimitiveFinal(js, t, p); }
  }

  /** INVALID IS FINAL. Nothing that could follow makes an invalid text good. */
  lemma {:induction false} InvalIsFinal(js: seq<byte>, t: seq<byte>, p: nat, tree: Tree, cap: nat)
    requires p <= |js| && Run(js, p, tree, cap).out == Inval
    ensures Run(js + t, p, tree, cap).out == Inval
    decreases |js| - p
  {
    hide After, Opened, Closed, Passed, Grow;
    if Opens(js[p]) {
      InvalIsFinal(js, t, p + 1, Opened(tree, Bracket(js[p]), p), cap);
    } else if Closes(js[p]) {
      if CanClose(tree, Bracket(js[p])) { InvalIsFinal(js, t, p + 1, Closed(tree, p + 1), cap); }
    } else if Ends(js[p]) {
      InvalIsFinal(js, t, p + 1, Passed(tree, js[p]), cap);
    } else {
      var f := After(js, p);
      AfterFinal(js, t, p);
      if f.At? { InvalIsFinal(js, t, f.q, Grow(tree, ValueKind(js[p]), ValuePlace(js[p], p, f.q)), cap); }
    }
  }

  // ---- nothing behind a zero byte is read ----

  ghost predicate SameTo(a: seq<byte>, b: seq<byte>, z: nat) {
    z < |a| && z < |b| && a[z] == 0 && forall i :: 0 <= i <= z ==> a[i] == b[i]
  }

  lemma {:induction false} HexBlind(a: seq<byte>, b: seq<byte>, z: nat, p: nat, k: nat)
    requires SameTo(a, b, z) && p <= z
    ensures HexRun(a, p, k) == HexRun(b, p, k) && (HexRun(a, p, k).At? ==> HexRun(a, p, k).q <= z)
    decreases k
  {
    if k > 0 && !Stops(a, p) && IsHex(a[p]) { HexBlind(a, b, z, p + 1, k - 1); }
  }

  lemma {:induction false} StringBlind(a: seq<byte>, b: seq<byte>, z: nat, p: nat)
    requires SameTo(a, b, z) && p <= z
    ensures StringEnd(a, p) == StringEnd(b, p) && (StringEnd(a, p).At? ==> StringEnd(a, p).q < z)
    decreases z - p
  {
    hide HexRun;
    if Stops(a, p) || a[p] == QUOTE {
    } else if a[p] == BACKSLASH {
      if Escapes(a[p + 1]) {
        StringBlind(a, b, z, p + 2);
      } else if a[p + 1] == LOWER_U {
        HexBlind(a, b, z, p + 2, 4);
        var h := HexRun(a, p + 2, 4);
        if h.At? { StringBlind(a, b, z, h.q); }
      }
    } else {
      StringBlind(a, b, z, p + 1);
    }
  }

  lemma {:induction false} PrimitiveBlind(a: seq<byte>, b: seq<byte>, z: nat, p: nat)
    requires SameTo(a, b, z) && p <= z
    ensures PrimitiveEnd(a, p) == PrimitiveEnd(b, p) && (PrimitiveEnd(a, p).At? ==> PrimitiveEnd(a, p).q <= z)
    decreases z - p
  {
    if !Stops(a, p) && !Ends(a[p]) && !Unprintable(a[p]) { PrimitiveBlind(a, b, z, p + 1); }
  }

  lemma AfterBlind(a: seq<byte>, b: seq<byte>, z: nat, p: nat)
    requires SameTo(a, b, z) && p < z && !Ends(a[p]) && !Opens(a[p]) && a[p] != 0
    ensures After(a, p) == After(b, p) && (After(a, p).At? ==> After(a, p).q <= z)
  {
    hide StringEnd, PrimitiveEnd;
    if a[p] == QUOTE { StringBlind(a, b, z, p + 1); } else { PrimitiveBlind(a, b, z, p); }
  }

  lemma {:induction false} RunBlind(a: seq<byte>, b: seq<byte>, z: nat, p: nat, tree: Tree, cap: nat)
    requires SameTo(a, b, z) && p <= z
    ensures Run(a, p, tree, cap) == Run(b, p, tree, cap)
    decreases z - p
  {
    hide After, Opened, Closed, Passed, Grow;
    if Stops(a, p) {
    } else if Opens(a[p]) {
      RunBlind(a, b, z, p + 1, Opened(tree, Bracket(a[p]), p), cap);
    } else if Closes(a[p]) {
      if CanClose(tree, Bracket(a[p])) { RunBlind(a, b, z, p + 1, Closed(tree, p + 1), cap); }
    } else if Ends(a[p]) {
      RunBlind(a, b, z, p + 1, Passed(tree, a[p]), cap);
    } else {
      AfterBlind(a, b, z, p);
      var f := After(a, p);
      if f.At? { RunBlind(a, b, z, f.q, Grow(tree, ValueKind(a[p]), ValuePlace(a[p], p, f.q)), cap); }
    }
  }

  // ---- what completes an incomplete text ----

  predicate NoZero(js: seq<byte>) { forall i :: 0 <= i < |js| ==> js[i] != 0 }

  /** Every open bracket is a container among the tokens. */
  ghost predicate StackOk(t: Tree) {
    forall i :: 0 <= i < |t.stack| ==> t.stack[i] < |t.kinds| && IsContainer(t.kinds[t.stack[i]])
  }

  function Closer(kind: Type): byte { if kind == Object then CLOSE_OBJECT else CLOSE_ARRAY }

  /** The closing brackets, innermost first. */
  ghost function Closers(kinds: seq<Type>, stack: seq<nat>): (s: seq<byte>)
    requires forall i :: 0 <= i < |stack| ==> stack[i] < |kinds|
    ensures |s| == |stack| && forall i :: 0 <= i < |s| ==> Closes(s[i])
    decreases |stack|
  {
    if stack == [] then [] else [Closer(kinds[stack[|stack| - 1]])] + Closers(kinds, stack[..|stack| - 1])
  }

  lemma {:induction false} CloseAll(js: seq<byte>, tree: Tree, cap: nat)
    requires StackOk(tree)
    ensures Run(js + Closers(tree.kinds, tree.stack), |js|, tree, cap).out == Tokens(|tree.kinds|)
    decreases |tree.stack|
  {
    hide Run, Closed, Closers;
    var t := Closers(tree.kinds, tree.stack);
    ClosersStep(tree.kinds, tree.stack);
    if tree.stack == [] {
      assert js + t == js;
      CloseNone(js, tree, cap);
    } else {
      var c, next := t[0], Closed(tree, |js| + 1);
      StackPopped(tree, |js| + 1);
      CloseOne(js, t, tree, cap);
      CloseAll(js + [c], next, cap);
      assert (js + [c]) + t[1..] == js + t;
    }
  }

  lemma ClosersStep(kinds: seq<Type>, stack: seq<nat>)
    requires forall i :: 0 <= i < |stack| ==> stack[i] < |kinds|
    ensures var t := Closers(kinds, stack);
            && (stack == [] ==> t == [])
            && (stack != [] ==>
                  t[0] == Closer(kinds[stack[|stack| - 1]]) && t[1..] == Closers(kinds, stack[..|stack| - 1]))
  {
  }

  lemma StackPopped(tree: Tree, to: nat)
    requires StackOk(tree) && tree.stack != []
    ensures var next := Closed(tree, to);
            StackOk(next) && next.kinds == tree.kinds && next.stack == tree.stack[..|tree.stack| - 1]
  {
  }

  lemma CloseNone(js: seq<byte>, tree: Tree, cap: nat)
    requires tree.stack == []
    ensures Run(js, |js|, tree, cap).out == Tokens(|tree.kinds|)
  {
  }

  lemma CloseOne(js: seq<byte>, t: seq<byte>, tree: Tree, cap: nat)
    requires StackOk(tree) && tree.stack != [] && t != [] && t[0] == Closer(tree.kinds[tree.stack[|tree.stack| - 1]])
    ensures Run(js + t, |js|, tree, cap) == Run(js + t, |js| + 1, Closed(tree, |js| + 1), cap)
  {
    hide Closed;
    assert (js + t)[|js|] == t[0];
  }

  /** Digits that finish a four-digit escape cut short. */
  lemma {:induction false} FinishHex(js: seq<byte>, p: nat, k: nat) returns (t: seq<byte>)
    requires p <= |js| && NoZero(js) && HexRun(js, p, k) == At(|js|)
    ensures forall u :: HexRun(js + t + u, p, k) == At(|js + t|)
    decreases k
  {
    if p == |js| {
      t := seq(k, i => 48);
      forall u ensures HexRun(js + t + u, p, k) == At(|js + t|) {
        Zeros(js, k, u);
      }
    } else if k == 0 {
      t := [];
    } else {
      t := FinishHex(js, p + 1, k - 1);
    }
  }

  lemma {:induction false} Zeros(js: seq<byte>, k: nat, u: seq<byte>)
    ensures HexRun(js + seq(k, i => 48) + u, |js|, k) == At(|js| + k)
    decreases k
  {
    if k > 0 {
      var more: seq<byte> := seq(k - 1, i => 48);
      Zeros(js + [48], k - 1, u);
      assert js + seq(k, i => 48) + u == (js + [48]) + more + u;
    }
  }

  /** Octets that finish a string cut short. */
  lemma {:induction false} FinishString(js: seq<byte>, p: nat) returns (t: seq<byte>)
    requires p <= |js| && NoZero(js) && StringEnd(js, p) == Partial
    ensures |js + t| > p && StringEnd(js + t, p) == At(|js + t| - 1)
    decreases |js| - p
  {
    hide HexRun;
    if p == |js| {
      t := [QUOTE];
    } else if js[p] == BACKSLASH && p + 1 == |js| {
      t := [110, QUOTE];
      QuoteAt(js + t, p + 2);
    } else if js[p] == BACKSLASH && Escapes(js[p + 1]) {
      t := FinishString(js, p + 2);
    } else if js[p] == BACKSLASH {
      t := FinishEscape(js, p);
    } else {
      t := FinishString(js, p + 1);
    }
  }

  lemma QuoteAt(js: seq<byte>, q: nat)
    requires q < |js| && js[q] == QUOTE
    ensures StringEnd(js, q) == At(q)
  {
  }

  lemma {:induction false} FinishEscape(js: seq<byte>, p: nat) returns (t: seq<byte>)
    requires p + 1 < |js| && NoZero(js) && StringEnd(js, p) == Partial
    requires js[p] == BACKSLASH && !Escapes(js[p + 1])
    ensures |js + t| > p && StringEnd(js + t, p) == At(|js + t| - 1)
    decreases |js| - p, 0
  {
    hide HexRun;
    var h := HexRun(js, p + 2, 4);
    if h.q == |js| {
      var d := FinishHex(js, p + 2, 4);
      t := d + [QUOTE];
      assert js + t == js + d + [QUOTE];
      QuoteAt(js + t, |js + d|);
    } else {
      t := FinishString(js, h.q);
      HexFinal(js, t, p + 2, 4);
    }
  }

  lemma {:induction false} PrimitiveThen(js: seq<byte>, t: seq<byte>, p: nat)
    requires p <= |js| && NoZero(js) && PrimitiveEnd(js, p) == At(|js|) && t != [] && Ends(t[0])
    ensures PrimitiveEnd(js + t, p) == At(|js|)
    decreases |js| - p
  {
    if p < |js| { PrimitiveThen(js, t, p + 1); }
  }

  /** The last value of a text, closed by what follows. */
  lemma AfterThen(js: seq<byte>, t: seq<byte>, p: nat)
    requires p < |js| && NoZero(js) && !Ends(js[p]) && !Opens(js[p]) && After(js, p) == At(|js|)
    requires t != [] && Closes(t[0])
    ensures After(js + t, p) == At(|js|)
  {
    hide StringEnd, PrimitiveEnd;
    if js[p] == QUOTE { StringFinal(js, t, p + 1); } else { PrimitiveThen(js, t, p); }
  }

  lemma StepsKeep(tree: Tree, kind: Type, at: Place, p: nat, c: byte)
    requires StackOk(tree)
    ensures StackOk(Grow(tree, kind, at)) && StackOk(Passed(tree, c))
    ensures IsContainer(kind) ==> StackOk(Opened(tree, kind, p))
    ensures tree.stack != [] ==> StackOk(Closed(tree, p + 1))
    ensures Grow(tree, kind, at).stack == tree.stack
  {
  }

  /** What a text that ends in the middle of a string needs. */
  lemma EndInString(js: seq<byte>, p: nat, tree: Tree, more: nat) returns (t: seq<byte>)
    requires p < |js| && NoZero(js) && js[p] == QUOTE && StringEnd(js, p + 1) == Partial
    requires StackOk(tree) && |tree.kinds| < more
    ensures Run(js + t, p, tree, more).out.Tokens?
  {
    hide StringEnd, Run;
    var end := FinishString(js, p + 1);
    var u := js + end;
    var g := Grow(tree, String, Place(p + 1, |u| - 1));
    StepsKeep(tree, String, Place(p + 1, |u| - 1), p, 0);
    var close := Closers(g.kinds, g.stack);
    t := end + close;
    assert js + t == u + close;
    StringFinal(u, close, p + 1);
    assert After(js + t, p) == At(|u|);
    JsmnGrammar.ValueStep(js + t, p, tree, more);
    CloseAll(u, g, more);
  }

  lemma EndAfterValue(js: seq<byte>, p: nat, tree: Tree, cap: nat, more: nat) returns (t: seq<byte>)
    requires p < |js| && NoZero(js) && !Ends(js[p]) && !Opens(js[p]) && After(js, p) == At(|js|)
    requires Run(js, p, tree, cap).out == Part && StackOk(tree) && |tree.kinds| < more
    ensures Run(js + t, p, tree, more).out.Tokens?
  {
    hide After;
    var at := ValuePlace(js[p], p, |js|);
    var g := Grow(tree, ValueKind(js[p]), at);
    StepsKeep(tree, ValueKind(js[p]), at, p, 0);
    assert g.stack != [];
    t := Closers(g.kinds, g.stack);
    AfterThen(js, t, p);
    hide Run;
    JsmnGrammar.ValueStep(js + t, p, tree, more);
    CloseAll(js, g, more);
  }

  /** Octets that complete an incomplete text, from any point of its parse. */
  lemma {:induction false} PartCloses(js: seq<byte>, p: nat, tree: Tree, cap: nat, more: nat) returns (t: seq<byte>)
    requires p <= |js| && NoZero(js) && Run(js, p, tree, cap).out == Part
    requires StackOk(tree) && |tree.kinds| + (|js| - p) + 1 <= more
    ensures Run(js + t, p, tree, more).out.Tokens?
    decreases |js| - p
  {
    hide After, Opened, Closed, Passed, Grow, StackOk;
    if p == |js| {
      t := EndOpen(js, tree, more);
    } else {
      StepsKeep(tree, Bracket(js[p]), Place(p, -1), p, js[p]);
      SameCount(tree, Bracket(js[p]), Place(p, -1), p, js[p]);
      if Opens(js[p]) {
        t := PartCloses(js, p + 1, Opened(tree, Bracket(js[p]), p), cap, more);
      } else if Closes(js[p]) {
        t := PartCloses(js, p + 1, Closed(tree, p + 1), cap, more);
      } else if Ends(js[p]) {
        t := PartCloses(js, p + 1, Passed(tree, js[p]), cap, more);
      } else {
        t := PartValue(js, p, tree, cap, more);
      }
    }
  }

  lemma EndOpen(js: seq<byte>, tree: Tree, more: nat) returns (t: seq<byte>)
    requires StackOk(tree)
    ensures Run(js + t, |js|, tree, more).out.Tokens?
  {
    hide Run;
    t := Closers(tree.kinds, tree.stack);
    CloseAll(js, tree, more);
  }

  lemma {:induction false} PartValue(js: seq<byte>, p: nat, tree: Tree, cap: nat, more: nat) returns (t: seq<byte>)
    requires p < |js| && NoZero(js) && Run(js, p, tree, cap).out == Part && !Opens(js[p]) && !Ends(js[p])
    requires StackOk(tree) && |tree.kinds| + (|js| - p) + 1 <= more
    ensures Run(js + t, p, tree, more).out.Tokens?
    decreases |js| - p, 0
  {
    hide After, Grow, StackOk;
    var f := After(js, p);
    if f == Partial {
      PartialIsString(js, p);
      t := EndInString(js, p, tree, more);
    } else if f.q == |js| {
      t := EndAfterValue(js, p, tree, cap, more);
    } else {
      var at := ValuePlace(js[p], p, f.q);
      StepsKeep(tree, ValueKind(js[p]), at, p, js[p]);
      SameCount(tree, ValueKind(js[p]), at, p, js[p]);
      t := PartCloses(js, f.q, Grow(tree, ValueKind(js[p]), at), cap, more);
      AfterFinal(js, t, p);
    }
  }

  lemma PartialIsString(js: seq<byte>, p: nat)
    requires p < |js| && !Opens(js[p]) && !Ends(js[p]) && js[p] != 0 && After(js, p) == Partial
    ensures js[p] == QUOTE && StringEnd(js, p + 1) == Partial
  {
  }

  /** INCOMPLETE MEANS THAT MORE CAN COME. A text found incomplete can be completed,
      given enough tokens, if and only if no zero byte has ended it. */
  lemma PartExactly(js: seq<byte>, cap: nat)
    requires Run(js, 0, EMPTY, cap).out == Part
    ensures (exists t, more :: Run(js + t, 0, EMPTY, more).out.Tokens?) <==> NoZero(js)
  {
    hide Run;
    if NoZero(js) {
      var t := PartCloses(js, 0, EMPTY, cap, |js| + 1);
    } else {
      var z :| 0 <= z < |js| && js[z] == 0;
      forall t, more ensures !Run(js + t, 0, EMPTY, more).out.Tokens? {
        RunBlind(js, js + t, z, 0, EMPTY, more);
        if cap <= more {
          JsmnGrammar.LessRoom(js, 0, EMPTY, cap, more);
        } else {
          JsmnGrammar.LessRoom(js, 0, EMPTY, more, cap);
        }
      }
    }
  }
}
