/** The tokenizer itself: positions, token array and superior token updated in
    place. */
module JsmnParser {
  import opened Bytes
  import opened JsmnSpec
  import opened JsmnTokens

  /** The loop of `jsmn_parse_string` over the contents from `start` on. */
  method SkipString(js: seq<byte>, start: nat) returns (f: Found)
    requires start <= |js|
    ensures f == StringEnd(js, start)
  {
    var p := start;
    while p < |js| && js[p] != 0
      invariant start <= p <= |js| && StringEnd(js, start) == StringEnd(js, p)
    {
      var c := js[p];
      if c == QUOTE { return At(p); }
      if c == BACKSLASH && p + 1 < |js| {
        p := p + 1;
        if js[p] == LOWER_U {
          var h := SkipHex(js, p + 1);
          if h == Bad { return Bad; }
          p := h.q - 1;
        } else if !Escapes(js[p]) {
          return Bad;
        }
      }
      p := p + 1;
    }
    f := Partial;
  }

  method SkipHex(js: seq<byte>, start: nat) returns (f: Found)
    requires start <= |js|
    ensures f == HexRun(js, start, 4)
  {
    var p, i := start, 0;
    while i < 4 && p < |js| && js[p] != 0
      invariant i <= 4 && start <= p <= |js| && HexRun(js, start, 4) == HexRun(js, p, 4 - i)
    {
      if !IsHex(js[p]) { return Bad; }
      p, i := p + 1, i + 1;
    }
    f := At(p);
  }

  /** The loop of `jsmn_parse_primitive`. */
  method SkipPrimitive(js: seq<byte>, start: nat) returns (f: Found)
    requires start <= |js|
    ensures f == PrimitiveEnd(js, start)
  {
    var p := start;
    while p < |js| && js[p] != 0
      invariant start <= p <= |js| && PrimitiveEnd(js, start) == PrimitiveEnd(js, p)
    {
      if Ends(js[p]) { return At(p); }
      if Unprintable(js[p]) { return Bad; }
      p := p + 1;
    }
    f := At(p);
  }

  /** The innermost open bracket below `n`, or -1. */
  method LastOpen(tokens: array<Token>, n: nat) returns (k: int)
    requires n <= tokens.Length
    ensures -1 <= k < n && (k != -1 ==> tokens[k].end == -1)
    ensures forall i :: k < i < n ==> tokens[i].end != -1
  {
    k := n - 1;
    while k >= 0 && tokens[k].end != -1
      invariant -1 <= k < n && forall i :: k < i < n ==> tokens[i].end != -1
    {
      k := k - 1;
    }
  }

  class Parser {
    var pos: nat
    var toknext: nat
    var toksuper: int
    /** The superior token each token was allocated under. */
    ghost var parents: seq<int>

    /** `jsmn_init` */
    constructor ()
      ensures pos == 0 && toknext == 0 && toksuper == -1 && parents == []
    {
      pos, toknext, toksuper, parents := 0, 0, -1, [];
    }

    ghost predicate Ok(js: seq<byte>, tokens: array<Token>)
      reads this, tokens
    {
      && pos <= |js| && toknext <= tokens.Length && -1 <= toksuper < toknext
      && WellFormed(js, tokens[..toknext], pos) && SizesOk(tokens[..toknext], parents)
    }

    /** The tree parsed so far. */
    ghost function State(tokens: array<Token>): Tree
      requires toknext <= tokens.Length
      reads this, tokens
    {
      TreeOf(tokens[..toknext], parents, toksuper)
    }

    /** `jsmn_alloc_token` and the fill that follows, under the superior token. */
    method Append(js: seq<byte>, tokens: array<Token>, t: Token, next: nat)
      requires Ok(js, tokens) && toknext < tokens.Length && pos <= next <= |js|
      requires TokenOk(js, t, next) && pos <= t.start && t.size == 0
      modifies this, tokens
      ensures Ok(js, tokens) && toknext == old(toknext) + 1 && pos == next && tokens[toknext - 1] == t
      ensures var g := Grow(old(State(tokens)), t.kind, Place(t.start, t.end));
              State(tokens) == if t.end == -1 then g.(stack := g.stack + [old(toknext)]) else g
    {
      hide TokenOk, WellFormed, SizesOk, OpenStack;
      ghost var toks := tokens[..toknext];
      tokens[toknext] := t;
      toknext := toknext + 1;
      if toksuper != -1 {
        tokens[toksuper] := tokens[toksuper].(size := tokens[toksuper].size + 1);
      }
      assert tokens[..toknext] == Bumped(toks, toksuper) + [t];
      BumpKeeps(js, toks, pos, toksuper);
      AppendKeeps(js, Bumped(toks, toksuper), pos, t, next);
      AppendCounts(toks, parents, t, toksuper);
      BumpStack(toks, toksuper);
      AppendPushes(Bumped(toks, toksuper), t);
      parents := parents + [toksuper];
      pos := next;
    }

    /** `{` and `[` */
    method OpenBracket(js: seq<byte>, tokens: array<Token>)
      requires Ok(js, tokens) && toknext < tokens.Length && pos < |js| && Opens(js[pos])
      modifies this, tokens
      ensures Ok(js, tokens) && toknext == old(toknext) + 1 && pos == old(pos) + 1
      ensures State(tokens) == Opened(old(State(tokens)), Bracket(js[old(pos)]), old(pos))
    {
      hide WellFormed, SizesOk, OpenStack;
      Append(js, tokens, Token(Bracket(js[pos]), pos, -1, 0), pos + 1);
      toksuper := toknext - 1;
    }

    /** `}` and `]` */
    method CloseBracket(js: seq<byte>, tokens: array<Token>) returns (ok: bool)
      requires Ok(js, tokens) && pos < |js| && Closes(js[pos])
      modifies this, tokens
      ensures Ok(js, tokens) && toknext == old(toknext) && pos == old(pos) + if ok then 1 else 0
      ensures ok == CanClose(old(State(tokens)), Bracket(js[old(pos)]))
      ensures State(tokens) == if ok then Closed(old(State(tokens)), pos) else old(State(tokens))
    {
      hide TokenOk, WellFormed, SizesOk, OpenStack;
      ghost var toks := tokens[..toknext];
      var k := LastOpen(tokens, toknext);
      LookBack(toks, k);
      if k == -1 { return false; }
      CloseIsPop(toks, k, pos + 1);
      if tokens[k].kind != Bracket(js[pos]) { return false; }
      CloseKeeps(js, toks, pos, k);
      EndCounts(toks, parents, k, pos + 1);
      tokens[k] := tokens[k].(end := pos + 1);
      assert tokens[..toknext] == toks[k := toks[k].(end := pos + 1)];
      toksuper := LastOpen(tokens, k);
      assert tokens[..k] == toks[..k];
      LookBack(toks[..k], toksuper);
      pos := pos + 1;
      ok := true;
    }

    /** `,` after a value that had a key: back to the innermost open bracket. */
    method Comma(js: seq<byte>, tokens: array<Token>)
      requires Ok(js, tokens)
      modifies `toksuper
      ensures Ok(js, tokens) && State(tokens) == Separated(old(State(tokens)))
    {
      hide TokenOk, WellFormed, SizesOk, OpenStack;
      if toksuper != -1 && !Container(tokens[toksuper]) {
        var i := toknext - 1;
        while i >= 0 && !(Container(tokens[i]) && tokens[i].end == -1)
          invariant -1 <= i < toknext && Ok(js, tokens) && toksuper == old(toksuper)
          invariant forall j :: i < j < toknext ==> tokens[j].end != -1
        {
          if tokens[i].end == -1 { OpenIsContainer(js, tokens[..toknext], pos, i); }
          i := i - 1;
        }
        LookBack(tokens[..toknext], i);
        if i >= 0 {
          toksuper := i;
        }
      }
    }

    /** `jsmn_parse_string` and `jsmn_parse_primitive`. A failure leaves the
        parser where the value began. */
    method Value(js: seq<byte>, tokens: array<Token>) returns (ok: bool, why: Outcome)
      requires Ok(js, tokens) && pos < |js| && js[pos] != 0 && !Ends(js[pos]) && !Opens(js[pos])
      modifies this, tokens
      ensures Ok(js, tokens)
      ensures var f := After(js, old(pos));
              && ok == (f.At? && old(toknext) < tokens.Length)
              && (ok ==> pos == f.q && toknext == old(toknext) + 1)
              && (!ok ==> why == (if f.At? then NoMem else Failed(f)) && toknext == old(toknext) && pos == old(pos))
      ensures State(tokens) == if ok then Grow(old(State(tokens)), ValueKind(js[old(pos)]),
                                               ValuePlace(js[old(pos)], old(pos), pos))
                               else old(State(tokens))
    {
      hide WellFormed, SizesOk, OpenStack;
      ok, why := false, NoMem;
      var f, t, next;
      if js[pos] == QUOTE {
        f := SkipString(js, pos + 1);
        if f.At? {
          t, next := Token(String, pos + 1, f.q, 0), f.q + 1;
        }
      } else {
        f := SkipPrimitive(js, pos);
        if f.At? {
          t, next := Token(Primitive, pos, f.q, 0), f.q;
        }
      }
      if !f.At? { return false, Failed(f); }
      if toknext >= tokens.Length { return; }
      Append(js, tokens, t, next);
      ok := true;
    }

    /** `jsmn_parse` with a token array. The outcome and the tree are the
        reference's, whose stack is the open brackets of the array; on success
        every token is closed, so the array is a forest of disjoint or nested
        spans in the order they start. */
    method Parse(js: seq<byte>, tokens: array<Token>) returns (r: Outcome)
      requires Ok(js, tokens)
      modifies this, tokens
      ensures Ok(js, tokens)
      ensures Result(r, State(tokens)) == Run(js, old(pos), old(State(tokens)), tokens.Length)
      ensures r.Tokens? ==> r.n == toknext && AllClosed(tokens[..toknext]) && Stops(js, pos)
    {
      hide TokenOk, WellFormed, SizesOk, OpenStack, After, Opened, Grow, Closed, CanClose, Separated;
      ghost var run := Run(js, pos, State(tokens), tokens.Length);
      var count := toknext;
      while pos < |js| && js[pos] != 0
        invariant Ok(js, tokens) && Run(js, pos, State(tokens), tokens.Length) == run
        invariant count == toknext
        decreases |js| - pos
      {
        var c := js[pos];
        if Opens(c) {
          count := count + 1;
          if toknext >= tokens.Length { return NoMem; }
          OpenBracket(js, tokens);
        } else if Closes(c) {
          var ok := CloseBracket(js, tokens);
          if !ok { return Inval; }
        } else if Ends(c) {
          if c == COLON {
            toksuper := toknext - 1;
          } else if c == COMMA {
            Comma(js, tokens);
          }
          PassKeeps(js, tokens[..toknext], pos, pos + 1);
          pos := pos + 1;
        } else {
          var ok, why := Value(js, tokens);
          if !ok { return why; }
          count := count + 1;
        }
      }
      var k := LastOpen(tokens, toknext);
      LookBack(tokens[..toknext], k);
      r := if k != -1 then Part else Tokens(count);
    }

    /** `jsmn_parse` without tokens. */
    method CountTokens(js: seq<byte>) returns (r: Outcome)
      requires pos <= |js|
      modifies this
      ensures r == Count(js, old(pos), old(toknext)) && toknext == old(toknext)
    {
      var count := toknext;
      while pos < |js| && js[pos] != 0
        invariant pos <= |js| && toknext == old(toknext)
        invariant Count(js, pos, count) == Count(js, old(pos), old(toknext))
        decreases |js| - pos
      {
        var c := js[pos];
        if Opens(c) {
          count := count + 1;
          pos := pos + 1;
        } else if Ends(c) {
          if c == COLON {
            toksuper := toknext - 1;
          }
          pos := pos + 1;
        } else {
          var f;
          if c == QUOTE {
            f := SkipString(js, pos + 1);
            if f.At? { f := At(f.q + 1); }
          } else {
            f := SkipPrimitive(js, pos);
          }
          if !f.At? { return Failed(f); }
          count := count + 1;
          pos := f.q;
        }
      }
      r := Tokens(count);
    }
  }

  /** TWO PASSES. Counting first and parsing into that many tokens never runs out
      of tokens, and a parse that succeeds fills them all: closed, in the text,
      in order of start, disjoint or nested, brackets matched. */
  method TwoPasses(js: seq<byte>) returns (r: Outcome, tokens: array<Token>)
    ensures r != NoMem
    ensures r.Tokens? ==> r.n == tokens.Length && AllClosed(tokens[..]) && WellFormed(js, tokens[..], |js|)
    ensures r.Tokens? ==> Run(js, 0, EMPTY, tokens.Length).out == r
                          && SizesOk(tokens[..], Run(js, 0, EMPTY, tokens.Length).tree.parents)
  {
    hide TokenOk, WellFormed, SizesOk, OpenStack, Run, Count;
    var counter := new Parser();
    var n := counter.CountTokens(js);
    tokens := new Token[0];
    CountGrows(js, 0, 0);
    if !n.Tokens? { return n, tokens; }
    tokens := new Token[n.n](i => Token(Primitive, 0, 0, 0));
    var parser := new Parser();
    assert tokens[..0] == [];
    NothingRead(js);
    r := parser.Parse(js, tokens);
    CountSuffices(js, 0, EMPTY, n.n);
    if r.Tokens? {
      assert tokens[..parser.toknext] == tokens[..];
      PassKeeps(js, tokens[..], parser.pos, |js|);
    }
  }

  lemma NothingRead(js: seq<byte>)
    ensures WellFormed(js, [], 0) && SizesOk([], []) && TreeOf([], [], -1) == EMPTY
  {
  }
}
