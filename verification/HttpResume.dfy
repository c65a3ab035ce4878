/** The "has it completed yet" shortcut: a caller that saw a partial request of
    `last_len` octets looks only for the empty line that would complete it. */
module HttpResume {
  import opened Bytes
  import opened HttpRequest

  /** Two line ends in a row from `i` on, `count` of them seen so far. */
  function FindBlankLine(s: seq<byte>, i: nat, count: nat): (r: Parsed<()>)
    requires i <= |s| && count < 2
    ensures r.Ok? ==> r.at <= |s|
    decreases |s| - i
  {
    if i == |s| then Partial
    else if s[i] == CR && i + 1 == |s| then Partial
    else if s[i] == CR && s[i + 1] != LF then Err
    else if s[i] == CR || s[i] == LF then
      var next := if s[i] == CR then i + 2 else i + 1;
      if count == 1 then Ok(next, ()) else FindBlankLine(s, next, 1)
    else FindBlankLine(s, i + 1, 0)
  }

  /** Three octets back from where the last attempt ended. */
  function IsComplete(s: seq<byte>, lastLen: nat): Parsed<()>
    requires lastLen <= |s|
  {
    FindBlankLine(s, if lastLen < 3 then 0 else lastLen - 3, 0)
  }

  /** `phr_parse_request` with its `last_len`. */
  function ParseFrom(s: seq<byte>, max: nat, lastLen: nat): Parsed<Request>
    requires lastLen <= |s|
  {
    if lastLen == 0 then Parse(s, max)
    else match IsComplete(s, lastLen)
      case Err => Err
      case Partial => Partial
      case Ok(_, _) => Parse(s, max)
  }

  // ---- what a complete request looks like ----

  /** In this stretch a CR occurs only as part of a CR LF. */
  ghost predicate Paired(s: seq<byte>, lo: nat, hi: nat) {
    hi <= |s| && forall j :: lo <= j < hi && s[j] == CR ==> j + 1 < hi && s[j + 1] == LF
  }

  /** The line before ends with a line feed, and an empty line follows it. */
  ghost predicate EndsBlank(s: seq<byte>, n: nat) {
    2 <= n <= |s| && s[n - 1] == LF && (s[n - 2] == LF || (n > 2 && s[n - 2] == CR && s[n - 3] == LF))
  }

  lemma Join(s: seq<byte>, lo: nat, mid: nat, hi: nat)
    requires lo <= mid <= hi && Paired(s, lo, mid) && Paired(s, mid, hi)
    ensures Paired(s, lo, hi)
  {
  }

  lemma TokenToEolPaired(s: seq<byte>, i: nat)
    requires i <= |s| && TokenToEol(s, i).Ok?
    ensures var n := TokenToEol(s, i).at; Paired(s, i, n) && s[n - 1] == LF
  {
    hide Scan;
  }

  lemma HeaderLinePaired(s: seq<byte>, i: nat, first: bool)
    requires i < |s| && HeaderLine(s, i, first).Ok?
    ensures var n := HeaderLine(s, i, first).at; Paired(s, i, n) && s[n - 1] == LF
  {
    hide Scan, TokenToEol;
    var v := Name(s, i, first);
    TokenToEolPaired(s, v.at);
    assert Paired(s, i, v.at);
    Join(s, i, v.at, HeaderLine(s, i, first).at);
  }

  lemma {:induction false} HeadersPaired(s: seq<byte>, i: nat, hs: seq<Header>, max: nat)
    requires 0 < i <= |s| && |hs| <= max && s[i - 1] == LF && Headers(s, i, hs, max).Ok?
    ensures var n := Headers(s, i, hs, max).at; Paired(s, i, n) && EndsBlank(s, n)
    decreases |s| - i
  {
    hide HeaderLine;
    if s[i] != CR && s[i] != LF {
      HeaderLinePaired(s, i, |hs| == 0);
      var h := HeaderLine(s, i, |hs| == 0);
      HeadersPaired(s, h.at, hs + [h.value], max);
      Join(s, i, h.at, Headers(s, i, hs, max).at);
    }
  }

  lemma TargetPaired(s: seq<byte>, i: nat)
    requires i <= |s| && Target(s, i).Ok?
    ensures Paired(s, i, Target(s, i).at)
  {
    hide Scan;
    var t := Token(s, i, SP);
    var p := Past(PastSpaces, s, t.at + 1);
    var q := Path(s, p.at);
    var v := Past(PastSpaces, s, q.at + 1);
    assert Paired(s, i, t.at + 1);
    assert Paired(s, t.at + 1, p.at);
    assert Paired(s, p.at, q.at + 1);
    assert Paired(s, q.at + 1, v.at);
  }

  lemma VersionPaired(s: seq<byte>, i: nat)
    requires i <= |s| && Version(s, i).Ok?
    ensures Paired(s, i, i + 8)
  {
    var v := s[i..i + 7];
    forall j | i <= j < i + 8 ensures s[j] != CR {
      if j < i + 7 { assert s[j] == v[j - i]; }
    }
  }

  lemma RequestLinePaired(s: seq<byte>, i: nat)
    requires i <= |s| && RequestLine(s, i).Ok?
    ensures var n := RequestLine(s, i).at; Paired(s, i, n) && s[n - 1] == LF
  {
    hide Target, Version;
    var v := Target(s, i);
    TargetPaired(s, i);
    VersionPaired(s, v.at);
    Join(s, i, v.at, v.at + 8);
    Join(s, i, v.at + 8, RequestLine(s, i).at);
  }

  lemma ParsePaired(s: seq<byte>, max: nat)
    requires Parse(s, max).Ok?
    ensures var n := Parse(s, max).at; Paired(s, 0, n) && EndsBlank(s, n)
  {
    hide RequestLine, Headers;
    var i := Lead(s);
    assert Paired(s, 0, i.at);
    RequestLinePaired(s, i.at);
    var e := RequestLine(s, i.at);
    HeadersPaired(s, e.at, [], max);
    Join(s, 0, i.at, e.at);
    Join(s, 0, e.at, Parse(s, max).at);
  }

  /** Where the empty line starts. */
  ghost function BlankAt(s: seq<byte>, n: nat): nat
    requires EndsBlank(s, n)
  {
    if s[n - 2] == LF then n - 1 else n - 2
  }

  /** A search that starts on the line end before the empty line, or earlier,
      finds it or an earlier one. */
  lemma {:induction false} BlankLineFound(s: seq<byte>, i: nat, count: nat, n: nat)
    requires Paired(s, i, n) && EndsBlank(s, n) && count < 2
    requires i < BlankAt(s, n) || (i == BlankAt(s, n) && count == 1)
    ensures FindBlankLine(s, i, count).Ok?
    decreases n - i
  {
    if i < BlankAt(s, n) {
      if s[i] == CR || s[i] == LF {
        if count == 0 { BlankLineFound(s, if s[i] == CR then i + 2 else i + 1, 1, n); }
      } else {
        BlankLineFound(s, i + 1, 0, n);
      }
    }
  }

  /** A request that was partial at `k` octets completes behind them. */
  lemma CompletesLater(s: seq<byte>, max: nat, k: nat)
    requires k <= |s| && Parse(s[..k], max) == Partial && Parse(s, max).Ok?
    ensures Parse(s, max).at > k
  {
    hide Parse;
    if Parse(s, max).at <= k { ParseAgrees(s, s[..k], max, Parse(s, max).at); }
  }

  /** RESUME. When the first `k` octets were partial, looking for the empty line
      from three octets back loses no request and changes no field of one. */
  lemma ResumeIsSound(s: seq<byte>, max: nat, k: nat)
    requires k <= |s| && Parse(s[..k], max) == Partial
    ensures ParseFrom(s, max, k).Ok? <==> Parse(s, max).Ok?
    ensures Parse(s, max).Ok? ==> ParseFrom(s, max, k) == Parse(s, max)
  {
    hide Parse, FindBlankLine;
    if Parse(s, max).Ok? {
      CompletesLater(s, max, k);
      ParsePaired(s, max);
      BlankLineFound(s, if k < 3 then 0 else k - 3, 0, Parse(s, max).at);
    }
  }

  lemma {:induction false} SearchIsFinal(s: seq<byte>, t: seq<byte>, i: nat, count: nat)
    requires i <= |s| && count < 2 && FindBlankLine(s, i, count) != Partial
    ensures FindBlankLine(s + t, i, count) == FindBlankLine(s, i, count)
    decreases |s| - i
  {
    if s[i] == CR || s[i] == LF {
      var next := if s[i] == CR then i + 2 else i + 1;
      if count == 0 && next <= |s| && FindBlankLine(s, i, count) == FindBlankLine(s, next, 1) {
        SearchIsFinal(s, t, next, 1);
      }
    } else {
      SearchIsFinal(s, t, i + 1, 0);
    }
  }

  /** Nor is an error of the shortcut ever a mistake: nothing that arrives later
      makes the request good. */
  lemma ResumeErrorIsFinal(s: seq<byte>, t: seq<byte>, max: nat, k: nat)
    requires k <= |s| && Parse(s[..k], max) == Partial && ParseFrom(s, max, k) == Err
    ensures !Parse(s + t, max).Ok?
  {
    hide Parse, FindBlankLine;
    assert (s + t)[..k] == s[..k];
    ResumeIsSound(s + t, max, k);
    if k > 0 && IsComplete(s, k) == Err {
      SearchIsFinal(s, t, if k < 3 then 0 else k - 3, 0);
    } else {
      VerdictIsFinal(s, t, max);
    }
  }

  /** What the search found: an empty line, whose line before ends at `i` or later. */
  lemma {:induction false} FoundIsBlank(s: seq<byte>, i: nat, count: nat)
    requires i <= |s| && count < 2 && (count == 1 ==> i > 0 && s[i - 1] == LF)
    ensures var r := FindBlankLine(s, i, count);
            && (r.Ok? ==> EndsBlank(s, r.at) && (BlankAt(s, r.at) > i || (count == 1 && BlankAt(s, r.at) == i)))
            && (r.Err? ==> exists j :: i <= j < |s| - 1 && s[j] == CR && s[j + 1] != LF)
    decreases |s| - i
  {
    if i == |s| || (s[i] == CR && i + 1 == |s|) {
    } else if s[i] == CR && s[i + 1] != LF {
    } else if s[i] == CR || s[i] == LF {
      if count == 0 { FoundIsBlank(s, if s[i] == CR then i + 2 else i + 1, 1); }
    } else {
      FoundIsBlank(s, i + 1, 0);
    }
  }

  /** THE SHORTCUT WAITS. Until an empty line comes no more than three octets before
      where the last attempt ended, nothing is parsed, and the answer is partial
      unless a CR stands without its LF. */
  lemma ResumeWaits(s: seq<byte>, max: nat, k: nat)
    requires 0 < k <= |s|
    requires forall n :: EndsBlank(s, n) ==> BlankAt(s, n) <= if k < 3 then 0 else k - 3
    ensures !ParseFrom(s, max, k).Ok?
    ensures ParseFrom(s, max, k) == Err ==> exists j :: 0 <= j < |s| - 1 && s[j] == CR && s[j + 1] != LF
  {
    hide Parse, FindBlankLine;
    FoundIsBlank(s, if k < 3 then 0 else k - 3, 0);
  }
}
