/** What a partial request can still become: either some octets complete it, or its
    request line is already beyond repair in one of two ways that the parser only
    looks at later. */
module HttpPartial {
  import opened Bytes
  import opened HttpRequest

  // ---- scanning on behind the end ----

  lemma ScanIs(k: Scanner, s: seq<byte>, i: nat, e: nat)
    requires i <= e < |s| && Stops(k, s[e]) && forall j :: i <= j < e ==> !Stops(k, s[j])
    ensures Scan(k, s, i) == e
  {
    hide Stops;
    var x := Scan(k, s, i);
    hide Scan;
  }

  /** A scanner that ran to the end goes on over `over` and stops at what follows. */
  lemma ScanOn(k: Scanner, s: seq<byte>, i: nat, over: seq<byte>, t: seq<byte>)
    requires i <= |s| && Scan(k, s, i) == |s| && t != [] && Stops(k, t[0])
    requires forall j :: 0 <= j < |over| ==> !Stops(k, over[j])
    ensures Scan(k, s + (over + t), i) == |s| + |over|
  {
    hide Stops;
    assert forall j :: i <= j < |s| ==> !Stops(k, s[j]);
    hide Scan;
    ScanIs(k, s + (over + t), i, |s| + |over|);
  }

  // ---- header lines ----

  lemma EolAtEnd(s: seq<byte>, i: nat)
    requires i < |s| && LineEnd(s, i) == Partial
    ensures LineEnd(s + [LF], i) == Ok(|s| + 1, ())
  {
  }

  /** A value that goes on at the end ends with a line feed. */
  lemma EndValue(s: seq<byte>, v: nat)
    requires v <= |s| && TokenToEol(s, v) == Partial
    ensures TokenToEol(s + [LF], v).Ok? && TokenToEol(s + [LF], v).at == |s| + 1
  {
    hide Scan, LineEnd;
    var e := Scan(ToLineEnd, s, v);
    if e == |s| {
      assert s + ([] + [LF]) == s + [LF];
      ScanOn(ToLineEnd, s, v, [], [LF]);
      LfEnds(s);
    } else {
      ScanAgrees(ToLineEnd, s, s + [LF], v, |s|);
      EolAtEnd(s, e);
    }
  }

  lemma LfEnds(s: seq<byte>)
    ensures LineEnd(s + [LF], |s|) == Ok(|s| + 1, ())
  {
  }

  /** Octets that end the header line at `i`. */
  lemma EndLine(s: seq<byte>, i: nat, first: bool) returns (t: seq<byte>)
    requires i < |s| && HeaderLine(s, i, first) == Partial
    ensures HeaderLine(s + t, i, first).Ok? && HeaderLine(s + t, i, first).at == |s + t|
  {
    hide Name, TokenToEol, Trim;
    var n := Name(s, i, first);
    if n.Ok? {
      t := [LF];
      NameAgrees(s, s + t, i, first, |s|);
      EndValue(s, n.at);
    } else {
      t := EndName(s, i, first);
      var v := Name(s + t, i, first).at;
      LfEnds(s + t[..|t| - 1]);
      assert s + t[..|t| - 1] + [LF] == s + t;
      AtLf(s + t, v);
    }
  }

  /** A line end right where a value would begin. */
  lemma AtLf(s: seq<byte>, v: nat)
    requires v == |s| - 1 && s[v] == LF
    ensures TokenToEol(s, v) == Ok(v + 1, Span(v, 0))
  {
    hide Scan;
    ScanIs(ToLineEnd, s, v, v);
  }

  /** A name that goes on at the end, or blanks behind it. */
  lemma EndName(s: seq<byte>, i: nat, first: bool) returns (t: seq<byte>)
    requires i < |s| && Name(s, i, first) == Partial
    ensures t != [] && t[|t| - 1] == LF && Name(s + t, i, first).Ok? && Name(s + t, i, first).at == |s + t| - 1
  {
    hide Scan;
    var e := Scan(ToChar(COLON), s, i);
    if e == |s| {
      t := [97] + [COLON, LF];
      ScanOn(ToChar(COLON), s, i, [97], [COLON, LF]);
      ScanIs(PastBlanks, s + t, |s| + 2, |s| + 2);
    } else {
      t := [LF];
      ScanAgrees(ToChar(COLON), s, s + t, i, |s|);
      assert s + ([] + [LF]) == s + t;
      ScanOn(PastBlanks, s, e + 1, [], [LF]);
    }
  }

  /** Octets that complete the header lines from `i` on. */
  lemma {:induction false} EndHeaders(s: seq<byte>, i: nat, hs: seq<Header>, max: nat) returns (t: seq<byte>)
    requires i <= |s| && |hs| <= max && Headers(s, i, hs, max) == Partial
    ensures Headers(s + t, i, hs, max).Ok?
    decreases |s| - i
  {
    hide HeaderLine, LineEnd;
    if i == |s| {
      t := [LF];
      LfEnds(s);
    } else if s[i] == CR || s[i] == LF {
      t := [LF];
      EolAtEnd(s, i);
    } else {
      var h := HeaderLine(s, i, |hs| == 0);
      if h.Ok? {
        t := EndHeaders(s, h.at, hs + [h.value], max);
        HeaderLineAgrees(s, s + t, i, |hs| == 0, |s|);
      } else {
        var u := EndLine(s, i, |hs| == 0);
        t := u + [LF];
        assert s + t == (s + u) + [LF];
        HeaderLineAgrees(s + u, s + t, i, |hs| == 0, |s + u|);
        LfEnds(s + u);
      }
    }
  }

  // ---- the request line ----

  /** "HTTP/1.0" and a line feed. */
  const VERSION: seq<byte> := HTTP1 + [48, LF]

  /** These octets can begin a version and its line end. */
  predicate VersionSoFar(w: seq<byte>) {
    && |w| <= 8 && (forall j :: 0 <= j < |w| && j < 7 ==> w[j] == HTTP1[j])
    && (|w| == 8 ==> 48 <= w[7] <= 57)
  }

  /** The request line at `i` is beyond repair: it has no method, or what stands for
      the version cannot become one, which is only looked at nine octets on. */
  predicate Hopeless(s: seq<byte>, i: nat)
    requires i <= |s|
  {
    || (i < |s| && s[i] == SP)
    || (Target(s, i).Ok? && |s| - Target(s, i).at < 9 && !VersionSoFar(s[Target(s, i).at..]))
  }

  lemma ReadVersion(s: seq<byte>, v: nat)
    requires v + 9 <= |s| && s[v + 8] == LF && VersionSoFar(s[v..v + 8])
    ensures Version(s, v).Ok? && LineEnd(s, v + 8) == Ok(v + 9, ())
  {
    var w := s[v..v + 8];
    assert forall j :: 0 <= j < 8 ==> w[j] == s[v + j];
    assert s[v..v + 7] == HTTP1;
  }

  /** A request line whose target is whole, and whose version is all that is missing. */
  lemma EndVersion(s: seq<byte>, i: nat) returns (t: seq<byte>)
    requires i <= |s| && Target(s, i).Ok? && RequestLine(s, i) == Partial && !Hopeless(s, i)
    ensures RequestLine(s + t, i).Ok? && RequestLine(s + t, i).at == |s + t|
  {
    hide Target, Version, LineEnd, VersionSoFar;
    var v := Target(s, i).at;
    if Version(s, v) == Partial {
      VersionPartial(s, v);
      t := Rest(s, v);
    } else {
      t := [LF];
      VersionAgrees(s, s + t, v, |s|) by { VersionAt(s, v); }
      EolAtEnd(s, v + 8) by { VersionAt(s, v); }
      VersionAt(s, v);
    }
    TargetAgrees(s, s + t, i, |s|);
  }

  lemma VersionAt(s: seq<byte>, v: nat)
    requires v <= |s| && Version(s, v).Ok?
    ensures Version(s, v).at == v + 8 < |s|
  {
  }

  lemma VersionPartial(s: seq<byte>, v: nat)
    requires v <= |s| && Version(s, v) == Partial
    ensures |s| - v < 9
  {
  }

  /** What is missing of the version and its line end. */
  lemma Rest(s: seq<byte>, v: nat) returns (t: seq<byte>)
    requires v <= |s| && |s| - v < 9 && VersionSoFar(s[v..])
    ensures Version(s + t, v).Ok? && |s + t| == v + 9 && LineEnd(s + t, v + 8) == Ok(v + 9, ())
    ensures Version(s + t, v).at == v + 8
  {
    var w := s[v..];
    t := VERSION[|w|..];
    var all := s + t;
    assert forall j :: 0 <= j < |w| ==> all[v + j] == w[j];
    assert forall j :: |w| <= j < 9 ==> all[v + j] == VERSION[j];
    var x := all[v..v + 8];
    assert forall j :: 0 <= j < 8 ==> x[j] == all[v + j];
    ReadVersion(all, v);
  }

  // ---- method and path ----

  /** The target is read to `p`, and a version follows. */
  ghost predicate TargetThen(s: seq<byte>, i: nat, p: nat) {
    i <= |s| && Target(s, i).Ok? && Target(s, i).at == p && p + 9 == |s| && s[p..] == VERSION
  }

  lemma VersionFollows(s: seq<byte>, i: nat, p: nat)
    requires TargetThen(s, i, p)
    ensures RequestLine(s, i).Ok? && RequestLine(s, i).at == |s|
  {
    hide Target;
    assert forall j :: 0 <= j < 9 ==> s[p + j] == s[p..][j];
    assert forall j :: 0 <= j < 8 ==> s[p..p + 8][j] == VERSION[j];
    ReadVersion(s, p);
  }

  /** A target from its four parts. */
  lemma TargetOf(s: seq<byte>, i: nat)
    requires i <= |s| && Token(s, i, SP).Ok? && Token(s, i, SP).value.len > 0
    requires var p := Past(PastSpaces, s, Token(s, i, SP).at + 1);
             && p.Ok? && Path(s, p.at).Ok? && Path(s, p.at).value.len > 0
             && Past(PastSpaces, s, Path(s, p.at).at + 1).Ok?
    ensures var v := Past(PastSpaces, s, Path(s, Past(PastSpaces, s, Token(s, i, SP).at + 1).at).at + 1);
            Target(s, i).Ok? && Target(s, i).at == v.at
  {
    hide Token, Past, Path;
  }

  lemma EndSecondGap(s: seq<byte>, i: nat)
    requires i <= |s| && Token(s, i, SP).Ok? && Token(s, i, SP).value.len > 0
    requires var p := Past(PastSpaces, s, Token(s, i, SP).at + 1);
             p.Ok? && Path(s, p.at).Ok? && Past(PastSpaces, s, Path(s, p.at).at + 1) == Partial
    ensures TargetThen(s + VERSION, i, |s|)
  {
    hide Token, Path, Scan, Target;
    var t := s + VERSION;
    var m := Token(s, i, SP).at;
    var p := Past(PastSpaces, s, m + 1).at;
    var q := Path(s, p).at;
    TokenAgrees(s, t, i, SP, |s|);
    PastAgrees(PastSpaces, s, t, m + 1, |s|);
    PathAgrees(s, t, p, |s|);
    assert s + ([] + VERSION) == t;
    ScanOn(PastSpaces, s, q + 1, [], VERSION);
    NotEmpty(s, p);
    TargetOf(t, i);
    assert t[|s|..] == VERSION;
  }

  /** A path that is read is not empty where no space stands. */
  lemma NotEmpty(s: seq<byte>, p: nat)
    requires p < |s| && s[p] != SP && Path(s, p).Ok?
    ensures Path(s, p).value.len > 0
  {
  }

  lemma EndPath(s: seq<byte>, i: nat)
    requires i <= |s| && Token(s, i, SP).Ok? && Token(s, i, SP).value.len > 0
    requires var p := Past(PastSpaces, s, Token(s, i, SP).at + 1); p.Ok? && Path(s, p.at) == Partial
    ensures var u := s + [SP];
            && Token(u, i, SP) == Token(s, i, SP) && Past(PastSpaces, u, Token(s, i, SP).at + 1).Ok?
            && var p := Past(PastSpaces, u, Token(s, i, SP).at + 1).at;
               Path(u, p).Ok? && Path(u, p).at == |s| && Past(PastSpaces, u, |s| + 1) == Partial
  {
    hide Token, Scan;
    var u := s + [SP];
    var m := Token(s, i, SP).at;
    var p := Past(PastSpaces, s, m + 1).at;
    TokenAgrees(s, u, i, SP, |s|);
    PastAgrees(PastSpaces, s, u, m + 1, |s|);
    assert s + ([] + [SP]) == u;
    ScanOn(ToPathEnd, s, p, [], [SP]);
  }

  lemma EndFirstGap(s: seq<byte>, i: nat)
    requires i <= |s| && Token(s, i, SP).Ok? && Token(s, i, SP).value.len > 0
    requires Past(PastSpaces, s, Token(s, i, SP).at + 1) == Partial
    ensures var u := s + [47];
            && Token(u, i, SP) == Token(s, i, SP) && Past(PastSpaces, u, Token(s, i, SP).at + 1) == Ok(|s|, ())
            && Path(u, |s|) == Partial
  {
    hide Token, Scan;
    var u := s + [47];
    var m := Token(s, i, SP).at;
    TokenAgrees(s, u, i, SP, |s|);
    assert s + ([] + [47]) == u;
    ScanOn(PastSpaces, s, m + 1, [], [47]);
    ScanToEnd(u);
  }

  lemma ScanToEnd(u: seq<byte>)
    requires u != [] && u[|u| - 1] == 47
    ensures Scan(ToPathEnd, u, |u| - 1) == |u|
  {
  }

  lemma EndMethod(s: seq<byte>, i: nat)
    requires i <= |s| && Token(s, i, SP) == Partial
    ensures var u := s + [71, SP];
            && Token(u, i, SP).Ok? && Token(u, i, SP).value.len > 0 && Token(u, i, SP).at == |s| + 1
            && Past(PastSpaces, u, |s| + 2) == Partial
  {
    hide Scan;
    var u := s + [71, SP];
    assert s + ([71] + [SP]) == u;
    ScanOn(ToChar(SP), s, i, [71], [SP]);
  }

  lemma HasMethod(s: seq<byte>, i: nat)
    requires i <= |s| && Token(s, i, SP).Ok? && !(i < |s| && s[i] == SP)
    ensures Token(s, i, SP).value.len > 0
  {
  }

  /** A whole request line behind `s`, step by step from where the target stops. */
  lemma FromPath(s: seq<byte>, i: nat) returns (t: seq<byte>)
    requires i <= |s| && Token(s, i, SP).Ok? && Token(s, i, SP).value.len > 0
    requires var p := Past(PastSpaces, s, Token(s, i, SP).at + 1); p.Ok? && Path(s, p.at) == Partial
    ensures RequestLine(s + t, i).Ok? && RequestLine(s + t, i).at == |s + t|
  {
    hide Token, Path, Past, RequestLine, Target;
    var u := s + [SP];
    EndPath(s, i);
    EndSecondGap(u, i);
    VersionFollows(u + VERSION, i, |u|);
    t := [SP] + VERSION;
    assert s + t == u + VERSION;
  }

  lemma FromGap(s: seq<byte>, i: nat) returns (t: seq<byte>)
    requires i <= |s| && Token(s, i, SP).Ok? && Token(s, i, SP).value.len > 0
    requires Past(PastSpaces, s, Token(s, i, SP).at + 1) == Partial
    ensures RequestLine(s + t, i).Ok? && RequestLine(s + t, i).at == |s + t|
  {
    hide Token, Path, Past, RequestLine, Target;
    EndFirstGap(s, i);
    var u := FromPath(s + [47], i);
    t := [47] + u;
    assert s + t == (s + [47]) + u;
  }

  lemma FromMethod(s: seq<byte>, i: nat) returns (t: seq<byte>)
    requires i <= |s| && Token(s, i, SP) == Partial
    ensures RequestLine(s + t, i).Ok? && RequestLine(s + t, i).at == |s + t|
  {
    hide Token, Path, Past, RequestLine, Target;
    EndMethod(s, i);
    var u := FromGap(s + [71, SP], i);
    t := [71, SP] + u;
    assert s + t == (s + [71, SP]) + u;
  }

  /** Octets that complete method and path, and a version behind them. */
  lemma EndTarget(s: seq<byte>, i: nat) returns (t: seq<byte>)
    requires i <= |s| && Target(s, i) == Partial && !(i < |s| && s[i] == SP)
    ensures RequestLine(s + t, i).Ok? && RequestLine(s + t, i).at == |s + t|
  {
    hide Token, Path, Past, RequestLine;
    if Token(s, i, SP) == Partial {
      t := FromMethod(s, i);
    } else {
      HasMethod(s, i);
      var p := Past(PastSpaces, s, Token(s, i, SP).at + 1);
      if p == Partial {
        t := FromGap(s, i);
      } else if Path(s, p.at) == Partial {
        t := FromPath(s, i);
      } else {
        EndSecondGap(s, i);
        VersionFollows(s + VERSION, i, |s|);
        t := VERSION;
      }
    }
  }

  // ---- whole heads ----

  /** The smallest request, from its start. */
  lemma EndRequestLine(s: seq<byte>, i: nat) returns (t: seq<byte>)
    requires i <= |s| && RequestLine(s, i) == Partial && !Hopeless(s, i)
    ensures RequestLine(s + t, i).Ok? && RequestLine(s + t, i).at == |s + t|
  {
    hide Target, Version, LineEnd, VersionSoFar;
    if Target(s, i) == Partial {
      t := EndTarget(s, i);
    } else {
      t := EndVersion(s, i);
    }
  }

  lemma EmptyLine(s: seq<byte>, i: nat, max: nat)
    requires i == |s|
    ensures Headers(s + [LF], i, [], max) == Ok(|s| + 1, [])
  {
  }

  /** Octets that complete a head whose first `i` octets are the leading line. */
  lemma EndHead(s: seq<byte>, i: nat, max: nat) returns (t: seq<byte>)
    requires Lead(s) == Ok(i, ()) && Parse(s, max) == Partial && !Hopeless(s, i)
    ensures Parse(s + t, max).Ok?
  {
    hide RequestLine, Headers, Hopeless, LineEnd;
    var r := RequestLine(s, i);
    if r == Partial {
      var u := EndRequestLine(s, i);
      t := u + [LF];
      assert s + t == (s + u) + [LF];
      RequestLineAgrees(s + u, s + t, i, |s + u|);
      EmptyLine(s + u, |s + u|, max);
    } else {
      t := EndHeaders(s, r.at, [], max);
      RequestLineAgrees(s, s + t, i, |s|);
    }
    LeadAgrees(s, t, i);
  }

  lemma LeadAgrees(s: seq<byte>, t: seq<byte>, i: nat)
    requires Lead(s) == Ok(i, ())
    ensures Lead(s + t) == Ok(i, ())
  {
    if s[0] == CR || s[0] == LF { LineEndAgrees(s, s + t, 0, |s|); }
  }

  /** Before the first octet of the request line. */
  lemma EndLead(s: seq<byte>, max: nat) returns (t: seq<byte>)
    requires Lead(s) == Partial
    ensures Parse(s + t, max).Ok?
  {
    hide Parse;
    var u := LeadThen(s);
    var all := s + u;
    var rest := FromStart(all, |all| - 1, max);
    t := u + rest;
    assert s + t == all + rest;
  }

  /** The rest of the leading line, if one has begun, and a letter. */
  lemma LeadThen(s: seq<byte>) returns (u: seq<byte>)
    requires Lead(s) == Partial
    ensures var all := s + u; all != [] && all[|all| - 1] == 71 && Lead(all) == Ok(|all| - 1, ())
  {
    u := if s == [] then [71] else [LF, 71];
  }

  lemma StartsAt(s: seq<byte>, i: nat)
    requires i == |s| - 1 && s[i] == 71
    ensures Token(s, i, SP) == Partial && Target(s, i) == Partial && RequestLine(s, i) == Partial && !Hopeless(s, i)
  {
    assert Scan(ToChar(SP), s, i + 1) == i + 1;
  }

  lemma FromStart(s: seq<byte>, i: nat, max: nat) returns (t: seq<byte>)
    requires i == |s| - 1 && s[i] == 71 && Lead(s) == Ok(i, ())
    ensures Parse(s + t, max).Ok?
  {
    hide RequestLine, Headers, Hopeless, Lead, Target, Token;
    StartsAt(s, i);
    t := EndHead(s, i, max);
  }

  // ---- and what is hopeless stays so ----

  lemma NoMethod(s: seq<byte>, i: nat)
    requires i < |s| && s[i] == SP
    ensures !Target(s, i).Ok?
  {
    hide Path, Past;
    assert Scan(ToChar(SP), s, i) == i;
  }

  lemma StaysHopeless(s: seq<byte>, t: seq<byte>, i: nat)
    requires i <= |s| && Hopeless(s, i)
    ensures !RequestLine(s + t, i).Ok?
  {
    hide Target;
    var all := s + t;
    if i < |s| && s[i] == SP {
      NoMethod(all, i);
    } else {
      var v := Target(s, i).at;
      TargetAgrees(s, all, i, |s|) by { TargetIn(s, i); }
      NoVersion(s, t, v) by { TargetIn(s, i); }
    }
  }

  lemma TargetIn(s: seq<byte>, i: nat)
    requires i <= |s| && Target(s, i).Ok?
    ensures Target(s, i).at < |s|
  {
  }

  lemma NoVersion(s: seq<byte>, t: seq<byte>, v: nat)
    requires v < |s| && |s| - v < 9 && !VersionSoFar(s[v..])
    ensures !Version(s + t, v).Ok?
  {
    var all, w := s + t, s[v..];
    if Version(all, v).Ok? {
      var x := all[v..v + 7];
      assert forall j :: 0 <= j < 7 ==> x[j] == all[v + j];
      assert forall j :: 0 <= j < |w| ==> w[j] == all[v + j];
    }
  }

  /** PARTIAL MEANS THAT MORE CAN COME. A partial request can be completed if and
      only if its request line is not beyond repair; and, with `VerdictIsFinal`, an
      input that some octets complete is never refused. */
  lemma PartialExactly(s: seq<byte>, max: nat)
    requires Parse(s, max) == Partial
    ensures (exists t :: Parse(s + t, max).Ok?) <==> !(Lead(s).Ok? && Hopeless(s, Lead(s).at))
  {
    hide Parse, Hopeless;
    if Lead(s).Ok? {
      var i := Lead(s).at;
      if Hopeless(s, i) {
        forall t ensures !Parse(s + t, max).Ok? {
          LeadAgrees(s, t, i);
          StaysHopeless(s, t, i);
          NoLine(s + t, i, max);
        }
      } else {
        var t := EndHead(s, i, max);
      }
    } else {
      LeadPartial(s, max);
      var t := EndLead(s, max);
    }
  }

  lemma NoLine(s: seq<byte>, i: nat, max: nat)
    requires Lead(s) == Ok(i, ()) && !RequestLine(s, i).Ok?
    ensures !Parse(s, max).Ok?
  {
  }

  lemma LeadPartial(s: seq<byte>, max: nat)
    requires Parse(s, max) == Partial && !Lead(s).Ok?
    ensures Lead(s) == Partial
  {
  }
}
