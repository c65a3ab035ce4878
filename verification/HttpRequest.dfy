/** The request head (sections 3.1.1 and 3.2 of RFC 7230, as `parse_request`
    reads it): every parser says where it stopped, that the text is wrong, or
    that the text ended too soon. */
module HttpRequest {
  import opened Bytes

  /** A stretch of the buffer: what the C code holds as a pointer and a length. */
  datatype Span = Span(start: nat, len: nat)

  /** `folded` marks a continuation line, which has no name of its own. */
  datatype Header = Header(folded: bool, name: Span, value: Span)

  datatype Request = Request(verb: Span, path: Span, minor: nat, headers: seq<Header>)

  datatype Parsed<T> = Ok(at: nat, value: T) | Err | Partial

  // ---- classes of octets ----

  predicate TokenChar(b: byte) {
    || b == 33 || 35 <= b <= 39 || b == 42 || b == 43 || b == 45 || b == 46
    || 48 <= b <= 57 || 65 <= b <= 90 || 94 <= b <= 122 || b == 124 || b == 126
  }

  predicate Printable(b: byte) { 32 <= b < 127 }

  predicate Control(b: byte) { b < 32 || b == DEL }

  predicate Blank(b: byte) { b == SP || b == HT }

  /** What each scanning loop looks for. */
  datatype Scanner = ToChar(next: byte) | ToPathEnd | PastSpaces | PastBlanks | ToLineEnd

  predicate Stops(k: Scanner, b: byte) {
    match k
    case ToChar(next) => b == next || !TokenChar(b)
    case ToPathEnd => b == SP || Control(b)
    case PastSpaces => b != SP
    case PastBlanks => !Blank(b)
    case ToLineEnd => Control(b) && b != HT
  }

  /** The first octet from `i` on that stops the scanner, or the end. */
  function Scan(k: Scanner, s: seq<byte>, i: nat): (e: nat)
    requires i <= |s|
    ensures i <= e <= |s|
    ensures e < |s| ==> Stops(k, s[e])
    ensures forall j :: i <= j < e ==> !Stops(k, s[j])
    decreases |s| - i
  {
    if i == |s| || Stops(k, s[i]) then i else Scan(k, s, i + 1)
  }

  // ---- the parsers ----

  /** A line end: LF, or CR LF. */
  function LineEnd(s: seq<byte>, i: nat): (r: Parsed<()>)
    requires i < |s|
    ensures r.Ok? ==> i < r.at <= |s|
  {
    if s[i] == LF then Ok(i + 1, ())
    else if s[i] != CR then Err
    else if i + 1 == |s| then Partial
    else if s[i + 1] == LF then Ok(i + 2, ())
    else Err
  }

  /** The rest of a line, without its line end. */
  function TokenToEol(s: seq<byte>, i: nat): (r: Parsed<Span>)
    requires i <= |s|
    ensures r.Ok? ==> i < r.at <= |s| && r.value.start == i && i + r.value.len < r.at
  {
    var e := Scan(ToLineEnd, s, i);
    if e == |s| then Partial
    else match LineEnd(s, e)
      case Ok(at, _) => Ok(at, Span(i, e - i))
      case Err => Err
      case Partial => Partial
  }

  /** A token ended by `next`, which stays unread. */
  function Token(s: seq<byte>, i: nat, next: byte): (r: Parsed<Span>)
    requires i <= |s|
    ensures r.Ok? ==> i <= r.at < |s| && s[r.at] == next && r.value == Span(i, r.at - i)
  {
    var e := Scan(ToChar(next), s, i);
    if e == |s| then Partial else if s[e] == next then Ok(e, Span(i, e - i)) else Err
  }

  function Path(s: seq<byte>, i: nat): (r: Parsed<Span>)
    requires i <= |s|
    ensures r.Ok? ==> i <= r.at < |s| && s[r.at] == SP && r.value == Span(i, r.at - i)
  {
    var e := Scan(ToPathEnd, s, i);
    if e == |s| then Partial else if s[e] == SP then Ok(e, Span(i, e - i)) else Err
  }

  /** Past a scanner's run, which something must follow. */
  function Past(k: Scanner, s: seq<byte>, i: nat): (r: Parsed<()>)
    requires i <= |s|
    ensures !r.Err? && (r.Ok? ==> i <= r.at < |s| && r.at == Scan(k, s, i))
  {
    var e := Scan(k, s, i);
    if e == |s| then Partial else Ok(e, ())
  }

  const HTTP1: seq<byte> := [72, 84, 84, 80, 47, 49, 46]

  /** "HTTP/1." and a digit, looked at once one more octet is there. */
  function Version(s: seq<byte>, i: nat): (r: Parsed<nat>)
    requires i <= |s|
    ensures r.Ok? ==> r.at == i + 8 < |s| && r.value < 10
  {
    if |s| - i < 9 then Partial
    else if s[i..i + 7] == HTTP1 && 48 <= s[i + 7] <= 57 then Ok(i + 8, s[i + 7] - 48)
    else Err
  }

  /** The value of a header, without the blanks at its end. */
  function Trim(s: seq<byte>, v: Span): (t: Span)
    requires v.start + v.len <= |s|
    ensures t.start == v.start && t.len <= v.len
    ensures forall j :: v.start + t.len <= j < v.start + v.len ==> Blank(s[j])
    ensures t.len > 0 ==> !Blank(s[v.start + t.len - 1])
    decreases v.len
  {
    if v.len > 0 && Blank(s[v.start + v.len - 1]) then Trim(s, Span(v.start, v.len - 1)) else v
  }

  /** A header's name, up to its value; a folded line has none. */
  function Name(s: seq<byte>, i: nat, first: bool): (r: Parsed<(bool, Span)>)
    requires i < |s|
    ensures r.Ok? ==> i <= r.at < |s|
  {
    if !first && Blank(s[i]) then Ok(i, (true, Span(0, 0)))
    else match Token(s, i, COLON)
      case Partial => Partial
      case Err => Err
      case Ok(e, name) =>
        if name.len == 0 then Err
        else match Past(PastBlanks, s, e + 1)
          case Ok(v, _) => Ok(v, (false, name))
          case _ => Partial
  }

  function HeaderLine(s: seq<byte>, i: nat, first: bool): (r: Parsed<Header>)
    requires i < |s|
    ensures r.Ok? ==> i < r.at <= |s|
  {
    match Name(s, i, first)
    case Partial => Partial
    case Err => Err
    case Ok(v, (folded, name)) =>
      match TokenToEol(s, v)
      case Partial => Partial
      case Err => Err
      case Ok(e, value) => Ok(e, Header(folded, name, Trim(s, value)))
  }

  /** Header lines up to the empty line, `hs` being those already read. */
  function Headers(s: seq<byte>, i: nat, hs: seq<Header>, max: nat): (r: Parsed<seq<Header>>)
    requires i <= |s| && |hs| <= max
    ensures r.Ok? ==> i < r.at <= |s| && |hs| <= |r.value| <= max
    decreases |s| - i
  {
    if i == |s| then Partial
    else if s[i] == CR || s[i] == LF then
      match LineEnd(s, i)
      case Ok(e, _) => Ok(e, hs)
      case Err => Err
      case Partial => Partial
    else if |hs| == max then Err
    else match HeaderLine(s, i, |hs| == 0)
      case Ok(e, h) => Headers(s, e, hs + [h], max)
      case Err => Err
      case Partial => Partial
  }

  /** The header lines read before the reading stopped, however it stopped. */
  function HeadersRead(s: seq<byte>, i: nat, hs: seq<Header>, max: nat): (r: seq<Header>)
    requires i <= |s| && |hs| <= max
    ensures |hs| <= |r| <= max && (Headers(s, i, hs, max).Ok? ==> Headers(s, i, hs, max).value == r)
    decreases |s| - i
  {
    if i == |s| || s[i] == CR || s[i] == LF || |hs| == max then hs
    else match HeaderLine(s, i, |hs| == 0)
      case Ok(e, h) => HeadersRead(s, e, hs + [h], max)
      case _ => hs
  }

  /** One empty line before the request is let through. */
  function Lead(s: seq<byte>): (r: Parsed<()>)
    ensures r.Ok? ==> r.at <= |s|
  {
    if s == [] then Partial
    else if s[0] == CR || s[0] == LF then LineEnd(s, 0)
    else Ok(0, ())
  }

  /** Method and path, and the spaces behind each. */
  function Target(s: seq<byte>, i: nat): (r: Parsed<(Span, Span)>)
    requires i <= |s|
    ensures r.Ok? ==> i < r.at < |s|
  {
    match Token(s, i, SP)
    case Partial => Partial
    case Err => Err
    case Ok(m, verb) =>
      match Past(PastSpaces, s, m + 1)
      case Ok(p, _) =>
        (match Path(s, p)
         case Partial => Partial
         case Err => Err
         case Ok(q, path) =>
           match Past(PastSpaces, s, q + 1)
           case Ok(v, _) => if verb.len == 0 || path.len == 0 then Err else Ok(v, (verb, path))
           case _ => Partial)
      case _ => Partial
  }

  /** Method, path and version, up to the end of their line. */
  function RequestLine(s: seq<byte>, i: nat): (r: Parsed<Request>)
    requires i <= |s|
    ensures r.Ok? ==> i + 9 < r.at <= |s| && r.value.headers == []
  {
    match Target(s, i)
    case Partial => Partial
    case Err => Err
    case Ok(v, (verb, path)) =>
      match Version(s, v)
      case Partial => Partial
      case Err => Err
      case Ok(e, minor) =>
        match LineEnd(s, e)
        case Partial => Partial
        case Err => Err
        case Ok(f, _) => Ok(f, Request(verb, path, minor, []))
  }

  /** The whole request head. */
  function Parse(s: seq<byte>, max: nat): (r: Parsed<Request>)
    ensures r.Ok? ==> 9 < r.at <= |s|
  {
    match Lead(s)
    case Partial => Partial
    case Err => Err
    case Ok(i, _) =>
      match RequestLine(s, i)
      case Partial => Partial
      case Err => Err
      case Ok(e, req) =>
        match Headers(s, e, [], max)
        case Partial => Partial
        case Err => Err
        case Ok(n, hs) => Ok(n, req.(headers := hs))
  }

  // ---- what a verdict depends on ----

  /** `b` has the first `m` octets of `a`. */
  ghost predicate Agree(a: seq<byte>, b: seq<byte>, m: nat) {
    m <= |a| && m <= |b| && forall j :: 0 <= j < m ==> a[j] == b[j]
  }

  /** The verdict was reached inside the first `m` octets of `a`: always, when
      they are all of `a`; and for a success, when it stopped there. */
  ghost predicate Settled<T>(r: Parsed<T>, a: seq<byte>, m: nat) {
    (r.Err? && m == |a|) || (r.Ok? && r.at <= m)
  }

  lemma ScanAgrees(k: Scanner, a: seq<byte>, b: seq<byte>, i: nat, m: nat)
    requires Agree(a, b, m) && i <= |a| && Scan(k, a, i) < m
    ensures Scan(k, b, i) == Scan(k, a, i)
  {
  }

  lemma LineEndAgrees(a: seq<byte>, b: seq<byte>, i: nat, m: nat)
    requires Agree(a, b, m) && i < m && Settled(LineEnd(a, i), a, m)
    ensures LineEnd(b, i) == LineEnd(a, i)
  {
  }

  lemma TokenToEolAgrees(a: seq<byte>, b: seq<byte>, i: nat, m: nat)
    requires Agree(a, b, m) && i <= |a| && Settled(TokenToEol(a, i), a, m)
    ensures i <= |b| && TokenToEol(b, i) == TokenToEol(a, i)
  {
    hide Scan, Stops, LineEnd;
    var e := Scan(ToLineEnd, a, i);
    ScanAgrees(ToLineEnd, a, b, i, m);
    LineEndAgrees(a, b, e, m);
  }

  lemma TrimAgrees(a: seq<byte>, b: seq<byte>, v: Span, m: nat)
    requires Agree(a, b, m) && v.start + v.len <= m
    ensures Trim(b, v) == Trim(a, v)
    decreases v.len
  {
  }

  lemma NameAgrees(a: seq<byte>, b: seq<byte>, i: nat, first: bool, m: nat)
    requires Agree(a, b, m) && i < m
    requires var r := Name(a, i, first); (r.Err? && m == |a|) || (r.Ok? && r.at < m)
    ensures Name(b, i, first) == Name(a, i, first)
  {
    hide Scan, Stops;
    if first || !Blank(a[i]) {
      var e := Scan(ToChar(COLON), a, i);
      ScanAgrees(ToChar(COLON), a, b, i, m);
      if Token(a, i, COLON).Ok? && e > i {
        ScanAgrees(PastBlanks, a, b, e + 1, m);
      }
    }
  }

  lemma HeaderLineAgrees(a: seq<byte>, b: seq<byte>, i: nat, first: bool, m: nat)
    requires Agree(a, b, m) && i < m && Settled(HeaderLine(a, i, first), a, m)
    ensures HeaderLine(b, i, first) == HeaderLine(a, i, first)
  {
    hide Name, TokenToEol, Trim;
    NameAgrees(a, b, i, first, m);
    var n := Name(a, i, first);
    if n.Ok? {
      TokenToEolAgrees(a, b, n.at, m);
      var t := TokenToEol(a, n.at);
      if t.Ok? { TrimAgrees(a, b, t.value, m); }
    }
  }

  lemma {:induction false} HeadersAgree(a: seq<byte>, b: seq<byte>, i: nat, hs: seq<Header>, max: nat, m: nat)
    requires Agree(a, b, m) && i <= m && |hs| <= max && Settled(Headers(a, i, hs, max), a, m)
    ensures Headers(b, i, hs, max) == Headers(a, i, hs, max)
    decreases |a| - i
  {
    hide HeaderLine, LineEnd;
    if a[i] == CR || a[i] == LF {
      LineEndAgrees(a, b, i, m);
    } else if |hs| < max {
      HeaderLineAgrees(a, b, i, |hs| == 0, m);
      var h := HeaderLine(a, i, |hs| == 0);
      if h.Ok? { HeadersAgree(a, b, h.at, hs + [h.value], max, m); }
    }
  }

  lemma PastAgrees(k: Scanner, a: seq<byte>, b: seq<byte>, i: nat, m: nat)
    requires Agree(a, b, m) && i <= |a|
    requires var r := Past(k, a, i); r.Ok? && r.at < m
    ensures i <= |b| && Past(k, b, i) == Past(k, a, i)
  {
    hide Scan, Stops;
    ScanAgrees(k, a, b, i, m);
  }

  lemma TokenAgrees(a: seq<byte>, b: seq<byte>, i: nat, next: byte, m: nat)
    requires Agree(a, b, m) && i <= |a|
    requires var r := Token(a, i, next); (r.Err? && m == |a|) || (r.Ok? && r.at < m)
    ensures i <= |b| && Token(b, i, next) == Token(a, i, next)
  {
    hide Scan, Stops;
    ScanAgrees(ToChar(next), a, b, i, m);
  }

  lemma PathAgrees(a: seq<byte>, b: seq<byte>, i: nat, m: nat)
    requires Agree(a, b, m) && i <= |a|
    requires var r := Path(a, i); (r.Err? && m == |a|) || (r.Ok? && r.at < m)
    ensures i <= |b| && Path(b, i) == Path(a, i)
  {
    hide Scan, Stops;
    ScanAgrees(ToPathEnd, a, b, i, m);
  }

  lemma VersionAgrees(a: seq<byte>, b: seq<byte>, i: nat, m: nat)
    requires Agree(a, b, m) && i <= |a|
    requires var r := Version(a, i); (r.Err? && m == |a|) || (r.Ok? && r.at < m)
    ensures i <= |b| && Version(b, i) == Version(a, i)
  {
    assert a[i..i + 7] == b[i..i + 7];
  }

  lemma TargetAgrees(a: seq<byte>, b: seq<byte>, i: nat, m: nat)
    requires Agree(a, b, m) && i <= |a|
    requires var r := Target(a, i); (r.Err? && m == |a|) || (r.Ok? && r.at < m)
    ensures i <= |b| && Target(b, i) == Target(a, i)
  {
    hide Token, Path, Past;
    TokenAgrees(a, b, i, SP, m);
    var t := Token(a, i, SP);
    if t.Ok? {
      PastAgrees(PastSpaces, a, b, t.at + 1, m);
      var p := Past(PastSpaces, a, t.at + 1);
      PathAgrees(a, b, p.at, m);
      var q := Path(a, p.at);
      if q.Ok? { PastAgrees(PastSpaces, a, b, q.at + 1, m); }
    }
  }

  lemma RequestLineAgrees(a: seq<byte>, b: seq<byte>, i: nat, m: nat)
    requires Agree(a, b, m) && i <= |a| && Settled(RequestLine(a, i), a, m)
    ensures i <= |b| && RequestLine(b, i) == RequestLine(a, i)
  {
    hide Target, Version, LineEnd;
    TargetAgrees(a, b, i, m);
    var t := Target(a, i);
    if t.Ok? {
      VersionAgrees(a, b, t.at, m);
      var e := Version(a, t.at);
      if e.Ok? { LineEndAgrees(a, b, e.at, m); }
    }
  }

  /** A verdict depends on nothing beyond the octets it was reached in. */
  lemma ParseAgrees(a: seq<byte>, b: seq<byte>, max: nat, m: nat)
    requires Agree(a, b, m) && Settled(Parse(a, max), a, m)
    ensures Parse(b, max) == Parse(a, max)
  {
    hide RequestLine, Headers, LineEnd;
    if a[0] == CR || a[0] == LF { LineEndAgrees(a, b, 0, m); }
    var i := Lead(a);
    if i.Ok? {
      RequestLineAgrees(a, b, i.at, m);
      var e := RequestLine(a, i.at);
      if e.Ok? { HeadersAgree(a, b, e.at, [], max, m); }
    }
  }

  /** PREFIX STABILITY. A verdict other than "partial" is final: no octets that
      arrive later change it, or any field of it. */
  lemma VerdictIsFinal(s: seq<byte>, t: seq<byte>, max: nat)
    requires Parse(s, max) != Partial
    ensures Parse(s + t, max) == Parse(s, max)
  {
    ParseAgrees(s, s + t, max, |s|);
  }

  /** LOCALITY. A success is decided by the octets it consumed, whatever follows. */
  lemma SuccessIsLocal(s: seq<byte>, u: seq<byte>, max: nat)
    requires Parse(s, max).Ok?
    ensures var n := Parse(s, max).at; Parse(s[..n] + u, max) == Parse(s, max)
  {
    var n := Parse(s, max).at;
    ParseAgrees(s, s[..n] + u, max, n);
  }
}
