/** The parser's loops, each proved to give the verdict defined in HttpRequest. */
module HttpParser {
  import opened Bytes
  import opened HttpRequest
  import opened HttpResume

  /** A scanning loop, one octet at a time. */
  method Advance(k: Scanner, buf: seq<byte>, from: nat) returns (at: nat)
    requires from <= |buf|
    ensures at == Scan(k, buf, from)
  {
    at := from;
    while at < |buf| && !Stops(k, buf[at])
      invariant from <= at <= |buf|
      invariant Scan(k, buf, at) == Scan(k, buf, from)
    {
      at := at + 1;
    }
  }

  /** `get_token_to_eol`: eight octets at a time while there are eight, then one
      at a time. Both find the same line end. */
  method GetTokenToEol(buf: seq<byte>, from: nat) returns (r: Parsed<Span>)
    requires from <= |buf|
    ensures r == TokenToEol(buf, from)
  {
    hide TokenToEol;
    var at, found := from, false;
    while |buf| - at >= 8 && !found
      invariant from <= at <= |buf|
      invariant Scan(ToLineEnd, buf, at) == Scan(ToLineEnd, buf, from)
      invariant found ==> at < |buf| && Stops(ToLineEnd, buf[at])
      decreases |buf| - at, !found
    {
      var start, round := at, 0;
      while round < 8 && Printable(buf[at])
        invariant round <= 8 && at == start + round
        invariant Scan(ToLineEnd, buf, at) == Scan(ToLineEnd, buf, from)
        decreases 8 - round
      {
        at := at + 1;
        round := round + 1;
      }
      if round < 8 {
        if Stops(ToLineEnd, buf[at]) {
          found := true;
        } else {
          at := at + 1;
        }
      }
    }
    if !found { at := Advance(ToLineEnd, buf, at); }
    r := CloseLine(buf, from, at);
  }

  /** From the octet that ended the scan: CR LF, LF, or an error. */
  method CloseLine(buf: seq<byte>, from: nat, at: nat) returns (r: Parsed<Span>)
    requires from <= |buf| && at == Scan(ToLineEnd, buf, from)
    ensures r == TokenToEol(buf, from)
  {
    if at == |buf| { return Partial; }
    if buf[at] == CR {
      if at + 1 == |buf| { return Partial; }
      if buf[at + 1] != LF { return Err; }
      return Ok(at + 2, Span(from, at - from));
    } else if buf[at] == LF {
      return Ok(at + 1, Span(from, at - from));
    }
    return Err;
  }

  /** The blanks at the end of a value, dropped from the back. */
  method TrimEnd(buf: seq<byte>, value: Span) returns (t: Span)
    requires value.start + value.len <= |buf|
    ensures t == Trim(buf, value)
  {
    var len := value.len;
    while len > 0 && Blank(buf[value.start + len - 1])
      invariant 0 <= len <= value.len
      invariant Trim(buf, Span(value.start, len)) == Trim(buf, value)
    {
      len := len - 1;
    }
    t := Span(value.start, len);
  }

  /** `token_char_map`, in rows of 32. */
  const ROW_0 := "00000000000000000000000000000000"
  const ROW_32 := "01011111001101101111111111000000"
  const ROW_64 := "01111111111111111111111111100011"
  const ROW_96 := "11111111111111111111111111101010"

  function MapRow(r: nat): (row: string)
    ensures |row| == 32
  {
    if r == 1 then ROW_32 else if r == 2 then ROW_64 else if r == 3 then ROW_96 else ROW_0
  }

  predicate InMap(b: byte) { MapRow(b / 32)[b % 32] == '1' }

  lemma MarksRow(b: byte)
    requires 32 <= b < 64
    ensures InMap(b) <==> TokenChar(b)
  {
    assert InMap(b) == (ROW_32[b - 32] == '1');
  }

  lemma NoneInRow(i: nat)
    requires i < 32
    ensures ROW_0[i] == '0'
  {
  }

  lemma UpperRow(b: byte)
    requires 64 <= b < 96
    ensures InMap(b) <==> TokenChar(b)
  {
    assert InMap(b) == (ROW_64[b - 64] == '1');
  }

  lemma LowerRow(b: byte)
    requires 96 <= b < 128
    ensures InMap(b) <==> TokenChar(b)
  {
    assert InMap(b) == (ROW_96[b - 96] == '1');
  }

  /** The map holds the token characters, for every octet. */
  lemma MapIsTokenChar(b: byte)
    ensures InMap(b) <==> TokenChar(b)
  {
    if b < 32 || b >= 128 {
      NoneInRow(b % 32);
    } else if b < 64 {
      MarksRow(b);
    } else if b < 96 {
      UpperRow(b);
    } else {
      LowerRow(b);
    }
  }

  /** `parse_token`, octet by octet against the map. */
  method ParseToken(buf: seq<byte>, from: nat, next: byte) returns (r: Parsed<Span>)
    requires from <= |buf|
    ensures r == Token(buf, from, next)
  {
    hide InMap, TokenChar;
    var at := from;
    while at < |buf| && buf[at] != next
      invariant from <= at <= |buf|
      invariant Scan(ToChar(next), buf, at) == Scan(ToChar(next), buf, from)
    {
      MapIsTokenChar(buf[at]);
      if !InMap(buf[at]) { return Err; }
      at := at + 1;
    }
    r := if at == |buf| then Partial else Ok(at, Span(from, at - from));
  }

  /** `parse_http_version`, one expected octet after the other. */
  method ParseVersion(buf: seq<byte>, from: nat) returns (r: Parsed<nat>)
    requires from <= |buf|
    ensures r == Version(buf, from)
  {
    if |buf| - from < 9 { return Partial; }
    var i := 0;
    while i < 7
      invariant 0 <= i <= 7 && forall j :: 0 <= j < i ==> buf[from + j] == HTTP1[j]
    {
      if buf[from + i] != HTTP1[i] {
        assert buf[from..from + 7][i] != HTTP1[i];
        return Err;
      }
      i := i + 1;
    }
    assert buf[from..from + 7] == HTTP1;
    var digit := buf[from + 7];
    if digit < 48 || 57 < digit { return Err; }
    return Ok(from + 8, digit - 48);
  }

  /** The name of a header line and the blanks before its value. */
  method ParseName(buf: seq<byte>, from: nat, first: bool) returns (r: Parsed<(bool, Span)>)
    requires from < |buf|
    ensures r == Name(buf, from, first)
  {
    hide Scan, Stops;
    if !first && Blank(buf[from]) { return Ok(from, (true, Span(0, 0))); }
    var t := ParseToken(buf, from, COLON);
    match t
    case Partial => return Partial;
    case Err => return Err;
    case Ok(e, name) =>
      if name.len == 0 { return Err; }
      var v := Advance(PastBlanks, buf, e + 1);
      if v == |buf| { return Partial; }
      return Ok(v, (false, name));
  }

  method ParseHeaderLine(buf: seq<byte>, from: nat, first: bool) returns (r: Parsed<Header>)
    requires from < |buf|
    ensures r == HeaderLine(buf, from, first)
  {
    hide Name, TokenToEol, Trim;
    var n := ParseName(buf, from, first);
    match n
    case Partial => return Partial;
    case Err => return Err;
    case Ok(v, name) =>
      var t := GetTokenToEol(buf, v);
      match t
      case Partial => return Partial;
      case Err => return Err;
      case Ok(e, value) =>
        var trimmed := TrimEnd(buf, value);
        return Ok(e, Header(name.0, name.1, trimmed));
  }

  /** `parse_headers`: fills `headers` from the front. `num` is how many lines were
      read, whatever the verdict. */
  method ParseHeaders(buf: seq<byte>, from: nat, headers: array<Header>) returns (r: Parsed<nat>, num: nat)
    requires from <= |buf|
    modifies headers
    ensures match Headers(buf, from, [], headers.Length)
            case Ok(n, hs) => r == Ok(n, |hs|) && num == |hs| && headers[..|hs|] == hs
            case Err => r == Err
            case Partial => r == Partial
    ensures num <= headers.Length && headers[..num] == HeadersRead(buf, from, [], headers.Length)
  {
    hide HeaderLine, LineEnd;
    var at := from;
    num := 0;
    while true
      invariant from <= at <= |buf| && num <= headers.Length
      invariant Headers(buf, at, headers[..num], headers.Length) == Headers(buf, from, [], headers.Length)
      invariant HeadersRead(buf, at, headers[..num], headers.Length) == HeadersRead(buf, from, [], headers.Length)
      decreases |buf| - at
    {
      if at == |buf| { return Partial, num; }
      if buf[at] == CR || buf[at] == LF {
        var e := ParseLineEnd(buf, at);
        match e
        case Partial => return Partial, num;
        case Err => return Err, num;
        case Ok(n, _) => return Ok(n, num), num;
      }
      if num == headers.Length { return Err, num; }
      var h := ParseHeaderLine(buf, at, num == 0);
      match h
      case Partial => return Partial, num;
      case Err => return Err, num;
      case Ok(e, header) =>
        ghost var before := headers[..num];
        headers[num] := header;
        assert headers[..num + 1] == before + [header];
        at, num := e, num + 1;
    }
  }

  method ParseLineEnd(buf: seq<byte>, at: nat) returns (r: Parsed<()>)
    requires at < |buf|
    ensures r == LineEnd(buf, at)
  {
    if buf[at] == CR {
      if at + 1 == |buf| { return Partial; }
      if buf[at + 1] != LF { return Err; }
      return Ok(at + 2, ());
    }
    if buf[at] == LF { return Ok(at + 1, ()); }
    return Err;
  }

  /** The out-parameters of a call, which are written one after the other as the
      parts of the request line are read, and stay written when a later part fails. */
  datatype Pointer = Null | To(span: Span)
  datatype Outs = Outs(verb: Pointer, path: Pointer, minor: int)

  const NOTHING := Outs(Null, Null, -1)

  function TargetOuts(s: seq<byte>, i: nat): Outs
    requires i <= |s|
  {
    match Token(s, i, SP)
    case Ok(m, verb) =>
      (match Past(PastSpaces, s, m + 1)
       case Ok(p, _) =>
         (match Path(s, p)
          case Ok(_, path) => Outs(To(verb), To(path), -1)
          case _ => Outs(To(verb), Null, -1))
       case _ => Outs(To(verb), Null, -1))
    case _ => NOTHING
  }

  lemma TargetOutsSet(s: seq<byte>, i: nat)
    requires i <= |s| && Target(s, i).Ok?
    ensures TargetOuts(s, i) == Outs(To(Target(s, i).value.0), To(Target(s, i).value.1), -1)
  {
  }

  /** THE METHOD IS WRITTEN as soon as a space follows its token characters. */
  lemma VerbWritten(s: seq<byte>, i: nat, m: nat)
    requires i <= m < |s| && s[m] == SP && forall j :: i <= j < m ==> TokenChar(s[j])
    ensures TargetOuts(s, i).verb == To(Span(i, m - i))
  {
    NoSpaceInToken();
    var e := Scan(ToChar(SP), s, i);
    hide Scan, TokenChar, Past, Path;
    assert e == m;
  }

  lemma NoSpaceInToken()
    ensures !TokenChar(SP)
  {
  }

  lemma VerbUnwritten(s: seq<byte>, i: nat)
    requires i <= |s| && TargetOuts(s, i).verb == Null
    ensures forall m :: i <= m < |s| && s[m] == SP ==> exists j :: i <= j < m && !TokenChar(s[j])
  {
    forall m | i <= m < |s| && s[m] == SP ensures exists j :: i <= j < m && !TokenChar(s[j]) {
      if forall j :: i <= j < m ==> TokenChar(s[j]) { VerbWritten(s, i, m); }
    }
  }

  /** THE PATH IS WRITTEN as soon as a space follows it, behind the method and the
      spaces after that; it holds neither space nor control octet. */
  lemma PathWritten(s: seq<byte>, i: nat, m: nat, p: nat, q: nat)
    requires i <= m < p <= q < |s| && s[m] == SP && forall j :: i <= j < m ==> TokenChar(s[j])
    requires (forall j :: m <= j < p ==> s[j] == SP) && s[p] != SP && s[q] == SP
    requires forall j :: p <= j < q ==> s[j] != SP && !Control(s[j])
    ensures TargetOuts(s, i) == Outs(To(Span(i, m - i)), To(Span(p, q - p)), -1)
  {
    NoSpaceInToken();
    var a, b, c := Scan(ToChar(SP), s, i), Scan(PastSpaces, s, m + 1), Scan(ToPathEnd, s, p);
    hide Scan, TokenChar;
    assert a == m && b == p && c == q;
  }

  lemma PathIs(s: seq<byte>, i: nat)
    requires i <= |s| && TargetOuts(s, i).path.To?
    ensures var o := TargetOuts(s, i);
            && o.verb.To? && o.verb.span.start == i
            && var m, p, q := i + o.verb.span.len, o.path.span.start, o.path.span.start + o.path.span.len;
               && m < p <= q < |s| && s[m] == SP && s[q] == SP && (forall j :: m <= j < p ==> s[j] == SP)
               && forall j :: p <= j < q ==> s[j] != SP && !Control(s[j])
  {
    hide Scan, TokenChar;
  }

  function LineOuts(s: seq<byte>, i: nat): Outs
    requires i <= |s|
  {
    if Target(s, i).Ok? && Version(s, Target(s, i).at).Ok?
    then TargetOuts(s, i).(minor := Version(s, Target(s, i).at).value)
    else TargetOuts(s, i)
  }

  /** Method and path. */
  method ParseTarget(buf: seq<byte>, from: nat) returns (r: Parsed<(Span, Span)>, outs: Outs)
    requires from <= |buf|
    ensures r == Target(buf, from) && outs == TargetOuts(buf, from)
  {
    hide Scan, Stops;
    outs := NOTHING;
    var t := ParseToken(buf, from, SP);
    match t
    case Partial => return Partial, outs;
    case Err => return Err, outs;
    case Ok(m, verb) =>
      outs := outs.(verb := To(verb));
      var p := Advance(PastSpaces, buf, m + 1);
      if p == |buf| { return Partial, outs; }
      var q := Advance(ToPathEnd, buf, p);
      if q == |buf| { return Partial, outs; }
      if buf[q] != SP { return Err, outs; }
      outs := outs.(path := To(Span(p, q - p)));
      var v := Advance(PastSpaces, buf, q + 1);
      if v == |buf| { return Partial, outs; }
      if verb.len == 0 || q == p { return Err, outs; }
      return Ok(v, (verb, Span(p, q - p))), outs;
  }

  method ParseRequestLine(buf: seq<byte>, from: nat) returns (r: Parsed<Request>, outs: Outs)
    requires from <= |buf|
    ensures r == RequestLine(buf, from) && outs == LineOuts(buf, from)
    ensures r.Ok? ==> outs == Outs(To(r.value.verb), To(r.value.path), r.value.minor)
  {
    hide Target, Version, LineEnd, TargetOuts;
    var t;
    t, outs := ParseTarget(buf, from);
    match t
    case Partial => return Partial, outs;
    case Err => return Err, outs;
    case Ok(v, target) =>
      TargetOutsSet(buf, from);
      var version := ParseVersion(buf, v);
      match version
      case Partial => return Partial, outs;
      case Err => return Err, outs;
      case Ok(e, minor) =>
        outs := outs.(minor := minor);
        var f := ParseLineEnd(buf, e);
        match f
        case Partial => return Partial, outs;
        case Err => return Err, outs;
        case Ok(n, _) => return Ok(n, Request(target.0, target.1, minor, [])), outs;
  }

  /** `is_complete` */
  method CheckComplete(buf: seq<byte>, lastLen: nat) returns (r: Parsed<()>)
    requires lastLen <= |buf|
    ensures r == IsComplete(buf, lastLen)
  {
    var at, count := if lastLen < 3 then 0 else lastLen - 3, 0;
    while true
      invariant at <= |buf| && count < 2
      invariant FindBlankLine(buf, at, count) == IsComplete(buf, lastLen)
      decreases |buf| - at
    {
      if at == |buf| { return Partial; }
      if buf[at] == CR {
        if at + 1 == |buf| { return Partial; }
        if buf[at + 1] != LF { return Err; }
        at, count := at + 2, count + 1;
      } else if buf[at] == LF {
        at, count := at + 1, count + 1;
      } else {
        at, count := at + 1, 0;
      }
      if count == 2 { return Ok(at, ()); }
    }
  }

  /** The header lines a call leaves behind, whatever its verdict. */
  function LeftBehind(buf: seq<byte>, max: nat, lastLen: nat): seq<Header>
    requires lastLen <= |buf|
  {
    if (lastLen != 0 && !IsComplete(buf, lastLen).Ok?) || !Lead(buf).Ok? || !RequestLine(buf, Lead(buf).at).Ok? then []
    else HeadersRead(buf, RequestLine(buf, Lead(buf).at).at, [], max)
  }

  /** What a call leaves in its other out-parameters, whatever its verdict. */
  function OutsLeft(buf: seq<byte>, lastLen: nat): Outs
    requires lastLen <= |buf|
  {
    if (lastLen != 0 && !IsComplete(buf, lastLen).Ok?) || !Lead(buf).Ok? then NOTHING else LineOuts(buf, Lead(buf).at)
  }

  /** `phr_parse_request`. The headers are left in `headers`, `num` of them; the
      request's own list is what a success put there. */
  method ParseRequest(buf: seq<byte>, headers: array<Header>, lastLen: nat)
    returns (r: Parsed<Request>, num: nat, outs: Outs)
    requires lastLen <= |buf|
    modifies headers
    ensures r == ParseFrom(buf, headers.Length, lastLen)
    ensures num <= headers.Length && headers[..num] == LeftBehind(buf, headers.Length, lastLen)
    ensures outs == OutsLeft(buf, lastLen)
    ensures r.Ok? ==> r.value.headers == headers[..num] && outs == Outs(To(r.value.verb), To(r.value.path), r.value.minor)
  {
    hide RequestLine, Headers, HeadersRead, IsComplete, LineEnd, LineOuts;
    num, outs := 0, NOTHING;
    if lastLen != 0 {
      var c := CheckComplete(buf, lastLen);
      if c.Err? { return Err, num, outs; }
      if c.Partial? { return Partial, num, outs; }
    }
    if buf == [] { return Partial, num, outs; }
    var lead: Parsed<()> := Ok(0, ());
    if buf[0] == CR || buf[0] == LF { lead := ParseLineEnd(buf, 0); }
    if lead.Err? { return Err, num, outs; }
    if lead.Partial? { return Partial, num, outs; }
    var line;
    line, outs := ParseRequestLine(buf, lead.at);
    if line.Err? { return Err, num, outs; }
    if line.Partial? { return Partial, num, outs; }
    var hs;
    hs, num := ParseHeaders(buf, line.at, headers);
    if hs.Err? { return Err, num, outs; }
    if hs.Partial? { return Partial, num, outs; }
    return Ok(hs.at, line.value.(headers := headers[..num])), num, outs;
  }
}
