/** Request heads as a grammar of their own (sections 3.1.1 and 3.2 of RFC 7230,
    with the liberties the parser takes), and what parsing makes of their text. */
module HttpGrammar {
  import opened Bytes
  import opened HttpRequest

  /** A header line, or a continuation of one: blanks around the value are not part
      of it, and a continuation's value keeps its own leading blanks. */
  datatype Field = Field(folded: bool, name: seq<byte>, gap: seq<byte>, value: seq<byte>, tail: seq<byte>, cr: bool)

  /** A request line with any number of spaces between its parts; `lead` is the
      empty line that may come first. Every line end may have a CR. */
  datatype Top = Top(lead: seq<byte>, verb: seq<byte>, gap: nat, path: seq<byte>, gap2: nat, minor: nat, cr: bool)

  datatype Head = Head(top: Top, fields: seq<Field>, cr: bool)

  function Eol(cr: bool): (s: seq<byte>)
    ensures 1 <= |s| <= 2 && (s[0] == CR || s[0] == LF)
  {
    if cr then [CR, LF] else [LF]
  }

  function Spaces(n: nat): (s: seq<byte>)
    ensures |s| == n
  {
    seq(n, i => SP)
  }

  // ---- the grammar's octets ----

  /** Section 3.2.6 of RFC 7230: letters, digits and fifteen marks. */
  predicate Tchar(b: byte) {
    var c := b as char;
    'a' <= c <= 'z' || 'A' <= c <= 'Z' || '0' <= c <= '9' || c in "!#$%&'*+-.^_`|~"
  }

  /** Blanks around a value: space and tab (section 3.2.3 of RFC 7230). */
  predicate Bws(b: byte) { b as char in " \t" }

  /** Visible ASCII, and the octets above it that section 3.2.6 calls `obs-text`. */
  predicate Visible(b: byte) { 0x21 <= b <= 0x7E || 0x80 <= b <= 0xFF }

  ghost predicate IsBws(s: seq<byte>) { forall i :: 0 <= i < |s| ==> Bws(s[i]) }

  ghost predicate IsToken(s: seq<byte>) { forall i :: 0 <= i < |s| ==> Tchar(s[i]) }

  ghost predicate IsText(s: seq<byte>) { forall i :: 0 <= i < |s| ==> Visible(s[i]) || Bws(s[i]) }

  ghost predicate IsTarget(s: seq<byte>) { forall i :: 0 <= i < |s| ==> Visible(s[i]) }

  ghost predicate FieldOk(f: Field) {
    && IsText(f.value) && (f.value != [] ==> !Bws(f.value[|f.value| - 1])) && IsBws(f.tail)
    && if f.folded then
         f.name == [] && f.gap == [] && f.value + f.tail != [] && Bws((f.value + f.tail)[0])
       else
         && f.name != [] && IsToken(f.name) && IsBws(f.gap)
         && (if f.value == [] then f.tail == [] else !Bws(f.value[0]))
  }

  ghost predicate TopOk(t: Top) {
    && (t.lead == [] || t.lead == Eol(false) || t.lead == Eol(true))
    && t.verb != [] && IsToken(t.verb) && t.path != [] && IsTarget(t.path) && t.gap > 0 && t.gap2 > 0 && t.minor < 10
  }

  ghost predicate HeadOk(h: Head) {
    && TopOk(h.top) && (h.fields != [] ==> !h.fields[0].folded)
    && forall i :: 0 <= i < |h.fields| ==> FieldOk(h.fields[i])
  }

  function NameText(f: Field): seq<byte> { if f.folded then [] else f.name + ([COLON] + f.gap) }

  function FieldText(f: Field): seq<byte> { NameText(f) + ((f.value + f.tail) + Eol(f.cr)) }

  function FieldsText(fs: seq<Field>): seq<byte> {
    if fs == [] then [] else FieldText(fs[0]) + FieldsText(fs[1..])
  }

  function VersionText(minor: nat): seq<byte>
    requires minor < 10
  {
    HTTP1 + [48 + minor]
  }

  function TargetText(t: Top): seq<byte> { t.verb + (Spaces(t.gap) + (t.path + Spaces(t.gap2))) }

  function TopText(t: Top): seq<byte>
    requires t.minor < 10
  {
    t.lead + (TargetText(t) + (VersionText(t.minor) + Eol(t.cr)))
  }

  function Text(h: Head): seq<byte>
    requires h.top.minor < 10
  {
    TopText(h.top) + (FieldsText(h.fields) + Eol(h.cr))
  }

  // ---- the same in the parser's classes of octets ----

  ghost predicate Blanks(s: seq<byte>) { forall i :: 0 <= i < |s| ==> Blank(s[i]) }

  ghost predicate Tokens(s: seq<byte>) { forall i :: 0 <= i < |s| ==> TokenChar(s[i]) }

  /** No control octet but the tab. */
  ghost predicate Texts(s: seq<byte>) { forall i :: 0 <= i < |s| ==> !Control(s[i]) || s[i] == HT }

  /** Neither space nor control octet. */
  ghost predicate Paths(s: seq<byte>) { forall i :: 0 <= i < |s| ==> s[i] != SP && !Control(s[i]) }

  ghost predicate FieldScans(f: Field) {
    && Texts(f.value) && (f.value != [] ==> !Blank(f.value[|f.value| - 1])) && Blanks(f.tail)
    && if f.folded then
         f.name == [] && f.gap == [] && f.value + f.tail != [] && Blank((f.value + f.tail)[0])
       else
         && f.name != [] && Tokens(f.name) && Blanks(f.gap)
         && (if f.value == [] then f.tail == [] else !Blank(f.value[0]))
  }

  ghost predicate TopScans(t: Top) {
    && (t.lead == [] || t.lead == Eol(false) || t.lead == Eol(true))
    && t.verb != [] && Tokens(t.verb) && t.path != [] && Paths(t.path) && t.gap > 0 && t.gap2 > 0 && t.minor < 10
  }

  ghost predicate HeadScans(h: Head) {
    && TopScans(h.top) && (h.fields != [] ==> !h.fields[0].folded)
    && forall i :: 0 <= i < |h.fields| ==> FieldScans(h.fields[i])
  }

  /** THE TABLE IS THE RFC'S. The parser's classes are the grammar's, octet for octet. */
  lemma TokenCharIs(b: byte)
    ensures TokenChar(b) <==> Tchar(b)
  {
  }

  lemma BlankIs(b: byte)
    ensures Blank(b) <==> Bws(b)
  {
  }

  lemma ControlIs(b: byte)
    ensures Control(b) <==> !Visible(b) && b != SP
  {
  }

  lemma RunsSame(s: seq<byte>)
    ensures IsBws(s) <==> Blanks(s)
    ensures IsToken(s) <==> Tokens(s)
    ensures IsText(s) <==> Texts(s)
    ensures IsTarget(s) <==> Paths(s)
  {
    forall i | 0 <= i < |s|
      ensures (Bws(s[i]) <==> Blank(s[i])) && (Tchar(s[i]) <==> TokenChar(s[i]))
      ensures Control(s[i]) <==> !Visible(s[i]) && s[i] != SP
    {
      BlankIs(s[i]);
      TokenCharIs(s[i]);
      ControlIs(s[i]);
    }
    hide TokenChar, Tchar;
  }

  lemma FieldSame(f: Field)
    ensures FieldOk(f) <==> FieldScans(f)
  {
    hide IsBws, IsToken, IsText, Blanks, Tokens, Texts, Bws, Blank;
    RunsSame(f.value);
    RunsSame(f.tail);
    RunsSame(f.name);
    RunsSame(f.gap);
    if f.value != [] {
      BlankIs(f.value[0]);
      BlankIs(f.value[|f.value| - 1]);
    }
    if f.value + f.tail != [] { BlankIs((f.value + f.tail)[0]); }
  }

  lemma HeadSame(h: Head)
    ensures HeadOk(h) <==> HeadScans(h)
  {
    hide IsToken, IsTarget, Tokens, Paths, FieldOk, FieldScans;
    RunsSame(h.top.verb);
    RunsSame(h.top.path);
    forall i | 0 <= i < |h.fields| ensures FieldOk(h.fields[i]) <==> FieldScans(h.fields[i]) {
      FieldSame(h.fields[i]);
    }
  }

  /** The codes the two are written in, and the name of the protocol. */
  lemma Codes()
    ensures SP as char == ' ' && HT as char == '\t' && CR as char == '\r' && LF as char == '\n' && COLON as char == ':'
    ensures |HTTP1| == 7 && forall i :: 0 <= i < 7 ==> HTTP1[i] as char == "HTTP/1."[i]
  {
  }

  // ---- text in a buffer ----

  function Slice(s: seq<byte>, v: Span): seq<byte> {
    if v.start + v.len <= |s| then s[v.start..v.start + v.len] else []
  }

  lemma SliceIs(s: seq<byte>, i: nat, t: seq<byte>)
    requires HasAt(s, i, t)
    ensures Slice(s, Span(i, |t|)) == t
  {
  }

  /** A scanner runs over what does not stop it, and stops at what does. */
  lemma ScanRun(k: Scanner, s: seq<byte>, i: nat, t: seq<byte>)
    requires HasAt(s, i, t) && (forall j :: 0 <= j < |t| ==> !Stops(k, t[j])) && i + |t| < |s| && Stops(k, s[i + |t|])
    ensures Scan(k, s, i) == i + |t|
  {
    var e, n := Scan(k, s, i), i + |t|;
    hide Scan, Stops;
    assert forall j :: i <= j < n ==> s[j] == s[i..n][j - i] && !Stops(k, s[j]);
  }

  // ---- line ends ----

  lemma ReadEol(s: seq<byte>, i: nat, cr: bool)
    requires HasAt(s, i, Eol(cr))
    ensures i < |s| && LineEnd(s, i) == Ok(i + |Eol(cr)|, ())
  {
    Octet(s, i, Eol(cr), 0);
    if cr { Octet(s, i, Eol(cr), 1); }
  }

  lemma FindEol(s: seq<byte>, i: nat) returns (cr: bool)
    requires i < |s| && LineEnd(s, i).Ok?
    ensures HasAt(s, i, Eol(cr)) && LineEnd(s, i) == Ok(i + |Eol(cr)|, ())
  {
    cr := s[i] == CR;
  }

  // ---- the rest of a line ----

  lemma ReadRest(s: seq<byte>, v: nat, value: seq<byte>, tail: seq<byte>, cr: bool)
    requires HasAt(s, v, (value + tail) + Eol(cr)) && Texts(value) && Blanks(tail)
    requires value != [] ==> !Blank(value[|value| - 1])
    ensures var t := TokenToEol(s, v);
            && t == Ok(v + |value + tail| + |Eol(cr)|, Span(v, |value + tail|))
            && Trim(s, t.value) == Span(v, |value|) && Slice(s, Span(v, |value|)) == value
  {
    hide Scan, Trim, LineEnd;
    var all := value + tail;
    HasBoth(s, v, all, Eol(cr));
    HasBoth(s, v, value, tail);
    ReadEol(s, v + |all|, cr);
    Octet(s, v + |all|, Eol(cr), 0);
    assert forall j :: 0 <= j < |all| ==> !Stops(ToLineEnd, all[j]);
    ScanRun(ToLineEnd, s, v, all);
    SliceIs(s, v, value);
    TrimIs(s, v, value, tail);
  }

  /** Trimming is what the grammar says of the two parts. */
  lemma TrimIs(s: seq<byte>, v: nat, value: seq<byte>, tail: seq<byte>)
    requires HasAt(s, v, value) && HasAt(s, v + |value|, tail) && Blanks(tail)
    requires value != [] ==> !Blank(value[|value| - 1])
    ensures Trim(s, Span(v, |value + tail|)) == Span(v, |value|)
  {
    var t := Trim(s, Span(v, |value + tail|));
    hide Trim;
    assert value != [] ==> s[v + |value| - 1] == s[v..v + |value|][|value| - 1];
    assert forall j :: v + |value| <= j < v + |value + tail| ==> s[j] == tail[j - v - |value|];
  }

  lemma FindRest(s: seq<byte>, v: nat) returns (value: seq<byte>, tail: seq<byte>, cr: bool)
    requires v <= |s| && TokenToEol(s, v).Ok?
    ensures var t := TokenToEol(s, v);
            && HasAt(s, v, (value + tail) + Eol(cr)) && t.at == v + |(value + tail) + Eol(cr)|
            && t.value == Span(v, |value + tail|)
            && Texts(value) && Blanks(tail) && (value != [] ==> !Blank(value[|value| - 1]))
            && Trim(s, t.value) == Span(v, |value|)
  {
    hide Trim, LineEnd, Texts, Blanks;
    var e := Scan(ToLineEnd, s, v);
    cr := FindEol(s, e);
    value, tail := FindParts(s, v, e);
    hide Scan;
    HasBoth(s, v, value + tail, Eol(cr));
  }

  lemma FindParts(s: seq<byte>, v: nat, e: nat) returns (value: seq<byte>, tail: seq<byte>)
    requires v <= |s| && e == Scan(ToLineEnd, s, v)
    ensures value + tail == s[v..e] && Texts(value) && Blanks(tail) && (value != [] ==> !Blank(value[|value| - 1]))
    ensures Trim(s, Span(v, e - v)) == Span(v, |value|)
  {
    var t := Trim(s, Span(v, e - v));
    value, tail := s[v..v + t.len], s[v + t.len..e];
    hide Trim, Scan;
    assert forall j :: 0 <= j < |value| ==> value[j] == s[v + j] && !Stops(ToLineEnd, s[v + j]);
    assert forall j :: 0 <= j < |tail| ==> tail[j] == s[v + t.len + j];
  }

  // ---- names ----

  lemma ReadName(s: seq<byte>, i: nat, f: Field, first: bool)
    requires FieldScans(f) && HasAt(s, i, FieldText(f)) && (first ==> !f.folded)
    ensures i < |s| && HasAt(s, i + |NameText(f)|, (f.value + f.tail) + Eol(f.cr))
    ensures Name(s, i, first) == Ok(i + |NameText(f)|, (f.folded, if f.folded then Span(0, 0) else Span(i, |f.name|)))
    ensures !f.folded ==> Slice(s, Span(i, |f.name|)) == f.name
    ensures s[i] != CR && s[i] != LF
  {
    var rest := (f.value + f.tail) + Eol(f.cr);
    HasBoth(s, i, NameText(f), rest);
    Octet(s, i + |NameText(f)|, rest, 0);
    if f.folded {
      assert Blank(rest[0]);
    } else {
      BehindGap(f);
      hide FieldText;
      ReadOwnName(s, i, f, first);
    }
  }

  lemma ReadOwnName(s: seq<byte>, i: nat, f: Field, first: bool)
    requires FieldScans(f) && !f.folded && HasAt(s, i, f.name + ([COLON] + f.gap))
    requires var v := i + |f.name + ([COLON] + f.gap)|; v < |s| && !Blank(s[v])
    ensures i < |s| && TokenChar(s[i]) && Slice(s, Span(i, |f.name|)) == f.name
    ensures Name(s, i, first) == Ok(i + |f.name + ([COLON] + f.gap)|, (false, Span(i, |f.name|)))
  {
    hide Scan;
    HasBoth(s, i, f.name, [COLON] + f.gap);
    HasBoth(s, i + |f.name|, [COLON], f.gap);
    Octet(s, i, f.name, 0);
    Octet(s, i + |f.name|, [COLON], 0);
    SliceIs(s, i, f.name);
    ScanRun(ToChar(COLON), s, i, f.name);
    ScanRun(PastBlanks, s, i + |f.name| + 1, f.gap);
  }

  /** What follows the gap is no blank. */
  lemma BehindGap(f: Field)
    requires FieldScans(f) && !f.folded
    ensures var rest := (f.value + f.tail) + Eol(f.cr); rest != [] && !Blank(rest[0])
  {
  }

  lemma FindName(s: seq<byte>, i: nat, first: bool) returns (name: seq<byte>, gap: seq<byte>)
    requires i < |s| && Name(s, i, first).Ok? && !Name(s, i, first).value.0
    ensures var r := Name(s, i, first);
            && name != [] && Tokens(name) && Blanks(gap) && HasAt(s, i, name + ([COLON] + gap))
            && r.at == i + |name + ([COLON] + gap)| < |s| && r.value.1 == Span(i, |name|) && !Blank(s[r.at])
  {
    var e := Scan(ToChar(COLON), s, i);
    var v := Scan(PastBlanks, s, e + 1);
    name, gap := s[i..e], s[e + 1..v];
    hide Scan;
    HasBoth(s, i, name, [COLON] + gap);
    HasBoth(s, e, [COLON], gap);
  }

  // ---- header lines ----

  /** A parsed header is the grammar's. */
  ghost predicate ReadsField(s: seq<byte>, h: Header, f: Field) {
    && h.folded == f.folded && Slice(s, h.value) == f.value
    && (if f.folded then h.name == Span(0, 0) else Slice(s, h.name) == f.name)
  }

  lemma ReadField(s: seq<byte>, i: nat, f: Field, first: bool) returns (h: Header)
    requires FieldScans(f) && HasAt(s, i, FieldText(f)) && (first ==> !f.folded)
    ensures i < |s| && s[i] != CR && s[i] != LF
    ensures HeaderLine(s, i, first) == Ok(i + |FieldText(f)|, h) && ReadsField(s, h, f)
  {
    hide Name, TokenToEol, Trim, Texts, Blanks, Tokens, HasAt, Slice;
    ReadName(s, i, f, first);
    var v := i + |NameText(f)|;
    ReadRest(s, v, f.value, f.tail, f.cr);
    h := Header(f.folded, if f.folded then Span(0, 0) else Span(i, |f.name|), Span(v, |f.value|));
  }

  lemma FindField(s: seq<byte>, i: nat, first: bool) returns (f: Field)
    requires i < |s| && s[i] != CR && s[i] != LF && HeaderLine(s, i, first).Ok?
    ensures FieldScans(f) && HasAt(s, i, FieldText(f)) && (first ==> !f.folded)
    ensures HeaderLine(s, i, first).at == i + |FieldText(f)| && ReadsField(s, HeaderLine(s, i, first).value, f)
  {
    hide FieldScans, FieldText, ReadsField, HasAt, TokenToEol, Trim, Token;
    if Name(s, i, first).value.0 {
      f := FindFolded(s, i);
    } else {
      f := FindNamed(s, i, first);
    }
  }

  lemma FindFolded(s: seq<byte>, i: nat) returns (f: Field)
    requires i < |s| && Blank(s[i]) && TokenToEol(s, i).Ok?
    ensures FieldScans(f) && f.folded && HasAt(s, i, FieldText(f)) && TokenToEol(s, i).at == i + |FieldText(f)|
    ensures ReadsField(s, Header(true, Span(0, 0), Trim(s, TokenToEol(s, i).value)), f)
  {
    hide TokenToEol, Trim, Texts, Blanks;
    var value, tail, cr := FindRest(s, i);
    f := Field(true, [], [], value, tail, cr);
    assert FieldText(f) == (value + tail) + Eol(cr);
    Starts(s, i, value, tail, cr);
    SliceIs(s, i, value);
  }

  lemma NamedOk(s: seq<byte>, v: nat, f: Field)
    requires !f.folded && f.name != [] && Tokens(f.name) && Blanks(f.gap) && Texts(f.value) && Blanks(f.tail)
    requires f.value != [] ==> !Blank(f.value[|f.value| - 1])
    requires HasAt(s, v, (f.value + f.tail) + Eol(f.cr)) && v < |s| && !Blank(s[v])
    ensures FieldScans(f)
  {
    hide Tokens, Texts, HasAt;
    Starts(s, v, f.value, f.tail, f.cr);
  }

  lemma FindNamed(s: seq<byte>, i: nat, first: bool) returns (f: Field)
    requires i < |s| && Name(s, i, first).Ok? && !Name(s, i, first).value.0 && TokenToEol(s, Name(s, i, first).at).Ok?
    ensures var n := Name(s, i, first); var t := TokenToEol(s, n.at);
            && FieldScans(f) && !f.folded && HasAt(s, i, FieldText(f)) && t.at == i + |FieldText(f)|
            && ReadsField(s, Header(false, n.value.1, Trim(s, t.value)), f)
  {
    hide TokenToEol, Trim, Texts, Tokens, Blanks, Name, HasAt, Slice, FieldScans;
    var v := Name(s, i, first).at;
    var name, gap := FindName(s, i, first);
    var value, tail, cr := FindRest(s, v);
    f := Field(false, name, gap, value, tail, cr);
    Starts(s, v, value, tail, cr);
    NamedOk(s, v, f);
    SliceIs(s, v, value);
    HasBoth(s, i, name, [COLON] + gap);
    SliceIs(s, i, name);
    HasBoth(s, i, NameText(f), (value + tail) + Eol(cr));
  }

  /** Where a line that was found begins. */
  lemma Starts(s: seq<byte>, v: nat, value: seq<byte>, tail: seq<byte>, cr: bool)
    requires HasAt(s, v, (value + tail) + Eol(cr))
    ensures v < |s| && s[v] == ((value + tail) + Eol(cr))[0] && HasAt(s, v, value)
    ensures value + tail == [] ==> s[v] == CR || s[v] == LF
    ensures value + tail != [] ==> s[v] == (value + tail)[0]
    ensures value != [] ==> s[v] == value[0]
    ensures value == [] && tail != [] ==> s[v] == tail[0]
  {
    Octet(s, v, (value + tail) + Eol(cr), 0);
    HasBoth(s, v, value + tail, Eol(cr));
    HasBoth(s, v, value, tail);
  }

  ghost predicate ReadsFields(s: seq<byte>, hs: seq<Header>, fs: seq<Field>) {
    |hs| == |fs| && forall j :: 0 <= j < |hs| ==> ReadsField(s, hs[j], fs[j])
  }

  lemma ReadsOne(s: seq<byte>, h: Header, hs: seq<Header>, f: Field, fs: seq<Field>)
    requires ReadsField(s, h, f) && ReadsFields(s, hs, fs)
    ensures ReadsFields(s, [h] + hs, [f] + fs)
  {
    hide ReadsField;
  }

  lemma NoneRead(s: seq<byte>, cr: bool)
    ensures ReadsFields(s, [], []) && FieldsText([]) + Eol(cr) == Eol(cr)
  {
  }

  lemma FieldsCons(f: Field, fs: seq<Field>, cr: bool)
    ensures FieldsText([f] + fs) + Eol(cr) == FieldText(f) + (FieldsText(fs) + Eol(cr))
  {
    assert ([f] + fs)[1..] == fs;
  }

  /** The lines after `hs` and the empty line, read in order. */
  lemma {:induction false} ReadFields(s: seq<byte>, i: nat, hs: seq<Header>, fs: seq<Field>, cr: bool, max: nat)
      returns (new_: seq<Header>)
    requires HasAt(s, i, FieldsText(fs) + Eol(cr)) && |hs| + |fs| <= max
    requires (forall j :: 0 <= j < |fs| ==> FieldScans(fs[j])) && (hs == [] && fs != [] ==> !fs[0].folded)
    ensures i <= |s| && Headers(s, i, hs, max) == Ok(i + |FieldsText(fs) + Eol(cr)|, hs + new_)
    ensures ReadsFields(s, new_, fs)
    decreases |fs|
  {
    hide HeaderLine, FieldScans, FieldText, FieldsText, ReadsField, ReadsFields, LineEnd, HasAt;
    if fs == [] {
      NoneRead(s, cr);
      ReadEol(s, i, cr);
      Octet(s, i, Eol(cr), 0);
      new_ := [];
      assert hs + new_ == hs;
    } else {
      var f, rest := fs[0], FieldsText(fs[1..]) + Eol(cr);
      assert [f] + fs[1..] == fs;
      FieldsCons(f, fs[1..], cr);
      HasBoth(s, i, FieldText(f), rest);
      var h := ReadField(s, i, f, hs == []);
      var more := ReadFields(s, i + |FieldText(f)|, hs + [h], fs[1..], cr, max);
      new_ := [h] + more;
      assert (hs + [h]) + more == hs + new_;
      ReadsOne(s, h, more, f, fs[1..]);
    }
  }

  lemma {:induction false} FindFields(s: seq<byte>, i: nat, hs: seq<Header>, max: nat)
      returns (fs: seq<Field>, cr: bool, new_: seq<Header>)
    requires i <= |s| && |hs| <= max && Headers(s, i, hs, max).Ok?
    ensures HasAt(s, i, FieldsText(fs) + Eol(cr)) && |hs| + |fs| <= max
    ensures (forall j :: 0 <= j < |fs| ==> FieldScans(fs[j])) && (hs == [] && fs != [] ==> !fs[0].folded)
    ensures Headers(s, i, hs, max) == Ok(i + |FieldsText(fs) + Eol(cr)|, hs + new_) && ReadsFields(s, new_, fs)
    decreases |s| - i
  {
    hide HeaderLine, FieldScans, FieldText, FieldsText, ReadsField, ReadsFields, LineEnd, HasAt;
    if s[i] == CR || s[i] == LF {
      cr := FindEol(s, i);
      fs, new_ := [], [];
      NoneRead(s, cr);
      assert hs + new_ == hs;
    } else {
      var f := FindField(s, i, hs == []);
      var h := HeaderLine(s, i, hs == []);
      var gs, more;
      gs, cr, more := FindFields(s, h.at, hs + [h.value], max);
      fs, new_ := [f] + gs, [h.value] + more;
      assert (hs + [h.value]) + more == hs + new_;
      FieldsCons(f, gs, cr);
      HasBoth(s, i, FieldText(f), FieldsText(gs) + Eol(cr));
      ReadsOne(s, h.value, more, f, gs);
    }
  }

  /** One line more than there is room for is an error, wherever the lines end. */
  lemma {:induction false} TooManyFields(s: seq<byte>, i: nat, hs: seq<Header>, fs: seq<Field>, cr: bool, max: nat)
    requires HasAt(s, i, FieldsText(fs) + Eol(cr)) && |hs| <= max < |hs| + |fs|
    requires (forall j :: 0 <= j < |fs| ==> FieldScans(fs[j])) && (hs == [] ==> !fs[0].folded)
    ensures i <= |s| && Headers(s, i, hs, max) == Err
    decreases |fs|
  {
    hide HeaderLine, FieldScans, FieldText, FieldsText, ReadsField, LineEnd, HasAt;
    var f, rest := fs[0], FieldsText(fs[1..]) + Eol(cr);
    assert [f] + fs[1..] == fs;
    FieldsCons(f, fs[1..], cr);
    HasBoth(s, i, FieldText(f), rest);
    var h := ReadField(s, i, f, hs == []);
    if |hs| < max {
      TooManyFields(s, i + |FieldText(f)|, hs + [h], fs[1..], cr, max);
    }
  }

  // ---- the request line ----

  /** Spaces behind the one at `m`, up to something else. */
  lemma ReadSpaces(s: seq<byte>, m: nat, n: nat)
    requires n > 0 && HasAt(s, m, Spaces(n)) && m + n < |s| && s[m + n] != SP
    ensures s[m] == SP && Past(PastSpaces, s, m + 1) == Ok(m + n, ())
  {
    hide Scan;
    Octet(s, m, Spaces(n), 0);
    assert Spaces(n) == [SP] + Spaces(n - 1);
    HasBoth(s, m, [SP], Spaces(n - 1));
    ScanRun(PastSpaces, s, m + 1, Spaces(n - 1));
  }

  lemma FindSpaces(s: seq<byte>, m: nat)
    requires m < |s| && s[m] == SP && Past(PastSpaces, s, m + 1).Ok?
    ensures var p := Past(PastSpaces, s, m + 1).at;
            m < p < |s| && s[p] != SP && HasAt(s, m, Spaces(p - m))
  {
    var p := Scan(PastSpaces, s, m + 1);
    hide Scan;
    assert forall j :: m <= j < p ==> s[j] == SP;
    assert s[m..p] == Spaces(p - m);
  }

  lemma ReadWord(s: seq<byte>, i: nat, verb: seq<byte>)
    requires HasAt(s, i, verb) && Tokens(verb) && i + |verb| < |s| && s[i + |verb|] == SP
    ensures Token(s, i, SP) == Ok(i + |verb|, Span(i, |verb|)) && Slice(s, Span(i, |verb|)) == verb
  {
    hide Scan;
    ScanRun(ToChar(SP), s, i, verb);
    SliceIs(s, i, verb);
  }

  lemma ReadPath(s: seq<byte>, i: nat, path: seq<byte>)
    requires HasAt(s, i, path) && Paths(path) && i + |path| < |s| && s[i + |path|] == SP
    ensures Path(s, i) == Ok(i + |path|, Span(i, |path|)) && Slice(s, Span(i, |path|)) == path
  {
    hide Scan;
    ScanRun(ToPathEnd, s, i, path);
    SliceIs(s, i, path);
  }

  /** The four parts, one behind the other. */
  lemma TargetAt(s: seq<byte>, i: nat, t: Top)
    ensures var m := i + |t.verb|; var p := m + t.gap; var q := p + |t.path|;
            && |TargetText(t)| == q + t.gap2 - i
            && (HasAt(s, i, TargetText(t)) <==>
                  HasAt(s, i, t.verb) && HasAt(s, m, Spaces(t.gap)) && HasAt(s, p, t.path) && HasAt(s, q, Spaces(t.gap2)))
  {
    hide HasAt;
    HasBoth(s, i, t.verb, Spaces(t.gap) + (t.path + Spaces(t.gap2)));
    HasBoth(s, i + |t.verb|, Spaces(t.gap), t.path + Spaces(t.gap2));
    HasBoth(s, i + |t.verb| + t.gap, t.path, Spaces(t.gap2));
  }

  /** Method and path are the grammar's. */
  ghost predicate ReadsTarget(s: seq<byte>, verb: Span, path: Span, t: Top) {
    Slice(s, verb) == t.verb && Slice(s, path) == t.path
  }

  lemma ReadTarget(s: seq<byte>, i: nat, t: Top)
    requires TopScans(t) && HasAt(s, i, TargetText(t))
    requires var v := i + |TargetText(t)|; v < |s| && s[v] != SP
    ensures i < |s| && TokenChar(s[i])
    ensures var r := Target(s, i);
            r.Ok? && r.at == i + |TargetText(t)| && ReadsTarget(s, r.value.0, r.value.1, t)
  {
    hide Token, Path, Past, Paths, HasAt, Slice, TargetText, Spaces;
    TargetAt(s, i, t);
    var m := i + |t.verb|;
    var p := m + t.gap;
    var q := p + |t.path|;
    Octet(s, i, t.verb, 0);
    Octet(s, p, t.path, 0);
    NoSpace(t.path);
    ReadSpaces(s, q, t.gap2);
    ReadSpaces(s, m, t.gap);
    ReadWord(s, i, t.verb);
    ReadPath(s, p, t.path);
  }

  lemma NoSpace(path: seq<byte>)
    requires Paths(path) && path != []
    ensures path[0] != SP
  {
  }

  lemma FindTarget(s: seq<byte>, i: nat) returns (t: Top)
    requires i <= |s| && Target(s, i).Ok?
    ensures TopScans(t) && t.lead == [] && HasAt(s, i, TargetText(t))
    ensures var r := Target(s, i);
            r.at == i + |TargetText(t)| < |s| && s[r.at] != SP && ReadsTarget(s, r.value.0, r.value.1, t)
  {
    hide Scan, Token, Path, Past, Tokens, Paths, HasAt, TargetText, Spaces;
    var m := Token(s, i, SP).at;
    var p := Past(PastSpaces, s, m + 1).at;
    var q := Path(s, p).at;
    var v := Past(PastSpaces, s, q + 1).at;
    FindWords(s, i, m, p, q);
    FindSpaces(s, m);
    FindSpaces(s, q);
    t := Top([], s[i..m], p - m, s[p..q], v - q, 0, false);
    TargetAt(s, i, t);
  }

  lemma FindWords(s: seq<byte>, i: nat, m: nat, p: nat, q: nat)
    requires i <= |s| && Token(s, i, SP).Ok? && Token(s, i, SP).at == m
    requires p <= |s| && Path(s, p).Ok? && Path(s, p).at == q
    ensures Tokens(s[i..m]) && Paths(s[p..q]) && HasAt(s, i, s[i..m]) && HasAt(s, p, s[p..q])
  {
  }

  lemma ReadVersion(s: seq<byte>, v: nat, minor: nat)
    requires minor < 10 && HasAt(s, v, VersionText(minor)) && v + 8 < |s|
    ensures Version(s, v) == Ok(v + 8, minor) && s[v] != SP
  {
    HasBoth(s, v, HTTP1, [48 + minor]);
    Octet(s, v, HTTP1, 0);
  }

  lemma FindVersion(s: seq<byte>, v: nat)
    requires v <= |s| && Version(s, v).Ok?
    ensures HasAt(s, v, VersionText(Version(s, v).value)) && Version(s, v).at == v + 8
  {
    HasBoth(s, v, HTTP1, [48 + Version(s, v).value]);
  }

  /** The parts of a request line in a buffer that begins with it. */
  lemma TopAt(s: seq<byte>, t: Top)
    requires t.minor < 10
    ensures var i := |t.lead|; var v := i + |TargetText(t)|;
            && |TopText(t)| == v + 8 + |Eol(t.cr)|
            && (HasAt(s, 0, TopText(t)) <==>
                  && HasAt(s, 0, t.lead) && HasAt(s, i, TargetText(t))
                  && HasAt(s, v, VersionText(t.minor)) && HasAt(s, v + 8, Eol(t.cr)))
  {
    hide HasAt, TargetText;
    var i := |t.lead|;
    var rest := VersionText(t.minor) + Eol(t.cr);
    HasBoth(s, 0, t.lead, TargetText(t) + rest);
    HasBoth(s, i, TargetText(t), rest);
    HasBoth(s, i + |TargetText(t)|, VersionText(t.minor), Eol(t.cr));
  }

  lemma ReadTop(s: seq<byte>, t: Top)
    requires TopScans(t) && HasAt(s, 0, TopText(t))
    ensures Lead(s) == Ok(|t.lead|, ()) && |t.lead| <= |s|
    ensures var r := RequestLine(s, |t.lead|);
            && r.Ok? && r.at == |TopText(t)| && r.value.minor == t.minor && r.value.headers == []
            && ReadsTarget(s, r.value.verb, r.value.path, t)
  {
    hide HasAt, TargetText, Target, Version, ReadsTarget, Paths, Tokens, TopText, VersionText;
    TopAt(s, t);
    var i := |t.lead|;
    var v := i + |TargetText(t)|;
    ReadEol(s, v + 8, t.cr);
    ReadVersion(s, v, t.minor);
    ReadTarget(s, i, t);
    ReadLead(s, t.lead);
  }

  lemma ReadLead(s: seq<byte>, lead: seq<byte>)
    requires (lead == [] || lead == Eol(false) || lead == Eol(true)) && HasAt(s, 0, lead)
    requires |lead| < |s| && TokenChar(s[|lead|])
    ensures Lead(s) == Ok(|lead|, ())
  {
    if lead != [] {
      ReadEol(s, 0, lead == Eol(true));
      Octet(s, 0, lead, 0);
    }
  }

  lemma FindLead(s: seq<byte>) returns (lead: seq<byte>)
    requires Lead(s).Ok?
    ensures (lead == [] || lead == Eol(false) || lead == Eol(true)) && HasAt(s, 0, lead) && Lead(s).at == |lead|
  {
    lead := [];
    if s[0] == CR || s[0] == LF {
      var cr := FindEol(s, 0);
      lead := Eol(cr);
    }
  }

  lemma FindTop(s: seq<byte>) returns (t: Top)
    requires Lead(s).Ok? && RequestLine(s, Lead(s).at).Ok?
    ensures TopScans(t) && HasAt(s, 0, TopText(t)) && Lead(s).at == |t.lead|
    ensures var r := RequestLine(s, |t.lead|);
            && r.at == |TopText(t)| && r.value.minor == t.minor
            && ReadsTarget(s, r.value.verb, r.value.path, t)
  {
    hide HasAt, TargetText, Target, Version, Paths, Tokens, TopText, VersionText, Lead, Slice, LineEnd;
    var lead := FindLead(s);
    var i := |lead|;
    var got := FindTarget(s, i);
    var v := Target(s, i).at;
    FindVersion(s, v);
    var cr := FindEol(s, v + 8);
    t := got.(lead := lead, minor := Version(s, v).value, cr := cr);
    SameTarget(got, t);
    TopAt(s, t);
  }

  lemma SameTarget(a: Top, b: Top)
    requires b == a.(lead := b.lead, minor := b.minor, cr := b.cr)
    ensures TargetText(a) == TargetText(b)
  {
  }

  // ---- whole heads ----

  /** A parsed request is the grammar's: every part reads as it was written. */
  ghost predicate Reads(s: seq<byte>, r: Request, h: Head) {
    ReadsTarget(s, r.verb, r.path, h.top) && r.minor == h.top.minor && ReadsFields(s, r.headers, h.fields)
  }

  /** ROUND TRIP. The text of a well-formed head, whatever follows it, parses to
      that head and stops at its end. */
  lemma RoundTrip(h: Head, s: seq<byte>, max: nat)
    requires HeadOk(h) && |h.fields| <= max && HasAt(s, 0, Text(h))
    ensures var r := Parse(s, max); r.Ok? && r.at == |Text(h)| && Reads(s, r.value, h)
  {
    HeadSame(h);
    hide HeadOk, HasAt, TopText, FieldsText, FieldScans, Tokens, Paths, Lead, RequestLine, Headers, ReadsTarget, ReadsFields;
    HasBoth(s, 0, TopText(h.top), FieldsText(h.fields) + Eol(h.cr));
    ReadTop(s, h.top);
    var hs := ReadFields(s, |TopText(h.top)|, [], h.fields, h.cr, max);
    assert [] + hs == hs;
  }

  lemma FindHead(s: seq<byte>, max: nat) returns (h: Head)
    requires Parse(s, max).Ok?
    ensures HeadOk(h) && |h.fields| <= max && HasAt(s, 0, Text(h))
  {
    hide HeadOk, HasAt, TopText, FieldsText, FieldScans, Lead, RequestLine, Headers, ReadsTarget, ReadsFields, Tokens, Paths;
    var t := FindTop(s);
    var fs, cr, hs := FindFields(s, |TopText(t)|, [], max);
    h := Head(t, fs, cr);
    HasBoth(s, 0, TopText(t), FieldsText(fs) + Eol(cr));
    HeadSame(h);
  }

  /** EXACT LANGUAGE. A buffer parses if and only if it begins with a well-formed
      head of no more header lines than there is room for; the parse then stops at
      that head's end and every field reads as the head has it. */
  lemma ParsesExactly(s: seq<byte>, max: nat)
    ensures Parse(s, max).Ok? <==> exists h :: HeadOk(h) && |h.fields| <= max && HasAt(s, 0, Text(h))
    ensures forall h :: HeadOk(h) && |h.fields| <= max && HasAt(s, 0, Text(h)) ==>
              Parse(s, max).Ok? && Parse(s, max).at == |Text(h)| && Reads(s, Parse(s, max).value, h)
  {
    hide HasAt, FieldOk, IsToken, IsTarget, Parse, Reads, Text;
    forall h | HeadOk(h) && |h.fields| <= max && HasAt(s, 0, Text(h))
      ensures Parse(s, max).Ok? && Parse(s, max).at == |Text(h)| && Reads(s, Parse(s, max).value, h)
    {
      RoundTrip(h, s, max);
    }
    if Parse(s, max).Ok? {
      var h := FindHead(s, max);
    }
  }

  /** NO ROOM. A well-formed head with more header lines than there is room for is
      refused, never cut short. */
  lemma NoRoom(h: Head, s: seq<byte>, max: nat)
    requires HeadOk(h) && |h.fields| > max && HasAt(s, 0, Text(h))
    ensures Parse(s, max) == Err
  {
    HeadSame(h);
    hide HeadOk, HasAt, TopText, FieldsText, FieldScans, Tokens, Paths, Lead, RequestLine, Headers, ReadsTarget;
    HasBoth(s, 0, TopText(h.top), FieldsText(h.fields) + Eol(h.cr));
    ReadTop(s, h.top);
    TooManyFields(s, |TopText(h.top)|, [], h.fields, h.cr, max);
  }

  // ---- what a call leaves in the header array, however it ends ----

  lemma {:induction false} KeptAfter(s: seq<byte>, i: nat, hs: seq<Header>, fs: seq<Field>, max: nat)
      returns (new_: seq<Header>, more: seq<Header>)
    requires HasAt(s, i, FieldsText(fs)) && |hs| + |fs| <= max
    requires (forall j :: 0 <= j < |fs| ==> FieldScans(fs[j])) && (hs == [] && fs != [] ==> !fs[0].folded)
    ensures i <= |s| && HeadersRead(s, i, hs, max) == hs + new_ + more && ReadsFields(s, new_, fs)
    decreases |fs|
  {
    hide HeaderLine, FieldScans, FieldText, ReadsField, HasAt;
    if fs == [] {
      Within(s, i, []);
      new_ := [];
      more := Rest(s, i, hs, max);
      assert hs + new_ + more == hs + more;
      NoneRead(s, false);
    } else {
      var f := fs[0];
      HasBoth(s, i, FieldText(f), FieldsText(fs[1..]));
      var h := ReadField(s, i, f, hs == []);
      var got;
      got, more := KeptAfter(s, i + |FieldText(f)|, hs + [h], fs[1..], max);
      new_ := [h] + got;
      assert (hs + [h]) + got + more == hs + new_ + more;
      ReadsOne(s, h, got, f, fs[1..]);
      assert [f] + fs[1..] == fs;
    }
  }

  lemma Within(s: seq<byte>, i: nat, t: seq<byte>)
    requires HasAt(s, i, t)
    ensures i + |t| <= |s|
  {
  }

  /** The lines read add to those there were. */
  lemma {:induction false} Rest(s: seq<byte>, i: nat, hs: seq<Header>, max: nat) returns (more: seq<Header>)
    requires i <= |s| && |hs| <= max
    ensures HeadersRead(s, i, hs, max) == hs + more
    decreases |s| - i
  {
    hide HeaderLine;
    more := [];
    assert hs + [] == hs;
    if i < |s| && s[i] != CR && s[i] != LF && |hs| < max {
      var h := HeaderLine(s, i, |hs| == 0);
      if h.Ok? {
        more := Rest(s, h.at, hs + [h.value], max);
        assert (hs + [h.value]) + more == hs + ([h.value] + more);
        more := [h.value] + more;
      }
    }
  }

  /** LINES ARE KEPT. Header lines that are there in full, as many as there is room
      for, are in the array whatever becomes of the rest. */
  lemma LinesAreKept(s: seq<byte>, i: nat, fs: seq<Field>, max: nat) returns (new_: seq<Header>, more: seq<Header>)
    requires HasAt(s, i, FieldsText(fs)) && |fs| <= max
    requires (forall j :: 0 <= j < |fs| ==> FieldOk(fs[j])) && (fs != [] ==> !fs[0].folded)
    ensures i <= |s| && HeadersRead(s, i, [], max) == new_ + more && ReadsFields(s, new_, fs)
  {
    hide FieldOk, FieldScans, HeadersRead, HasAt, FieldsText, ReadsFields;
    forall j | 0 <= j < |fs| ensures FieldScans(fs[j]) { FieldSame(fs[j]); }
    new_, more := KeptAfter(s, i, [], fs, max);
    assert [] + new_ + more == new_ + more;
  }

  /** AND NOTHING ELSE: what is in the array was there in full. */
  lemma {:induction false} OnlyLines(s: seq<byte>, i: nat, hs: seq<Header>, max: nat)
      returns (fs: seq<Field>, new_: seq<Header>)
    requires i <= |s| && |hs| <= max
    ensures HasAt(s, i, FieldsText(fs)) && forall j :: 0 <= j < |fs| ==> FieldOk(fs[j])
    ensures HeadersRead(s, i, hs, max) == hs + new_ && ReadsFields(s, new_, fs)
    decreases |s| - i
  {
    hide HeaderLine, FieldOk, FieldScans, FieldText, ReadsField, HasAt;
    fs, new_ := [], [];
    assert hs + [] == hs;
    Nothing(s, i);
    if i < |s| && s[i] != CR && s[i] != LF && |hs| < max {
      var h := HeaderLine(s, i, |hs| == 0);
      if h.Ok? {
        var f := FindField(s, i, hs == []);
        FieldSame(f);
        var gs, got := OnlyLines(s, h.at, hs + [h.value], max);
        fs, new_ := [f] + gs, [h.value] + got;
        assert (hs + [h.value]) + got == hs + new_;
        assert fs[1..] == gs;
        HasBoth(s, i, FieldText(f), FieldsText(gs));
        ReadsOne(s, h.value, got, f, gs);
      }
    }
  }

  lemma Nothing(s: seq<byte>, i: nat)
    requires i <= |s|
    ensures HasAt(s, i, FieldsText([])) && ReadsFields(s, [], [])
  {
    assert s[i..i] == [];
  }
}
