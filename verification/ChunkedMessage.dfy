/** What a chunked message is (section 4.1 of RFC 7230, as leniently as this
    decoder reads it), and the proof that the decoder accepts exactly those
    messages and yields exactly their data. */
module ChunkedMessage {
  import opened Bytes
  import opened ChunkedSpec

  /** One chunk: its size in hex, an extension (a CR before the line feed is
      part of it), its data, and the CRs before the line feed that ends it. */
  datatype Chunk = Chunk(digits: seq<byte>, ext: seq<byte>, data: seq<byte>, crs: nat)

  /** The last chunk has size zero; trailer lines follow, then an empty line. */
  datatype Message = Message(chunks: seq<Chunk>, digits: seq<byte>, ext: seq<byte>,
                             trailers: seq<seq<byte>>, crs: nat)

  function Crs(n: nat): (s: seq<byte>)
    ensures |s| == n
  {
    seq(n, i => CR)
  }

  /** The value of `ds` read in base 16 behind the value `v`. */
  function Number(v: nat, ds: seq<byte>): nat
    requires AllHex(ds)
    decreases |ds|
  {
    if ds == [] then v else Number(v * 16 + HexValue(ds[0]), ds[1..])
  }

  predicate AllHex(ds: seq<byte>) { forall i :: 0 <= i < |ds| ==> HexValue(ds[i]) >= 0 }

  /** A size line without its line feed. */
  predicate SizeLine(digits: seq<byte>, ext: seq<byte>, size: nat) {
    && 1 <= |digits| <= MAX_HEX && AllHex(digits) && Number(0, digits) == size
    && LF !in ext && (ext != [] ==> EndsSize(ext[0]))
  }

  predicate WellFormedChunk(c: Chunk) { c.data != [] && SizeLine(c.digits, c.ext, |c.data|) }

  /** A trailer line: something other than CRs, and no line feed. */
  predicate TrailerLine(t: seq<byte>) { LF !in t && exists i :: 0 <= i < |t| && t[i] != CR }

  predicate WellFormed(m: Message) {
    && (forall i :: 0 <= i < |m.chunks| ==> WellFormedChunk(m.chunks[i]))
    && SizeLine(m.digits, m.ext, 0)
    && (forall i :: 0 <= i < |m.trailers| ==> TrailerLine(m.trailers[i]))
  }

  function ChunkText(c: Chunk): seq<byte> {
    c.digits + (c.ext + ([LF] + (c.data + (Crs(c.crs) + [LF]))))
  }

  function ChunksText(cs: seq<Chunk>): seq<byte> {
    if cs == [] then [] else ChunkText(cs[0]) + ChunksText(cs[1..])
  }

  function TrailersText(ts: seq<seq<byte>>): seq<byte> {
    if ts == [] then [] else (ts[0] + [LF]) + TrailersText(ts[1..])
  }

  function EndText(m: Message): seq<byte> {
    m.digits + (m.ext + ([LF] + (TrailersText(m.trailers) + (Crs(m.crs) + [LF]))))
  }

  function Text(m: Message): seq<byte> { ChunksText(m.chunks) + EndText(m) }

  /** The data the message carries. */
  function Payload(cs: seq<Chunk>): seq<byte> {
    if cs == [] then [] else cs[0].data + Payload(cs[1..])
  }

  const END := Core(TrailerHead, 0, 0)

  /** Where a decoder that leaves trailers unread completes. */
  const LAST := Core(Ext, 0, 0)

  // ---- reading each part ----

  /** A step that emits nothing. */
  lemma Skip(tr: bool, c: Core, s: seq<byte>, rest: seq<byte>, n: Core)
    requires ValidCore(c) && |s| == 1 && React(tr, c, s[0]) == Consume(n, false)
    ensures ValidCore(n) && Run(tr, c, s + rest) == Run(tr, n, rest)
  {
    hide React, ValidCore, Run;
    RunUnfold(tr, c, s + rest);
    assert (s + rest)[1..] == rest;
  }

  lemma {:induction false} ReadDigits(tr: bool, c: Core, ds: seq<byte>, rest: seq<byte>)
    requires ValidCore(c) && c.phase == Size && AllHex(ds) && c.hexCount + |ds| <= MAX_HEX
    ensures var n := Core(Size, Number(c.left, ds), c.hexCount + |ds|);
            ValidCore(n) && Run(tr, c, ds + rest) == Run(tr, n, rest)
    decreases |ds|
  {
    hide React, ValidCore, Run, HexValue;
    if ds == [] {
      assert ds + rest == rest;
    } else {
      ReactSize(tr, c, ds[0]);
      assert ds + rest == ds[..1] + (ds[1..] + rest);
      var n := Core(Size, c.left * 16 + HexValue(ds[0]), c.hexCount + 1);
      Skip(tr, c, ds[..1], ds[1..] + rest, n);
      ReadDigits(tr, n, ds[1..], rest);
    }
  }

  /** Behind its digits a size is read as an extension is. */
  lemma LeaveSize(tr: bool, c: Core, s: seq<byte>)
    requires ValidCore(c) && c.phase == Size && c.hexCount > 0
    requires s != [] && EndsSize(s[0])
    ensures ValidCore(Core(Ext, c.left, 0))
    ensures Run(tr, c, s) == Run(tr, Core(Ext, c.left, 0), s)
  {
    hide React, ValidCore, Run;
    ReactSize(tr, c, s[0]);
    assert HexValue(s[0]) == -1;
    var x := Core(Ext, c.left, 0);
    RunUnfold(tr, c, s);
    RunUnfold(tr, x, s);
    ExtReacts(tr, x, s[0]);
  }

  /** The line feed of a size line leads to the data, to the trailers, or, where
      trailers are left unread, ends the message. */
  lemma ExtReacts(tr: bool, c: Core, b: byte)
    requires ValidCore(c) && c.phase == Ext
    ensures React(tr, c, b) ==
            if b != LF then Consume(c, false)
            else if c.left > 0 then Consume(c.(phase := Data), false)
            else if tr then Consume(END, false)
            else Finish(c)
  {
  }

  lemma {:induction false} ReadExt(tr: bool, c: Core, ext: seq<byte>, rest: seq<byte>)
    requires ValidCore(c) && c.phase == Ext && LF !in ext
    ensures Run(tr, c, ext + rest) == Run(tr, c, rest)
    decreases |ext|
  {
    hide React, ValidCore, Run;
    if ext == [] {
      assert ext + rest == rest;
    } else {
      ExtReacts(tr, c, ext[0]);
      assert ext + rest == ext[..1] + (ext[1..] + rest);
      Skip(tr, c, ext[..1], ext[1..] + rest, c);
      ReadExt(tr, c, ext[1..], rest);
    }
  }

  /** A whole size line, from the start of a chunk, up to its line feed. */
  lemma ReadSize(tr: bool, digits: seq<byte>, ext: seq<byte>, size: nat, rest: seq<byte>)
    requires SizeLine(digits, ext, size)
    ensures ValidCore(Core(Ext, size, 0))
    ensures Run(tr, START, digits + (ext + ([LF] + rest))) == Run(tr, Core(Ext, size, 0), [LF] + rest)
  {
    hide React, Run;
    var tail := ext + ([LF] + rest);
    ReadDigits(tr, START, digits, tail);
    var c := Core(Size, size, |digits|);
    assert tail[0] == if ext == [] then LF else ext[0];
    LeaveSize(tr, c, tail);
    ReadExt(tr, Core(Ext, size, 0), ext, [LF] + rest);
  }

  lemma ReadSizeLine(tr: bool, digits: seq<byte>, ext: seq<byte>, size: nat, rest: seq<byte>)
    requires SizeLine(digits, ext, size) && (size > 0 || tr)
    ensures var n := Core(if size > 0 then Data else TrailerHead, size, 0);
            ValidCore(n) && Run(tr, START, digits + (ext + ([LF] + rest))) == Run(tr, n, rest)
  {
    hide React, Run, ValidCore;
    var c := Core(Ext, size, 0);
    ReadSize(tr, digits, ext, size, rest);
    ExtReacts(tr, c, LF);
    Skip(tr, c, [LF], rest, Core(if size > 0 then Data else TrailerHead, size, 0));
  }

  /** The last size line, where trailers are left unread. */
  lemma ReadLastLine(digits: seq<byte>, ext: seq<byte>, rest: seq<byte>)
    requires SizeLine(digits, ext, 0)
    ensures Run(false, START, digits + (ext + ([LF] + rest))) == Outcome([], Complete, LAST, rest)
  {
    hide React, Run, ValidCore;
    ReadSize(false, digits, ext, 0, rest);
    ExtReacts(false, LAST, LF);
    RunUnfold(false, LAST, [LF] + rest);
    assert ([LF] + rest)[1..] == rest;
  }

  lemma {:induction false} ReadCrs(tr: bool, c: Core, n: nat, rest: seq<byte>)
    requires c == Core(Crlf, 0, 0) || c == END
    ensures ValidCore(c) && Run(tr, c, Crs(n) + rest) == Run(tr, c, rest)
    decreases n
  {
    hide Run;
    if n == 0 {
      assert Crs(0) + rest == rest;
    } else {
      assert Crs(n) + rest == [CR] + (Crs(n - 1) + rest);
      Skip(tr, c, [CR], Crs(n - 1) + rest, c);
      ReadCrs(tr, c, n - 1, rest);
    }
  }

  lemma LeaveCrlf(tr: bool, rest: seq<byte>)
    ensures Run(tr, Core(Crlf, 0, 0), [LF] + rest) == Run(tr, START, rest)
  {
    hide Run;
    Skip(tr, Core(Crlf, 0, 0), [LF], rest, START);
  }

  /** One chunk yields its data and brings the decoder back to a chunk's start. */
  lemma ReadChunk(tr: bool, c: Chunk, rest: seq<byte>)
    requires WellFormedChunk(c)
    ensures Run(tr, START, ChunkText(c) + rest) == Prepend(c.data, Run(tr, START, rest))
  {
    hide React, Run;
    var close := Crs(c.crs) + ([LF] + rest);
    assert ChunkText(c) + rest == c.digits + (c.ext + ([LF] + (c.data + close)));
    ReadSizeLine(tr, c.digits, c.ext, |c.data|, c.data + close);
    RunData(tr, Core(Data, |c.data|, 0), c.data + close, |c.data|);
    assert (c.data + close)[..|c.data|] == c.data;
    assert (c.data + close)[|c.data|..] == close;
    var crlf := Core(Crlf, 0, 0);
    ReadCrs(tr, crlf, c.crs, [LF] + rest);
    LeaveCrlf(tr, rest);
  }

  lemma {:induction false} ReadChunks(tr: bool, cs: seq<Chunk>, rest: seq<byte>)
    requires forall i :: 0 <= i < |cs| ==> WellFormedChunk(cs[i])
    ensures Run(tr, START, ChunksText(cs) + rest) == Prepend(Payload(cs), Run(tr, START, rest))
    decreases |cs|
  {
    hide React, Run, WellFormedChunk;
    if cs == [] {
      assert ChunksText(cs) + rest == rest;
      var o := Run(tr, START, rest);
      assert Payload(cs) + o.body == o.body;
    } else {
      assert ChunksText(cs) + rest == ChunkText(cs[0]) + (ChunksText(cs[1..]) + rest);
      ReadChunk(tr, cs[0], ChunksText(cs[1..]) + rest);
      ReadChunks(tr, cs[1..], rest);
      var o := Run(tr, START, rest);
      assert cs[0].data + (Payload(cs[1..]) + o.body) == Payload(cs) + o.body;
    }
  }

  /** The rest of a trailer line once something other than a CR was seen. */
  lemma {:induction false} ReadMiddle(t: seq<byte>, rest: seq<byte>)
    requires LF !in t
    ensures Run(true, Core(TrailerMiddle, 0, 0), t + ([LF] + rest)) == Run(true, END, rest)
    decreases |t|
  {
    hide Run;
    var c := Core(TrailerMiddle, 0, 0);
    if t == [] {
      assert t + ([LF] + rest) == [LF] + rest;
      Skip(true, c, [LF], rest, END);
    } else {
      assert t + ([LF] + rest) == t[..1] + (t[1..] + ([LF] + rest));
      Skip(true, c, t[..1], t[1..] + ([LF] + rest), c);
      ReadMiddle(t[1..], rest);
    }
  }

  lemma {:induction false} ReadTrailer(t: seq<byte>, rest: seq<byte>)
    requires TrailerLine(t)
    ensures Run(true, END, t + ([LF] + rest)) == Run(true, END, rest)
    decreases |t|
  {
    hide Run;
    assert t + ([LF] + rest) == t[..1] + (t[1..] + ([LF] + rest));
    if t[0] == CR {
      Skip(true, END, t[..1], t[1..] + ([LF] + rest), END);
      var i :| 0 <= i < |t| && t[i] != CR;
      assert t[1..][i - 1] != CR;
      ReadTrailer(t[1..], rest);
    } else {
      Skip(true, END, t[..1], t[1..] + ([LF] + rest), Core(TrailerMiddle, 0, 0));
      ReadMiddle(t[1..], rest);
    }
  }

  lemma {:induction false} ReadTrailers(ts: seq<seq<byte>>, rest: seq<byte>)
    requires forall i :: 0 <= i < |ts| ==> TrailerLine(ts[i])
    ensures Run(true, END, TrailersText(ts) + rest) == Run(true, END, rest)
    decreases |ts|
  {
    hide Run, React, TrailerLine;
    if ts == [] {
      assert TrailersText(ts) + rest == rest;
    } else {
      assert TrailersText(ts) + rest == ts[0] + ([LF] + (TrailersText(ts[1..]) + rest));
      ReadTrailer(ts[0], TrailersText(ts[1..]) + rest);
      ReadTrailers(ts[1..], rest);
    }
  }

  lemma ReadEnd(m: Message, rest: seq<byte>)
    requires WellFormed(m)
    ensures Run(true, START, EndText(m) + rest) == Outcome([], Complete, END, rest)
  {
    hide Run;
    var close := Crs(m.crs) + ([LF] + rest);
    assert EndText(m) + rest == m.digits + (m.ext + ([LF] + (TrailersText(m.trailers) + close)));
    ReadSizeLine(true, m.digits, m.ext, 0, TrailersText(m.trailers) + close);
    ReadTrailers(m.trailers, close);
    ReadCrs(true, END, m.crs, [LF] + rest);
    RunUnfold(true, END, [LF] + rest);
    assert ([LF] + rest)[1..] == rest;
  }

  /** ROUND TRIP. A message, whatever follows it, decodes to its data and leaves
      exactly what follows. */
  lemma RoundTrip(m: Message, rest: seq<byte>)
    requires WellFormed(m)
    ensures Run(true, START, Text(m) + rest) == Outcome(Payload(m.chunks), Complete, END, rest)
  {
    hide Run, React, EndText, WellFormedChunk;
    assert Text(m) + rest == ChunksText(m.chunks) + (EndText(m) + rest);
    ReadChunks(true, m.chunks, EndText(m) + rest);
    ReadEnd(m, rest);
    assert Payload(m.chunks) + [] == Payload(m.chunks);
  }

  // ---- nothing else is accepted ----

  lemma FirstLf(s: seq<byte>) returns (i: nat)
    requires LF in s
    ensures i < |s| && s[i] == LF && LF !in s[..i]
    ensures s == s[..i] + ([LF] + s[i + 1..])
  {
    i := 0;
    while s[i] != LF
      invariant i < |s| && LF in s[i..] && LF !in s[..i]
      decreases |s| - i
    {
      i := i + 1;
    }
  }

  predicate WaitsForLf(c: Core) { c.phase == Ext || c.phase == TrailerHead || c.phase == TrailerMiddle }

  /** Without a line feed, an extension or a trailer never ends. */
  lemma {:induction false} NoLf(tr: bool, c: Core, s: seq<byte>)
    requires ValidCore(c) && WaitsForLf(c) && LF !in s
    ensures Run(tr, c, s).verdict == Incomplete
    decreases |s|
  {
    hide Run;
    RunUnfold(tr, c, s);
    if s != [] {
      NoLf(tr, React(tr, c, s[0]).next, s[1..]);
    }
  }

  lemma {:induction false} FindDigits(tr: bool, c: Core, s: seq<byte>) returns (k: nat)
    requires ValidCore(c) && c.phase == Size && Run(tr, c, s).verdict == Complete
    ensures k < |s| && AllHex(s[..k]) && 0 < c.hexCount + k <= MAX_HEX && EndsSize(s[k])
    decreases |s|
  {
    hide Run, React, ValidCore, HexValue, EndsSize;
    RunUnfold(tr, c, s);
    ReactSize(tr, c, s[0]);
    if HexValue(s[0]) >= 0 {
      var n := Core(Size, c.left * 16 + HexValue(s[0]), c.hexCount + 1);
      k := FindDigits(tr, n, s[1..]);
      k := k + 1;
      assert s[..k] == [s[0]] + s[1..][..k - 1];
    } else {
      k := 0;
    }
  }

  lemma FindSizeLine(tr: bool, s: seq<byte>) returns (digits: seq<byte>, ext: seq<byte>, rest: seq<byte>)
    requires Run(tr, START, s).verdict == Complete
    ensures AllHex(digits) && SizeLine(digits, ext, Number(0, digits))
    ensures s == digits + (ext + ([LF] + rest))
  {
    hide Run, React;
    var k := FindDigits(tr, START, s);
    digits := s[..k];
    var tail := s[k..];
    assert s == digits + tail;
    ReadDigits(tr, START, digits, tail);
    LeaveSize(tr, Core(Size, Number(0, digits), k), tail);
    if LF !in tail { NoLf(tr, Core(Ext, Number(0, digits), 0), tail); }
    var i := FirstLf(tail);
    ext, rest := tail[..i], tail[i + 1..];
  }

  lemma {:induction false} FindCrs(tr: bool, s: seq<byte>) returns (k: nat, rest: seq<byte>)
    requires Run(tr, Core(Crlf, 0, 0), s).verdict == Complete
    ensures s == Crs(k) + ([LF] + rest)
    decreases |s|
  {
    hide Run;
    RunUnfold(tr, Core(Crlf, 0, 0), s);
    if s[0] == CR {
      k, rest := FindCrs(tr, s[1..]);
      assert s == [CR] + s[1..];
      assert Crs(k + 1) + ([LF] + rest) == [CR] + (Crs(k) + ([LF] + rest));
      k := k + 1;
    } else {
      k, rest := 0, s[1..];
      assert s == [LF] + rest;
      assert Crs(0) + s == s;
    }
  }

  lemma {:induction false} FindTrailers(s: seq<byte>) returns (ts: seq<seq<byte>>, k: nat, rest: seq<byte>)
    requires Run(true, END, s).verdict == Complete
    ensures forall i :: 0 <= i < |ts| ==> TrailerLine(ts[i])
    ensures s == TrailersText(ts) + (Crs(k) + ([LF] + rest))
    decreases |s|
  {
    hide Run, React, TrailerLine, TrailersText, Crs;
    if LF !in s { NoLf(true, END, s); }
    var i := FirstLf(s);
    var line, tail := s[..i], s[i + 1..];
    if TrailerLine(line) {
      ReadTrailer(line, tail);
      ts, k, rest := FindTrailers(tail);
      TrailersCons(line, ts, Crs(k) + ([LF] + rest));
      ts := [line] + ts;
    } else {
      ts, k, rest := [], i, tail;
      OnlyCrs(line);
      NoTrailers(s);
    }
  }

  lemma TrailersCons(line: seq<byte>, ts: seq<seq<byte>>, rest: seq<byte>)
    ensures TrailersText([line] + ts) + rest == line + ([LF] + (TrailersText(ts) + rest))
  {
    assert ([line] + ts)[1..] == ts;
  }

  lemma NoTrailers(s: seq<byte>)
    ensures TrailersText([]) + s == s
  {
  }

  lemma OnlyCrs(line: seq<byte>)
    requires LF !in line && !TrailerLine(line)
    ensures line == Crs(|line|)
  {
  }

  lemma {:induction false} DataCutShort(tr: bool, c: Core, s: seq<byte>)
    requires ValidCore(c) && c.phase == Data && |s| < c.left
    ensures Run(tr, c, s).verdict == Incomplete
  {
    hide Run, React, ValidCore;
    RunData(tr, c, s, |s|);
    var d, none := AfterData(c, |s|), s[|s|..];
    assert |none| == 0;
    RunUnfold(tr, d, none);
  }

  /** The data of a chunk must all be there. */
  lemma {:induction false} FindData(tr: bool, c: Core, s: seq<byte>)
    requires ValidCore(c) && c.phase == Data && Run(tr, c, s).verdict == Complete
    ensures c.left <= |s| && Run(tr, Core(Crlf, 0, 0), s[c.left..]).verdict == Complete
  {
    hide Run, React, ValidCore;
    if |s| < c.left {
      DataCutShort(tr, c, s);
    } else {
      RunData(tr, c, s, c.left);
    }
  }

  lemma FindChunk(tr: bool, s: seq<byte>, digits: seq<byte>, ext: seq<byte>, body: seq<byte>)
      returns (c: Chunk, rest: seq<byte>)
    requires Run(tr, START, s).verdict == Complete
    requires AllHex(digits) && Number(0, digits) > 0 && SizeLine(digits, ext, Number(0, digits))
    requires s == digits + (ext + ([LF] + body))
    ensures WellFormedChunk(c) && s == ChunkText(c) + rest
  {
    hide Run, React;
    var size := Number(0, digits);
    ReadSizeLine(tr, digits, ext, size, body);
    FindData(tr, Core(Data, size, 0), body);
    var k;
    k, rest := FindCrs(tr, body[size..]);
    c := Chunk(digits, ext, body[..size], k);
    assert body == body[..size] + (Crs(k) + ([LF] + rest));
    assert ChunkText(c) + rest == s;
  }

  lemma {:induction false} FindMessage(s: seq<byte>) returns (m: Message, rest: seq<byte>)
    requires Run(true, START, s).verdict == Complete
    ensures WellFormed(m) && s == Text(m) + rest
    decreases |s|
  {
    hide Run, React, SizeLine, TrailerLine;
    var digits, ext, tail := FindSizeLine(true, s);
    if Number(0, digits) > 0 {
      var c, after := FindChunk(true, s, digits, ext, tail);
      ReadChunk(true, c, after);
      m, rest := FindMessage(after);
      var n := m.(chunks := [c] + m.chunks);
      assert n.chunks[1..] == m.chunks;
      assert Text(n) + rest == ChunkText(c) + (Text(m) + rest);
      m := n;
    } else {
      ReadSizeLine(true, digits, ext, 0, tail);
      var ts, k;
      ts, k, rest := FindTrailers(tail);
      m := Message([], digits, ext, ts, k);
      assert Text(m) + rest == s;
    }
  }

  /** EXACT LANGUAGE. The decoder completes on exactly the inputs that begin
      with a well-formed message; it then yields that message's data and leaves
      exactly what follows it. */
  lemma CompletesExactly(s: seq<byte>)
    ensures Run(true, START, s).verdict == Complete <==>
            exists m, rest :: WellFormed(m) && s == Text(m) + rest
    ensures forall m, rest :: WellFormed(m) && s == Text(m) + rest ==>
              Run(true, START, s) == Outcome(Payload(m.chunks), Complete, END, rest)
  {
    hide Run, React, WellFormed, Text;
    if Run(true, START, s).verdict == Complete {
      var m, rest := FindMessage(s);
    }
    forall m, rest | WellFormed(m) && s == Text(m) + rest
      ensures Run(true, START, s) == Outcome(Payload(m.chunks), Complete, END, rest)
    {
      RoundTrip(m, rest);
    }
  }

  // ---- where trailers are left unread ----

  /** The same message without what follows the line of its last chunk. */
  datatype Front = Front(chunks: seq<Chunk>, digits: seq<byte>, ext: seq<byte>)

  predicate WellFormedFront(f: Front) {
    && (forall i :: 0 <= i < |f.chunks| ==> WellFormedChunk(f.chunks[i]))
    && SizeLine(f.digits, f.ext, 0)
  }

  function FrontText(f: Front): seq<byte> { ChunksText(f.chunks) + (f.digits + (f.ext + [LF])) }

  lemma FrontRoundTrip(f: Front, rest: seq<byte>)
    requires WellFormedFront(f)
    ensures Run(false, START, FrontText(f) + rest) == Outcome(Payload(f.chunks), Complete, LAST, rest)
  {
    hide Run, React, WellFormedChunk, SizeLine;
    var tail := f.digits + (f.ext + ([LF] + rest));
    assert FrontText(f) + rest == ChunksText(f.chunks) + tail;
    ReadChunks(false, f.chunks, tail);
    ReadLastLine(f.digits, f.ext, rest);
    assert Payload(f.chunks) + [] == Payload(f.chunks);
  }

  lemma {:induction false} FindFront(s: seq<byte>) returns (f: Front, rest: seq<byte>)
    requires Run(false, START, s).verdict == Complete
    ensures WellFormedFront(f) && s == FrontText(f) + rest
    decreases |s|
  {
    hide Run, React, SizeLine;
    var digits, ext, tail := FindSizeLine(false, s);
    if Number(0, digits) > 0 {
      var c, after := FindChunk(false, s, digits, ext, tail);
      ReadChunk(false, c, after);
      f, rest := FindFront(after);
      var g := f.(chunks := [c] + f.chunks);
      assert g.chunks[1..] == f.chunks;
      assert FrontText(g) + rest == ChunkText(c) + (FrontText(f) + rest);
      f := g;
    } else {
      f, rest := Front([], digits, ext), tail;
      assert FrontText(f) + rest == s;
    }
  }

  /** EXACT LANGUAGE, TRAILERS LEFT. Where trailers are not consumed, as in a
      zero-filled decoder, it completes on exactly the inputs that begin with
      well-formed chunks and the line of a last one; it yields the chunks' data and
      leaves exactly what follows that line, trailers included. */
  lemma CompletesBeforeTrailers(s: seq<byte>)
    ensures Run(false, START, s).verdict == Complete <==>
            exists f, rest :: WellFormedFront(f) && s == FrontText(f) + rest
    ensures forall f, rest :: WellFormedFront(f) && s == FrontText(f) + rest ==>
              Run(false, START, s) == Outcome(Payload(f.chunks), Complete, LAST, rest)
  {
    hide Run, React, WellFormedFront, FrontText;
    if Run(false, START, s).verdict == Complete {
      var f, rest := FindFront(s);
    }
    forall f, rest | WellFormedFront(f) && s == FrontText(f) + rest
      ensures Run(false, START, s) == Outcome(Payload(f.chunks), Complete, LAST, rest)
    {
      FrontRoundTrip(f, rest);
    }
  }

  /** What a decoder that leaves trailers unread leaves of a message. */
  function Tail(m: Message): seq<byte> { TrailersText(m.trailers) + (Crs(m.crs) + [LF]) }

  /** THE TWO MODES. Where consuming the trailers completes, leaving them completes
      with the same body, and what it leaves is the trailers and the empty line in
      front of what the other leaves. */
  lemma ModesAgree(s: seq<byte>) returns (m: Message)
    requires Run(true, START, s).verdict == Complete
    ensures var a, b := Run(true, START, s), Run(false, START, s);
            && WellFormed(m) && s == Text(m) + a.rest
            && b.verdict == Complete && b.body == a.body == Payload(m.chunks) && b.rest == Tail(m) + a.rest
  {
    hide Run, React, SizeLine, TrailerLine, WellFormedChunk;
    var rest;
    m, rest := FindMessage(s);
    RoundTrip(m, rest);
    var f := Front(m.chunks, m.digits, m.ext);
    assert s == FrontText(f) + (Tail(m) + rest);
    FrontRoundTrip(f, Tail(m) + rest);
  }

  // ---- what an undecided or a refused input can still become ----

  lemma CloseStart(tr: bool) returns (t: seq<byte>)
    ensures Run(tr, START, t).verdict == Complete
  {
    hide Run;
    if tr {
      var m := Message([], [48], [], [], 0);
      t := Text(m);
      assert t + [] == t;
      RoundTrip(m, []);
    } else {
      var f := Front([], [48], []);
      t := FrontText(f);
      assert t + [] == t;
      FrontRoundTrip(f, []);
    }
  }

  lemma CloseData(tr: bool, c: Core) returns (t: seq<byte>)
    requires ValidCore(c) && c.phase == Data
    ensures Run(tr, c, t).verdict == Complete
  {
    hide Run;
    var end := CloseStart(tr);
    var data: seq<byte> := seq(c.left, i => 0);
    LeaveCrlf(tr, end);
    t := data + ([LF] + end);
    RunData(tr, c, t, c.left);
    assert t[c.left..] == [LF] + end;
  }

  lemma CloseExt(tr: bool, c: Core) returns (t: seq<byte>)
    requires ValidCore(c) && c.phase == Ext
    ensures t != [] && t[0] == LF && Run(tr, c, t).verdict == Complete
  {
    hide Run, React;
    ExtReacts(tr, c, LF);
    if c.left > 0 {
      var d := c.(phase := Data);
      var end := CloseData(tr, d);
      Skip(tr, c, [LF], end, d);
      t := [LF] + end;
    } else if tr {
      t := [LF] + [LF];
      Skip(tr, c, [LF], [LF], END);
      CloseTrailers(tr);
    } else {
      t := [LF];
      RunUnfold(tr, c, t);
    }
  }

  lemma CloseTrailers(tr: bool)
    ensures Run(tr, END, [LF]).verdict == Complete
    ensures Run(tr, Core(TrailerMiddle, 0, 0), [LF] + [LF]).verdict == Complete
  {
    hide Run;
    RunUnfold(tr, END, [LF]);
    Skip(tr, Core(TrailerMiddle, 0, 0), [LF], [LF], END);
  }

  /** Octets that bring the decoder from any position to the end of a message. */
  lemma Close(tr: bool, c: Core) returns (t: seq<byte>)
    requires ValidCore(c)
    ensures Run(tr, c, t).verdict == Complete
  {
    hide Run, React;
    match c.phase
    case Size =>
      if c.hexCount == 0 {
        assert c == START;
        t := CloseStart(tr);
      } else {
        ReactSize(tr, c, LF);
        t := CloseExt(tr, Core(Ext, c.left, 0));
        LeaveSize(tr, c, t);
      }
    case Ext =>
      t := CloseExt(tr, c);
    case Data =>
      t := CloseData(tr, c);
    case Crlf =>
      var end := CloseStart(tr);
      LeaveCrlf(tr, end);
      t := [LF] + end;
    case TrailerHead =>
      t := [LF];
      CloseTrailers(tr);
    case TrailerMiddle =>
      t := [LF] + [LF];
      CloseTrailers(tr);
  }

  /** REFUSED EXACTLY WHEN HOPELESS. In either mode an input is refused if and only
      if nothing that could follow would complete it. */
  lemma RefusedExactly(tr: bool, s: seq<byte>)
    ensures Run(tr, START, s).verdict == Malformed <==> forall t :: Run(tr, START, s + t).verdict != Complete
  {
    hide Run;
    var o := Run(tr, START, s);
    if o.verdict == Malformed {
      forall t ensures Run(tr, START, s + t).verdict != Complete {
        RunSplit(tr, START, s, t);
      }
    } else if o.verdict == Complete {
      assert s + [] == s;
    } else {
      var t := Close(tr, o.core);
      RunSplit(tr, START, s, t);
    }
  }

  // ---- the octets themselves ----

  const LOWER := "0123456789abcdef"
  const UPPER := "0123456789ABCDEF"

  /** The digits of a size, as written. */
  lemma HexDigits(b: byte, v: nat)
    requires v < 16
    ensures HexValue(b) == v <==> b as char == LOWER[v] || b as char == UPPER[v]
  {
    assert v < 10 ==> LOWER[v] == '0' + v as char && UPPER[v] == '0' + v as char;
    assert v >= 10 ==> LOWER[v] == 'a' + (v - 10) as char && UPPER[v] == 'A' + (v - 10) as char;
  }

  /** A blank, a semicolon or a line end may follow a size. */
  lemma SizeDelimiters(b: byte)
    ensures EndsSize(b) <==> b as char in " \t;\r\n"
  {
  }

  /** The guard: a hundred kilobytes of framing, and a body of less than a quarter
      of everything read, rounded down. */
  lemma GuardIs(read: nat, over: nat)
    requires over <= read < TWO_64
    ensures GuardFires(read, over) <==> over >= 102_400 && 4 * (read - over + 1) <= read
  {
  }
}
