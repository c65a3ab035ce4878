/** The chunked transfer coding (section 4.1 of RFC 7230), read one octet at a
    time. This is the reference the in-place decoder is proved against. */
module ChunkedSpec {
  import opened Bytes

  /** The decoder's `_state`, in the order of its enumeration. */
  datatype Phase = Size | Ext | Data | Crlf | TrailerHead | TrailerMiddle

  /** The part of the decoder that decides what the next octet means. */
  datatype Core = Core(phase: Phase, left: nat, hexCount: nat)

  /** `sizeof(size_t) * 2`: the most hex digits one chunk size may have. */
  const MAX_HEX: nat := 16

  const START := Core(Size, 0, 0)

  function Pow16(n: nat): (p: nat)
    ensures p >= 1
  {
    if n == 0 then 1 else 16 * Pow16(n - 1)
  }

  /** What every call leaves behind, starting from a zero-filled decoder. */
  predicate ValidCore(c: Core) {
    && c.left < TWO_64
    && match c.phase
       case Size => c.hexCount <= MAX_HEX && c.left < Pow16(c.hexCount)
       case Ext => c.hexCount == 0
       case Data => c.hexCount == 0 && c.left > 0
       case _ => c.hexCount == 0 && c.left == 0
  }

  /** -1 when the octet is not a hex digit. */
  function HexValue(b: int): (v: int)
    ensures -1 <= v < 16
  {
    if 48 <= b <= 57 then b - 48
    else if 65 <= b <= 70 then b - 65 + 10
    else if 97 <= b <= 102 then b - 97 + 10
    else -1
  }

  /** The octets that may follow a chunk size: BWS, a semicolon, CR or LF. */
  predicate EndsSize(b: byte) {
    b == SP || b == HT || b == SEMICOLON || b == LF || b == CR
  }

  /** What one octet does: it is consumed (and perhaps body), it ends the
      message, or it is refused and stays unread. */
  datatype Reaction = Consume(next: Core, emit: bool) | Finish(last: Core) | Reject

  function ReactExt(trailer: bool, c: Core, b: byte): Reaction {
    if b != LF then Consume(c, false)
    else if c.left > 0 then Consume(c.(phase := Data), false)
    else if trailer then Consume(c.(phase := TrailerHead), false)
    else Finish(c)
  }

  function React(trailer: bool, c: Core, b: byte): Reaction
    requires ValidCore(c)
  {
    match c.phase
    case Size =>
      var v := HexValue(b);
      if v >= 0 then
        if c.hexCount == MAX_HEX then Reject
        else Consume(c.(left := c.left * 16 + v, hexCount := c.hexCount + 1), false)
      else if c.hexCount == 0 || !EndsSize(b) then Reject
      else ReactExt(trailer, c.(phase := Ext, hexCount := 0), b)
    case Ext => ReactExt(trailer, c, b)
    case Data =>
      Consume(c.(left := c.left - 1, phase := if c.left == 1 then Crlf else Data), true)
    case Crlf =>
      if b == CR then Consume(c, false)
      else if b == LF then Consume(c.(phase := Size), false)
      else Reject
    case TrailerHead =>
      if b == CR then Consume(c, false)
      else if b == LF then Finish(c)
      else Consume(c.(phase := TrailerMiddle), false)
    case TrailerMiddle =>
      if b == LF then Consume(c.(phase := TrailerHead), false) else Consume(c, false)
  }

  /** Sixteen hex digits fill a 64-bit size and never pass it. */
  lemma Pow16Mono(m: nat, n: nat)
    requires m <= n
    ensures Pow16(m) <= Pow16(n)
    decreases n
  {
    if m < n { Pow16Mono(m, n - 1); }
  }

  lemma Pow16Max()
    ensures Pow16(MAX_HEX) == TWO_64
  {
    assert Pow16(4) == 0x1_0000;
    assert Pow16(8) == 0x1_0000_0000;
    assert Pow16(12) == 0x1_0000_0000_0000;
  }

  lemma OneMoreDigit(left: nat, count: nat, v: nat)
    requires count < MAX_HEX && left < Pow16(count) && v < 16
    ensures left * 16 + v < Pow16(count + 1) <= TWO_64
  {
    Pow16Mono(count + 1, MAX_HEX);
    Pow16Max();
  }

  predicate KeepsValid(r: Reaction) {
    (r.Consume? ==> ValidCore(r.next)) && (r.Finish? ==> ValidCore(r.last))
  }

  lemma SizeKeepsValid(trailer: bool, c: Core, b: byte)
    requires ValidCore(c) && c.phase == Size
    ensures KeepsValid(React(trailer, c, b))
  {
    hide Pow16;
    if HexValue(b) >= 0 && c.hexCount < MAX_HEX {
      OneMoreDigit(c.left, c.hexCount, HexValue(b));
    }
  }

  lemma OtherKeepsValid(trailer: bool, c: Core, b: byte)
    requires ValidCore(c) && c.phase != Size
    ensures KeepsValid(React(trailer, c, b))
  {
  }

  /** No octet leads out of the valid positions; in particular the size never
      passes 64 bits. */
  lemma ReactKeepsValid(trailer: bool, c: Core, b: byte)
    requires ValidCore(c)
    ensures KeepsValid(React(trailer, c, b))
  {
    if c.phase == Size {
      SizeKeepsValid(trailer, c, b);
    } else {
      OtherKeepsValid(trailer, c, b);
    }
  }

  datatype Verdict = Incomplete | Malformed | Complete

  datatype Outcome = Outcome(body: seq<byte>, verdict: Verdict, core: Core, rest: seq<byte>)

  /** Reading `s` octet by octet until it ends, is refused or completes. */
  function Run(trailer: bool, c: Core, s: seq<byte>): (o: Outcome)
    requires ValidCore(c)
    ensures ValidCore(o.core)
    ensures o.verdict == Incomplete ==> o.rest == []
    ensures |o.body| + |o.rest| <= |s|
    decreases |s|
  {
    if s == [] then Outcome([], Incomplete, c, [])
    else
      ReactKeepsValid(trailer, c, s[0]);
      match React(trailer, c, s[0])
      case Reject => Outcome([], Malformed, c, s)
      case Finish(n) => Outcome([], Complete, n, s[1..])
      case Consume(n, emit) =>
        var o := Run(trailer, n, s[1..]);
        if emit then o.(body := [s[0]] + o.body) else o
  }

  function Prepend(pre: seq<byte>, o: Outcome): Outcome { o.(body := pre + o.body) }

  /** `Run` without its recursion, one octet at a time. */
  lemma RunUnfold(trailer: bool, c: Core, s: seq<byte>)
    requires ValidCore(c)
    ensures s == [] ==> Run(trailer, c, s) == Outcome([], Incomplete, c, [])
    ensures s != [] ==>
              var r := React(trailer, c, s[0]);
              && (r.Reject? ==> Run(trailer, c, s) == Outcome([], Malformed, c, s))
              && (r.Finish? ==> Run(trailer, c, s) == Outcome([], Complete, r.last, s[1..]))
              && (r.Consume? && !r.emit ==> ValidCore(r.next) && Run(trailer, c, s) == Run(trailer, r.next, s[1..]))
  {
    hide React, ValidCore;
    if s != [] { ReactKeepsValid(trailer, c, s[0]); }
  }

  /** An octet read as part of a chunk size. */
  lemma ReactSize(trailer: bool, c: Core, b: byte)
    requires ValidCore(c) && c.phase == Size
    ensures var v := HexValue(b);
            React(trailer, c, b) ==
            if v >= 0 && c.hexCount < MAX_HEX then Consume(Core(Size, c.left * 16 + v, c.hexCount + 1), false)
            else if v < 0 && c.hexCount > 0 && EndsSize(b) then React(trailer, Core(Ext, c.left, 0), b)
            else Reject
    ensures c.hexCount <= MAX_HEX
    ensures React(trailer, c, b).Consume? ==> !React(trailer, c, b).emit
    ensures ValidCore(Core(Ext, c.left, 0)) && !React(trailer, Core(Ext, c.left, 0), b).Reject?
  {
    hide Pow16, HexValue;
  }

  lemma PrependJoin(a: seq<byte>, b: seq<byte>, o: Outcome)
    ensures Prepend(a, Prepend(b, o)) == Prepend(a + b, o)
  {
    assert a + (b + o.body) == (a + b) + o.body;
  }

  /** One read of `a + b` is a read of `a` and, if that did not decide, a read
      of `b` from where it stopped. */
  lemma {:induction false} RunSplit(trailer: bool, c: Core, a: seq<byte>, b: seq<byte>)
    requires ValidCore(c)
    ensures var o := Run(trailer, c, a);
            Run(trailer, c, a + b) ==
            if o.verdict == Incomplete then Prepend(o.body, Run(trailer, o.core, b))
            else o.(rest := o.rest + b)
    decreases |a|
  {
    hide React, ValidCore;
    if a == [] {
      assert a + b == b;
      assert [] + Run(trailer, c, b).body == Run(trailer, c, b).body;
    } else {
      assert (a + b)[0] == a[0];
      assert (a + b)[1..] == a[1..] + b;
      ReactKeepsValid(trailer, c, a[0]);
      match React(trailer, c, a[0])
      case Reject =>
      case Finish(n) =>
      case Consume(n, emit) =>
        RunSplit(trailer, n, a[1..], b);
        var o := Run(trailer, n, a[1..]);
        if emit && o.verdict == Incomplete {
          var p := Run(trailer, o.core, b);
          assert [a[0]] + (o.body + p.body) == ([a[0]] + o.body) + p.body;
        }
    }
  }

  function AfterData(c: Core, n: nat): Core
    requires n <= c.left
  {
    if n == c.left then Core(Crlf, 0, 0) else c.(left := c.left - n)
  }

  lemma RunDatum(trailer: bool, c: Core, s: seq<byte>)
    requires ValidCore(c) && c.phase == Data && s != []
    ensures ValidCore(AfterData(c, 1))
    ensures Run(trailer, c, s) == Prepend([s[0]], Run(trailer, AfterData(c, 1), s[1..]))
  {
    assert React(trailer, c, s[0]) == Consume(AfterData(c, 1), true);
  }

  /** A block of chunk data, taken at once, is the same octets taken singly. */
  lemma {:induction false} RunData(trailer: bool, c: Core, s: seq<byte>, n: nat)
    requires ValidCore(c) && c.phase == Data
    requires n <= |s| && n <= c.left
    ensures ValidCore(AfterData(c, n))
    ensures Run(trailer, c, s) == Prepend(s[..n], Run(trailer, AfterData(c, n), s[n..]))
    decreases n
  {
    hide Run, React;
    if n == 0 {
      assert s[0..] == s;
      assert s[..0] + Run(trailer, c, s).body == Run(trailer, c, s).body;
    } else {
      RunDatum(trailer, c, s);
      assert s[..1] == [s[0]];
      if n > 1 {
        RunData(trailer, AfterData(c, 1), s[1..], n - 1);
        assert s[1..][n - 1..] == s[n..];
        var o := Run(trailer, AfterData(c, n), s[n..]);
        assert [s[0]] + (s[1..][..n - 1] + o.body) == s[..n] + o.body;
      }
    }
  }

  // ---- whole calls, with the overhead guard ----

  /** The whole decoder; the two totals are 64-bit counters. */
  datatype Decoder = Decoder(core: Core, totalRead: nat, totalOverhead: nat)

  predicate Valid(d: Decoder) {
    ValidCore(d.core) && d.totalRead < TWO_64 && d.totalOverhead < TWO_64
  }

  /** At least 100 KB of framing, and less than a quarter of everything read is body. */
  predicate GuardFires(totalRead: nat, totalOverhead: nat) {
    && totalOverhead >= 100 * 1024
    && Wrap64(totalRead - totalOverhead) < totalRead / 4
  }

  /** The value a call returns for each verdict. */
  function Code(o: Outcome): int {
    match o.verdict
    case Incomplete => -2
    case Malformed => -1
    case Complete => |o.rest|
  }

  datatype CallResult = CallResult(ret: int, body: seq<byte>, rest: seq<byte>, after: Decoder)

  /** One call on a buffer holding `s`. */
  function Call(trailer: bool, d: Decoder, s: seq<byte>): (r: CallResult)
    requires Valid(d)
    ensures Valid(r.after)
  {
    var o := Run(trailer, d.core, s);
    var read := Wrap64(d.totalRead + |s|);
    if o.verdict != Incomplete then
      CallResult(Code(o), o.body, o.rest, Decoder(o.core, read, d.totalOverhead))
    else
      var over := Wrap64(d.totalOverhead + (|s| - |o.body|));
      CallResult(if GuardFires(read, over) then -1 else -2, o.body, o.rest, Decoder(o.core, read, over))
  }

  function Concat(pieces: seq<seq<byte>>): seq<byte> {
    if pieces == [] then [] else pieces[0] + Concat(pieces[1..])
  }

  /** Feeding successive buffers while the answer is -2, as the header asks
      callers to; the octets of buffers never fed stay unread. */
  function Feed(trailer: bool, d: Decoder, pieces: seq<seq<byte>>): CallResult
    requires Valid(d)
    decreases |pieces|
  {
    if pieces == [] then CallResult(-2, [], [], d)
    else
      var r := Call(trailer, d, pieces[0]);
      if r.ret == -2 then
        var f := Feed(trailer, r.after, pieces[1..]);
        f.(body := r.body + f.body)
      else r.(rest := r.rest + Concat(pieces[1..]))
  }

  /** The guard does not fire after any buffer but, perhaps, the last. */
  predicate Quiet(trailer: bool, d: Decoder, pieces: seq<seq<byte>>)
    requires Valid(d)
    decreases |pieces|
  {
    |pieces| > 1 ==>
      var o := Run(trailer, d.core, pieces[0]);
      var r := Call(trailer, d, pieces[0]);
      o.verdict == Incomplete ==> r.ret == -2 && Quiet(trailer, r.after, pieces[1..])
  }

  /** Two calls in a row do what one call on both buffers does, the guard's
      answer included, when the first neither decides nor trips the guard. The
      overhead total is only kept up while the message is undecided. */
  lemma CallSplit(trailer: bool, d: Decoder, a: seq<byte>, b: seq<byte>)
    requires Valid(d)
    requires Call(trailer, d, a).ret == -2
    ensures var r := Call(trailer, d, a); var f := Call(trailer, r.after, b);
            var w := Call(trailer, d, a + b);
            && w.body == r.body + f.body && w.ret == f.ret && w.rest == f.rest
            && w.after.core == f.after.core && w.after.totalRead == f.after.totalRead
            && (w.ret == -2 ==> w.after == f.after)
  {
    hide Run, Wrap64;
    RunSplit(trailer, d.core, a, b);
    var r := Call(trailer, d, a);
    var o := Run(trailer, r.after.core, b);
    assert Run(trailer, d.core, a + b) == Prepend(r.body, o);
    Wrap64Add(d.totalRead + |a|, |b|);
    Wrap64Add(d.totalOverhead + (|a| - |r.body|), |b| - |o.body|);
    assert |a + b| - |r.body + o.body| == (|a| - |r.body|) + (|b| - |o.body|);
  }

  /** Equal, or both the number of octets their own buffer had left over. */
  predicate SameVerdict(x: int, y: int) { x == y || (x >= 0 && y >= 0) }

  /** SPLIT INVARIANCE. However an input is cut into buffers, feeding them gives
      the body, the verdict, the decoder position and the unread remainder of
      one call on the whole input. While the input is undecided the totals agree
      too, so even the guard's last word does not depend on the cut. */
  lemma {:induction false} FeedIsOneCall(trailer: bool, d: Decoder, pieces: seq<seq<byte>>)
    requires Valid(d) && pieces != []
    requires Quiet(trailer, d, pieces)
    ensures var f := Feed(trailer, d, pieces); var w := Call(trailer, d, Concat(pieces));
            && f.body == w.body && f.rest == w.rest && SameVerdict(f.ret, w.ret)
            && f.after.core == w.after.core
            && (f.ret == -2 ==> f.after == w.after)
    decreases |pieces|
  {
    var a, tail := pieces[0], pieces[1..];
    var r := Call(trailer, d, a);
    if |pieces| == 1 {
      assert Concat(pieces) == a + [] == a;
      assert r.rest + Concat(tail) == r.rest;
      assert r.body + Feed(trailer, r.after, tail).body == r.body;
    } else if r.ret == -2 {
      FeedIsOneCall(trailer, r.after, tail);
      CallSplit(trailer, d, a, Concat(tail));
    } else {
      RunSplit(trailer, d.core, a, Concat(tail));
    }
  }

  /** WHAT THE GUARD SEES. As long as the answer is -2, the totals are the octets of
      all buffers so far and those of them that were not body, in 64 bits. */
  lemma {:induction false} FeedTotals(trailer: bool, d: Decoder, pieces: seq<seq<byte>>)
    requires Valid(d) && Feed(trailer, d, pieces).ret == -2
    ensures var f := Feed(trailer, d, pieces); var n := |Concat(pieces)|;
            && f.after.totalRead == Wrap64(d.totalRead + n)
            && f.after.totalOverhead == Wrap64(d.totalOverhead + (n - |f.body|))
    decreases |pieces|
  {
    hide Call, Wrap64;
    if pieces == [] {
      WrapKeeps(d.totalRead);
      WrapKeeps(d.totalOverhead);
    } else {
      var r := Call(trailer, d, pieces[0]);
      if r.ret == -2 {
        CallTotals(trailer, d, pieces[0]);
        FeedTotals(trailer, r.after, pieces[1..]);
        var n := |Concat(pieces[1..])|;
        var f := Feed(trailer, r.after, pieces[1..]);
        Wrap64Add(d.totalRead + |pieces[0]|, n);
        Wrap64Add(d.totalOverhead + (|pieces[0]| - |r.body|), n - |f.body|);
      }
    }
  }

  lemma CallTotals(trailer: bool, d: Decoder, s: seq<byte>)
    requires Valid(d) && Call(trailer, d, s).ret == -2
    ensures var r := Call(trailer, d, s);
            && r.after.totalRead == Wrap64(d.totalRead + |s|)
            && r.after.totalOverhead == Wrap64(d.totalOverhead + (|s| - |r.body|))
  {
    hide Run, Wrap64, GuardFires;
  }

  lemma WrapKeeps(x: nat)
    requires x < TWO_64
    ensures Wrap64(x) == x
  {
  }
}
