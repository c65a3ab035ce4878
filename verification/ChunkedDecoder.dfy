/** The in-place, resumable decoder `phr_decode_chunked`, proved to do what
    reading the same octets one at a time does. */
module ChunkedDecoder {
  import opened Bytes
  import opened ChunkedSpec

  /** `memmove` towards lower addresses. */
  method MoveDown(buf: array<byte>, dst: nat, src: nat, n: nat)
    requires dst <= src && src + n <= buf.Length
    modifies buf
    ensures buf[dst..dst + n] == old(buf[src..src + n])
    ensures buf[..dst] == old(buf[..dst])
    ensures buf[dst + n..] == old(buf[dst + n..])
  {
    var i := 0;
    while i < n
      invariant i <= n
      invariant forall k :: dst <= k < dst + i ==> buf[k] == old(buf[k + (src - dst)])
      invariant forall k :: 0 <= k < dst ==> buf[k] == old(buf[k])
      invariant forall k :: dst + i <= k < buf.Length ==> buf[k] == old(buf[k])
    {
      buf[dst + i] := buf[src + i];
      i := i + 1;
    }
  }

  /** How a stretch of the decoder ended: the switch goes round again, or one
      of its exits was taken (-2, -1, or the end of the message). */
  datatype Exit = Continue | Pending | Bad | Done

  /** `o` is what is still to come when a stretch stops at `c` before `rest`. */
  ghost predicate Reached(trailer: bool, o: Outcome, e: Exit, c: Core, rest: seq<byte>) {
    ValidCore(c) &&
    match e
    case Continue => o == Run(trailer, c, rest)
    case Pending => rest == [] && o == Outcome([], Incomplete, c, [])
    case Bad => o == Outcome([], Malformed, c, rest)
    case Done => o == Outcome([], Complete, c, rest)
  }

  class Chunked {
    const consumeTrailer: bool
    var left: nat
    var hexCount: nat
    var phase: Phase
    var totalRead: nat
    var totalOverhead: nat

    function At(): Core
      reads this
    {
      Core(phase, left, hexCount)
    }

    ghost function State(): Decoder
      reads this
    {
      Decoder(At(), totalRead, totalOverhead)
    }

    /** "should be zero-filled before start" */
    constructor (trailer: bool)
      ensures State() == Decoder(START, 0, 0) && Valid(State())
      ensures consumeTrailer == trailer
    {
      consumeTrailer := trailer;
      left, hexCount, phase, totalRead, totalOverhead := 0, 0, Size, 0, 0;
    }

    /** The hex digits of a chunk size. */
    method ScanSize(buf: array<byte>, from: nat, bufsz: nat) returns (src: nat, e: Exit)
      requires ValidCore(At()) && phase == Size
      requires from <= bufsz <= buf.Length
      modifies this`left, this`hexCount, this`phase
      ensures from <= src <= bufsz
      ensures Reached(consumeTrailer, old(Run(consumeTrailer, At(), buf[from..bufsz])), e, At(), buf[src..bufsz])
      ensures e == Continue ==> phase == Ext && src < bufsz
    {
      hide Run, React, ValidCore, HexValue, EndsSize;
      src := from;
      while true
        invariant from <= src <= bufsz
        invariant ValidCore(At()) && phase == Size
        invariant old(Run(consumeTrailer, At(), buf[from..bufsz])) == Run(consumeTrailer, At(), buf[src..bufsz])
        decreases bufsz - src
      {
        RunUnfold(consumeTrailer, At(), buf[src..bufsz]);
        if src == bufsz { return src, Pending; }
        assert buf[src..bufsz][1..] == buf[src + 1..bufsz];
        ReactSize(consumeTrailer, At(), buf[src]);
        var v := HexValue(buf[src]);
        if v == -1 {
          if hexCount == 0 { return src, Bad; }
          if !EndsSize(buf[src]) { return src, Bad; }
          break;
        }
        if hexCount == MAX_HEX { return src, Bad; }
        left := left * 16 + v;
        hexCount := hexCount + 1;
        src := src + 1;
      }
      hexCount := 0;
      phase := Ext;
      RunUnfold(consumeTrailer, At(), buf[src..bufsz]);
      return src, Continue;
    }

    /** The chunk extension, up to and including its line feed. */
    method ScanExt(buf: array<byte>, from: nat, bufsz: nat) returns (src: nat, e: Exit)
      requires ValidCore(At()) && phase == Ext
      requires from <= bufsz <= buf.Length
      modifies this`phase
      ensures from <= src <= bufsz
      ensures Reached(consumeTrailer, old(Run(consumeTrailer, At(), buf[from..bufsz])), e, At(), buf[src..bufsz])
      ensures e == Continue ==> src > from && (phase == Data || phase == TrailerHead)
    {
      hide Run;
      src := from;
      while true
        invariant from <= src <= bufsz
        invariant phase == Ext && At() == old(At())
        invariant old(Run(consumeTrailer, At(), buf[from..bufsz])) == Run(consumeTrailer, At(), buf[src..bufsz])
        decreases bufsz - src
      {
        RunUnfold(consumeTrailer, At(), buf[src..bufsz]);
        if src == bufsz { return src, Pending; }
        assert buf[src..bufsz][1..] == buf[src + 1..bufsz];
        if buf[src] == LF { break; }
        src := src + 1;
      }
      src := src + 1;
      if left == 0 {
        if consumeTrailer {
          phase := TrailerHead;
          return src, Continue;
        }
        return src, Done;
      }
      phase := Data;
      return src, Continue;
    }

    /** The CR LF that ends a chunk's data; any number of CRs is let through. */
    method ScanCrlf(buf: array<byte>, from: nat, bufsz: nat) returns (src: nat, e: Exit)
      requires ValidCore(At()) && phase == Crlf
      requires from <= bufsz <= buf.Length
      modifies this`phase
      ensures from <= src <= bufsz
      ensures Reached(consumeTrailer, old(Run(consumeTrailer, At(), buf[from..bufsz])), e, At(), buf[src..bufsz])
      ensures e == Continue ==> src > from
    {
      hide Run;
      src := from;
      while true
        invariant from <= src <= bufsz
        invariant phase == Crlf && At() == old(At())
        invariant old(Run(consumeTrailer, At(), buf[from..bufsz])) == Run(consumeTrailer, At(), buf[src..bufsz])
        decreases bufsz - src
      {
        RunUnfold(consumeTrailer, At(), buf[src..bufsz]);
        if src == bufsz { return src, Pending; }
        assert buf[src..bufsz][1..] == buf[src + 1..bufsz];
        if buf[src] != CR { break; }
        src := src + 1;
      }
      if buf[src] != LF { return src, Bad; }
      src := src + 1;
      phase := Size;
      return src, Continue;
    }

    /** The first octet of a trailer line that is not a CR. */
    method ScanTrailerHead(buf: array<byte>, from: nat, bufsz: nat) returns (src: nat, e: Exit)
      requires ValidCore(At()) && phase == TrailerHead
      requires from <= bufsz <= buf.Length
      modifies this`phase
      ensures from <= src <= bufsz
      ensures Reached(consumeTrailer, old(Run(consumeTrailer, At(), buf[from..bufsz])), e, At(), buf[src..bufsz])
      ensures e == Continue ==> src > from && phase == TrailerMiddle
    {
      hide Run;
      src := from;
      while true
        invariant from <= src <= bufsz
        invariant phase == TrailerHead && At() == old(At())
        invariant old(Run(consumeTrailer, At(), buf[from..bufsz])) == Run(consumeTrailer, At(), buf[src..bufsz])
        decreases bufsz - src
      {
        RunUnfold(consumeTrailer, At(), buf[src..bufsz]);
        if src == bufsz { return src, Pending; }
        assert buf[src..bufsz][1..] == buf[src + 1..bufsz];
        if buf[src] != CR { break; }
        src := src + 1;
      }
      src := src + 1;
      if buf[src - 1] == LF { return src, Done; }
      phase := TrailerMiddle;
      return src, Continue;
    }

    /** The rest of a trailer line. */
    method ScanTrailerMiddle(buf: array<byte>, from: nat, bufsz: nat) returns (src: nat, e: Exit)
      requires ValidCore(At()) && phase == TrailerMiddle
      requires from <= bufsz <= buf.Length
      modifies this`phase
      ensures from <= src <= bufsz
      ensures Reached(consumeTrailer, old(Run(consumeTrailer, At(), buf[from..bufsz])), e, At(), buf[src..bufsz])
      ensures e == Continue ==> src > from
    {
      hide Run;
      src := from;
      while true
        invariant from <= src <= bufsz
        invariant phase == TrailerMiddle && At() == old(At())
        invariant old(Run(consumeTrailer, At(), buf[from..bufsz])) == Run(consumeTrailer, At(), buf[src..bufsz])
        decreases bufsz - src
      {
        RunUnfold(consumeTrailer, At(), buf[src..bufsz]);
        if src == bufsz { return src, Pending; }
        assert buf[src..bufsz][1..] == buf[src + 1..bufsz];
        if buf[src] == LF { break; }
        src := src + 1;
      }
      src := src + 1;
      phase := TrailerHead;
      return src, Continue;
    }

    /** Chunk data, moved down over the framing already dropped. */
    method TakeData(buf: array<byte>, from: nat, to: nat, bufsz: nat)
      returns (src: nat, dst: nat, e: Exit, ghost o: Outcome)
      requires ValidCore(At()) && phase == Data
      requires to <= from <= bufsz <= buf.Length
      modifies this`left, this`phase, buf
      ensures from <= src <= bufsz && to <= dst <= src && dst - to == src - from
      ensures buf[..to] == old(buf[..to])
      ensures buf[to..dst] == old(buf[from..src])
      ensures buf[src..] == old(buf[src..])
      ensures Reached(consumeTrailer, o, e, At(), buf[src..bufsz])
      ensures old(Run(consumeTrailer, At(), buf[from..bufsz])) == Prepend(old(buf[from..src]), o)
      ensures e == Continue ==> src > from && phase == Crlf
    {
      hide Run, React;
      ghost var c, s := At(), buf[from..bufsz];
      var avail := bufsz - from;
      var n := if avail < left then avail else left;
      RunData(consumeTrailer, c, s, n);
      assert s[..n] == buf[from..from + n];
      assert s[n..] == buf[from + n..bufsz];
      if to != from { MoveDown(buf, to, from, n); }
      src, dst := from + n, to + n;
      assert buf[src..] == old(buf[src..]);
      assert buf[src..bufsz] == s[n..];
      if avail < left {
        left := left - avail;
        e := Pending;
        RunUnfold(consumeTrailer, At(), buf[src..bufsz]);
      } else {
        left := 0;
        phase := Crlf;
        e := Continue;
      }
      o := Run(consumeTrailer, AfterData(c, n), s[n..]);
    }

    /** Chunk data and the CR LF behind it. */
    method TakeChunk(buf: array<byte>, from: nat, to: nat, bufsz: nat, ghost whole: Outcome, ghost before: Outcome)
      returns (src: nat, dst: nat, e: Exit, ghost o: Outcome)
      requires to <= from <= bufsz <= buf.Length && phase == Data
      requires Reached(consumeTrailer, before, Continue, At(), buf[from..bufsz])
      requires whole == Prepend(buf[..to], before)
      modifies this`left, this`phase, buf
      ensures from <= src <= bufsz && to <= dst <= src
      ensures Reached(consumeTrailer, o, e, At(), buf[src..bufsz])
      ensures whole == Prepend(buf[..dst], o)
      ensures buf[src..] == old(buf[src..])
      ensures e == Continue ==> src > from
    {
      hide Run, React, ValidCore, Prepend;
      src, dst, e, o := TakeData(buf, from, to, bufsz);
      ghost var taken := old(buf[from..src]);
      PrependJoin(old(buf[..to]), taken, o);
      assert buf[..dst] == old(buf[..to]) + taken;
      if e == Continue {
        ghost var mid := src;
        assert forall i :: mid <= i < buf.Length ==> buf[i] == buf[mid..][i - mid] == old(buf[mid..])[i - mid];
        src, e := ScanCrlf(buf, src, bufsz);
      }
    }

    /** One turn of the outer loop: the switch and its fall-throughs. */
    method Round(buf: array<byte>, from: nat, to: nat, bufsz: nat, ghost whole: Outcome, ghost before: Outcome)
      returns (src: nat, dst: nat, e: Exit, ghost o: Outcome)
      requires to <= from <= bufsz <= buf.Length
      requires Reached(consumeTrailer, before, Continue, At(), buf[from..bufsz])
      requires whole == Prepend(buf[..to], before)
      modifies this`left, this`hexCount, this`phase, buf
      ensures from <= src <= bufsz && to <= dst <= src
      ensures Reached(consumeTrailer, o, e, At(), buf[src..bufsz])
      ensures whole == Prepend(buf[..dst], o)
      ensures buf[src..] == old(buf[src..])
      ensures e == Continue ==> src > from
    {
      hide Run, React, ValidCore;
      src, dst, e, o := from, to, Continue, before;
      if phase == TrailerHead || phase == TrailerMiddle {
        if phase == TrailerHead {
          src, e := ScanTrailerHead(buf, src, bufsz);
        }
        if e == Continue {
          src, e := ScanTrailerMiddle(buf, src, bufsz);
        }
      } else if phase == Crlf {
        src, e := ScanCrlf(buf, src, bufsz);
      } else {
        if phase == Size {
          src, e := ScanSize(buf, src, bufsz);
        }
        if e == Continue && phase == Ext {
          src, e := ScanExt(buf, src, bufsz);
        }
        if e == Continue && phase == Data {
          src, dst, e, o := TakeChunk(buf, src, dst, bufsz, whole, o);
        }
      }
    }

    /** One call. The decoder and the first `newsz` octets of the buffer are what
        one octet at a time gives; the unread octets follow them; nothing past
        `bufsz` is touched. */
    method Decode(buf: array<byte>, bufsz: nat) returns (ret: int, newsz: nat)
      requires Valid(State()) && bufsz <= buf.Length
      modifies this, buf
      ensures var r := Call(consumeTrailer, old(State()), old(buf[..bufsz]));
              && State() == r.after && ret == r.ret
              && newsz == |r.body| && newsz + |r.rest| <= bufsz
              && buf[..newsz] == r.body
              && buf[newsz..newsz + |r.rest|] == r.rest
      ensures buf[bufsz..] == old(buf[bufsz..])
      // What the answer says: how much is left of a complete message, -1 for a wrong
      // one, and -2 for one that goes on, unless the guard makes it -1.
      ensures var o := Run(consumeTrailer, old(At()), old(buf[..bufsz]));
              && (o.verdict == Complete <==> ret >= 0) && (o.verdict == Complete ==> ret == |o.rest|)
              && (o.verdict == Malformed ==> ret == -1) && (ret == -2 ==> o.verdict == Incomplete)
              && (ret == -1 ==> o.verdict == Malformed || GuardFires(totalRead, totalOverhead))
    {
      hide Run, React, Wrap64, ValidCore;
      var src, dst, e := 0, 0, Continue;
      ghost var whole := Run(consumeTrailer, At(), buf[..bufsz]);
      ghost var o := whole;
      totalRead := Wrap64(totalRead + bufsz);
      assert buf[..0] + o.body == o.body;
      assert buf[0..bufsz] == buf[..bufsz];
      while e == Continue
        invariant dst <= src <= bufsz
        invariant totalRead == Wrap64(old(totalRead) + bufsz) && totalOverhead == old(totalOverhead)
        invariant whole == Prepend(buf[..dst], o)
        invariant Reached(consumeTrailer, o, e, At(), buf[src..bufsz])
        invariant buf[bufsz..] == old(buf[bufsz..])
        decreases bufsz - src, e == Continue
      {
        src, dst, e, o := Round(buf, src, dst, bufsz, whole, o);
        assert buf[bufsz..] == buf[src..][bufsz - src..];
      }
      newsz := dst;
      ret := Finalize(buf, src, dst, bufsz, e, whole, o);
    }

    /** The shared exit: the unread octets are moved behind the body, and an
        undecided message is charged its overhead. */
    method Finalize(buf: array<byte>, src: nat, dst: nat, bufsz: nat, e: Exit, ghost whole: Outcome, ghost o: Outcome)
      returns (ret: int)
      requires dst <= src <= bufsz <= buf.Length && e != Continue
      requires whole == Prepend(buf[..dst], o)
      requires Reached(consumeTrailer, o, e, At(), buf[src..bufsz])
      modifies this`totalOverhead, buf
      ensures dst == |whole.body| && dst + |whole.rest| <= bufsz
      ensures buf[..dst] == whole.body
      ensures buf[dst..dst + |whole.rest|] == whole.rest
      ensures buf[bufsz..] == old(buf[bufsz..])
      ensures whole.core == At()
      ensures whole.verdict != Incomplete ==> totalOverhead == old(totalOverhead) && ret == Code(whole)
      ensures whole.verdict == Incomplete ==>
                && totalOverhead == Wrap64(old(totalOverhead) + (bufsz - dst))
                && ret == if GuardFires(totalRead, totalOverhead) then -1 else -2
    {
      hide Run, React, Wrap64, ValidCore;
      var n := bufsz - src;
      if dst != src { MoveDown(buf, dst, src, n); }
      assert buf[..dst] == old(buf[..dst]);
      assert buf[bufsz..] == old(buf[bufsz..]) by {
        assert buf[bufsz..] == buf[dst + n..][bufsz - dst - n..];
        assert old(buf[bufsz..]) == old(buf[dst + n..])[bufsz - dst - n..];
      }
      if e == Pending {
        ret := -2;
        totalOverhead := Wrap64(totalOverhead + (bufsz - dst));
        if GuardFires(totalRead, totalOverhead) { ret := -1; }
      } else if e == Bad {
        ret := -1;
      } else {
        ret := n;
      }
    }
  }
}
