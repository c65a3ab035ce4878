/** Octets, the handful of ASCII codes the parsers test for, and text in a buffer. */
module Bytes {
  type byte = x: int | 0 <= x < 256

  const HT := 9
  const LF := 10
  const CR := 13
  const SP := 32
  const COLON := 58
  const SEMICOLON := 59
  const DEL := 127

  const TWO_64: nat := 0x1_0000_0000_0000_0000

  /** A 64-bit unsigned counter after wrap-around. */
  function Wrap64(x: int): (r: nat)
    ensures r < TWO_64
    ensures 0 <= x < TWO_64 ==> r == x
  {
    x % 0x1_0000_0000_0000_0000
  }

  lemma Wrap64Add(x: int, y: int)
    ensures Wrap64(Wrap64(x) + y) == Wrap64(x + y)
  {
  }

  // ---- text in a buffer ----

  predicate HasAt(s: seq<byte>, i: nat, t: seq<byte>) { i + |t| <= |s| && s[i..i + |t|] == t }

  lemma HasBoth(s: seq<byte>, i: nat, a: seq<byte>, b: seq<byte>)
    ensures HasAt(s, i, a + b) <==> HasAt(s, i, a) && HasAt(s, i + |a|, b)
  {
    if HasAt(s, i, a + b) {
      assert s[i..i + |a|] == (a + b)[..|a|];
      assert s[i + |a|..i + |a| + |b|] == (a + b)[|a|..];
    }
    if HasAt(s, i, a) && HasAt(s, i + |a|, b) {
      assert s[i..i + |a + b|] == s[i..i + |a|] + s[i + |a|..i + |a| + |b|];
    }
  }

  lemma Octet(s: seq<byte>, i: nat, t: seq<byte>, j: nat)
    requires HasAt(s, i, t) && j < |t|
    ensures i + j < |s| && s[i + j] == t[j]
  {
    assert s[i..i + |t|][j] == t[j];
  }
}
