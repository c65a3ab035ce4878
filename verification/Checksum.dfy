/** The Internet checksum on a little-endian host: 16-bit words of two octets, the
    first octet low, an odd last octet alone. */
module Checksum {
  import opened Bytes

  const ONES: nat := 0xFFFF

  function Word(lo: byte, hi: byte): nat { lo + 256 * hi }

  /** The sum of the words of `b` before any fold. */
  function Sum(b: seq<byte>): nat {
    if |b| == 0 then 0 else if |b| == 1 then b[0] else Word(b[0], b[1]) + Sum(b[2..])
  }

  /** The fold loop: carries out of 16 bits are added back until none is left. */
  function Fold(s: nat): nat {
    if s < 0x1_0000 then s else Fold(s % 0x1_0000 + s / 0x1_0000)
  }

  // ---- the definition of RFC 1071 ----

  /** One's-complement addition of two words: the carry comes round at once. */
  function OnesAdd(a: nat, b: nat): nat { if a + b > ONES then a + b - ONES else a + b }

  function OnesSum(b: seq<byte>): nat {
    if |b| == 0 then 0 else if |b| == 1 then b[0] else OnesAdd(Word(b[0], b[1]), OnesSum(b[2..]))
  }

  /** The check a receiver makes: the sum over everything is all ones. */
  predicate Checks(b: seq<byte>) { OnesSum(b) == ONES }

  lemma ModStep(x: int, k: int)
    ensures (x + ONES * k) % ONES == x % ONES
  {
  }

  lemma ModAdd(w: int, x: int, y: int)
    requires x % ONES == y % ONES
    ensures (w + x) % ONES == (w + y) % ONES
  {
    var k := y / ONES - x / ONES;
    assert y == x + ONES * k;
    ModStep(w + x, k);
  }

  /** A value in 16 bits as the two octets that hold it. */
  lemma Halves(c: nat)
    requires c <= ONES
    ensures c / 256 < 256 && Word(c % 256, c / 256) == c
  {
  }

  lemma {:induction false} FoldSpec(s: nat)
    ensures Fold(s) <= ONES && Fold(s) % ONES == s % ONES && (Fold(s) == 0 <==> s == 0)
  {
    if s >= 0x1_0000 {
      var hi, lo := s / 0x1_0000, s % 0x1_0000;
      FoldSpec(lo + hi);
      ModStep(lo + hi, hi);
    }
  }

  lemma {:induction false} OnesSpec(b: seq<byte>)
    ensures OnesSum(b) <= ONES && OnesSum(b) % ONES == Sum(b) % ONES && (OnesSum(b) == 0 <==> Sum(b) == 0)
  {
    if |b| > 1 {
      var w, o := Word(b[0], b[1]), OnesSum(b[2..]);
      OnesSpec(b[2..]);
      ModAdd(w, o, Sum(b[2..]));
      ModStep(w + o, -1);
    }
  }

  /** DEFERRED CARRIES. Adding up first and folding at the end is the sum with
      every carry brought round at once. */
  lemma FoldIsOnes(b: seq<byte>)
    ensures Fold(Sum(b)) == OnesSum(b)
  {
    hide Fold, Sum, OnesSum;
    FoldSpec(Sum(b));
    OnesSpec(b);
  }

  lemma ChecksIff(b: seq<byte>)
    ensures Checks(b) <==> Sum(b) > 0 && Sum(b) % ONES == 0
  {
    hide Sum, OnesSum;
    OnesSpec(b);
    AllOnes(OnesSum(b), Sum(b));
  }

  lemma AllOnes(x: nat, s: nat)
    requires x <= ONES && x % ONES == s % ONES && (x == 0 <==> s == 0)
    ensures x == ONES <==> s > 0 && s % ONES == 0
  {
  }

  /** The complement of the folded sum brings the total to all ones. */
  lemma ComplementCloses(s: nat, t: nat)
    requires t == s + (ONES - Fold(s))
    ensures t > 0 && t % ONES == 0
  {
    hide Fold;
    FoldSpec(s);
    ModAdd(ONES - Fold(s), s, Fold(s));
  }

  /** TWO FOLDS DO. `csum_fold_helper` folds twice: for every 32-bit sum that is
      the whole loop. */
  function FoldTwice(s: nat): nat {
    var once := s % 0x1_0000 + s / 0x1_0000;
    once % 0x1_0000 + once / 0x1_0000
  }

  lemma TwoFoldsDo(s: nat)
    requires s < 0x1_0000_0000
    ensures FoldTwice(s) == Fold(s)
  {
    var lo, hi := s % 0x1_0000, s / 0x1_0000;
    assert hi < 0x1_0000 && (hi == 0 ==> lo == s);
    OnceMore(lo + hi);
  }

  lemma OnceMore(once: nat)
    requires once < 0x2_0000 - 1
    ensures Fold(once) == once % 0x1_0000 + once / 0x1_0000
  {
    if once >= 0x1_0000 {
      assert once / 0x1_0000 == 1 && once % 0x1_0000 == once - 0x1_0000;
      assert Fold(once) == Fold(once - 0x1_0000 + 1);
    }
  }

  // ---- sums of parts ----

  lemma {:induction false} SumConcat(a: seq<byte>, b: seq<byte>)
    requires |a| % 2 == 0
    ensures Sum(a + b) == Sum(a) + Sum(b)
  {
    if |a| == 0 {
      assert a + b == b;
    } else {
      SumConcat(a[2..], b);
      assert (a + b)[2..] == a[2..] + b;
    }
  }

  /** `b` with the word at `k` replaced. */
  function WithWord(b: seq<byte>, k: nat, lo: byte, hi: byte): seq<byte>
    requires k + 1 < |b|
  {
    b[k := lo][k + 1 := hi]
  }

  lemma {:induction false} SumWithWord(b: seq<byte>, k: nat, lo: byte, hi: byte)
    requires k % 2 == 0 && k + 1 < |b|
    ensures Sum(WithWord(b, k, lo, hi)) == Sum(b) - Word(b[k], b[k + 1]) + Word(lo, hi)
  {
    var c := WithWord(b, k, lo, hi);
    if k == 0 {
      assert c[2..] == b[2..];
    } else {
      SumWithWord(b[2..], k - 2, lo, hi);
      assert c[2..] == WithWord(b[2..], k - 2, lo, hi);
    }
  }

  // ---- the computations ----

  /** The loop that adds the words, from `start` on. */
  method AddWords(b: seq<byte>, start: nat) returns (sum: nat)
    ensures sum == start + Sum(b)
  {
    sum := start;
    var i := 0;
    while |b| - i > 1
      invariant i <= |b| && sum + Sum(b[i..]) == start + Sum(b)
    {
      assert b[i..][2..] == b[i + 2..];
      sum := sum + Word(b[i], b[i + 1]);
      i := i + 2;
    }
    if |b| - i > 0 {
      sum := sum + b[i];
    }
  }

  /** The loop that folds. */
  method FoldDown(start: nat) returns (sum: nat)
    ensures sum == Fold(start) && sum <= ONES
  {
    sum := start;
    while sum >= 0x1_0000
      invariant Fold(sum) == Fold(start)
    {
      sum := sum % 0x1_0000 + sum / 0x1_0000;
    }
  }

  /** `calc_csum` */
  method Compute(b: seq<byte>) returns (csum: nat)
    ensures csum == ONES - OnesSum(b) && csum <= ONES
  {
    var sum := AddWords(b, 0);
    sum := FoldDown(sum);
    csum := ONES - sum;
    FoldIsOnes(b);
    OnesSpec(b);
  }

  /** Writing the complement into a zeroed word of `b` makes `front + b` check. */
  lemma Closes(front: seq<byte>, b: seq<byte>, k: nat, csum: nat)
    requires |front| % 2 == 0 && k % 2 == 0 && k + 1 < |b| && b[k] == 0 && b[k + 1] == 0
    requires csum == ONES - Fold(Sum(front) + Sum(b)) && csum <= ONES
    ensures Checks(front + WithWord(b, k, csum % 256, csum / 256))
  {
    var c := WithWord(b, k, csum % 256, csum / 256);
    SumWithWord(b, k, csum % 256, csum / 256);
    SumConcat(front, c);
    ComplementCloses(Sum(front) + Sum(b), Sum(front + c));
    ChecksIff(front + c);
  }

  /** The length of an IPv4 header, from its low nibble. */
  function HeaderLen(h: seq<byte>): nat
    requires |h| > 0
  {
    (h[0] % 16) * 4
  }

  /** `calc_ip_csum`: afterwards a header that reaches its check field checks, and
      only that field was written. */
  method SetIpChecksum(h: array<byte>)
    requires h.Length >= 20 && HeaderLen(h[..]) <= h.Length
    modifies h
    ensures HeaderLen(h[..]) == old(HeaderLen(h[..]))
    ensures HeaderLen(h[..]) >= 12 ==> Checks(h[..HeaderLen(h[..])])
    ensures Word(h[10], h[11]) == ONES - OnesSum(WithWord(old(h[..]), 10, 0, 0)[..HeaderLen(h[..])])
    ensures forall i :: 0 <= i < h.Length && i != 10 && i != 11 ==> h[i] == old(h[i])
  {
    var n := (h[0] % 16) * 4;
    h[10], h[11] := 0, 0;
    ghost var zeroed := h[..n];
    assert h[..] == WithWord(old(h[..]), 10, 0, 0) && zeroed == h[..][..n];
    var csum := Compute(h[..n]);
    FoldIsOnes(zeroed);
    Halves(csum);
    h[10], h[11] := csum % 256, csum / 256;
    if n >= 12 {
      assert h[..n] == WithWord(zeroed, 10, csum % 256, csum / 256);
      Closes([], zeroed, 10, csum);
      assert [] + h[..n] == h[..n];
    }
  }

  /** The pseudo-header of TCP over IPv4 or IPv6: the addresses, the protocol 6
      and the length. */
  function Pseudo(src: seq<byte>, dst: seq<byte>, len: nat): seq<byte>
    requires len <= ONES
  {
    src + dst + [0, 6, len / 256, len % 256]
  }

  lemma PseudoSum(src: seq<byte>, dst: seq<byte>, len: nat)
    requires len <= ONES && |src| % 2 == 0 && |dst| % 2 == 0
    ensures Sum(Pseudo(src, dst, len)) == Sum(src) + Sum(dst) + Word(0, 6) + Word(len / 256, len % 256)
  {
    var tail: seq<byte> := [0, 6, len / 256, len % 256];
    SumConcat(src + dst, tail);
    SumConcat(src, dst);
    assert tail[2..] == [len / 256, len % 256];
    assert tail[2..][2..] == [];
  }

  /** A segment cut inside its check field: the low octet alone closes the sum only
      when the high one is zero. */
  lemma HalfCloses(front: seq<byte>, b: seq<byte>, csum: nat)
    requires |front| % 2 == 0 && |b| == 17 && b[16] == 0
    requires csum == ONES - Fold(Sum(front) + Sum(b)) && 0 <= csum <= ONES
    ensures Checks(front + b[16 := csum % 256]) <==> csum / 256 == 0
  {
    hide Sum, Fold, Checks, OnesSum;
    var c := b[16 := csum % 256];
    OneOctet(b[16]);
    OneOctet(c[16]);
    assert b == b[..16] + [b[16]] && c == b[..16] + [c[16]];
    SumConcat(b[..16], [b[16]]);
    SumConcat(b[..16], [c[16]]);
    SumConcat(front, c);
    ChecksIff(front + c);
    HalfSum(Sum(front) + Sum(b), csum);
  }

  lemma OneOctet(x: byte)
    ensures Sum([x]) == x
  {
  }

  lemma HalfSum(s: nat, csum: nat)
    requires csum == ONES - Fold(s) && 0 <= csum <= ONES
    ensures s + csum % 256 > 0 && (s + csum % 256) % ONES == 0 <==> csum / 256 == 0
  {
    FoldSpec(s);
    hide Fold;
    var f := ONES - csum;
    ModAdd(csum % 256, s, f);
    assert csum % 256 + f == ONES - 256 * (csum / 256);
    if csum / 256 > 0 { assert 0 <= csum % 256 + f < ONES && (f == 0 ==> csum % 256 > 0); }
  }

  /** The body `calc_tcp_checksum` and `calc_tcp6_checksum` share: the words of the
      addresses, the protocol, the length, then `len` octets of the segment. The
      sum closes if and only if the check field is summed, short of chance. */
  method SetTcpChecksum(src: seq<byte>, dst: seq<byte>, seg: array<byte>, len: nat)
    requires (|src| == |dst| == 4 || |src| == |dst| == 16) && 18 <= seg.Length && len <= seg.Length && len <= ONES
    modifies seg
    ensures len >= 18 ==> Checks(Pseudo(src, dst, len) + seg[..len])
    ensures len == 17 ==>
              (Checks(Pseudo(src, dst, len) + seg[..len])
               <==> OnesSum(Pseudo(src, dst, len) + WithWord(old(seg[..]), 16, 0, 0)[..len]) >= 0xFF00)
    ensures len <= 16 ==> seg[..len] == old(seg[..len])
    ensures Word(seg[16], seg[17])
            == ONES - OnesSum(Pseudo(src, dst, len) + WithWord(old(seg[..]), 16, 0, 0)[..len])
    ensures forall i :: 0 <= i < seg.Length && i != 16 && i != 17 ==> seg[i] == old(seg[i])
  {
    hide Sum, Fold, Checks, OnesSum;
    var sum := AddWords(src, 0);
    sum := AddWords(dst, sum);
    sum := sum + Word(0, 6);
    sum := sum + Word(len / 256, len % 256);
    PseudoSum(src, dst, len);
    seg[16], seg[17] := 0, 0;
    ghost var zeroed, front := seg[..len], Pseudo(src, dst, len);
    assert seg[..] == WithWord(old(seg[..]), 16, 0, 0) && zeroed == seg[..][..len];
    sum := AddWords(seg[..len], sum);
    sum := FoldDown(sum);
    var csum := ONES - sum;
    SumConcat(front, zeroed);
    FoldIsOnes(front + zeroed);
    Halves(csum);
    seg[16], seg[17] := csum % 256, csum / 256;
    if len >= 18 {
      assert seg[..len] == WithWord(zeroed, 16, csum % 256, csum / 256);
      Closes(front, zeroed, 16, csum);
    } else if len == 17 {
      assert seg[..len] == zeroed[16 := csum % 256];
      HalfCloses(front, zeroed, csum);
    }
  }

  /** `calc_tcp_checksum`: the length is the datagram's less its header, in 16
      bits. */
  method SetTcp4Checksum(ip: seq<byte>, seg: array<byte>) returns (len: nat)
    requires |ip| >= 20 && 18 <= seg.Length && TcpLen(ip) <= seg.Length
    modifies seg
    ensures len == TcpLen(ip)
    ensures len >= 18 ==> Checks(Pseudo(ip[12..16], ip[16..20], len) + seg[..len])
    ensures len == 17 ==>
              (Checks(Pseudo(ip[12..16], ip[16..20], len) + seg[..len])
               <==> OnesSum(Pseudo(ip[12..16], ip[16..20], len) + WithWord(old(seg[..]), 16, 0, 0)[..len]) >= 0xFF00)
    ensures len <= 16 ==> seg[..len] == old(seg[..len])
    ensures Word(seg[16], seg[17])
            == ONES - OnesSum(Pseudo(ip[12..16], ip[16..20], len) + WithWord(old(seg[..]), 16, 0, 0)[..len])
    ensures forall i :: 0 <= i < seg.Length && i != 16 && i != 17 ==> seg[i] == old(seg[i])
  {
    len := TcpLen(ip);
    SetTcpChecksum(ip[12..16], ip[16..20], seg, len);
  }

  function TcpLen(ip: seq<byte>): nat
    requires |ip| >= 20
  {
    (256 * ip[2] + ip[3] - HeaderLen(ip)) % 0x1_0000
  }

  // ---- incremental update, section 3 of RFC 1624 ----

  /** `ip_decrease_ttl`: the check field goes up as the TTL goes down. */
  method DecreaseTtl(h: array<byte>) returns (ttl: nat)
    requires h.Length >= 20
    modifies h
    ensures h[..] == Decreased(old(h[..])) && ttl == h[8]
    ensures ttl == (if old(h[8]) == 0 then 255 else old(h[8]) - 1)
    ensures forall i :: 0 <= i < h.Length && i != 8 && i != 10 && i != 11 ==> h[i] == old(h[i])
  {
    var check := Word(h[10], h[11]) + 1;
    check := (check + if check >= ONES then 1 else 0) % 0x1_0000;
    assert check == Bump(Word(h[10], h[11]));
    Halves(check);
    hide Bump;
    h[10], h[11] := check % 256, check / 256;
    h[8] := if h[8] == 0 then 255 else h[8] - 1;
    ttl := h[8];
  }

  function Decreased(h: seq<byte>): seq<byte>
    requires |h| >= 20
  {
    var check := Bump(Word(h[10], h[11]));
    WithWord(h, 10, check % 256, check / 256)[8 := if h[8] == 0 then 255 else h[8] - 1]
  }

  /** One more, with the carry brought round; all ones is written as zero. */
  function Bump(check: nat): (r: nat)
    requires check <= ONES
    ensures r <= ONES && r % ONES == (check + 1) % ONES
  {
    if check + 1 >= ONES then check + 2 - 0x1_0000 else check + 1
  }

  lemma TwoWords(h: seq<byte>, lo: byte, hi: byte, ttl: byte)
    requires |h| >= 20
    ensures Sum(WithWord(h, 10, lo, hi)[8 := ttl]) == Sum(h) - Word(h[10], h[11]) + Word(lo, hi) - h[8] + ttl
  {
    hide Sum;
    var g := WithWord(h, 10, lo, hi);
    SumWithWord(h, 10, lo, hi);
    SumWithWord(g, 8, ttl, g[9]);
    assert g[8 := ttl] == WithWord(g, 8, ttl, g[9]);
  }

  lemma DecreasedSum(h: seq<byte>)
    requires |h| >= 20
    ensures Sum(Decreased(h)) == Sum(h) - Word(h[10], h[11]) + Bump(Word(h[10], h[11])) + if h[8] == 0 then 255 else -1
  {
    var check := Bump(Word(h[10], h[11]));
    var ttl: byte := if h[8] == 0 then 255 else h[8] - 1;
    Halves(check);
    TwoWords(h, check % 256, check / 256, ttl);
  }

  /** The check field makes up for a TTL that went down by one, and not for one
      that went round to 255. */
  lemma OneForOne(sum: nat, was: nat, now: nat)
    requires sum % ONES == 0 && now % ONES == (was + 1) % ONES
    ensures (sum - was + now - 1) % ONES == 0 && (sum - was + now + 255) % ONES == 256
  {
    ModAdd(sum - was - 1, now, was + 1);
    ModAdd(sum - was + 255, now, was + 1);
    ModAdd(256, sum, 0);
  }

  /** THE HEADER STAYS VALID, exactly when the TTL was not zero. */
  lemma DecreasedChecks(h: seq<byte>)
    requires |h| >= 20 && h[0] != 0 && Checks(h)
    ensures Checks(Decreased(h)) <==> h[8] >= 1
  {
    DecreasedSum(h);
    ChecksIff(h);
    ChecksIff(Decreased(h));
    assert Decreased(h)[0] == h[0];
    assert Sum(Decreased(h)) >= h[0];
    hide Sum, OnesSum, Decreased, Checks;
    OneForOne(Sum(h), Word(h[10], h[11]), Bump(Word(h[10], h[11])));
  }

  // ---- the layouts and worked examples of the RFCs ----

  /** Section 3.1 of RFC 791: version and header length in 32-bit words share the
      first octet, the total length is the next but one, high octet first. */
  lemma LengthsOfHeader(ip: seq<byte>, words: nat, total: nat)
    requires |ip| >= 20 && words < 16 && ip[0] == 0x40 + words && total < 0x1_0000
    requires ip[2] == total / 256 && ip[3] == total % 256
    ensures HeaderLen(ip) == 4 * words
    ensures 4 * words <= total ==> TcpLen(ip) == total - 4 * words
    ensures total < 4 * words ==> TcpLen(ip) == 0x1_0000 + total - 4 * words
  {
  }

  /** Section 3.1 of RFC 793: the addresses, zero, the protocol and the length. */
  lemma PseudoOfIp4(src: seq<byte>, dst: seq<byte>, len: nat)
    requires |src| == |dst| == 4 && len <= ONES
    ensures var p := Pseudo(src, dst, len);
            && |p| == 12 && p[..4] == src && p[4..8] == dst
            && p[8] == 0 && p[9] == 6 && Word(p[11], p[10]) == len
  {
  }

  /** Section 8.1 of RFC 2460 has the length in 32 bits before the next header: a
      segment checks under that layout exactly when it does under the shared one. */
  lemma PseudoOfIp6(src: seq<byte>, dst: seq<byte>, len: nat, seg: seq<byte>)
    requires |src| == |dst| == 16 && len <= ONES
    ensures Checks(Pseudo(src, dst, len) + seg)
            <==> Checks(src + dst + [0, 0, len / 256, len % 256, 0, 0, 0, 6] + seg)
  {
    hide Sum, Checks, OnesSum;
    var a: seq<byte> := [0, 6, len / 256, len % 256];
    var b: seq<byte> := [0, 0, len / 256, len % 256, 0, 0, 0, 6];
    SmallSums(len / 256, len % 256);
    var both := src + dst;
    SumConcat(both, a);
    SumConcat(both + a, seg);
    SumConcat(both, b);
    SumConcat(both + b, seg);
    ChecksIff(both + a + seg);
    ChecksIff(both + b + seg);
  }

  lemma SmallSums(hi: byte, lo: byte)
    ensures Sum([0, 6, hi, lo]) == Sum([0, 0, hi, lo, 0, 0, 0, 6])
  {
    SumConcat([0, 6], [hi, lo]);
    SumConcat([0, 0], [hi, lo]);
    SumConcat([0, 0, hi, lo], [0, 0]);
    SumConcat([0, 0, hi, lo, 0, 0], [0, 6]);
    assert [0, 6] + [hi, lo] == [0, 6, hi, lo] && [0, 0] + [hi, lo] == [0, 0, hi, lo];
    assert [0, 0, hi, lo] + [0, 0] == [0, 0, hi, lo, 0, 0];
    assert [0, 0, hi, lo, 0, 0] + [0, 6] == [0, 0, hi, lo, 0, 0, 0, 6];
    Pair(0, 0);
  }

  lemma Pair(lo: byte, hi: byte)
    ensures Sum([lo, hi]) == Word(lo, hi)
  {
    assert [lo, hi][2..] == [];
  }

  /** The example of section 3 of RFC 1071: 0001 f203 f4f5 f6f7 sum to ddf2, which a
      little-endian host holds with its octets the other way round. */
  lemma WorkedExample()
    ensures OnesSum([0x00, 0x01, 0xf2, 0x03, 0xf4, 0xf5, 0xf6, 0xf7]) == Word(0xdd, 0xf2)
  {
    var b: seq<byte> := [0x00, 0x01, 0xf2, 0x03, 0xf4, 0xf5, 0xf6, 0xf7];
    var c: seq<byte> := [0xf2, 0x03, 0xf4, 0xf5, 0xf6, 0xf7];
    var d: seq<byte> := [0xf4, 0xf5, 0xf6, 0xf7];
    var e: seq<byte> := [0xf6, 0xf7];
    assert b[2..] == c && c[2..] == d && d[2..] == e && e[2..] == [];
    assert OnesSum(e) == Word(0xf6, 0xf7);
    assert OnesSum(d) == OnesAdd(Word(0xf4, 0xf5), Word(0xf6, 0xf7));
  }
}
