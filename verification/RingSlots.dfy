/** Places in a ring of fixed slots. */
module RingSlots {
  /** The place `i` on from `head`. */
  function Slot(head: nat, i: nat, cap: nat): nat
    requires head < cap && i <= cap
  {
    if head + i < cap then head + i else head + i - cap
  }

  /** `n` elements from `head` on. */
  function Laid<T>(s: seq<T>, head: nat, n: nat): seq<T>
    requires head < |s| && n <= |s|
  {
    seq(n, i requires 0 <= i < n => s[Slot(head, i, |s|)])
  }

  /** Positions less than a lap apart are different places. */
  lemma Apart(p: nat, q: nat, n: nat)
    requires p < q < p + n
    ensures p % n != q % n
  {
    Parts(p, n);
    Parts(q, n);
    if q / n > p / n {
      Laps(n, p / n + 1, q / n);
      assert n * (p / n + 1) == n * (p / n) + n;
    } else {
      Laps(n, q / n, p / n);
    }
  }

  /** So the same place within a lap is the same position. */
  lemma Together(p: nat, q: nat, n: nat)
    requires p <= q < p + n && p % n == q % n
    ensures p == q
  {
    if p < q { Apart(p, q, n); }
  }

  lemma Parts(x: nat, n: nat)
    requires n > 0
    ensures x == n * (x / n) + x % n
  {
  }

  lemma {:induction false} Laps(n: nat, a: int, b: int)
    requires a <= b
    ensures n * a <= n * b
    decreases b - a
  {
    if a < b {
      Laps(n, a, b - 1);
      assert n * b == n * (b - 1) + n;
    }
  }
}
