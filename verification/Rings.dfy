/** Arithmetic of circular buffers. */
module Rings {

  /** `i` steps ahead of `k` around a ring of `max` slots. */
  function Ahead(k: nat, i: nat, max: nat): (r: nat)
    requires k < max && i <= max
    ensures r < max
  {
    if k + i < max then k + i else k + i - max
  }

  /** It is addition modulo the size. */
  lemma AheadIsModulo(k: nat, i: nat, max: nat)
    requires k < max && i <= max
    ensures Ahead(k, i, max) == (k + i) % max
  {
    QuotientAndRemainder(k + i, max);
  }

  lemma QuotientAndRemainder(n: nat, max: nat)
    requires 0 < max && n < 2 * max
    ensures n % max == if n < max then n else n - max
  {
    var d, r: int := n / max, n % max;
    assert n == d * max + r;
    Scale(d, max);
  }

  lemma Scale(d: int, max: int)
    requires max > 0
    ensures d >= 2 ==> d * max >= 2 * max
    ensures d <= -1 ==> d * max <= -max
  {
  }

  /** A pointer advanced by one slot. */
  function Bump(k: nat, max: nat): (r: nat)
    requires k < max
    ensures r == Ahead(k, 1, max)
  {
    AheadIsModulo(k, 1, max);
    (k + 1) % max
  }

  /** The `n` values from slot `first` on. */
  function Window<T>(q: seq<T>, first: nat, n: nat): seq<T>
    requires first < |q| && n <= |q|
  {
    seq(n, i requires 0 <= i < n => q[Ahead(first, i, |q|)])
  }

  lemma WindowExtends<T>(q: seq<T>, first: nat, n: nat, v: T)
    requires first < |q| && n < |q|
    ensures var slot := Ahead(first, n, |q|);
            Window(q[slot := v], first, n) == Window(q, first, n)
            && Window(q[slot := v], first, n + 1) == Window(q, first, n) + [v]
  {
  }

  lemma WindowShrinks<T>(q: seq<T>, first: nat, n: nat)
    requires first < |q| && 0 < n <= |q|
    ensures Window(q, first, n) == [q[first]] + Window(q, Ahead(first, 1, |q|), n - 1)
  {
    var rest := Window(q, Ahead(first, 1, |q|), n - 1);
    forall i | 0 <= i < n ensures Window(q, first, n)[i] == ([q[first]] + rest)[i] {
    }
  }

  /** How far `b` is ahead of `a`, as the source computes it. */
  function Distance(a: nat, b: nat, max: nat): (d: nat)
    requires a < max && b < max
    ensures d < max && Ahead(a, d, max) == b
    ensures d == if a <= b then b - a else b + max - a
  {
    QuotientAndRemainder(b + max - a, max);
    (b + max - a) % max
  }
}
