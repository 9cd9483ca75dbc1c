/**
 Integer facts shared by the layout and byte-arithmetic modules: rounding
 division, C++ truncating division, and products and row-major indices of
 sequences.
 */
module Arith {

  /** The smallest q with `q * t >= d`, for a size `d` and a positive `t`. */
  function CeilDiv(d: int, t: int): (q: int)
    requires t > 0
  {
    (d + t - 1) / t
  }

  /** C++ integer division: the quotient is truncated toward zero. */
  function TruncDiv(a: int, b: int): (q: int)
    requires b > 0
  {
    if a >= 0 then a / b else -((-a) / b)
  }

  function Product(s: seq<int>): (p: int)
  {
    if s == [] then 1 else s[0] * Product(s[1..])
  }

  lemma {:induction false} ProductConcat(s: seq<int>, t: seq<int>)
    ensures Product(s + t) == Product(s) * Product(t)
  {
    if s == [] {
      assert s + t == t;
    } else {
      assert (s + t)[1..] == s[1..] + t;
      ProductConcat(s[1..], t);
      MulAssoc(s[0], Product(s[1..]), Product(t));
    }
  }

  lemma {:induction false} ProductPositive(s: seq<int>)
    requires forall i :: 0 <= i < |s| ==> s[i] > 0
    ensures Product(s) > 0
  {
    if s != [] {
      ProductPositive(s[1..]);
    }
  }

  lemma {:induction false} ProductNonNegative(s: seq<int>)
    requires forall i :: 0 <= i < |s| ==> s[i] >= 0
    ensures Product(s) >= 0
  {
    if s != [] {
      ProductNonNegative(s[1..]);
      MulMonotone(0, s[0], Product(s[1..]));
    }
  }

  lemma MulAssoc(a: int, b: int, c: int)
    ensures (a * b) * c == a * (b * c)
  {
  }

  /** A quotient of a number below `p * t` is below `p`. */
  lemma QuotientBelow(v: int, p: int, t: int)
    requires t > 0 && 0 <= v < p * t
    ensures 0 <= v / t < p
    ensures (v / t) * t + v % t == v
  {
    if v / t >= p {
      MulMonotone(p, v / t, t);
      assert false;
    }
  }

  lemma MulMonotone(a: int, b: int, c: int)
    requires a <= b && c >= 0
    ensures a * c <= b * c
  {
  }

  /** Division and remainder of `q * t + r` are `q` and `r`. */
  lemma {:induction false} DivModUnique(q: int, t: int, r: int)
    requires t > 0 && 0 <= r < t
    ensures (q * t + r) / t == q
    ensures (q * t + r) % t == r
  {
    var n := q * t + r;
    var k := n / t - q;
    assert n == (n / t) * t + n % t;
    assert (q + k) * t == q * t + k * t;
    assert k * t == r - n % t;
    if k >= 1 {
      MulMonotone(1, k, t);
    } else if k <= -1 {
      MulMonotone(k, -1, t);
    }
  }
}
