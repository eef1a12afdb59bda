/** `Math.round` applied to a percentage of natural numbers, in integer arithmetic. */
module Arith {

  /** `Math.round((part / total) * 100)`, or 0 when `total` is 0, as the pages write it. */
  function RoundPercent(part: nat, total: nat): (r: nat)
    ensures total == 0 ==> r == 0
  {
    if total == 0 then 0 else (200 * part + total) / (2 * total)
  }

  lemma MulMono(b: int, x: int, y: int)
    requires b >= 0 && x <= y
    ensures b * x <= b * y
  {
    assert b * y - b * x == b * (y - x);
  }

  lemma RealMulMono(d: real, x: real, y: real)
    requires d > 0.0 && x < y
    ensures x * d < y * d
  {
    assert y * d - x * d == (y - x) * d;
  }

  /** The integer quotient `n / d` is the floor of the real quotient. */
  lemma QuotientIsFloor(n: int, d: int)
    requires d > 0
    ensures n / d == (n as real / d as real).Floor
  {
    var q := n / d;
    var m := n % d;
    assert n == d * q + m && 0 <= m < d;
    var x := n as real / d as real;
    assert x * d as real == n as real;
    assert (d * q) as real == q as real * d as real;
    assert (d * (q + 1)) as real == (q + 1) as real * d as real;
    if x < q as real {
      RealMulMono(d as real, x, q as real);
      assert false;
    }
    if (q + 1) as real <= x {
      if (q + 1) as real < x {
        RealMulMono(d as real, (q + 1) as real, x);
      }
      assert false;
    }
  }

  /** `Math.round(x)` is `floor(x + 1/2)`; for `x = 100 * part / total` that floor is the
      integer quotient above. */
  lemma RoundPercentIsMathRound(part: nat, total: nat)
    requires total > 0
    ensures RoundPercent(part, total) == ((100 * part) as real / total as real + 0.5).Floor
  {
    var x := (100 * part) as real / total as real + 0.5;
    assert x == (200 * part + total) as real / (2 * total) as real;
    QuotientIsFloor(200 * part + total, 2 * total);
  }

  /** Euclidean division is determined by quotient and remainder. */
  lemma DivUnique(n: int, d: int, q: int, m: int)
    requires d > 0 && n == d * q + m && 0 <= m < d
    ensures n / d == q
  {
    var q' := n / d;
    var m' := n % d;
    assert n == d * q' + m';
    if q' < q {
      MulMono(d, q' + 1, q);
      assert false;
    }
    if q < q' {
      MulMono(d, q + 1, q');
      assert false;
    }
  }

  /** A share of a total is a percentage between 0 and 100, reaching 100 exactly when
      the share is the whole (for `part <= total`). */
  lemma RoundPercentBounds(part: nat, total: nat)
    requires part <= total
    ensures RoundPercent(part, total) <= 100
    ensures total > 0 && part == total ==> RoundPercent(part, total) == 100
    ensures part == 0 ==> RoundPercent(part, total) == 0
  {
    if total > 0 {
      var n := 200 * part + total;
      var d := 2 * total;
      var q := n / d;
      assert n == d * q + n % d && 0 <= n % d < d;
      if q > 100 {
        MulMono(d, 101, q);
        assert false;
      }
      if part == total {
        DivUnique(n, d, 100, total);
      }
      if part == 0 {
        DivUnique(n, d, 0, total);
      }
    }
  }
}
