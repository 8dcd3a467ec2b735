/** Integer division rounded half away from zero (packages/shared/src/money.ts). */
module Rounding {

  function Abs(x: int): nat {
    if x < 0 then -x else x
  }

  /** The quotient of absolute values; both operands are non-negative, so truncation is floor. */
  function Quotient(absA: nat, absB: nat): nat
    requires absB > 0
  {
    (absA * 2 + absB) / (absB * 2)
  }

  /** The division as computed; the source refuses a zero divisor. */
  function DivRound(a: int, b: int): int
    requires b != 0
  {
    var negative := (a < 0) != (b < 0);
    var q: int := Quotient(Abs(a), Abs(b));
    if negative then -q else q
  }

  /** `q` is an integer closest to a/b; of two that are equally close, the one away from zero. */
  ghost predicate Nearest(a: int, b: int, q: int) {
    && 2 * Abs(a - q * b) <= Abs(b)
    && (2 * Abs(a - q * b) == Abs(b) ==> Abs(q * b) > Abs(a))
  }

  lemma {:induction false} MulApart(p: int, q: int, b: int)
    requires b > 0 && p < q
    ensures p * b + b <= q * b
    decreases q - p
  {
    assert (q - 1) * b + b == q * b;
    if p + 1 < q {
      MulApart(p, q - 1, b);
    }
  }

  lemma MulSign(p: int, b: int)
    requires b > 0
    ensures (p > 0 <==> p * b > 0) && (p < 0 <==> p * b < 0)
  {
    if p > 0 {
      MulApart(0, p, b);
    } else if p < 0 {
      MulApart(p, 0, b);
    }
  }

  lemma MulSigns(q: int, b: int)
    ensures (-q) * b == -(q * b) && q * (-b) == -(q * b) && (-q) * (-b) == q * b
  {
  }

  lemma NearestOrdered(a: int, b: int, p: int, q: int)
    requires b > 0 && Nearest(a, b, p) && Nearest(a, b, q)
    ensures p >= q
  {
    if p < q {
      MulApart(p, q, b);
      if p + 1 < q {
        MulApart(p, p + 1, b);
        MulApart(p + 1, q, b);
      }
      MulSign(p, b);
      MulSign(q, b);
      assert false;
    }
  }

  lemma NearestSigns(a: int, b: int, q: int)
    ensures Nearest(a, b, q) <==> Nearest(-a, -b, q)
    ensures Nearest(a, b, q) <==> Nearest(-a, b, -q)
  {
    MulSigns(q, b);
  }

  lemma NearestUnique(a: int, b: int, p: int, q: int)
    requires b != 0 && Nearest(a, b, p) && Nearest(a, b, q)
    ensures p == q
  {
    if b > 0 {
      NearestOrdered(a, b, p, q);
      NearestOrdered(a, b, q, p);
    } else {
      NearestSigns(a, b, p);
      NearestSigns(a, b, q);
      NearestOrdered(-a, -b, p, q);
      NearestOrdered(-a, -b, q, p);
    }
  }

  lemma DivBounds(x: nat, y: int)
    requires y > 0
    ensures x / y >= 0 && (x / y) * y <= x < (x / y) * y + y
  {
  }

  lemma QuotientIsNearest(a: nat, b: nat)
    requires b > 0
    ensures Nearest(a, b, Quotient(a, b))
  {
    var q := Quotient(a, b);
    DivBounds(a * 2 + b, b * 2);
    assert q * (b * 2) == 2 * (q * b);
  }

  lemma QuotientOfZero(b: nat)
    requires b > 0
    ensures Quotient(0, b) == 0
  {
  }

  lemma DivRoundOdd(a: int, b: int)
    requires b != 0
    ensures DivRound(-a, b) == -DivRound(a, b) && DivRound(a, -b) == -DivRound(a, b)
  {
    QuotientOfZero(Abs(b));
    hide Quotient;
  }

  lemma NearestWithSigns(a: int, b: int, q: int)
    requires b != 0 && Nearest(Abs(a), Abs(b), q)
    ensures Nearest(a, b, if (a < 0) != (b < 0) then -q else q)
  {
    var x: int, y: int := Abs(a), Abs(b);
    NearestSigns(x, y, q);
    NearestSigns(-x, y, -q);
    NearestSigns(x, -y, -q);
    hide Nearest;
  }

  lemma DivRoundNearest(a: int, b: int)
    requires b != 0
    ensures Nearest(a, b, DivRound(a, b))
  {
    QuotientIsNearest(Abs(a), Abs(b));
    NearestWithSigns(a, b, Quotient(Abs(a), Abs(b)));
    hide Nearest, Quotient;
  }

  /** The division gives the nearest integer, ties away from zero, and nothing else is that. */
  lemma DivRoundIsNearest(a: int, b: int, q: int)
    requires b != 0
    ensures q == DivRound(a, b) <==> Nearest(a, b, q)
  {
    hide DivRound;
    DivRoundNearest(a, b);
    if Nearest(a, b, q) {
      NearestUnique(a, b, q, DivRound(a, b));
    }
  }

  lemma NearestMonotone(a: int, a': int, b: int, q: int, q': int)
    requires b > 0 && a <= a' && Nearest(a, b, q) && Nearest(a', b, q')
    ensures q <= q'
  {
    if q > q' {
      MulApart(q', q, b);
      assert a == a';
      NearestUnique(a, b, q, q');
    }
  }

  lemma DivRoundMonotone(a: int, a': int, b: int)
    requires b > 0 && a <= a'
    ensures DivRound(a, b) <= DivRound(a', b)
  {
    hide DivRound;
    DivRoundIsNearest(a, b, DivRound(a, b));
    DivRoundIsNearest(a', b, DivRound(a', b));
    NearestMonotone(a, a', b, DivRound(a, b), DivRound(a', b));
  }

  lemma AbsMul(x: int, c: int)
    requires c > 0
    ensures Abs(x * c) == Abs(x) * c
  {
    MulSign(x, c);
    MulSigns(x, c);
  }

  lemma MulOrder(x: int, y: int, c: int)
    requires c > 0
    ensures x < y <==> x * c < y * c
    ensures x == y <==> x * c == y * c
  {
    if x < y {
      MulApart(x, y, c);
    } else if y < x {
      MulApart(y, x, c);
    }
  }

  lemma NearestScales(a: int, b: int, c: int, q: int)
    requires c > 0 && Nearest(a, b, q)
    ensures Nearest(a * c, b * c, q)
  {
    var e, m := a - q * b, q * b;
    assert q * (b * c) == m * c;
    assert a * c - m * c == e * c;
    HalfScales(e, b, c);
    AbsMul(a, c);
    AbsMul(m, c);
    MulOrder(Abs(a), Abs(m), c);
  }

  lemma HalfScales(e: int, b: int, c: int)
    requires c > 0
    ensures 2 * Abs(e) <= Abs(b) <==> 2 * Abs(e * c) <= Abs(b * c)
    ensures 2 * Abs(e) == Abs(b) <==> 2 * Abs(e * c) == Abs(b * c)
  {
    AbsMul(e, c);
    AbsMul(b, c);
    hide Abs;
    assert 2 * (Abs(e) * c) == (2 * Abs(e)) * c;
    MulOrder(2 * Abs(e), Abs(b), c);
  }

  /** Scaling both arguments by a positive factor changes nothing. */
  lemma DivRoundScales(a: int, b: int, c: int)
    requires b != 0 && c > 0
    ensures b * c != 0 && DivRound(a * c, b * c) == DivRound(a, b)
  {
    hide DivRound;
    MulSign(b, c);
    DivRoundNearest(a, b);
    NearestScales(a, b, c, DivRound(a, b));
    DivRoundIsNearest(a * c, b * c, DivRound(a, b));
  }

  /** A multiple of the divisor is divided exactly. */
  lemma DivRoundExact(k: int, b: int)
    requires b > 0
    ensures DivRound(k * b, b) == k
  {
    hide DivRound;
    DivRoundIsNearest(k * b, b, k);
  }

  /** A rounded quotient times its divisor is off by at most half the divisor. */
  lemma DivRoundError(a: int, b: int)
    requires b != 0
    ensures 2 * Abs(a - DivRound(a, b) * b) <= Abs(b)
  {
    hide DivRound;
    DivRoundIsNearest(a, b, DivRound(a, b));
  }
}
