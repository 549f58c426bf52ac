/** The slide index arithmetic of the carousel: the cyclic wrap that `#gotoNth`
    computes with JavaScript's remainder operator. */
module SlideIndex {

  /** JavaScript's `%` on integers. The quotient is truncated toward zero, so the
      remainder takes the sign of the dividend (Dafny's own `%` is Euclidean and is
      never negative). */
  function JsRem(a: int, b: int): (r: int)
    requires b > 0
    ensures -b < r < b
    ensures a >= 0 ==> r >= 0
    ensures a <= 0 ==> r <= 0
    ensures (a - r) % b == 0
  {
    if a >= 0 then
      assert a - a % b == (a / b) * b;
      ModOfMultiple(a / b, b);
      a % b
    else
      assert a + (-a) % b == -((-a) / b) * b;
      ModOfMultiple(-((-a) / b), b);
      -((-a) % b)
  }

  /** The new slide index `(n + count) % count` for a request to show slide `n`.
      It is a true modulo only for `n >= -count`; below that the result may be negative. */
  function Wrap(n: int, count: int): (r: int)
    requires count > 0
    ensures -count < r < count
    ensures n >= -count ==> 0 <= r
    ensures r >= 0 ==> r == n % count
  {
    var r := JsRem(n + count, count);
    if r >= 0 then
      CongruentRemainder(n, count, r);
      r
    else
      r
  }

  /** A multiple of `b` leaves no remainder. */
  lemma ModOfMultiple(q: int, b: int)
    requires b > 0
    ensures (q * b) % b == 0
  {
    DivisionUnique(q * b, b, q, 0);
  }

  /** Euclidean division is unique: a decomposition `x == q * b + r` with
      `0 <= r < b` is the one `/` and `%` compute. */
  lemma DivisionUnique(x: int, b: int, q: int, r: int)
    requires b > 0 && 0 <= r < b && x == q * b + r
    ensures x / b == q && x % b == r
  {
    var q0, r0 := x / b, x % b;
    assert x == q0 * b + r0;
    if q0 < q {
      assert (q - q0) * b >= b by { MulAtLeast(q - q0, b); }
      assert false;
    } else if q0 > q {
      assert (q0 - q) * b >= b by { MulAtLeast(q0 - q, b); }
      assert false;
    }
  }

  lemma MulAtLeast(k: int, b: int)
    requires k >= 1 && b > 0
    ensures k * b >= b
  {
  }

  /** If `r` is a remainder in `[0, b)` that `n + b` is congruent to, it is `n % b`. */
  lemma CongruentRemainder(n: int, b: int, r: int)
    requires b > 0 && 0 <= r < b && (n + b - r) % b == 0
    ensures n % b == r
  {
    var k := (n + b - r) / b;
    assert n + b - r == k * b;
    DivisionUnique(n, b, k - 1, r);
  }

  /** The wrap stays in range exactly when the request is at least `-count`, or
      when it is a multiple of `count` (then JavaScript yields `-0`, which indexes
      slide 0). */
  lemma {:induction false} WrapInRangeIff(n: int, count: int)
    requires count > 0
    ensures 0 <= Wrap(n, count) < count <==> n >= -count || n % count == 0
  {
    var r := Wrap(n, count);
    if r >= 0 {
      assert r == n % count;
      if n < -count {
        assert n + count < 0;
        assert r <= 0;
      }
    } else {
      assert n < -count;
      var m := -(n + count);
      assert r == -(m % count);
      assert m % count != 0;
      if n % count == 0 {
        var k := n / count;
        assert n == k * count;
        DivisionUnique(m, count, -k - 1, 0);
        assert false;
      }
    }
  }

  /** Requests one step outside the range wrap around: `-1` shows the last slide
      and `count` shows the first. */
  lemma {:induction false} WrapCyclesAtTheEnds(count: int)
    requires count > 0
    ensures Wrap(-1, count) == count - 1
    ensures Wrap(count, count) == 0
  {
    DivisionUnique(count - 1, count, 0, count - 1);
    DivisionUnique(2 * count, count, 2, 0);
  }

  /** An index already in range is kept as it is. */
  lemma {:induction false} WrapKeepsIndex(k: int, count: int)
    requires 0 <= k < count
    ensures Wrap(k, count) == k
  {
    DivisionUnique(k, count, 0, k);
  }

  /** The remainder is not a true modulo: one slide below `-count` the index turns
      negative, where the Euclidean modulo would give `count - 1`. */
  lemma {:induction false} WrapEscapesBelowRange(count: int)
    requires count >= 2
    ensures Wrap(-count - 1, count) == -1
    ensures (-count - 1) % count == count - 1
  {
    DivisionUnique(1, count, 0, 1);
    DivisionUnique(-count - 1, count, -2, count - 1);
  }
}
