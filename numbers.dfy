/** Kotlin's `Int` range and the `Float`-to-`Int` conversion of a per-cent quotient, on
    whole amounts, with the small facts about division the proofs need. */
module Numbers {

  const IntMax := 0x7fff_ffff
  const IntMin := -0x8000_0000

  /** Division truncating toward zero, as Kotlin's `toInt()` does to a quotient. */
  function TruncDiv(a: int, b: int): int
    requires b != 0
  {
    if (a >= 0) == (b > 0) then (if a >= 0 then a / b else (-a) / (-b))
    else -(if a >= 0 then a / (-b) else (-a) / b)
  }

  /** `percentSpent.toInt()`: truncated, saturated at the `Int` range; +Infinity gives
      `Int.MAX_VALUE`, -Infinity `Int.MIN_VALUE`, NaN 0. */
  function PercentToInt(spent: int, budget: int): (r: int)
    ensures IntMin <= r <= IntMax
  {
    if budget == 0 then (if spent > 0 then IntMax else if spent < 0 then IntMin else 0)
    else
      var q := TruncDiv(spent * 100, budget);
      if q > IntMax then IntMax else if q < IntMin then IntMin else q
  }

  /** Truncating division by a positive divisor: the quotient rounds toward zero, so it
      lies within one divisor of the dividend on the side of zero. */
  lemma TruncDivBounds(n: int, d: int)
    requires d > 0
    ensures n >= 0 ==> TruncDiv(n, d) * d <= n < (TruncDiv(n, d) + 1) * d
    ensures n < 0 ==> (TruncDiv(n, d) - 1) * d < n <= TruncDiv(n, d) * d
  {
    if n >= 0 {
      var q := n / d;
      assert n == q * d + n % d;
      assert (q + 1) * d == q * d + d;
    } else {
      var q := (-n) / d;
      assert -n == q * d + (-n) % d;
      assert (q + 1) * d == q * d + d;
      assert TruncDiv(n, d) == -q;
      assert (-q - 1) * d == -((q + 1) * d);
      assert -q * d == -(q * d);
    }
  }

  /** The value `toInt()` gives: within the `Int` range, the per cent truncated toward zero,
      saturated at `Int.MAX_VALUE` and `Int.MIN_VALUE` beyond it; with a zero divisor the
      sign of the amount alone decides (+Infinity, NaN, -Infinity); a negative divisor
      flips both signs. */
  lemma PercentToIntValue(spent: int, budget: int)
    ensures budget > 0 && 0 <= spent * 100 < (IntMax + 1) * budget ==>
              PercentToInt(spent, budget) * budget <= spent * 100 < (PercentToInt(spent, budget) + 1) * budget
    ensures budget > 0 && (IntMin - 1) * budget < spent * 100 < 0 ==>
              (PercentToInt(spent, budget) - 1) * budget < spent * 100 <= PercentToInt(spent, budget) * budget
    ensures budget > 0 && spent * 100 >= (IntMax + 1) * budget ==> PercentToInt(spent, budget) == IntMax
    ensures budget > 0 && spent * 100 <= (IntMin - 1) * budget ==> PercentToInt(spent, budget) == IntMin
    ensures budget < 0 ==> PercentToInt(spent, budget) == PercentToInt(-spent, -budget)
    ensures budget == 0 ==> (PercentToInt(spent, budget) == IntMax <==> spent > 0)
    ensures budget == 0 ==> (PercentToInt(spent, budget) == 0 <==> spent == 0)
  {
    if budget > 0 {
      var n := spent * 100;
      var q := TruncDiv(n, budget);
      TruncDivBounds(n, budget);
      if n >= 0 {
        if n >= (IntMax + 1) * budget {
          LessByFactor(IntMax + 1, q + 1, budget);
        } else {
          LessByFactor(q, IntMax + 1, budget);
        }
      } else {
        if n <= (IntMin - 1) * budget {
          LessByFactor(q - 1, IntMin - 1, budget);
        } else {
          LessByFactor(IntMin - 1, q, budget);
        }
      }
    } else if budget < 0 {
      assert TruncDiv(spent * 100, budget) == TruncDiv(-spent * 100, -budget);
    }
  }

  /** `x * a < y * a` with `a > 0` gives `x < y`. */
  lemma LessByFactor(x: int, y: int, a: int)
    requires a > 0 && x * a < y * a
    ensures x < y
  {
  }

  /** `lo * a <= n < hi * a` bounds the quotient `n / a` by `lo` and `hi`. */
  lemma DivBetween(n: int, a: int, lo: int, hi: int)
    requires a > 0 && lo * a <= n < hi * a
    ensures lo <= n / a < hi
  {
    var q := n / a;
    assert n == q * a + n % a;
    LessByFactor(lo, q + 1, a);
    LessByFactor(q, hi, a);
  }

  lemma DivAtLeast(n: int, a: int, lo: int)
    requires a > 0 && lo * a <= n
    ensures lo <= n / a
  {
    var q := n / a;
    assert n == q * a + n % a;
    LessByFactor(lo, q + 1, a);
  }

  /** Euclidean division by a positive divisor is monotone. */
  lemma DivMonotone(m: int, n: int, d: int)
    requires d > 0 && m <= n
    ensures m / d <= n / d
  {
    var p, q := m / d, n / d;
    assert m == p * d + m % d && 0 <= m % d < d;
    assert n == q * d + n % d && 0 <= n % d < d;
    assert (q + 1) * d == q * d + d;
    LessByFactor(p, q + 1, d);
  }

  /** Truncating division by a positive divisor is monotone. */
  lemma TruncDivMonotone(m: int, n: int, d: int)
    requires d > 0 && m <= n
    ensures TruncDiv(m, d) <= TruncDiv(n, d)
  {
    assert TruncDiv(m, d) == if m >= 0 then m / d else -((-m) / d);
    assert TruncDiv(n, d) == if n >= 0 then n / d else -((-n) / d);
    if m >= 0 {
      DivMonotone(m, n, d);
    } else if n < 0 {
      DivMonotone(-n, -m, d);
    } else {
      DivAtLeast(-m, d, 0);
      DivAtLeast(n, d, 0);
    }
  }
}
