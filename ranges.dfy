/**
 * The drill suggestions of the dashboard: for a bucket of problems with
 * operand widths `dA` and `dB`, the "Range" settings of the drill page's
 * addition/subtraction and multiplication/division groups that produce
 * problems of that shape.
 *
 * `Math.pow(10, d - 1)` is 0.1 when `d` is 0; every place where that value
 * reaches a result is written out as the branch `d == 0` with the whole
 * number the floating-point expression ends up as after clamping.
 */
module Ranges {
  import opened Records
  import opened Text

  function Max(x: int, y: int): int { if x >= y then x else y }

  function Min(x: int, y: int): int { if x <= y then x else y }

  /** `digitMin`: the smallest operand of `d` digits, at least 2. */
  function DigitMin(d: nat): int
  {
    if d == 0 then 2 else Max(2, Pow10(d - 1))
  }

  /** `digitMax`: the largest operand of `d` digits, at most 100. */
  function DigitMax(d: nat): int
  {
    Min(100, Pow10(d) - 1)
  }

  /** `clamp(v, lo, hi)`, which is `lo` whenever `lo > hi`. */
  function Clamp(v: int, lo: int, hi: int): (r: int)
    ensures lo <= hi ==> lo <= r <= hi
    ensures lo <= v <= hi ==> r == v
    ensures v < lo ==> r == lo
    ensures lo <= hi < v ==> r == hi
    ensures lo > hi ==> r == lo
  {
    Max(lo, Min(hi, v))
  }

  /** `clampDiv`: a divisor or small factor between 2 and 12. */
  function ClampDiv(v: int): (r: int)
    ensures 2 <= r <= 12
    ensures 2 <= v <= 12 ==> r == v
  {
    Clamp(v, 2, 12)
  }

  /** `Math.ceil(n / m)` for a non-negative `n` and a positive `m`. */
  function CeilDiv(n: nat, m: int): (q: int)
    requires m >= 1
    ensures q >= 0 && q * m >= n && (q - 1) * m < n
  {
    (n + m - 1) / m
  }

  /** The four "Range" boxes of one group: first operand `minA..maxA`, second `minB..maxB`. */
  datatype Range = Range(minA: int, maxA: int, minB: int, maxB: int)

  /** `{ minA: 2, maxA: 100, minB: 2, maxB: 100 }`. */
  const Default := Range(2, 100, 2, 100)

  /** The subtraction rule: subtrahends of width `dB`, addends that complete a minuend of width `dA`. */
  function SubRange(dA: nat, dB: nat): Range
  {
    var minSub := DigitMin(dB);
    var maxSub := DigitMax(dB);
    var minAddend := if dA == 0 then 2 else Clamp(Pow10(dA - 1) - maxSub, 2, 100);
    var maxAddend := Clamp(Pow10(dA) - 1 - minSub, 2, 100);
    if minAddend > maxAddend then Range(minSub, maxSub, 2, 100)
    else Range(minSub, maxSub, minAddend, maxAddend)
  }

  /** The division rule: divisors of width `dB` between 2 and 12, quotients for a dividend of width `dA`. */
  function DivRange(dA: nat, dB: nat): Range
  {
    var minDiv := ClampDiv(DigitMin(dB));
    var maxDiv := ClampDiv(DigitMax(dB));
    var minQ := if dA == 0 then 2 else Clamp(CeilDiv(Pow10(dA - 1), minDiv), 2, 100);
    var maxQ := Clamp((Pow10(dA) - 1) / maxDiv, 2, 100);
    if minQ > maxQ then Range(2, 12, 2, 100)
    else Range(minDiv, maxDiv, minQ, maxQ)
  }

  /** The addition/subtraction suggestion for a bucket. */
  function AddSubFor(op: Op, dA: nat, dB: nat): Range
  {
    match op
    case Add => Range(DigitMin(dA), DigitMax(dA), DigitMin(dB), DigitMax(dB))
    case Sub => SubRange(dA, dB)
    case _ => Default
  }

  /** The multiplication/division suggestion for a bucket. */
  function MulDivFor(op: Op, dA: nat, dB: nat): Range
  {
    match op
    case Mul => Range(ClampDiv(DigitMin(dA)), ClampDiv(DigitMax(dA)), DigitMin(dB), DigitMax(dB))
    case Div => DivRange(dA, dB)
    case _ => Default
  }

  /** One of the `addSubRange`/`mulDivRange` objects, whose fields the rules overwrite. */
  class RangeBox {
    var minA: int
    var maxA: int
    var minB: int
    var maxB: int

    function Value(): Range
      reads this
    {
      Range(minA, maxA, minB, maxB)
    }

    /** A box holding the default range. */
    constructor ()
      ensures Value() == Default
    {
      minA, maxA, minB, maxB := 2, 100, 2, 100;
    }
  }

  /** The per-bucket callback: two default boxes, then the rule of the bucket's operation. */
  method SuggestRanges(op: Op, dA: nat, dB: nat) returns (addSub: RangeBox, mulDiv: RangeBox)
    ensures fresh(addSub) && fresh(mulDiv) && addSub != mulDiv
    ensures addSub.Value() == AddSubFor(op, dA, dB)
    ensures mulDiv.Value() == MulDivFor(op, dA, dB)
  {
    addSub := new RangeBox();
    mulDiv := new RangeBox();
    if op == Add {
      addSub.minA := DigitMin(dA);
      addSub.maxA := DigitMax(dA);
      addSub.minB := DigitMin(dB);
      addSub.maxB := DigitMax(dB);
    }
    if op == Sub {
      var minSub := DigitMin(dB);
      var maxSub := DigitMax(dB);
      var maxResult := Pow10(dA) - 1;
      var minAddend := if dA == 0 then 2 else Pow10(dA - 1) - maxSub;
      var maxAddend := maxResult - minSub;
      minAddend := Clamp(minAddend, 2, 100);
      maxAddend := Clamp(maxAddend, 2, 100);
      if minAddend > maxAddend {
        minAddend, maxAddend := 2, 100;
      }
      addSub.minA := minSub;
      addSub.maxA := maxSub;
      addSub.minB := minAddend;
      addSub.maxB := maxAddend;
    }
    if op == Mul {
      mulDiv.minA := ClampDiv(DigitMin(dA));
      mulDiv.maxA := ClampDiv(DigitMax(dA));
      mulDiv.minB := DigitMin(dB);
      mulDiv.maxB := DigitMax(dB);
    }
    if op == Div {
      var minDiv := ClampDiv(DigitMin(dB));
      var maxDiv := ClampDiv(DigitMax(dB));
      var maxDividend := Pow10(dA) - 1;
      var minQ := if dA == 0 then 2 else Clamp(CeilDiv(Pow10(dA - 1), minDiv), 2, 100);
      var maxQ := Clamp(maxDividend / maxDiv, 2, 100);
      if minQ > maxQ {
        mulDiv.minA := 2;
        mulDiv.maxA := 12;
        mulDiv.minB := 2;
        mulDiv.maxB := 100;
      } else {
        mulDiv.minA := minDiv;
        mulDiv.maxA := maxDiv;
        mulDiv.minB := minQ;
        mulDiv.maxB := maxQ;
      }
    }
  }

  // ---------------------------------------------------------------- digit bounds

  lemma {:induction false} Pow10Grows(m: nat, n: nat)
    requires m <= n
    ensures Pow10(m) <= Pow10(n)
    decreases n
  {
    if m < n {
      Pow10Grows(m, n - 1);
    }
  }

  /**
   * `digitMin` is at least 2 and `digitMax` at most 100; the range
   * `digitMin(d)..digitMax(d)` is non-empty exactly for widths 1 to 3.
   */
  lemma DigitBounds(d: nat)
    ensures DigitMin(d) >= 2 && DigitMax(d) <= 100
    ensures DigitMin(d) <= DigitMax(d) <==> 1 <= d <= 3
  {
    if d >= 4 {
      Pow10Grows(3, d - 1);
      assert Pow10(3) == 1000;
    } else if d >= 1 {
      assert Pow10(1) == 10 && Pow10(2) == 100 && Pow10(3) == 1000;
    }
  }

  /** The values for widths 1, 2 and 3: 2..9, 10..99 and 100..100. */
  lemma DigitTable()
    ensures DigitMin(1) == 2 && DigitMax(1) == 9
    ensures DigitMin(2) == 10 && DigitMax(2) == 99
    ensures DigitMin(3) == 100 && DigitMax(3) == 100
  {
  }

  /**
   * A whole number from 2 to 100 lies in `digitMin(d)..digitMax(d)` exactly
   * when its decimal form has `d` digits.
   */
  lemma DigitRangeInverts(d: nat, n: int)
    requires 2 <= n <= 100
    ensures DigitMin(d) <= n <= DigitMax(d) <==> |DecimalString(n)| == d
  {
    var w := |DecimalString(n)|;
    DecimalWidth(n);
    if d >= 1 && d != w {
      if d < w {
        Pow10Grows(d, w - 1);
      } else {
        Pow10Grows(w, d - 1);
      }
    }
  }

  // ---------------------------------------------------------------- the rules

  /** Addition suggests, for each operand, exactly the numbers from 2 to 100 of the bucket's width. */
  lemma AddRangeSpec(dA: nat, dB: nat, n: int)
    requires 2 <= n <= 100
    ensures var r := AddSubFor(Add, dA, dB);
      && (r.minA <= n <= r.maxA <==> |DecimalString(n)| == dA)
      && (r.minB <= n <= r.maxB <==> |DecimalString(n)| == dB)
  {
    DigitRangeInverts(dA, n);
    DigitRangeInverts(dB, n);
  }

  /**
   * Subtraction suggests subtrahends `digitMin(dB)..digitMax(dB)`. The addend
   * range runs from the smallest minuend of width `dA` minus the largest
   * subtrahend to the largest minuend minus the smallest subtrahend, each
   * clamped to 2..100; it is 2..100 whenever that clamped interval is inverted.
   */
  lemma SubRangeSpec(dA: nat, dB: nat)
    ensures var r := AddSubFor(Sub, dA, dB);
      var lo := if dA == 0 then 2 else Clamp(Pow10(dA - 1) - DigitMax(dB), 2, 100);
      var hi := Clamp(Pow10(dA) - 1 - DigitMin(dB), 2, 100);
      && r.minA == DigitMin(dB) && r.maxA == DigitMax(dB)
      && 2 <= r.minB <= r.maxB <= 100
      && (lo > hi ==> r.minB == 2 && r.maxB == 100)
      && (lo <= hi ==> r.minB == lo && r.maxB == hi)
  {
  }

  /** `y` is a subtrahend of width `dB` that, with the addend `z`, makes a minuend of width `dA`. */
  predicate Completes(dA: nat, dB: nat, y: int, z: int)
    requires dA >= 1
  {
    DigitMin(dB) <= y <= DigitMax(dB) && Pow10(dA - 1) <= y + z < Pow10(dA)
  }

  /**
   * The converse of `SubRangeCovers`: for a subtrahend width of 1 to 3 digits,
   * and unless clamping pushed an end of the addend range past the other
   * end's unclamped value, every suggested addend belongs to a problem of the
   * bucket's shape.
   */
  lemma SubRangeReaches(dA: nat, dB: nat, z: int)
    requires dA >= 1 && 1 <= dB <= 3
    requires Pow10(dA - 1) - DigitMax(dB) <= 100 && Pow10(dA) - 1 - DigitMin(dB) >= 2
    requires AddSubFor(Sub, dA, dB).minB <= z <= AddSubFor(Sub, dA, dB).maxB
    ensures exists y :: Completes(dA, dB, y, z)
  {
    var minSub, maxSub := DigitMin(dB), DigitMax(dB);
    var p := Pow10(dA - 1);
    assert Pow10(dA) == 10 * p;
    DigitBounds(dB);
    var rawLo, rawHi := p - maxSub, 10 * p - 1 - minSub;
    assert rawLo <= rawHi;
    assert Clamp(rawLo, 2, 100) <= Clamp(rawHi, 2, 100);
    assert rawLo <= z <= rawHi;
    var y := Max(p - z, minSub);
    assert Completes(dA, dB, y, z);
  }

  /**
   * Every subtraction with a minuend of `dA` digits, a subtrahend in the
   * suggested range and a difference from 2 to 100 has its difference in the
   * suggested addend range.
   */
  lemma SubRangeCovers(dA: nat, dB: nat, x: int, y: int)
    requires dA >= 1 && Pow10(dA - 1) <= x < Pow10(dA)
    requires DigitMin(dB) <= y <= DigitMax(dB)
    requires 2 <= x - y <= 100
    ensures AddSubFor(Sub, dA, dB).minB <= x - y <= AddSubFor(Sub, dA, dB).maxB
  {
  }

  /**
   * Multiplication suggests second factors of the bucket's width, and first
   * factors of the bucket's width as far as the table from 2 to 12 has them:
   * for widths 1 and 2 a factor from 2 to 12 is suggested exactly when it has
   * that width (width 0 suggests only 2), and from width 3 on only 12.
   */
  lemma MulRangeSpec(dA: nat, dB: nat, n: int)
    requires 2 <= n <= 12
    ensures var r := MulDivFor(Mul, dA, dB);
      && 2 <= r.minA <= r.maxA <= 12
      && r.minB == DigitMin(dB) && r.maxB == DigitMax(dB)
      && (dA <= 2 ==> (r.minA <= n <= r.maxA <==> |DecimalString(n)| == dA || (dA == 0 && n == 2)))
      && (dA >= 3 ==> r.minA == 12 == r.maxA)
  {
    DigitRangeInverts(dA, n);
    if dA >= 2 {
      Pow10Grows(1, dA - 1);
      Pow10Grows(2, dA);
    }
    if dA >= 3 {
      Pow10Grows(2, dA - 1);
      Pow10Grows(3, dA);
    }
  }

  /**
   * For a dividend width of at least 2, the smallest quotient, rounded up,
   * never exceeds the largest one, rounded down.
   */
  lemma QuotientsOrdered(p: nat, minDiv: int, maxDiv: int)
    requires p >= 10 && 2 <= minDiv && 1 <= maxDiv <= 12
    ensures CeilDiv(p, minDiv) <= (10 * p - 1) / maxDiv
  {
    var c := CeilDiv(p, minDiv);
    var f := (10 * p - 1) / maxDiv;
    assert 2 * c <= p + 1 by {
      assert (c - 1) * minDiv < p;
      if c >= 1 {
        MulMonotone(c - 1, c - 1, 2, minDiv);
      }
    }
    assert 12 * f >= 10 * p - 12 by {
      assert (f + 1) * maxDiv > 10 * p - 1;
      MulMonotone(f + 1, f + 1, maxDiv, 12);
    }
  }

  /**
   * The clamped smallest quotient of the division rule never exceeds the
   * clamped largest one.
   */
  lemma DivQuotientsOrdered(dA: nat, dB: nat)
    ensures var minDiv, maxDiv := ClampDiv(DigitMin(dB)), ClampDiv(DigitMax(dB));
      var minQ := if dA == 0 then 2 else Clamp(CeilDiv(Pow10(dA - 1), minDiv), 2, 100);
      var maxQ := Clamp((Pow10(dA) - 1) / maxDiv, 2, 100);
      minQ <= maxQ
  {
    var minDiv, maxDiv := ClampDiv(DigitMin(dB)), ClampDiv(DigitMax(dB));
    if dA >= 2 {
      var p := Pow10(dA - 1);
      assert Pow10(dA) == 10 * p;
      Pow10Grows(1, dA - 1);
      assert Pow10(1) == 10;
      QuotientsOrdered(p, minDiv, maxDiv);
    } else if dA == 1 {
      assert Pow10(0) == 1;
      assert CeilDiv(1, minDiv) == 1;
    }
  }

  /**
   * The fallback of the division rule is never taken, and the suggestion is
   * never the fallback's divisors 2..12 with quotients 2..100.
   */
  lemma DivNeverFallsBack(dA: nat, dB: nat)
    ensures MulDivFor(Div, dA, dB) == DivRange(dA, dB)
    ensures DivRange(dA, dB) == Range(ClampDiv(DigitMin(dB)), ClampDiv(DigitMax(dB)),
                                      DivRange(dA, dB).minB, DivRange(dA, dB).maxB)
    ensures MulDivFor(Div, dA, dB) != Range(2, 12, 2, 100)
  {
    DivQuotientsOrdered(dA, dB);
    if dB >= 2 {
      Pow10Grows(1, dB - 1);
      assert Pow10(1) == 10;
    }
  }

  /**
   * Division suggests divisors `clampDiv(digitMin(dB))..clampDiv(digitMax(dB))`
   * and quotients from `ceil(10^(dA-1) / minDiv)` to
   * `floor((10^dA - 1) / maxDiv)`, each clamped to 2..100 (the lower one is 2
   * for `dA = 0`); the quotient range is never inverted.
   */
  lemma DivRangeSpec(dA: nat, dB: nat)
    ensures var r := MulDivFor(Div, dA, dB);
      var minDiv, maxDiv := ClampDiv(DigitMin(dB)), ClampDiv(DigitMax(dB));
      && r.minA == minDiv && r.maxA == maxDiv
      && 2 <= r.minA && r.maxA <= 12
      && r.minB == (if dA == 0 then 2 else Clamp(CeilDiv(Pow10(dA - 1), minDiv), 2, 100))
      && r.maxB == Clamp((Pow10(dA) - 1) / maxDiv, 2, 100)
      && 2 <= r.minB <= r.maxB <= 100
  {
    DivQuotientsOrdered(dA, dB);
  }

  /**
   * A divisor and a quotient from the suggested ranges
   * make a dividend of at least `dA` digits unless clamping lowered the
   * smallest quotient, and of at most `dA` digits unless clamping raised the
   * largest quotient.
   */
  lemma DivRangeDividends(dA: nat, dB: nat, y: int, q: int)
    requires dA >= 1
    requires MulDivFor(Div, dA, dB).minA <= y <= MulDivFor(Div, dA, dB).maxA
    requires MulDivFor(Div, dA, dB).minB <= q <= MulDivFor(Div, dA, dB).maxB
    ensures CeilDiv(Pow10(dA - 1), ClampDiv(DigitMin(dB))) <= 100 ==> q * y >= Pow10(dA - 1)
    ensures (Pow10(dA) - 1) / ClampDiv(DigitMax(dB)) >= 2 ==> q * y <= Pow10(dA) - 1
  {
    var minDiv := ClampDiv(DigitMin(dB));
    var maxDiv := ClampDiv(DigitMax(dB));
    var lo, hi := Pow10(dA - 1), Pow10(dA) - 1;
    var c := CeilDiv(lo, minDiv);
    var f := hi / maxDiv;
    var r := MulDivFor(Div, dA, dB);
    DivRangeSpec(dA, dB);
    assert minDiv <= y <= maxDiv;
    if c <= 100 {
      assert c <= q;
      LowerProduct(c, q, minDiv, y, lo);
    }
    if f >= 2 {
      assert q <= f;
      UpperProduct(q, f, y, maxDiv, hi);
    }
  }

  /** A quotient of at least `c` times a divisor of at least `m` gives at least `c * m`. */
  lemma LowerProduct(c: int, q: int, m: int, y: int, n: int)
    requires 0 <= c <= q && 0 <= m <= y && c * m >= n
    ensures q * y >= n
  {
    MulMonotone(c, q, m, y);
  }

  /** A quotient of at most `f` times a divisor of at most `m` gives at most `f * m`. */
  lemma UpperProduct(q: int, f: int, y: int, m: int, n: int)
    requires 0 <= q <= f && 0 <= y <= m && m >= 1 && f == n / m && n >= 0
    ensures q * y <= n
  {
    MulMonotone(q, f, y, m);
    assert f * m <= n;
  }

  lemma MulMonotone(a: int, b: int, c: int, d: int)
    requires 0 <= a <= b && 0 <= c <= d
    ensures a * c <= b * d
  {
    assert a * c <= b * c;
    assert b * c <= b * d;
  }

  /** The worked example 3x1 division: divisors 2..9 and quotients 50..100, since 999 / 9 = 111 is clamped. */
  lemma DivThreeByOne()
    ensures MulDivFor(Div, 3, 1) == Range(2, 9, 50, 100)
  {
    assert Pow10(2) == 100 && Pow10(3) == 1000;
  }

  /**
   * Clamping shows in the suggestions: three-digit divisors become the single
   * divisor 12, and a 4x1 bucket suggests the quotient 100 alone, so its
   * smallest suggested problem, 2 x 100, has a three-digit dividend.
   */
  lemma DivClampedExamples()
    ensures MulDivFor(Div, 3, 3) == Range(12, 12, 9, 83)
    ensures MulDivFor(Div, 4, 1) == Range(2, 9, 100, 100)
    ensures 2 * 100 < Pow10(3)
  {
    assert Pow10(2) == 100 && Pow10(3) == 1000 && Pow10(4) == 10000;
  }

  /**
   * The division rule does not cover every problem of its bucket: 108 / 9 has
   * a three-digit dividend and a one-digit divisor in the suggested range,
   * but its quotient 12 is below the suggested 50.
   */
  lemma DivRangeMissesSmallQuotients()
    ensures var r := MulDivFor(Div, 3, 1);
      && |DecimalString(108)| == 3 && |DecimalString(9)| == 1 && 108 == 12 * 9
      && r.minA <= 9 <= r.maxA && 12 < r.minB
  {
    DivThreeByOne();
    DecimalWidthThree(108);
  }

  /** The numbers from 100 to 999 have three digits. */
  lemma DecimalWidthThree(n: nat)
    requires 100 <= n < 1000
    ensures |DecimalString(n)| == 3
  {
    var w := |DecimalString(n)|;
    DecimalWidth(n);
    assert Pow10(2) == 100 && Pow10(3) == 1000;
    if w < 3 {
      Pow10Grows(w, 2);
    } else if w > 3 {
      Pow10Grows(3, w - 1);
    }
  }

  /** A rule writes only its own group: the other range stays at the default. */
  lemma OtherGroupUntouched(op: Op, dA: nat, dB: nat)
    ensures op == Add || op == Sub ==> MulDivFor(op, dA, dB) == Default
    ensures op == Mul || op == Div ==> AddSubFor(op, dA, dB) == Default
  {
  }
}
