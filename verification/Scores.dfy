/**
  What the scores of phase 1 come to: laws between the scores of inputs, and the scores of inputs that
  are ordinary in all respects but one, in whole numbers.
*/
module Scores {
  import opened Arith
  import opened Corpus

  // ----- Order -------------------------------------------------------------------------

  /** Faster or equal, at least as large and as deep, and successful if the other one is. */
  predicate AtLeast(a: Input, b: Input)
  {
    a.execTime <= b.execTime && a.coverSize >= b.coverSize && a.depth >= b.depth && (b.res > 0 ==> a.res > 0)
  }

  lemma RatioGrows(x: nat, y: nat, avg: nat)
    requires x <= y && avg > 0
    ensures x as real / avg as real <= y as real / avg as real
  {
    var d := avg as real;
    assert x as real / d * d == x as real && y as real / d * d == y as real;
    if x as real / d > y as real / d {
      assert (x as real / d - y as real / d) * d > 0.0;
    }
  }

  lemma TimeFactorFalls(x: nat, y: nat, avg: nat)
    requires x <= y
    ensures TimeFactor(RatioOf(x, avg)) >= TimeFactor(RatioOf(y, avg)) >= 0.0
  {
    if avg > 0 {
      RatioGrows(x, y, avg);
    }
  }

  lemma SizeFactorGrows(x: nat, y: nat, avg: nat)
    requires x <= y
    ensures 0.0 <= SizeFactor(RatioOf(x, avg)) <= SizeFactor(RatioOf(y, avg))
  {
    if avg > 0 {
      RatioGrows(x, y, avg);
    }
  }

  lemma TimesGrows(a: real, b: real, x: real, y: real)
    requires 0.0 <= a <= b && 0.0 <= x <= y
    ensures 0.0 <= a * x <= b * y
  {
    assert (b - a) * y >= 0.0 && a * (y - x) >= 0.0;
    assert b * y - a * x == (b - a) * y + a * (y - x);
  }

  lemma ClampGrows(x: real, y: real)
    requires x <= y
    ensures ClampScore(x) <= ClampScore(y)
  {
  }

  /**
    A score never rises with execution time, and never falls with coverage size, depth or a positive
    result.
  */
  lemma ScoresInOrder(a: Input, b: Input, avgTime: nat, avgSize: nat)
    requires AtLeast(a, b)
    ensures ScoreOf(a, avgTime, avgSize) >= ScoreOf(b, avgTime, avgSize)
  {
    hide TimeFactor, SizeFactor, DepthFactor, ClampScore, RatioOf;
    TimeFactorFalls(a.execTime, b.execTime, avgTime);
    SizeFactorGrows(b.coverSize, a.coverSize, avgSize);
    DepthFactorGrows(b.depth, a.depth);
    var ta, tb := TimeFactor(RatioOf(a.execTime, avgTime)), TimeFactor(RatioOf(b.execTime, avgTime));
    var sa, sb := SizeFactor(RatioOf(a.coverSize, avgSize)), SizeFactor(RatioOf(b.coverSize, avgSize));
    var da, db := DepthFactor(a.depth), DepthFactor(b.depth);
    var ra, rb := if a.res > 0 then 2.0 else 1.0, if b.res > 0 then 2.0 else 1.0;
    ProductGrows(tb, ta, sb, sa, db, da, rb, ra);
    RawIs(RatioOf(a.execTime, avgTime), RatioOf(a.coverSize, avgSize), a.depth, a.res, ta, sa, da, ra);
    RawIs(RatioOf(b.execTime, avgTime), RatioOf(b.coverSize, avgSize), b.depth, b.res, tb, sb, db, rb);
    ClampGrows(10.0 * tb * sb * db * rb, 10.0 * ta * sa * da * ra);
  }

  lemma RawIs(time: Ratio, size: Ratio, depth: nat, res: int, t: real, s: real, d: real, r: real)
    requires t == TimeFactor(time) && s == SizeFactor(size) && d == DepthFactor(depth)
    requires r == if res > 0 then 2.0 else 1.0
    ensures RawScore(time, size, depth, res) == 10.0 * t * s * d * r
  {
    hide TimeFactor, SizeFactor, DepthFactor;
  }

  lemma DepthFactorGrows(x: nat, y: nat)
    requires x <= y
    ensures 0.0 <= DepthFactor(x) <= DepthFactor(y)
  {
  }

  lemma ProductGrows(t: real, t': real, s: real, s': real, d: real, d': real, r: real, r': real)
    requires 0.0 <= t <= t' && 0.0 <= s <= s' && 0.0 <= d <= d' && 0.0 <= r <= r'
    ensures 10.0 * t * s * d * r <= 10.0 * t' * s' * d' * r'
  {
    TimesGrows(10.0 * t, 10.0 * t', s, s');
    TimesGrows(10.0 * t * s, 10.0 * t' * s', d, d');
    TimesGrows(10.0 * t * s * d, 10.0 * t' * s' * d', r, r');
  }

  // ----- Ordinary inputs ---------------------------------------------------------------

  predicate OrdinaryTime(x: nat, avg: nat)
  {
    avg > 0 && avg <= 2 * x && x <= 2 * avg
  }

  predicate OrdinarySize(x: nat, avg: nat)
  {
    avg > 0 && 3 * avg <= 4 * x && 2 * x <= 3 * avg
  }

  lemma Compare(x: nat, avg: nat, num: nat, den: nat)
    requires avg > 0 && den > 0
    ensures var q, bound := x as real / avg as real, num as real / den as real;
            && (q > bound <==> den * x > num * avg) && (q < bound <==> den * x < num * avg)
  {
    var q, bound := x as real / avg as real, num as real / den as real;
    var a, d := avg as real, den as real;
    assert q * a == x as real && bound * d == num as real;
    assert (q - bound) * (a * d) == q * a * d - bound * d * a;
    assert q * a * d == (den * x) as real && bound * d * a == (num * avg) as real;
    assert a * d > 0.0;
    if q > bound {
      assert (q - bound) * (a * d) > 0.0;
    } else if q < bound {
      assert (bound - q) * (a * d) > 0.0;
      assert (bound - q) * (a * d) == -((q - bound) * (a * d));
    } else {
      assert (q - bound) * (a * d) == 0.0;
    }
  }

  lemma OrdinaryTimeFactor(x: nat, avg: nat)
    requires OrdinaryTime(x, avg)
    ensures TimeFactor(RatioOf(x, avg)) == 1.0
  {
    TimeTiers(x, avg);
  }

  /** The time factor in whole numbers. */
  lemma TimeTiers(x: nat, avg: nat)
    requires avg > 0
    ensures TimeFactor(RatioOf(x, avg)) ==
            if x > 10 * avg then 0.1 else if x > 4 * avg then 0.25 else if x > 2 * avg then 0.5
            else if 4 * x < avg then 3.0 else if 100 * x < 33 * avg then 2.0 else if 2 * x < avg then 1.5
            else 1.0
  {
    Compare(x, avg, 10, 1);
    Compare(x, avg, 4, 1);
    Compare(x, avg, 2, 1);
    Compare(x, avg, 1, 4);
    Compare(x, avg, 33, 100);
    Compare(x, avg, 1, 2);
    assert 33.0 / 100.0 == 0.33 && 1.0 / 4.0 == 0.25 && 1.0 / 2.0 == 0.5;
  }

  /** The size factor in whole numbers. */
  lemma SizeTiers(x: nat, avg: nat)
    requires avg > 0
    ensures SizeFactor(RatioOf(x, avg)) ==
            if x > 3 * avg then 3.0 else if x > 2 * avg then 2.0 else if 2 * x > 3 * avg then 1.5
            else if 10 * x < 3 * avg then 0.25 else if 2 * x < avg then 0.5 else if 4 * x < 3 * avg then 2.0 / 3.0
            else 1.0
  {
    Compare(x, avg, 3, 1);
    Compare(x, avg, 2, 1);
    Compare(x, avg, 3, 2);
    Compare(x, avg, 3, 10);
    Compare(x, avg, 1, 2);
    Compare(x, avg, 3, 4);
    assert 3.0 / 2.0 == 1.5 && 3.0 / 10.0 == 0.3 && 3.0 / 4.0 == 0.75 && 1.0 / 2.0 == 0.5;
  }

  /** Ordinary in size, depth and result: the score goes down with the time from 30 to 1. */
  lemma ScoreByTime(inp: Input, avgTime: nat, avgSize: nat)
    requires avgTime > 0 && OrdinarySize(inp.coverSize, avgSize) && inp.depth < 10 && inp.res <= 0
    ensures var x := inp.execTime;
            ScoreOf(inp, avgTime, avgSize) ==
            if x > 10 * avgTime then 1 else if x > 4 * avgTime then 2 else if x > 2 * avgTime then 5
            else if 4 * x < avgTime then 30 else if 100 * x < 33 * avgTime then 20 else if 2 * x < avgTime then 15
            else 10
  {
    hide RatioOf;
    TimeTiers(inp.execTime, avgTime);
    SizeTiers(inp.coverSize, avgSize);
    Clamped(10.0 * TimeFactor(RatioOf(inp.execTime, avgTime)));
  }

  /** Ordinary in time, depth and result: the score goes up with the size from 2 to 30. */
  lemma ScoreBySize(inp: Input, avgTime: nat, avgSize: nat)
    requires OrdinaryTime(inp.execTime, avgTime) && avgSize > 0 && inp.depth < 10 && inp.res <= 0
    ensures var x := inp.coverSize;
            ScoreOf(inp, avgTime, avgSize) ==
            if x > 3 * avgSize then 30 else if x > 2 * avgSize then 20 else if 2 * x > 3 * avgSize then 15
            else if 10 * x < 3 * avgSize then 2 else if 2 * x < avgSize then 5 else if 4 * x < 3 * avgSize then 6
            else 10
  {
    hide RatioOf;
    TimeTiers(inp.execTime, avgTime);
    SizeTiers(inp.coverSize, avgSize);
    Clamped(10.0 * SizeFactor(RatioOf(inp.coverSize, avgSize)));
  }

  /** Ordinary in time and size: the score goes up with the depth, and a positive result doubles it. */
  lemma ScoreByDepth(inp: Input, avgTime: nat, avgSize: nat)
    requires OrdinaryTime(inp.execTime, avgTime) && OrdinarySize(inp.coverSize, avgSize)
    ensures ScoreOf(inp, avgTime, avgSize) ==
            (if inp.depth < 10 then 10 else if inp.depth < 20 then 20 else if inp.depth < 40 then 30
             else if inp.depth < 80 then 40 else 50) * (if inp.res > 0 then 2 else 1)
  {
    hide RatioOf;
    TimeTiers(inp.execTime, avgTime);
    SizeTiers(inp.coverSize, avgSize);
  }

  lemma Clamped(x: real)
    ensures 1.0 <= x <= 1000.0 ==> x - 1.0 < ClampScore(x) as real <= x
    ensures x < 1.0 ==> ClampScore(x) == 1
    ensures x > 1000.0 ==> ClampScore(x) == 1000
  {
  }

  /** The four factors do not depend on each other. */
  lemma FactorsMultiply(time: Ratio, size: Ratio, depth: nat, res: int)
    ensures var one := Finite(1.0);
            1000.0 * RawScore(time, size, depth, res) ==
            RawScore(time, one, 0, 0) * RawScore(one, size, 0, 0) * RawScore(one, one, depth, 0) * RawScore(one, one,
              0, res)
  {
    var t, s, d, r := TimeFactor(time), SizeFactor(size), DepthFactor(depth), if res > 0 then 2.0 else 1.0;
    hide TimeFactor, SizeFactor, DepthFactor;
    OrdinaryFactors();
    RawIs(time, size, depth, res, t, s, d, r);
    Rearranged(t, s, d, r);
  }

  lemma OrdinaryFactors()
    ensures TimeFactor(Finite(1.0)) == SizeFactor(Finite(1.0)) == DepthFactor(0) == 1.0
  {
  }

  lemma Rearranged(t: real, s: real, d: real, r: real)
    ensures 1000.0 * (10.0 * t * s * d * r) == 10.0 * t * (10.0 * s) * (10.0 * d) * (10.0 * r)
  {
  }

  // ----- Stored scores -----------------------------------------------------------------

  function Sum(values: seq<nat>): nat
  {
    if values == [] then 0 else Sum(values[..|values| - 1]) + values[|values| - 1]
  }

  /** The sums that the averages are taken of are those of the figures, modulo 2^64. */
  lemma {:induction false} SumsWrap(values: seq<nat>)
    ensures WrapSum(values) == Sum(values) % TWO64
  {
    if values != [] {
      var n := |values| - 1;
      SumsWrap(values[..n]);
      WrapTwice(Sum(values[..n]), values[n], TWO64);
    }
  }

  lemma WrapTwice(x: nat, y: nat, m: nat)
    requires m > 0
    ensures (x % m + y) % m == (x + y) % m
  {
    var q := (x % m + y) / m;
    DivModUnique(x + y, m, x / m + q, (x % m + y) % m);
  }

  lemma AverageMeans(sum: nat, n: nat)
    requires n > 0
    ensures Average(sum, n) * n <= sum < (Average(sum, n) + 1) * n
  {
  }

  /** The averages that a rescoring works with. */
  function AvgTime(inputs: seq<Input>): nat
    requires inputs != []
  {
    Average(WrapSum(Times(inputs)), |inputs|)
  }

  function AvgSize(inputs: seq<Input>): nat
    requires inputs != []
  {
    Average(WrapSum(Sizes(inputs)), |inputs|)
  }

  /**
    What a rescoring stores: scores in the order of the figures, and for an input that is ordinary in
    all respects but the time, a score that says how far it is from the average.
  */
  lemma StoredScores(inputs: seq<Input>, corpus: seq<Input>, j: nat, k: nat)
    requires inputs != [] && |corpus| == |inputs| && Scored(inputs, corpus) && j < |inputs| && k < |inputs|
    ensures AtLeast(inputs[j], inputs[k]) ==> corpus[j].score >= corpus[k].score
    ensures var a, b := inputs[j], inputs[k];
            && OrdinarySize(a.coverSize, AvgSize(inputs)) && OrdinarySize(b.coverSize, AvgSize(inputs))
            && a.depth < 10 && b.depth < 10 && a.res <= 0 && b.res <= 0
            && OrdinaryTime(a.execTime, AvgTime(inputs)) && b.execTime > 2 * AvgTime(inputs)
            ==> corpus[j].score == 10 && corpus[k].score < 10
    ensures var a, b := inputs[j], inputs[k];
            && OrdinaryTime(a.execTime, AvgTime(inputs)) && OrdinaryTime(b.execTime, AvgTime(inputs))
            && a.depth < 10 && b.depth < 10 && a.res <= 0 && b.res <= 0
            && OrdinarySize(a.coverSize, AvgSize(inputs)) && 2 * b.coverSize > 3 * AvgSize(inputs)
            ==> corpus[j].score == 10 && corpus[k].score > 10
  {
    hide ScoreOf, WrapSum, Average;
    var a, b, t, s := inputs[j], inputs[k], AvgTime(inputs), AvgSize(inputs);
    if AtLeast(a, b) {
      ScoresInOrder(a, b, t, s);
    }
    if OrdinaryTime(a.execTime, t) && OrdinarySize(a.coverSize, s) && a.depth < 10 && a.res <= 0 {
      ScoreByTime(a, t, s);
      if b.depth < 10 && b.res <= 0 && OrdinarySize(b.coverSize, s) {
        ScoreByTime(b, t, s);
      }
      if b.depth < 10 && b.res <= 0 && OrdinaryTime(b.execTime, t) {
        ScoreBySize(b, t, s);
      }
    }
  }

  /** A zero average: nothing is above or below it but what is not zero. */
  lemma NoAverage(x: nat)
    ensures TimeFactor(RatioOf(x, 0)) == if x == 0 then 1.0 else 0.1
    ensures SizeFactor(RatioOf(x, 0)) == if x == 0 then 1.0 else 3.0
  {
  }
}
