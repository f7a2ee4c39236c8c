/**
  The corpus of a hub: inputs with their coverage, scores, the choice of favored inputs, and the
  running sums by which the mutator picks an input.
*/
module Corpus {
  import opened Cover

  const MIN_SCORE := 1
  const MAX_SCORE := 1000
  const DEF_SCORE := 10
  const TWO64: nat := 0x1_0000_0000_0000_0000

  datatype Input = Input(
    mine: bool,
    data: Data,
    cover: seq<Byte>,
    coverSize: nat,
    res: int,
    depth: nat,
    execTime: nat,
    favored: bool,
    score: int,
    runningScoreSum: int
  )

  predicate Covers(corpus: seq<Input>)
  {
    forall k | 0 <= k < |corpus| :: |corpus[k].cover| == COVER_SIZE
  }

  function Zeros(): (r: seq<Byte>)
    ensures |r| == COVER_SIZE && forall i | 0 <= i < |r| :: r[i] == 0
  {
    seq(COVER_SIZE, _ => 0)
  }

  /** The joined coverage of the inputs, in the order they were added. */
  function CoverOf(counters: bool, corpus: seq<Input>): (r: seq<Byte>)
    requires Covers(corpus)
    ensures |r| == COVER_SIZE
  {
    if corpus == [] then Zeros()
    else Join(counters, CoverOf(counters, corpus[..|corpus| - 1]), corpus[|corpus| - 1].cover)
  }

  /** The coverage of an input reaches the full level of the table at slot i. */
  predicate Full(counters: bool, cover: seq<Byte>, table: seq<Byte>, i: int)
    requires |cover| == |table|
  {
    0 <= i < |table| && cover[i] != 0 && RoundUp(counters, cover[i]) == table[i]
  }

  /**
    The joined coverage is the pointwise maximum: no input is above it, and some input reaches it
    wherever it is not zero.
  */
  lemma {:induction false} CoverOfIsMax(counters: bool, corpus: seq<Input>, i: nat)
    requires Covers(corpus) && i < COVER_SIZE
    ensures forall k | 0 <= k < |corpus| :: RoundUp(counters, corpus[k].cover[i]) <= CoverOf(counters, corpus)[i]
    ensures CoverOf(counters, corpus)[i] != 0 ==> exists k ::
              0 <= k < |corpus| && Full(counters, corpus[k].cover, CoverOf(counters, corpus), i)
  {
    if corpus != [] {
      var n := |corpus| - 1;
      var init := corpus[..n];
      CoverOfIsMax(counters, init, i);
      var t := CoverOf(counters, corpus);
      assert t[i] == MaxByte(CoverOf(counters, init)[i], RoundUp(counters, corpus[n].cover[i]));
      forall k | 0 <= k < |corpus| ensures RoundUp(counters, corpus[k].cover[i]) <= t[i] {
        assert k < n ==> init[k] == corpus[k];
      }
      if t[i] != 0 {
        RoundUpIsClosure(counters, corpus[n].cover[i], 0);
        if t[i] == RoundUp(counters, corpus[n].cover[i]) {
          assert Full(counters, corpus[n].cover, t, i);
        } else {
          var k :| 0 <= k < |init| && Full(counters, init[k].cover, CoverOf(counters, init), i);
          assert Full(counters, corpus[k].cover, t, i);
        }
      }
    }
  }

  lemma {:induction false} CoverOfQuantized(counters: bool, corpus: seq<Input>)
    requires Covers(corpus)
    ensures Quantized(counters, CoverOf(counters, corpus))
  {
    if corpus != [] {
      var n := |corpus| - 1;
      CoverOfQuantized(counters, corpus[..n]);
      JoinEffect(counters, CoverOf(counters, corpus[..n]), corpus[n].cover);
    }
  }

  predicate SameCovers(a: seq<Input>, b: seq<Input>)
  {
    |a| == |b| && forall k | 0 <= k < |a| :: a[k].cover == b[k].cover
  }

  lemma {:induction false} CoverOfSame(counters: bool, a: seq<Input>, b: seq<Input>)
    requires Covers(a) && Covers(b) && SameCovers(a, b)
    ensures CoverOf(counters, a) == CoverOf(counters, b)
  {
    if a != [] {
      var n := |a| - 1;
      assert forall k | 0 <= k < n :: a[..n][k] == a[k] && b[..n][k] == b[k];
      CoverOfSame(counters, a[..n], b[..n]);
    }
  }

  // ----- Phase 1: the score of an input by itself --------------------------------------

  /** A quotient of two counters as a floating-point number; dividing by zero gives infinity or no number. */
  datatype Ratio = NaN | Infinite | Finite(r: real)

  function RatioOf(x: nat, avg: nat): Ratio
  {
    if avg == 0 then (if x == 0 then NaN else Infinite) else Finite(x as real / avg as real)
  }

  predicate Above(q: Ratio, bound: real)
  {
    q.Infinite? || (q.Finite? && q.r > bound)
  }

  predicate Under(q: Ratio, bound: real)
  {
    q.Finite? && q.r < bound
  }

  function TimeFactor(q: Ratio): real
  {
    if Above(q, 10.0) then 0.1
    else if Above(q, 4.0) then 0.25
    else if Above(q, 2.0) then 0.5
    else if Under(q, 0.25) then 3.0
    else if Under(q, 0.33) then 2.0
    else if Under(q, 0.5) then 1.5
    else 1.0
  }

  function SizeFactor(q: Ratio): real
  {
    if Above(q, 3.0) then 3.0
    else if Above(q, 2.0) then 2.0
    else if Above(q, 1.5) then 1.5
    else if Under(q, 0.3) then 0.25
    else if Under(q, 0.5) then 0.5
    else if Under(q, 0.75) then 2.0 / 3.0
    else 1.0
  }

  function DepthFactor(depth: nat): real
  {
    if depth < 10 then 1.0 else if depth < 20 then 2.0 else if depth < 40 then 3.0 else if depth < 80 then 4.0 else 5.0
  }

  function RawScore(time: Ratio, size: Ratio, depth: nat, res: int): real
  {
    DEF_SCORE as real * TimeFactor(time) * SizeFactor(size) * DepthFactor(depth) * (if res > 0 then 2.0 else 1.0)
  }

  function ClampScore(score: real): int
  {
    if score < MIN_SCORE as real then MIN_SCORE
    else if score > MAX_SCORE as real then MAX_SCORE
    else score.Floor
  }

  /** The factors keep every score at or below 900, so the upper clamp is never reached. */
  lemma ScoreRange(time: Ratio, size: Ratio, depth: nat, res: int)
    ensures var raw := RawScore(time, size, depth, res); 0.25 <= raw <= 900.0 && 1 <= ClampScore(raw) <= 900
  {
    var a, b, c := TimeFactor(time), SizeFactor(size), DepthFactor(depth);
    var d := if res > 0 then 2.0 else 1.0;
    var x := DEF_SCORE as real * a;
    assert 1.0 <= x <= 30.0;
    var y := x * b;
    ProductRange(x, 1.0, 30.0, b, 0.25, 3.0);
    assert 0.25 <= y <= 90.0;
    var z := y * c;
    ProductRange(y, 0.25, 90.0, c, 1.0, 5.0);
    assert 0.25 <= z <= 450.0;
    ProductRange(z, 0.25, 450.0, d, 1.0, 2.0);
  }

  lemma ProductRange(x: real, lo: real, hi: real, y: real, lo': real, hi': real)
    requires 0.0 <= lo <= x <= hi && 0.0 <= lo' <= y <= hi'
    ensures lo * lo' <= x * y <= hi * hi'
  {
    assert (x - lo) * y >= 0.0 && lo * (y - lo') >= 0.0;
    assert (hi - x) * y >= 0.0 && hi * (hi' - y) >= 0.0;
    assert x * y - lo * y == (x - lo) * y && lo * y - lo * lo' == lo * (y - lo');
    assert hi * y - x * y == (hi - x) * y && hi * hi' - hi * y == hi * (hi' - y);
  }

  function WrapAdd(a: nat, b: nat): nat
  {
    (a + b) % TWO64
  }

  function Average(sum: nat, n: nat): nat
    requires n > 0
  {
    sum / n
  }

  /** Sums of 64-bit counters, which wrap around. */
  function WrapSum(values: seq<nat>): nat
  {
    if values == [] then 0 else WrapAdd(WrapSum(values[..|values| - 1]), values[|values| - 1])
  }

  function Times(corpus: seq<Input>): (r: seq<nat>)
    ensures |r| == |corpus|
  {
    seq(|corpus|, k requires 0 <= k < |corpus| => corpus[k].execTime)
  }

  function Sizes(corpus: seq<Input>): (r: seq<nat>)
    ensures |r| == |corpus|
  {
    seq(|corpus|, k requires 0 <= k < |corpus| => corpus[k].coverSize)
  }

  function ScoreOf(inp: Input, avgTime: nat, avgSize: nat): int
  {
    ClampScore(RawScore(RatioOf(inp.execTime, avgTime), RatioOf(inp.coverSize, avgSize), inp.depth, inp.res))
  }

  lemma ScoreOfRange(inp: Input, avgTime: nat, avgSize: nat)
    ensures 1 <= ScoreOf(inp, avgTime, avgSize) <= 900
  {
    ScoreRange(RatioOf(inp.execTime, avgTime), RatioOf(inp.coverSize, avgSize), inp.depth, inp.res);
  }

  method Averages(inputs: seq<Input>) returns (avgTime: nat, avgSize: nat)
    requires inputs != []
    ensures avgTime == Average(WrapSum(Times(inputs)), |inputs|) && avgSize == Average(WrapSum(Sizes(inputs)), |inputs|)
  {
    hide WrapAdd, Average;
    var sumTime, sumSize: nat := 0, 0;
    ghost var times, sizes := Times(inputs), Sizes(inputs);
    for k := 0 to |inputs|
      invariant sumTime == WrapSum(times[..k]) && sumSize == WrapSum(sizes[..k])
    {
      assert times[..k + 1][..k] == times[..k] && sizes[..k + 1][..k] == sizes[..k];
      sumTime := WrapAdd(sumTime, inputs[k].execTime);
      sumSize := WrapAdd(sumSize, inputs[k].coverSize);
    }
    assert times[..|inputs|] == times && sizes[..|inputs|] == sizes;
    avgTime, avgSize := Average(sumTime, |inputs|), Average(sumSize, |inputs|);
  }

  /** Every input has the score that its own figures and the averages give. */
  predicate Scored(a: seq<Input>, b: seq<Input>)
    requires a != [] && |a| == |b|
  {
    var avgTime, avgSize := Average(WrapSum(Times(a)), |a|), Average(WrapSum(Sizes(a)), |a|);
    forall k | 0 <= k < |b| :: b[k].score == ScoreOf(a[k], avgTime, avgSize)
  }

  method ScorePhase(inputs: seq<Input>) returns (corpus: seq<Input>)
    requires inputs != []
    ensures |corpus| == |inputs|
    ensures forall k | 0 <= k < |corpus| :: corpus[k] == inputs[k].(score := corpus[k].score)
    ensures Scored(inputs, corpus)
    ensures forall k | 0 <= k < |corpus| :: 1 <= corpus[k].score <= 900
  {
    hide ScoreOf, WrapSum, Average;
    var avgTime, avgSize := Averages(inputs);
    corpus := inputs;
    for k := 0 to |inputs|
      invariant |corpus| == |inputs|
      invariant forall j | 0 <= j < k :: corpus[j] == inputs[j].(score := ScoreOf(inputs[j], avgTime, avgSize))
      invariant forall j | 0 <= j < k :: 1 <= corpus[j].score <= 900
      invariant forall j | k <= j < |inputs| :: corpus[j] == inputs[j]
    {
      ScoreOfRange(inputs[k], avgTime, avgSize);
      corpus := corpus[k := corpus[k].(score := ScoreOf(inputs[k], avgTime, avgSize))];
    }
  }

  // ----- Phase 2: favored inputs -------------------------------------------------------

  datatype Candidate = Candidate(index: nat, score: int)

  datatype Pick = Pick(slot: nat, index: nat)

  /** The first input with the highest score among the first n that fully cover slot i; score 0 if there is none. */
  predicate BestFor(counters: bool, corpus: seq<Input>, table: seq<Byte>, n: nat, i: nat, c: Candidate)
    requires Covers(corpus) && |table| == COVER_SIZE && n <= |corpus|
  {
    if c.score == 0 then forall k | 0 <= k < n :: !Full(counters, corpus[k].cover, table, i)
    else
      && c.index < n && Full(counters, corpus[c.index].cover, table, i) && corpus[c.index].score == c.score
      && forall k | 0 <= k < n && Full(counters, corpus[k].cover, table, i) ::
           corpus[k].score <= c.score && (k < c.index ==> corpus[k].score < c.score)
  }

  method ChooseCandidates(counters: bool, corpus: seq<Input>, table: seq<Byte>) returns (cands: array<Candidate>)
    requires Covers(corpus) && |table| == COVER_SIZE
    requires forall k | 0 <= k < |corpus| :: corpus[k].score >= 1
    ensures fresh(cands) && cands.Length == COVER_SIZE
    ensures forall i | 0 <= i < COVER_SIZE :: BestFor(counters, corpus, table, |corpus|, i, cands[i])
  {
    cands := new Candidate[COVER_SIZE](_ => Candidate(0, 0));
    for idx := 0 to |corpus|
      invariant forall i | 0 <= i < COVER_SIZE :: BestFor(counters, corpus, table, idx, i, cands[i])
    {
      var inp := corpus[idx];
      for i := 0 to COVER_SIZE
        invariant forall j | 0 <= j < i :: BestFor(counters, corpus, table, idx + 1, j, cands[j])
        invariant forall j | i <= j < COVER_SIZE :: BestFor(counters, corpus, table, idx, j, cands[j])
      {
        var c := inp.cover[i];
        if c != 0 && RoundUp(counters, c) == table[i] && cands[i].score < inp.score {
          cands[i] := Candidate(idx, inp.score);
        }
      }
    }
  }

  predicate CoveredBy(counters: bool, corpus: seq<Input>, table: seq<Byte>, picks: seq<Pick>, i: nat)
    requires Covers(corpus) && |table| == COVER_SIZE && PicksInRange(corpus, picks)
  {
    exists m :: 0 <= m < |picks| && Full(counters, corpus[picks[m].index].cover, table, i)
  }

  predicate PicksInRange(corpus: seq<Input>, picks: seq<Pick>)
  {
    forall m | 0 <= m < |picks| :: picks[m].index < |corpus| && picks[m].slot < COVER_SIZE
  }

  /**
    What the picks of updateScores are: each is the first of the highest-scoring inputs for its slot,
    and its slot is the first nonzero one that the earlier picks leave uncovered.
  */
  predicate Greedy(counters: bool, corpus: seq<Input>, table: seq<Byte>, picks: seq<Pick>)
    requires Covers(corpus) && |table| == COVER_SIZE
  {
    && PicksInRange(corpus, picks)
    && forall n | 0 <= n < |picks| ::
      BestPick(counters, corpus, table, picks[n]) && NextSlot(counters, corpus, table, picks, n)
  }

  predicate BestPick(counters: bool, corpus: seq<Input>, table: seq<Byte>, p: Pick)
    requires Covers(corpus) && |table| == COVER_SIZE && p.index < |corpus|
  {
    && Full(counters, corpus[p.index].cover, table, p.slot)
    && forall k | 0 <= k < |corpus| && Full(counters, corpus[k].cover, table, p.slot) ::
         corpus[k].score <= corpus[p.index].score && (k < p.index ==> corpus[k].score < corpus[p.index].score)
  }

  predicate NextSlot(counters: bool, corpus: seq<Input>, table: seq<Byte>, picks: seq<Pick>, n: nat)
    requires Covers(corpus) && |table| == COVER_SIZE && PicksInRange(corpus, picks) && n < |picks|
  {
    && AllCovered(counters, corpus, table, picks[..n], picks[n].slot)
    && !CoveredBy(counters, corpus, table, picks[..n], picks[n].slot)
  }

  predicate AllCovered(counters: bool, corpus: seq<Input>, table: seq<Byte>, picks: seq<Pick>, end: nat)
    requires Covers(corpus) && |table| == COVER_SIZE && PicksInRange(corpus, picks) && end <= COVER_SIZE
  {
    forall i | 0 <= i < end && table[i] != 0 :: CoveredBy(counters, corpus, table, picks, i)
  }

  predicate Picked(picks: seq<Pick>, k: nat)
  {
    exists m :: 0 <= m < |picks| && picks[m].index == k
  }

  /** No pick covers the slot of a later one; so slots increase, and no input is picked twice. */
  lemma PicksDistinct(counters: bool, corpus: seq<Input>, table: seq<Byte>, picks: seq<Pick>, m: nat, n: nat)
    requires Covers(corpus) && |table| == COVER_SIZE && Greedy(counters, corpus, table, picks)
    requires m < n < |picks|
    ensures !Full(counters, corpus[picks[m].index].cover, table, picks[n].slot)
    ensures picks[m].index != picks[n].index && picks[m].slot < picks[n].slot
  {
    hide Full, Greedy;
    PickIsNew(counters, corpus, table, picks, m);
    PickIsNew(counters, corpus, table, picks, n);
    assert picks[..n][m] == picks[m];
    EarlierCovered(counters, corpus, table, picks, m, n, picks[n].slot);
  }

  lemma EarlierCovered(counters: bool, corpus: seq<Input>, table: seq<Byte>, picks: seq<Pick>, m: nat, n: nat, i: nat)
    requires Covers(corpus) && |table| == COVER_SIZE && Greedy(counters, corpus, table, picks) && m < n < |picks|
    ensures i < picks[m].slot && table[i] != 0 ==> CoveredBy(counters, corpus, table, picks[..n], i)
  {
    hide Full;
    assert NextSlot(counters, corpus, table, picks, m);
    if i < picks[m].slot && table[i] != 0 {
      assert CoveredBy(counters, corpus, table, picks[..m], i);
      var k: nat :| k < m && Full(counters, corpus[picks[..m][k].index].cover, table, i);
      assert picks[..n][k] == picks[..m][k];
    }
  }

  /** The corpus determines the picks: there is only one greedy choice that covers everything. */
  lemma {:induction false} PicksDetermined(counters: bool, corpus: seq<Input>, table: seq<Byte>, p: seq<Pick>,
                                           q: seq<Pick>, n: nat)
    requires Covers(corpus) && |table| == COVER_SIZE
    requires Greedy(counters, corpus, table, p) && AllCovered(counters, corpus, table, p, COVER_SIZE)
    requires Greedy(counters, corpus, table, q) && AllCovered(counters, corpus, table, q, COVER_SIZE)
    requires n <= |p| && n <= |q| && p[..n] == q[..n]
    ensures p == q
    decreases |p| - n
  {
    hide Full;
    if n == |p| {
      NoMorePicks(counters, corpus, table, p, q);
    } else if n == |q| {
      NoMorePicks(counters, corpus, table, q, p);
    } else {
      SamePick(counters, corpus, table, p, q, n);
      assert p[..n + 1] == p[..n] + [p[n]] && q[..n + 1] == q[..n] + [q[n]];
      PicksDetermined(counters, corpus, table, p, q, n + 1);
    }
  }

  lemma NoMorePicks(counters: bool, corpus: seq<Input>, table: seq<Byte>, p: seq<Pick>, q: seq<Pick>)
    requires Covers(corpus) && |table| == COVER_SIZE
    requires PicksInRange(corpus, p) && AllCovered(counters, corpus, table, p, COVER_SIZE)
             && Greedy(counters, corpus, table, q)
    requires |p| <= |q| && q[..|p|] == p
    ensures p == q
  {
    hide Greedy, Full;
    if |p| < |q| {
      PickIsNew(counters, corpus, table, q, |p|);
      assert false;
    }
  }

  lemma PickIsNew(counters: bool, corpus: seq<Input>, table: seq<Byte>, picks: seq<Pick>, n: nat)
    requires Covers(corpus) && |table| == COVER_SIZE && Greedy(counters, corpus, table, picks) && n < |picks|
    ensures PicksInRange(corpus, picks) && PicksInRange(corpus, picks[..n])
    ensures picks[n].slot < COVER_SIZE && table[picks[n].slot] != 0
    ensures BestPick(counters, corpus, table, picks[n]) && NextSlot(counters, corpus, table, picks, n)
    ensures !CoveredBy(counters, corpus, table, picks[..n], picks[n].slot)
  {
  }

  lemma SamePick(counters: bool, corpus: seq<Input>, table: seq<Byte>, p: seq<Pick>, q: seq<Pick>, n: nat)
    requires Covers(corpus) && |table| == COVER_SIZE
    requires Greedy(counters, corpus, table, p) && Greedy(counters, corpus, table, q)
    requires n < |p| && n < |q| && p[..n] == q[..n]
    ensures p[n] == q[n]
  {
    hide Greedy;
    PickIsNew(counters, corpus, table, p, n);
    PickIsNew(counters, corpus, table, q, n);
    assert p[n].slot == q[n].slot;
  }

  // ----- Minimality --------------------------------------------------------------------

  function Drop(picks: seq<Pick>, m: nat): seq<Pick>
    requires m < |picks|
  {
    picks[..m] + picks[m + 1..]
  }

  /** Without any one of the picks, something is not covered. */
  predicate Minimal(counters: bool, corpus: seq<Input>, table: seq<Byte>, picks: seq<Pick>)
    requires Covers(corpus) && |table| == COVER_SIZE && PicksInRange(corpus, picks)
  {
    forall m | 0 <= m < |picks| :: !AllCovered(counters, corpus, table, Drop(picks, m), COVER_SIZE)
  }

  /** A slot that was still uncovered when pick m was made, and that no later pick covers. */
  predicate OwnSlot(counters: bool, corpus: seq<Input>, table: seq<Byte>, picks: seq<Pick>, m: nat, i: nat)
    requires Covers(corpus) && |table| == COVER_SIZE && PicksInRange(corpus, picks) && m < |picks|
  {
    && picks[m].slot <= i && Full(counters, corpus[picks[m].index].cover, table, i)
    && !CoveredBy(counters, corpus, table, picks[..m], i) && !CoveredBy(counters, corpus, table, picks[m + 1..], i)
  }

  predicate HasOwnSlot(counters: bool, corpus: seq<Input>, table: seq<Byte>, picks: seq<Pick>, m: nat)
    requires Covers(corpus) && |table| == COVER_SIZE && PicksInRange(corpus, picks) && m < |picks|
  {
    exists i :: 0 <= i < COVER_SIZE && OwnSlot(counters, corpus, table, picks, m, i)
  }

  /**
    The favored set is minimal exactly if each pick newly covered, at its slot or behind it, a slot
    that no later pick covers as well.
  */
  lemma MinimalExactly(counters: bool, corpus: seq<Input>, table: seq<Byte>, picks: seq<Pick>)
    requires Covers(corpus) && |table| == COVER_SIZE && Greedy(counters, corpus, table, picks)
    requires AllCovered(counters, corpus, table, picks, COVER_SIZE)
    ensures Minimal(counters, corpus, table, picks) <==>
            forall m | 0 <= m < |picks| :: HasOwnSlot(counters, corpus, table, picks, m)
  {
    forall m | 0 <= m < |picks|
      ensures !AllCovered(counters, corpus, table, Drop(picks, m), COVER_SIZE)
              <==> HasOwnSlot(counters, corpus, table, picks, m)
    {
      NeededExactly(counters, corpus, table, picks, m);
    }
  }

  lemma NeededExactly(counters: bool, corpus: seq<Input>, table: seq<Byte>, picks: seq<Pick>, m: nat)
    requires Covers(corpus) && |table| == COVER_SIZE && PicksInRange(corpus, picks) && m < |picks|
    requires Greedy(counters, corpus, table, picks) && AllCovered(counters, corpus, table, picks, COVER_SIZE)
    ensures PicksInRange(corpus, Drop(picks, m))
    ensures !AllCovered(counters, corpus, table, Drop(picks, m), COVER_SIZE)
            <==> HasOwnSlot(counters, corpus, table, picks, m)
  {
    hide Full, Greedy, CoveredBy;
    var rest := Drop(picks, m);
    CoveredWithout(counters, corpus, table, picks, m, 0);
    forall i | 0 <= i < COVER_SIZE && table[i] != 0
      ensures !CoveredBy(counters, corpus, table, rest, i) <==> OwnSlot(counters, corpus, table, picks, m, i)
    {
      CoveredWithout(counters, corpus, table, picks, m, i);
      BeforeSlot(counters, corpus, table, picks, m, i);
      assert CoveredBy(counters, corpus, table, picks, i);
    }
    if i :| 0 <= i < COVER_SIZE && OwnSlot(counters, corpus, table, picks, m, i) {
      FullIsNonZero(counters, corpus[picks[m].index].cover, table, i);
      assert !CoveredBy(counters, corpus, table, rest, i);
    }
  }

  lemma FullIsNonZero(counters: bool, cover: seq<Byte>, table: seq<Byte>, i: nat)
    requires |cover| == |table| && Full(counters, cover, table, i)
    ensures i < |table| && table[i] != 0
  {
  }

  lemma BeforeSlot(counters: bool, corpus: seq<Input>, table: seq<Byte>, picks: seq<Pick>, m: nat, i: nat)
    requires Covers(corpus) && |table| == COVER_SIZE && Greedy(counters, corpus, table, picks) && m < |picks|
    ensures PicksInRange(corpus, picks[..m])
    ensures i < picks[m].slot && table[i] != 0 ==> CoveredBy(counters, corpus, table, picks[..m], i)
  {
    assert NextSlot(counters, corpus, table, picks, m);
  }

  /** A slot is covered by a pick before m, by pick m, or by one behind it. */
  lemma CoveredWithout(counters: bool, corpus: seq<Input>, table: seq<Byte>, picks: seq<Pick>, m: nat, i: nat)
    requires Covers(corpus) && |table| == COVER_SIZE && PicksInRange(corpus, picks) && m < |picks|
    ensures PicksInRange(corpus, Drop(picks, m))
    ensures CoveredBy(counters, corpus, table, Drop(picks, m), i) <==>
            CoveredBy(counters, corpus, table, picks[..m], i) || CoveredBy(counters, corpus, table, picks[m + 1..], i)
    ensures CoveredBy(counters, corpus, table, picks, i) <==>
            CoveredBy(counters, corpus, table, Drop(picks, m), i)
              || Full(counters, corpus[picks[m].index].cover, table, i)
  {
    hide Full;
    hide CoveredBy;
    var a, b := picks[..m], picks[m + 1..];
    assert a + [picks[m]] + b == picks;
    CoverSum(counters, corpus, table, a, b, i);
    CoverSum(counters, corpus, table, a, [picks[m]], i);
    CoverSum(counters, corpus, table, a + [picks[m]], b, i);
    CoverOne(counters, corpus, table, picks[m], i);
  }

  lemma CoverSum(counters: bool, corpus: seq<Input>, table: seq<Byte>, a: seq<Pick>, b: seq<Pick>, i: nat)
    requires Covers(corpus) && |table| == COVER_SIZE && PicksInRange(corpus, a) && PicksInRange(corpus, b)
    ensures PicksInRange(corpus, a + b)
    ensures CoveredBy(counters, corpus, table, a + b, i) <==>
            CoveredBy(counters, corpus, table, a, i) || CoveredBy(counters, corpus, table, b, i)
  {
    hide Full;
    var c := a + b;
    if m: nat :| m < |a| && Full(counters, corpus[a[m].index].cover, table, i) {
      assert Full(counters, corpus[c[m].index].cover, table, i);
    }
    if m: nat :| m < |b| && Full(counters, corpus[b[m].index].cover, table, i) {
      assert c[|a| + m] == b[m];
      assert Full(counters, corpus[c[|a| + m].index].cover, table, i);
    }
    if m: nat :| m < |c| && Full(counters, corpus[c[m].index].cover, table, i) {
      if m < |a| {
        assert Full(counters, corpus[a[m].index].cover, table, i);
      } else {
        assert Full(counters, corpus[b[m - |a|].index].cover, table, i);
      }
    }
  }

  lemma CoverOne(counters: bool, corpus: seq<Input>, table: seq<Byte>, p: Pick, i: nat)
    requires Covers(corpus) && |table| == COVER_SIZE && p.index < |corpus| && p.slot < COVER_SIZE
    ensures CoveredBy(counters, corpus, table, [p], i) <==> Full(counters, corpus[p.index].cover, table, i)
  {
    if Full(counters, corpus[p.index].cover, table, i) {
      assert Full(counters, corpus[[p][0].index].cover, table, i);
    }
  }

  /** Input k is the one that is picked for slot i if no earlier pick covers it. */
  predicate Best(counters: bool, corpus: seq<Input>, table: seq<Byte>, i: nat, k: nat)
    requires Covers(corpus) && |table| == COVER_SIZE
  {
    k < |corpus| && BestPick(counters, corpus, table, Pick(i, k))
  }

  /**
    Wherever the best input of a slot does not cover a later slot, the best input of that slot
    does not cover the first.
  */
  predicate Apart(counters: bool, corpus: seq<Input>, table: seq<Byte>)
    requires Covers(corpus) && |table| == COVER_SIZE
  {
    forall i, s, j, k | 0 <= i < s < COVER_SIZE && 0 <= j < |corpus| && 0 <= k < |corpus|
                        && Best(counters, corpus, table, i, j) && Best(counters, corpus, table, s, k)
                        && !Full(counters, corpus[j].cover, table, s) ::
      !Full(counters, corpus[k].cover, table, i)
  }

  /** A property of the corpus that is enough for a minimal favored set. */
  lemma ApartIsMinimal(counters: bool, corpus: seq<Input>, table: seq<Byte>, picks: seq<Pick>)
    requires Covers(corpus) && |table| == COVER_SIZE && Greedy(counters, corpus, table, picks)
    requires AllCovered(counters, corpus, table, picks, COVER_SIZE) && Apart(counters, corpus, table)
    ensures Minimal(counters, corpus, table, picks)
  {
    MinimalExactly(counters, corpus, table, picks);
    forall m | 0 <= m < |picks| ensures HasOwnSlot(counters, corpus, table, picks, m) {
      ApartPick(counters, corpus, table, picks, m);
    }
  }

  lemma ApartPick(counters: bool, corpus: seq<Input>, table: seq<Byte>, picks: seq<Pick>, m: nat)
    requires Covers(corpus) && |table| == COVER_SIZE && Greedy(counters, corpus, table, picks) && m < |picks|
    requires Apart(counters, corpus, table)
    ensures OwnSlot(counters, corpus, table, picks, m, picks[m].slot)
  {
    hide Full, Greedy, BestPick;
    var p, later := picks[m], picks[m + 1..];
    PickIsNew(counters, corpus, table, picks, m);
    assert p == Pick(p.slot, p.index) && Best(counters, corpus, table, p.slot, p.index);
    forall n | 0 <= n < |later| ensures !Full(counters, corpus[later[n].index].cover, table, p.slot) {
      PicksDistinct(counters, corpus, table, picks, m, m + 1 + n);
      PickIsNew(counters, corpus, table, picks, m + 1 + n);
      var q := later[n];
      assert q == picks[m + 1 + n] == Pick(q.slot, q.index) && Best(counters, corpus, table, q.slot, q.index);
    }
    PickCovers(counters, corpus, table, p);
  }

  lemma PickCovers(counters: bool, corpus: seq<Input>, table: seq<Byte>, p: Pick)
    requires Covers(corpus) && |table| == COVER_SIZE && p.index < |corpus| && BestPick(counters, corpus, table, p)
    ensures Full(counters, corpus[p.index].cover, table, p.slot)
  {
  }

  lemma {:induction false} JoinedMarks(counters: bool, corpus: seq<Input>)
    requires |corpus| == 2 && corpus[0].cover == Marked({0}) && corpus[1].cover == Marked({0, 1})
    ensures Covers(corpus) && CoverOf(counters, corpus) == Marked({0, 1})
  {
    var first, table := Marked({0}), Marked({0, 1});
    assert Join(counters, Zeros(), first) == first;
    assert Join(counters, first, table) == table;
    assert corpus[..1][..0] == [] && corpus[..1][0] == corpus[0];
    assert CoverOf(counters, corpus[..1]) == Join(counters, CoverOf(counters, []), first);
    assert CoverOf(counters, corpus) == Join(counters, CoverOf(counters, corpus[..1]), table);
  }

  /**
    The favored set need not be minimal: the first input is the better one for slot 0, but the second
    input, which slot 1 needs, covers both slots.
  */
  lemma {:induction false} GreedyIsNotMinimal(counters: bool, corpus: seq<Input>, picks: seq<Pick>)
    requires |corpus| == 2 && corpus[0].cover == Marked({0}) && corpus[1].cover == Marked({0, 1})
    requires Covers(corpus) && corpus[0].score >= corpus[1].score
    requires Greedy(counters, corpus, CoverOf(counters, corpus), picks)
    requires AllCovered(counters, corpus, CoverOf(counters, corpus), picks, COVER_SIZE)
    ensures picks == [Pick(0, 0), Pick(1, 1)]
    ensures !Minimal(counters, corpus, CoverOf(counters, corpus), picks)
    ensures forall i | 0 <= i < COVER_SIZE && CoverOf(counters, corpus)[i] != 0 ::
              Full(counters, corpus[1].cover, CoverOf(counters, corpus), i)
  {
    JoinedMarks(counters, corpus);
    hide CoverOf;
    var both := [Pick(0, 0), Pick(1, 1)];
    BothGreedy(counters, corpus, both);
    assert picks[..0] == both[..0];
    PicksDetermined(counters, corpus, Marked({0, 1}), picks, both, 0);
  }

  lemma BothGreedy(counters: bool, corpus: seq<Input>, both: seq<Pick>)
    requires |corpus| == 2 && corpus[0].cover == Marked({0}) && corpus[1].cover == Marked({0, 1})
    requires Covers(corpus) && corpus[0].score >= corpus[1].score && both == [Pick(0, 0), Pick(1, 1)]
    ensures var table := Marked({0, 1});
            && PicksInRange(corpus, both) && Greedy(counters, corpus, table, both)
            && AllCovered(counters, corpus, table, both, COVER_SIZE) && !Minimal(counters, corpus, table, both)
            && forall i | 0 <= i < COVER_SIZE && table[i] != 0 :: Full(counters, corpus[1].cover, table, i)
  {
    var table, rest := Marked({0, 1}), Drop(both, 0);
    assert both[..0] == [] && both[..1] == [Pick(0, 0)] && rest == [Pick(1, 1)];
    CoverOne(counters, corpus, table, Pick(0, 0), 0);
    CoverOne(counters, corpus, table, Pick(0, 0), 1);
    assert NextSlot(counters, corpus, table, both, 0) && NextSlot(counters, corpus, table, both, 1);
    assert BestPick(counters, corpus, table, both[0]) && BestPick(counters, corpus, table, both[1]);
    forall i | 0 <= i < COVER_SIZE && table[i] != 0
      ensures CoveredBy(counters, corpus, table, rest, i) && CoveredBy(counters, corpus, table, both, i)
    {
      CoverOne(counters, corpus, table, Pick(1, 1), i);
      assert Full(counters, corpus[both[1].index].cover, table, i);
    }
  }

  /** The candidate of slot i while the picks go on: struck out once a pick covers the slot. */
  predicate Remaining(counters: bool, corpus: seq<Input>, table: seq<Byte>, picks: seq<Pick>, i: nat, best: Candidate,
                      c: Candidate)
    requires Covers(corpus) && |table| == COVER_SIZE && PicksInRange(corpus, picks)
  {
    if CoveredBy(counters, corpus, table, picks, i) then c.score == 0 else c == best
  }

  lemma ExtendPicks(counters: bool, corpus: seq<Input>, table: seq<Byte>, picks: seq<Pick>, p: Pick, best: Candidate)
    requires Covers(corpus) && |table| == COVER_SIZE && Greedy(counters, corpus, table, picks)
    requires p.slot < COVER_SIZE && p.index == best.index && best.score != 0
    requires BestFor(counters, corpus, table, |corpus|, p.slot, best)
    requires !CoveredBy(counters, corpus, table, picks, p.slot) && AllCovered(counters, corpus, table, picks, p.slot)
    ensures Greedy(counters, corpus, table, picks + [p])
    ensures forall i: nat :: CoveredBy(counters, corpus, table, picks + [p], i)
                         <==> (CoveredBy(counters, corpus, table, picks, i) ||
                              Full(counters, corpus[p.index].cover, table, i))
  {
    PickGreedily(counters, corpus, table, picks, p, best);
    hide Full, BestFor, Greedy;
    assert PicksInRange(corpus, picks + [p]);
    forall i: nat
      ensures CoveredBy(counters, corpus, table, picks + [p], i)
         <==> CoveredBy(counters, corpus, table, picks, i) || Full(counters, corpus[p.index].cover, table, i)
    {
      CoverMore(counters, corpus, table, picks, p, i);
    }
  }

  lemma PickGreedily(counters: bool, corpus: seq<Input>, table: seq<Byte>, picks: seq<Pick>, p: Pick, best: Candidate)
    requires Covers(corpus) && |table| == COVER_SIZE && Greedy(counters, corpus, table, picks)
    requires p.slot < COVER_SIZE && p.index == best.index && best.score != 0
    requires BestFor(counters, corpus, table, |corpus|, p.slot, best)
    requires !CoveredBy(counters, corpus, table, picks, p.slot) && AllCovered(counters, corpus, table, picks, p.slot)
    ensures PicksInRange(corpus, picks) && PicksInRange(corpus, picks + [p]) && p.index < |corpus|
    ensures Greedy(counters, corpus, table, picks + [p])
  {
    hide Full, CoveredBy, AllCovered;
    var picks' := picks + [p];
    forall n | 0 <= n < |picks'|
      ensures BestPick(counters, corpus, table, picks'[n]) && NextSlot(counters, corpus, table, picks', n)
    {
      if n < |picks| {
        assert picks'[n] == picks[n] && picks'[..n] == picks[..n];
        assert NextSlot(counters, corpus, table, picks, n);
      } else {
        assert picks'[..n] == picks;
      }
    }
  }

  lemma CoverMore(counters: bool, corpus: seq<Input>, table: seq<Byte>, picks: seq<Pick>, p: Pick, i: nat)
    requires Covers(corpus) && |table| == COVER_SIZE && p.index < |corpus|
    requires PicksInRange(corpus, picks) && PicksInRange(corpus, picks + [p])
    ensures CoveredBy(counters, corpus, table, picks + [p], i)
       <==> CoveredBy(counters, corpus, table, picks, i) || Full(counters, corpus[p.index].cover, table, i)
  {
    hide Full;
    var picks' := picks + [p];
    if CoveredBy(counters, corpus, table, picks, i) {
      var m :| 0 <= m < |picks| && Full(counters, corpus[picks[m].index].cover, table, i);
      assert Full(counters, corpus[picks'[m].index].cover, table, i);
    }
    if Full(counters, corpus[p.index].cover, table, i) {
      assert Full(counters, corpus[picks'[|picks|].index].cover, table, i);
    }
  }

  /** Corpora that differ in the favored flags only. */
  predicate SameButFavored(a: seq<Input>, b: seq<Input>)
  {
    |a| == |b| && forall k | 0 <= k < |a| :: b[k] == a[k].(favored := b[k].favored)
  }

  predicate FavoredArePicked(corpus: seq<Input>, picks: seq<Pick>)
  {
    forall k | 0 <= k < |corpus| :: corpus[k].favored <==> Picked(picks, k)
  }

  /**
    Goes over the slots; the best input of a slot that no pick covers yet is picked, and the slots
    it covers are struck out.
  */
  method PickFavored(counters: bool, inputs: seq<Input>, table: seq<Byte>)
    returns (corpus: seq<Input>, ghost picks: seq<Pick>)
    requires Covers(inputs) && |table| == COVER_SIZE && table == CoverOf(counters, inputs)
    requires forall k | 0 <= k < |inputs| :: inputs[k].score >= 1
    ensures SameButFavored(inputs, corpus) && FavoredArePicked(corpus, picks)
    ensures Greedy(counters, inputs, table, picks)
    ensures AllCovered(counters, inputs, table, picks, COVER_SIZE)
  {
    hide Full, BestFor, CoverOf;
    var cands := ChooseCandidates(counters, inputs, table);
    ghost var best := cands[..];
    corpus := seq(|inputs|, k requires 0 <= k < |inputs| => inputs[k].(favored := false));
    picks := [];
    for ci := 0 to COVER_SIZE
      invariant SameButFavored(inputs, corpus) && FavoredArePicked(corpus, picks)
      invariant Greedy(counters, inputs, table, picks)
      invariant AllCovered(counters, inputs, table, picks, ci)
      invariant forall i | ci <= i < COVER_SIZE :: Remaining(counters, inputs, table, picks, i, best[i], cands[i])
    {
      var cand := cands[ci];
      assert Remaining(counters, inputs, table, picks, ci, best[ci], cand);
      assert BestFor(counters, inputs, table, |inputs|, ci, best[ci]);
      BestFacts(counters, inputs, table, ci, best[ci]);
      if cand.score == 0 {
        SlotDone(counters, inputs, table, picks, ci, best[ci]);
      } else {
        ghost var p := Pick(ci, cand.index);
        ExtendPicks(counters, inputs, table, picks, p, cand);
        ghost var before, old1 := picks, cands[..];
        AddFavored(corpus, picks, p);
        picks := picks + [p];
        corpus := corpus[cand.index := corpus[cand.index].(favored := true)];
        AllCoveredExtends(counters, inputs, table, before, p, ci);
        StrikeOut(counters, corpus[cand.index], table, cands, ci);
        forall i | ci < i < COVER_SIZE ensures Remaining(counters, inputs, table, picks, i, best[i], cands[i]) {
          assert Remaining(counters, inputs, table, before, i, best[i], old1[i]);
        }
      }
    }
  }

  lemma BestFacts(counters: bool, corpus: seq<Input>, table: seq<Byte>, i: nat, best: Candidate)
    requires Covers(corpus) && |table| == COVER_SIZE && i < COVER_SIZE
             && BestFor(counters, corpus, table, |corpus|, i, best)
    ensures best.score != 0 ==> best.index < |corpus| && Full(counters, corpus[best.index].cover, table, i)
  {
  }

  /** A slot without candidate is covered already, or needs no cover. */
  lemma {:induction false} SlotDone(counters: bool, corpus: seq<Input>, table: seq<Byte>, picks: seq<Pick>, ci: nat,
                                    best: Candidate)
    requires Covers(corpus) && |table| == COVER_SIZE && table == CoverOf(counters, corpus)
             && PicksInRange(corpus, picks)
    requires ci < COVER_SIZE && BestFor(counters, corpus, table, |corpus|, ci, best)
    requires AllCovered(counters, corpus, table, picks, ci)
    requires CoveredBy(counters, corpus, table, picks, ci) || best.score == 0
    ensures AllCovered(counters, corpus, table, picks, ci + 1)
  {
    CoverOfIsMax(counters, corpus, ci);
  }

  /** Strikes out the candidates of all slots after ci that the input fully covers. */
  method StrikeOut(counters: bool, inp: Input, table: seq<Byte>, cands: array<Candidate>, ci: nat)
    requires |inp.cover| == |table| == cands.Length == COVER_SIZE && ci < COVER_SIZE
    modifies cands
    ensures forall i | 0 <= i < COVER_SIZE ::
              cands[i] == if i > ci && Full(counters, inp.cover, table, i)
                          then old(cands[i]).(score := 0) else old(cands[i])
  {
    for i := ci + 1 to COVER_SIZE
      invariant forall j | 0 <= j < i ::
                  cands[j] == if j > ci && Full(counters, inp.cover, table, j)
                              then old(cands[j]).(score := 0) else old(cands[j])
      invariant forall j | i <= j < COVER_SIZE :: cands[j] == old(cands[j])
    {
      var c := inp.cover[i];
      if c != 0 && RoundUp(counters, c) == table[i] {
        cands[i] := cands[i].(score := 0);
      }
    }
  }

  lemma AddFavored(corpus: seq<Input>, picks: seq<Pick>, p: Pick)
    requires FavoredArePicked(corpus, picks) && p.index < |corpus|
    ensures FavoredArePicked(corpus[p.index := corpus[p.index].(favored := true)], picks + [p])
  {
    var picks' := picks + [p];
    forall k: nat ensures Picked(picks', k) <==> Picked(picks, k) || k == p.index {
      if Picked(picks, k) {
        var m :| 0 <= m < |picks| && picks[m].index == k;
        assert picks'[m].index == k;
      }
      if k == p.index {
        assert picks'[|picks|].index == k;
      }
    }
  }

  lemma AllCoveredExtends(counters: bool, corpus: seq<Input>, table: seq<Byte>, picks: seq<Pick>, p: Pick, ci: nat)
    requires Covers(corpus) && |table| == COVER_SIZE && ci < COVER_SIZE
    requires PicksInRange(corpus, picks) && PicksInRange(corpus, picks + [p]) && p.index < |corpus|
    requires AllCovered(counters, corpus, table, picks, ci) && Full(counters, corpus[p.index].cover, table, ci)
    requires forall i: nat :: CoveredBy(counters, corpus, table, picks + [p], i)
                         <==> (CoveredBy(counters, corpus, table, picks, i) ||
                              Full(counters, corpus[p.index].cover, table, i))
    ensures AllCovered(counters, corpus, table, picks + [p], ci + 1)
  {
  }

  // ----- Phase 3: running sums ---------------------------------------------------------

  /**
    The weight of an input: its score if favored and 1 otherwise, or the default for inputs newer
    than the last rescoring.
  */
  function Weight(corpus: seq<Input>, rescored: nat, k: nat): int
    requires k < |corpus|
  {
    if k >= rescored then DEF_SCORE else if corpus[k].favored then corpus[k].score else MIN_SCORE
  }

  function SumBefore(corpus: seq<Input>, k: nat): int
    requires k <= |corpus|
  {
    if k == 0 then 0 else corpus[k - 1].runningScoreSum
  }

  /** Every running sum exceeds the one before by the weight of its input, which is between 1 and 1000. */
  predicate SumsOk(corpus: seq<Input>, rescored: nat)
  {
    forall k | 0 <= k < |corpus| :: SumOkAt(corpus, rescored, k)
  }

  predicate SumOkAt(corpus: seq<Input>, rescored: nat, k: nat)
    requires k < |corpus|
  {
    && corpus[k].runningScoreSum == SumBefore(corpus, k) + Weight(corpus, rescored, k)
    && MIN_SCORE <= Weight(corpus, rescored, k) <= MAX_SCORE
  }

  lemma {:induction false} SumsIncrease(corpus: seq<Input>, rescored: nat, j: nat, k: nat)
    requires SumsOk(corpus, rescored) && j <= k <= |corpus|
    ensures SumBefore(corpus, j) + (k - j) <= SumBefore(corpus, k) <= SumBefore(corpus, j) + MAX_SCORE * (k - j)
  {
    if j < k {
      SumsIncrease(corpus, rescored, j, k - 1);
      assert SumOkAt(corpus, rescored, k - 1);
    }
  }

  method SumPhase(inputs: seq<Input>) returns (corpus: seq<Input>)
    requires forall k | 0 <= k < |inputs| :: 1 <= inputs[k].score <= MAX_SCORE
    ensures |corpus| == |inputs|
    ensures forall k | 0 <= k < |corpus| :: corpus[k] == inputs[k].(runningScoreSum := corpus[k].runningScoreSum)
    ensures SumsOk(corpus, |corpus|)
  {
    corpus := inputs;
    var scoreSum := 0;
    for i := 0 to |inputs|
      invariant |corpus| == |inputs|
      invariant forall k | 0 <= k < |corpus| :: corpus[k] == inputs[k].(runningScoreSum := corpus[k].runningScoreSum)
      invariant scoreSum == SumBefore(corpus, i)
      invariant SumsOk(corpus[..i], |inputs|)
    {
      // The loop variable in updateScores is a copy: the score of an input that is not favored stays as it is.
      var inp := corpus[i];
      if !inp.favored {
        inp := inp.(score := MIN_SCORE);
      }
      scoreSum := scoreSum + inp.score;
      ghost var before := corpus;
      corpus := corpus[i := corpus[i].(runningScoreSum := scoreSum)];
      ghost var b, c := before[..i], corpus[..i + 1];
      forall k | 0 <= k < |c| ensures SumOkAt(c, |inputs|, k) {
        assert k > 0 ==> c[k - 1] == before[k - 1] == b[k - 1];
        if k < i {
          assert c[k] == before[k] == b[k] && SumOkAt(b, |inputs|, k);
        }
      }
    }
    assert corpus[..|inputs|] == corpus;
  }
}
