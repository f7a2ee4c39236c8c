/**
  The hub: the corpus with its joined coverage, the coverage seen by any worker, and the handling
  of new inputs, new crashers and periodic rescoring. Everything that readers share is in one
  immutable value that is replaced as a whole.
*/
module Hub {
  import opened Corpus
  import opened Cover

  datatype ROData = ROData(
    corpus: seq<Input>,
    corpusCover: seq<Byte>,
    badInputs: set<Data>,
    suppressions: set<Data>
  )

  predicate DataDistinct(corpus: seq<Input>)
  {
    forall j, k | 0 <= j < k < |corpus| :: corpus[j].data != corpus[k].data
  }

  predicate HasData(corpus: seq<Input>, d: Data)
  {
    exists k :: 0 <= k < |corpus| && corpus[k].data == d
  }

  /** makeCopy of a table. */
  method CopyTable(t: seq<Byte>) returns (a: array<Byte>)
    requires |t| == COVER_SIZE
    ensures fresh(a) && a.Length == COVER_SIZE && a[..] == t
  {
    a := new Byte[COVER_SIZE](i requires 0 <= i < COVER_SIZE && |t| == COVER_SIZE => t[i]);
  }

  /** The copy of a table is joined with a coverage, and its nonzero entries are counted. */
  method RaisedTable(counters: bool, t: seq<Byte>, cover: seq<Byte>) returns (joined: seq<Byte>, nonZero: nat)
    requires |t| == |cover| == COVER_SIZE
    ensures joined == Join(counters, t, cover) && nonZero == NonZero(joined)
  {
    var copy := CopyTable(t);
    nonZero := UpdateMaxCover(counters, copy, cover);
    joined := copy[..];
  }

  /** Compare, copy, join: the maximal coverage after a call, which is the old table unless the coverage is new. */
  method RaisedMaxCover(counters: bool, maxCover: seq<Byte>, cover: seq<Byte>) returns (isNew: bool, raised: seq<Byte>)
    requires |maxCover| == |cover| == COVER_SIZE && Quantized(counters, maxCover)
    ensures isNew == Exceeds(maxCover, cover) && raised == Join(counters, maxCover, cover)
  {
    JoinEffect(counters, maxCover, cover);
    hide Join, Exceeds, Quantized, PointLe, LevelSum;
    raised := maxCover;
    isNew := CompareCover(maxCover, cover);
    if isNew {
      var joined, _ := RaisedTable(counters, maxCover, cover);
      raised := joined;
    }
  }

  /** What holds of the shared data whenever it is published. */
  ghost predicate Consistent(counters: bool, ro: ROData, rescored: nat)
  {
    && Covers(ro.corpus)
    && ro.corpusCover == CoverOf(counters, ro.corpus)
    && |ro.corpus| <= LevelSum(counters, ro.corpusCover)
    && rescored <= |ro.corpus| && SumsOk(ro.corpus, rescored)
    && DataDistinct(ro.corpus)
  }

  /** No data is twice in the corpus. */
  lemma NoDataTwice(counters: bool, ro: ROData, rescored: nat)
    requires Consistent(counters, ro, rescored)
    ensures forall j, k | 0 <= j < |ro.corpus| && 0 <= k < |ro.corpus| && ro.corpus[j].data == ro.corpus[k].data ::
              j == k
  {
    hide CoverOf, SumsOk;
  }

  /**
    The corpus never holds more than ten inputs per slot (one with counters off), so the total
    weight fits in 32 bits, whatever the scores are.
  */
  lemma CorpusBounded(counters: bool, ro: ROData, rescored: nat)
    requires Consistent(counters, ro, rescored)
    ensures |ro.corpus| <= MaxLevel(counters) * COVER_SIZE
    ensures |ro.corpus| <= SumBefore(ro.corpus, |ro.corpus|) <= MAX_SCORE * |ro.corpus| < 0x1_0000_0000
  {
    CoverOfQuantized(counters, ro.corpus);
    LevelSumBound(counters, ro.corpusCover);
    SumsIncrease(ro.corpus, rescored, 0, |ro.corpus|);
  }

  /**
    Every nonzero slot of the joined coverage is reached in full by an input of the corpus, and no
    input is above it.
  */
  lemma CorpusCoverIsExact(counters: bool, ro: ROData, rescored: nat, i: nat)
    requires Consistent(counters, ro, rescored) && i < COVER_SIZE
    ensures forall k | 0 <= k < |ro.corpus| :: RoundUp(counters, ro.corpus[k].cover[i]) <= ro.corpusCover[i]
    ensures ro.corpusCover[i] != 0 ==> exists k ::
              0 <= k < |ro.corpus| && Full(counters, ro.corpus[k].cover, ro.corpusCover, i)
  {
    CoverOfIsMax(counters, ro.corpus, i);
  }

  /** The shared data after an input has been taken. */
  function Taken(counters: bool, ro: ROData, input: Input): ROData
    requires |ro.corpusCover| == |input.cover|
  {
    var scored := input.(score := DEF_SCORE, runningScoreSum := SumBefore(ro.corpus, |ro.corpus|) + DEF_SCORE);
    ro.(corpus := ro.corpus + [scored], corpusCover := Join(counters, ro.corpusCover, input.cover))
  }

  /** The shared data with one more input of the default score, and how many slots it covers. */
  method TakeInto(counters: bool, ro: ROData, input: Input) returns (ro1: ROData, coverSize: nat)
    requires |ro.corpusCover| == |input.cover| == COVER_SIZE
    ensures ro1 == Taken(counters, ro, input) && coverSize == NonZero(ro1.corpusCover)
  {
    var scoreSum := if |ro.corpus| > 0 then ro.corpus[|ro.corpus| - 1].runningScoreSum else 0;
    var scored := input.(score := DEF_SCORE, runningScoreSum := scoreSum + DEF_SCORE);
    var joined;
    joined, coverSize := RaisedTable(counters, ro.corpusCover, input.cover);
    ro1 := ro.(corpus := ro.corpus + [scored], corpusCover := joined);
  }

  /** Taking an input with new coverage and new data keeps the shared data consistent. */
  lemma TakenConsistent(counters: bool, ro: ROData, rescored: nat, input: Input)
    requires Consistent(counters, ro, rescored) && |input.cover| == COVER_SIZE
    requires Exceeds(ro.corpusCover, input.cover)
    requires forall k | 0 <= k < |ro.corpus| :: ro.corpus[k].data != input.data
    ensures Consistent(counters, Taken(counters, ro, input), rescored)
  {
    var ro' := Taken(counters, ro, input);
    var n := |ro.corpus|;
    assert ro'.corpus[..n] == ro.corpus;
    CoverOfQuantized(counters, ro.corpus);
    JoinEffect(counters, ro.corpusCover, input.cover);
    forall k | 0 <= k < |ro'.corpus| ensures SumOkAt(ro'.corpus, rescored, k) {
      if k < n {
        assert SumOkAt(ro.corpus, rescored, k);
        assert ro'.corpus[k] == ro.corpus[k] && (k > 0 ==> ro'.corpus[k - 1] == ro.corpus[k - 1]);
      }
    }
  }

  /** The corpus after rescoring differs in score, favored flag and running sum only. */
  predicate SameButScores(a: seq<Input>, b: seq<Input>)
  {
    |a| == |b|
    && forall k | 0 <= k < |a| ::
      b[k] == a[k].(score := b[k].score, favored := b[k].favored, runningScoreSum := b[k].runningScoreSum)
  }

  lemma RescoredConsistent(counters: bool, ro: ROData, rescored: nat, corpus: seq<Input>)
    requires Consistent(counters, ro, rescored) && SameButScores(ro.corpus, corpus) && SumsOk(corpus, |corpus|)
    ensures Consistent(counters, ro.(corpus := corpus), |corpus|)
  {
    assert forall k | 0 <= k < |corpus| :: corpus[k].cover == ro.corpus[k].cover && corpus[k].data == ro.corpus[k].data;
    CoverOfSame(counters, ro.corpus, corpus);
  }

  /** Greediness and coverage of picks depend on coverage and scores only. */
  lemma SamePicks(counters: bool, a: seq<Input>, b: seq<Input>, table: seq<Byte>, picks: seq<Pick>)
    requires Covers(a) && Covers(b) && |table| == COVER_SIZE && |a| == |b|
    requires forall k | 0 <= k < |a| :: a[k].cover == b[k].cover && a[k].score == b[k].score
    requires Greedy(counters, a, table, picks) && AllCovered(counters, a, table, picks, COVER_SIZE)
    ensures Greedy(counters, b, table, picks) && AllCovered(counters, b, table, picks, COVER_SIZE)
  {
    hide Full;
    forall i | 0 <= i < COVER_SIZE && table[i] != 0 ensures CoveredBy(counters, b, table, picks, i) {
      assert CoveredBy(counters, a, table, picks, i);
      var m :| 0 <= m < |picks| && Full(counters, a[picks[m].index].cover, table, i);
      assert Full(counters, b[picks[m].index].cover, table, i);
    }
  }

  /** How the hub's tables, signatures and counts belong together. */
  ghost predicate Settled(counters: bool, ro: ROData, rescored: nat, maxCover: seq<Byte>, corpusSigs: set<Data>,
                          corpusStale: bool, corpusCoverSize: nat)
  {
    && Consistent(counters, ro, rescored)
    && |maxCover| == COVER_SIZE && Quantized(counters, maxCover)
    && PointLe(ro.corpusCover, maxCover)
    && (forall d :: d in corpusSigs <==> HasData(ro.corpus, d))
    && corpusCoverSize == NonZero(ro.corpusCover)
    && (corpusStale <==> rescored < |ro.corpus|)
  }

  class Hub {
    const counters: bool
    var ro: ROData
    var maxCover: seq<Byte>
    var corpusSigs: set<Data>
    var corpusStale: bool
    var corpusCoverSize: nat
    ghost var rescored: nat

    /** The run invariant. */
    ghost predicate Valid()
      reads this
    {
      Settled(counters, ro, rescored, maxCover, corpusSigs, corpusStale, corpusCoverSize)
    }

    constructor (counters: bool)
      ensures Valid() && this.counters == counters && ro == ROData([], Zeros(), {}, {}) && corpusSigs == {}
    {
      this.counters := counters;
      ro := ROData([], Zeros(), {}, {});
      maxCover := Zeros();
      corpusSigs, corpusStale, corpusCoverSize, rescored := {}, false, 0, 0;
      new;
      NoneNonZero(Zeros());
    }

    /** The preliminary coverage update; true exactly if the coverage was new, and then the maximum grows. */
    method UpdateMaxCoverOf(cover: seq<Byte>) returns (isNew: bool)
      requires Valid() && |cover| == COVER_SIZE
      modifies this`maxCover
      ensures Valid()
      ensures isNew == Exceeds(old(maxCover), cover)
      ensures maxCover == Join(counters, old(maxCover), cover)
      ensures isNew ==> LevelSum(counters, maxCover) > LevelSum(counters, old(maxCover))
    {
      JoinEffect(counters, maxCover, cover);
      JoinAbove(ro.corpusCover, maxCover, Join(counters, maxCover, cover));
      hide Join, Consistent, PointLe, Exceeds, Quantized;
      isNew, maxCover := RaisedMaxCover(counters, maxCover, cover);
    }

    /**
      A new input from a worker: taken exactly if it has coverage beyond the corpus and its data is
      not known. Taking it appends it with the default weight and raises the joined coverage.
    */
    method NewInput(input: Input) returns (taken: bool)
      requires Valid() && |input.cover| == COVER_SIZE
      modifies this
      ensures Valid()
      ensures taken <==> Exceeds(old(ro.corpusCover), input.cover) && input.data !in old(corpusSigs)
      ensures !taken ==> ro == old(ro) && maxCover == old(maxCover)
      ensures !taken ==> corpusSigs == old(corpusSigs) && corpusStale == old(corpusStale)
      ensures taken ==>
              ro == Taken(counters, old(ro), input) && corpusStale && corpusSigs == old(corpusSigs) + {input.data}
      ensures taken ==> maxCover == Join(counters, old(maxCover), input.cover) && !Exceeds(ro.corpusCover, input.cover)
      ensures LevelSum(counters, ro.corpusCover) >= LevelSum(counters, old(ro.corpusCover)) + if taken then 1 else 0
    {
      hide Join, Consistent, PointLe, Exceeds, Quantized, LevelSum, HasData;
      ConsistentCovers(counters, ro, rescored);
      taken := CompareCover(ro.corpusCover, input.cover);
      if !taken {
        return false;
      }
      if input.data in corpusSigs {
        return false;
      }
      Take(input);
    }

    /** Takes an input that passed both checks. */
    method Take(input: Input)
      requires Valid() && |input.cover| == |ro.corpusCover| == |maxCover| == COVER_SIZE
      requires Exceeds(ro.corpusCover, input.cover) && input.data !in corpusSigs
      modifies this
      ensures Valid() && corpusStale && corpusSigs == old(corpusSigs) + {input.data}
      ensures ro == Taken(counters, old(ro), input) && maxCover == Join(counters, old(maxCover), input.cover)
      ensures !Exceeds(ro.corpusCover, input.cover)
      ensures LevelSum(counters, ro.corpusCover) >= LevelSum(counters, old(ro.corpusCover)) + 1
    {
      hide Join, Exceeds, LevelSum, NonZero, Settled, Quantized, Consistent, PointLe, HasData, Taken;
      TakenSettled(counters, ro, rescored, maxCover, corpusSigs, corpusStale, corpusCoverSize, input);
      var _, max1 := RaisedMaxCover(counters, maxCover, input.cover);
      var ro1, size1 := TakeInto(counters, ro, input);
      corpusSigs, corpusStale, maxCover := corpusSigs + {input.data}, true, max1;
      ro, corpusCoverSize := ro1, size1;
    }

    /**
      A new crasher: hanging inputs are remembered as bad, and its suppression is remembered
      unless duplicates are wanted.
    */
    method NewCrasher(data: Data, suppression: Data, hanging: bool, flagDup: bool)
      requires Valid()
      modifies this`ro
      ensures Valid()
      ensures ro == old(ro).(badInputs := if hanging then old(ro.badInputs) + {data} else old(ro.badInputs),
                             suppressions := if flagDup then old(ro.suppressions)
                               else old(ro.suppressions) + {suppression})
    {
      if hanging || !flagDup {
        var ro1 := ro;
        if hanging {
          ro1 := ro1.(badInputs := ro.badInputs + {data});
        }
        if !flagDup {
          ro1 := ro1.(suppressions := ro.suppressions + {suppression});
        }
        ro := ro1;
      }
    }

    /**
      Rescoring. The favored inputs are exactly the picks of a greedy choice: each pick has the
      highest score of all inputs that fully cover its slot, no earlier pick covers that slot, and
      together they fully cover every slot that the corpus covers.
    */
    method UpdateScores() returns (ghost picks: seq<Pick>)
      requires Valid() && ro.corpus != []
      modifies this`ro, this`rescored, this`corpusStale
      ensures Valid() && !corpusStale
      ensures ro == old(ro).(corpus := ro.corpus) && SameButScores(old(ro.corpus), ro.corpus)
      ensures FavoredArePicked(ro.corpus, picks)
      ensures Greedy(counters, ro.corpus, ro.corpusCover, picks)
      ensures AllCovered(counters, ro.corpus, ro.corpusCover, picks, COVER_SIZE)
      ensures rescored == |ro.corpus| && SumsOk(ro.corpus, |ro.corpus|)
      ensures forall k | 0 <= k < |ro.corpus| :: 1 <= ro.corpus[k].score <= 900
      ensures Scored(old(ro.corpus), ro.corpus)
    {
      hide Greedy, AllCovered, Consistent, CoverOf, SumsOk, FavoredArePicked, PointLe, Quantized, HasData,
           ScoreOf, WrapSum, Average;
      ConsistentCovers(counters, ro, rescored);
      var scored := ScorePhase(ro.corpus);
      assert Covers(scored) && SameCovers(ro.corpus, scored);
      CoverOfSame(counters, ro.corpus, scored);
      var favored;
      favored, picks := PickFavored(counters, scored, ro.corpusCover);
      var corpus := SumPhase(favored);
      Rescored(counters, ro, rescored, scored, favored, corpus, picks);
      SameData(ro.corpus, corpus);
      assert forall k | 0 <= k < |corpus| :: corpus[k].score == favored[k].score == scored[k].score;
      ro := ro.(corpus := corpus);
      rescored := |corpus|;
      corpusStale := false;
    }

    /** The sync tick: rescoring if inputs have been taken since the last time. */
    method SyncTick()
      requires Valid()
      modifies this`ro, this`rescored, this`corpusStale
      ensures Valid() && !corpusStale && SameButScores(old(ro.corpus), ro.corpus)
      ensures SumsOk(ro.corpus, |ro.corpus|)
    {
      if corpusStale {
        var _ := UpdateScores();
      }
    }
  }

  lemma {:induction false} NoneNonZero(t: seq<Byte>)
    requires forall i | 0 <= i < |t| :: t[i] == 0
    ensures NonZero(t) == 0
  {
    if t != [] {
      NoneNonZero(t[..|t| - 1]);
    }
  }

  lemma DataOfTaken(a: seq<Input>, b: seq<Input>, data: Data)
    requires |b| == |a| + 1 && b[..|a|] == a && b[|a|].data == data
    ensures forall d :: HasData(b, d) <==> d == data || HasData(a, d)
  {
    forall d ensures HasData(b, d) <==> d == data || HasData(a, d) {
      if HasData(a, d) {
        var k :| 0 <= k < |a| && a[k].data == d;
        assert b[k] == b[..|a|][k];
      }
      if HasData(b, d) {
        var k :| 0 <= k < |b| && b[k].data == d;
        assert k < |a| ==> a[k] == b[..|a|][k];
      }
      assert b[|a|].data == data;
    }
  }

  lemma JoinAbove(a: seq<Byte>, b: seq<Byte>, c: seq<Byte>)
    requires PointLe(a, b) && PointLe(b, c)
    ensures PointLe(a, c)
  {
  }

  lemma {:induction false} TakenSettled(counters: bool, ro: ROData, rescored: nat, maxCover: seq<Byte>,
                                        corpusSigs: set<Data>,
                     corpusStale: bool, corpusCoverSize: nat, input: Input)
    requires Settled(counters, ro, rescored, maxCover, corpusSigs, corpusStale, corpusCoverSize)
    requires |input.cover| == |ro.corpusCover| == |maxCover| == COVER_SIZE
    requires Exceeds(ro.corpusCover, input.cover) && input.data !in corpusSigs
    ensures var ro1, max1 := Taken(counters, ro, input), Join(counters, maxCover, input.cover);
            && Settled(counters, ro1, rescored, max1, corpusSigs + {input.data}, true, NonZero(ro1.corpusCover))
            && !Exceeds(ro1.corpusCover, input.cover) && Quantized(counters, maxCover)
            && LevelSum(counters, ro1.corpusCover) >= LevelSum(counters, ro.corpusCover) + 1
  {
    hide Join, Consistent, PointLe, Exceeds, Quantized, LevelSum, HasData, NonZero;
    TakenEffect(counters, ro, rescored, maxCover, input);
    DataOfTaken(ro.corpus, Taken(counters, ro, input).corpus, input.data);
    ConsistentCovers(counters, ro, rescored);
  }

  lemma {:induction false} TakenEffect(counters: bool, ro: ROData, rescored: nat, maxCover: seq<Byte>, input: Input)
    requires Consistent(counters, ro, rescored) && |input.cover| == |maxCover| == COVER_SIZE
    requires Quantized(counters, maxCover) && PointLe(ro.corpusCover, maxCover)
    requires Exceeds(ro.corpusCover, input.cover) && !HasData(ro.corpus, input.data)
    ensures var ro1, max1 := Taken(counters, ro, input), Join(counters, maxCover, input.cover);
            && Consistent(counters, ro1, rescored) && Quantized(counters, max1) && PointLe(ro1.corpusCover, max1)
            && !Exceeds(ro1.corpusCover, input.cover)
            && LevelSum(counters, ro1.corpusCover) >= LevelSum(counters, ro.corpusCover) + 1
  {
    CoverOfQuantized(counters, ro.corpus);
    JoinEffect(counters, ro.corpusCover, input.cover);
    JoinEffect(counters, maxCover, input.cover);
    TakenConsistent(counters, ro, rescored, input);
    JoinMonotone(counters, ro.corpusCover, maxCover, input.cover);
  }

  /** The three phases together. */
  lemma Rescored(counters: bool, ro: ROData, rescored: nat, scored: seq<Input>, favored: seq<Input>,
                 corpus: seq<Input>, picks: seq<Pick>)
    requires Consistent(counters, ro, rescored)
    requires |scored| == |ro.corpus| && forall k | 0 <= k < |scored| ::
               scored[k] == ro.corpus[k].(score := scored[k].score)
    requires SameButFavored(scored, favored) && FavoredArePicked(favored, picks)
    requires Greedy(counters, scored, ro.corpusCover, picks)
             && AllCovered(counters, scored, ro.corpusCover, picks, COVER_SIZE)
    requires |corpus| == |favored| && SumsOk(corpus, |corpus|)
    requires forall k | 0 <= k < |corpus| :: corpus[k] == favored[k].(runningScoreSum := corpus[k].runningScoreSum)
    ensures SameButScores(ro.corpus, corpus) && Consistent(counters, ro.(corpus := corpus), |corpus|)
    ensures FavoredArePicked(corpus, picks)
    ensures Greedy(counters, corpus, ro.corpusCover, picks)
            && AllCovered(counters, corpus, ro.corpusCover, picks, COVER_SIZE)
  {
    hide Greedy, AllCovered, Consistent, CoverOf;
    assert forall k | 0 <= k < |corpus| ::
        corpus[k].cover == scored[k].cover && corpus[k].score == scored[k].score
          && corpus[k].favored == favored[k].favored;
    forall k | 0 <= k < |corpus|
      ensures corpus[k] == ro.corpus[k].(score := corpus[k].score, favored := corpus[k].favored,
                                         runningScoreSum := corpus[k].runningScoreSum)
    {
      assert scored[k] == ro.corpus[k].(score := scored[k].score);
      assert favored[k] == scored[k].(favored := favored[k].favored);
    }
    RescoredConsistent(counters, ro, rescored, corpus);
    ConsistentCovers(counters, ro, rescored);
    SamePicks(counters, scored, corpus, ro.corpusCover, picks);
  }

  lemma SameData(a: seq<Input>, b: seq<Input>)
    requires SameButScores(a, b)
    ensures forall d :: HasData(a, d) <==> HasData(b, d)
  {
    forall d ensures HasData(a, d) <==> HasData(b, d) {
      if HasData(a, d) {
        var k :| 0 <= k < |a| && a[k].data == d;
        assert b[k].data == d;
      }
      if HasData(b, d) {
        var k :| 0 <= k < |b| && b[k].data == d;
        assert a[k].data == d;
      }
    }
  }

  lemma {:induction false} ConsistentCovers(counters: bool, ro: ROData, rescored: nat)
    requires Consistent(counters, ro, rescored)
    ensures Covers(ro.corpus) && ro.corpusCover == CoverOf(counters, ro.corpus) && |ro.corpusCover| == COVER_SIZE
    ensures rescored <= |ro.corpus|
  {
  }

  // ----- A favored set that is not minimal ----------------------------------------------

  function Quick(): Input
  {
    Input(true, [0], Marked({0}), 1, 0, 0, 1, false, 0, 0)
  }

  function Slow(): Input
  {
    Input(true, [1], Marked({0, 1}), 2, 0, 0, 100, false, 0, 0)
  }

  lemma QuickFirst(a: seq<Input>, b: seq<Input>)
    requires |a| == |b| == 2 && a[0].execTime == 1 && a[0].coverSize == 1 && a[1].execTime == 100 && a[1].coverSize == 2
    requires forall k | 0 <= k < 2 :: a[k].depth == a[k].res == 0
    requires Scored(a, b)
    ensures b[0].score == 30 && b[1].score == 15
  {
    var times, sizes := Times(a), Sizes(a);
    assert times[..1][..0] == [] && sizes[..1][..0] == [];
    assert WrapSum([]) == 0 && WrapSum(times[..1]) == 1 && WrapSum(sizes[..1]) == 1;
    assert WrapSum(times) == 101 && WrapSum(sizes) == 3;
    assert RatioOf(1, 50) == Finite(1.0 / 50.0) && RatioOf(100, 50) == Finite(2.0);
    assert RatioOf(1, 1) == Finite(1.0) && RatioOf(2, 1) == Finite(2.0);
    assert RawScore(Finite(1.0 / 50.0), Finite(1.0), 0, 0) == 30.0;
    assert RawScore(Finite(2.0), Finite(2.0), 0, 0) == 15.0;
  }

  /**
    An execution whose favored set is not minimal: a quick input that covers slot 0 and a slow one
    that covers slots 0 and 1 are both favored, although the slow one alone covers everything.
  */
  method FavoredNotMinimal(counters: bool) returns (hub: Hub)
    ensures hub.Valid() && hub.counters == counters && |hub.ro.corpus| == 2
    ensures hub.ro.corpus[0].favored && hub.ro.corpus[1].favored
    ensures forall i | 0 <= i < COVER_SIZE && hub.ro.corpusCover[i] != 0 ::
              Full(counters, hub.ro.corpus[1].cover, hub.ro.corpusCover, i)
  {
    hide Greedy, AllCovered, Consistent, CoverOf, SumsOk, PointLe, Quantized, HasData, Scored, Full, WrapSum;
    hub := TakeBoth(counters);
    ghost var corpus := hub.ro.corpus;
    ghost var picks := hub.UpdateScores();
    QuickFirst(corpus, hub.ro.corpus);
    ConsistentCovers(counters, hub.ro, hub.rescored);
    GreedyIsNotMinimal(counters, hub.ro.corpus, picks);
    assert picks[0].index == 0 && picks[1].index == 1;
  }

  method TakeBoth(counters: bool) returns (hub: Hub)
    ensures fresh(hub) && hub.Valid() && hub.counters == counters && |hub.ro.corpus| == 2
    ensures hub.ro.corpus[0] == Quick().(score := DEF_SCORE, runningScoreSum := DEF_SCORE)
    ensures hub.ro.corpus[1] == Slow().(score := DEF_SCORE, runningScoreSum := 2 * DEF_SCORE)
  {
    hide Settled, Consistent, CoverOf, SumsOk, PointLe, Quantized, HasData, Join, LevelSum, Exceeds;
    hub := new Hub(counters);
    BothAreNew(counters);
    assert Quick().data != Slow().data;
    var first := hub.NewInput(Quick());
    assert first && |hub.ro.corpus| == 1;
    var second := hub.NewInput(Slow());
    assert second;
  }

  lemma BothAreNew(counters: bool)
    ensures Exceeds(Zeros(), Quick().cover) && Exceeds(Join(counters, Zeros(), Quick().cover), Slow().cover)
  {
    assert Quick().cover[0] > Zeros()[0];
    assert Slow().cover[1] > Join(counters, Zeros(), Quick().cover)[1];
  }
}
