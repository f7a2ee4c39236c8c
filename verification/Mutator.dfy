/** Picking the input to mutate: a random number below the total weight, and a binary search in the running sums. */
module Mutator {
  import opened Corpus
  import Hub
  import opened Pcg

  /** The number w falls into the range of input k. */
  predicate Selects(corpus: seq<Input>, w: int, k: int)
  {
    0 <= k < |corpus| && SumBefore(corpus, k) <= w < corpus[k].runningScoreSum
  }

  /** sort.Search for the first running sum above w. */
  method Search(corpus: seq<Input>, w: nat) returns (idx: nat)
    requires w < SumBefore(corpus, |corpus|)
    ensures Selects(corpus, w, idx)
  {
    var i, j: nat := 0, |corpus|;
    while i < j
      invariant 0 <= i <= j <= |corpus|
      invariant SumBefore(corpus, i) <= w
      invariant j < |corpus| ==> w < corpus[j].runningScoreSum
    {
      var h := (i + j) / 2;
      if corpus[h].runningScoreSum > w {
        j := h;
      } else {
        i := h + 1;
      }
    }
    idx := i;
  }

  /** No number selects two inputs: the ranges are disjoint. */
  lemma SelectsOnce(corpus: seq<Input>, rescored: nat, w: int, j: int, k: int)
    requires SumsOk(corpus, rescored) && Selects(corpus, w, j) && Selects(corpus, w, k)
    ensures j == k
  {
    if j < k {
      SumsIncrease(corpus, rescored, j + 1, k);
    } else if k < j {
      SumsIncrease(corpus, rescored, k + 1, j);
    }
  }

  /** The raw 32-bit draws that the sampler accepts for the bound n and maps into [lo, hi). */
  ghost function RawDraws(n: nat, lo: nat, hi: nat): set<nat>
    requires 0 < n < TWO32
  {
    set v: nat | v < TWO32 && Accepts(v, n) && lo <= Scaled(v, n) < hi
  }

  lemma {:induction false} RawDrawsSize(n: nat, lo: nat, hi: nat)
    requires 0 < n < TWO32 && lo <= hi <= n
    ensures |RawDraws(n, lo, hi)| == (hi - lo) * (TWO32 / n)
  {
    hide Accepts, Scaled;
    if lo == hi {
      assert RawDraws(n, lo, hi) == {};
    } else {
      var q := TWO32 / n;
      RawDrawsSize(n, lo, hi - 1);
      ExactlyUniform(n, hi - 1);
      assert RawDraws(n, lo, hi) == RawDraws(n, lo, hi - 1) + DrawsFor(n, hi - 1);
      assert RawDraws(n, lo, hi - 1) !! DrawsFor(n, hi - 1);
      assert (hi - lo) * q == (hi - 1 - lo) * q + q;
    }
  }

  /** The raw draws that make the mutator pick input k. */
  ghost function DrawsPicking(corpus: seq<Input>, n: nat, k: nat): set<nat>
    requires 0 < n < TWO32 && k < |corpus|
  {
    set v: nat | v < TWO32 && Accepts(v, n) && Selects(corpus, Scaled(v, n), k)
  }

  /**
    The pick is weighted exactly: of all raw 32-bit draws, precisely weight * floor(2^32 / total) are
    accepted and pick input k, where the weight is the score of a favored input, 1 for any other
    rescored input, and 10 for an input taken since.
  */
  lemma PickedInProportion(counters: bool, ro: Hub.ROData, rescored: nat, k: nat)
    requires Hub.Consistent(counters, ro, rescored) && k < |ro.corpus|
    ensures var total := SumBefore(ro.corpus, |ro.corpus|);
            0 < total < TWO32 && |DrawsPicking(ro.corpus, total, k)| == Weight(ro.corpus, rescored, k) * (TWO32 / total)
  {
    Hub.CorpusBounded(counters, ro, rescored);
    hide Hub.Consistent, Accepts, Scaled;
    SumsHold(counters, ro, rescored);
    var total := SumBefore(ro.corpus, |ro.corpus|);
    SumsIncrease(ro.corpus, rescored, 0, k);
    SumsIncrease(ro.corpus, rescored, k + 1, |ro.corpus|);
    assert SumOkAt(ro.corpus, rescored, k);
    var lo, hi := SumBefore(ro.corpus, k), SumBefore(ro.corpus, k + 1);
    RawDrawsSize(total, lo, hi);
    assert DrawsPicking(ro.corpus, total, k) == RawDraws(total, lo, hi);
  }

  lemma SumsHold(counters: bool, ro: Hub.ROData, rescored: nat)
    requires Hub.Consistent(counters, ro, rescored)
    ensures SumsOk(ro.corpus, rescored)
  {
  }

  /**
    The choice of mutate's input from a consistent corpus: the bound always fits the generator, so
    the draw never panics, and the search always finds the input whose range holds the drawn number.
  */
  method PickInput(r: Rand, counters: bool, ro: Hub.ROData, ghost rescored: nat)
    returns (idx: nat, w: nat, ghost draws: nat)
    requires r.Valid() && Hub.Consistent(counters, ro, rescored) && ro.corpus != []
    modifies r`state
    ensures r.Valid()
    ensures 0 < SumBefore(ro.corpus, |ro.corpus|) < TWO32
    ensures FirstAccepted(old(r.state), r.inc, SumBefore(ro.corpus, |ro.corpus|), draws, w)
    ensures Selects(ro.corpus, w, idx)
  {
    Hub.CorpusBounded(counters, ro, rescored);
    var scoreSum := ro.corpus[|ro.corpus| - 1].runningScoreSum;
    var n;
    n, draws := r.Intn(scoreSum);
    w := n.value;
    idx := Search(ro.corpus, w);
  }
}
