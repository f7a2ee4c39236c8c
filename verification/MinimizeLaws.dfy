/**
  What each phase of a minimization achieves, for a deterministic predicate that need not be monotone.
*/
module MinimizeLaws {
  import opened Cover
  import opened Minimize

  // ----- The tail ----------------------------------------------------------------------

  /** n, n/2, n/4, ..., 1 */
  function Halvings(n: nat): set<nat>
  {
    if n == 0 then {} else {n} + Halvings(n / 2)
  }

  /** None of the lengths n, n/2, ..., 1 can be cut off. */
  ghost predicate NoCut(p: Data -> bool, d: Data, n: nat)
  {
    forall m | m in Halvings(n) && m < |d| :: !p(d[..|d| - m])
  }

  /** Some prefix is left, of which the last byte cannot be cut; if that is all, none of the lengths could be cut. */
  lemma {:induction false} CutLaw(verdict: Verdict, p: Data -> bool, r: Run, n: nat)
    requires Judges(verdict, p)
    ensures var c := CutRun(verdict, r, n).res;
            c <= r.res && (n > 0 && |c| > 1 ==> !p(c[..|c| - 1])) && (c == r.res ==> NoCut(p, c, n))
    decreases n, |r.res|
  {
    hide Judges, CutRun, NoCut;
    CutStep(verdict, r, n);
    if n == 0 {
      NoCutMore(p, r.res, n);
    } else if |r.res| <= n {
      CutLaw(verdict, p, r, n / 2);
      NoCutMore(p, r.res, n);
    } else {
      var candidate := r.res[..|r.res| - n];
      var next := Tried(verdict, r, candidate);
      Judged(verdict, p, r, candidate);
      if p(candidate) {
        CutLaw(verdict, p, next, n);
        assert candidate <= r.res;
      } else {
        CutLaw(verdict, p, next, n / 2);
        if n == 1 {
          CutStep(verdict, next, 0);
        }
        NoCutMore(p, r.res, n);
      }
    }
  }

  lemma CutStep(verdict: Verdict, r: Run, n: nat)
    ensures CutRun(verdict, r, n) ==
            if n == 0 then r
            else if |r.res| <= n then CutRun(verdict, r, n / 2)
            else
              var candidate := r.res[..|r.res| - n];
              CutRun(verdict, Tried(verdict, r, candidate), if Passes(verdict, r, candidate) then n else n / 2)
  {
  }

  lemma NoCutMore(p: Data -> bool, d: Data, n: nat)
    ensures NoCut(p, d, 0)
    ensures NoCut(p, d, n / 2) && (n < |d| ==> !p(d[..|d| - n])) ==> NoCut(p, d, n)
  {
  }

  // ----- Single bytes ------------------------------------------------------------------

  /** The byte at k of what is left was at m, and could not be removed when all behind it was still there. */
  predicate NeededAt(p: Data -> bool, start: Data, b: Data, k: nat, m: nat)
    requires k < |b|
  {
    k <= m < |start| && b[k] == start[m] && !p(b[..k] + start[m + 1..])
  }

  ghost predicate Needed(p: Data -> bool, start: Data, b: Data, k: nat)
    requires k < |b|
  {
    exists m: nat :: NeededAt(p, start, b, k, m)
  }

  ghost predicate AllNeeded(p: Data -> bool, start: Data, b: Data, i: nat)
  {
    forall k | i <= k < |b| :: Needed(p, start, b, k)
  }

  /** No byte from number i on can be removed. */
  ghost predicate NoneFrom(p: Data -> bool, b: Data, i: nat)
  {
    forall k | i <= k < |b| :: !AcceptsWithout(p, b, k)
  }

  lemma {:induction false} BytesLaw(verdict: Verdict, p: Data -> bool, r: Run, i: nat)
    requires Judges(verdict, p) && i <= |r.res|
    ensures var b := BytesRun(verdict, r, i).res;
            && i <= |b| <= |r.res| && b[..i] == r.res[..i] && AllNeeded(p, r.res, b, i)
            && (|b| == |r.res| ==> b == r.res && NoneFrom(p, b, i))
    decreases |r.res| - i
  {
    hide AllNeeded, NoneFrom, Without, Judges;
    if i >= |r.res| {
      NothingFrom(p, r.res, r.res, i);
      BytesEnd(verdict, r, i);
    } else {
      var candidate := Without(r.res, i, i + 1);
      var next := Tried(verdict, r, candidate);
      var b := BytesRun(verdict, r, i).res;
      Judged(verdict, p, r, candidate);
      BytesStep(verdict, r, i, candidate, next);
      if p(candidate) {
        WithoutParts(r.res, i);
        BytesLaw(verdict, p, next, i);
        BytesAccepted(p, r.res, b, i);
      } else {
        BytesLaw(verdict, p, next, i + 1);
        BytesRejected(p, r.res, b, i);
      }
    }
  }

  lemma Judged(verdict: Verdict, p: Data -> bool, r: Run, candidate: Data)
    requires Judges(verdict, p)
    ensures Passes(verdict, r, candidate) == verdict(|r.log|, candidate) == p(candidate)
  {
  }

  lemma NothingFrom(p: Data -> bool, start: Data, b: Data, i: nat)
    requires i >= |b|
    ensures AllNeeded(p, start, b, i) && NoneFrom(p, b, i)
  {
  }

  lemma WithoutParts(d: Data, i: nat)
    requires i < |d|
    ensures |Without(d, i, i + 1)| == |d| - 1 && Without(d, i, i + 1)[..i] == d[..i]
  {
  }

  lemma BytesAccepted(p: Data -> bool, start: Data, b: Data, i: nat)
    requires i < |start| && AllNeeded(p, Without(start, i, i + 1), b, i)
    ensures AllNeeded(p, start, b, i)
  {
    var candidate := Without(start, i, i + 1);
    forall k | i <= k < |b| ensures Needed(p, start, b, k) {
      assert Needed(p, candidate, b, k);
      var m: nat :| NeededAt(p, candidate, b, k, m);
      assert candidate[m + 1..] == start[m + 2..];
      assert NeededAt(p, start, b, k, m + 1);
    }
  }

  lemma BytesRejected(p: Data -> bool, start: Data, b: Data, i: nat)
    requires i < |start| && i < |b| && b[..i + 1] == start[..i + 1] && !p(Without(start, i, i + 1))
    requires AllNeeded(p, start, b, i + 1)
    ensures b[..i] == start[..i] && AllNeeded(p, start, b, i)
    ensures b == start && NoneFrom(p, b, i + 1) ==> NoneFrom(p, b, i)
  {
    assert b[..i] == b[..i + 1][..i] && start[..i] == start[..i + 1][..i];
    assert b[i] == b[..i + 1][i] == start[..i + 1][i];
    assert NeededAt(p, start, b, i, i);
    assert b == start ==> !AcceptsWithout(p, b, i);
  }

  // ----- Ranges ------------------------------------------------------------------------

  ghost predicate CannotGo(p: Data -> bool, d: Data, i: nat, j: nat)
  {
    i + 1 < j <= |d| ==> !p(Without(d, i, j))
  }

  /** No range of two or more bytes can be removed, from the one from i to j on. */
  ghost predicate NoRange(p: Data -> bool, d: Data, i: nat, j: int)
  {
    forall i': nat, j': nat | i' > i || (i' == i && j' <= j) :: CannotGo(p, d, i', j')
  }

  /** No range that starts at s can be removed, but for the longest, and none that starts later. */
  ghost predicate NoLater(p: Data -> bool, d: Data, s: nat)
  {
    NoRange(p, d, s, |d| - 1)
  }

  lemma WithoutShorter(d: Data, i: nat, j: nat)
    requires i < j <= |d|
    ensures |Without(d, i, j)| < |d|
  {
  }

  /**
    Either nothing is accepted, and then no range can be removed, or after the last accepted removal,
    of a range that started at s, no range can be removed that starts there (but the longest) or later.
  */
  lemma {:induction false} RangesLaw(verdict: Verdict, p: Data -> bool, r: Run, i: nat, j: int)
    requires Judges(verdict, p) && j <= |r.res|
    ensures var d := RangesRun(verdict, r, i, j).res;
            if |d| == |r.res| then d == r.res && NoRange(p, d, i, j)
            else |d| < |r.res| && p(d) && exists s: nat :: s >= i && NoLater(p, d, s)
    decreases |r.res|, |r.res| - i, j
  {
    hide NoRange, Without, Judges;
    var d := RangesRun(verdict, r, i, j).res;
    if j > i + 1 {
      var candidate := Without(r.res, i, j);
      var next := Tried(verdict, r, candidate);
      WithoutShorter(r.res, i, j);
      Judged(verdict, p, r, candidate);
      RangesStep(verdict, r, i, j, candidate, next);
      if p(candidate) {
        RangesLaw(verdict, p, next, i, |candidate| - 1);
        if |d| == |candidate| {
          assert NoLater(p, d, i);
        }
      } else {
        RangesLaw(verdict, p, next, i, j - 1);
        if |d| == |r.res| {
          NoRangeBefore(p, d, i, j);
        }
      }
    } else {
      RangesNext(verdict, r, i, j);
      if i + 1 < |r.res| - 1 {
        RangesLaw(verdict, p, r, i + 1, |r.res|);
        if |d| == |r.res| {
          NoRangeNext(p, d, i, j);
        }
      } else {
        NoRangeLeft(p, d, i, j);
      }
    }
  }

  lemma NoRangeBefore(p: Data -> bool, d: Data, i: nat, j: nat)
    requires i + 1 < j <= |d| && NoRange(p, d, i, j - 1) && !p(Without(d, i, j))
    ensures NoRange(p, d, i, j)
  {
    assert CannotGo(p, d, i, j);
  }

  lemma NoRangeNext(p: Data -> bool, d: Data, i: nat, j: int)
    requires j <= i + 1 && NoRange(p, d, i + 1, |d|)
    ensures NoRange(p, d, i, j)
  {
    forall i': nat, j': nat | i' > i || (i' == i && j' <= j) ensures CannotGo(p, d, i', j') {
    }
  }

  lemma NoRangeLeft(p: Data -> bool, d: Data, i: nat, j: int)
    requires j <= i + 1 && i + 1 >= |d| - 1
    ensures NoRange(p, d, i, j)
  {
  }

  // ----- Zeros -------------------------------------------------------------------------

  /** Byte k is '0' exactly if it was, or if the predicate accepts that with all behind it unchanged. */
  predicate ZeroedAt(p: Data -> bool, start: Data, z: Data, k: nat)
    requires k < |z| == |start|
  {
    if start[k] == ZERO || p(z[..k] + [ZERO] + start[k + 1..]) then z[k] == ZERO else z[k] == start[k]
  }

  lemma {:induction false} ZerosLaw(verdict: Verdict, p: Data -> bool, r: Run, i: nat)
    requires Judges(verdict, p) && i <= |r.res|
    ensures var z := ZerosRun(verdict, r, i).res;
            && |z| == |r.res| && z[..i] == r.res[..i]
            && forall k | i <= k < |z| :: ZeroedAt(p, r.res, z, k)
    decreases |r.res| - i
  {
    hide Judges, ZeroedAt, ZerosRun;
    ZerosStep(verdict, r, i);
    if i < |r.res| {
      var z := ZerosRun(verdict, r, i).res;
      var candidate := r.res[i := ZERO];
      Judged(verdict, p, r, candidate);
      if r.res[i] == ZERO {
        ZerosLaw(verdict, p, r, i + 1);
      } else {
        ZerosLaw(verdict, p, Tried(verdict, r, candidate), i + 1);
      }
      ZerosJoin(p, r.res, if r.res[i] != ZERO && p(candidate) then candidate else r.res, z, i);
    }
  }

  lemma ZerosStep(verdict: Verdict, r: Run, i: nat)
    ensures ZerosRun(verdict, r, i) ==
            if i >= |r.res| then r
            else if r.res[i] == ZERO then ZerosRun(verdict, r, i + 1)
            else ZerosRun(verdict, Tried(verdict, r, r.res[i := ZERO]), i + 1)
  {
  }

  lemma ZerosJoin(p: Data -> bool, start: Data, next: Data, z: Data, i: nat)
    requires i < |start| == |z| == |next| && z[..i + 1] == next[..i + 1]
    requires next == if start[i] != ZERO && p(start[i := ZERO]) then start[i := ZERO] else start
    requires forall k | i < k < |z| :: ZeroedAt(p, next, z, k)
    ensures z[..i] == start[..i] && forall k | i <= k < |z| :: ZeroedAt(p, start, z, k)
  {
    assert z[..i] == z[..i + 1][..i] == next[..i + 1][..i] == start[..i];
    assert z[i] == z[..i + 1][i] == next[..i + 1][i];
    assert start[i := ZERO] == start[..i] + [ZERO] + start[i + 1..];
    forall k | i < k < |z| ensures ZeroedAt(p, start, z, k) {
      assert ZeroedAt(p, next, z, k);
      assert next[k + 1..] == start[k + 1..] && next[k] == start[k];
    }
  }

  // ----- The whole minimization --------------------------------------------------------

  /** Whether z comes of replacing the bytes of d by '0' one after the other. */
  predicate Zeroed(p: Data -> bool, d: Data, z: Data)
  {
    |z| == |d| && forall k | 0 <= k < |z| :: ZeroedAt(p, d, z, k)
  }

  /**
    The phases one after the other, for a deterministic predicate: a prefix c of the data of which the
    last byte cannot be cut, then b with all bytes needed in turn, then d without removable ranges as
    far as they are tried again, then, canonicalizing, the result with every '0' that is possible in turn.
    A phase that accepts nothing leaves nothing of its kind to be done.
  */
  lemma PhaseLaws(verdict: Verdict, p: Data -> bool, data: Data, canonicalize: bool)
    requires Judges(verdict, p)
    ensures var c, b, d := CutPhase(verdict, data).res, BytesPhase(verdict, data).res, RangesPhase(verdict, data).res;
            var res := FullRun(verdict, data, canonicalize).res;
            && c <= data && (|c| > 1 ==> !p(c[..|c| - 1])) && (c == data ==> NoCut(p, data, 1024))
            && AllNeeded(p, c, b, 0) && (b == c ==> NoneFrom(p, b, 0))
            && (if d == b then NoRange(p, d, 0, |d|) else p(d) && exists s: nat :: NoLater(p, d, s))
            && if canonicalize then Zeroed(p, d, res) else res == d
  {
    hide CutRun, BytesRun, RangesRun, ZerosRun, AllNeeded, NoneFrom, NoRange, ZeroedAt, NoCut;
    CutLaw(verdict, p, Run(data, []), 1024);
    BytesLaw(verdict, p, CutPhase(verdict, data), 0);
    var b, d := BytesPhase(verdict, data), RangesPhase(verdict, data);
    RangesLaw(verdict, p, b, 0, |b.res|);
    if canonicalize {
      ZerosLaw(verdict, p, d, 0);
    }
  }

  /** The zeros are determined: there is only one way to meet the law. */
  lemma {:induction false} ZerosDetermined(p: Data -> bool, start: Data, y: Data, z: Data, n: nat)
    requires |y| == |z| == |start| && n <= |z|
    requires forall k | 0 <= k < |z| :: ZeroedAt(p, start, y, k) && ZeroedAt(p, start, z, k)
    ensures y[..n] == z[..n]
  {
    if n > 0 {
      ZerosDetermined(p, start, y, z, n - 1);
      assert ZeroedAt(p, start, y, n - 1) && ZeroedAt(p, start, z, n - 1);
      assert y[..n] == y[..n - 1] + [y[n - 1]] && z[..n] == z[..n - 1] + [z[n - 1]];
    }
  }
}
