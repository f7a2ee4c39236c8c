/**
  Input minimization: cutting the tail, removing single bytes, removing ranges, and replacing bytes
  by '0', each step kept only if the predicate accepts the candidate, with a deadline that may pass
  before any test.

  The predicate may answer differently each time it is asked: `verdict(n, d)` is its answer to the
  n-th test if that test is of d. `expired(c)` is the answer of the c-th look at the clock.
*/
module Minimize {
  import opened Cover

  const ZERO: Byte := 0x30

  // ----- Subsequences ------------------------------------------------------------------

  /** a is b with some bytes left out and, if allowed, some replaced by '0'. */
  predicate Sub(zeros: bool, a: Data, b: Data)
  {
    a == [] || (b != [] && ((Fits(zeros, a[0], b[0]) && Sub(zeros, a[1..], b[1..])) || Sub(zeros, a, b[1..])))
  }

  predicate Fits(zeros: bool, x: Byte, y: Byte)
  {
    x == y || (zeros && x == ZERO)
  }

  function Without(d: Data, i: nat, j: nat): Data
    requires i <= j <= |d|
  {
    d[..i] + d[j..]
  }

  lemma {:induction false} SubRefl(zeros: bool, a: Data)
    ensures Sub(zeros, a, a)
  {
    if a != [] {
      SubRefl(zeros, a[1..]);
    }
  }

  lemma {:induction false} SubLonger(zeros: bool, a: Data, b: Data)
    requires Sub(zeros, a, b)
    ensures |a| <= |b|
    ensures |a| == |b| && !zeros ==> a == b
  {
    if a != [] {
      if Fits(zeros, a[0], b[0]) && Sub(zeros, a[1..], b[1..]) {
        SubLonger(zeros, a[1..], b[1..]);
        if |a| == |b| && !zeros {
          assert a == [a[0]] + a[1..] && b == [b[0]] + b[1..];
        }
      } else {
        SubLonger(zeros, a, b[1..]);
      }
    }
  }

  lemma {:induction false} SubTrans(zeros: bool, a: Data, b: Data, c: Data)
    requires Sub(zeros, a, b) && Sub(zeros, b, c)
    ensures Sub(zeros, a, c)
    decreases |b| + |c|
  {
    if a != [] {
      if Fits(zeros, b[0], c[0]) && Sub(zeros, b[1..], c[1..]) {
        if Fits(zeros, a[0], b[0]) && Sub(zeros, a[1..], b[1..]) {
          SubTrans(zeros, a[1..], b[1..], c[1..]);
        } else {
          SubTrans(zeros, a, b[1..], c[1..]);
        }
      } else {
        SubTrans(zeros, a, b, c[1..]);
      }
    }
  }

  lemma {:induction false} SubWeaken(a: Data, b: Data)
    requires Sub(false, a, b)
    ensures Sub(true, a, b)
  {
    if a != [] {
      if a[0] == b[0] && Sub(false, a[1..], b[1..]) {
        SubWeaken(a[1..], b[1..]);
      } else {
        SubWeaken(a, b[1..]);
      }
    }
  }

  lemma {:induction false} WithoutIsSub(zeros: bool, d: Data, i: nat, j: nat)
    requires i <= j <= |d|
    ensures Sub(zeros, Without(d, i, j), d)
  {
    var w := Without(d, i, j);
    if i > 0 {
      assert w[1..] == Without(d[1..], i - 1, j - 1);
      WithoutIsSub(zeros, d[1..], i - 1, j - 1);
    } else if j > 0 {
      assert w == Without(d[1..], 0, j - 1);
      WithoutIsSub(zeros, d[1..], 0, j - 1);
      if w != [] {
        assert Sub(zeros, w, d[1..]);
      }
    } else {
      assert w == d;
      SubRefl(zeros, d);
    }
  }

  lemma {:induction false} ZeroIsSub(d: Data, i: nat)
    requires i < |d|
    ensures Sub(true, d[i := ZERO], d)
  {
    var z := d[i := ZERO];
    if i == 0 {
      assert z[1..] == d[1..];
      SubRefl(true, d[1..]);
    } else {
      assert z[1..] == d[1..][i - 1 := ZERO];
      ZeroIsSub(d[1..], i - 1);
    }
  }

  /** A proper subsequence lacks at least one byte, so it is a subsequence after some single removal. */
  lemma {:induction false} ProperSub(s: Data, d: Data) returns (k: nat)
    requires Sub(false, s, d) && s != d
    ensures k < |d| && Sub(false, s, Without(d, k, k + 1))
  {
    SubLonger(false, s, d);
    if s == [] {
      k := 0;
    } else if s[0] == d[0] && Sub(false, s[1..], d[1..]) {
      assert s == [s[0]] + s[1..] && d == [d[0]] + d[1..];
      var k' := ProperSub(s[1..], d[1..]);
      k := k' + 1;
      assert Without(d, k, k + 1)[1..] == Without(d[1..], k', k' + 1);
    } else {
      k := 0;
      assert Without(d, 0, 1) == d[1..];
    }
  }

  /** Removing k from a sequence that already lacks i gives a subsequence of removing k alone. */
  lemma RemoveTwice(d: Data, i: nat, k: nat)
    requires k < i < |d|
    ensures Sub(false, Without(Without(d, i, i + 1), k, k + 1), Without(d, k, k + 1))
  {
    var a, b := Without(Without(d, i, i + 1), k, k + 1), Without(d, k, k + 1);
    assert a == Without(b, i - 1, i);
    WithoutIsSub(false, b, i - 1, i);
  }

  // ----- The tests ---------------------------------------------------------------------

  datatype Trial = Trial(candidate: Data, ok: bool)

  type Verdict = (nat, Data) -> bool

  predicate LogOk(verdict: Verdict, log: seq<Trial>)
  {
    forall i | 0 <= i < |log| :: log[i].ok == verdict(i, log[i].candidate)
  }

  /** The latest candidate that was accepted, or the data itself. */
  function LastAccepted(data: Data, log: seq<Trial>): Data
  {
    if log == [] then data
    else if log[|log| - 1].ok then log[|log| - 1].candidate
    else LastAccepted(data, log[..|log| - 1])
  }

  /** Every candidate that is tested is a subsequence of the data. */
  predicate AllSub(zeros: bool, log: seq<Trial>, data: Data)
  {
    forall i | 0 <= i < |log| :: Sub(zeros, log[i].candidate, data)
  }

  /** The invariant of the whole run. */
  ghost predicate Progress(data: Data, zeros: bool, verdict: Verdict, log: seq<Trial>, tests: nat, res: Data)
  {
    LogOk(verdict, log) && tests == |log| && res == LastAccepted(data, log) && Sub(zeros, res, data)
    && AllSub(zeros, log, data)
  }

  lemma {:induction false} OneTrial(data: Data, zeros: bool, verdict: Verdict, log: seq<Trial>, tests: nat, res: Data,
                                    candidate: Data)
    requires Progress(data, zeros, verdict, log, tests, res) && Sub(zeros, candidate, res)
    ensures var ok := verdict(tests, candidate);
            Progress(data, zeros, verdict, log + [Trial(candidate, ok)], tests + 1, if ok then candidate else res)
  {
    var t := Trial(candidate, verdict(tests, candidate));
    var log' := log + [t];
    assert log'[..|log|] == log;
    SubTrans(zeros, candidate, res, data);
  }

  /** The predicate always answers as p does. */
  ghost predicate Judges(verdict: Verdict, p: Data -> bool)
  {
    forall n: nat, d: Data :: verdict(n, d) == p(d)
  }

  ghost predicate UpwardClosed(p: Data -> bool)
  {
    forall a, b :: Sub(false, a, b) && p(a) ==> p(b)
  }

  /** A deterministic predicate that holds of the data and of everything that contains something it holds of. */
  ghost predicate Monotone(verdict: Verdict, p: Data -> bool, data: Data)
  {
    Judges(verdict, p) && UpwardClosed(p) && p(data)
  }

  lemma {:induction false} StillAccepted(data: Data, verdict: Verdict, log: seq<Trial>, p: Data -> bool)
    requires LogOk(verdict, log) && Judges(verdict, p) && p(data)
    ensures p(LastAccepted(data, log))
  {
    if log != [] {
      var k := |log| - 1;
      assert log[k].ok == verdict(k, log[k].candidate);
      if !log[k].ok {
        assert forall i | 0 <= i < k :: log[..k][i] == log[i];
        StillAccepted(data, verdict, log[..k], p);
      }
    }
  }

  ghost predicate NoneBelow(p: Data -> bool, res: Data, end: int)
  {
    forall k | 0 <= k < end && k < |res| :: !AcceptsWithout(p, res, k)
  }

  ghost predicate AcceptsWithout(p: Data -> bool, res: Data, k: nat)
    requires k < |res|
  {
    p(Without(res, k, k + 1))
  }

  /** No proper subsequence is accepted. */
  ghost predicate Minimal(p: Data -> bool, res: Data)
  {
    p(res) && forall s :: Sub(false, s, res) && s != res ==> !p(s)
  }

  lemma OneRemovalSuffices(p: Data -> bool, res: Data)
    requires UpwardClosed(p) && p(res) && NoneBelow(p, res, |res|)
    ensures Minimal(p, res)
  {
    forall s | Sub(false, s, res) && s != res ensures !p(s) {
      var k := ProperSub(s, res);
      assert !AcceptsWithout(p, res, k);
    }
  }

  lemma StillNone(p: Data -> bool, res: Data, i: nat)
    requires UpwardClosed(p) && i < |res| && NoneBelow(p, res, i)
    ensures NoneBelow(p, Without(res, i, i + 1), i)
  {
    var r := Without(res, i, i + 1);
    forall k | 0 <= k < i && k < |r| ensures !AcceptsWithout(p, r, k) {
      assert !AcceptsWithout(p, res, k);
      RemoveTwice(res, i, k);
    }
  }

  // ----- A run without timeouts --------------------------------------------------------
  // The tests in order, one phase after the other, with what has been accepted so far.

  datatype Run = Run(res: Data, log: seq<Trial>)

  function Passes(verdict: Verdict, r: Run, candidate: Data): bool
  {
    verdict(|r.log|, candidate)
  }

  function Tried(verdict: Verdict, r: Run, candidate: Data): Run
  {
    var ok := Passes(verdict, r, candidate);
    Run(if ok then candidate else r.res, r.log + [Trial(candidate, ok)])
  }

  function CutRun(verdict: Verdict, r: Run, n: nat): Run
    decreases n, |r.res|
  {
    if n == 0 then r
    else if |r.res| <= n then CutRun(verdict, r, n / 2)
    else
      var candidate := r.res[..|r.res| - n];
      var next := Tried(verdict, r, candidate);
      if Passes(verdict, r, candidate) then CutRun(verdict, next, n) else CutRun(verdict, next, n / 2)
  }

  function BytesRun(verdict: Verdict, r: Run, i: nat): Run
    decreases |r.res| - i
  {
    if i >= |r.res| then r
    else
      var candidate := Without(r.res, i, i + 1);
      BytesRun(verdict, Tried(verdict, r, candidate), if Passes(verdict, r, candidate) then i else i + 1)
  }

  /** From the range from i to j on. After an accepted removal the longest range is not tried. */
  function RangesRun(verdict: Verdict, r: Run, i: nat, j: int): Run
    requires j <= |r.res|
    decreases |r.res|, |r.res| - i, j
  {
    if j > i + 1 then
      var candidate := Without(r.res, i, j);
      var next := Tried(verdict, r, candidate);
      RangesRun(verdict, next, i, if Passes(verdict, r, candidate) then |candidate| - 1 else j - 1)
    else if i + 1 < |r.res| - 1 then RangesRun(verdict, r, i + 1, |r.res|)
    else r
  }

  function ZerosRun(verdict: Verdict, r: Run, i: nat): Run
    decreases |r.res| - i
  {
    if i >= |r.res| then r
    else if r.res[i] == ZERO then ZerosRun(verdict, r, i + 1)
    else ZerosRun(verdict, Tried(verdict, r, r.res[i := ZERO]), i + 1)
  }

  function CutPhase(verdict: Verdict, data: Data): Run
  {
    CutRun(verdict, Run(data, []), 1024)
  }

  function BytesPhase(verdict: Verdict, data: Data): Run
  {
    BytesRun(verdict, CutPhase(verdict, data), 0)
  }

  function RangesPhase(verdict: Verdict, data: Data): Run
  {
    var r := BytesPhase(verdict, data);
    RangesRun(verdict, r, 0, |r.res|)
  }

  function FullRun(verdict: Verdict, data: Data, canonicalize: bool): Run
  {
    var r := RangesPhase(verdict, data);
    if canonicalize then ZerosRun(verdict, r, 0) else r
  }

  /** A run is as it would be without timeouts, or cut short by one. */
  predicate Follows(timedOut: bool, r: Run, full: Run)
  {
    if timedOut then r.log <= full.log else r == full
  }

  lemma BytesStep(verdict: Verdict, r: Run, i: nat, candidate: Data, next: Run)
    requires i < |r.res| && candidate == Without(r.res, i, i + 1)
    requires next == Run(if verdict(|r.log|, candidate) then candidate else r.res,
                         r.log + [Trial(candidate, verdict(|r.log|, candidate))])
    ensures BytesRun(verdict, r, i) == BytesRun(verdict, next, if verdict(|r.log|, candidate) then i else i + 1)
  {
  }

  lemma {:induction false} BytesEnd(verdict: Verdict, r: Run, i: nat)
    requires i == |r.res|
    ensures BytesRun(verdict, r, i) == r
  {
  }

  lemma RangesStep(verdict: Verdict, r: Run, i: nat, j: int, candidate: Data, next: Run)
    requires i + 1 < j <= |r.res| && candidate == Without(r.res, i, j)
    requires next == Run(if verdict(|r.log|, candidate) then candidate else r.res,
                         r.log + [Trial(candidate, verdict(|r.log|, candidate))])
    ensures RangesRun(verdict, r, i, j) ==
            RangesRun(verdict, next, i, if verdict(|r.log|, candidate) then |candidate| - 1 else j - 1)
  {
  }

  lemma RangesNext(verdict: Verdict, r: Run, i: nat, j: int)
    requires j <= i + 1 && j <= |r.res|
    ensures RangesRun(verdict, r, i, j) ==
            if i + 1 < |r.res| - 1 then RangesRun(verdict, r, i + 1, |r.res|) else r
  {
  }

  lemma {:induction false} CutExtends(verdict: Verdict, r: Run, n: nat)
    ensures r.log <= CutRun(verdict, r, n).log
    decreases n, |r.res|
  {
    if n > 0 {
      if |r.res| <= n {
        CutExtends(verdict, r, n / 2);
      } else {
        var candidate := r.res[..|r.res| - n];
        CutExtends(verdict, Tried(verdict, r, candidate), if Passes(verdict, r, candidate) then n else n / 2);
      }
    }
  }

  lemma {:induction false} BytesExtend(verdict: Verdict, r: Run, i: nat)
    ensures r.log <= BytesRun(verdict, r, i).log
    decreases |r.res| - i
  {
    if i < |r.res| {
      var candidate := Without(r.res, i, i + 1);
      BytesExtend(verdict, Tried(verdict, r, candidate), if Passes(verdict, r, candidate) then i else i + 1);
    }
  }

  lemma {:induction false} RangesExtend(verdict: Verdict, r: Run, i: nat, j: int)
    requires j <= |r.res|
    ensures r.log <= RangesRun(verdict, r, i, j).log
    decreases |r.res|, |r.res| - i, j
  {
    if j > i + 1 {
      var candidate := Without(r.res, i, j);
      var next := Tried(verdict, r, candidate);
      RangesExtend(verdict, next, i, if Passes(verdict, r, candidate) then |candidate| - 1 else j - 1);
    } else if i + 1 < |r.res| - 1 {
      RangesExtend(verdict, r, i + 1, |r.res|);
    }
  }

  lemma {:induction false} ZerosExtend(verdict: Verdict, r: Run, i: nat)
    ensures r.log <= ZerosRun(verdict, r, i).log
    decreases |r.res| - i
  {
    if i < |r.res| {
      if r.res[i] == ZERO {
        ZerosExtend(verdict, r, i + 1);
      } else {
        ZerosExtend(verdict, Tried(verdict, r, r.res[i := ZERO]), i + 1);
      }
    }
  }

  /** The log of every phase continues that of the one before. */
  lemma PhasesExtend(verdict: Verdict, data: Data, canonicalize: bool)
    ensures CutPhase(verdict, data).log <= BytesPhase(verdict, data).log <= RangesPhase(verdict, data).log
            <= FullRun(verdict, data, canonicalize).log
  {
    hide CutRun, BytesRun, RangesRun, ZerosRun;
    BytesExtend(verdict, CutPhase(verdict, data), 0);
    var r := BytesPhase(verdict, data);
    RangesExtend(verdict, r, 0, |r.res|);
    ZerosExtend(verdict, RangesPhase(verdict, data), 0);
  }

  // ----- The four phases ---------------------------------------------------------------

  /** One look at the clock before each test; only the last one, if it came too late, is without a test. */
  ghost predicate InTime(expired: nat -> bool, timedOut: bool, tests: nat, clock: nat)
  {
    && clock == tests + (if timedOut then 1 else 0) && (timedOut ==> expired(clock))
    && forall c: nat | 1 <= c <= tests :: !expired(c)
  }

  lemma Look(expired: nat -> bool, tests: nat, clock: nat)
    requires InTime(expired, false, tests, clock)
    ensures if expired(clock + 1) then InTime(expired, true, tests, clock + 1)
            else InTime(expired, false, tests + 1, clock + 1)
  {
  }

  lemma NoLook(expired: nat -> bool)
    ensures InTime(expired, false, 0, 0)
  {
  }

  /** What the looks at the clock say about the number of tests. */
  lemma LooksSay(expired: nat -> bool, timedOut: bool, tests: nat, clock: nat, r: Run, full: Run)
    requires InTime(expired, timedOut, tests, clock) && Follows(timedOut, r, full) && tests == |r.log|
    ensures (forall c: nat | 1 <= c <= tests :: !expired(c)) && (tests < |full.log| ==> expired(tests + 1))
    ensures timedOut ==> exists c: nat :: expired(c)
  {
  }

  /** Cuts n bytes from the end, n = 1024, 512, ..., 1, each as long as that is accepted; the last byte stays. */
  method CutTail(data: Data, zeros: bool, verdict: Verdict, expired: nat -> bool, start: Data, tests0: nat,
                 clock0: nat, log0: seq<Trial>)
    returns (res: Data, timedOut: bool, tests: nat, clock: nat, log: seq<Trial>)
    requires Progress(data, zeros, verdict, log0, tests0, start) && InTime(expired, false, tests0, clock0)
    ensures Progress(data, zeros, verdict, log, tests, res)
    ensures InTime(expired, timedOut, tests, clock)
    ensures Follows(timedOut, Run(res, log), CutRun(verdict, Run(start, log0), 1024))
  {
    hide InTime, Sub, AllSub, LastAccepted, LogOk;
    res, timedOut, tests, clock, log := start, false, tests0, clock0, log0;
    ghost var goal := CutRun(verdict, Run(start, log0), 1024);
    var n := 1024;
    while n != 0
      invariant 0 <= n <= 1024
      invariant Progress(data, zeros, verdict, log, tests, res) && InTime(expired, false, tests, clock)
      invariant CutRun(verdict, Run(res, log), n) == goal
    {
      ghost var stopped := false;
      while |res| > n
        invariant Progress(data, zeros, verdict, log, tests, res) && InTime(expired, false, tests, clock)
        invariant CutRun(verdict, Run(res, log), n) == goal && !stopped
        decreases |res|
      {
        Look(expired, tests, clock);
        clock := clock + 1;
        if expired(clock) {
          CutExtends(verdict, Run(res, log), n);
          timedOut := true;
          return;
        }
        var candidate := res[..|res| - n];
        WithoutIsSub(zeros, res, |res| - n, |res|);
        assert candidate == Without(res, |res| - n, |res|);
        OneTrial(data, zeros, verdict, log, tests, res, candidate);
        var ok := verdict(tests, candidate);
        log, tests := log + [Trial(candidate, ok)], tests + 1;
        if !ok {
          stopped := true;
          break;
        }
        res := candidate;
      }
      assert stopped || |res| <= n;
      n := n / 2;
    }
  }

  /** copy(tmp[at:], src) */
  method CopyInto(tmp: array<Byte>, at: nat, src: Data)
    requires at + |src| <= tmp.Length
    modifies tmp
    ensures tmp[..at] == old(tmp[..at])
    ensures tmp[at..at + |src|] == src
  {
    for k := 0 to |src|
      invariant tmp[..at] == old(tmp[..at])
      invariant tmp[at..at + k] == src[..k]
    {
      tmp[at + k] := src[k];
      assert tmp[at..at + k + 1] == tmp[at..at + k] + [src[k]];
      assert src[..k + 1] == src[..k] + [src[k]];
    }
    assert src[..|src|] == src;
  }

  /** Removes single bytes, left to right; after an accepted removal the same position is tried again. */
  method RemoveBytes(data: Data, zeros: bool, verdict: Verdict, expired: nat -> bool, start: Data, tmp: array<Byte>,
                     tests0: nat, clock0: nat, log0: seq<Trial>, ghost p: Data -> bool)
    returns (res: Data, timedOut: bool, tests: nat, clock: nat, log: seq<Trial>)
    requires Progress(data, zeros, verdict, log0, tests0, start) && tmp.Length >= |start|
    requires InTime(expired, false, tests0, clock0)
    modifies tmp
    ensures Progress(data, zeros, verdict, log, tests, res) && |res| <= |start|
    ensures InTime(expired, timedOut, tests, clock)
    ensures !timedOut && Monotone(verdict, p, data) ==> NoneBelow(p, res, |res|)
    ensures Follows(timedOut, Run(res, log), BytesRun(verdict, Run(start, log0), 0))
  {
    hide InTime, Sub, AllSub, LastAccepted, LogOk, Judges, UpwardClosed, NoneBelow, Without, BytesRun;
    res, timedOut, tests, clock, log := start, false, tests0, clock0, log0;
    ghost var goal := BytesRun(verdict, Run(start, log0), 0);
    var i := 0;
    NoneBelowZero(p, res);
    while i < |res|
      invariant 0 <= i <= |res| <= |start|
      invariant Progress(data, zeros, verdict, log, tests, res) && InTime(expired, false, tests, clock)
      invariant Monotone(verdict, p, data) ==> NoneBelow(p, res, i)
      invariant BytesRun(verdict, Run(res, log), i) == goal
      decreases |res| - i
    {
      Look(expired, tests, clock);
      clock := clock + 1;
      if expired(clock) {
        BytesExtend(verdict, Run(res, log), i);
        timedOut := true;
        return;
      }
      CopyInto(tmp, 0, res[..i]);
      CopyInto(tmp, i, res[i + 1..]);
      var candidate := tmp[..|res| - 1];
      CandidateIs(res, i, i + 1, candidate);
      WithoutIsSub(zeros, res, i, i + 1);
      OneTrial(data, zeros, verdict, log, tests, res, candidate);
      var ok := verdict(tests, candidate);
      if Monotone(verdict, p, data) {
        RemovalStep(verdict, p, tests, res, i);
      }
      BytesStep(verdict, Run(res, log), i, candidate,
                Run(if ok then candidate else res, log + [Trial(candidate, ok)]));
      log, tests := log + [Trial(candidate, ok)], tests + 1;
      if ok {
        res := candidate;
      } else {
        i := i + 1;
      }
    }
    BytesEnd(verdict, Run(res, log), i);
  }

  lemma NoneBelowZero(p: Data -> bool, res: Data)
    ensures NoneBelow(p, res, 0)
  {
  }

  lemma CandidateIs(res: Data, i: nat, j: nat, candidate: Data)
    requires i <= j <= |res| && |candidate| == |res| - j + i
    requires candidate[..i] == res[..i] && candidate[i..] == res[j..]
    ensures candidate == Without(res, i, j)
  {
    assert candidate == candidate[..i] + candidate[i..];
  }

  lemma RemovalStep(verdict: Verdict, p: Data -> bool, tests: nat, res: Data, i: nat)
    requires Judges(verdict, p) && UpwardClosed(p) && i < |res| && NoneBelow(p, res, i)
    ensures var c := Without(res, i, i + 1);
            if verdict(tests, c) then NoneBelow(p, c, i) else NoneBelow(p, res, i + 1)
  {
    StillNone(p, res, i);
  }

  /**
    Removes ranges: for each start i, from the longest range to the shortest. After an accepted
    removal the loop variable is reset to the new length and then decremented, so the longest range
    is not tried again.
  */
  method RemoveRanges(data: Data, zeros: bool, verdict: Verdict, expired: nat -> bool, start: Data, tmp: array<Byte>,
                      tests0: nat, clock0: nat, log0: seq<Trial>, ghost p: Data -> bool)
    returns (res: Data, timedOut: bool, tests: nat, clock: nat, log: seq<Trial>)
    requires Progress(data, zeros, verdict, log0, tests0, start) && tmp.Length >= |start|
    requires InTime(expired, false, tests0, clock0)
    requires Monotone(verdict, p, data) ==> NoneBelow(p, start, |start|)
    modifies tmp
    ensures Progress(data, zeros, verdict, log, tests, res) && |res| <= |start|
    ensures InTime(expired, timedOut, tests, clock)
    ensures Monotone(verdict, p, data) ==> res == start
    ensures Follows(timedOut, Run(res, log), RangesRun(verdict, Run(start, log0), 0, |start|))
  {
    hide InTime, Sub, AllSub, LastAccepted, LogOk, Judges, UpwardClosed, NoneBelow, Without, RangesRun;
    res, timedOut, tests, clock, log := start, false, tests0, clock0, log0;
    ghost var goal := RangesRun(verdict, Run(start, log0), 0, |start|);
    var i := 0;
    if |res| <= 1 {
      RangesNext(verdict, Run(res, log), 0, |res|);
    }
    while i < |res| - 1
      invariant 0 <= i && |res| <= |start|
      invariant Progress(data, zeros, verdict, log, tests, res) && InTime(expired, false, tests, clock)
      invariant Monotone(verdict, p, data) ==> res == start
      invariant if i < |res| - 1 then RangesRun(verdict, Run(res, log), i, |res|) == goal
                else Run(res, log) == goal
      decreases |start| - i
    {
      CopyInto(tmp, 0, res[..i]);
      var j := |res|;
      while j > i + 1
        invariant i <= |res| <= |start| && j <= |res|
        invariant tmp[..i] == res[..i]
        invariant Progress(data, zeros, verdict, log, tests, res) && InTime(expired, false, tests, clock)
        invariant Monotone(verdict, p, data) ==> res == start
        invariant RangesRun(verdict, Run(res, log), i, j) == goal
        decreases |res|, j
      {
        Look(expired, tests, clock);
        clock := clock + 1;
        if expired(clock) {
          RangesExtend(verdict, Run(res, log), i, j);
          timedOut := true;
          return;
        }
        CopyInto(tmp, i, res[j..]);
        var candidate := tmp[..|res| - j + i];
        assert candidate[..i] == tmp[..i];
        CandidateIs(res, i, j, candidate);
        WithoutIsSub(zeros, res, i, j);
        OneTrial(data, zeros, verdict, log, tests, res, candidate);
        var ok := verdict(tests, candidate);
        if Monotone(verdict, p, data) {
          RangeRejected(verdict, p, tests, data, zeros, log, res, i, j);
        }
        RangesStep(verdict, Run(res, log), i, j, candidate,
                   Run(if ok then candidate else res, log + [Trial(candidate, ok)]));
        log, tests := log + [Trial(candidate, ok)], tests + 1;
        if ok {
          res := candidate;
          j := |res|;
        }
        j := j - 1;
      }
      RangesNext(verdict, Run(res, log), i, j);
      i := i + 1;
    }
  }

  lemma RangeRejected(verdict: Verdict, p: Data -> bool, tests: nat, data: Data, zeros: bool, log: seq<Trial>,
                      res: Data, i: nat, j: nat)
    requires Monotone(verdict, p, data) && Progress(data, zeros, verdict, log, tests, res)
    requires NoneBelow(p, res, |res|) && i < j <= |res|
    ensures !verdict(tests, Without(res, i, j))
  {
    StillAccepted(data, verdict, log, p);
    OneRemovalSuffices(p, res);
    WithoutIsSub(false, res, i, j);
  }

  /** Replaces bytes by '0'. */
  method Canonicalize(data: Data, verdict: Verdict, expired: nat -> bool, start: Data, tmp: array<Byte>, tests0: nat,
                      clock0: nat, log0: seq<Trial>)
    returns (res: Data, timedOut: bool, tests: nat, clock: nat, log: seq<Trial>)
    requires Progress(data, true, verdict, log0, tests0, start) && tmp.Length >= |start|
    requires InTime(expired, false, tests0, clock0)
    modifies tmp
    ensures Progress(data, true, verdict, log, tests, res) && |res| == |start|
    ensures InTime(expired, timedOut, tests, clock)
    ensures Follows(timedOut, Run(res, log), ZerosRun(verdict, Run(start, log0), 0))
  {
    hide InTime, Sub, AllSub, LastAccepted, LogOk;
    res, timedOut, tests, clock, log := start, false, tests0, clock0, log0;
    ghost var goal := ZerosRun(verdict, Run(start, log0), 0);
    var i := 0;
    while i < |res|
      invariant 0 <= i <= |res| == |start|
      invariant Progress(data, true, verdict, log, tests, res) && InTime(expired, false, tests, clock)
      invariant ZerosRun(verdict, Run(res, log), i) == goal
    {
      if res[i] != ZERO {
        Look(expired, tests, clock);
        clock := clock + 1;
        if expired(clock) {
          ZerosExtend(verdict, Run(res, log), i);
          timedOut := true;
          return;
        }
        CopyInto(tmp, 0, res);
        tmp[i] := ZERO;
        var candidate := tmp[..|res|];
        assert candidate == res[i := ZERO];
        ZeroIsSub(res, i);
        OneTrial(data, true, verdict, log, tests, res, candidate);
        var ok := verdict(tests, candidate);
        log, tests := log + [Trial(candidate, ok)], tests + 1;
        if ok {
          res := candidate;
        }
      }
      i := i + 1;
    }
  }

  /** The three phases that make the data shorter. */
  method Shorten(data: Data, zeros: bool, verdict: Verdict, expired: nat -> bool, ghost p: Data -> bool)
    returns (res: Data, timedOut: bool, tests: nat, clock: nat, log: seq<Trial>)
    ensures Progress(data, zeros, verdict, log, tests, res) && InTime(expired, timedOut, tests, clock)
    ensures Follows(timedOut, Run(res, log), RangesPhase(verdict, data))
    ensures !timedOut && Monotone(verdict, p, data) ==> NoneBelow(p, res, |res|)
  {
    hide InTime, Sub, AllSub, LogOk, Judges, UpwardClosed, NoneBelow, CutRun, BytesRun, RangesRun;
    SubRefl(zeros, data);
    EmptyLog(verdict);
    NoLook(expired);
    PhasesExtend(verdict, data, false);
    res, timedOut, tests, clock, log := CutTail(data, zeros, verdict, expired, data, 0, 0, []);
    if !timedOut {
      var tmp := new Byte[|res|](_ => 0);
      res, timedOut, tests, clock, log := RemoveBytes(data, zeros, verdict, expired, res, tmp, tests, clock, log, p);
      if !timedOut {
        res, timedOut, tests, clock, log := RemoveRanges(data, zeros, verdict, expired, res, tmp, tests, clock, log, p);
      }
    }
  }

  /**
    Always terminates. Every return, early ones included, gives the data or the latest candidate that
    was accepted, and it is a subsequence of the data (up to bytes replaced by '0' when
    canonicalizing). Without timeouts, for a deterministic predicate that is upward closed in the
    subsequence order and holds of the data, the result without canonicalizing is minimal.
  */
  method MinimizeInput(data: Data, canonicalize: bool, verdict: Verdict, expired: nat -> bool, ghost p: Data -> bool)
    returns (res: Data, tests: nat, log: seq<Trial>)
    ensures LogOk(verdict, log) && tests == |log| && res == LastAccepted(data, log)
    ensures Sub(canonicalize, res, data) && AllSub(canonicalize, log, data)
    ensures Judges(verdict, p) && p(data) ==> p(res)
    ensures !canonicalize && (forall c: nat :: !expired(c)) && Monotone(verdict, p, data) ==> Minimal(p, res)
    ensures log <= FullRun(verdict, data, canonicalize).log && forall c: nat | 1 <= c <= tests :: !expired(c)
    ensures tests < |FullRun(verdict, data, canonicalize).log| ==> expired(tests + 1)
    ensures (forall c: nat :: !expired(c)) ==> Run(res, log) == FullRun(verdict, data, canonicalize)
  {
    hide InTime, Sub, AllSub, LogOk, Judges, UpwardClosed, NoneBelow, Minimal, RangesPhase, ZerosRun;
    PhasesExtend(verdict, data, canonicalize);
    var timedOut, clock;
    res, timedOut, tests, clock, log := Shorten(data, canonicalize, verdict, expired, p);
    if Monotone(verdict, p, data) {
      StillAccepted(data, verdict, log, p);
      if !timedOut {
        OneRemovalSuffices(p, res);
      }
    }
    if !timedOut && canonicalize {
      var tmp := new Byte[|res|](_ => 0);
      res, timedOut, tests, clock, log := Canonicalize(data, verdict, expired, res, tmp, tests, clock, log);
    }
    LooksSay(expired, timedOut, tests, clock, Run(res, log), FullRun(verdict, data, canonicalize));
    if Judges(verdict, p) && p(data) {
      StillAccepted(data, verdict, log, p);
    }
  }

  lemma EmptyLog(verdict: Verdict)
    ensures LogOk(verdict, []) && forall zeros, data :: AllSub(zeros, [], data)
  {
  }
}
