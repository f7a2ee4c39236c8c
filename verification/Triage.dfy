/**
  What a worker does with inputs and crashers before the hub sees them: three runs that measure an
  input, minimization under the predicates for inputs and for crashers, and noting what turns up on
  the way.

  `test(n, d)` is the outcome of the n-th execution if it is of d. The predicates that triageInput
  and processCrasher pass to minimizeInput note crashers and inputs while it runs; here the notes are
  made from the trace of its tests, in the same order, since nothing looks at the queues in between.
*/
module Triage {
  import opened Cover
  import opened Minimize
  import opened Wrappers

  const MAX_INPUT_SIZE: nat := 0x10_0000
  const MAX_EXEC_TIME: nat := 0x1000_0000_0000_0000

  datatype Outcome = Outcome(res: int, ns: nat, cover: seq<Byte>, output: Data, crashed: bool, hanged: bool)

  type Testee = (nat, Data) -> Outcome

  ghost predicate Tables(test: Testee)
  {
    forall n: nat, d: Data :: |test(n, d).cover| == COVER_SIZE
  }

  datatype Crasher = Crasher(data: Data, error: Data, suppression: Data, hanging: bool)

  datatype NewInput = NewInput(data: Data, depth: int)

  /** An input on its way to the hub. */
  datatype Triaged = Triaged(mine: bool, data: Data, cover: seq<Byte>, coverSize: nat, res: int, depth: nat,
    execTime: nat)

  // ----- Measuring ---------------------------------------------------------------------

  function PointMax(a: seq<Byte>, b: seq<Byte>): (r: seq<Byte>)
    requires |a| == |b|
    ensures |r| == |a| && forall i | 0 <= i < |r| :: r[i] == MaxByte(a[i], b[i])
  {
    seq(|a|, i requires 0 <= i < |a| => MaxByte(a[i], b[i]))
  }

  /** The measurements of an input: the most coverage, the best result and the shortest time of its runs. */
  datatype Measured = Measured(cover: seq<Byte>, res: int, execTime: nat)

  predicate IsMeasure(m: Measured, o: seq<Outcome>)
    requires forall k | 0 <= k < |o| :: |o[k].cover| == COVER_SIZE
  {
    && |m.cover| == COVER_SIZE
    && (forall k | 0 <= k < |o| :: PointLe(o[k].cover, m.cover) && o[k].res <= m.res && m.execTime <= o[k].ns)
    && (forall i | 0 <= i < COVER_SIZE :: exists k :: 0 <= k < |o| && o[k].cover[i] == m.cover[i])
    && 0 <= m.res && (m.res == 0 || exists k :: 0 <= k < |o| && o[k].res == m.res)
    && m.execTime <= MAX_EXEC_TIME && (m.execTime == MAX_EXEC_TIME || exists k :: 0 <= k < |o| && o[k].ns == m.execTime)
  }

  function Add(m: Measured, o: Outcome): Measured
    requires |m.cover| == |o.cover|
  {
    Measured(PointMax(m.cover, o.cover),
             if m.res < o.res then o.res else m.res,
             if m.execTime > o.ns then o.ns else m.execTime)
  }

  lemma FirstMeasure(o: Outcome)
    requires |o.cover| == COVER_SIZE
    ensures IsMeasure(Add(Measured(o.cover, 0, MAX_EXEC_TIME), o), [o])
  {
    var m := Add(Measured(o.cover, 0, MAX_EXEC_TIME), o);
    assert m.cover == o.cover;
    assert [o][0] == o;
  }

  predicate MeasuredSoFar(m: Option<Measured>, runs: seq<Outcome>)
  {
    && (forall k | 0 <= k < |runs| :: |runs[k].cover| == COVER_SIZE)
    && (m.Some? <==> runs != [])
    && (m.Some? ==> |m.value.cover| == COVER_SIZE && IsMeasure(m.value, runs))
  }

  lemma MeasureMore(m: Option<Measured>, runs: seq<Outcome>, o: Outcome)
    requires MeasuredSoFar(m, runs) && |o.cover| == COVER_SIZE
    ensures MeasuredSoFar(Some(if m.None? then Add(Measured(o.cover, 0, MAX_EXEC_TIME), o) else Add(m.value, o)),
            runs + [o])
  {
    hide IsMeasure;
    if m.None? {
      FirstMeasure(o);
      assert [] + [o] == [o];
    } else {
      NextMeasure(m.value, runs, o);
    }
  }

  lemma NextMeasure(m: Measured, runs: seq<Outcome>, o: Outcome)
    requires forall k | 0 <= k < |runs| :: |runs[k].cover| == COVER_SIZE
    requires IsMeasure(m, runs) && |o.cover| == COVER_SIZE
    ensures IsMeasure(Add(m, o), runs + [o])
  {
    var m', all := Add(m, o), runs + [o];
    assert all[|runs|] == o;
    assert forall k | 0 <= k < |runs| :: all[k] == runs[k];
    forall i | 0 <= i < COVER_SIZE ensures exists k :: 0 <= k < |all| && all[k].cover[i] == m'.cover[i] {
      if m.cover[i] == m'.cover[i] {
        var k :| 0 <= k < |runs| && runs[k].cover[i] == m.cover[i];
        assert all[k].cover[i] == m'.cover[i];
      } else {
        assert all[|runs|].cover[i] == m'.cover[i];
      }
    }
    if m'.res != 0 && m'.res == m.res {
      var k :| 0 <= k < |runs| && runs[k].res == m.res;
      assert all[k].res == m'.res;
    }
    if m'.execTime != MAX_EXEC_TIME && m'.execTime == m.execTime {
      var k :| 0 <= k < |runs| && runs[k].ns == m.execTime;
      assert all[k].ns == m'.execTime;
    }
  }

  // ----- The predicates ----------------------------------------------------------------

  /** A candidate replaces an input if it does not crash, has the same result and none of the new coverage is lost. */
  predicate InputKept(newCover: seq<Byte>, res: int, o: Outcome)
  {
    !o.crashed && o.res == res && PointLe(newCover, o.cover)
  }

  /** A candidate replaces a crasher if it crashes in the same way. */
  predicate CrashKept(supp: Data -> Data, suppression: Data, o: Outcome)
  {
    o.crashed && !o.hanged && supp(o.output) == suppression
  }

  function InputVerdict(test: Testee, from: nat, newCover: seq<Byte>, res: int): Verdict
  {
    (n: nat, d: Data) => InputKept(newCover, res, test(from + n, d))
  }

  function CrashVerdict(test: Testee, from: nat, supp: Data -> Data, suppression: Data): Verdict
  {
    (n: nat, d: Data) => CrashKept(supp, suppression, test(from + n, d))
  }

  /** Where the result of a minimization comes from: it is the data, or some accepted candidate. */
  lemma {:induction false} Provenance(data: Data, verdict: Verdict, log: seq<Trial>)
    requires LogOk(verdict, log)
    ensures LastAccepted(data, log) == data
            || exists n: nat ::
              n < |log| && log[n].candidate == LastAccepted(data, log) && verdict(n, LastAccepted(data, log))
  {
    if log != [] {
      var k := |log| - 1;
      if log[k].ok {
        assert verdict(k, log[k].candidate);
      } else {
        var init := log[..k];
        assert forall i | 0 <= i < k :: init[i] == log[i];
        Provenance(data, verdict, init);
        if LastAccepted(data, init) != data {
          var n: nat :| n < |init| && init[n].candidate == LastAccepted(data, init)
            && verdict(n, LastAccepted(data, init));
          assert log[n].candidate == LastAccepted(data, log);
        }
      }
    }
  }

  // ----- Notes -------------------------------------------------------------------------

  /** The tests of a minimization, and the executions they are, from number `from` on. */
  datatype Trace = Trace(test: Testee, from: nat, log: seq<Trial>) {
    function Run(n: nat): Outcome
      requires n < |log|
    {
      test(from + n, log[n].candidate)
    }

    function Before(n: nat): Trace
      requires n <= |log|
    {
      Trace(test, from, log[..n])
    }
  }

  function NoteOf(supp: Data -> Data, known: set<Data>, data: Data, o: Outcome): seq<Crasher>
  {
    if supp(o.output) in known then [] else [Crasher(data, o.output, supp(o.output), o.hanged)]
  }

  /** The crashers among the rejected candidates that have to be noted, in order. */
  function CrashNotes(tr: Trace, supp: Data -> Data, known: set<Data>): seq<Crasher>
    decreases |tr.log|
  {
    if tr.log == [] then []
    else
      var n := |tr.log| - 1;
      CrashNotes(tr.Before(n), supp, known)
      + if tr.Run(n).crashed && !tr.log[n].ok then NoteOf(supp, known, tr.log[n].candidate, tr.Run(n)) else []
  }

  predicate CrashNoted(supp: Data -> Data, known: set<Data>, data: Data, o: Outcome, queue: seq<Crasher>)
  {
    supp(o.output) in known || Crasher(data, o.output, supp(o.output), o.hanged) in queue
  }

  /** No crash of a rejected candidate is lost: its suppression is known, or it is noted. */
  lemma {:induction false} CrashesNoted(tr: Trace, supp: Data -> Data, known: set<Data>, n: nat)
    requires n < |tr.log| && tr.Run(n).crashed && !tr.log[n].ok
    ensures CrashNoted(supp, known, tr.log[n].candidate, tr.Run(n), CrashNotes(tr, supp, known))
    decreases |tr.log|
  {
    var k := |tr.log| - 1;
    if n < k {
      assert tr.Before(k).Run(n) == tr.Run(n);
      CrashesNoted(tr.Before(k), supp, known, n);
    }
  }

  /** The candidates queued for triage, with their coverage, and the maximal coverage they raise. */
  datatype Found = Found(queue: seq<NewInput>, covers: seq<seq<Byte>>, maxCover: seq<Byte>)

  /** What noteNewInput makes of a run. */
  function Noted(counters: bool, f: Found, data: Data, depth: int, o: Outcome): (r: Found)
    requires |f.maxCover| == |o.cover| == COVER_SIZE
    ensures |r.maxCover| == COVER_SIZE
  {
    if o.res >= 0 && Exceeds(f.maxCover, o.cover) then
      Found(f.queue + [NewInput(data, depth)], f.covers + [o.cover], Join(counters, f.maxCover, o.cover))
    else f
  }

  /** A test that noteNewInput gets to see and that may raise the maximum. */
  predicate Counts(tr: Trace, n: nat)
    requires n < |tr.log|
  {
    !tr.log[n].ok && !tr.Run(n).crashed && tr.Run(n).res >= 0
  }

  /** What the rejected candidates that do not crash add to a maximal coverage. */
  function InputNotes(counters: bool, tr: Trace, depth: int, base: seq<Byte>): (r: Found)
    requires Tables(tr.test) && |base| == COVER_SIZE
    ensures |r.maxCover| == COVER_SIZE
    decreases |tr.log|
  {
    if tr.log == [] then Found([], [], base)
    else
      var n := |tr.log| - 1;
      var f := InputNotes(counters, tr.Before(n), depth, base);
      if tr.log[n].ok || tr.Run(n).crashed then f else Noted(counters, f, tr.log[n].candidate, depth, tr.Run(n))
  }

  /** A value is in the maximum at slot i at the end: it was before, or some run that counts brought it. */
  predicate Brought(counters: bool, tr: Trace, base: seq<Byte>, i: nat, x: Byte)
    requires Tables(tr.test) && |base| == COVER_SIZE && i < COVER_SIZE
  {
    x <= base[i] || exists n: nat :: n < |tr.log| && Counts(tr, n) && x <= RoundUp(counters, tr.Run(n).cover[i])
  }

  /** The maximum after a minimization is exactly the old one joined with the coverage of every run that counts. */
  lemma {:induction false} NotedMaximum(counters: bool, tr: Trace, depth: int, base: seq<Byte>, i: nat, x: Byte)
    requires Tables(tr.test) && |base| == COVER_SIZE && Quantized(counters, base) && i < COVER_SIZE
    ensures Quantized(counters, InputNotes(counters, tr, depth, base).maxCover)
    ensures x <= InputNotes(counters, tr, depth, base).maxCover[i] <==> Brought(counters, tr, base, i, x)
    decreases |tr.log|
  {
    if tr.log != [] {
      var k := |tr.log| - 1;
      var init, o := tr.Before(k), tr.Run(k);
      NotedMaximum(counters, init, depth, base, i, x);
      var f := InputNotes(counters, init, depth, base);
      JoinEffect(counters, f.maxCover, o.cover);
      BroughtMore(counters, tr, base, i, x);
      if Counts(tr, k) {
        CountedRun(counters, f, tr.log[k].candidate, depth, o, i, x);
      }
    }
  }

  lemma CountedRun(counters: bool, f: Found, data: Data, depth: int, o: Outcome, i: nat, x: Byte)
    requires |f.maxCover| == |o.cover| == COVER_SIZE && Quantized(counters, f.maxCover) && o.res >= 0 && i < COVER_SIZE
    ensures x <= Noted(counters, f, data, depth, o).maxCover[i]
            <==> x <= f.maxCover[i] || x <= RoundUp(counters, o.cover[i])
  {
    assert IsLevel(counters, f.maxCover[i]);
    RoundUpIsClosure(counters, o.cover[i], f.maxCover[i]);
  }

  lemma BroughtMore(counters: bool, tr: Trace, base: seq<Byte>, i: nat, x: Byte)
    requires Tables(tr.test) && |base| == COVER_SIZE && i < COVER_SIZE && tr.log != []
    ensures var k := |tr.log| - 1;
            Brought(counters, tr, base, i, x) <==>
            Brought(counters, tr.Before(k), base, i, x)
            || (Counts(tr, k) && x <= RoundUp(counters, tr.Run(k).cover[i]))
  {
    var k := |tr.log| - 1;
    var init := tr.Before(k);
    assert forall n: nat :: n < k ==> init.Run(n) == tr.Run(n) && (Counts(init, n) <==> Counts(tr, n));
    if n: nat :| n < |init.log| && Counts(init, n) && x <= RoundUp(counters, init.Run(n).cover[i]) {
      assert Counts(tr, n) && x <= RoundUp(counters, tr.Run(n).cover[i]);
    }
    if n: nat :| n < |tr.log| && Counts(tr, n) && x <= RoundUp(counters, tr.Run(n).cover[i]) {
      assert n < k ==> Counts(init, n) && x <= RoundUp(counters, init.Run(n).cover[i]);
    }
  }

  /** A run has been looked at: its coverage is in the maximum, unless it crashed or its result was negative. */
  predicate Looked(o: Outcome, maxCover: seq<Byte>)
  {
    o.crashed || o.res < 0 || PointLe(o.cover, maxCover)
  }

  /** No coverage of a rejected candidate is lost. */
  lemma {:induction false} InputsNoted(counters: bool, tr: Trace, depth: int, base: seq<Byte>, n: nat)
    requires Tables(tr.test) && |base| == COVER_SIZE && Quantized(counters, base)
    requires n < |tr.log| && !tr.log[n].ok
    ensures Looked(tr.Run(n), InputNotes(counters, tr, depth, base).maxCover)
  {
    var f, o := InputNotes(counters, tr, depth, base), tr.Run(n);
    if !o.crashed && o.res >= 0 {
      forall i | 0 <= i < COVER_SIZE ensures o.cover[i] <= f.maxCover[i] {
        RoundUpIsClosure(counters, o.cover[i], 0);
        assert Counts(tr, n);
        NotedMaximum(counters, tr, depth, base, i, o.cover[i]);
      }
    }
  }

  /**
    An accepted candidate is not noted, so its coverage may get lost. It is in the maximum exactly if
    each of its counters was there before or is brought by a rejected candidate.
  */
  lemma {:induction false} AcceptedCoverage(counters: bool, tr: Trace, depth: int, base: seq<Byte>, n: nat)
    requires Tables(tr.test) && |base| == COVER_SIZE && Quantized(counters, base)
    requires n < |tr.log| && tr.log[n].ok
    ensures PointLe(tr.Run(n).cover, InputNotes(counters, tr, depth, base).maxCover) <==>
            forall i | 0 <= i < COVER_SIZE :: Brought(counters, tr, base, i, tr.Run(n).cover[i])
  {
    var f, c := InputNotes(counters, tr, depth, base), tr.Run(n).cover;
    hide InputNotes, Brought;
    forall i | 0 <= i < COVER_SIZE ensures c[i] <= f.maxCover[i] <==> Brought(counters, tr, base, i, c[i]) {
      NotedMaximum(counters, tr, depth, base, i, c[i]);
    }
  }

  /**
    A condition on the program and the data that excludes any loss: every subsequence of the data that
    would be accepted has its coverage in the maximum beforehand.
  */
  ghost predicate KeptIsKnown(test: Testee, data: Data, newCover: seq<Byte>, res: int, base: seq<Byte>)
  {
    forall n: nat, d: Data :: Sub(false, d, data) && InputKept(newCover, res, test(n, d))
      ==> PointLe(test(n, d).cover, base)
  }

  lemma {:induction false} NothingAcceptedLost(counters: bool, tr: Trace, data: Data, newCover: seq<Byte>, res: int,
                                               depth: int,
                            base: seq<Byte>, n: nat)
    requires Tables(tr.test) && |base| == COVER_SIZE && Quantized(counters, base)
    requires LogOk(InputVerdict(tr.test, tr.from, newCover, res), tr.log) && AllSub(false, tr.log, data)
    requires KeptIsKnown(tr.test, data, newCover, res, base) && n < |tr.log| && tr.log[n].ok
    ensures PointLe(tr.Run(n).cover, InputNotes(counters, tr, depth, base).maxCover)
  {
    hide InputNotes, Sub;
    var verdict := InputVerdict(tr.test, tr.from, newCover, res);
    assert tr.log[n].ok == verdict(n, tr.log[n].candidate) == InputKept(newCover, res, tr.Run(n));
    assert forall i | 0 <= i < COVER_SIZE :: Brought(counters, tr, base, i, tr.Run(n).cover[i]);
    AcceptedCoverage(counters, tr, depth, base, n);
  }

  function JoinAll(counters: bool, base: seq<Byte>, covers: seq<seq<Byte>>): (r: seq<Byte>)
    requires |base| == COVER_SIZE && forall k | 0 <= k < |covers| :: |covers[k]| == COVER_SIZE
    ensures |r| == COVER_SIZE
  {
    if covers == [] then base
    else Join(counters, JoinAll(counters, base, covers[..|covers| - 1]), covers[|covers| - 1])
  }

  class Worker {
    const counters: bool
    const supp: Data -> Data
    var triageQueue: seq<NewInput>
    var crasherQueue: seq<Crasher>
    var maxCover: seq<Byte>                 // the hub's, as this worker sees it
    var execs: nat
    ghost var base: seq<Byte>               // the maximal coverage at the start
    ghost var covers: seq<seq<Byte>>        // the coverage of the inputs queued since, in order

    /** The maximal coverage never runs ahead of the queue: every raise is due to an input queued for triage. */
    ghost predicate Valid()
      reads this
    {
      && |base| == COVER_SIZE && Quantized(counters, base) && Quantized(counters, maxCover)
      && (forall k | 0 <= k < |covers| :: |covers[k]| == COVER_SIZE)
      && maxCover == JoinAll(counters, base, covers)
    }

    constructor (counters: bool, supp: Data -> Data, maxCover: seq<Byte>)
      requires |maxCover| == COVER_SIZE && Quantized(counters, maxCover)
      ensures Valid() && this.counters == counters && this.supp == supp && this.maxCover == maxCover
      ensures triageQueue == [] && crasherQueue == [] && execs == 0
    {
      this.counters, this.supp, this.maxCover := counters, supp, maxCover;
      triageQueue, crasherQueue, execs := [], [], 0;
      base, covers := maxCover, [];
    }

    method NoteCrasher(data: Data, o: Outcome, known: set<Data>)
      modifies this`crasherQueue
      ensures crasherQueue == old(crasherQueue) + NoteOf(supp, known, data, o)
    {
      var s := supp(o.output);
      if s in known {
        return;
      }
      crasherQueue := crasherQueue + [Crasher(data, o.output, s, o.hanged)];
    }

    /** An input is queued exactly if its result is not negative and it raises the maximal coverage. */
    method NoteNewInput(data: Data, o: Outcome, depth: int)
      requires Valid() && |o.cover| == COVER_SIZE
      modifies this`triageQueue, this`maxCover, this`covers
      ensures Valid()
      ensures var taken := o.res >= 0 && Exceeds(old(maxCover), o.cover);
              && triageQueue == old(triageQueue) + (if taken then [NewInput(data, depth)] else [])
              && covers == old(covers) + (if taken then [o.cover] else [])
              && maxCover == if taken then Join(counters, old(maxCover), o.cover) else old(maxCover)
      ensures o.res >= 0 ==> PointLe(o.cover, maxCover)
    {
      JoinEffect(counters, maxCover, o.cover);
      if o.res < 0 {
        return;
      }
      var isNew := CompareCover(maxCover, o.cover);
      if isNew {
        maxCover := Join(counters, maxCover, o.cover);
        triageQueue := triageQueue + [NewInput(data, depth)];
        covers := covers + [o.cover];
        assert covers[..|covers| - 1] == old(covers);
      }
    }

    /** The notes of a minimization: rejected candidates that crash, and, for inputs, those that do not. */
    method NoteRejected(tr: Trace, known: set<Data>, depth: Option<int>)
      requires Valid() && Tables(tr.test)
      modifies this`triageQueue, this`crasherQueue, this`maxCover, this`covers
      ensures Valid()
      ensures crasherQueue == old(crasherQueue) + CrashNotes(tr, supp, known)
      ensures depth.None? ==> triageQueue == old(triageQueue) && maxCover == old(maxCover)
      ensures depth.Some? ==> var f := InputNotes(counters, tr, depth.value, old(maxCover));
                              triageQueue == old(triageQueue) + f.queue && maxCover == f.maxCover
    {
      hide CrashNotes, InputNotes, Noted, JoinAll, Join, Quantized, NoteOf, Exceeds;
      ghost var notes: seq<Crasher> := [];
      ghost var f := Found([], [], maxCover);
      ghost var d := if depth.Some? then depth.value else 0;
      NoNotes(counters, tr, supp, known, d, maxCover);
      for k := 0 to |tr.log|
        invariant Valid() && notes == CrashNotes(tr.Before(k), supp, known)
        invariant crasherQueue == old(crasherQueue) + notes
        invariant depth.None? ==> triageQueue == old(triageQueue) && maxCover == old(maxCover)
        invariant |old(maxCover)| == COVER_SIZE && f == InputNotes(counters, tr.Before(k), d, old(maxCover))
        invariant depth.Some? ==> triageQueue == old(triageQueue) + f.queue && maxCover == f.maxCover
      {
        var o := tr.Run(k);
        MoreNotes(counters, tr, supp, known, d, old(maxCover), k);
        if !tr.log[k].ok {
          if o.crashed {
            NoteCrasher(tr.log[k].candidate, o, known);
            notes := notes + NoteOf(supp, known, tr.log[k].candidate, o);
          } else {
            OneNote(counters, f, tr.log[k].candidate, d, o);
            f := Noted(counters, f, tr.log[k].candidate, d, o);
            if depth.Some? {
              NoteNewInput(tr.log[k].candidate, o, depth.value);
            }
          }
        }
      }
      assert tr.Before(|tr.log|) == tr;
    }

    /** Up to three runs; a crash ends them. */
    method Measure(data: Data, test: Testee, known: set<Data>) returns (m: Option<Measured>, ghost runs: seq<Outcome>)
      requires Tables(test)
      modifies this`crasherQueue, this`execs
      ensures 1 <= |runs| <= 3 && execs == old(execs) + |runs|
      ensures forall k | 0 <= k < |runs| :: runs[k] == test(old(execs) + k, data)
      ensures forall k | 0 <= k < |runs| - 1 :: !runs[k].crashed
      ensures m.None? <==> runs[|runs| - 1].crashed
      ensures m.Some? ==> |runs| == 3 && IsMeasure(m.value, runs) && crasherQueue == old(crasherQueue)
      ensures m.None? ==> crasherQueue == old(crasherQueue) + NoteOf(supp, known, data, runs[|runs| - 1])
    {
      hide IsMeasure, Add, NoteOf;
      runs := [];
      var sofar := None;
      for i := 0 to 3
        invariant |runs| == i && execs == old(execs) + i && crasherQueue == old(crasherQueue)
        invariant forall k | 0 <= k < i :: runs[k] == test(old(execs) + k, data) && !runs[k].crashed
        invariant MeasuredSoFar(sofar, runs)
      {
        var o := test(execs, data);
        execs := execs + 1;
        if o.crashed {
          NoteCrasher(data, o, known);
          runs := runs + [o];
          return None, runs;
        }
        MeasureMore(sofar, runs, o);
        sofar := Some(if sofar.None? then Add(Measured(o.cover, 0, MAX_EXEC_TIME), o) else Add(sofar.value, o));
        runs := runs + [o];
      }
      m := sofar;
    }

    /** Minimizes a new input; nothing that happens to rejected candidates on the way is lost. */
    method MinimizeNew(t: Triaged, test: Testee, known: set<Data>, corpusCover: seq<Byte>, newCover: seq<Byte>,
                       expired: nat -> bool, ghost p: Data -> bool)
      returns (res: Data, ghost tr: Trace)
      requires Valid() && Tables(test) && |corpusCover| == |t.cover| == COVER_SIZE
      requires Exceeds(corpusCover, t.cover) && newCover == Novelty(corpusCover, t.cover)
      modifies this
      ensures Valid() && Sub(false, res, t.data)
      ensures tr.test == test && tr.from == old(execs) && execs == tr.from + |tr.log|
      ensures LogOk(InputVerdict(test, tr.from, newCover, t.res), tr.log) && res == LastAccepted(t.data, tr.log)
      ensures AllSub(false, tr.log, t.data)
      ensures res == t.data || exists n: nat :: tr.from <= n < execs && KeepsNovelty(test(n, res), t, corpusCover)
      ensures (forall c: nat :: !expired(c)) && Monotone(InputVerdict(test, tr.from, newCover, t.res), p, t.data) ==>
              Minimal(p, res)
      ensures (forall c: nat :: !expired(c)) ==>
                Run(res, tr.log) == FullRun(InputVerdict(test, tr.from, newCover, t.res), t.data, false)
      ensures crasherQueue == old(crasherQueue) + CrashNotes(tr, supp, known)
      ensures var f := InputNotes(counters, tr, t.depth + 1, old(maxCover));
              triageQueue == old(triageQueue) + f.queue && maxCover == f.maxCover
    {
      hide FullRun, Novelty, Sub, AllSub, Monotone, Minimal, CrashNotes, InputNotes, JoinAll, Quantized, LogOk,
           LastAccepted,
           KeepsNovelty;
      var verdict := InputVerdict(test, execs, newCover, t.res);
      var tests, log;
      res, tests, log := MinimizeInput(t.data, false, verdict, expired, p);
      if res != t.data {
        Accepted(t.data, test, execs, corpusCover, t, log, tests, res);
      }
      tr := Trace(test, execs, log);
      NoteRejected(Trace(test, execs, log), known, Some(t.depth + 1));
      execs := execs + tests;
    }

    /**
      A new input is measured and, unless it comes minimized, minimized without losing what its
      coverage has beyond the corpus. What goes to the hub carries the measurements of the original
      data. It is dropped only if it crashes or, when it would have to be minimized, if the corpus
      covers it already. Every crash of a run or of a rejected candidate is noted, and the coverage
      of every rejected candidate is in the maximum, with an input queued for it.
    */
    method TriageInput(given: Data, depth: nat, minimized: bool, test: Testee, known: set<Data>,
                       corpusCover: seq<Byte>, expired: nat -> bool, ghost p: Data -> bool)
      returns (out: Option<Triaged>, ghost runs: seq<Outcome>, ghost tr: Trace)
      requires Valid() && Tables(test) && |corpusCover| == COVER_SIZE
      modifies this
      ensures Valid()
      ensures tr.test == test && tr.from == old(execs) + |runs| && execs == tr.from + |tr.log|
      ensures var data := Cut(given);
              && RunsOf(runs, test, old(execs), data)
              && (out.Some? ==> TriagedFrom(out.value, runs, data, minimized, depth))
              && (out.None? ==> runs[|runs| - 1].crashed || (!minimized && NoneExceeds(corpusCover, runs)))
              && (out.Some? && !minimized ==> Delivered(out.value, data, tr, execs, corpusCover, expired, p))
      ensures AllSub(false, tr.log, Cut(given)) && (minimized || out.None? ==> tr.log == [])
      ensures crasherQueue == old(crasherQueue) + RunNotes(runs, supp, known, Cut(given)) + CrashNotes(tr, supp, known)
      ensures var f := InputNotes(counters, tr, depth + 1, old(maxCover));
              triageQueue == old(triageQueue) + f.queue && maxCover == f.maxCover
      ensures runs[|runs| - 1].crashed ==> CrashNoted(supp, known, Cut(given), runs[|runs| - 1], crasherQueue)
      ensures NothingLost(tr, supp, known, crasherQueue) && AllLooked(tr, maxCover)
    {
      hide IsMeasure, JoinAll, Cut, CrashNotes, InputNotes, Looked, CrashNoted, NoneExceeds, TriagedFrom,
           NoteOf, Delivered;
      var data := Cut(given);
      var m;
      m, runs := Measure(data, test, known);
      if m.None? {
        tr := Trace(test, execs, []);
        NoNotes(counters, tr, supp, known, depth + 1, maxCover);
        RunNoted(runs, supp, known, data, crasherQueue);
        return None, runs, tr;
      }
      out, tr := TriageMeasured(m.value, runs, data, depth, minimized, test, known, corpusCover, expired, p);
    }

    /** What follows when none of the three runs crashed. */
    method TriageMeasured(m: Measured, ghost runs: seq<Outcome>, data: Data, depth: nat, minimized: bool, test: Testee,
                          known: set<Data>, corpusCover: seq<Byte>, expired: nat -> bool, ghost p: Data -> bool)
      returns (out: Option<Triaged>, ghost tr: Trace)
      requires Valid() && Tables(test) && |corpusCover| == COVER_SIZE
      requires |runs| == 3 && (forall k | 0 <= k < 3 :: |runs[k].cover| == COVER_SIZE && !runs[k].crashed)
      requires IsMeasure(m, runs)
      modifies this
      ensures Valid()
      ensures tr.test == test && tr.from == old(execs) && execs == tr.from + |tr.log|
      ensures out.Some? ==> TriagedFrom(out.value, runs, data, minimized, depth)
      ensures out.None? ==> !minimized && NoneExceeds(corpusCover, runs)
      ensures out.Some? && !minimized ==> Delivered(out.value, data, tr, execs, corpusCover, expired, p)
      ensures AllSub(false, tr.log, data) && (minimized || out.None? ==> tr.log == [])
      ensures crasherQueue == old(crasherQueue) + CrashNotes(tr, supp, known)
      ensures var f := InputNotes(counters, tr, depth + 1, old(maxCover));
              triageQueue == old(triageQueue) + f.queue && maxCover == f.maxCover
      ensures NothingLost(tr, supp, known, crasherQueue) && AllLooked(tr, maxCover)
    {
      hide FullRun, IsMeasure, Novelty, Sub, Exceeds, NonZero, CrashNotes, InputNotes, JoinAll, Looked, CrashNoted,
           NoneExceeds, TriagedFrom, Delivered, NothingLost, AllLooked;
      tr := Trace(test, execs, []);
      NoNotes(counters, tr, supp, known, depth + 1, maxCover);
      var t := Triaged(!minimized, data, m.cover, 0, m.res, depth, m.execTime);
      MeasureSize(m, runs);
      SubRefl(false, data);
      if !minimized {
        var novelty, isNew := FindNewCover(corpusCover, t.cover);
        if !isNew {
          NotExceeded(corpusCover, m, runs);
          SettledAll(counters, tr, supp, known, depth + 1, maxCover, crasherQueue, crasherQueue);
          return None, tr;
        }
        assert novelty[..] == Novelty(corpusCover, t.cover);
        ghost var t0 := t;
        var res;
        res, tr := MinimizeNew(t, test, known, corpusCover, novelty[..], expired, p);
        t := t.(data := res);
        DeliveredIs(t0, res, tr, execs, corpusCover, expired, p);
      }
      SettledAll(counters, tr, supp, known, depth + 1, old(maxCover), old(crasherQueue), crasherQueue);
      var coverSize := CountNonZero(t.cover);
      t := t.(coverSize := coverSize);
      TriagedIs(t, m, runs, data, minimized, depth);
      out := Some(t);
    }

    /**
      A crasher that does not hang is minimized to one that crashes in the same way; its error is that
      of its last run. The other crashes on the way are noted; coverage plays no part.
    */
    method ProcessCrasher(crash: Crasher, test: Testee, known: set<Data>, expired: nat -> bool)
      returns (out: Crasher, ghost tr: Trace)
      requires Valid() && Tables(test)
      modifies this
      ensures Valid() && maxCover == old(maxCover) && triageQueue == old(triageQueue)
      ensures out.suppression == crash.suppression && out.hanging == crash.hanging
      ensures tr.test == test && tr.from == old(execs) && execs == tr.from + |tr.log|
      ensures crash.hanging ==> out == crash && tr.log == []
      ensures !crash.hanging && (forall c: nat :: !expired(c)) ==>
                Run(out.data, tr.log) == FullRun(CrashVerdict(test, tr.from, supp, crash.suppression), crash.data, true)
      ensures LogOk(CrashVerdict(test, tr.from, supp, crash.suppression), tr.log)
      ensures out.data == LastAccepted(crash.data, tr.log) && Sub(true, out.data, crash.data)
      ensures ErrorOf(test, tr.from, |tr.log|, supp, out, crash)
      ensures crasherQueue == old(crasherQueue) + CrashNotes(tr, supp, known)
      ensures NothingLost(tr, supp, known, crasherQueue)
    {
      hide FullRun, Sub, CrashNotes, InputNotes, JoinAll, Quantized, CrashNoted;
      out := crash;
      SubRefl(true, crash.data);
      tr := Trace(test, execs, []);
      NoNotes(counters, tr, supp, known, 0, maxCover);
      if !crash.hanging {
        var verdict := CrashVerdict(test, execs, supp, crash.suppression);
        var res, tests, log := MinimizeInput(crash.data, true, verdict, expired, _ => true);
        var error := LastError(test, execs, supp, crash, log);
        tr := Trace(test, execs, log);
        NoteRejected(Trace(test, execs, log), known, None);
        execs := execs + tests;
        out := crash.(data := res, error := error);
      }
      SettledAll(counters, tr, supp, known, 0, maxCover, old(crasherQueue), crasherQueue);
    }
  }

  /** One to three runs of the data, of which only the last may have crashed. */
  predicate RunsOf(runs: seq<Outcome>, test: Testee, from: nat, data: Data)
  {
    && 1 <= |runs| <= 3 && (forall k | 0 <= k < |runs| :: runs[k] == test(from + k, data))
    && (forall k | 0 <= k < |runs| - 1 :: !runs[k].crashed)
  }

  predicate NoneExceeds(base: seq<Byte>, runs: seq<Outcome>)
    requires forall k | 0 <= k < |runs| :: |runs[k].cover| == |base|
  {
    forall k | 0 <= k < |runs| :: !Exceeds(base, runs[k].cover)
  }

  /**
    What minimization promises of an input: its coverage is new, some run of its data has all that is
    new of it, it is the last candidate accepted, and under a predicate that fits it is minimal.
  */
  ghost predicate Delivered(t: Triaged, data: Data, tr: Trace, end: nat, corpusCover: seq<Byte>, expired: nat -> bool,
                            p: Data -> bool)
    requires Tables(tr.test) && |corpusCover| == |t.cover| == COVER_SIZE
  {
    && Exceeds(corpusCover, t.cover)
    && (t.data == data || exists n: nat :: tr.from <= n < end && KeepsNovelty(tr.test(n, t.data), t, corpusCover))
    && var verdict := InputVerdict(tr.test, tr.from, Novelty(corpusCover, t.cover), t.res);
       && LogOk(verdict, tr.log) && t.data == LastAccepted(data, tr.log)
       && ((forall c: nat :: !expired(c)) ==> Run(t.data, tr.log) == FullRun(verdict, data, false))
       && ((forall c: nat :: !expired(c)) && Monotone(verdict, p, data) ==> Minimal(p, t.data))
  }

  /** The size of the coverage plays no part in it. */
  lemma DeliveredIs(t0: Triaged, res: Data, tr: Trace, end: nat, corpusCover: seq<Byte>, expired: nat -> bool,
                    p: Data -> bool)
    requires Tables(tr.test) && |corpusCover| == |t0.cover| == COVER_SIZE && Exceeds(corpusCover, t0.cover)
    requires res == t0.data
             || exists n: nat :: tr.from <= n < end && KeepsNovelty(tr.test(n, res), t0, corpusCover)
    requires var verdict := InputVerdict(tr.test, tr.from, Novelty(corpusCover, t0.cover), t0.res);
             && LogOk(verdict, tr.log) && res == LastAccepted(t0.data, tr.log)
             && ((forall c: nat :: !expired(c)) ==> Run(res, tr.log) == FullRun(verdict, t0.data, false))
             && ((forall c: nat :: !expired(c)) && Monotone(verdict, p, t0.data) ==> Minimal(p, res))
    ensures forall size: nat ::
              Delivered(t0.(data := res, coverSize := size), t0.data, tr, end, corpusCover, expired, p)
  {
    hide LogOk, Monotone, Minimal, InputVerdict, LastAccepted, Novelty, Exceeds, FullRun;
    forall size: nat ensures Delivered(t0.(data := res, coverSize := size), t0.data, tr, end, corpusCover, expired, p) {
      var t := t0.(data := res, coverSize := size);
      if res != t0.data {
        var n: nat :| tr.from <= n < end && KeepsNovelty(tr.test(n, res), t0, corpusCover);
        assert KeepsNovelty(tr.test(n, t.data), t, corpusCover);
      }
    }
  }

  /** The note made when a run crashes. */
  function RunNotes(runs: seq<Outcome>, supp: Data -> Data, known: set<Data>, data: Data): seq<Crasher>
    requires runs != []
  {
    if runs[|runs| - 1].crashed then NoteOf(supp, known, data, runs[|runs| - 1]) else []
  }

  lemma RunNoted(runs: seq<Outcome>, supp: Data -> Data, known: set<Data>, data: Data, queue: seq<Crasher>)
    requires runs != [] && runs[|runs| - 1].crashed
    requires forall c :: c in NoteOf(supp, known, data, runs[|runs| - 1]) ==> c in queue
    ensures CrashNoted(supp, known, data, runs[|runs| - 1], queue)
  {
  }

  /** Every crash of a rejected candidate has a known suppression or is queued. */
  predicate NothingLost(tr: Trace, supp: Data -> Data, known: set<Data>, queue: seq<Crasher>)
  {
    forall n | 0 <= n < |tr.log| && !tr.log[n].ok && tr.Run(n).crashed ::
      CrashNoted(supp, known, tr.log[n].candidate, tr.Run(n), queue)
  }

  predicate AllLooked(tr: Trace, maxCover: seq<Byte>)
  {
    forall n | 0 <= n < |tr.log| && !tr.log[n].ok :: Looked(tr.Run(n), maxCover)
  }

  lemma {:induction false} SettledAll(counters: bool, tr: Trace, supp: Data -> Data, known: set<Data>, depth: int,
                                      base: seq<Byte>,
                   before: seq<Crasher>, queue: seq<Crasher>)
    requires Tables(tr.test) && |base| == COVER_SIZE && Quantized(counters, base)
    requires queue == before + CrashNotes(tr, supp, known)
    ensures NothingLost(tr, supp, known, queue)
    ensures AllLooked(tr, InputNotes(counters, tr, depth, base).maxCover)
  {
    hide CrashNotes, InputNotes, Looked;
    forall n | 0 <= n < |tr.log| && !tr.log[n].ok && tr.Run(n).crashed
      ensures CrashNoted(supp, known, tr.log[n].candidate, tr.Run(n), queue)
    {
      CrashesNoted(tr, supp, known, n);
    }
    forall n | 0 <= n < |tr.log| && !tr.log[n].ok
      ensures Looked(tr.Run(n), InputNotes(counters, tr, depth, base).maxCover)
    {
      InputsNoted(counters, tr, depth, base, n);
    }
  }

  lemma {:induction false} TriagedIs(t: Triaged, m: Measured, runs: seq<Outcome>, data: Data, minimized: bool,
                                     depth: nat)
    requires forall k | 0 <= k < |runs| :: |runs[k].cover| == COVER_SIZE
    requires |runs| == 3 && (forall k | 0 <= k < 3 :: !runs[k].crashed) && IsMeasure(m, runs)
    requires t.cover == m.cover && t.res == m.res && t.execTime == m.execTime && t.coverSize == NonZero(t.cover)
    requires t.mine == !minimized && t.depth == depth
    requires if minimized then t.data == data else Sub(false, t.data, data)
    ensures TriagedFrom(t, runs, data, minimized, depth)
  {
  }

  function Cut(data: Data): Data
  {
    if |data| > MAX_INPUT_SIZE then data[..MAX_INPUT_SIZE] else data
  }

  predicate TriagedFrom(t: Triaged, runs: seq<Outcome>, data: Data, minimized: bool, depth: nat)
    requires forall k | 0 <= k < |runs| :: |runs[k].cover| == COVER_SIZE
  {
    && |runs| == 3 && (forall k | 0 <= k < 3 :: !runs[k].crashed)
    && IsMeasure(Measured(t.cover, t.res, t.execTime), runs)
    && |t.cover| == COVER_SIZE && t.coverSize == NonZero(t.cover)
    && t.mine == !minimized && t.depth == depth
    && if minimized then t.data == data else Sub(false, t.data, data)
  }

  /** A run that did not crash, had the result of the input, and had all of its coverage beyond the corpus. */
  predicate KeepsNovelty(o: Outcome, t: Triaged, corpusCover: seq<Byte>)
    requires |o.cover| == |t.cover| == |corpusCover|
  {
    !o.crashed && o.res == t.res && PointLe(Novelty(corpusCover, t.cover), o.cover) && Exceeds(corpusCover, o.cover)
  }

  predicate SameCrash(o: Outcome, supp: Data -> Data, c: Crasher)
  {
    o.crashed && !o.hanged && supp(o.output) == c.suppression && o.output == c.error
  }

  /**
    Data and error are those of the crasher as it was, or those of one of these runs, which
    crashed in the same way.
  */
  predicate ErrorOf(test: Testee, from: nat, count: nat, supp: Data -> Data, c: Crasher, was: Crasher)
  {
    (c.data == was.data && c.error == was.error) || exists n: nat ::
      from <= n < from + count && SameCrash(test(n, c.data), supp, c)
  }

  lemma {:induction false} NoNotes(counters: bool, tr: Trace, supp: Data -> Data, known: set<Data>, depth: int,
                                   base: seq<Byte>)
    requires Tables(tr.test) && |base| == COVER_SIZE
    ensures CrashNotes(tr.Before(0), supp, known) == []
    ensures InputNotes(counters, tr.Before(0), depth, base) == Found([], [], base)
  {
  }

  lemma {:induction false} MoreNotes(counters: bool, tr: Trace, supp: Data -> Data, known: set<Data>, depth: int,
                                     base: seq<Byte>, k: nat)
    requires Tables(tr.test) && |base| == COVER_SIZE && k < |tr.log|
    ensures var o, data := tr.Run(k), tr.log[k].candidate;
            && CrashNotes(tr.Before(k + 1), supp, known) == CrashNotes(tr.Before(k), supp, known)
               + (if o.crashed && !tr.log[k].ok then NoteOf(supp, known, data, o) else [])
            && var f := InputNotes(counters, tr.Before(k), depth, base);
               InputNotes(counters, tr.Before(k + 1), depth, base) ==
               if tr.log[k].ok || o.crashed then f else Noted(counters, f, data, depth, o)
  {
    assert tr.Before(k + 1).Before(k) == tr.Before(k);
    assert tr.Before(k + 1).Run(k) == tr.Run(k);
  }

  lemma OneNote(counters: bool, f: Found, data: Data, depth: int, o: Outcome)
    requires |f.maxCover| == |o.cover| == COVER_SIZE
    ensures var taken := o.res >= 0 && Exceeds(f.maxCover, o.cover);
            var r := Noted(counters, f, data, depth, o);
            && r.queue == f.queue + (if taken then [NewInput(data, depth)] else [])
            && r.maxCover == if taken then Join(counters, f.maxCover, o.cover) else f.maxCover
  {
  }

  lemma MeasureSize(m: Measured, runs: seq<Outcome>)
    requires forall k | 0 <= k < |runs| :: |runs[k].cover| == COVER_SIZE
    requires IsMeasure(m, runs)
    ensures |m.cover| == COVER_SIZE
  {
  }

  lemma NotExceeded(base: seq<Byte>, m: Measured, runs: seq<Outcome>)
    requires |base| == COVER_SIZE && forall k | 0 <= k < |runs| :: |runs[k].cover| == COVER_SIZE
    requires IsMeasure(m, runs) && !Exceeds(base, m.cover)
    ensures NoneExceeds(base, runs)
  {
    assert forall i | 0 <= i < COVER_SIZE :: m.cover[i] <= base[i];
    forall k | 0 <= k < |runs| ensures !Exceeds(base, runs[k].cover) {
      assert PointLe(runs[k].cover, m.cover);
    }
  }

  /** The run that accepted the result of a minimization. */
  lemma {:induction false} Accepted(data: Data, test: Testee, from: nat, corpusCover: seq<Byte>, t: Triaged,
                                    log: seq<Trial>, tests: nat,
                 res: Data)
    requires Tables(test) && |corpusCover| == |t.cover| == COVER_SIZE && Exceeds(corpusCover, t.cover)
    requires LogOk(InputVerdict(test, from, Novelty(corpusCover, t.cover), t.res), log)
    requires tests == |log| && res == LastAccepted(data, log) && res != data
    ensures exists n: nat :: from <= n < from + tests && KeepsNovelty(test(n, res), t, corpusCover)
  {
    var novelty := Novelty(corpusCover, t.cover);
    var verdict := InputVerdict(test, from, novelty, t.res);
    Provenance(data, verdict, log);
    var n: nat :| n < |log| && log[n].candidate == res && verdict(n, res);
    var o := test(from + n, res);
    assert InputKept(novelty, t.res, o);
    NoveltyKept(corpusCover, t.cover, o.cover);
    assert KeepsNovelty(test(from + n, res), t, corpusCover);
  }

  method CountNonZero(t: seq<Byte>) returns (n: nat)
    ensures n == NonZero(t)
  {
    n := 0;
    for i := 0 to |t|
      invariant n == NonZero(t[..i])
    {
      assert t[..i + 1][..i] == t[..i];
      if t[i] != 0 {
        n := n + 1;
      }
    }
    assert t[..|t|] == t;
  }

  lemma LoggedCrash(test: Testee, from: nat, supp: Data -> Data, crash: Crasher, log: seq<Trial>, k: nat)
    requires LogOk(CrashVerdict(test, from, supp, crash.suppression), log) && k < |log| && log[k].ok
    ensures CrashKept(supp, crash.suppression, test(from + k, log[k].candidate))
  {
    var verdict := CrashVerdict(test, from, supp, crash.suppression);
    assert log[k].ok == verdict(k, log[k].candidate);
  }

  /** The error recorded by the predicate for crashers: the output of the last accepted run. */
  method LastError(test: Testee, from: nat, supp: Data -> Data, crash: Crasher, log: seq<Trial>) returns (error: Data)
    requires LogOk(CrashVerdict(test, from, supp, crash.suppression), log)
    ensures ErrorOf(test, from, |log|, supp, crash.(data := LastAccepted(crash.data, log), error := error), crash)
  {
    error := crash.error;
    for k := 0 to |log|
      invariant ErrorOf(test, from, k, supp, crash.(data := LastAccepted(crash.data, log[..k]), error := error), crash)
    {
      assert log[..k + 1][..k] == log[..k] && log[..k + 1][k] == log[k];
      ghost var was := crash.(data := LastAccepted(crash.data, log[..k]), error := error);
      if log[k].ok {
        LoggedCrash(test, from, supp, crash, log, k);
        var o := test(from + k, log[k].candidate);
        error := o.output;
        assert SameCrash(test(from + k, log[k].candidate), supp, crash.(data := log[k].candidate, error := error));
      } else if was.data != crash.data || error != crash.error {
        var n: nat :| from <= n < from + k && SameCrash(test(n, was.data), supp, was);
      }
    }
    assert log[..|log|] == log;
  }

  // ----- Lost coverage -----------------------------------------------------------------

  /** A program that reaches slot 0 on two or more bytes, slots 0 and 1 on one byte, and nothing on none. */
  function Shy(n: nat, d: Data): Outcome
  {
    var slots: set<nat> := if |d| >= 2 then {0} else if |d| == 1 then {0, 1} else {};
    Outcome(0, 1, Marked(slots), [], false, false)
  }

  predicate NotEmpty(d: Data)
  {
    |d| >= 1
  }

  function Same(d: Data): Data
  {
    d
  }

  function Never(c: nat): bool
  {
    false
  }

  lemma ShyVerdict(from: nat, n: nat, d: Data)
    ensures InputVerdict(Shy, from, Marked({0}), 0)(n, d) <==> |d| >= 1
  {
    assert Marked({0})[0] == 255;
    var o := Shy(from + n, d);
    assert InputVerdict(Shy, from, Marked({0}), 0)(n, d) == InputKept(Marked({0}), 0, o);
    if |d| >= 1 {
      assert PointLe(Marked({0}), o.cover);
    } else {
      assert o.cover[0] == 0;
    }
  }

  lemma ShyIsMonotone(from: nat, data: Data)
    requires |data| >= 1
    ensures Monotone(InputVerdict(Shy, from, Marked({0}), 0), NotEmpty, data)
  {
    forall n: nat, d: Data ensures InputVerdict(Shy, from, Marked({0}), 0)(n, d) <==> |d| >= 1 {
      ShyVerdict(from, n, d);
    }
    forall a: Data, b: Data | Sub(false, a, b) && |a| >= 1 ensures |b| >= 1 {
      SubLonger(false, a, b);
    }
  }

  lemma MinimalIsShort(d: Data)
    requires Minimal(NotEmpty, d)
    ensures |d| == 1
  {
    if |d| >= 2 {
      WithoutIsSub(false, d, 1, |d|);
      assert |Without(d, 1, |d|)| == 1;
    }
  }

  /** Rejected candidates of this program are empty and reach nothing. */
  lemma {:induction false} ShyNotes(counters: bool, tr: Trace, depth: int)
    requires tr.test == Shy && LogOk(InputVerdict(Shy, tr.from, Marked({0}), 0), tr.log)
    ensures InputNotes(counters, tr, depth, Marked({0})) == Found([], [], Marked({0}))
    decreases |tr.log|
  {
    if tr.log != [] {
      var k := |tr.log| - 1;
      assert forall n | 0 <= n < k :: tr.log[..k][n] == tr.log[n];
      ShyNotes(counters, tr.Before(k), depth);
      ShyVerdict(tr.from, k, tr.log[k].candidate);
    }
  }

  lemma ShyMeasure(m: Measured, runs: seq<Outcome>, from: nat)
    requires |runs| == 3 && forall k | 0 <= k < 3 :: runs[k] == Shy(from + k, [0, 0]) && |runs[k].cover| == COVER_SIZE
    requires IsMeasure(m, runs)
    ensures m.cover == Marked({0}) && m.res == 0
  {
    forall i | 0 <= i < COVER_SIZE ensures m.cover[i] == Marked({0})[i] {
      var k :| 0 <= k < |runs| && runs[k].cover[i] == m.cover[i];
    }
  }

  /** What triage of two bytes comes to. */
  lemma {:induction false} ShyTriage(counters: bool, out: Option<Triaged>, runs: seq<Outcome>, tr: Trace, data: Data)
    requires data == [0, 0] && tr.test == Shy && RunsOf(runs, Shy, 0, data)
    requires if out.None? then runs[|runs| - 1].crashed || NoneExceeds(Marked({}), runs)
             else TriagedFrom(out.value, runs, data, false, 0)
                  && var verdict := InputVerdict(Shy, tr.from, Novelty(Marked({}), out.value.cover), out.value.res);
                     LogOk(verdict, tr.log) && (Monotone(verdict, NotEmpty, data) ==> Minimal(NotEmpty, out.value.data))
    ensures out.Some? && |out.value.data| == 1 && out.value.cover == Marked({0})
    ensures InputNotes(counters, tr, 1, Marked({0})) == Found([], [], Marked({0}))
  {
    hide LogOk, Monotone, Minimal, InputVerdict, InputNotes, IsMeasure;
    assert !runs[|runs| - 1].crashed;
    assert runs[0].cover[0] == 255;
    assert Exceeds(Marked({}), runs[0].cover);
    assert out.Some?;
    var t := out.value;
    ShyMeasure(Measured(t.cover, t.res, t.execTime), runs, 0);
    assert Novelty(Marked({}), t.cover) == Marked({0});
    ShyIsMonotone(tr.from, data);
    MinimalIsShort(t.data);
    ShyNotes(counters, tr, 1);
  }

  /**
    An execution in which coverage is lost: the minimized input alone reaches slot 1, and neither the
    maximal coverage nor the coverage that goes to the hub with it has that slot.
  */
  method AcceptedCoverageIsLost(counters: bool) returns (w: Worker, t: Triaged)
    ensures w.Valid() && w.triageQueue == []
    ensures |t.data| == 1 && t.cover == w.maxCover && t.cover[1] == 0
    ensures forall n: nat :: Shy(n, t.data).cover[1] == 255
  {
    hide FullRun, LogOk, Monotone, Minimal, InputVerdict, InputNotes, CrashNotes, IsMeasure, TriagedFrom, NoneExceeds,
         Novelty,
         KeepsNovelty, LastAccepted, Exceeds, NothingLost, AllLooked, CrashNoted;
    w := new Worker(counters, Same, Marked({0}));
    var out;
    ghost var runs, tr;
    var data: Data := [0, 0];
    out, runs, tr := w.TriageInput(data, 0, false, Shy, {}, Marked({}), Never, NotEmpty);
    ShyTriage(counters, out, runs, tr, data);
    t := out.value;
  }
}
