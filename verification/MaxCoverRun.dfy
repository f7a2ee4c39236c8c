/**
  Workers and the hub raising the maximal coverage concurrently. The atomic steps are the first
  unlocked load and comparison, taking the lock, the second load and comparison, and the store that
  ends the call; the lock is released with the return. The hub raises its corpus coverage after its
  own call has returned.
*/
module MaxCoverRun {
  import opened Cover
  import opened Wrappers

  /** Where a goroutine is: outside, past the first check, holding the lock, about to store, or back from the call. */
  datatype Pc =
    | Idle
    | Checked(cover: seq<Byte>)
    | Locked(cover: seq<Byte>)
    | Loaded(cover: seq<Byte>, base: seq<Byte>)
    | Done(cover: seq<Byte>)

  datatype State = State(
    maxCover: seq<Byte>,
    corpusCover: seq<Byte>,
    lock: Option<nat>,
    pcs: map<nat, Pc>,
    won: seq<seq<Byte>>   // covers of the calls that returned true, in order
  )

  /** Goroutine 0 is the hub. */
  const HUB: nat := 0

  datatype Step =
    | Start(t: nat, cover: seq<Byte>)   // load and first comparison
    | Acquire(t: nat)
    | Recheck(t: nat)                   // load and second comparison under the lock
    | Publish(t: nat)                   // store, unlock and return true
    | Return(t: nat)
    | HubStore                          // the hub raises the corpus coverage

  predicate Init(s: State)
  {
    && |s.maxCover| == COVER_SIZE && (forall i | 0 <= i < COVER_SIZE :: s.maxCover[i] == 0)
    && s.corpusCover == s.maxCover
    && s.lock == None && s.won == []
    && forall t | t in s.pcs :: s.pcs[t].Idle?
  }

  predicate Next(counters: bool, s: State, s': State, step: Step)
  {
    match step
    case Start(t, cover) =>
      && t in s.pcs && s.pcs[t].Idle? && |cover| == |s.maxCover|
      && s' == s.(pcs := s.pcs[t := if Exceeds(s.maxCover, cover) then Checked(cover) else Done(cover)])
    case Acquire(t) =>
      && t in s.pcs && s.pcs[t].Checked? && s.lock == None
      && s' == s.(pcs := s.pcs[t := Locked(s.pcs[t].cover)], lock := Some(t))
    case Recheck(t) =>
      && t in s.pcs && s.pcs[t].Locked? && |s.pcs[t].cover| == |s.maxCover|
      && var cover := s.pcs[t].cover;
         s' == if Exceeds(s.maxCover, cover) then s.(pcs := s.pcs[t := Loaded(cover, s.maxCover)])
               else s.(pcs := s.pcs[t := Done(cover)], lock := None)
    case Publish(t) =>
      && t in s.pcs && s.pcs[t].Loaded? && |s.pcs[t].base| == |s.pcs[t].cover|
      && var cover := s.pcs[t].cover;
         s' == s.(maxCover := Join(counters, s.pcs[t].base, cover), pcs := s.pcs[t := Done(cover)], lock := None,
           won := s.won + [cover])
    case Return(t) =>
      && t in s.pcs && s.pcs[t].Done? && t != HUB
      && s' == s.(pcs := s.pcs[t := Idle])
    case HubStore =>
      && HUB in s.pcs && s.pcs[HUB].Done? && |s.corpusCover| == |s.pcs[HUB].cover|
      && s' == s.(corpusCover := Join(counters, s.corpusCover, s.pcs[HUB].cover), pcs := s.pcs[HUB := Idle])
  }

  predicate PcOk(s: State, t: nat)
    requires t in s.pcs
  {
    match s.pcs[t]
    case Idle => true
    case Checked(c) => |c| == COVER_SIZE
    case Locked(c) => |c| == COVER_SIZE && s.lock == Some(t)
    case Loaded(c, base) => |c| == COVER_SIZE && s.lock == Some(t) && base == s.maxCover && |base| == |c|
      && Exceeds(base, c)
    case Done(c) => PointLe(c, s.maxCover)
  }

  /** A lock that is taken is held by a goroutine between taking and releasing it. */
  predicate LockHeld(s: State)
  {
    s.lock.Some? ==> s.lock.value in s.pcs && (s.pcs[s.lock.value].Locked? || s.pcs[s.lock.value].Loaded?)
  }

  /** What every step keeps. */
  predicate Inv(counters: bool, s: State)
  {
    && |s.maxCover| == COVER_SIZE
    && Quantized(counters, s.maxCover) && Quantized(counters, s.corpusCover) && PointLe(s.corpusCover, s.maxCover)
    && (forall t | t in s.pcs :: PcOk(s, t))
    && LockHeld(s)
    && (forall k | 0 <= k < |s.won| :: PointLe(s.won[k], s.maxCover))
    && (forall j, k | 0 <= j < k < |s.won| :: s.won[j] != s.won[k])
    && |s.won| <= LevelSum(counters, s.maxCover)
  }

  lemma InitInv(counters: bool, s: State)
    requires Init(s)
    ensures Inv(counters, s)
  {
  }

  lemma PointLeTrans(a: seq<Byte>, b: seq<Byte>, c: seq<Byte>)
    requires PointLe(a, b) && PointLe(b, c)
    ensures PointLe(a, c)
  {
  }

  /** A store under the lock: the stored table is above everything that held of the old one, and the winner is new. */
  lemma PublishInv(counters: bool, s: State, s': State, t: nat)
    requires Inv(counters, s) && Next(counters, s, s', Publish(t))
    ensures Inv(counters, s') && PointLe(s.maxCover, s'.maxCover)
  {
    hide Join, Exceeds, Quantized, LevelSum, PointLe;
    var cover := s.pcs[t].cover;
    assert PcOk(s, t);
    JoinEffect(counters, s.maxCover, cover);
    PointLeTrans(s.corpusCover, s.maxCover, s'.maxCover);
    forall u | u in s'.pcs ensures PcOk(s', u) {
      PublishPc(counters, s, s', t, u);
    }
    hide PcOk;
    PublishWon(s.won, cover, s.maxCover, s'.maxCover);
  }

  /** What won earlier is below the table, so the winner differs from it. */
  lemma PublishWon(won: seq<seq<Byte>>, cover: seq<Byte>, base: seq<Byte>, raised: seq<Byte>)
    requires forall k | 0 <= k < |won| :: PointLe(won[k], base)
    requires forall j, k | 0 <= j < k < |won| :: won[j] != won[k]
    requires PointLe(base, raised) && PointLe(cover, raised) && |cover| == |base| && Exceeds(base, cover)
    ensures var won' := won + [cover];
            && (forall k | 0 <= k < |won'| :: PointLe(won'[k], raised))
            && (forall j, k | 0 <= j < k < |won'| :: won'[j] != won'[k])
  {
    hide PointLe, Exceeds;
    forall k | 0 <= k < |won| ensures PointLe(won[k], raised) && won[k] != cover {
      PointLeTrans(won[k], base, raised);
      NotExceeding(won[k], base);
    }
  }

  /** The storing goroutine is done, and no other one holds the lock. */
  lemma PublishPc(counters: bool, s: State, s': State, t: nat, u: nat)
    requires Next(counters, s, s', Publish(t)) && u in s'.pcs && PcOk(s, t) && PcOk(s, u)
    requires PointLe(s.maxCover, s'.maxCover) && PointLe(s.pcs[t].cover, s'.maxCover)
    ensures PcOk(s', u)
  {
    hide Join, Exceeds, PointLe;
    if u != t && s.pcs[u].Done? {
      PointLeTrans(s.pcs[u].cover, s.maxCover, s'.maxCover);
    }
  }

  lemma NotExceeding(c: seq<Byte>, base: seq<Byte>)
    requires PointLe(c, base)
    ensures !Exceeds(base, c)
  {
  }

  lemma NotExceedingIsBelow(c: seq<Byte>, base: seq<Byte>)
    requires |c| == |base| && !Exceeds(base, c)
    ensures PointLe(c, base)
  {
  }

  lemma NextInv(counters: bool, s: State, s': State, step: Step)
    requires Inv(counters, s) && Next(counters, s, s', step)
    ensures Inv(counters, s') && PointLe(s.maxCover, s'.maxCover) && s.won <= s'.won
  {
    if step.Publish? {
      PublishInv(counters, s, s', step.t);
    } else {
      OtherInv(counters, s, s', step);
    }
  }

  lemma OtherInv(counters: bool, s: State, s': State, step: Step)
    requires Inv(counters, s) && Next(counters, s, s', step) && !step.Publish?
    ensures Inv(counters, s') && PointLe(s.maxCover, s'.maxCover) && s.won <= s'.won
  {
    var t := if step.HubStore? then HUB else step.t;
    assert PcOk(s, t);
    if step.HubStore? {
      var cover := s.pcs[HUB].cover;
      JoinEffect(counters, s.corpusCover, cover);
      JoinBelow(counters, s.corpusCover, cover, s.maxCover);
    }
    if step.Start? && !Exceeds(s.maxCover, step.cover) {
      NotExceedingIsBelow(step.cover, s.maxCover);
    }
    if step.Recheck? && !Exceeds(s.maxCover, s.pcs[t].cover) {
      NotExceedingIsBelow(s.pcs[t].cover, s.maxCover);
    }
    hide Join, Exceeds, Quantized, LevelSum;
    forall u | u in s'.pcs ensures PcOk(s', u) {
      assert u in s.pcs && PcOk(s, u);
    }
  }

  /**
    The step that a goroutine in the middle of a call takes next; one that waits for the lock lets
    its holder go on.
  */
  function NextStep(s: State, t: nat): Step
    requires t in s.pcs && !s.pcs[t].Idle?
  {
    match s.pcs[t]
    case Checked(_) => if s.lock.Some? then HolderStep(s, s.lock.value) else Acquire(t)
    case Done(_) => if t == HUB then HubStore else Return(t)
    case _ => HolderStep(s, t)
  }

  function HolderStep(s: State, t: nat): Step
  {
    if t in s.pcs && s.pcs[t].Loaded? then Publish(t) else Recheck(t)
  }

  /** No call is ever stuck: while one is under way, a step that goes on with a call can be taken. */
  lemma Progress(counters: bool, s: State, t: nat)
    requires Inv(counters, s) && t in s.pcs && !s.pcs[t].Idle?
    ensures exists s' :: Next(counters, s, s', NextStep(s, t))
    ensures !NextStep(s, t).Start?
  {
    assert PcOk(s, t);
    var step := NextStep(s, t);
    var u := if step.HubStore? then HUB else step.t;
    assert PcOk(s, u);
    var pc := s.pcs[u];
    var idle, done := s.pcs[u := Idle], s.pcs[u := Done(pc.cover)];
    var s' := match step
      case Acquire(_) => s.(pcs := s.pcs[u := Locked(pc.cover)], lock := Some(u))
      case Publish(_) => s.(maxCover := Join(counters, pc.base, pc.cover), pcs := done, lock := None,
          won := s.won + [pc.cover])
      case HubStore => s.(corpusCover := Join(counters, s.corpusCover, pc.cover), pcs := idle)
      case Return(_) => s.(pcs := idle)
      case Recheck(_) =>
        if Exceeds(s.maxCover, pc.cover) then s.(pcs := s.pcs[u := Loaded(pc.cover, s.maxCover)])
        else s.(pcs := done, lock := None);
    hide Exceeds, Join, Quantized, LevelSum, PointLe;
    assert Next(counters, s, s', step);
  }

  /** The maximal coverage is quantized, so it stays above a join with anything below it. */
  lemma JoinBelow(counters: bool, a: seq<Byte>, c: seq<Byte>, m: seq<Byte>)
    requires PointLe(a, m) && PointLe(c, m) && Quantized(counters, m)
    ensures PointLe(Join(counters, a, c), m)
  {
    forall i | 0 <= i < |m| ensures Join(counters, a, c)[i] <= m[i] {
      RoundUpIsClosure(counters, c[i], m[i]);
      assert IsLevel(counters, m[i]);
    }
  }

  lemma PointLeRefl(a: seq<Byte>)
    ensures PointLe(a, a)
  {
  }

  lemma WonBound(counters: bool, s: State)
    requires Inv(counters, s)
    ensures |s.won| <= MaxLevel(counters) * COVER_SIZE
  {
    LevelSumBound(counters, s.maxCover);
  }

  // ----- Runs --------------------------------------------------------------------------

  predicate IsRun(counters: bool, run: seq<State>, steps: seq<Step>)
  {
    && |run| == |steps| + 1 && Init(run[0])
    && forall i | 0 <= i < |steps| :: Next(counters, run[i], run[i + 1], steps[i])
  }

  /**
    In every interleaving: the maximal coverage only grows, the corpus coverage stays below it and
    both are quantized, no two calls with the same cover return true, and at most ten calls per slot
    (one with counters off) return true at all.
  */
  lemma {:induction false} EveryRun(counters: bool, run: seq<State>, steps: seq<Step>, i: nat, j: nat)
    requires IsRun(counters, run, steps) && i <= j < |run|
    ensures Inv(counters, run[j]) && PointLe(run[i].maxCover, run[j].maxCover) && run[i].won <= run[j].won
    ensures |run[j].won| <= MaxLevel(counters) * COVER_SIZE
    decreases j
  {
    hide Inv, Init, Next, PointLe, LevelSum;
    if j == 0 {
      InitInv(counters, run[0]);
      PointLeRefl(run[0].maxCover);
    } else if i == j {
      EveryRun(counters, run, steps, j - 1, j - 1);
      assert Next(counters, run[j - 1], run[j - 1 + 1], steps[j - 1]);
      NextInv(counters, run[j - 1], run[j], steps[j - 1]);
      PointLeRefl(run[j].maxCover);
    } else {
      EveryRun(counters, run, steps, i, j - 1);
      assert Next(counters, run[j - 1], run[j - 1 + 1], steps[j - 1]);
      NextInv(counters, run[j - 1], run[j], steps[j - 1]);
      PointLeTrans(run[i].maxCover, run[j - 1].maxCover, run[j].maxCover);
    }
    WonBound(counters, run[j]);
  }

  /**
    A call returns true only if its cover was beyond the maximum when it took the lock, and then
    no later call with that cover does.
  */
  lemma {:induction false} WinnersAreFinal(counters: bool, run: seq<State>, steps: seq<Step>, i: nat, j: nat, t: nat,
                                           u: nat)
    requires IsRun(counters, run, steps) && i < j < |steps|
    requires steps[i] == Publish(t) && steps[j] == Publish(u)
    ensures t in run[i].pcs && u in run[j].pcs
    ensures run[i].pcs[t].Loaded? && run[j].pcs[u].Loaded? && run[i].pcs[t].cover != run[j].pcs[u].cover
  {
    assert Next(counters, run[i], run[i + 1], steps[i]) && Next(counters, run[j], run[j + 1], steps[j]);
    EveryRun(counters, run, steps, i + 1, j + 1);
    var a, b := run[i].pcs[t].cover, run[j].pcs[u].cover;
    EveryRun(counters, run, steps, i + 1, j);
    assert run[i + 1].won[|run[i].won|] == a && run[j].won[|run[i].won|] == a;
    assert run[j + 1].won[|run[j].won|] == b && run[j + 1].won[|run[i].won|] == a;
  }
}
