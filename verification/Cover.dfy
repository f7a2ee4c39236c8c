/**
  Coverage tables: 65536 counters of one byte each, quantized to a few levels and joined pointwise.
*/
module Cover {
  const COVER_SIZE: nat := 65536

  type Byte = x: int | 0 <= x < 256

  /** The data of an input, and other byte strings. */
  type Data = seq<Byte>

  // ----- Quantization ------------------------------------------------------------------

  /** Rounds a counter up to the next level; with counters off there are only the levels 0 and 255. */
  function RoundUp(counters: bool, x: Byte): Byte
  {
    if !counters && x > 0 then 255
    else if x <= 5 then x
    else if x <= 8 then 8
    else if x <= 16 then 16
    else if x <= 32 then 32
    else if x <= 64 then 64
    else 255
  }

  /** RoundUp is a closure operator. */
  lemma RoundUpIsClosure(counters: bool, x: Byte, y: Byte)
    ensures RoundUp(counters, x) >= x
    ensures x <= y ==> RoundUp(counters, x) <= RoundUp(counters, y)
    ensures RoundUp(counters, RoundUp(counters, x)) == RoundUp(counters, x)
    ensures RoundUp(counters, x) == 0 <==> x == 0
  {
  }

  /** A value that rounding up leaves alone. */
  predicate IsLevel(counters: bool, x: Byte)
  {
    RoundUp(counters, x) == x
  }

  /** The number of a level, counted from 0. */
  function Level(counters: bool, x: Byte): nat
  {
    if !counters then (if x == 0 then 0 else 1)
    else if x <= 5 then x
    else if x <= 8 then 6
    else if x <= 16 then 7
    else if x <= 32 then 8
    else if x <= 64 then 9
    else 10
  }

  function MaxLevel(counters: bool): nat
  {
    if counters then 10 else 1
  }

  /** There are exactly eleven levels (two with counters off): Level numbers them in order, without gaps. */
  lemma LevelsInOrder(counters: bool, x: Byte, y: Byte)
    requires IsLevel(counters, x) && IsLevel(counters, y)
    ensures x < y <==> Level(counters, x) < Level(counters, y)
    ensures Level(counters, x) <= MaxLevel(counters)
  {
  }

  lemma LevelReached(counters: bool, k: nat) returns (x: Byte)
    requires k <= MaxLevel(counters)
    ensures IsLevel(counters, x) && Level(counters, x) == k
  {
    x := if !counters then 255 * k else [0, 1, 2, 3, 4, 5, 8, 16, 32, 64, 255][k];
  }

  // ----- Tables ------------------------------------------------------------------------

  predicate Quantized(counters: bool, t: seq<Byte>)
  {
    forall i | 0 <= i < |t| :: IsLevel(counters, t[i])
  }

  /** The table with full counters at the given slots. */
  function Marked(slots: set<nat>): (r: seq<Byte>)
    ensures |r| == COVER_SIZE && forall i | 0 <= i < |r| :: r[i] == if i in slots then 255 else 0
  {
    seq(COVER_SIZE, i requires 0 <= i < COVER_SIZE => if i in slots then 255 else 0)
  }

  /** Some counter of cur is above its entry in base. */
  predicate Exceeds(base: seq<Byte>, cur: seq<Byte>)
    requires |base| == |cur|
  {
    exists i | 0 <= i < |base| :: cur[i] > base[i]
  }

  predicate PointLe(a: seq<Byte>, b: seq<Byte>)
  {
    |a| == |b| && forall i | 0 <= i < |a| :: a[i] <= b[i]
  }

  function MaxByte(a: Byte, b: Byte): Byte
  {
    if a < b then b else a
  }

  /** The pointwise maximum of base and the quantized cur. */
  function Join(counters: bool, base: seq<Byte>, cur: seq<Byte>): (r: seq<Byte>)
    requires |base| == |cur|
    ensures |r| == |base|
    ensures forall i | 0 <= i < |r| :: r[i] == MaxByte(base[i], RoundUp(counters, cur[i]))
  {
    seq(|base|, i requires 0 <= i < |base| => MaxByte(base[i], RoundUp(counters, cur[i])))
  }

  function NonZero(t: seq<Byte>): nat
  {
    if t == [] then 0 else NonZero(t[..|t| - 1]) + if t[|t| - 1] != 0 then 1 else 0
  }

  function LevelSum(counters: bool, t: seq<Byte>): nat
  {
    if t == [] then 0 else LevelSum(counters, t[..|t| - 1]) + Level(counters, t[|t| - 1])
  }

  lemma {:induction false} LevelSumBound(counters: bool, t: seq<Byte>)
    requires Quantized(counters, t)
    ensures LevelSum(counters, t) <= MaxLevel(counters) * |t|
  {
    if t != [] {
      var k := |t| - 1;
      assert IsLevel(counters, t[k]);
      assert forall i | 0 <= i < k :: t[..k][i] == t[i];
      LevelSumBound(counters, t[..k]);
    }
  }

  /** Raising entries raises the level sum, strictly if one entry is raised strictly. */
  lemma {:induction false} LevelSumMonotone(counters: bool, a: seq<Byte>, b: seq<Byte>)
    requires PointLe(a, b) && Quantized(counters, a) && Quantized(counters, b)
    ensures LevelSum(counters, a) <= LevelSum(counters, b)
    ensures a != b ==> LevelSum(counters, a) < LevelSum(counters, b)
  {
    if a != [] {
      var k := |a| - 1;
      assert forall i | 0 <= i < k :: a[..k][i] == a[i] && b[..k][i] == b[i];
      LevelsInOrder(counters, a[k], b[k]);
      LevelsInOrder(counters, b[k], a[k]);
      LevelSumMonotone(counters, a[..k], b[..k]);
      if a[..k] == b[..k] && a[k] == b[k] {
        assert a == a[..k] + [a[k]] == b;
      }
    }
  }

  /**
    Joining with cur keeps a table quantized; it changes the table exactly if cur exceeds it, and
    then the level sum grows.
  */
  lemma {:induction false} JoinEffect(counters: bool, base: seq<Byte>, cur: seq<Byte>)
    requires |base| == |cur| && Quantized(counters, base)
    ensures var r := Join(counters, base, cur);
            && Quantized(counters, r) && PointLe(base, r) && PointLe(cur, r)
            && (Exceeds(base, cur) <==> r != base)
            && (Exceeds(base, cur) ==> LevelSum(counters, r) > LevelSum(counters, base))
            && !Exceeds(r, cur)
  {
    var r := Join(counters, base, cur);
    forall i | 0 <= i < |base|
      ensures IsLevel(counters, r[i]) && base[i] <= r[i] && cur[i] <= r[i] && (cur[i] > base[i] <==> r[i] > base[i])
    {
      RoundUpIsClosure(counters, cur[i], base[i]);
    }
    if Exceeds(base, cur) {
      var i :| 0 <= i < |base| && cur[i] > base[i];
      assert r[i] != base[i];
    }
    if r != base {
      var i :| 0 <= i < |base| && r[i] != base[i];
    }
    LevelSumMonotone(counters, base, r);
  }

  lemma JoinMonotone(counters: bool, a: seq<Byte>, b: seq<Byte>, cur: seq<Byte>)
    requires PointLe(a, b) && |a| == |cur|
    ensures PointLe(Join(counters, a, cur), Join(counters, b, cur))
  {
  }

  // ----- Operations --------------------------------------------------------------------

  /** compareCover: whether cur has anything above base. */
  method CompareCover(base: seq<Byte>, cur: seq<Byte>) returns (res: bool)
    requires |base| == |cur| == COVER_SIZE
    ensures res == Exceeds(base, cur)
  {
    for i := 0 to |base|
      invariant forall k | 0 <= k < i :: cur[k] <= base[k]
    {
      if cur[i] > base[i] {
        return true;
      }
    }
    return false;
  }

  /** Joins cur into base in place, and counts the entries that are then not zero. */
  method UpdateMaxCover(counters: bool, base: array<Byte>, cur: seq<Byte>) returns (cnt: nat)
    requires base.Length == |cur| == COVER_SIZE
    modifies base
    ensures base[..] == Join(counters, old(base[..]), cur)
    ensures cnt == NonZero(base[..])
  {
    ghost var goal := Join(counters, base[..], cur);
    cnt := 0;
    for i := 0 to |cur|
      invariant forall k | 0 <= k < i :: base[k] == goal[k]
      invariant forall k | i <= k < |cur| :: base[k] == old(base[k])
      invariant cnt == NonZero(goal[..i])
    {
      var x := RoundUp(counters, cur[i]);
      var v := base[i];
      if v != 0 || x > 0 {
        cnt := cnt + 1;
      }
      if v < x {
        base[i] := x;
      }
      assert goal[..i + 1][..i] == goal[..i];
      assert goal[i] == MaxByte(v, x);
    }
    assert base[..] == goal && goal[..|cur|] == goal;
  }

  /** The part of cover that is above base. */
  function Novelty(base: seq<Byte>, cover: seq<Byte>): (r: seq<Byte>)
    requires |base| == |cover|
    ensures |r| == |base|
    ensures forall i | 0 <= i < |r| :: r[i] == if cover[i] > base[i] then cover[i] else 0
  {
    seq(|base|, i requires 0 <= i < |base| => if cover[i] > base[i] then cover[i] else 0)
  }

  method FindNewCover(base: seq<Byte>, cover: seq<Byte>) returns (res: array<Byte>, notEmpty: bool)
    requires |base| == |cover| == COVER_SIZE
    ensures fresh(res) && res[..] == Novelty(base, cover)
    ensures notEmpty == Exceeds(base, cover)
  {
    res := new Byte[COVER_SIZE](_ => 0);
    notEmpty := false;
    for i := 0 to |base|
      invariant forall k | 0 <= k < i :: res[k] == Novelty(base, cover)[k]
      invariant forall k | i <= k < |base| :: res[k] == 0
      invariant notEmpty <==> exists k | 0 <= k < i :: cover[k] > base[k]
    {
      var c := cover[i];
      if c > base[i] {
        res[i] := c;
        notEmpty := true;
      }
    }
  }

  method WorseCover(base: seq<Byte>, cover: seq<Byte>) returns (worse: bool)
    requires |base| == |cover|
    ensures worse <==> !PointLe(base, cover)
  {
    for i := 0 to |base|
      invariant forall k | 0 <= k < i :: base[k] <= cover[k]
    {
      if cover[i] < base[i] {
        return true;
      }
    }
    return false;
  }

  /** What minimization keeps: a candidate that is not worse than the novelty of an input still has new coverage. */
  lemma NoveltyKept(base: seq<Byte>, cover: seq<Byte>, candidate: seq<Byte>)
    requires |base| == |cover| && Exceeds(base, cover)
    requires PointLe(Novelty(base, cover), candidate)
    ensures Exceeds(base, candidate)
  {
    var i :| 0 <= i < |base| && cover[i] > base[i];
    assert candidate[i] >= Novelty(base, cover)[i];
  }
}
