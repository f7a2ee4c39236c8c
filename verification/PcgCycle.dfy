/**
  One cycle of the generator: it outputs every 32-bit word equally often, so the results of bounded
  sampling are uniform over the draws that the generator really makes.
*/
module PcgCycle {
  import opened Arith
  import opened Pcg

  // ----- Undoing the output function ---------------------------------------------------

  lemma {:induction false} XorCommutes(x: nat, y: nat)
    ensures Xor(x, y) == Xor(y, x)
    decreases x + y
  {
    if x > 0 || y > 0 {
      XorCommutes(x / 2, y / 2);
    }
  }

  /** An exclusive-or works on high and low digits separately. */
  lemma {:induction false} XorJoin(h: nat, l: nat, h': nat, l': nat, k: nat)
    requires l < Pow2(k) && l' < Pow2(k)
    ensures Xor(Join(h, l, k), Join(h', l', k)) == Join(Xor(h, h'), Xor(l, l'), k)
  {
    if k == 0 {
      XorZero(0);
    } else {
      XorJoin(h, l / 2, h', l' / 2, k - 1);
      var x, y := Join(h, l, k), Join(h', l', k);
      JoinDigit(h, l, k);
      JoinDigit(h', l', k);
      JoinDigit(Xor(h, h'), Xor(l, l'), k);
      hide Xor, Join;
      XorDigit(x, y);
      XorDigit(l, l');
      HalvesDecide(Xor(x, y), Join(Xor(h, h'), Xor(l, l'), k));
    }
  }

  lemma JoinDigit(h: nat, l: nat, k: nat)
    requires k > 0
    ensures Join(h, l, k) / 2 == Join(h, l / 2, k - 1) && Join(h, l, k) % 2 == l % 2
  {
  }

  /** The 32-bit word before rotation, for the top five bits k of the state and the 32 bits u below them. */
  function Mix(k: nat, u: nat): nat
  {
    Xor(k * 0x4000 + u / 0x4_0000, u)
  }

  function Unmix(k: nat, w: nat): nat
  {
    var high := Xor(w / 0x4_0000, k / 16);
    high * 0x4_0000 + Xor(w % 0x4_0000, k % 16 * 0x4000 + high)
  }

  /** Mix by its high 14 and low 18 bits. */
  lemma MixParts(k: nat, high: nat, low: nat)
    requires k < 32 && high < 0x4000 && low < 0x4_0000
    ensures var c := k % 16 * 0x4000 + high;
            && Mix(k, high * 0x4_0000 + low) == Xor(k / 16, high) * 0x4_0000 + Xor(c, low)
            && Xor(k / 16, high) < 0x4000 && Xor(c, low) < 0x4_0000
  {
    hide Xor;
    var c := k % 16 * 0x4000 + high;
    DivModUnique(high * 0x4_0000 + low, 0x4_0000, high, low);
    Carry(k, high);
    Bound14(k / 16, high);
    XorJoin18(k / 16, c, high, low);
  }

  lemma Carry(k: nat, high: nat)
    requires k < 32 && high < 0x4000
    ensures k * 0x4000 + high == k / 16 * 0x4_0000 + (k % 16 * 0x4000 + high)
    ensures k % 16 * 0x4000 + high < 0x4_0000 && k / 16 < 2
  {
  }

  lemma {:induction false} Bound14(x: nat, y: nat)
    requires x < 0x4000 && y < 0x4000
    ensures Xor(x, y) < 0x4000
  {
    SmallPowers();
    var k := 14;
    XorBound(x, y, k);
  }

  lemma XorJoin18(h: nat, l: nat, h': nat, l': nat)
    requires l < 0x4_0000 && l' < 0x4_0000
    ensures Xor(h * 0x4_0000 + l, h' * 0x4_0000 + l') == Xor(h, h') * 0x4_0000 + Xor(l, l')
    ensures Xor(l, l') < 0x4_0000
  {
    hide Xor, Join;
    SmallPowers();
    var k := 18;
    XorBound(l, l', k);
    XorJoin(h, l, h', l', k);
    JoinIsSum(h, l, k);
    JoinIsSum(h', l', k);
    JoinIsSum(Xor(h, h'), Xor(l, l'), k);
  }

  lemma {:induction false} XorTwice(a: nat, b: nat)
    ensures Xor(Xor(a, b), a) == b && Xor(a, Xor(b, a)) == b
  {
    XorCommutes(a, b);
    XorCommutes(Xor(a, b), a);
    XorCancel(a, b);
  }

  lemma MixUndone(k: nat, u: nat)
    requires k < 32 && u < TWO32
    ensures Mix(k, u) < TWO32 && Unmix(k, Mix(k, u)) == u
  {
    hide Xor;
    var high, low := u / 0x4_0000, u % 0x4_0000;
    assert u == high * 0x4_0000 + low && high < 0x4000;
    MixParts(k, high, low);
    hide Mix, Unmix;
    UnmixParts(k, high, low, Mix(k, u));
  }

  lemma UnmixParts(k: nat, high: nat, low: nat, w: nat)
    requires k < 32 && high < 0x4000 && low < 0x4_0000
    requires var c := k % 16 * 0x4000 + high;
             && w == Xor(k / 16, high) * 0x4_0000 + Xor(c, low) && Xor(k / 16, high) < 0x4000 && Xor(c, low) < 0x4_0000
    ensures w < TWO32 && Unmix(k, w) == high * 0x4_0000 + low
  {
    hide Xor;
    var c := k % 16 * 0x4000 + high;
    DivModUnique(w, 0x4_0000, Xor(k / 16, high), Xor(c, low));
    XorTwice(k / 16, high);
    XorTwice(c, low);
  }

  lemma UnmixUndone(k: nat, w: nat)
    requires k < 32 && w < TWO32
    ensures Unmix(k, w) < TWO32 && Mix(k, Unmix(k, w)) == w
  {
    hide Xor;
    var high := Xor(w / 0x4_0000, k / 16);
    var c := k % 16 * 0x4000 + high;
    Bound14(w / 0x4_0000, k / 16);
    Carry(k, high);
    XorJoin18(0, w % 0x4_0000, 0, c);
    MixParts(k, high, Xor(w % 0x4_0000, c));
    XorTwice(k / 16, w / 0x4_0000);
    XorTwice(c, w % 0x4_0000);
  }

  // ----- Undoing the rotation ----------------------------------------------------------

  function Unrotate(v: nat, k: nat): nat
    requires k < 32
  {
    Turn(v, Pow2(32 - k), Pow2(k))
  }

  /** v with its last digit in base p, by which it was divided, moved to the front. */
  function Turn(v: nat, p: nat, q: nat): nat
    requires p > 0
  {
    v / p + Product(v % p, q)
  }

  lemma RotationIsTurn(v: nat, k: nat)
    requires k < 32
    ensures RotateRight32(v, k) == Turn(v, Pow2(k), Pow2(32 - k))
  {
    hide Pow2;
  }

  lemma TurnedBack(v: nat, p: nat, q: nat, pq: nat)
    requires p > 0 && q > 0 && pq == p * q && v < pq
    ensures Turn(v, p, q) < pq && Turn(Turn(v, p, q), q, p) == v
  {
    var hi, lo := v / p, v % p;
    assert v == hi * p + lo;
    TurnParts(hi, lo, p, q);
  }

  lemma TurnParts(hi: nat, lo: nat, p: nat, q: nat)
    requires p > 0 && q > 0 && lo < p && hi * p + lo < p * q
    ensures hi + lo * q < p * q && (hi + lo * q) / q == lo && (hi + lo * q) % q == hi
  {
    MulLess(hi, q, p);
    assert q * p == p * q;
    DivModUnique(hi + lo * q, q, lo, hi);
    MulLess(p - 1, lo, q);
    assert (p - 1) * q == p * q - q;
  }

  lemma RotationUndone(v: nat, k: nat)
    requires v < TWO32 && k < 32
    ensures RotateRight32(v, k) < TWO32 && Unrotate(RotateRight32(v, k), k) == v
    ensures Unrotate(v, k) < TWO32 && RotateRight32(Unrotate(v, k), k) == v
  {
    var p, q := Pow2(k), Pow2(32 - k);
    RotationIsTurn(v, k);
    RotationIsTurn(Unrotate(v, k), k);
    SmallPowers();
    Pow2Add(k, 32 - k);
    Pow2Add(32 - k, k);
    hide Pow2, Turn, RotateRight32;
    TurnedBack(v, p, q, TWO32);
    TurnedBack(v, q, p, TWO32);
  }

  // ----- The states that output a word -------------------------------------------------

  const BLOCK: nat := 0x800_0000_0000_0000   // 2^59 states with the same top five bits
  const FREE: nat := 0x800_0000              // 2^27 values of the low bits, which do not matter

  /** The output by the parts of the state. */
  lemma OutputParts(x: nat)
    requires x < TWO64
    ensures Output(x) == RotateRight32(Mix(x / BLOCK, x / FREE % TWO32), x / BLOCK)
  {
    var k, y := x / BLOCK, x / FREE;
    var u := y % TWO32;
    var c := k * 0x4000 + u / 0x4_0000;
    StateParts(x);
    Windowed(x);
    hide Xor;
    XorLow(c, k, u);
  }

  lemma StateParts(x: nat)
    requires x < TWO64
    ensures var k, y := x / BLOCK, x / FREE;
            && k < 32 && y == k * TWO32 + y % TWO32
            && x / 0x4_0000 / FREE == k * 0x4000 + y % TWO32 / 0x4_0000 < 0x8_0000
  {
  }

  /** Digits above the first 32 do not matter for the first 32. */
  lemma XorLow(c: nat, k: nat, u: nat)
    requires c < TWO32 && u < TWO32
    ensures Xor(c, k * TWO32 + u) % TWO32 == Xor(c, u)
  {
    hide Xor, Join;
    SmallPowers();
    var n := 32;
    XorBound(c, u, n);
    XorHigh(c, k, u, n);
    JoinIsSum(k, u, n);
    JoinIsSum(k, Xor(c, u), n);
    DivModUnique(k * TWO32 + Xor(c, u), TWO32, k, Xor(c, u));
  }

  /** Shifting an exclusive-or down by 27 places. */
  lemma {:induction false} Windowed(x: nat)
    ensures Xor(x / 0x4_0000, x) / FREE == Xor(x / 0x4_0000 / FREE, x / FREE)
  {
    SmallPowers();
    var y, k := x / 0x4_0000, 27;
    XorShift(y, x, k);
    ShiftIsDivision(Xor(y, x), k);
    ShiftIsDivision(y, k);
    ShiftIsDivision(x, k);
  }

  /** The first of the states with top bits k that output v; the 2^27 states from there on do so too. */
  function FirstState(v: nat, k: nat): nat
    requires k < 32
  {
    k * BLOCK + Unmix(k, Unrotate(v, k)) * FREE
  }

  lemma OutputIn(v: nat, k: nat, x: nat)
    requires v < TWO32 && k < 32 && k * BLOCK <= x < (k + 1) * BLOCK
    ensures Output(x) == v <==> FirstState(v, k) <= x < FirstState(v, k) + FREE
  {
    OutputParts(x);
    var u, w := x / FREE % TWO32, Unrotate(v, k);
    RotationUndone(v, k);
    UnmixUndone(k, w);
    MixUndone(k, u);
    RotationUndone(Mix(k, u), k);
    hide Mix, Unmix, Unrotate, RotateRight32, Output;
    assert x / BLOCK == k;
    assert RotateRight32(Mix(k, u), k) == v <==> u == Unmix(k, w);
    InBlock(k, Unmix(k, w), x);
  }

  lemma InBlock(k: nat, u: nat, x: nat)
    requires k < 32 && u < TWO32 && k * BLOCK <= x < (k + 1) * BLOCK
    ensures x / FREE % TWO32 == u <==> k * BLOCK + u * FREE <= x < k * BLOCK + u * FREE + FREE
  {
    var r := x - k * BLOCK;
    assert x / FREE == k * TWO32 + r / FREE;
    assert r / FREE < TWO32;
    assert x / FREE % TWO32 == r / FREE;
  }

  ghost function StatesWith(v: nat, end: nat): set<nat>
  {
    set x: nat | x < end && x < TWO64 && Output(x) == v
  }

  lemma {:induction false} StatesCount(v: nat, k: nat)
    requires v < TWO32 && k <= 32
    ensures |StatesWith(v, k * BLOCK)| == k * FREE
  {
    if k == 0 {
      assert StatesWith(v, 0) == {};
    } else {
      StatesCount(v, k - 1);
      var before, first := StatesWith(v, (k - 1) * BLOCK), FirstState(v, k - 1);
      var block := Interval(first, FREE);
      UnmixUndone(k - 1, Unrotate(v, k - 1)) by { RotationUndone(v, k - 1); }
      hide Output, FirstState, Unmix, Unrotate;
      forall x: nat ensures x in StatesWith(v, k * BLOCK) <==> x in before + block {
        StateIn(v, k - 1, x);
      }
      assert StatesWith(v, k * BLOCK) == before + block;
      assert before !! block by {
        forall x | x in block ensures x !in before {
          StateIn(v, k - 1, x);
        }
      }
      IntervalSize(first, FREE);
    }
  }

  /** Where a state that outputs v may lie, up to the end of block k. */
  lemma StateIn(v: nat, k: nat, x: nat)
    requires v < TWO32 && k < 32
    ensures x < (k + 1) * BLOCK && x < TWO64 && Output(x) == v <==>
            (x < k * BLOCK && x < TWO64 && Output(x) == v) || FirstState(v, k) <= x < FirstState(v, k) + FREE
    ensures k * BLOCK <= FirstState(v, k) && FirstState(v, k) + FREE <= (k + 1) * BLOCK
  {
    RotationUndone(v, k);
    UnmixUndone(k, Unrotate(v, k));
    hide Output, Unmix, Unrotate;
    if k * BLOCK <= x < (k + 1) * BLOCK {
      OutputIn(v, k, x);
    }
  }

  /** Exactly 2^32 of the 2^64 states output a given 32-bit word. */
  lemma EquallyOften(v: nat)
    requires v < TWO32
    ensures |StatesWith(v, TWO64)| == TWO32
  {
    StatesCount(v, 32);
  }

  // ----- One period --------------------------------------------------------------------

  /** The states that output a word of a set. */
  ghost function StatesIn(words: set<nat>): set<nat>
  {
    set x: nat | x < TWO64 && Output(x) in words
  }

  lemma {:induction false} StatesInCount(words: set<nat>)
    requires forall v | v in words :: v < TWO32
    ensures |StatesIn(words)| == |words| * TWO32
  {
    hide Output;
    if words == {} {
      assert StatesIn(words) == {};
    } else {
      var v :| v in words;
      var rest := words - {v};
      StatesInCount(rest);
      EquallyOften(v);
      assert StatesIn(words) == StatesIn(rest) + StatesWith(v, TWO64);
      assert StatesIn(rest) !! StatesWith(v, TWO64);
    }
  }

  /** The steps, of the first n from a state, that output a word of a set. */
  ghost function Hits(state: nat, inc: nat, n: nat, words: set<nat>): set<nat>
    requires state < TWO64
  {
    set i: nat | i < n && Output(Steps(state, inc, i)) in words
  }

  lemma {:induction false} HitsCount(state: nat, inc: nat, n: nat, words: set<nat>)
    requires state < TWO64 && inc % 2 == 1 && n <= TWO64
    ensures |Hits(state, inc, n, words)| == |Orbit(state, inc, n) * StatesIn(words)|
  {
    hide Output, Steps, Step, Hits, StatesIn, Orbit;
    if n == 0 {
      NoHits(state, inc, words);
    } else {
      HitsCount(state, inc, n - 1, words);
      StateIsNew(state, inc, n - 1);
      HitsStep(state, inc, n - 1, words);
    }
  }

  lemma {:induction false} NoHits(state: nat, inc: nat, words: set<nat>)
    requires state < TWO64
    ensures |Hits(state, inc, 0, words)| == |Orbit(state, inc, 0) * StatesIn(words)|
  {
    assert Hits(state, inc, 0, words) == {} && Orbit(state, inc, 0) * StatesIn(words) == {};
  }

  lemma HitsStep(state: nat, inc: nat, n: nat, words: set<nat>)
    requires state < TWO64 && Steps(state, inc, n) !in Orbit(state, inc, n)
    requires |Hits(state, inc, n, words)| == |Orbit(state, inc, n) * StatesIn(words)|
    ensures |Hits(state, inc, n + 1, words)| == |Orbit(state, inc, n + 1) * StatesIn(words)|
  {
    hide Output, Steps, Step, Hits, StatesIn;
    var x, states := Steps(state, inc, n), StatesIn(words);
    HitsMore(state, inc, n, words);
    StatesInHas(words, x);
    assert Orbit(state, inc, n + 1) == Orbit(state, inc, n) + {x};
    Enlarge(Orbit(state, inc, n), states, x);
  }

  lemma StatesInHas(words: set<nat>, x: nat)
    requires x < TWO64
    ensures x in StatesIn(words) <==> Output(x) in words
  {
    hide Output;
  }

  lemma HitsMore(state: nat, inc: nat, n: nat, words: set<nat>)
    requires state < TWO64
    ensures |Hits(state, inc, n + 1, words)| ==
            |Hits(state, inc, n, words)| + if Output(Steps(state, inc, n)) in words then 1 else 0
  {
    hide Output, Steps, Step;
    var before := Hits(state, inc, n, words);
    assert n !in before;
    assert Hits(state, inc, n + 1, words) == if Output(Steps(state, inc, n)) in words then before + {n} else before;
  }

  lemma Enlarge(orbit: set<nat>, states: set<nat>, x: nat)
    requires x !in orbit
    ensures |(orbit + {x}) * states| == |orbit * states| + if x in states then 1 else 0
  {
    if x in states {
      assert (orbit + {x}) * states == orbit * states + {x};
    } else {
      assert (orbit + {x}) * states == orbit * states;
    }
  }

  /** In one period from any state, the words of a set are output 2^32 times each. */
  lemma PeriodHits(state: nat, inc: nat, words: set<nat>)
    requires state < TWO64 && inc % 2 == 1 && forall v | v in words :: v < TWO32
    ensures |Hits(state, inc, TWO64, words)| == |words| * TWO32
  {
    hide Output, Steps;
    HitsCount(state, inc, TWO64, words);
    OrbitIsAll(state, inc);
    StatesInCount(words);
    assert Interval(0, TWO64) * StatesIn(words) == StatesIn(words);
  }

  /**
    Over one period from any state, bounded sampling is exactly uniform: of the 2^64 draws that the
    generator makes, each result below n gets exactly floor(2^32 / n) * 2^32.
  */
  lemma PeriodUniform(state: nat, inc: nat, n: nat, k: nat)
    requires state < TWO64 && inc % 2 == 1 && 0 < n < TWO32 && k < n
    ensures |Hits(state, inc, TWO64, DrawsFor(n, k))| == TWO32 / n * TWO32
  {
    hide Output, Steps, Accepts, Scaled;
    ExactlyUniform(n, k);
    PeriodHits(state, inc, DrawsFor(n, k));
  }
}
