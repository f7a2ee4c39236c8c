/**
  The pseudo-random generator behind every random choice of the fuzzer: a 64-bit linear
  congruential state, a xorshift/rotate output function, and Lemire's bounded sampling.

  Machine words are modelled by natural numbers with explicit wrap-around, shifts by
  division and multiplication, and exclusive-or by a recursion over binary digits.
*/
module Pcg {
  import opened Arith
  import opened Wrappers

  const TWO32: nat := 0x1_0000_0000
  const TWO64: nat := 0x1_0000_0000_0000_0000
  const MULTIPLIER: nat := 6364136223846793005

  // ----- Words ------------------------------------------------------------------------

  function Pow2(k: nat): (p: nat)
    ensures p > 0
  {
    if k == 0 then 1 else 2 * Pow2(k - 1)
  }

  function Product(v: nat, n: nat): nat
  {
    MulNonNegative(v, n);
    v * n
  }

  function Lo32(x: nat): (r: nat)
    ensures r < TWO32
  {
    x % TWO32
  }

  function Hi32(x: nat): nat
  {
    x / TWO32
  }

  function Xor(x: nat, y: nat): nat
    decreases x + y
  {
    if x == 0 && y == 0 then 0 else 2 * Xor(x / 2, y / 2) + (x % 2 + y % 2) % 2
  }

  function RotateRight32(x: nat, k: nat): nat
    requires k < 32
  {
    MulNonNegative(x % Pow2(k), Pow2(32 - k));
    x / Pow2(k) + x % Pow2(k) * Pow2(32 - k)
  }

  /** The output function: ((x >> 18) ^ x) >> 27, truncated to 32 bits and rotated by the top five bits. */
  function Output(x: nat): nat
    requires x < TWO64
  {
    RotateRight32(Xor(x / 0x4_0000, x) / 0x800_0000 % TWO32, x / 0x800_0000_0000_0000)
  }

  function Step(state: nat, inc: nat): (next: nat)
    ensures next < TWO64
  {
    (state * MULTIPLIER + inc) % TWO64
  }

  /** The state after n steps. */
  function Steps(state: nat, inc: nat, n: nat): (r: nat)
    requires state < TWO64
    ensures r < TWO64
  {
    if n == 0 then state else Step(Steps(state, inc, n - 1), inc)
  }

  // ----- The period is 2^64 -----------------------------------------------------------

  /** 2^k divides x. */
  predicate Divisible(k: nat, x: nat)
  {
    k == 0 || (x % 2 == 0 && Divisible(k - 1, x / 2))
  }

  /** 1 + a + ... + a^(n-1), for a the multiplier. */
  function Geometric(n: nat): nat
  {
    if n == 0 then 0 else Geometric(n - 1) * MULTIPLIER + 1
  }

  lemma {:induction false} DivisibleByPow2(k: nat, x: nat)
    ensures Divisible(k, x) <==> x % Pow2(k) == 0
  {
    if k == 0 {
    } else {
      var p := Pow2(k - 1);
      DivisibleByPow2(k - 1, x / 2);
      HalfMod(x, p);
    }
  }

  lemma OddFactorParity(odd: nat, x: nat)
    requires odd % 2 == 1
    ensures odd * x % 2 == x % 2
    ensures x % 2 == 0 ==> odd * x / 2 == odd * (x / 2)
  {
    var h, o := x / 2, odd / 2;
    assert odd == 2 * o + 1;
    assert odd * x == 2 * (o * x) + x by {
      assert (2 * o + 1) * x == 2 * (o * x) + x;
    }
    if x % 2 == 0 {
      assert x == 2 * h;
      assert odd * x == 2 * (odd * h) by { assert odd * (2 * h) == 2 * (odd * h); }
    }
  }

  lemma {:induction false} OddFactor(k: nat, odd: nat, x: nat)
    requires odd % 2 == 1
    ensures Divisible(k, odd * x) <==> Divisible(k, x)
  {
    if k == 0 {
    } else {
      OddFactorParity(odd, x);
      if x % 2 == 0 {
        OddFactor(k - 1, odd, x / 2);
      }
    }
  }

  lemma {:induction false} GeometricSum(m: nat, n: nat)
    ensures Geometric(m + n) == Geometric(m) * (1 + (MULTIPLIER - 1) * Geometric(n)) + Geometric(n)
  {
    if n == 0 {
    } else {
      GeometricSum(m, n - 1);
      var g, h, a := Geometric(m), Geometric(n - 1), MULTIPLIER;
      assert Geometric(n) == h * a + 1;
      assert Geometric(m + n) == Geometric(m + n - 1) * a + 1;
      GeometricSumAlgebra(g, h, a);
    }
  }

  lemma GeometricSumAlgebra(g: int, h: int, a: int)
    ensures (g * (1 + (a - 1) * h) + h) * a + 1 == g * (1 + (a - 1) * (h * a + 1)) + (h * a + 1)
  {
    calc {
      (g * (1 + (a - 1) * h) + h) * a;
      (g * (1 + (a - 1) * h)) * a + h * a;
      { assert (g * (1 + (a - 1) * h)) * a == g * ((1 + (a - 1) * h) * a); }
      g * ((1 + (a - 1) * h) * a) + h * a;
      { assert (1 + (a - 1) * h) * a == a + ((a - 1) * h) * a;
        assert ((a - 1) * h) * a == (a - 1) * (h * a);
        assert a == 1 + (a - 1) * 1;
        assert (a - 1) * (h * a) + (a - 1) * 1 == (a - 1) * (h * a + 1); }
      g * (1 + (a - 1) * (h * a + 1)) + h * a;
    }
  }

  /** The multiplier is 1 modulo 4, so doubling n doubles the geometric sum up to an odd factor. */
  lemma GeometricDouble(m: nat) returns (odd: nat)
    ensures odd % 2 == 1
    ensures Geometric(2 * m) == 2 * (odd * Geometric(m))
  {
    var g := Geometric(m);
    GeometricSum(m, m);
    var t := 1591034055961698251;
    assert MULTIPLIER - 1 == 4 * t && m + m == 2 * m;
    MulNonNegative(t, g);
    odd := 1 + 2 * (t * g);
    hide Geometric;
    DoubleAlgebra(g, t, t * g, 4 * t * g, odd * g);
  }

  lemma DoubleAlgebra(g: int, t: int, y: int, z: int, w: int)
    requires y == t * g && z == 4 * t * g && w == (1 + 2 * y) * g
    ensures g * (1 + z) + g == 2 * w
  {
    assert z == 4 * y;
    var u := g * y;
    assert g * (1 + 4 * y) == g + 4 * u;
    assert (1 + 2 * y) * g == g + 2 * u;
  }

  lemma {:induction false} GeometricParity(n: nat)
    ensures Geometric(n) % 2 == n % 2
  {
    if n == 0 {
    } else {
      GeometricParity(n - 1);
      OddMultiplier(Geometric(n - 1), n);
    }
  }

  lemma OddMultiplier(g: nat, n: nat)
    requires n >= 1 && g % 2 == (n - 1) % 2
    ensures (g * MULTIPLIER + 1) % 2 == n % 2
  {
    var h := g * 3182068111923396502;
    assert g * MULTIPLIER == 2 * h + g;
    ModShift(g + 1, h, 2);
  }

  lemma {:induction false} GeometricDivisible(k: nat, n: nat)
    ensures Divisible(k, Geometric(n)) <==> Divisible(k, n)
  {
    GeometricParity(n);
    if k == 0 || n % 2 == 1 {
    } else {
      var m := n / 2;
      var odd := GeometricDouble(m);
      assert Geometric(n) / 2 == odd * Geometric(m);
      OddFactor(k - 1, odd, Geometric(m));
      GeometricDivisible(k - 1, m);
    }
  }

  /** n steps move the state by a multiple of the n-th geometric sum. */
  lemma {:induction false} StepsClosedForm(state: nat, inc: nat, n: nat)
    requires state < TWO64
    ensures Steps(state, inc, n) == (state + ((MULTIPLIER - 1) * state + inc) * Geometric(n)) % TWO64
  {
    hide Step;
    if n == 0 {
      assert ((MULTIPLIER - 1) * state + inc) * Geometric(0) == 0;
    } else {
      StepsClosedForm(state, inc, n - 1);
      var s, g, d := Steps(state, inc, n - 1), Geometric(n - 1), (MULTIPLIER - 1) * state + inc;
      MulNonNegative(d, g);
      assert Geometric(n) == g * MULTIPLIER + 1;
      assert Steps(state, inc, n) == Step(s, inc);
      hide Geometric, Steps;
      AdvanceClosedForm(s, state, d, g, inc);
      StepIs(s, inc);
    }
  }

  lemma StepIs(state: nat, inc: nat)
    ensures Step(state, inc) == (state * MULTIPLIER + inc) % TWO64
  {
  }

  lemma AdvanceClosedForm(s: nat, state: nat, d: nat, g: nat, inc: nat)
    requires d == (MULTIPLIER - 1) * state + inc && d * g >= 0
    requires s == (state + d * g) % TWO64
    ensures (s * MULTIPLIER + inc) % TWO64 == (state + d * (g * MULTIPLIER + 1)) % TWO64
  {
    ClosedFormStep(state, d, g, MULTIPLIER, inc);
    ModStep(state + d * g, MULTIPLIER, inc, TWO64);
  }

  lemma MulNonNegative(a: int, b: int)
    requires a >= 0 && b >= 0
    ensures a * b >= 0
  {
  }

  lemma ClosedFormStep(s: int, d: int, g: int, a: int, c: int)
    requires d == (a - 1) * s + c
    ensures (s + d * g) * a + c == s + d * (g * a + 1)
  {
    assert (s + d * g) * a == s * a + (d * g) * a;
    assert (d * g) * a == d * (g * a);
    assert d * (g * a + 1) == d * (g * a) + d;
    assert (a - 1) * s == s * a - s;
  }

  lemma ModStep(x: nat, a: nat, c: nat, m: nat)
    requires m > 0
    ensures (x % m * a + c) % m == (x * a + c) % m
  {
    var q, r := x / m, x % m;
    assert x == q * m + r;
    assert x * a + c == (q * a) * m + (r * a + c) by {
      assert (q * m + r) * a == (q * a) * m + r * a;
    }
    ModShift(r * a + c, q * a, m);
  }

  lemma Pow2Is64()
    ensures Pow2(64) == TWO64
  {
    SmallPowers();
    var k := 32;
    Pow2Add(k, k);
    hide Pow2;
  }

  lemma {:induction false} Pow2Add(a: nat, b: nat)
    ensures Pow2(a + b) == Pow2(a) * Pow2(b)
  {
    if b == 0 {
    } else {
      Pow2Add(a, b - 1);
    }
  }

  /**
    From every seed and for every odd increment, the state returns to itself exactly after the
    multiples of 2^64 steps.
  */
  lemma {:induction false} FullPeriod(state: nat, inc: nat, n: nat)
    requires state < TWO64 && inc % 2 == 1
    ensures Steps(state, inc, n) == state <==> n % TWO64 == 0
  {
    hide Steps, Geometric;
    var d, g := (MULTIPLIER - 1) * state + inc, Geometric(n);
    OddDistance(state, inc, d);
    MulNonNegative(d, g);
    StepsClosedForm(state, inc, n);
    AddBackMod(state, d * g, TWO64);
    MultipleOfModulus(d, g, n);
  }

  lemma OddDistance(state: nat, inc: nat, d: nat)
    requires inc % 2 == 1 && d == (MULTIPLIER - 1) * state + inc
    ensures d % 2 == 1
  {
  }

  lemma {:induction false} MultipleOfModulus(d: nat, g: nat, n: nat)
    requires d % 2 == 1 && g == Geometric(n) && d * g >= 0
    ensures d * g % TWO64 == 0 <==> n % TWO64 == 0
  {
    Pow2Is64();
    var k := 64;
    DivisibleByPow2(k, d * g);
    DivisibleByPow2(k, n);
    OddFactor(k, d, g);
    GeometricDivisible(k, n);
  }

  lemma AddBackMod(s: nat, y: nat, m: nat)
    requires s < m
    ensures (s + y) % m == s <==> y % m == 0
  {
    var q, r := y / m, y % m;
    assert y == q * m + r;
    ModShift(s + r, q, m);
    assert q * m + (s + r) == s + y;
    if s + r < m {
      DivModUnique(s + r, m, 0, s + r);
    } else {
      DivModUnique(s + r, m, 1, s + r - m);
    }
  }

  // ----- Every state is reached from every state ---------------------------------------

  lemma {:induction false} StepsAdd(state: nat, inc: nat, m: nat, n: nat)
    requires state < TWO64
    ensures Steps(state, inc, m + n) == Steps(Steps(state, inc, m), inc, n)
  {
    if n == 0 {
    } else {
      StepsAdd(state, inc, m, n - 1);
    }
  }

  ghost function Orbit(state: nat, inc: nat, n: nat): (orbit: set<nat>)
    requires state < TWO64
  {
    if n == 0 then {} else Orbit(state, inc, n - 1) + {Steps(state, inc, n - 1)}
  }

  lemma {:induction false} OrbitMember(state: nat, inc: nat, n: nat, x: nat) returns (i: nat)
    requires state < TWO64
    requires x in Orbit(state, inc, n)
    ensures i < n && Steps(state, inc, i) == x
  {
    if x == Steps(state, inc, n - 1) {
      i := n - 1;
    } else {
      i := OrbitMember(state, inc, n - 1, x);
    }
  }

  lemma {:induction false} OrbitSize(state: nat, inc: nat, n: nat)
    requires state < TWO64 && inc % 2 == 1 && n <= TWO64
    ensures |Orbit(state, inc, n)| == n
  {
    if n == 0 {
    } else {
      OrbitSize(state, inc, n - 1);
      StateIsNew(state, inc, n - 1);
    }
  }

  /** No state comes twice within a period. */
  lemma {:induction false} StateIsNew(state: nat, inc: nat, n: nat)
    requires state < TWO64 && inc % 2 == 1 && n < TWO64
    ensures Steps(state, inc, n) !in Orbit(state, inc, n)
  {
    hide Steps, Step;
    if Steps(state, inc, n) in Orbit(state, inc, n) {
      var i := OrbitMember(state, inc, n, Steps(state, inc, n));
      NotRepeated(state, inc, i, n);
      assert false;
    }
  }

  lemma {:induction false} NotRepeated(state: nat, inc: nat, i: nat, n: nat)
    requires state < TWO64 && inc % 2 == 1 && i < n < TWO64
    ensures Steps(state, inc, i) != Steps(state, inc, n)
  {
    hide Steps, Step;
    StepsAdd(state, inc, i, n - i);
    FullPeriod(Steps(state, inc, i), inc, n - i);
    SmallRemainder(n - i);
  }

  lemma SmallRemainder(n: nat)
    requires n < TWO64
    ensures n % TWO64 == n
  {
  }

  /** A full period goes through all states. */
  lemma {:induction false} OrbitIsAll(state: nat, inc: nat)
    requires state < TWO64 && inc % 2 == 1
    ensures Orbit(state, inc, TWO64) == Interval(0, TWO64)
  {
    hide Steps;
    var m := TWO64;
    OrbitSize(state, inc, m);
    IntervalSize(0, m);
    forall x | x in Orbit(state, inc, m) ensures x in Interval(0, m) {
      var _ := OrbitMember(state, inc, m, x);
    }
    FullSubset(Orbit(state, inc, m), Interval(0, m));
  }

  ghost function Interval(lo: nat, count: nat): set<nat>
  {
    set v: nat | v < lo + count && AtLeast(v, lo)
  }

  predicate AtLeast(v: nat, lo: nat)
  {
    lo <= v
  }

  lemma {:induction false} IntervalSize(lo: nat, count: nat)
    ensures |Interval(lo, count)| == count
  {
    if count == 0 {
      assert Interval(lo, 0) == {};
    } else {
      IntervalSize(lo, count - 1);
      assert Interval(lo, count) == Interval(lo, count - 1) + {lo + count - 1};
    }
  }

  lemma {:induction false} FullSubset<T>(a: set<T>, b: set<T>)
    requires a <= b && |a| == |b|
    ensures a == b
  {
    if !(b <= a) {
      var x :| x in b && x !in a;
      assert |b - {x}| == |b| - 1;
      SubsetSize(a, b - {x});
      assert false;
    }
  }

  lemma {:induction false} SubsetSize<T>(a: set<T>, b: set<T>)
    requires a <= b
    ensures |a| <= |b|
  {
    if a == {} {
    } else {
      var x :| x in a;
      SubsetSize(a - {x}, b - {x});
    }
  }

  /** One cycle through all 2^64 states: any state is reached from any other in fewer than 2^64 steps. */
  lemma Reaches(state: nat, inc: nat, target: nat) returns (i: nat)
    requires state < TWO64 && target < TWO64 && inc % 2 == 1
    ensures i < TWO64 && Steps(state, inc, i) == target
  {
    OrbitIsAll(state, inc);
    assert target in Interval(0, TWO64);
    i := OrbitMember(state, inc, TWO64, target);
  }

  // ----- The output function reaches every 32-bit value --------------------------------

  lemma {:induction false} XorZero(x: nat)
    ensures Xor(0, x) == x && Xor(x, 0) == x
  {
    if x == 0 {
    } else {
      XorZero(x / 2);
    }
  }

  lemma {:induction false} XorCancel(x: nat, y: nat)
    ensures Xor(x, Xor(y, x)) == y
    decreases x + y
  {
    hide Xor;
    XorZero(0);
    if x == 0 && y == 0 {
    } else {
      XorCancel(x / 2, y / 2);
      XorDigit(y, x);
      XorDigit(x, Xor(y, x));
      HalvesDecide(Xor(x, Xor(y, x)), y);
    }
  }

  /** x shifted right by k places, one place at a time. */
  function Shift(x: nat, k: nat): nat
  {
    if k == 0 then x else Shift(x / 2, k - 1)
  }

  lemma {:induction false} ShiftIsDivision(x: nat, k: nat)
    ensures Shift(x, k) == x / Pow2(k)
  {
    if k == 0 {
    } else {
      ShiftIsDivision(x / 2, k - 1);
      DivDiv(x, Pow2(k - 1));
    }
  }

  lemma {:induction false} XorShift(x: nat, y: nat, k: nat)
    ensures Shift(Xor(x, y), k) == Xor(Shift(x, k), Shift(y, k))
  {
    if k == 0 {
    } else {
      XorShift(x / 2, y / 2, k - 1);
      assert Xor(x, y) / 2 == Xor(x / 2, y / 2);
    }
  }

  lemma {:induction false} XorBound(x: nat, y: nat, k: nat)
    requires x < Pow2(k) && y < Pow2(k)
    ensures Xor(x, y) < Pow2(k)
  {
    if k == 0 {
    } else {
      XorBound(x / 2, y / 2, k - 1);
    }
  }

  /** The digits of h above the k low digits of l. */
  function Join(h: nat, l: nat, k: nat): nat
  {
    if k == 0 then h else 2 * Join(h, l / 2, k - 1) + l % 2
  }

  lemma {:induction false} JoinIsSum(h: nat, l: nat, k: nat)
    requires l < Pow2(k)
    ensures Join(h, l, k) == h * Pow2(k) + l
  {
    if k == 0 {
    } else {
      JoinIsSum(h, l / 2, k - 1);
      DoubleProduct(h, Pow2(k - 1), Pow2(k));
    }
  }

  lemma DoubleProduct(h: int, p: int, q: int)
    requires q == 2 * p
    ensures h * q == 2 * (h * p)
  {
  }

  /** Digits above the shorter operand pass through an exclusive-or unchanged. */
  lemma {:induction false} XorHigh(a: nat, h: nat, l: nat, k: nat)
    requires a < Pow2(k) && l < Pow2(k)
    ensures Xor(a, Join(h, l, k)) == Join(h, Xor(a, l), k)
  {
    if k == 0 {
      XorZero(h);
    } else {
      XorHigh(a / 2, h, l / 2, k - 1);
      var y := Join(h, l, k);
      assert y / 2 == Join(h, l / 2, k - 1) && y % 2 == l % 2;
      XorDigit(a, y);
      XorDigit(a, l);
    }
  }

  lemma HalvesDecide(a: nat, b: nat)
    requires a / 2 == b / 2 && a % 2 == b % 2
    ensures a == b
  {
  }

  lemma {:induction false} XorDigit(x: nat, y: nat)
    ensures Xor(x, y) / 2 == Xor(x / 2, y / 2) && Xor(x, y) % 2 == (x % 2 + y % 2) % 2
  {
  }

  lemma SmallPowers()
    ensures Pow2(0) == 1 && Pow2(14) == 0x4000 && Pow2(18) == 0x4_0000 && Pow2(27) == 0x800_0000 && Pow2(32) == TWO32
  {
    assert Pow2(9) == 0x200;
    Pow2Add(9, 9);
    Pow2Add(18, 9);
    Pow2Add(14, 18);
    assert Pow2(14) == 0x4000 by { Pow2Add(7, 7); }
  }

  lemma XorRecover(vh: nat, vl: nat, m: nat)
    requires vh < 0x4_0000 && vl < 0x4000 && m == Xor(vl, vh / 16)
    ensures m < 0x4000 && Xor(vh / 16, vh * 0x4000 + m) == vh * 0x4000 + vl
  {
    SmallPowers();
    var k := 14;
    XorBound(vl, vh / 16, k);
    XorHigh(vh / 16, vh, m, k);
    XorCancel(vh / 16, vl);
    JoinIsSum(vh, m, k);
    JoinIsSum(vh, vl, k);
  }

  lemma {:induction false} OutputUnrotated(x: nat, v: nat)
    requires x < 0x800_0000_0000_0000 && v < TWO32
    requires Xor(x / 0x4_0000 / 0x800_0000, x / 0x800_0000) == v
    ensures Output(x) == v
  {
    hide Xor;
    SmallPowers();
    var y, k := x / 0x4_0000, 27;
    XorShift(y, x, k);
    ShiftIsDivision(Xor(y, x), k);
    ShiftIsDivision(y, k);
    ShiftIsDivision(x, k);
    assert x / 0x800_0000_0000_0000 == 0;
    assert Pow2(0) == 1;
  }

  /** For every 32-bit value there is a state that outputs it. */
  lemma OutputSurjective(v: nat) returns (x: nat)
    requires v < TWO32
    ensures x < TWO64 && Output(x) == v
  {
    var vh, vl := v / 0x4000, v % 0x4000;
    var m := Xor(vl, vh / 16);
    XorRecover(vh, vl, m);
    x := vh * 0x200_0000_0000 + m * 0x800_0000;
    assert x / 0x800_0000 == vh * 0x4000 + m;
    assert x / 0x4_0000 / 0x800_0000 == vh / 16;
    OutputUnrotated(x, v);
  }

  // ----- Bounded sampling --------------------------------------------------------------

  /** The rejection threshold of Uint32n: uint32(-int32(n)) % n. */
  function Threshold(n: nat): nat
    requires 0 < n < TWO32
  {
    Lo32(TWO32 - n) % n
  }

  /** The draw v is used for the bound n; the threshold is only looked at when the low word is below n. */
  predicate Accepts(v: nat, n: nat)
    requires n < TWO32
  {
    var low := Lo32(Product(v, n));
    low >= n || low >= Threshold(n)
  }

  /** The result that the draw v gives for the bound n. */
  function Scaled(v: nat, n: nat): nat
  {
    Hi32(Product(v, n))
  }

  lemma ThresholdIsRemainder(n: nat)
    requires 0 < n < TWO32
    ensures Threshold(n) == TWO32 % n < n
  {
    ModShift(TWO32 - n, 1, n);
    assert 1 * n + (TWO32 - n) == TWO32;
  }

  /** Testing the threshold only when low < n accepts the same draws as always testing against 2^32 mod n. */
  lemma ShortcutIsExact(v: nat, n: nat)
    requires 0 < n < TWO32
    ensures Accepts(v, n) <==> v * n % TWO32 >= TWO32 % n
  {
    ThresholdIsRemainder(n);
  }

  lemma ScaledInRange(v: nat, n: nat)
    requires v < TWO32 && 0 < n
    ensures Scaled(v, n) < n
  {
    MulLess(v, TWO32, n);
    QuotientBound(v * n, n);
  }

  lemma QuotientBound(p: nat, n: nat)
    requires p < TWO32 * n
    ensures p / TWO32 < n
  {
  }

  /** The raw draws that are accepted and give k. */
  ghost function DrawsFor(n: nat, k: nat): set<nat>
    requires 0 < n < TWO32
  {
    set v: nat | v < TWO32 && Accepts(v, n) && Scaled(v, n) == k
  }

  lemma MulLess(a: nat, b: nat, n: nat)
    requires n > 0
    ensures a < b <==> a * n < b * n
  {
    if a < b {
      MulAtLeast(b - a, n);
      assert b * n - a * n == (b - a) * n;
    } else {
      assert (a - b) * n >= 0;
      assert a * n - b * n == (a - b) * n;
    }
  }

  /** Uint32n is exactly uniform: every result below n comes from exactly floor(2^32 / n) of the raw draws. */
  lemma ExactlyUniform(n: nat, k: nat)
    requires 0 < n < TWO32 && k < n
    ensures |DrawsFor(n, k)| == TWO32 / n
  {
    var t, q := TWO32 % n, TWO32 / n;
    var first := k * TWO32 + t;
    var lo := (first + n - 1) / n;
    assert TWO32 == q * n + t;
    forall v: nat ensures v in DrawsFor(n, k) <==> v in Interval(lo, q) {
      var p := v * n;
      ShortcutIsExact(v, n);
      // Accepted with result k: p lies in [first, (k + 1) * TWO32).
      assert Accepts(v, n) && Scaled(v, n) == k <==> first <= p < k * TWO32 + TWO32 by {
        if first <= p < k * TWO32 + TWO32 {
          DivModUnique(p, TWO32, k, p - k * TWO32);
        }
      }
      if first <= p < k * TWO32 + TWO32 {
        assert p < n * TWO32 by { assert (k + 1) * TWO32 <= n * TWO32; }
        MulLess(v, TWO32, n);
      }
      assert first <= p <==> lo <= v by { CeilingBound(first, v, n); }
      assert p < first + q * n <==> v < lo + q by {
        CeilingBound(first + q * n, v, n);
        assert (first + q * n + n - 1) == q * n + (first + n - 1);
        CeilingShift(first + n - 1, q, n);
      }
    }
    assert DrawsFor(n, k) == Interval(lo, q);
    IntervalSize(lo, q);
  }

  lemma CeilingBound(x: nat, v: nat, n: nat)
    requires n > 0
    ensures x <= v * n <==> (x + n - 1) / n <= v
  {
    var c, r := (x + n - 1) / n, (x + n - 1) % n;
    assert x + n - 1 == c * n + r;
    if c <= v {
      assert c * n <= v * n by { assert (v - c) * n >= 0; assert v * n - c * n == (v - c) * n; }
    } else {
      MulAtLeast(c - v, n);
      assert c * n - v * n == (c - v) * n;
    }
  }

  lemma CeilingShift(y: nat, q: nat, n: nat)
    requires n > 0
    ensures (q * n + y) / n == q + y / n
  {
    assert y == y / n * n + y % n;
    assert q * n + y == (q + y / n) * n + y % n;
    DivModUnique(q * n + y, n, q + y / n, y % n);
  }

  /** A draw of 1 is accepted whatever the bound, so some state of the cycle ends every rejection loop. */
  lemma OneIsAccepted(n: nat)
    requires n < TWO32
    ensures Accepts(1, n)
  {
    if n > 0 {
      assert 1 * n % TWO32 == n;
    }
  }

  // ----- The generator -----------------------------------------------------------------

  lemma LargeLowWord(v: nat, n: nat, low: nat)
    requires n < TWO32 && low == Lo32(Product(v, n)) && low >= n
    ensures Accepts(v, n)
  {
  }

  lemma RejectedDraw(v: nat, n: nat, low: nat, thresh: nat)
    requires 0 < n < TWO32 && low == Lo32(Product(v, n)) && thresh == Threshold(n)
    ensures low < thresh <==> !Accepts(v, n)
  {
    ThresholdIsRemainder(n);
  }

  ghost predicate AllRejected(state: nat, inc: nat, n: nat, draws: nat)
    requires state < TWO64 && n < TWO32
  {
    draws == 0
    || (AllRejected(state, inc, n, draws - 1) && !Accepts(Output(Steps(state, inc, draws - 1)), n))
  }

  lemma StepsUnfold(state: nat, inc: nat, n: int, bound: nat)
    requires state < TWO64 && bound < TWO32
    ensures Steps(state, inc, 0) == state && AllRejected(state, inc, bound, 0)
    ensures n >= 0 ==> Steps(state, inc, n + 1) == Step(Steps(state, inc, n), inc)
    ensures n >= 1 ==> Steps(Step(state, inc), inc, n - 1) == Steps(state, inc, n)
    ensures n >= 0 && AllRejected(state, inc, bound, n) && !Accepts(Output(Steps(state, inc, n)), bound) ==>
      AllRejected(state, inc, bound, n + 1)
  {
    hide Step, Output, Accepts;
    if n >= 1 {
      StepsAdd(state, inc, 1, n - 1);
      assert Steps(state, inc, 1) == Step(Steps(state, inc, 0), inc);
    }
  }

  /** Some state ahead outputs 1, which every bound accepts. */
  lemma WinnerAhead(state: nat, inc: nat) returns (winner: nat, left: nat)
    requires state < TWO64 && inc % 2 == 1
    ensures winner < TWO64 && Output(winner) == 1
    ensures Steps(state, inc, left) == winner
  {
    winner := OutputSurjective(1);
    left := Reaches(state, inc, winner);
  }

  /** The outcome of Uint32n(n) from a state: the first accepted one of its draws, and the draws used up. */
  ghost predicate FirstAccepted(state: nat, inc: nat, n: nat, draws: nat, r: nat)
    requires state < TWO64 && n < TWO32
  {
    && draws >= 1
    && AllRejected(state, inc, n, draws - 1)
    && Accepts(Output(Steps(state, inc, draws - 1)), n)
    && r == Scaled(Output(Steps(state, inc, draws - 1)), n)
  }

  lemma OutputIsWord(x: nat)
    requires x < TWO64
    ensures Output(x) < TWO32
  {
    var k := x / 0x800_0000_0000_0000;
    var w := Xor(x / 0x4_0000, x) / 0x800_0000 % TWO32;
    SmallPowers();
    Pow2Add(k, 32 - k);
    RotateInRange(w, Pow2(k), Pow2(32 - k));
  }

  lemma RotateInRange(w: nat, p: nat, q: nat)
    requires p > 0 && q > 0 && w < p * q
    ensures w / p + w % p * q < p * q
  {
    var hi, lo := w / p, w % p;
    assert w == hi * p + lo;
    MulLess(hi, q, p);
    assert q * p == p * q;
    MulLess(p - 1, lo, q);
    assert (p - 1) * q == p * q - q;
  }

  lemma OddIncrement(globalInc: nat)
    ensures globalInc * 2 % TWO64 + 1 < TWO64 && (globalInc * 2 % TWO64 + 1) % 2 == 1
  {
  }

  class Rand {
    var state: nat
    var inc: nat

    ghost predicate Valid()
      reads this
    {
      state < TWO64 && inc < TWO64 && inc % 2 == 1
    }

    /** A generator seeded from the clock, on the stream that the global counter selects. */
    constructor (now: nat, globalInc: nat)
      requires now < TWO64 && globalInc < TWO64
      ensures Valid()
      ensures inc == 2 * globalInc % TWO64 + 1
      ensures state == Step((Step(now, inc) + now) % TWO64, inc)
    {
      state := now;
      inc := globalInc * 2 % TWO64 + 1;
      new;
      hide Step;
      OddIncrement(globalInc);
      StepInPlace();
      state := (state + now) % TWO64;
      StepInPlace();
    }

    method StepInPlace()
      modifies this`state
      ensures state == Step(old(state), inc)
    {
      state := state * MULTIPLIER % TWO64;
      ModStep(old(state) * MULTIPLIER, 1, inc, TWO64);
      state := (state + inc) % TWO64;
    }

    method Uint32() returns (v: nat)
      requires Valid()
      modifies this`state
      ensures Valid()
      ensures v == Output(old(state)) < TWO32
      ensures state == Step(old(state), inc)
    {
      var x := state;
      StepInPlace();
      OutputIsWord(x);
      v := RotateRight32(Xor(x / 0x4_0000, x) / 0x800_0000 % TWO32, x / 0x800_0000_0000_0000);
    }

    /**
      A random number below n. Returns from every state and for every n: the result is the first
      accepted draw of the sequence, and the state has moved past exactly the draws looked at.
    */
    method Uint32n(n: nat) returns (r: nat, ghost draws: nat)
      requires Valid() && n < TWO32
      modifies this`state
      ensures Valid()
      ensures FirstAccepted(old(state), inc, n, draws, r)
      ensures state == Steps(old(state), inc, draws)
      ensures 0 < n ==> r < n
    {
      hide Step, Steps, Output, Product, Accepts, AllRejected, Threshold, Lo32, Hi32;
      ghost var start := state;
      StepsUnfold(start, inc, 0, n);
      var v: nat := Uint32();
      draws := 1;
      var prod: nat := Product(v, n);
      var low := Lo32(prod);
      if low < n {
        var thresh := Threshold(n);
        ghost var winner, steps := WinnerAhead(state, inc);
        ghost var left: int := steps;
        OneIsAccepted(n);
        while low < thresh
          invariant Valid() && draws >= 1
          invariant v < TWO32 && prod == Product(v, n) && low == Lo32(prod)
          invariant v == Output(Steps(start, inc, draws - 1))
          invariant state == Steps(start, inc, draws)
          invariant AllRejected(start, inc, n, draws - 1)
          invariant left >= 0 ==> Steps(state, inc, left) == winner
          invariant left < 0 ==> v == 1
          decreases left + 1
        {
          RejectedDraw(v, n, low, thresh);
          StepsUnfold(state, inc, left, n);
          StepsUnfold(start, inc, draws, n);
          StepsUnfold(start, inc, draws - 1, n);
          v := Uint32();
          draws := draws + 1;
          prod := Product(v, n);
          low := Lo32(prod);
          left := left - 1;
        }
        RejectedDraw(v, n, low, thresh);
      } else {
        LargeLowWord(v, n, low);
      }
      r := Hi32(prod);
      if 0 < n {
        ScaledInRange(v, n);
      }
    }

    /** Intn panics exactly when its argument does not fit in a uint32; otherwise it draws below it. */
    method Intn(n: int) returns (r: Option<nat>, ghost draws: nat)
      requires Valid()
      modifies this`state
      ensures Valid()
      ensures r.None? <==> n % TWO32 != n
      ensures r.None? ==> state == old(state) && draws == 0
      ensures r.Some? ==> FirstAccepted(old(state), inc, n, draws, r.value) && state == Steps(old(state), inc, draws)
      ensures r.Some? && 0 < n ==> r.value < n
    {
      draws := 0;
      if n % TWO32 != n {
        return None, draws;
      }
      var v;
      v, draws := Uint32n(n);
      r := Some(v);
    }
  }
}
