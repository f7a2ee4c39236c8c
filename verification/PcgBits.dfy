/** The generator's output word, bit by bit, and the words of a known stretch of states. */
module PcgBits {
  import opened Arith
  import opened Pcg

  function Bit(x: nat, k: nat): (b: nat)
    ensures b < 2
  {
    Shift(x, k) % 2
  }

  lemma {:induction false} ShiftAgain(x: nat, a: nat, b: nat)
    ensures Shift(Shift(x, a), b) == Shift(x, a + b)
  {
    if a > 0 {
      ShiftAgain(x / 2, a - 1, b);
    }
  }

  lemma BitAgain(x: nat, a: nat, b: nat)
    ensures Bit(Shift(x, a), b) == Bit(x, b + a)
  {
    ShiftAgain(x, a, b);
  }

  lemma {:induction false} XorBit(x: nat, y: nat, k: nat)
    ensures Bit(Xor(x, y), k) == (Bit(x, k) + Bit(y, k)) % 2
  {
    XorShift(x, y, k);
    XorDigit(Shift(x, k), Shift(y, k));
  }

  /** The low digits of a join are those of the lower part. */
  lemma {:induction false} JoinBit(h: nat, l: nat, n: nat, j: nat)
    ensures Bit(Join(h, l, n), j) == if j < n then Bit(l, j) else Bit(h, j - n)
  {
    if n > 0 {
      assert Join(h, l, n) / 2 == Join(h, l / 2, n - 1) && Join(h, l, n) % 2 == l % 2;
      if j > 0 {
        JoinBit(h, l / 2, n - 1, j - 1);
      }
    }
  }

  /** The bits of a number in two parts. */
  lemma {:induction false} PartsBit(x: nat, n: nat, h: nat, l: nat, j: nat)
    requires l < Pow2(n) && x == h * Pow2(n) + l
    ensures Bit(x, j) == if j < n then Bit(l, j) else Bit(h, j - n)
  {
    JoinIsSum(h, l, n);
    JoinBit(h, l, n, j);
  }

  lemma Parts(x: nat, p: nat)
    requires p > 0
    ensures x / p >= 0 && x == x / p * p + x % p && x % p < p
  {
  }

  lemma RotatedBit(w: nat, k: nat, j: nat)
    requires w < TWO32 && k < 32 && j < 32
    ensures Bit(RotateRight32(w, k), j) == Bit(w, (j + k) % 32)
  {
    hide Bit, Pow2, Join;
    var p, q := Pow2(k), Pow2(32 - k);
    SmallPowers();
    Pow2Add(k, 32 - k);
    Parts(w, p);
    var hi, lo := w / p, w % p;
    HighPart(w, p, q, hi, lo);
    MulNonNegative(lo, q);
    PartsBit(lo * q + hi, 32 - k, lo, hi, j);
    PartsBit(w, k, hi, lo, (j + k) % 32);
    Rotated(w, k);
  }

  lemma Rotated(w: nat, k: nat)
    requires k < 32
    ensures RotateRight32(w, k) == w % Pow2(k) * Pow2(32 - k) + w / Pow2(k)
  {
    hide Pow2;
  }

  lemma HighPart(w: nat, p: nat, q: nat, h: int, l: nat)
    requires p > 0 && w < p * q && w == h * p + l
    ensures h < q
  {
    assert p * (q - h) == p * q - h * p;
    Positive(p, q - h);
  }

  lemma NotPositive(p: nat, d: int)
    requires d <= 0
    ensures p * d <= 0
  {
    assert p * -d >= 0;
  }

  lemma Positive(p: nat, d: int)
    requires p * d > 0
    ensures d > 0
  {
    if d <= 0 {
      NotPositive(p, d);
    }
  }

  /**
    Bit j of the output word is the exclusive-or of two bits of the state, 18 places apart: those at
    places 27 and 45 of the window that the state's five top bits turn by.
  */
  lemma OutputBits(x: nat, j: nat)
    requires x < TWO64 && j < 32
    ensures var place := (j + Shift(x, 59)) % 32;
            Bit(Output(x), j) == (Bit(x, place + 27) + Bit(x, place + 45)) % 2
  {
    hide Bit, Pow2, Shift, Xor, RotateRight32;
    SmallPowers();
    PowersUp();
    ShiftIsDivision(x, 59);
    ShiftIsDivision(x, 18);
    var mixed := Xor(Shift(x, 18), x);
    ShiftIsDivision(mixed, 27);
    var k, wide := x / 0x800_0000_0000_0000, Shift(mixed, 27);
    var place := (j + k) % 32;
    RotatedBit(wide % TWO32, k, j);
    Parts(wide, TWO32);
    PartsBit(wide, 32, wide / TWO32, wide % TWO32, place);
    BitAgain(mixed, 27, place);
    XorBit(Shift(x, 18), x, place + 27);
    BitAgain(x, 18, place + 27);
  }

  lemma PowersUp()
    ensures Pow2(59) == 0x800_0000_0000_0000
  {
    SmallPowers();
    Pow2Add(27, 32);
    hide Pow2;
  }

  /** The states of the published demonstration of PCG XSH RR 64/32: seed 42 on stream 54. */
  lemma DemonstrationStates()
    ensures Step((Step(0, 2 * 54 + 1) + 42) % TWO64, 109) == 1753877967969059832
    ensures Step(1753877967969059832, 109) == 3118741472915405573
    ensures Step(3118741472915405573, 109) == 10030406343644371790
  {
  }
}
