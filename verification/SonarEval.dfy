/**
  Evaluating a reported comparison. Operands are byte strings; numbers of up to eight bytes are
  sign-extended to eight bytes and compared as unsigned or two's complement 64-bit numbers.
*/
module SonarEval {
  import opened Arith
  import opened Cover
  import opened LittleEndian
  import opened SonarFlags
  import opened Wrappers

  /** The flag bits beyond the operator. */
  predicate HasFlag(flags: Byte, bit: Byte)
    requires bit > 0
  {
    flags / bit % 2 == 1
  }

  /** The six operators on numbers; the two other codes panic. */
  function CompareInts(op: int, a: int, b: int): Option<bool>
  {
    if op == 0 then Some(a == b)
    else if op == 1 then Some(a != b)
    else if op == 2 then Some(a < b)
    else if op == 3 then Some(a > b)
    else if op == 4 then Some(a <= b)
    else if op == 5 then Some(a >= b)
    else None
  }

  /** Lexicographic order of byte strings. */
  predicate LexLess(a: seq<Byte>, b: seq<Byte>)
  {
    b != [] && (a == [] || a[0] < b[0] || (a[0] == b[0] && LexLess(a[1..], b[1..])))
  }

  function CompareStrings(op: int, a: seq<Byte>, b: seq<Byte>): Option<bool>
  {
    if op == 0 then Some(a == b)
    else if op == 1 then Some(a != b)
    else if op == 2 then Some(LexLess(a, b))
    else if op == 3 then Some(LexLess(b, a))
    else if op == 4 then Some(!LexLess(b, a))
    else if op == 5 then Some(!LexLess(a, b))
    else None
  }

  /** The order is total: exactly one of less, equal and greater holds. */
  lemma {:induction false} LexTotal(a: seq<Byte>, b: seq<Byte>)
    ensures LexLess(a, b) <==> a != b && !LexLess(b, a)
  {
    if a != [] && b != [] && a[0] == b[0] {
      LexTotal(a[1..], b[1..]);
      assert a == [a[0]] + a[1..] && b == [b[0]] + b[1..];
    }
  }

  predicate Negative(v: seq<Byte>)
    requires v != []
  {
    v[|v| - 1] >= 128
  }

  /** Two's complement at the operand's own width. */
  function TwosComplement(v: seq<Byte>): int
    requires v != []
  {
    if Negative(v) then FromLE(v) - Pow256(|v|) else FromLE(v)
  }

  /** The 64-bit word that sign extension gives. */
  function Extended(v: seq<Byte>): int
    requires v != [] && |v| <= 8
  {
    if Negative(v) then FromLE(v) + 0x1_0000_0000_0000_0000 - Pow256(|v|) else FromLE(v)
  }

  method SignExtend(v: seq<Byte>) returns (w: seq<Byte>)
    requires 1 <= |v| <= 8
    ensures |w| == 8 && Negative(w) == Negative(v)
    ensures FromLE(w) == Extended(v)
  {
    w := v;
    while |w| < 8
      invariant |v| <= |w| <= 8 && Negative(w) == Negative(v)
      invariant FromLE(w) == if Negative(v) then FromLE(v) + Pow256(|w|) - Pow256(|v|) else FromLE(v)
    {
      if w[|w| - 1] < 128 {
        FromLEAppend(w, 0);
        w := w + [0];
      } else {
        FromLEAppend(w, 255);
        assert Pow256(|w| + 1) == 256 * Pow256(|w|);
        w := w + [255];
      }
    }
    SmallPowers();
  }

  /** The top byte decides in which half of its range a number lies. */
  lemma {:induction false} HalfRange(v: seq<Byte>)
    requires v != []
    ensures Negative(v) <==> 2 * FromLE(v) >= Pow256(|v|)
    ensures FromLE(v) < Pow256(|v|)
  {
    var n := |v| - 1;
    assert v == v[..n] + [v[n]];
    FromLEAppend(v[..n], v[n]);
    FromLEBound(v[..n]);
    assert Pow256(|v|) == 256 * Pow256(n);
    hide Pow256, FromLE;
    HalfOfProduct(FromLE(v[..n]), Pow256(n), v[n]);
  }

  lemma HalfOfProduct(lo: nat, p: nat, t: Byte)
    requires lo < p
    ensures t >= 128 <==> 2 * (lo + p * t) >= 256 * p
    ensures lo + p * t < 256 * p
  {
    MulMonotone(p, t, 255);
    if t >= 128 {
      MulMonotone(p, 128, t);
    } else {
      MulMonotone(p, t, 127);
    }
  }

  lemma MulMonotone(p: nat, a: nat, b: nat)
    requires a <= b
    ensures p * a <= p * b
  {
    assert p * (b - a) >= 0;
    assert p * (b - a) == p * b - p * a;
  }

  /**
    Sign extension is strictly monotone for operands of one width, both as unsigned numbers and in
    two's complement, so comparing the extended words is comparing the operands.
  */
  lemma {:induction false} ExtensionMonotone(v: seq<Byte>, w: seq<Byte>)
    requires 1 <= |v| == |w| <= 8
    ensures Extended(v) < Extended(w) <==> FromLE(v) < FromLE(w)
    ensures Extended(v) == Extended(w) <==> FromLE(v) == FromLE(w)
    ensures var top := 0x1_0000_0000_0000_0000;
            var a := if Negative(v) then Extended(v) - top else Extended(v);
            var b := if Negative(w) then Extended(w) - top else Extended(w);
            a == TwosComplement(v) && b == TwosComplement(w)
  {
    HalfRange(v);
    HalfRange(w);
    Pow256Monotone(|v|, 8);
    SmallPowers();
  }

  lemma {:induction false} Pow256Monotone(j: nat, k: nat)
    requires j <= k
    ensures Pow256(j) <= Pow256(k)
    decreases k
  {
    if j < k {
      Pow256Monotone(j, k - 1);
    }
  }

  /** What evaluate means: strings in byte order; numbers of one width by value at that width; otherwise false. */
  function Meaning(flags: Byte, v1: seq<Byte>, v2: seq<Byte>): Option<bool>
  {
    var op := flags % 8;
    if HasFlag(flags, SONAR_STRING) then CompareStrings(op, v1, v2)
    else if v1 == [] || v2 == [] || |v1| > 8 || |v2| > 8 || |v1| != |v2| then Some(false)
    else if !HasFlag(flags, SONAR_SIGNED) then CompareInts(op, FromLE(v1), FromLE(v2))
    else CompareInts(op, TwosComplement(v1), TwosComplement(v2))
  }

  /** evaluate compares two numbers of equal width exactly at their own width, unsigned and signed. */
  method Evaluate(flags: Byte, v1: seq<Byte>, v2: seq<Byte>) returns (res: Option<bool>)
    ensures res == Meaning(flags, v1, v2)
  {
    var op := flags % 8;
    if HasFlag(flags, SONAR_STRING) {
      return CompareStrings(op, v1, v2);
    }
    if |v1| == 0 || |v2| == 0 || |v1| > 8 || |v2| > 8 || |v1| != |v2| {
      return Some(false);
    }
    var w1 := SignExtend(v1);
    var w2 := SignExtend(v2);
    ExtensionMonotone(v1, v2);
    ExtensionMonotone(v2, v1);
    if !HasFlag(flags, SONAR_SIGNED) {
      res := CompareInts(op, FromLE(w1), FromLE(w2));
    } else {
      res := CompareInts(op, Int64(w1), Int64(w2));
    }
  }

  /** The 64-bit word read as a signed number. */
  function Int64(w: seq<Byte>): int
    requires |w| == 8
  {
    var x := FromLE(w);
    if w[7] >= 128 then x - 0x1_0000_0000_0000_0000 else x
  }

  // ----- Laws of the verdicts ----------------------------------------------------------

  /** The operator in the flags replaced by another one. */
  function WithOp(flags: Byte, op: nat): (f: Byte)
    requires op < 8
    ensures f % 8 == op
    ensures HasFlag(f, SONAR_STRING) == HasFlag(flags, SONAR_STRING)
    ensures HasFlag(f, SONAR_SIGNED) == HasFlag(flags, SONAR_SIGNED)
  {
    OpBits(flags / 8, op);
    OpBits(flags / 8, flags % 8);
    flags / 8 * 8 + op
  }

  lemma OpBits(h: nat, op: nat)
    requires op < 8
    ensures var f := h * 8 + op; f % 8 == op && f / 16 == h / 2 && f / 32 == h / 4
  {
    DivModUnique(h * 8 + op, 8, h, op);
    DivModUnique(h * 8 + op, 16, h / 2, h % 2 * 8 + op);
    DivModUnique(h * 8 + op, 32, h / 4, h % 4 * 8 + op);
  }

  /** One byte string comes before another: it is a proper prefix, or has the smaller byte where they first differ. */
  predicate Before(a: seq<Byte>, b: seq<Byte>)
  {
    exists n | 0 <= n <= |a| && n < |b| :: a[..n] == b[..n] && (n < |a| ==> a[n] < b[n])
  }

  lemma {:induction false} LexMeans(a: seq<Byte>, b: seq<Byte>)
    ensures LexLess(a, b) <==> Before(a, b)
  {
    if LexLess(a, b) {
      LexBefore(a, b);
    }
    if Before(a, b) {
      var n :| 0 <= n <= |a| && n < |b| && a[..n] == b[..n] && (n < |a| ==> a[n] < b[n]);
      BeforeLex(a, b, n);
    }
  }

  lemma {:induction false} LexBefore(a: seq<Byte>, b: seq<Byte>)
    requires LexLess(a, b)
    ensures Before(a, b)
  {
    if a == [] || a[0] < b[0] {
      assert a[..0] == b[..0];
    } else {
      LexBefore(a[1..], b[1..]);
      var n :| 0 <= n <= |a[1..]| && n < |b[1..]| && a[1..][..n] == b[1..][..n]
               && (n < |a[1..]| ==> a[1..][n] < b[1..][n]);
      assert a[..n + 1] == [a[0]] + a[1..][..n] && b[..n + 1] == [b[0]] + b[1..][..n];
      assert n + 1 < |a| ==> a[n + 1] == a[1..][n];
      assert b[n + 1] == b[1..][n];
    }
  }

  lemma {:induction false} BeforeLex(a: seq<Byte>, b: seq<Byte>, n: nat)
    requires n <= |a| && n < |b| && a[..n] == b[..n] && (n < |a| ==> a[n] < b[n])
    ensures LexLess(a, b)
    decreases n
  {
    if n > 0 {
      assert a[..n][0] == a[0] && b[..n][0] == b[0];
      assert a[1..][..n - 1] == a[..n][1..] && b[1..][..n - 1] == b[..n][1..];
      BeforeLex(a[1..], b[1..], n - 1);
    }
  }

  /** Of two numbers of one width, the one with the smaller byte at the highest place where they differ. */
  predicate LowerBytes(a: seq<Byte>, b: seq<Byte>)
    requires |a| == |b|
  {
    exists n | 0 <= n < |a| :: a[n] < b[n] && a[n + 1..] == b[n + 1..]
  }

  /** The same with signs: a negative number is below one that is not. */
  predicate Lower(signed: bool, a: seq<Byte>, b: seq<Byte>)
    requires |a| == |b| && a != []
  {
    var top := |a| - 1;
    if signed && (a[top] < 128) != (b[top] < 128) then b[top] < 128 else LowerBytes(a, b)
  }

  lemma {:induction false} BytesOrder(a: seq<Byte>, b: seq<Byte>)
    requires |a| == |b|
    ensures FromLE(a) < FromLE(b) <==> LowerBytes(a, b)
    ensures FromLE(a) == FromLE(b) <==> a == b
  {
    if a != [] {
      var n := |a| - 1;
      var a', b' := a[..n], b[..n];
      assert a == a' + [a[n]] && b == b' + [b[n]];
      FromLEAppend(a', a[n]);
      FromLEAppend(b', b[n]);
      FromLEBound(a');
      FromLEBound(b');
      BytesOrder(a', b');
      TopByte(FromLE(a'), FromLE(b'), Pow256(n), a[n], b[n]);
      LowerTop(a, b);
    }
  }

  lemma TopByte(x: nat, y: nat, p: nat, s: Byte, t: Byte)
    requires x < p && y < p
    ensures x + p * s < y + p * t <==> s < t || (s == t && x < y)
    ensures x + p * s == y + p * t <==> s == t && x == y
  {
    if s < t {
      MulMonotone(p, s + 1, t);
    } else if t < s {
      MulMonotone(p, t + 1, s);
    }
  }

  lemma LowerTop(a: seq<Byte>, b: seq<Byte>)
    requires |a| == |b| > 0
    ensures var n := |a| - 1; LowerBytes(a, b) <==> a[n] < b[n] || (a[n] == b[n] && LowerBytes(a[..n], b[..n]))
  {
    hide LowerBytes;
    var n := |a| - 1;
    if LowerBytes(a, b) {
      LowerDown(a, b);
    }
    if a[n] < b[n] || (a[n] == b[n] && LowerBytes(a[..n], b[..n])) {
      LowerUp(a, b);
    }
  }

  lemma LowerDown(a: seq<Byte>, b: seq<Byte>)
    requires |a| == |b| > 0 && LowerBytes(a, b)
    ensures var n := |a| - 1; a[n] < b[n] || (a[n] == b[n] && LowerBytes(a[..n], b[..n]))
  {
    var n := |a| - 1;
    var k :| 0 <= k < |a| && a[k] < b[k] && a[k + 1..] == b[k + 1..];
    if k < n {
      assert a[k + 1..][n - k - 1] == a[n] && b[k + 1..][n - k - 1] == b[n];
      assert a[..n][k + 1..] == a[k + 1..][..n - k - 1] && b[..n][k + 1..] == b[k + 1..][..n - k - 1];
      assert a[..n][k] < b[..n][k];
    }
  }

  lemma LowerUp(a: seq<Byte>, b: seq<Byte>)
    requires |a| == |b| > 0
    requires var n := |a| - 1; a[n] < b[n] || (a[n] == b[n] && LowerBytes(a[..n], b[..n]))
    ensures LowerBytes(a, b)
  {
    var n := |a| - 1;
    if a[n] < b[n] {
      assert a[n + 1..] == b[n + 1..];
    } else {
      var k :| 0 <= k < n && a[..n][k] < b[..n][k] && a[..n][k + 1..] == b[..n][k + 1..];
      assert a[k + 1..] == a[..n][k + 1..] + [a[n]] && b[k + 1..] == b[..n][k + 1..] + [b[n]];
    }
  }

  lemma ValueOrder(a: seq<Byte>, b: seq<Byte>)
    requires |a| == |b| && a != []
    ensures TwosComplement(a) < TwosComplement(b) <==> Lower(true, a, b)
    ensures TwosComplement(a) == TwosComplement(b) <==> a == b
  {
    hide LowerBytes, FromLE, Pow256;
    HalfRange(a);
    HalfRange(b);
    BytesOrder(a, b);
  }

  function Not(verdict: Option<bool>): Option<bool>
  {
    match verdict case Some(t) => Some(!t) case None => None
  }

  /** The verdict of one of the eight operator codes on the operands. */
  function Verdict(flags: Byte, op: nat, a: seq<Byte>, b: seq<Byte>): Option<bool>
    requires op < 8
  {
    Meaning(WithOp(flags, op), a, b)
  }

  /** The operators on operands for which `less` is the order. */
  predicate Ordered(flags: Byte, a: seq<Byte>, b: seq<Byte>, less: (seq<Byte>, seq<Byte>) -> bool)
  {
    && Verdict(flags, 0, a, b) == Some(a == b)
    && Verdict(flags, 1, a, b) == Not(Verdict(flags, 0, a, b))
    && Verdict(flags, 2, a, b) == Some(less(a, b))
    && Verdict(flags, 3, a, b) == Verdict(flags, 2, b, a)
    && Verdict(flags, 4, a, b) == Not(Verdict(flags, 3, a, b))
    && Verdict(flags, 5, a, b) == Not(Verdict(flags, 2, a, b))
    && Verdict(flags, 6, a, b) == Verdict(flags, 7, a, b) == None
  }

  /**
    Flag bit 5 marks strings: equality is equality, the order is that of the first difference, and
    the other operators follow from these two. The two codes that are no operators fail.
  */
  lemma StringVerdicts(flags: Byte, a: seq<Byte>, b: seq<Byte>)
    requires flags / 32 % 2 == 1
    ensures Ordered(flags, a, b, Before)
  {
    hide WithOp, LexLess, Before;
    LexMeans(a, b);
    LexMeans(b, a);
  }

  /**
    Other operands are numbers. Of one width from 1 to 8, equal numbers are equal bytes, and the order
    is that of the highest byte in which they differ, flag bit 4 deciding whether the top bit is a
    sign. Operands of other sizes make every verdict false.
  */
  lemma NumberVerdicts(flags: Byte, a: seq<Byte>, b: seq<Byte>)
    requires flags / 32 % 2 == 0
    ensures if 1 <= |a| == |b| <= 8
            then Ordered(flags, a, b, (x, y) => |x| == |y| && x != [] && Lower(flags / 16 % 2 == 1, x, y))
            else forall op: nat | op < 8 :: Verdict(flags, op, a, b) == Some(false)
  {
    hide WithOp, LowerBytes, FromLE, TwosComplement;
    if 1 <= |a| == |b| <= 8 {
      BytesOrder(a, b);
      BytesOrder(b, a);
      ValueOrder(a, b);
      ValueOrder(b, a);
    }
  }
}
