/**
  The reporting function that an instrumented program calls: on which pairs of values it faults, and
  a program that it makes fault.
*/
module SonarHook {
  import Cover
  import LittleEndian
  import opened MiniGo
  import opened SonarMarks
  import opened SonarNotes
  import opened SonarPass
  import opened SonarProbes
  import SonarEval
  import SonarLog
  import opened Wrappers

  const TWO63: nat := 0x8000_0000_0000_0000
  const TWO64: nat := 0x1_0000_0000_0000_0000

  function Wrap64(n: int): (r: int)
    ensures 0 <= 2 * r + TWO64 < 2 * TWO64
  {
    (n + TWO63) % TWO64 - TWO63
  }

  function Bytes(s: string): seq<Cover.Byte>
  {
    seq(|s|, k requires 0 <= k < |s| => s[k] as int % 256)
  }

  /** A value as an operand; `peek` tells what is found where the header of a string would be. */
  function OperandOf(peek: Value -> SonarLog.Header, v: Value): (r: SonarLog.Operand)
    ensures SonarLog.OperandOk(r)
  {
    LittleEndian.SmallPowers();
    match v
    case IntV(n) => SonarLog.Number(8, true, Wrap64(n))
    case StrV(s) => SonarLog.Str(Bytes(s))
    case _ =>
      match peek(v)
      case Readable(b) => SonarLog.Other(if |b| <= SonarLog.MAX_LEN then SonarLog.Readable(b) else SonarLog.TooLong)
      case h => SonarLog.Other(h)
  }

  predicate Faults(peek: Value -> SonarLog.Header, a: Value, b: Value)
  {
    SonarLog.MakeRecord(OperandOf(peek, a), OperandOf(peek, b), 0).Fault?
  }

  /** A value that is neither a number nor a string, and where no header of a string can be read. */
  predicate Opaque(peek: Value -> SonarLog.Header, v: Value)
  {
    (v.Unit? || v.BoolV?) && peek(v).Unreadable?
  }

  /**
    Reporting faults exactly if such a value, which only an operand of interface type can have next to
    a string, is compared with a string; if the string comes first, it must not be too long.
  */
  lemma FaultsOn(peek: Value -> SonarLog.Header, a: Value, b: Value)
    ensures Faults(peek, a, b) <==>
            (Opaque(peek, a) && b.StrV?) || (a.StrV? && |a.s| <= SonarLog.MAX_LEN && Opaque(peek, b))
  {
    SonarLog.FaultsExactly(OperandOf(peek, a), OperandOf(peek, b), 0);
    hide SonarLog.MakeRecord, SonarLog.OperandOk, Wrap64;
  }

  // ----- From the program to the verdict -----------------------------------------------

  function Holds(op: CmpOp, a: int, b: int): bool
  {
    match op
    case Eql => a == b
    case Neq => a != b
    case Lss => a < b
    case Gtr => a > b
    case Leq => a <= b
    case Geq => a >= b
  }

  predicate Int64(n: int)
  {
    0 <= n + TWO63 < TWO64
  }

  lemma NoTypeBits(id: nat)
    requires id / 16 % 4 == 0
    ensures id / 16 % 2 == 0 && id / 32 % 2 == 0
  {
    var h := id / 64;
    assert id / 16 == 4 * h;
    assert id / 32 == 2 * h;
  }

  lemma IntOperand(peek: Value -> SonarLog.Header, n: int)
    requires Int64(n)
    ensures OperandOf(peek, IntV(n)) == SonarLog.Number(8, true, n) && SonarLog.OperandOk(SonarLog.Number(8, true, n))
  {
  }

  /**
    A comparison of two integers that is instrumented, from the id it gets to what the fuzzer makes of
    the untrimmed sample: the site is the number of the comparison, and the verdict is its outcome.
  */
  lemma ReportEvaluates(env: Env, path: Path, op: CmpOp, x: Expr, y: Expr, const1: bool,
                        peek: Value -> SonarLog.Header, a: int, b: int)
    requires Int64(a) && Int64(b)
    requires var site := SiteOf(env, path, op, ShapeOf(x, y), x, y, const1); site.Some? && site.value < 0x1_0000_0000
    ensures var id := SiteOf(env, path, op, ShapeOf(x, y), x, y, const1).value;
            var r := SonarLog.MakeRecord(OperandOf(peek, IntV(a)), OperandOf(peek, IntV(b)), id);
            && r.Logged? && SonarLog.SampleOf(r.record).site == env.seqNo(path)
            && SonarEval.Meaning(SonarLog.SampleOf(r.record).flags, r.record.v1, r.record.v2) == Some(Holds(op, a, b))
  {
    hide SiteOf, ShapeOf, SonarLog.MakeRecord, SonarLog.NumberBytes, SonarEval.Meaning, ConstVal, IsConst, OperandOf,
         Wrap64;
    var id := SiteOf(env, path, op, ShapeOf(x, y), x, y, const1).value;
    SiteMeans(env, path, op, x, y, const1);
    NoTypeBits(id);
    IntOperand(peek, a);
    IntOperand(peek, b);
    SonarLog.ReportedComparison(SonarLog.Number(8, true, a), SonarLog.Number(8, true, b), id);
  }

  /** return a == "x" */
  function Body(): Stmts
  {
    SCons(Return(Binary(Cmp(Eql), Ident("a"), Lit(StrV("x")))), SNil)
  }

  lemma {:induction false} OriginalReturns(p: Program, fuel: nat, st: State)
    requires Lookup(st.vars, st.globals, "a") == BoolV(true)
    requires p.lang.compare(Eql, BoolV(true), StrV("x")) == Some(false)
    ensures ExecList(p, fuel, Body(), st) == SRes(Returned(BoolV(false)), st)
  {
    var e := Binary(Cmp(Eql), Ident("a"), Lit(StrV("x")));
    StepList(p, fuel, Return(e), SNil, st);
    StepOneExpr(p, fuel, Return(e), st);
    StepBinary(p, fuel, Cmp(Eql), e.x, e.y, st);
    assert EvalExpr(p, fuel, e.x, st) == ERes(Val(BoolV(true)), st);
    assert EvalExpr(p, fuel, e.y, st) == ERes(Val(StrV("x")), st);
  }

  lemma {:induction false} MarkedFaults(env: Env, path: Path, m: Program, fuel: nat, st: State)
    requires env.on && env.interesting(Ident("a"), Lit(StrV("x")))
    requires Lookup(st.vars, st.globals, "a") == BoolV(true) && m.lang.faults(BoolV(true), StrV("x"))
    ensures ExecList(m, fuel, MarkList(env, path, Body()), st).out == Faulted
  {
    var x, y := Ident("a"), Lit(StrV("x"));
    var site := SiteOf(env, path + [0] + [0], Eql, Ordinary, x, y, false).value;
    var e := Watched(Eql, x, y, site);
    assert MarkExpr(env, path + [0] + [0], Binary(Cmp(Eql), x, y)) == e by { hide Flags; }
    assert MarkStmt(env, path + [0], Body().head) == Return(e);
    assert MarkList(env, path, Body()) == SCons(Return(e), MarkList(env, path + [1], SNil));
    StepList(m, fuel, Return(e), MarkList(env, path + [1], SNil), st);
    StepOneExpr(m, fuel, Return(e), st);
    StepWatched(m, fuel, Eql, x, y, site, st);
    assert EvalExpr(m, fuel, x, st) == ERes(Val(BoolV(true)), st);
    assert EvalExpr(m, fuel, y, st) == ERes(Val(StrV("x")), st);
  }

  /**
    A program whose meaning is not preserved: `a == "x"` with the truth value true in the interface
    variable a is false, but its rewritten form faults.
  */
  lemma {:induction false} InterfaceAgainstString(env: Env, p: Program, fuel: nat, peek: Value -> SonarLog.Header)
    requires p.funcs == map["f" := Func(["a"], Body())] && env.lang == p.lang
    requires env.on && env.interesting(Ident("a"), Lit(StrV("x")))
    requires p.lang.compare(Eql, BoolV(true), StrV("x")) == Some(false)
    requires forall a, b :: p.lang.faults(a, b) == Faults(peek, a, b)
    requires peek(BoolV(true)) == SonarLog.Unreadable
    ensures var q, st := VisitProgram(env, p), State(Push(NoVars, "a", BoolV(true)), map[], [], [], []);
            && PlainProgram(p)
            && ExecList(p, fuel, p.funcs["f"].body, st).out == Returned(BoolV(false))
            && ExecList(q, fuel, q.funcs["f"].body, st).out == Faulted
  {
    var st := State(Push(NoVars, "a", BoolV(true)), map[], [], [], []);
    FaultsOn(peek, BoolV(true), StrV("x"));
    DistinctFrom("a");
    assert PlainProgram(p);
    assert p.lang.faults(BoolV(true), StrV("x"));
    OriginalReturns(p, fuel, st);
    MarkedFaults(env, env.root("f"), MarkProgram(env, p), fuel, st);
    hide ExecList, MarkList, VisitList, Body;
    SonarPreservesMeaning(env, p, fuel, "f", st);
  }

  lemma DistinctFrom(name: string)
    requires |name| == 1
    ensures !Reserved(name)
  {
    assert |Tmp()| > 1 && |Val1()| > 1 && |Val2()| > 1;
  }
}
