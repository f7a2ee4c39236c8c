/**
  The function literals that the sonar pass puts in the place of comparisons, and the states in which
  they run: the variables that the pass declares come on top of those of the program.
*/
module SonarProbes {
  import opened MiniGo
  import opened SonarPass
  import opened Wrappers

  // ----- States of the two programs ----------------------------------------------------

  /** The variables of the marked program among those of the rewritten one. */
  function Clean(vars: Vars): Vars
  {
    match vars
    case NoVars => NoVars
    case Push(below, name, v) => if Reserved(name) then Clean(below) else Push(Clean(below), name, v)
  }

  /** Equal states, except for the variables that the pass introduces. */
  predicate Sim(a: State, b: State)
  {
    && a.vars == Clean(b.vars) && a.globals == b.globals && a.trace == b.trace && a.cover == b.cover
    && a.sonar == b.sonar
  }

  /** The same variables in the same order; those the pass introduced still have their values. */
  predicate KeptSame(a: Vars, b: Vars)
  {
    match a
    case NoVars => b.NoVars?
    case Push(below, name, v) =>
      b.Push? && b.name == name && (Reserved(name) ==> b.value == v) && KeptSame(below, b.below)
  }

  predicate Kept(a: Vars, b: Vars)
  {
    Depth(b) >= Depth(a) && KeptSame(a, Truncate(b, Depth(a)))
  }

  lemma {:induction false} SameDepth(a: Vars, b: Vars)
    requires KeptSame(a, b)
    ensures Depth(a) == Depth(b) && Depth(Clean(a)) == Depth(Clean(b))
  {
    if a.Push? {
      SameDepth(a.below, b.below);
    }
  }

  lemma {:induction false} KeptRefl(a: Vars)
    ensures KeptSame(a, a) && Kept(a, a)
  {
    if a.Push? {
      KeptRefl(a.below);
    }
  }

  lemma {:induction false} KeptSameTrans(a: Vars, b: Vars, c: Vars)
    requires KeptSame(a, b) && KeptSame(b, c)
    ensures KeptSame(a, c)
  {
    if a.Push? {
      KeptSameTrans(a.below, b.below, c.below);
    }
  }

  lemma {:induction false} KeptSameTruncate(a: Vars, b: Vars, n: nat)
    requires KeptSame(a, b)
    ensures KeptSame(Truncate(a, n), Truncate(b, n))
  {
    SameDepth(a, b);
    if Depth(a) > n {
      KeptSameTruncate(a.below, b.below, n);
    }
  }

  lemma KeptTrans(a: Vars, b: Vars, c: Vars)
    requires Kept(a, b) && Kept(b, c)
    ensures Kept(a, c)
  {
    KeptSameTruncate(b, Truncate(c, Depth(b)), Depth(a));
    TruncateTwice(c, Depth(b), Depth(a));
    KeptSameTrans(a, Truncate(b, Depth(a)), Truncate(c, Depth(a)));
  }

  lemma KeptPush(a: Vars, name: string, v: Value)
    ensures Kept(a, Push(a, name, v))
  {
    KeptRefl(a);
  }

  lemma {:induction false} CleanTruncate(a: Vars, b: Vars)
    requires Kept(a, b)
    ensures Clean(Truncate(b, Depth(a))) == Truncate(Clean(b), Depth(Clean(a)))
    ensures Depth(Clean(b)) >= Depth(Clean(a))
  {
    if Depth(b) > Depth(a) {
      CleanTruncate(a, b.below);
    } else {
      SameDepth(a, b);
    }
  }

  lemma {:induction false} CleanLookup(vars: Vars, globals: map<string, Value>, name: string)
    requires !Reserved(name)
    ensures Lookup(vars, globals, name) == Lookup(Clean(vars), globals, name)
    ensures Declared(vars, name) == Declared(Clean(vars), name)
  {
    if vars.Push? {
      CleanLookup(vars.below, globals, name);
    }
  }

  lemma {:induction false} CleanSet(vars: Vars, name: string, v: Value)
    requires !Reserved(name)
    ensures Clean(SetVar(vars, name, v)) == SetVar(Clean(vars), name, v)
    ensures KeptSame(vars, SetVar(vars, name, v))
  {
    if vars.Push? {
      CleanSet(vars.below, name, v);
      KeptRefl(vars.below);
    }
  }

  lemma {:induction false} KeptLookup(a: Vars, b: Vars, globals: map<string, Value>, globals': map<string, Value>,
                                      name: string)
    requires KeptSame(a, b) && Reserved(name) && Declared(a, name)
    ensures Declared(b, name) && Lookup(b, globals', name) == Lookup(a, globals, name)
  {
    if a.name != name {
      KeptLookup(a.below, b.below, globals, globals', name);
    }
  }

  lemma {:induction false} CleanParams(params: seq<string>, args: seq<Value>)
    requires forall i | 0 <= i < |params| :: !Reserved(params[i])
    ensures Clean(BindParams(params, args)) == BindParams(params, args)
  {
    if params != [] {
      var k := |params| - 1;
      CleanParams(params[..k], args);
      assert !Reserved(params[k]);
    }
  }

  lemma SimStore(a: State, b: State, name: string, v: Value)
    requires Sim(a, b) && !Reserved(name)
    ensures Sim(Store(a, name, v), Store(b, name, v)) && Kept(b.vars, Store(b, name, v).vars)
  {
    CleanLookup(b.vars, b.globals, name);
    CleanSet(b.vars, name, v);
    KeptRefl(b.vars);
  }

  /** Leaving a scope keeps the two states related. */
  lemma SimLeave(a0: State, b0: State, a: State, b: State)
    requires Sim(a0, b0) && Sim(a, b) && Kept(b0.vars, b.vars)
    ensures var a', b' := LeaveScope(a, Depth(a0.vars)), LeaveScope(b, Depth(b0.vars));
            Sim(a', b') && Kept(b0.vars, b'.vars)
  {
    CleanTruncate(b0.vars, b.vars);
    TruncateTwice(b.vars, Depth(b0.vars), Depth(b0.vars));
  }

  // ----- Constants ---------------------------------------------------------------------

  /** Built of literals and operators only, without && and ||, of which one operand may not be evaluated. */
  predicate Closed(e: Expr)
  {
    forall x | x in Parts(e) :: x.Lit? || x.Not? || (x.Binary? && !x.op.LAnd? && !x.op.LOr?)
  }

  /** Such an expression is constant exactly if evaluating it gives a value. */
  lemma {:induction false} ClosedIsConst(p: Program, fuel: nat, e: Expr, st: State)
    requires Closed(e)
    ensures IsConst(p.lang, e) <==> EvalExpr(p, fuel, e, st).out.Val?
    decreases e
  {
    assert e in Parts(e);
    match e
    case Binary(op, x, y) =>
      assert Closed(x) && Closed(y);
      ClosedIsConst(p, fuel, x, st);
      StepBinary(p, fuel, op, x, y, st);
      if IsConst(p.lang, x) {
        ConstEval(p, fuel, x, st);
        ClosedIsConst(p, fuel, y, st);
        if IsConst(p.lang, y) {
          ConstEval(p, fuel, y, st);
        }
      }
    case Not(x) =>
      assert Closed(x);
      ClosedIsConst(p, fuel, x, st);
    case Lit(_) =>
  }

  lemma {:induction false} ConstEval(p: Program, fuel: nat, e: Expr, st: State)
    requires IsConst(p.lang, e)
    ensures EvalExpr(p, fuel, e, st) == ERes(Val(ConstVal(p.lang, e).value), st)
    decreases e
  {
    match e
    case Lit(_) =>
    case Binary(op, x, y) =>
      ConstEval(p, fuel, x, st);
      ConstEval(p, fuel, y, st);
    case Not(x) => ConstEval(p, fuel, x, st);
    case _ =>
  }

  lemma {:induction false} ConstUnchanged(env: Env, path: Path, e: Expr)
    requires IsConst(env.lang, e)
    ensures VisitExpr(env, path, e) == e
    decreases e
  {
    match e
    case Lit(_) =>
    case Binary(_, x, y) =>
      ConstUnchanged(env, path + [0], x);
      ConstUnchanged(env, path + [1], y);
    case Not(x) => ConstUnchanged(env, path + [0], x);
    case _ =>
  }

  // ----- What a probe does -------------------------------------------------------------

  /** An operand that is used without being stored: it has the value v wherever the probe reads it. */
  predicate Stable(p: Program, e: Expr, v: Value, st: State)
  {
    ConstVal(p.lang, e) == Some(v)
      || (e == Ident(Tmp()) && Declared(st.vars, Tmp()) && Lookup(st.vars, st.globals, Tmp()) == v)
  }

  lemma {:induction false} StableEval(p: Program, fuel: nat, e: Expr, v: Value, st0: State, st: State)
    requires Stable(p, e, v, st0) && KeptSame(st0.vars, Truncate(st.vars, Depth(st0.vars)))
    requires st.vars == Truncate(st.vars, Depth(st0.vars))
             || (st.vars.Push? && st.vars.name != Tmp() && st.vars.below == Truncate(st.vars, Depth(st0.vars)))
    ensures EvalExpr(p, fuel, e, st) == ERes(Val(v), st)
  {
    if ConstVal(p.lang, e) == Some(v) {
      ConstEval(p, fuel, e, st);
    } else {
      KeptLookup(st0.vars, Truncate(st.vars, Depth(st0.vars)), st0.globals, st.globals, Tmp());
    }
  }

  predicate Reads(p: Program, fuel: nat, e: Expr, v: Value, st: State)
  {
    EvalExpr(p, fuel, e, st) == ERes(Val(v), st)
  }

  /** How the statements of a probe end: in a fault, or with the result of the comparison. */
  function ReportEnd(lang: Lang, op: CmpOp, a: Value, b: Value): Outcome
  {
    if lang.faults(a, b) then Faulted
    else match ApplyOp(lang, Cmp(op), a, b) case Some(t) => Returned(t) case None => Panicked(RUNTIME_ERROR)
  }

  function ReportStmts(op: CmpOp, a: Expr, b: Expr, site: nat): Stmts
  {
    SCons(SonarCall(a, b, site), SCons(Return(Binary(Cmp(op), a, b)), SNil))
  }

  /** The tail of every probe: report the two values and return their comparison. */
  lemma {:induction false} ReportTail(p: Program, fuel: nat, op: CmpOp, a: Expr, b: Expr, va: Value, vb: Value,
                                      site: nat, st: State)
    requires Reads(p, fuel, a, va, st) && Reads(p, fuel, b, vb, st)
    requires Reads(p, fuel, a, va, Reported(st, va, vb, site)) && Reads(p, fuel, b, vb, Reported(st, va, vb, site))
    ensures ExecList(p, fuel, ReportStmts(op, a, b, site), st)
            == SRes(ReportEnd(p.lang, op, va, vb), Reported(st, va, vb, site))
  {
    var st1 := Reported(st, va, vb, site);
    var ret := Return(Binary(Cmp(op), a, b));
    StepSonarCall(p, fuel, a, b, site, st);
    StepList(p, fuel, SonarCall(a, b, site), SCons(ret, SNil), st);
    StepList(p, fuel, ret, SNil, st1);
    StepOneExpr(p, fuel, ret, st1);
    StepBinary(p, fuel, Cmp(op), a, b, st1);
    assert ExecList(p, fuel, SNil, ExecStmt(p, fuel, ret, st1).st) == SRes(Normal, ExecStmt(p, fuel, ret, st1).st);
    hide EvalExpr, ExecStmt, ExecList, ApplyOp;
  }

  lemma {:induction false} DefineFirst(p: Program, fuel: nat, name: string, x: Expr, rest: Stmts, st: State)
    ensures var r := ExecList(p, fuel, SCons(Define(name, x), rest), st);
            var rx := EvalExpr(p, fuel, x, st);
            r == if rx.out.Val? then ExecList(p, fuel, rest, Declare(rx.st, name, rx.out.v))
              else SRes(AbruptEnd(rx.out), rx.st)
  {
    hide EvalExpr, ExecStmt, ExecList;
    StepList(p, fuel, Define(name, x), rest, st);
    StepOneExpr(p, fuel, Define(name, x), st);
  }

  /**
    A probe of two stored operands evaluates each once, from left to right, reports exactly their
    values, and gives what the comparison gives unless the report faults.
  */
  lemma {:induction false} ProbeBoth(p: Program, fuel: nat, op: CmpOp, x: Expr, y: Expr, site: nat, st: State,
                                     rx: ERes, ry: ERes)
    requires rx == EvalExpr(p, fuel, x, st)
    requires rx.out.Val? ==> ry == EvalExpr(p, fuel, y, Declare(rx.st, Val1(), rx.out.v))
    requires rx.out.Val? && ry.out.Val? ==> Lookup(ry.st.vars, ry.st.globals, Val1()) == rx.out.v
    ensures var r := EvalExpr(p, fuel, Probe(op, x, y, false, false, site), st);
            if !rx.out.Val? then r == rx
            else if !ry.out.Val? then r == ERes(ry.out, LeaveScope(ry.st, Depth(st.vars)))
            else r == FinishWatch(p.lang, op, rx.out.v, ry.out.v, site, LeaveScope(ry.st, Depth(st.vars)))
  {
    var rest := SCons(Define(Val2(), y), ReportStmts(op, Ident(Val1()), Ident(Val2()), site));
    hide ExecList, ExecStmt, EvalExpr, Val1, Val2, ApplyOp, FinishCall, FinishWatch, ReportStmts;
    StepLiteral(p, fuel, SCons(Define(Val1(), x), rest), st);
    DefineFirst(p, fuel, Val1(), x, rest, st);
    ProbeIs(op, x, y, site);
    if !rx.out.Val? {
      TruncateId(rx.st.vars);
      FinishFail(rx.out, rx.st, rx.st.vars);
    } else {
      StoreSecond(p, fuel, op, y, site, Declare(rx.st, Val1(), rx.out.v), rx.out.v, Depth(st.vars), ry);
    }
  }

  lemma {:induction false} StoreSecond(p: Program, fuel: nat, op: CmpOp, y: Expr, site: nat, st1: State, vx: Value,
                                       n: nat, ry: ERes)
    requires ry == EvalExpr(p, fuel, y, st1) && n <= Depth(st1.vars)
    requires ry.out.Val? ==> Lookup(ry.st.vars, ry.st.globals, Val1()) == vx
    ensures var r :=
              ExecList(p, fuel, SCons(Define(Val2(), y), ReportStmts(op, Ident(Val1()), Ident(Val2()), site)), st1);
            FinishCall(r, Truncate(r.st.vars, n)) ==
            if !ry.out.Val? then ERes(ry.out, LeaveScope(ry.st, n))
            else FinishWatch(p.lang, op, vx, ry.out.v, site, LeaveScope(ry.st, n))
  {
    hide ExecList, ExecStmt, EvalExpr, Val1, Val2, ApplyOp, FinishCall, FinishWatch, ReportStmts;
    DefineFirst(p, fuel, Val2(), y, ReportStmts(op, Ident(Val1()), Ident(Val2()), site), st1);
    if !ry.out.Val? {
      FinishFail(ry.out, ry.st, Truncate(ry.st.vars, n));
    } else {
      DistinctNames();
      ReportStored(p, fuel, op, vx, ry.out.v, site, Declare(ry.st, Val2(), ry.out.v));
      ProbeEnd(p.lang, op, vx, ry.out.v, site, ry.st, Val2(), ry.out.v, n);
    }
  }

  lemma ProbeIs(op: CmpOp, x: Expr, y: Expr, site: nat)
    ensures Probe(op, x, y, false, false, site) == FuncLitCall(SCons(Define(Val1(), x), SCons(Define(Val2(), y),
              ReportStmts(op, Ident(Val1()), Ident(Val2()), site))))
    ensures Probe(op, x, y, true, false, site) ==
            FuncLitCall(SCons(Define(Val2(), y), ReportStmts(op, x, Ident(Val2()), site)))
    ensures Probe(op, x, y, false, true, site) ==
            FuncLitCall(SCons(Define(Val1(), x), ReportStmts(op, Ident(Val1()), y, site)))
  {
  }

  lemma FinishFail(out: EOut, st: State, vars: Vars)
    requires !out.Val?
    ensures FinishCall(SRes(AbruptEnd(out), st), vars) == ERes(out, st.(vars := vars))
  {
  }

  /** Leaving the function literal drops the stored operands. */
  lemma {:induction false} ProbeEnd(lang: Lang, op: CmpOp, va: Value, vb: Value, site: nat, st: State, name: string,
                                    top: Value, n: nat)
    requires n <= Depth(st.vars)
    ensures var inner := Reported(Declare(st, name, top), va, vb, site);
            FinishCall(SRes(ReportEnd(lang, op, va, vb), inner), Truncate(inner.vars, n))
            == FinishWatch(lang, op, va, vb, site, LeaveScope(st, n))
  {
    PopTop(st.vars, name, top, n);
  }

  lemma {:induction false} ReportStored(p: Program, fuel: nat, op: CmpOp, va: Value, vb: Value, site: nat, st: State)
    requires Lookup(st.vars, st.globals, Val1()) == va && Lookup(st.vars, st.globals, Val2()) == vb
    ensures ExecList(p, fuel, ReportStmts(op, Ident(Val1()), Ident(Val2()), site), st)
            == SRes(ReportEnd(p.lang, op, va, vb), Reported(st, va, vb, site))
  {
    hide ExecList, ReportStmts, ReportEnd, Val1, Val2;
    ReportTail(p, fuel, op, Ident(Val1()), Ident(Val2()), va, vb, site, st);
  }

  lemma {:induction false} PopTop(vars: Vars, name: string, v: Value, n: nat)
    requires n <= Depth(vars)
    ensures Truncate(Push(vars, name, v), n) == Truncate(vars, n)
  {
  }

  lemma {:induction false} TruncateId(vars: Vars)
    ensures Truncate(vars, Depth(vars)) == vars
  {
  }

  /** A probe whose first operand is constant, or the stored tag, stores only the second one. */
  lemma {:induction false} ProbeSecond(p: Program, fuel: nat, op: CmpOp, x: Expr, y: Expr, vx: Value, site: nat,
                                       st: State, ry: ERes)
    requires Stable(p, x, vx, st)
    requires ry == EvalExpr(p, fuel, y, st) && KeptSame(st.vars, ry.st.vars)
    ensures var r := EvalExpr(p, fuel, Probe(op, x, y, true, false, site), st);
            if !ry.out.Val? then r == ry
            else r == FinishWatch(p.lang, op, vx, ry.out.v, site, LeaveScope(ry.st, Depth(st.vars)))
  {
    hide ExecList, ExecStmt, EvalExpr, ApplyOp, FinishCall, FinishWatch, Val2, ReportStmts, ReportEnd;
    DistinctNames();
    ProbeIs(op, x, y, site);
    var report := ReportStmts(op, x, Ident(Val2()), site);
    StepLiteral(p, fuel, SCons(Define(Val2(), y), report), st);
    DefineFirst(p, fuel, Val2(), y, report, st);
    TruncateId(ry.st.vars);
    if !ry.out.Val? {
      FinishFail(ry.out, ry.st, ry.st.vars);
    } else {
      var st1 := Declare(ry.st, Val2(), ry.out.v);
      SameDepth(st.vars, ry.st.vars);
      PopTop(ry.st.vars, Val2(), ry.out.v, Depth(st.vars));
      StableEval(p, fuel, x, vx, st, st1);
      StableEval(p, fuel, x, vx, st, Reported(st1, vx, ry.out.v, site));
      ReadsTop(p, fuel, ry.st, Val2(), ry.out.v, vx, ry.out.v, site);
      ReportTail(p, fuel, op, x, Ident(Val2()), vx, ry.out.v, site, st1);
      ProbeEnd(p.lang, op, vx, ry.out.v, site, ry.st, Val2(), ry.out.v, Depth(st.vars));
    }
  }

  lemma ReadsTop(p: Program, fuel: nat, st: State, name: string, v: Value, va: Value, vb: Value, site: nat)
    ensures var st1 := Declare(st, name, v);
            Reads(p, fuel, Ident(name), v, st1) && Reads(p, fuel, Ident(name), v, Reported(st1, va, vb, site))
  {
  }

  /** A probe whose second operand is constant stores only the first one. */
  lemma {:induction false} ProbeFirst(p: Program, fuel: nat, op: CmpOp, x: Expr, y: Expr, vy: Value, site: nat,
                                      st: State, rx: ERes)
    requires ConstVal(p.lang, y) == Some(vy)
    requires rx == EvalExpr(p, fuel, x, st)
    ensures var r := EvalExpr(p, fuel, Probe(op, x, y, false, true, site), st);
            if !rx.out.Val? then r == rx
            else r == FinishWatch(p.lang, op, rx.out.v, vy, site, LeaveScope(rx.st, Depth(st.vars)))
  {
    hide ExecList, ExecStmt, EvalExpr, ApplyOp, FinishCall, FinishWatch, Val1, ReportStmts, ReportEnd;
    ProbeIs(op, x, y, site);
    var report := ReportStmts(op, Ident(Val1()), y, site);
    StepLiteral(p, fuel, SCons(Define(Val1(), x), report), st);
    DefineFirst(p, fuel, Val1(), x, report, st);
    TruncateId(rx.st.vars);
    if !rx.out.Val? {
      FinishFail(rx.out, rx.st, rx.st.vars);
    } else {
      var st1 := Declare(rx.st, Val1(), rx.out.v);
      ConstEval(p, fuel, y, st1);
      ConstEval(p, fuel, y, Reported(st1, rx.out.v, vy, site));
      ReadsTop(p, fuel, rx.st, Val1(), rx.out.v, rx.out.v, vy, site);
      ReportTail(p, fuel, op, Ident(Val1()), y, rx.out.v, vy, site, st1);
      ProbeEnd(p.lang, op, rx.out.v, vy, site, rx.st, Val1(), rx.out.v, Depth(st.vars));
    }
  }

  lemma FinishSplit(lang: Lang, op: BinOp, a: Value, b: Value, s1: State, s2: State)
    ensures FinishOp(lang, op, a, b, s1).out == FinishOp(lang, op, a, b, s2).out
    ensures FinishOp(lang, op, a, b, s1).st == s1 && FinishOp(lang, op, a, b, s2).st == s2
  {
  }

  lemma WatchSplit(lang: Lang, op: CmpOp, a: Value, b: Value, site: nat, s1: State, s2: State)
    ensures FinishWatch(lang, op, a, b, site, s1).out == FinishWatch(lang, op, a, b, site, s2).out
    ensures FinishWatch(lang, op, a, b, site, s1).st == Reported(s1, a, b, site)
    ensures var out := FinishWatch(lang, op, a, b, site, s1).out; out.Val? ==> out.v.BoolV?
  {
  }

  /** Comparing the result of a comparison with true does not change it. */
  lemma {:induction false} EqualsTrue(p: Program, fuel: nat, e: Expr, st: State, r: ERes)
    requires EvalExpr(p, fuel, e, st) == r && (r.out.Val? ==> r.out.v.BoolV?)
    ensures EvalExpr(p, fuel, Binary(Cmp(Eql), e, Lit(BoolV(true))), st) == r
  {
    StepBinary(p, fuel, Cmp(Eql), e, Lit(BoolV(true)), st);
    assert EvalExpr(p, fuel, Lit(BoolV(true)), r.st) == ERes(Val(BoolV(true)), r.st);
    hide EvalExpr;
  }
}
