/**
  Why the sonar pass does what its marks say: the states of the marked and the rewritten program stay
  related, statement by statement. They report the same, and end in the same way.
*/
module SonarMeaning {
  import opened MiniGo
  import opened SonarMarks
  import opened SonarPass
  import opened SonarProbes
  import opened Wrappers

  ghost predicate Ready(env: Env, top: Env, p: Program)
  {
    env.lang == p.lang == top.lang && PlainProgram(p)
  }

  // ----- Comparisons -------------------------------------------------------------------

  lemma MarkedSplit(lang: Lang, site: Option<nat>, op: CmpOp, a: Value, b: Value, st: State, st': State)
    requires Sim(st, st')
    ensures var r, r' := FinishMarked(lang, site, op, a, b, st), FinishMarked(lang, site, op, a, b, st');
            r.out == r'.out && Sim(r.st, r'.st) && r'.st.vars == st'.vars && (r.out.Val? ==> r.out.v.BoolV?)
  {
    hide Clean;
    match site
    case None =>
      FinishSplit(lang, Cmp(op), a, b, st, st');
      FinishBool(lang, op, a, b, st);
      hide FinishOp;
    case Some(s) =>
      WatchSplit(lang, op, a, b, s, st, st');
      WatchSplit(lang, op, a, b, s, st', st);
      hide FinishWatch;
  }

  lemma FinishBool(lang: Lang, op: CmpOp, a: Value, b: Value, st: State)
    ensures var out := FinishOp(lang, Cmp(op), a, b, st).out; out.Val? ==> out.v.BoolV?
  {
  }

  /** Both sides of a comparison after the first operand, which has the value vx. */
  predicate FirstDone(q: Program, fuel: nat, x': Expr, const1: bool, vx: Value, s1: State, st': State, rx': ERes)
  {
    && rx' == EvalExpr(q, fuel, x', st') && rx'.out == Val(vx)
    && Sim(s1, rx'.st) && KeptSame(st'.vars, rx'.st.vars)
    && (const1 ==> rx'.st == st' && Stable(q, x', vx, st'))
  }

  predicate Agree(r: ERes, r': ERes, st': State)
  {
    r.out == r'.out && Sim(r.st, r'.st) && KeptSame(st'.vars, r'.st.vars)
  }

  /** A comparison that is left alone. */
  lemma {:induction false} SimAlone(env: Env, path: Path, top: Env, p: Program, fuel: nat, op: CmpOp,
                                    y: Expr, x': Expr, const1: bool, vx: Value, s1: State, st': State, rx': ERes)
    requires Ready(env, top, p) && PlainExpr(y) && FirstDone(VisitProgram(top, p), fuel, x', const1, vx, s1, st', rx')
    ensures var r := SecondHalf(MarkProgram(top, p), fuel, MarkExpr(env, path, y), None, op, vx, s1);
            var e' := Binary(Cmp(op), x', VisitExpr(env, path, y));
            Agree(r, EvalExpr(VisitProgram(top, p), fuel, e', st'), st')
    decreases fuel, y, 3
  {
    hide EvalExpr, VisitExpr, MarkExpr, PlainExpr, PlainProgram, Sim, KeptSame, Stable, FinishOp, MarkProgram;
    var m, q := MarkProgram(top, p), VisitProgram(top, p);
    var my, y' := MarkExpr(env, path, y), VisitExpr(env, path, y);
    SimExpr(env, path, top, p, fuel, y, s1, rx'.st);
    StepBinary(q, fuel, Cmp(op), x', y', st');
    var ry, ry' := EvalExpr(m, fuel, my, s1), EvalExpr(q, fuel, y', rx'.st);
    KeptSameTrans(st'.vars, rx'.st.vars, ry'.st.vars);
    if ry.out.Val? {
      MarkedSplit(m.lang, None, op, vx, ry.out.v, ry.st, ry'.st);
      SameLang(top, p);
    }
  }

  lemma SameLang(top: Env, p: Program)
    ensures MarkProgram(top, p).lang == VisitProgram(top, p).lang == p.lang
  {
  }

  /** The probe of a comparison with a constant second operand. */
  lemma {:induction false} SimFirst(env: Env, path: Path, top: Env, p: Program, fuel: nat, op: CmpOp, site: nat,
                                    y: Expr, x': Expr, vx: Value, s1: State, st': State, rx': ERes)
    requires Ready(env, top, p) && IsConst(env.lang, y)
    requires FirstDone(VisitProgram(top, p), fuel, x', false, vx, s1, st', rx')
    ensures var r := SecondHalf(MarkProgram(top, p), fuel, MarkExpr(env, path, y), Some(site), op, vx, s1);
            var e' := Probe(op, x', VisitExpr(env, path, y), false, true, site);
            Agree(r, EvalExpr(VisitProgram(top, p), fuel, e', st'), st')
  {
    hide EvalExpr, VisitExpr, MarkExpr, PlainProgram, KeptSame, FinishWatch, Probe, ConstVal, MarkProgram, VisitProgram;
    var m, q := MarkProgram(top, p), VisitProgram(top, p);
    SameLang(top, p);
    var vy := ConstVal(p.lang, y).value;
    ConstUnmarked(env, path, y);
    ConstUnchanged(env, path, y);
    ConstEval(m, fuel, y, s1);
    ProbeFirst(q, fuel, op, x', y, vy, site, st', rx');
    Left(st', rx'.st);
    AgreeLeft(q.lang, Some(site), op, vx, vy, s1, rx'.st, st');
  }

  lemma Left(st': State, s: State)
    requires KeptSame(st'.vars, s.vars)
    ensures LeaveScope(s, Depth(st'.vars)) == s
  {
    SameDepth(st'.vars, s.vars);
    TruncateId(s.vars);
  }

  lemma AgreeLeft(lang: Lang, site: Option<nat>, op: CmpOp, a: Value, b: Value, s: State, s': State, st': State)
    requires Sim(s, s') && KeptSame(st'.vars, s'.vars)
    ensures Agree(FinishMarked(lang, site, op, a, b, s), FinishMarked(lang, site, op, a, b, s'), st')
  {
    hide KeptSame, Sim, FinishMarked;
    MarkedSplit(lang, site, op, a, b, s, s');
  }

  /** The probe of a comparison whose first operand is constant, or the stored tag. */
  lemma {:induction false} SimSecond(env: Env, path: Path, top: Env, p: Program, fuel: nat, op: CmpOp, site: nat,
                                     y: Expr, x': Expr, vx: Value, s1: State, st': State, rx': ERes)
    requires Ready(env, top, p) && PlainExpr(y) && FirstDone(VisitProgram(top, p), fuel, x', true, vx, s1, st', rx')
    ensures var r := SecondHalf(MarkProgram(top, p), fuel, MarkExpr(env, path, y), Some(site), op, vx, s1);
            var e' := Probe(op, x', VisitExpr(env, path, y), true, false, site);
            Agree(r, EvalExpr(VisitProgram(top, p), fuel, e', st'), st')
    decreases fuel, y, 3
  {
    hide EvalExpr, VisitExpr, MarkExpr, PlainExpr, PlainProgram, KeptSame, Stable, Sim, FinishWatch, Probe, MarkProgram,
         VisitProgram;
    var m, q := MarkProgram(top, p), VisitProgram(top, p);
    SameLang(top, p);
    var my, y' := MarkExpr(env, path, y), VisitExpr(env, path, y);
    SimExpr(env, path, top, p, fuel, y, s1, st');
    var ry, ry' := EvalExpr(m, fuel, my, s1), EvalExpr(q, fuel, y', st');
    ProbeSecond(q, fuel, op, x', y', vx, site, st', ry');
    if ry.out.Val? {
      Left(st', ry'.st);
      AgreeLeft(q.lang, Some(site), op, vx, ry.out.v, ry.st, ry'.st, st');
    }
  }

  /** The probe of a comparison of two stored operands. */
  lemma {:induction false} SimBoth(env: Env, path: Path, top: Env, p: Program, fuel: nat, op: CmpOp, site: nat,
                                   y: Expr, x': Expr, vx: Value, s1: State, st': State, rx': ERes)
    requires Ready(env, top, p) && PlainExpr(y) && FirstDone(VisitProgram(top, p), fuel, x', false, vx, s1, st', rx')
    ensures var r := SecondHalf(MarkProgram(top, p), fuel, MarkExpr(env, path, y), Some(site), op, vx, s1);
            var e' := Probe(op, x', VisitExpr(env, path, y), false, false, site);
            Agree(r, EvalExpr(VisitProgram(top, p), fuel, e', st'), st')
    decreases fuel, y, 3
  {
    hide EvalExpr, VisitExpr, MarkExpr, PlainExpr, PlainProgram, FinishWatch, Probe, Val1, MarkProgram, VisitProgram;
    var m, q := MarkProgram(top, p), VisitProgram(top, p);
    SameLang(top, p);
    var my, y' := MarkExpr(env, path, y), VisitExpr(env, path, y);
    var st1 := Declare(rx'.st, Val1(), vx);
    Stored(s1, rx'.st, vx);
    SimExpr(env, path, top, p, fuel, y, s1, st1);
    var ry, ry' := EvalExpr(m, fuel, my, s1), EvalExpr(q, fuel, y', st1);
    StoredKept(st', rx'.st, vx, ry.st, ry'.st);
    ProbeBoth(q, fuel, op, x', y', site, st', rx', ry');
    if ry.out.Val? {
      AgreeLeft(q.lang, Some(site), op, vx, ry.out.v, ry.st, LeaveScope(ry'.st, Depth(st'.vars)), st');
    }
  }

  lemma Stored(s: State, s': State, v: Value)
    requires Sim(s, s')
    ensures Sim(s, Declare(s', Val1(), v))
  {
  }

  /** The stored operand keeps its value, and dropping it gives back the variables there were before. */
  lemma {:induction false} StoredKept(st': State, s': State, vx: Value, s: State, last: State)
    requires KeptSame(st'.vars, s'.vars) && KeptSame(Push(s'.vars, Val1(), vx), last.vars) && Sim(s, last)
    ensures Lookup(last.vars, last.globals, Val1()) == vx
    ensures var left := LeaveScope(last, Depth(st'.vars)); Sim(s, left) && KeptSame(st'.vars, left.vars)
  {
    SameDepth(st'.vars, s'.vars);
    SameDepth(s'.vars, last.vars.below);
    PopTop(last.vars.below, Val1(), vx, Depth(st'.vars));
    TruncateId(last.vars.below);
    KeptSameTrans(st'.vars, s'.vars, last.vars.below);
  }

  /**
    The comparison with operand x already evaluated to vx on both sides: its new form evaluates the
    other operand, reports and ends as the marked comparison does.
  */
  lemma {:induction false} SimCompare(env: Env, path: Path, top: Env, p: Program, fuel: nat, op: CmpOp, shape: Shape,
                                      x: Expr, y: Expr, x': Expr, const1: bool, vx: Value,
                                      s1: State, st': State, rx': ERes)
    requires Ready(env, top, p) && PlainExpr(y) && FirstDone(VisitProgram(top, p), fuel, x', const1, vx, s1, st', rx')
    ensures var site := SiteOf(env, path, op, shape, x, y, const1);
            var r := SecondHalf(MarkProgram(top, p), fuel, MarkExpr(env, path + [1], y), site, op, vx, s1);
            var e' := Compare(env, path, op, shape, x, y, x', VisitExpr(env, path + [1], y), const1);
            Agree(r, EvalExpr(VisitProgram(top, p), fuel, e', st'), st')
    decreases fuel, y, 4
  {
    hide EvalExpr, VisitExpr, MarkExpr, PlainExpr, PlainProgram, FirstDone, Probe, MarkProgram, VisitProgram, Sim,
         KeptSame, FinishMarked, Flags;
    match SiteOf(env, path, op, shape, x, y, const1)
    case None => SimAlone(env, path + [1], top, p, fuel, op, y, x', const1, vx, s1, st', rx');
    case Some(site) =>
      var const2, q := IsConst(env.lang, y), VisitProgram(top, p);
      if const2 {
        NotConst(q, fuel, x', const1, vx, s1, st', rx');
        SimFirst(env, path + [1], top, p, fuel, op, site, y, x', vx, s1, st', rx');
      } else if const1 {
        SimSecond(env, path + [1], top, p, fuel, op, site, y, x', vx, s1, st', rx');
      } else {
        SimBoth(env, path + [1], top, p, fuel, op, site, y, x', vx, s1, st', rx');
      }
      var m, my := MarkProgram(top, p), MarkExpr(env, path + [1], y);
      BoolOrEnd(m, fuel, my, site, op, vx, s1);
      var e' := Probe(op, x', VisitExpr(env, path + [1], y), const1, const2, site);
      var r' := EvalExpr(q, fuel, e', st');
      if SecondHalf(m, fuel, my, Some(site), op, vx, s1).out.Val? {
        EqualsTrue(q, fuel, e', st', r');
      } else {
        EqualsTrue(q, fuel, e', st', r');
      }
  }

  lemma NotConst(q: Program, fuel: nat, x': Expr, const1: bool, vx: Value, s1: State, st': State, rx': ERes)
    requires FirstDone(q, fuel, x', const1, vx, s1, st', rx')
    ensures FirstDone(q, fuel, x', false, vx, s1, st', rx')
  {
  }

  /** What comes of a probe is a truth value, or an operand does not end normally. */
  lemma BoolOrEnd(m: Program, fuel: nat, my: Expr, site: nat, op: CmpOp, vx: Value, s1: State)
    ensures var r := SecondHalf(m, fuel, my, Some(site), op, vx, s1); r.out.Val? ==> r.out.v.BoolV?
  {
    hide EvalExpr;
  }

  // ----- Expressions -------------------------------------------------------------------

  lemma {:induction false} SimExpr(env: Env, path: Path, top: Env, p: Program, fuel: nat, e: Expr, st: State,
                                   st': State)
    requires Ready(env, top, p) && PlainExpr(e) && Sim(st, st')
    ensures Agree(EvalExpr(MarkProgram(top, p), fuel, MarkExpr(env, path, e), st),
                  EvalExpr(VisitProgram(top, p), fuel, VisitExpr(env, path, e), st'), st')
    decreases fuel, e, 2
  {
    hide ExecList, EvalArgs, MarkList, VisitList, MarkExprs, VisitExprs, Compare, MarkCompare, PlainProgram, FinishOp,
         MarkProgram, VisitProgram, Ready;
    KeptRefl(st'.vars);
    match e
    case Lit(_) =>
    case Ident(name) => CleanLookup(st'.vars, st'.globals, name);
    case Binary(op, _, _) =>
      if op.Cmp? {
        SimCmp(env, path, top, p, fuel, e, st, st');
      } else {
        SimBinary(env, path, top, p, fuel, e, st, st');
      }
    case Not(x) => SimExpr(env, path + [0], top, p, fuel, x, st, st');
    case Call(_, _) => SimCall(env, path, top, p, fuel, e, st, st');
    case FuncLitCall(body) => SimLiteral(env, path, top, p, fuel, body, st, st');
  }

  lemma {:induction false} SimLiteral(env: Env, path: Path, top: Env, p: Program, fuel: nat, body: Stmts, st: State,
                                      st': State)
    requires Ready(env, top, p) && PlainList(body) && Sim(st, st')
    ensures Agree(EvalExpr(MarkProgram(top, p), fuel, FuncLitCall(MarkList(env, path + [0], body)), st),
                  EvalExpr(VisitProgram(top, p), fuel, FuncLitCall(VisitList(env, path + [0], body)), st'), st')
    decreases fuel, body, 1
  {
    hide EvalExpr, ExecList, MarkProgram, VisitProgram, Sim, KeptSame;
    var m, q := MarkProgram(top, p), VisitProgram(top, p);
    var mb, body' := MarkList(env, path + [0], body), VisitList(env, path + [0], body);
    StepLiteral(m, fuel, mb, st);
    StepLiteral(q, fuel, body', st');
    SimList(env, path + [0], top, p, fuel, body, st, st');
    var r, r' := ExecList(m, fuel, mb, st), ExecList(q, fuel, body', st');
    SimLeave(st, st', r.st, r'.st);
    KeptLeft(st'.vars, r'.st.vars);
  }

  lemma {:induction false} KeptLeft(a: Vars, b: Vars)
    requires Kept(a, b)
    ensures KeptSame(a, Truncate(b, Depth(a)))
  {
  }

  lemma {:induction false} SimBinary(env: Env, path: Path, top: Env, p: Program, fuel: nat, e: Expr, st: State,
                                     st': State)
    requires Ready(env, top, p) && PlainExpr(e) && Sim(st, st') && e.Binary? && !e.op.Cmp?
    ensures Agree(EvalExpr(MarkProgram(top, p), fuel, MarkExpr(env, path, e), st),
                  EvalExpr(VisitProgram(top, p), fuel, VisitExpr(env, path, e), st'), st')
    decreases fuel, e, 1
  {
    hide EvalExpr, PlainProgram, MarkProgram, VisitProgram, Sim, KeptSame, FinishOp;
    var m, q := MarkProgram(top, p), VisitProgram(top, p);
    SameLang(top, p);
    var mx, my := MarkExpr(env, path + [0], e.x), MarkExpr(env, path + [1], e.y);
    var x', y' := VisitExpr(env, path + [0], e.x), VisitExpr(env, path + [1], e.y);
    StepBinary(m, fuel, e.op, mx, my, st);
    StepBinary(q, fuel, e.op, x', y', st');
    SimExpr(env, path + [0], top, p, fuel, e.x, st, st');
    var rx, rx' := EvalExpr(m, fuel, mx, st), EvalExpr(q, fuel, x', st');
    if rx.out.Val? {
      SimExpr(env, path + [1], top, p, fuel, e.y, rx.st, rx'.st);
      var ry, ry' := EvalExpr(m, fuel, my, rx.st), EvalExpr(q, fuel, y', rx'.st);
      KeptSameTrans(st'.vars, rx'.st.vars, ry'.st.vars);
      if ry.out.Val? {
        FinishSplit(p.lang, e.op, rx.out.v, ry.out.v, ry.st, ry'.st);
      }
    }
  }

  lemma {:induction false} SimCmp(env: Env, path: Path, top: Env, p: Program, fuel: nat, e: Expr, st: State, st': State)
    requires Ready(env, top, p) && PlainExpr(e) && Sim(st, st') && e.Binary? && e.op.Cmp?
    ensures Agree(EvalExpr(MarkProgram(top, p), fuel, MarkExpr(env, path, e), st),
                  EvalExpr(VisitProgram(top, p), fuel, VisitExpr(env, path, e), st'), st')
    decreases fuel, e, 1
  {
    hide EvalExpr, Compare, MarkCompare, PlainProgram, FinishMarked, IsConst, Sim, KeptSame, MarkProgram, VisitProgram,
         SiteOf, Stable;
    var m, q := MarkProgram(top, p), VisitProgram(top, p);
    SameLang(top, p);
    var mx, my := MarkExpr(env, path + [0], e.x), MarkExpr(env, path + [1], e.y);
    var x', y' := VisitExpr(env, path + [0], e.x), VisitExpr(env, path + [1], e.y);
    var const1, shape := IsConst(env.lang, e.x), ShapeOf(e.x, e.y);
    SimExpr(env, path + [0], top, p, fuel, e.x, st, st');
    var rx, rx' := EvalExpr(m, fuel, mx, st), EvalExpr(q, fuel, x', st');
    MarkedCompare(m, fuel, env, path, e.op.cmp, shape, e.x, e.y, mx, my, const1, st);
    if const1 {
      ConstOperand(env, path + [0], m, fuel, e.x, st);
      ConstOperand(env, path + [0], q, fuel, e.x, st');
    }
    if rx.out.Val? {
      SimCompare(env, path, top, p, fuel, e.op.cmp, shape, e.x, e.y, x', const1, rx.out.v, rx.st, st', rx');
    } else {
      if IsConst(env.lang, e.y) {
        ConstUnchanged(env, path + [1], e.y);
      }
      CompareFails(env, path, q, fuel, e.op.cmp, shape, e.x, e.y, x', y', st', rx');
    }
  }

  lemma {:induction false} ConstOperand(env: Env, path: Path, q: Program, fuel: nat, x: Expr, st: State)
    requires env.lang == q.lang && IsConst(env.lang, x)
    ensures VisitExpr(env, path, x) == x == MarkExpr(env, path, x)
    ensures EvalExpr(q, fuel, x, st) == ERes(Val(ConstVal(q.lang, x).value), st)
    ensures Stable(q, x, ConstVal(q.lang, x).value, st)
  {
    ConstEval(q, fuel, x, st);
    ConstUnchanged(env, path, x);
    ConstUnmarked(env, path, x);
  }

  /** When the first operand does not end normally, neither does the new form of the comparison. */
  lemma {:induction false} CompareFails(env: Env, path: Path, q: Program, fuel: nat, op: CmpOp, shape: Shape,
                     x: Expr, y: Expr, x': Expr, y': Expr, st': State, rx': ERes)
    requires env.lang == q.lang && rx' == EvalExpr(q, fuel, x', st') && !rx'.out.Val? && !IsConst(env.lang, x)
    requires IsConst(env.lang, y) ==> y' == y
    ensures EvalExpr(q, fuel, Compare(env, path, op, shape, x, y, x', y', IsConst(env.lang, x)), st') == rx'
  {
    hide EvalExpr, Probe, Flags;
    match SiteOf(env, path, op, shape, x, y, false)
    case None => StepBinary(q, fuel, Cmp(op), x', y', st');
    case Some(site) =>
      if IsConst(env.lang, y) {
        ProbeFirst(q, fuel, op, x', y, ConstVal(q.lang, y).value, site, st', rx');
      } else {
        ProbeBoth(q, fuel, op, x', y', site, st', rx', rx');
      }
      EqualsTrue(q, fuel, Probe(op, x', y', false, IsConst(env.lang, y), site), st', rx');
  }

  lemma {:induction false} SimCall(env: Env, path: Path, top: Env, p: Program, fuel: nat, e: Expr, st: State,
                                   st': State)
    requires Ready(env, top, p) && PlainExpr(e) && Sim(st, st') && e.Call?
    ensures Agree(EvalExpr(MarkProgram(top, p), fuel, MarkExpr(env, path, e), st),
                  EvalExpr(VisitProgram(top, p), fuel, VisitExpr(env, path, e), st'), st')
    decreases fuel, e, 1
  {
    hide EvalExpr, EvalArgs, ExecList, KeptSame, MarkExprs, VisitExprs, MarkList, VisitList, Sim, CallExtern,
         FinishCall,
         PlainProgram;
    var m, q := MarkProgram(top, p), VisitProgram(top, p);
    var margs, args' := MarkExprs(env, path + [0], e.args), VisitExprs(env, path + [0], e.args);
    StepCall(m, fuel, e.fun, margs, st);
    StepCall(q, fuel, e.fun, args', st');
    SimArgs(env, path + [0], top, p, fuel, e.args, st, st');
    var ra, ra' := EvalArgs(m, fuel, margs, st), EvalArgs(q, fuel, args', st');
    if ra.out.Vals? && e.fun != "panic" {
      if e.fun !in p.funcs {
        SimExtern(p.lang, e.fun, ra.out.vs, ra.st, ra'.st);
      } else if fuel > 0 {
        SimCallee(top, p, fuel, e.fun, ra.out.vs, ra.st, ra'.st);
      }
    }
  }

  lemma SimExtern(lang: Lang, fun: string, vs: seq<Value>, st: State, st': State)
    requires Sim(st, st')
    ensures var r, r' := CallExtern(lang, fun, vs, st), CallExtern(lang, fun, vs, st');
            r.out == r'.out && Sim(r.st, r'.st) && r'.st.vars == st'.vars
  {
  }

  lemma {:induction false} SimCallee(top: Env, p: Program, fuel: nat, fun: string, vs: seq<Value>, st: State,
                                     st': State)
    requires top.lang == p.lang && PlainProgram(p) && Sim(st, st') && fun in p.funcs && fuel > 0
    ensures var m, q := MarkProgram(top, p), VisitProgram(top, p);
            var r := ExecList(m, fuel - 1, m.funcs[fun].body, st.(vars := BindParams(m.funcs[fun].params, vs)));
            var r' := ExecList(q, fuel - 1, q.funcs[fun].body, st'.(vars := BindParams(q.funcs[fun].params, vs)));
            var e, e' := FinishCall(r, st.vars), FinishCall(r', st'.vars);
            e.out == e'.out && Sim(e.st, e'.st) && e'.st.vars == st'.vars
    decreases fuel - 1, p.funcs[fun].body, 3
  {
    hide ExecList, MarkList, VisitList, KeptSame;
    var f := p.funcs[fun];
    assert PlainFunc(f);
    var inner := BindParams(f.params, vs);
    CleanParams(f.params, vs);
    SimList(top, top.root(fun), top, p, fuel - 1, f.body, st.(vars := inner), st'.(vars := inner));
  }

  lemma {:induction false} SimArgs(env: Env, path: Path, top: Env, p: Program, fuel: nat, es: Exprs, st: State,
                                   st': State)
    requires Ready(env, top, p) && PlainExprs(es) && Sim(st, st')
    ensures var r := EvalArgs(MarkProgram(top, p), fuel, MarkExprs(env, path, es), st);
            var r' := EvalArgs(VisitProgram(top, p), fuel, VisitExprs(env, path, es), st');
            r.out == r'.out && Sim(r.st, r'.st) && KeptSame(st'.vars, r'.st.vars)
    decreases fuel, es, 0
  {
    hide EvalExpr, MarkExpr, VisitExpr, PlainExpr, PlainProgram, Sim, MarkProgram, VisitProgram;
    match es
    case ENil => KeptRefl(st'.vars);
    case ECons(e, rest) =>
      hide EvalArgs;
      var m, q := MarkProgram(top, p), VisitProgram(top, p);
      var me, mrest := MarkExpr(env, path + [0], e), MarkExprs(env, path + [1], rest);
      var e', rest' := VisitExpr(env, path + [0], e), VisitExprs(env, path + [1], rest);
      StepArgs(m, fuel, me, mrest, st);
      StepArgs(q, fuel, e', rest', st');
      SimExpr(env, path + [0], top, p, fuel, e, st, st');
      var r, r' := EvalExpr(m, fuel, me, st), EvalExpr(q, fuel, e', st');
      if r.out.Val? {
        SimArgs(env, path + [1], top, p, fuel, rest, r.st, r'.st);
        KeptSameTrans(st'.vars, r'.st.vars, EvalArgs(q, fuel, rest', r'.st).st.vars);
      }
  }

  lemma {:induction false} SimTest(env: Env, path: Path, top: Env, p: Program, fuel: nat, test: OptExpr, st: State,
                                   st': State)
    requires Ready(env, top, p) && PlainTest(test) && Sim(st, st')
    ensures var r := EvalTest(MarkProgram(top, p), fuel, MarkTest(env, path, test), st);
            var r' := EvalTest(VisitProgram(top, p), fuel, VisitTest(env, path, test), st');
            Agree(r, r', st') && Kept(st'.vars, r'.st.vars)
    decreases fuel, test, 0
  {
    hide EvalExpr, MarkExpr, VisitExpr;
    KeptRefl(st'.vars);
    match test
    case NoExpr =>
    case SomeExpr(e) =>
      SimExpr(env, path, top, p, fuel, e, st, st');
      SameKept(st'.vars, EvalExpr(VisitProgram(top, p), fuel, VisitExpr(env, path, e), st').st.vars);
  }

  lemma {:induction false} SameKept(a: Vars, b: Vars)
    requires KeptSame(a, b)
    ensures Kept(a, b)
  {
    SameDepth(a, b);
  }

  // ----- Statements --------------------------------------------------------------------

  predicate Follow(r: SRes, r': SRes, st': State)
  {
    r.out == r'.out && Sim(r.st, r'.st) && Kept(st'.vars, r'.st.vars)
  }

  lemma {:induction false} SimOpt(env: Env, path: Path, top: Env, p: Program, fuel: nat, s: OptStmt, st: State,
                                  st': State)
    requires Ready(env, top, p) && PlainOpt(s) && Sim(st, st')
    ensures Follow(ExecOpt(MarkProgram(top, p), fuel, MarkOpt(env, path, s), st),
                   ExecOpt(VisitProgram(top, p), fuel, VisitOpt(env, path, s), st'), st')
    decreases fuel, s, 0
  {
    hide ExecStmt, MarkStmt, VisitStmt;
    match s
    case NoStmt => KeptRefl(st'.vars);
    case SomeStmt(s) => SimStmt(env, path, top, p, fuel, s, st, st');
  }

  lemma {:induction false} SimList(env: Env, path: Path, top: Env, p: Program, fuel: nat, list: Stmts, st: State,
                                   st': State)
    requires Ready(env, top, p) && PlainList(list) && Sim(st, st')
    ensures Follow(ExecList(MarkProgram(top, p), fuel, MarkList(env, path, list), st),
                   ExecList(VisitProgram(top, p), fuel, VisitList(env, path, list), st'), st')
    decreases fuel, list, 0
  {
    hide ExecStmt, MarkStmt, VisitStmt, PlainStmt, PlainProgram, Sim, MarkProgram, VisitProgram;
    match list
    case SNil => KeptRefl(st'.vars);
    case SCons(s, rest) =>
      hide ExecList;
      var m, q := MarkProgram(top, p), VisitProgram(top, p);
      var ms, mrest := MarkStmt(env, path + [0], s), MarkList(env, path + [1], rest);
      var s', rest' := VisitStmt(env, path + [0], s), VisitList(env, path + [1], rest);
      StepList(m, fuel, ms, mrest, st);
      StepList(q, fuel, s', rest', st');
      SimStmt(env, path + [0], top, p, fuel, s, st, st');
      var r, r' := ExecStmt(m, fuel, ms, st), ExecStmt(q, fuel, s', st');
      if r.out == Normal {
        SimList(env, path + [1], top, p, fuel, rest, r.st, r'.st);
        KeptTrans(st'.vars, r'.st.vars, ExecList(q, fuel, rest', r'.st).st.vars);
      }
  }

  lemma {:induction false} SimScoped(env: Env, path: Path, top: Env, p: Program, fuel: nat, list: Stmts, st: State,
                                     st': State)
    requires Ready(env, top, p) && PlainList(list) && Sim(st, st')
    ensures var r := ExecScoped(MarkProgram(top, p), fuel, MarkList(env, path, list), st);
            var r' := ExecScoped(VisitProgram(top, p), fuel, VisitList(env, path, list), st');
            Follow(r, r', st') && KeptSame(st'.vars, r'.st.vars)
    decreases fuel, list, 1
  {
    hide ExecList, MarkList, VisitList, MarkProgram, VisitProgram, PlainList, PlainProgram, Sim, KeptSame;
    SimList(env, path, top, p, fuel, list, st, st');
    var r := ExecList(MarkProgram(top, p), fuel, MarkList(env, path, list), st);
    var r' := ExecList(VisitProgram(top, p), fuel, VisitList(env, path, list), st');
    SimLeave(st, st', r.st, r'.st);
    KeptLeft(st'.vars, r'.st.vars);
  }

  lemma {:induction false} SimStmt(env: Env, path: Path, top: Env, p: Program, fuel: nat, s: Stmt, st: State,
                                   st': State)
    requires Ready(env, top, p) && PlainStmt(s) && Sim(st, st')
    ensures Follow(ExecStmt(MarkProgram(top, p), fuel, MarkStmt(env, path, s), st),
                   ExecStmt(VisitProgram(top, p), fuel, VisitStmt(env, path, s), st'), st')
    decreases fuel, s, 2
  {
    hide EvalExpr, ExecList, ExecScoped, ExecOpt, ExecLoop, ExecSwitch, MarkExpr, VisitExpr, MarkList, VisitList,
         PlainExpr, PlainProgram, MarkProgram, VisitProgram, KeptSame;
    KeptRefl(st'.vars);
    match s
    case ExprStmt(_) => SimOneExpr(env, path, top, p, fuel, s, st, st');
    case Define(_, _) => SimOneExpr(env, path, top, p, fuel, s, st, st');
    case Assign(_, _) => SimOneExpr(env, path, top, p, fuel, s, st, st');
    case IncCounter(_) =>
    case Return(_) => SimOneExpr(env, path, top, p, fuel, s, st, st');
    case Branch(_) =>
    case Block(body) => SimScoped(env, path + [0], top, p, fuel, body, st, st');
    case If(_, _, _, _) => SimIf(env, path, top, p, fuel, s, st, st');
    case For(_, _, _, _) => SimFor(env, path, top, p, fuel, s, st, st');
    case Switch(_, _, _) =>
      if env.on && s.tag.SomeExpr? {
        SimLowered(env, path, top, p, fuel, s, st, st');
      } else {
        SimSwitchStmt(env, path, top, p, fuel, s, st, st');
      }
  }

  lemma {:induction false} SimOneExpr(env: Env, path: Path, top: Env, p: Program, fuel: nat, s: Stmt, st: State,
                                      st': State)
    requires Ready(env, top, p) && PlainStmt(s) && Sim(st, st') && OneExpr(s)
    ensures Follow(ExecStmt(MarkProgram(top, p), fuel, MarkStmt(env, path, s), st),
                   ExecStmt(VisitProgram(top, p), fuel, VisitStmt(env, path, s), st'), st')
    decreases fuel, s, 1
  {
    hide EvalExpr, ExecStmt, MarkExpr, VisitExpr, PlainProgram, MarkProgram, VisitProgram, PlainExpr;
    var m, q, ms, s' := MarkProgram(top, p), VisitProgram(top, p), MarkStmt(env, path, s), VisitStmt(env, path, s);
    StepOneExpr(m, fuel, ms, st);
    StepOneExpr(q, fuel, s', st');
    SimExpr(env, path + [0], top, p, fuel, s.x, st, st');
    var r, r' := EvalExpr(m, fuel, ms.x, st), EvalExpr(q, fuel, s'.x, st');
    SimConclude(s, ms, s', r, r', st');
  }

  lemma {:induction false} SimConclude(s: Stmt, ms: Stmt, s': Stmt, r: ERes, r': ERes, st': State)
    requires OneExpr(s) && PlainStmt(s) && Agree(r, r', st')
    requires match s
             case ExprStmt(_) => ms.ExprStmt? && s'.ExprStmt?
             case Define(name, _) => ms.Define? && s'.Define? && ms.name == s'.name == name
             case Assign(name, _) => ms.Assign? && s'.Assign? && ms.name == s'.name == name
             case _ => ms.Return? && s'.Return?
    ensures Follow(Conclude(ms, r), Conclude(s', r'), st')
  {
    SameKept(st'.vars, r'.st.vars);
    if r.out.Val? {
      match s
      case Define(name, _) =>
        KeptPush(r'.st.vars, name, r.out.v);
        KeptTrans(st'.vars, r'.st.vars, Push(r'.st.vars, name, r.out.v));
      case Assign(name, _) =>
        SimStore(r.st, r'.st, name, r.out.v);
        KeptTrans(st'.vars, r'.st.vars, Store(r'.st, name, r.out.v).vars);
      case _ =>
    }
  }

  lemma {:induction false} SimIf(env: Env, path: Path, top: Env, p: Program, fuel: nat, s: Stmt, st: State, st': State)
    requires Ready(env, top, p) && PlainStmt(s) && Sim(st, st') && s.If?
    ensures Follow(ExecStmt(MarkProgram(top, p), fuel, MarkStmt(env, path, s), st),
                   ExecStmt(VisitProgram(top, p), fuel, VisitStmt(env, path, s), st'), st')
    decreases fuel, s, 1
  {
    hide ExecStmt, ExecOpt, EvalExpr, ExecScoped, ExecElse, MarkProgram, VisitProgram, PlainProgram, Sim, Kept,
         KeptSame,
         LeaveScope, MarkOpt, MarkExpr, MarkList, MarkElse, VisitOpt, VisitExpr, VisitList, VisitElse;
    var m, q, ms, s' := MarkProgram(top, p), VisitProgram(top, p), MarkStmt(env, path, s), VisitStmt(env, path, s);
    StepIf(m, fuel, ms, st);
    StepIf(q, fuel, s', st');
    SimOpt(env, path + [0], top, p, fuel, s.init, st, st');
    var ri, ri' := ExecOpt(m, fuel, ms.init, st), ExecOpt(q, fuel, s'.init, st');
    if ri.out != Normal {
      SimLeave(st, st', ri.st, ri'.st);
    } else {
      SimExpr(env, path + [1], top, p, fuel, s.cond, ri.st, ri'.st);
      var rc, rc' := EvalExpr(m, fuel, ms.cond, ri.st), EvalExpr(q, fuel, s'.cond, ri'.st);
      SameKept(ri'.st.vars, rc'.st.vars);
      KeptTrans(st'.vars, ri'.st.vars, rc'.st.vars);
      if !rc.out.Val? {
        SimLeave(st, st', rc.st, rc'.st);
      } else if Truth(rc.out.v) {
        SimScoped(env, path + [2], top, p, fuel, s.thn, rc.st, rc'.st);
        var rt, rt' := ExecScoped(m, fuel, ms.thn, rc.st), ExecScoped(q, fuel, s'.thn, rc'.st);
        KeptTrans(st'.vars, rc'.st.vars, rt'.st.vars);
        SimLeave(st, st', rt.st, rt'.st);
      } else {
        SimElse(env, path + [3], top, p, fuel, s.els, rc.st, rc'.st);
        var re, re' := ExecElse(m, fuel, ms.els, rc.st), ExecElse(q, fuel, s'.els, rc'.st);
        KeptTrans(st'.vars, rc'.st.vars, re'.st.vars);
        SimLeave(st, st', re.st, re'.st);
      }
    }
  }

  lemma {:induction false} SimElse(env: Env, path: Path, top: Env, p: Program, fuel: nat, els: Else, st: State,
                                   st': State)
    requires Ready(env, top, p) && PlainElse(els) && Sim(st, st')
    ensures Follow(ExecElse(MarkProgram(top, p), fuel, MarkElse(env, path, els), st),
                   ExecElse(VisitProgram(top, p), fuel, VisitElse(env, path, els), st'), st')
    decreases fuel, els, 0
  {
    hide ExecStmt, ExecScoped, MarkStmt, VisitStmt, MarkList, VisitList;
    match els
    case NoElse => KeptRefl(st'.vars);
    case ElseIf(s) => SimStmt(env, path + [0], top, p, fuel, s, st, st');
    case ElseBlock(b) => SimScoped(env, path + [0], top, p, fuel, b, st, st');
  }

  lemma {:induction false} SimFor(env: Env, path: Path, top: Env, p: Program, fuel: nat, s: Stmt, st: State, st': State)
    requires Ready(env, top, p) && PlainStmt(s) && Sim(st, st') && s.For?
    ensures Follow(ExecStmt(MarkProgram(top, p), fuel, MarkStmt(env, path, s), st),
                   ExecStmt(VisitProgram(top, p), fuel, VisitStmt(env, path, s), st'), st')
    decreases fuel, s, 1
  {
    hide ExecStmt, ExecOpt, ExecLoop, MarkProgram, VisitProgram, PlainProgram, Sim, Kept, LeaveScope, MarkOpt, VisitOpt,
         MarkTest, VisitTest, MarkList, VisitList;
    var m, q, ms, s' := MarkProgram(top, p), VisitProgram(top, p), MarkStmt(env, path, s), VisitStmt(env, path, s);
    StepFor(m, fuel, ms, st);
    StepFor(q, fuel, s', st');
    SimOpt(env, path + [0], top, p, fuel, s.init, st, st');
    var ri, ri' := ExecOpt(m, fuel, ms.init, st), ExecOpt(q, fuel, s'.init, st');
    if ri.out != Normal {
      SimLeave(st, st', ri.st, ri'.st);
    } else {
      SimLoop(env, path, top, p, fuel, s, ri.st, ri'.st);
      var rl, rl' := ExecLoop(m, fuel, ms, ri.st), ExecLoop(q, fuel, s', ri'.st);
      KeptTrans(st'.vars, ri'.st.vars, rl'.st.vars);
      SimLeave(st, st', rl.st, rl'.st);
    }
  }

  lemma {:induction false} SimLoop(env: Env, path: Path, top: Env, p: Program, fuel: nat, s: Stmt, st: State,
                                   st': State)
    requires Ready(env, top, p) && PlainStmt(s) && Sim(st, st') && s.For?
    ensures Follow(ExecLoop(MarkProgram(top, p), fuel, MarkStmt(env, path, s), st),
                   ExecLoop(VisitProgram(top, p), fuel, VisitStmt(env, path, s), st'), st')
    decreases fuel, s, 0
  {
    hide ExecLoop, EvalTest, ExecScoped, ExecOpt, PlainProgram, VisitList, VisitOpt, VisitTest, MarkList, MarkOpt,
         MarkTest, Boring, PlainTest, PlainOpt, PlainList, MarkProgram, VisitProgram, Sim, Kept, KeptSame;
    var m, q, ms, s' := MarkProgram(top, p), VisitProgram(top, p), MarkStmt(env, path, s), VisitStmt(env, path, s);
    StepLoop(m, fuel, ms, st);
    StepLoop(q, fuel, s', st');
    SimTest(TestEnv(env, s.init, s.test), path + [1], top, p, fuel, s.test, st, st');
    var rc, rc' := EvalTest(m, fuel, ms.test, st), EvalTest(q, fuel, s'.test, st');
    if rc.out.Val? && Truth(rc.out.v) {
      SimScoped(env, path + [3], top, p, fuel, s.body, rc.st, rc'.st);
      var rb, rb' := ExecScoped(m, fuel, ms.body, rc.st), ExecScoped(q, fuel, s'.body, rc'.st);
      KeptTrans(st'.vars, rc'.st.vars, rb'.st.vars);
      if rb.out == Normal || rb.out == Continued {
        SimOpt(env, path + [2], top, p, fuel, s.post, rb.st, rb'.st);
        var rp, rp' := ExecOpt(m, fuel, ms.post, rb.st), ExecOpt(q, fuel, s'.post, rb'.st);
        KeptTrans(st'.vars, rb'.st.vars, rp'.st.vars);
        if rp.out == Normal && fuel > 0 {
          SimLoop(env, path, top, p, fuel - 1, s, rp.st, rp'.st);
          KeptTrans(st'.vars, rp'.st.vars, ExecLoop(q, fuel - 1, s', rp'.st).st.vars);
        }
      }
    }
  }

  lemma {:induction false} SimSwitchStmt(env: Env, path: Path, top: Env, p: Program, fuel: nat, s: Stmt, st: State,
                                         st': State)
    requires Ready(env, top, p) && PlainStmt(s) && Sim(st, st') && s.Switch?
    requires !env.on || s.tag.NoExpr?
    ensures Follow(ExecStmt(MarkProgram(top, p), fuel, MarkStmt(env, path, s), st),
                   ExecStmt(VisitProgram(top, p), fuel, VisitStmt(env, path, s), st'), st')
    decreases fuel, s, 1
  {
    hide ExecStmt, ExecOpt, EvalTest, ExecSwitch, MarkProgram, VisitProgram, PlainProgram, Sim, Kept, KeptSame,
         LeaveScope,
         MarkOpt, VisitOpt, MarkTest, VisitTest, MarkClauses, VisitClauses, Simple, Lowered;
    var m, q, ms, s' := MarkProgram(top, p), VisitProgram(top, p), MarkStmt(env, path, s), VisitStmt(env, path, s);
    StepSwitch(m, fuel, ms, st);
    StepSwitch(q, fuel, s', st');
    SimOpt(env, path + [0], top, p, fuel, s.init, st, st');
    var ri, ri' := ExecOpt(m, fuel, ms.init, st), ExecOpt(q, fuel, s'.init, st');
    if ri.out != Normal {
      SimLeave(st, st', ri.st, ri'.st);
    } else {
      SimTest(env, path + [1], top, p, fuel, s.tag, ri.st, ri'.st);
      var rt, rt' := EvalTest(m, fuel, ms.tag, ri.st), EvalTest(q, fuel, s'.tag, ri'.st);
      KeptTrans(st'.vars, ri'.st.vars, rt'.st.vars);
      if !rt.out.Val? {
        SimLeave(st, st', rt.st, rt'.st);
      } else {
        SimSwitch(env, path + [2], top, p, fuel, s.clauses, NoExpr, rt.out.v, rt.out.v, rt.st, rt'.st);
        var rs, rs' := ExecSwitch(m, fuel, ms.clauses, rt.out.v, rt.st),
          ExecSwitch(q, fuel, s'.clauses, rt.out.v, rt'.st);
        SameKept(rt'.st.vars, rs'.st.vars);
        KeptTrans(st'.vars, rt'.st.vars, rs'.st.vars);
        SimLeave(st, st', rs.st, rs'.st);
      }
    }
  }

  // ----- Switches ----------------------------------------------------------------------

  /** What the clauses are selected by: the tag itself, or true with the tag in the temporary. */
  predicate TagOk(low: OptExpr, v: Value, v': Value, st': State)
  {
    if low.NoExpr? then v == v'
    else v' == BoolV(true) && Declared(st'.vars, Tmp()) && Lookup(st'.vars, st'.globals, Tmp()) == v
  }

  lemma TagKept(low: OptExpr, v: Value, v': Value, a: State, b: State)
    requires TagOk(low, v, v', a) && KeptSame(a.vars, b.vars)
    ensures TagOk(low, v, v', b)
  {
    if low.SomeExpr? {
      KeptLookup(a.vars, b.vars, a.globals, b.globals, Tmp());
    }
  }

  lemma {:induction false} SimSwitch(env: Env, path: Path, top: Env, p: Program, fuel: nat, clauses: Clauses,
                                     low: OptExpr, v: Value, v': Value, st: State, st': State)
    requires Ready(env, top, p) && PlainClauses(clauses) && Sim(st, st') && TagOk(low, v, v', st')
    ensures var r := ExecSwitch(MarkProgram(top, p), fuel, MarkClauses(env, path, clauses, low), v, st);
            var r' := ExecSwitch(VisitProgram(top, p), fuel, VisitClauses(env, path, clauses, low), v', st');
            r.out == r'.out && Sim(r.st, r'.st) && KeptSame(st'.vars, r'.st.vars)
    decreases fuel, clauses, 2
  {
    hide ExecSwitch, RunFrom, MatchClause, MarkProgram, VisitProgram, PlainProgram, PlainClauses, Sim, KeptSame, TagOk;
    var m, q := MarkProgram(top, p), VisitProgram(top, p);
    var mc, clauses' := MarkClauses(env, path, clauses, low), VisitClauses(env, path, clauses, low);
    StepSelect(m, fuel, mc, v, st);
    StepSelect(q, fuel, clauses', v', st');
    SimMatch(env, path, top, p, fuel, clauses, low, v, v', st, st');
    var r, r' := MatchClause(m, fuel, mc, v, st), MatchClause(q, fuel, clauses', v', st');
    SameDefault(env, path, clauses, low);
    hide MarkClauses, VisitClauses;
    var d := DefaultIndex(clauses);
    if r.out.Hit? || (r.out.Miss? && d.Some?) {
      var k := if r.out.Hit? then r.out.k else d.value;
      SimRun(env, path, top, p, fuel, clauses, low, k, r.st, r'.st);
      KeptSameTrans(st'.vars, r'.st.vars, RunFrom(q, fuel, clauses', k, r'.st).st.vars);
    }
  }

  lemma {:induction false} SameDefault(env: Env, path: Path, clauses: Clauses, low: OptExpr)
    ensures DefaultIndex(VisitClauses(env, path, clauses, low)) == DefaultIndex(clauses)
            == DefaultIndex(MarkClauses(env, path, clauses, low))
    decreases clauses
  {
    if clauses.CCons? {
      SameDefault(env, path + [2], clauses.tail, low);
    }
  }

  lemma {:induction false} SimMatch(env: Env, path: Path, top: Env, p: Program, fuel: nat, clauses: Clauses,
                                    low: OptExpr, v: Value, v': Value, st: State, st': State)
    requires Ready(env, top, p) && PlainClauses(clauses) && Sim(st, st') && TagOk(low, v, v', st')
    ensures var r := MatchClause(MarkProgram(top, p), fuel, MarkClauses(env, path, clauses, low), v, st);
            var r' := MatchClause(VisitProgram(top, p), fuel, VisitClauses(env, path, clauses, low), v', st');
            r.out == r'.out && Sim(r.st, r'.st) && KeptSame(st'.vars, r'.st.vars)
    decreases fuel, clauses, 1
  {
    hide MatchExprs, MarkCases, VisitCases, MarkList, VisitList, PlainProgram, PlainList, PlainExprs, Sim, TagOk,
         MarkProgram, VisitProgram;
    match clauses
    case CNil => KeptRefl(st'.vars);
    case CCons(c, rest) => SimClause(env, path, top, p, fuel, c, rest, low, v, v', st, st');
  }

  lemma {:induction false} SimClause(env: Env, path: Path, top: Env, p: Program, fuel: nat, c: Clause, rest: Clauses,
                                     low: OptExpr, v: Value, v': Value, st: State, st': State)
    requires Ready(env, top, p) && PlainClauses(CCons(c, rest)) && Sim(st, st') && TagOk(low, v, v', st')
    ensures var clauses := CCons(c, rest);
            var r := MatchClause(MarkProgram(top, p), fuel, MarkClauses(env, path, clauses, low), v, st);
            var r' := MatchClause(VisitProgram(top, p), fuel, VisitClauses(env, path, clauses, low), v', st');
            r.out == r'.out && Sim(r.st, r'.st) && KeptSame(st'.vars, r'.st.vars)
    decreases fuel, CCons(c, rest), 0
  {
    hide MatchClause, MatchExprs, MarkCases, VisitCases, MarkList, VisitList, PlainProgram, PlainList, PlainExprs, Sim,
         TagOk, MarkProgram, VisitProgram, KeptSame;
    KeptRefl(st'.vars);
    var m, q := MarkProgram(top, p), VisitProgram(top, p);
    var mc := Clause(c.isDefault, MarkCases(env, path + [0], c.exprs, low), MarkList(env, path + [1], c.body));
    var c' := Clause(c.isDefault, VisitCases(env, path + [0], c.exprs, low), VisitList(env, path + [1], c.body));
    var mrest, rest' := MarkClauses(env, path + [2], rest, low), VisitClauses(env, path + [2], rest, low);
    assert MarkClauses(env, path, CCons(c, rest), low) == CCons(mc, mrest);
    assert VisitClauses(env, path, CCons(c, rest), low) == CCons(c', rest');
    hide MarkClauses, VisitClauses;
    StepClause(m, fuel, mc, mrest, v, st);
    StepClause(q, fuel, c', rest', v', st');
    if !c.isDefault {
      SimCases(env, path + [0], top, p, fuel, c.exprs, low, v, v', st, st');
    }
    var r := if c.isDefault then MRes(Miss, st) else MatchExprs(m, fuel, mc.exprs, v, st);
    var r' := if c.isDefault then MRes(Miss, st') else MatchExprs(q, fuel, c'.exprs, v', st');
    if r.out.Miss? {
      TagKept(low, v, v', st', r'.st);
      SimMatch(env, path + [2], top, p, fuel, rest, low, v, v', r.st, r'.st);
      KeptSameTrans(st'.vars, r'.st.vars, MatchClause(q, fuel, rest', v', r'.st).st.vars);
    }
  }

  lemma {:induction false} SimCases(env: Env, path: Path, top: Env, p: Program, fuel: nat, es: Exprs, low: OptExpr,
                                    v: Value, v': Value, st: State, st': State)
    requires Ready(env, top, p) && PlainExprs(es) && Sim(st, st') && TagOk(low, v, v', st')
    ensures var r := MatchExprs(MarkProgram(top, p), fuel, MarkCases(env, path, es, low), v, st);
            var r' := MatchExprs(VisitProgram(top, p), fuel, VisitCases(env, path, es, low), v', st');
            r.out == r'.out && Sim(r.st, r'.st) && KeptSame(st'.vars, r'.st.vars)
    decreases fuel, es, 0
  {
    hide OneCase, MarkCase, CaseExpr, PlainProgram, PlainExpr, Sim, TagOk, MarkProgram, VisitProgram;
    KeptRefl(st'.vars);
    match es
    case ENil =>
    case ECons(e, rest) =>
      hide MatchExprs;
      var m, q := MarkProgram(top, p), VisitProgram(top, p);
      var me, mrest := MarkCase(env, path, e, low), MarkCases(env, path + [0], rest, low);
      var e', rest' := CaseExpr(env, path, e, low), VisitCases(env, path + [0], rest, low);
      StepCase(m, fuel, me, mrest, v, st);
      StepCase(q, fuel, e', rest', v', st');
      SimCase(env, path, top, p, fuel, e, low, v, v', st, st');
      var r, r' := OneCase(m, fuel, me, v, st), OneCase(q, fuel, e', v', st');
      if r.out.Val? && !Truth(r.out.v) {
        TagKept(low, v, v', st', r'.st);
        SimCases(env, path + [0], top, p, fuel, rest, low, v, v', r.st, r'.st);
        KeptSameTrans(st'.vars, r'.st.vars, MatchExprs(q, fuel, rest', v', r'.st).st.vars);
      }
  }

  /**
    One case expression: either it is matched against the tag as before, or its comparison with
    the temporary, reported as marked, against true.
  */
  lemma {:induction false} SimCase(env: Env, path: Path, top: Env, p: Program, fuel: nat, e: Expr, low: OptExpr,
                                   v: Value, v': Value, st: State, st': State)
    requires Ready(env, top, p) && PlainExpr(e) && Sim(st, st') && TagOk(low, v, v', st')
    ensures Agree(OneCase(MarkProgram(top, p), fuel, MarkCase(env, path, e, low), v, st),
                  OneCase(VisitProgram(top, p), fuel, CaseExpr(env, path, e, low), v', st'), st')
    decreases fuel, e, 6
  {
    if low.NoExpr? {
      SimCaseAlone(env, path, top, p, fuel, e, v, st, st');
    } else {
      SimCaseLowered(env, path, top, p, fuel, e, low, v, st, st');
    }
  }

  lemma {:induction false} SimCaseAlone(env: Env, path: Path, top: Env, p: Program, fuel: nat, e: Expr, v: Value,
                                        st: State, st': State)
    requires Ready(env, top, p) && PlainExpr(e) && Sim(st, st')
    ensures Agree(OneCase(MarkProgram(top, p), fuel, MarkCase(env, path, e, NoExpr), v, st),
                  OneCase(VisitProgram(top, p), fuel, CaseExpr(env, path, e, NoExpr), v, st'), st')
    decreases fuel, e, 5
  {
    hide EvalExpr, PlainProgram, MarkProgram, VisitProgram, Sim, KeptSame, FinishOp;
    var m, q := MarkProgram(top, p), VisitProgram(top, p);
    SameLang(top, p);
    SimExpr(env, path + [1], top, p, fuel, e, st, st');
    var r := EvalExpr(m, fuel, MarkExpr(env, path + [1], e), st);
    var r' := EvalExpr(q, fuel, VisitExpr(env, path + [1], e), st');
    NeverCase(env, path + [1], e);
    if r.out.Val? {
      FinishSplit(p.lang, Cmp(Eql), v, r.out.v, r.st, r'.st);
    }
  }

  lemma {:induction false} SimCaseLowered(env: Env, path: Path, top: Env, p: Program, fuel: nat, e: Expr, low: OptExpr,
                                          v: Value, st: State, st': State)
    requires Ready(env, top, p) && PlainExpr(e) && Sim(st, st') && low.SomeExpr? && TagOk(low, v, BoolV(true), st')
    ensures Agree(OneCase(MarkProgram(top, p), fuel, MarkCase(env, path, e, low), v, st),
                  OneCase(VisitProgram(top, p), fuel, CaseExpr(env, path, e, low), BoolV(true), st'), st')
    decreases fuel, e, 5
  {
    hide EvalExpr, PlainProgram, MarkProgram, VisitProgram, Sim, KeptSame, Compare, SiteOf, VisitExpr, MarkExpr,
         PlainExpr, Stable, FinishMarked;
    var m, q := MarkProgram(top, p), VisitProgram(top, p);
    SameLang(top, p);
    var const1, shape := IsConst(env.lang, low.e), ShapeOf(Ident(Tmp()), e);
    ReadsTag(q, fuel, low, v, st, st', const1);
    var rx' := EvalExpr(q, fuel, Ident(Tmp()), st');
    SimCompare(env, path, top, p, fuel, Eql, shape, low.e, e, Ident(Tmp()), const1, v, st, st', rx');
    var my := MarkExpr(env, path + [1], e);
    MarkedCase(env, path, m, fuel, e, low, v, st);
    var site := SiteOf(env, path, Eql, shape, low.e, e, const1);
    CaseBool(m, fuel, my, site, v, st);
    var e' := Compare(env, path, Eql, shape, low.e, e, Ident(Tmp()), VisitExpr(env, path + [1], e), const1);
    OneTrue(q, fuel, env, path, shape, low.e, e, VisitExpr(env, path + [1], e), const1, st');
  }

  /** Reading the temporary gives the tag. */
  lemma {:induction false} ReadsTag(q: Program, fuel: nat, low: OptExpr, v: Value, st: State, st': State, const1: bool)
    requires Sim(st, st') && low.SomeExpr? && TagOk(low, v, BoolV(true), st')
    ensures FirstDone(q, fuel, Ident(Tmp()), const1, v, st, st', EvalExpr(q, fuel, Ident(Tmp()), st'))
  {
    KeptRefl(st'.vars);
    assert EvalExpr(q, fuel, Ident(Tmp()), st') == ERes(Val(v), st');
  }

  lemma CaseBool(m: Program, fuel: nat, my: Expr, site: Option<nat>, v: Value, st: State)
    ensures var r := SecondHalf(m, fuel, my, site, Eql, v, st); r.out.Val? ==> r.out.v.BoolV?
  {
    hide EvalExpr;
  }

  /** Matching a comparison against true gives the comparison. */
  lemma {:induction false} OneTrue(q: Program, fuel: nat, env: Env, path: Path, shape: Shape, x: Expr, y: Expr,
                                   y': Expr, const1: bool,
                st': State)
    ensures var e' := Compare(env, path, Eql, shape, x, y, Ident(Tmp()), y', const1);
            var r' := EvalExpr(q, fuel, e', st');
            (r'.out.Val? ==> r'.out.v.BoolV?) ==> OneCase(q, fuel, e', BoolV(true), st') == r'
  {
    hide EvalExpr, SiteOf, Probe;
  }

  lemma {:induction false} SimRun(env: Env, path: Path, top: Env, p: Program, fuel: nat, clauses: Clauses, low: OptExpr,
                                  k: nat, st: State, st': State)
    requires Ready(env, top, p) && PlainClauses(clauses) && Sim(st, st')
    ensures var r := RunFrom(MarkProgram(top, p), fuel, MarkClauses(env, path, clauses, low), k, st);
            var r' := RunFrom(VisitProgram(top, p), fuel, VisitClauses(env, path, clauses, low), k, st');
            r.out == r'.out && Sim(r.st, r'.st) && KeptSame(st'.vars, r'.st.vars)
    decreases fuel, clauses, 0
  {
    hide ExecScoped, MarkCases, VisitCases, MarkList, VisitList, PlainProgram, PlainList, PlainExprs, Sim, MarkProgram,
         VisitProgram;
    KeptRefl(st'.vars);
    match clauses
    case CNil =>
    case CCons(c, rest) =>
      hide RunFrom;
      var m, q := MarkProgram(top, p), VisitProgram(top, p);
      var mc := Clause(c.isDefault, MarkCases(env, path + [0], c.exprs, low), MarkList(env, path + [1], c.body));
      var c' := Clause(c.isDefault, VisitCases(env, path + [0], c.exprs, low), VisitList(env, path + [1], c.body));
      var mrest, rest' := MarkClauses(env, path + [2], rest, low), VisitClauses(env, path + [2], rest, low);
      StepRun(m, fuel, mc, mrest, k, st);
      StepRun(q, fuel, c', rest', k, st');
      if k > 0 {
        SimRun(env, path + [2], top, p, fuel, rest, low, k - 1, st, st');
      } else {
        SimScoped(env, path + [1], top, p, fuel, c.body, st, st');
        var r, r' := ExecScoped(m, fuel, mc.body, st), ExecScoped(q, fuel, c'.body, st');
        if r.out == Fell {
          SimRun(env, path + [2], top, p, fuel, rest, low, 0, r.st, r'.st);
          KeptSameTrans(st'.vars, r'.st.vars, RunFrom(q, fuel, rest', 0, r'.st).st.vars);
        }
      }
  }

  // ----- Switch lowering ---------------------------------------------------------------

  /** Running the lowered switch is running the statements of its only clause in a scope of their own. */
  lemma {:induction false} LoweredRuns(q: Program, fuel: nat, init: OptStmt, tag: Expr, clauses: Clauses, st: State)
    ensures var r := ExecStmt(q, fuel, Lowered(init, tag, clauses), st);
            var b := ExecList(q, fuel, LoweredBody(init, tag, clauses), st);
            && r.st == LeaveScope(b.st, Depth(st.vars))
            && r.out == if b.out == Fell || b.out == Broke then Normal else b.out
  {
    var body := LoweredBody(init, tag, clauses);
    var c := Clause(true, ENil, body);
    var cs := CCons(c, CNil);
    assert MatchClause(q, fuel, CNil, BoolV(true), st) == MRes(Miss, st);
    var b := ExecScoped(q, fuel, body, st);
    assert RunFrom(q, fuel, CNil, 0, b.st) == SRes(Normal, b.st);
    assert EvalTest(q, fuel, NoExpr, st) == ERes(Val(BoolV(true)), st);
    assert ExecOpt(q, fuel, NoStmt, st) == SRes(Normal, st);
    assert DefaultIndex(cs) == Some(0);
    StepClause(q, fuel, c, CNil, BoolV(true), st);
    StepRun(q, fuel, c, CNil, 0, st);
    StepSelect(q, fuel, cs, BoolV(true), st);
    StepSwitch(q, fuel, Lowered(init, tag, clauses), st);
    TruncateId(b.st.vars);
    hide ExecList, ExecStmt, EvalExpr, LoweredBody;
  }

  /** The statements of the lowered switch: init, the tag stored in the temporary, and the tagless switch. */
  lemma {:induction false} LoweredSteps(q: Program, fuel: nat, init: OptStmt, tag: Expr, clauses: Clauses, st: State,
                                        ri: SRes, rt: ERes)
    requires ri == ExecOpt(q, fuel, init, st)
    requires ri.out == Normal ==> rt == EvalExpr(q, fuel, tag, ri.st)
    ensures var r := ExecList(q, fuel, LoweredBody(init, tag, clauses), st);
            if ri.out != Normal then r == ri
            else if !rt.out.Val? then r == SRes(AbruptEnd(rt.out), rt.st)
            else r == ExecSwitch(q, fuel, clauses, BoolV(true), Declare(rt.st, Tmp(), rt.out.v))
  {
    hide EvalExpr, ExecSwitch, ExecStmt, ExecList;
    var sw := Switch(NoStmt, NoExpr, clauses);
    var drop := SCons(Assign("_", Ident(Tmp())), SCons(sw, SNil));
    var rest := SCons(Define(Tmp(), tag), drop);
    if init.SomeStmt? {
      StepList(q, fuel, init.s, rest, st);
    }
    if ri.out == Normal {
      DefineFirst(q, fuel, Tmp(), tag, drop, ri.st);
      if rt.out.Val? {
        var st1 := Declare(rt.st, Tmp(), rt.out.v);
        DropTmp(q, fuel, SCons(sw, SNil), st1);
        PlainSwitch(q, fuel, clauses, st1);
      }
    }
  }

  lemma {:induction false} PlainSwitch(q: Program, fuel: nat, clauses: Clauses, st: State)
    ensures ExecList(q, fuel, SCons(Switch(NoStmt, NoExpr, clauses), SNil), st)
            == ExecSwitch(q, fuel, clauses, BoolV(true), st)
  {
    var sw := Switch(NoStmt, NoExpr, clauses);
    var rs := ExecSwitch(q, fuel, clauses, BoolV(true), st);
    TruncateId(rs.st.vars);
    assert EvalTest(q, fuel, NoExpr, st) == ERes(Val(BoolV(true)), st);
    assert ExecOpt(q, fuel, NoStmt, st) == SRes(Normal, st);
    StepSwitch(q, fuel, sw, st);
    StepList(q, fuel, sw, SNil, st);
    assert ExecList(q, fuel, SNil, rs.st) == SRes(Normal, rs.st);
    hide ExecSwitch, ExecStmt, ExecList;
  }

  lemma {:induction false} DropTmp(q: Program, fuel: nat, rest: Stmts, st: State)
    ensures ExecList(q, fuel, SCons(Assign("_", Ident(Tmp())), rest), st) == ExecList(q, fuel, rest, st)
  {
    assert EvalExpr(q, fuel, Ident(Tmp()), st) == ERes(Val(Lookup(st.vars, st.globals, Tmp())), st);
    StepOneExpr(q, fuel, Assign("_", Ident(Tmp())), st);
    StepList(q, fuel, Assign("_", Ident(Tmp())), rest, st);
    hide ExecStmt, ExecList, EvalExpr;
  }

  lemma SimPush(st: State, st': State, v: Value)
    requires Sim(st, st')
    ensures Sim(st, Declare(st', Tmp(), v)) && Kept(st'.vars, Declare(st', Tmp(), v).vars)
    ensures forall low: OptExpr :: low.SomeExpr? ==> TagOk(low, v, BoolV(true), Declare(st', Tmp(), v))
  {
    KeptPush(st'.vars, Tmp(), v);
  }

  lemma {:induction false} SimLowered(env: Env, path: Path, top: Env, p: Program, fuel: nat, s: Stmt, st: State,
                                      st': State)
    requires Ready(env, top, p) && PlainStmt(s) && Sim(st, st') && s.Switch?
    requires env.on && s.tag.SomeExpr?
    ensures Follow(ExecStmt(MarkProgram(top, p), fuel, MarkStmt(env, path, s), st),
                   ExecStmt(VisitProgram(top, p), fuel, VisitStmt(env, path, s), st'), st')
    decreases fuel, s, 1
  {
    hide ExecStmt, ExecList, ExecOpt, EvalExpr, ExecSwitch, LoweredBody, Lowered, MarkClauses, VisitClauses, PlainExpr,
         PlainClauses, PlainProgram, Sim, KeptSame, Kept, VisitExpr, VisitOpt, MarkExpr, MarkOpt, MarkProgram,
         VisitProgram, LeaveScope, TagOk, Simple;
    var m, q, ms := MarkProgram(top, p), VisitProgram(top, p), MarkStmt(env, path, s);
    var init', tag' := VisitOpt(env, path + [0], s.init), VisitExpr(env, path + [1], s.tag.e);
    var clauses' := VisitClauses(env, path + [2], s.clauses, s.tag);
    StepSwitch(m, fuel, ms, st);
    SimOpt(env, path + [0], top, p, fuel, s.init, st, st');
    var ri, ri' := ExecOpt(m, fuel, ms.init, st), ExecOpt(q, fuel, init', st');
    SimpleOutcome(env, path + [0], m, fuel, s.init, st);
    var mt := MarkExpr(env, path + [1], s.tag.e);
    var rt', rt := EvalExpr(q, fuel, tag', ri'.st), EvalExpr(m, fuel, mt, ri.st);
    TestIs(m, fuel, mt, ri.st);
    LoweredRuns(q, fuel, init', tag', clauses', st');
    LoweredSteps(q, fuel, init', tag', clauses', st', ri', rt');
    if ri.out != Normal {
      SimLeave(st, st', ri.st, ri'.st);
    } else {
      SimExpr(env, path + [1], top, p, fuel, s.tag.e, ri.st, ri'.st);
      SameKept(ri'.st.vars, rt'.st.vars);
      KeptTrans(st'.vars, ri'.st.vars, rt'.st.vars);
      if !rt.out.Val? {
        SimLeave(st, st', rt.st, rt'.st);
      } else {
        var st1 := Declare(rt'.st, Tmp(), rt.out.v);
        SimPush(rt.st, rt'.st, rt.out.v);
        SimSwitch(env, path + [2], top, p, fuel, s.clauses, s.tag, rt.out.v, BoolV(true), rt.st, st1);
        var rs, rs' := ExecSwitch(m, fuel, ms.clauses, rt.out.v, rt.st),
          ExecSwitch(q, fuel, clauses', BoolV(true), st1);
        SwitchOutcome(m, fuel, ms.clauses, rt.out.v, rt.st);
        SameKept(st1.vars, rs'.st.vars);
        KeptTrans(st'.vars, rt'.st.vars, st1.vars);
        KeptTrans(st'.vars, st1.vars, rs'.st.vars);
        SimLeave(st, st', rs.st, rs'.st);
      }
    }
  }

  lemma {:induction false} TestIs(m: Program, fuel: nat, e: Expr, st: State)
    ensures EvalTest(m, fuel, SomeExpr(e), st) == EvalExpr(m, fuel, e, st)
  {
  }

  /** A switch catches break and fallthrough. */
  lemma {:induction false} RunOutcome(p: Program, fuel: nat, clauses: Clauses, k: nat, st: State)
    ensures var out := RunFrom(p, fuel, clauses, k, st).out; out != Broke && out != Fell
    decreases clauses
  {
    if clauses.CCons? {
      if k > 0 {
        RunOutcome(p, fuel, clauses.tail, k - 1, st);
      } else {
        RunOutcome(p, fuel, clauses.tail, 0, ExecScoped(p, fuel, clauses.head.body, st).st);
      }
    }
  }

  lemma {:induction false} SwitchOutcome(p: Program, fuel: nat, clauses: Clauses, tag: Value, st: State)
    ensures var out := ExecSwitch(p, fuel, clauses, tag, st).out; out != Broke && out != Fell
  {
    hide MatchClause, RunFrom;
    var m := MatchClause(p, fuel, clauses, tag, st);
    var d := DefaultIndex(clauses);
    if m.out.Hit? {
      RunOutcome(p, fuel, clauses, m.out.k, m.st);
    } else if m.out.Miss? && d.Some? {
      RunOutcome(p, fuel, clauses, d.value, m.st);
    }
  }

  lemma {:induction false} SimpleOutcome(env: Env, path: Path, p: Program, fuel: nat, s: OptStmt, st: State)
    requires Simple(s)
    ensures var out := ExecOpt(p, fuel, MarkOpt(env, path, s), st).out; out != Broke && out != Fell
  {
    if s.SomeStmt? {
      var r := ExecStmt(p, fuel, MarkStmt(env, path, s.s), st);
      if OneExpr(s.s) {
        StepOneExpr(p, fuel, MarkStmt(env, path, s.s), st);
      }
      assert r.out != Broke && r.out != Fell;
      assert ExecOpt(p, fuel, MarkOpt(env, path, s), st) == r;
    }
  }

  /**
    What the pass makes of a program that does not use its names: from equal states, a function body
    of the rewritten program ends (or runs out of the same fuel, or faults in a report) with the same
    outcome, variables, globals, calls, counters and reports as that of the marked program.
  */
  lemma {:induction false} SonarReportsMarks(env: Env, p: Program, fuel: nat, name: string, st: State)
    requires env.lang == p.lang && PlainProgram(p) && name in p.funcs && Clean(st.vars) == st.vars
    ensures var m, q := MarkProgram(env, p), VisitProgram(env, p);
            var r, r' := ExecList(m, fuel, m.funcs[name].body, st), ExecList(q, fuel, q.funcs[name].body, st);
            r.out == r'.out && Sim(r.st, r'.st)
  {
    assert PlainFunc(p.funcs[name]);
    SimList(env, env.root(name), env, p, fuel, p.funcs[name].body, st, st);
  }
}
