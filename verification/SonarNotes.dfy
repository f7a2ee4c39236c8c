/**
  The original program and the marked one: as long as no report faults they do the same, and the
  marked program faults exactly if it reports a pair of values on which the reporting function faults.
  With SonarMeaning this gives what the sonar pass does to a program.
*/
module SonarNotes {
  import opened MiniGo
  import opened SonarMarks
  import opened SonarMeaning
  import opened SonarPass
  import opened SonarProbes
  import opened Wrappers

  /** No reported pair makes the reporting function fault. */
  predicate Quiet(lang: Lang, log: seq<SonarRecord>)
  {
    forall k | 0 <= k < |log| :: !lang.faults(log[k].v1, log[k].v2)
  }

  /** Equal states, except for what has been reported. */
  predicate Alike(a: State, b: State)
  {
    a.vars == b.vars && a.globals == b.globals && a.trace == b.trace && a.cover == b.cover
  }

  predicate Start(lang: Lang, st: State, st': State)
  {
    Alike(st, st') && Quiet(lang, st'.sonar)
  }

  /**
    How a piece of the original program and of the marked one end. The original never faults; the
    marked one does exactly if the log is not quiet, and if it is quiet, both end alike.
  */
  predicate Ends(lang: Lang, fault: bool, fault': bool, same: bool, st: State, st': State)
  {
    && !fault
    && (fault' <==> !Quiet(lang, st'.sonar))
    && (Quiet(lang, st'.sonar) ==> same && Alike(st, st'))
  }

  predicate ExprEnds(lang: Lang, r: ERes, r': ERes)
  {
    Ends(lang, r.out.EFault?, r'.out.EFault?, r.out == r'.out, r.st, r'.st)
  }

  predicate StmtEnds(lang: Lang, r: SRes, r': SRes)
  {
    Ends(lang, r.out.Faulted?, r'.out.Faulted?, r.out == r'.out, r.st, r'.st)
  }

  predicate ArgsEnd(lang: Lang, r: ARes, r': ARes)
  {
    Ends(lang, r.out == ArgsFail(EFault), r'.out == ArgsFail(EFault), r.out == r'.out, r.st, r'.st)
  }

  predicate MatchEnds(lang: Lang, r: MRes, r': MRes)
  {
    Ends(lang, r.out == MatchFail(EFault), r'.out == MatchFail(EFault), r.out == r'.out, r.st, r'.st)
  }

  /** Where the marked program goes on; after a fault, where it could have gone on. */
  function Next(lang: Lang, st: State, st': State): (next: State)
    ensures (Quiet(lang, st'.sonar) ==> Alike(st, st')) ==> Start(lang, st, next)
  {
    if Quiet(lang, st'.sonar) then st' else st.(sonar := [])
  }

  // ----- Expressions -------------------------------------------------------------------

  /** The comparison itself: marked, it may report and fault. */
  lemma NoteFinish(lang: Lang, site: Option<nat>, op: CmpOp, a: Value, b: Value, st: State, st': State)
    requires Start(lang, st, st')
    ensures ExprEnds(lang, FinishOp(lang, Cmp(op), a, b, st), FinishMarked(lang, site, op, a, b, st'))
  {
    if site.Some? {
      var log := st'.sonar + [SonarRecord(a, b, site.value)];
      assert log[|st'.sonar|] == SonarRecord(a, b, site.value);
      assert forall k | 0 <= k < |st'.sonar| :: log[k] == st'.sonar[k];
      assert Quiet(lang, log) <==> !lang.faults(a, b);
    }
  }

  lemma NoteOp(lang: Lang, op: BinOp, a: Value, b: Value, st: State, st': State)
    requires Start(lang, st, st')
    ensures ExprEnds(lang, FinishOp(lang, op, a, b, st), FinishOp(lang, op, a, b, st'))
  {
  }

  lemma {:induction false} NoteExpr(env: Env, path: Path, top: Env, p: Program, fuel: nat, e: Expr, st: State,
                                    st': State)
    requires Ready(env, top, p) && PlainExpr(e) && Start(p.lang, st, st')
    ensures ExprEnds(p.lang, EvalExpr(p, fuel, e, st), EvalExpr(MarkProgram(top, p), fuel, MarkExpr(env, path, e), st'))
    decreases fuel, e, 2
  {
    hide ExecList, EvalArgs, MarkList, MarkExprs, MarkCompare, FinishOp, MarkProgram, Ready, PlainProgram, Quiet;
    match e
    case Lit(_) =>
    case Ident(_) =>
    case Binary(op, _, _) =>
      if op.Cmp? {
        NoteCmp(env, path, top, p, fuel, e, st, st');
      } else {
        NoteBinary(env, path, top, p, fuel, e, st, st');
      }
    case Not(x) => NoteExpr(env, path + [0], top, p, fuel, x, st, st');
    case Call(_, _) => NoteCall(env, path, top, p, fuel, e, st, st');
    case FuncLitCall(body) => NoteLiteral(env, path, top, p, fuel, body, st, st');
  }

  lemma {:induction false} NoteBinary(env: Env, path: Path, top: Env, p: Program, fuel: nat, e: Expr, st: State,
                                      st': State)
    requires Ready(env, top, p) && PlainExpr(e) && Start(p.lang, st, st') && e.Binary? && !e.op.Cmp?
    ensures ExprEnds(p.lang, EvalExpr(p, fuel, e, st), EvalExpr(MarkProgram(top, p), fuel, MarkExpr(env, path, e), st'))
    decreases fuel, e, 1
  {
    hide EvalExpr, PlainProgram, MarkProgram, Quiet, FinishOp;
    var m := MarkProgram(top, p);
    SameLang(top, p);
    var mx, my := MarkExpr(env, path + [0], e.x), MarkExpr(env, path + [1], e.y);
    StepBinary(p, fuel, e.op, e.x, e.y, st);
    StepBinary(m, fuel, e.op, mx, my, st');
    NoteExpr(env, path + [0], top, p, fuel, e.x, st, st');
    var rx, rx' := EvalExpr(p, fuel, e.x, st), EvalExpr(m, fuel, mx, st');
    if rx.out.Val? {
      var next := Next(p.lang, rx.st, rx'.st);
      NoteExpr(env, path + [1], top, p, fuel, e.y, rx.st, next);
      var ry, ry' := EvalExpr(p, fuel, e.y, rx.st), EvalExpr(m, fuel, my, next);
      if ry.out.Val? {
        NoteOp(p.lang, e.op, rx.out.v, ry.out.v, ry.st, Next(p.lang, ry.st, ry'.st));
      }
    }
  }

  lemma {:induction false} NoteCmp(env: Env, path: Path, top: Env, p: Program, fuel: nat, e: Expr, st: State,
                                   st': State)
    requires Ready(env, top, p) && PlainExpr(e) && Start(p.lang, st, st') && e.Binary? && e.op.Cmp?
    ensures ExprEnds(p.lang, EvalExpr(p, fuel, e, st), EvalExpr(MarkProgram(top, p), fuel, MarkExpr(env, path, e), st'))
    decreases fuel, e, 1
  {
    hide EvalExpr, PlainProgram, MarkProgram, Quiet, FinishOp, FinishMarked, MarkCompare, SiteOf, IsConst;
    var m := MarkProgram(top, p);
    SameLang(top, p);
    var mx, my := MarkExpr(env, path + [0], e.x), MarkExpr(env, path + [1], e.y);
    var const1, shape, op := IsConst(env.lang, e.x), ShapeOf(e.x, e.y), e.op.cmp;
    StepBinary(p, fuel, e.op, e.x, e.y, st);
    MarkedCompare(m, fuel, env, path, op, shape, e.x, e.y, mx, my, const1, st');
    NoteExpr(env, path + [0], top, p, fuel, e.x, st, st');
    var rx, rx' := EvalExpr(p, fuel, e.x, st), EvalExpr(m, fuel, mx, st');
    if rx.out.Val? {
      var next := Next(p.lang, rx.st, rx'.st);
      NoteExpr(env, path + [1], top, p, fuel, e.y, rx.st, next);
      var ry, ry' := EvalExpr(p, fuel, e.y, rx.st), EvalExpr(m, fuel, my, next);
      if ry.out.Val? {
        var site := SiteOf(env, path, op, shape, e.x, e.y, const1);
        NoteFinish(p.lang, site, op, rx.out.v, ry.out.v, ry.st, Next(p.lang, ry.st, ry'.st));
      }
    }
  }

  lemma {:induction false} NoteLiteral(env: Env, path: Path, top: Env, p: Program, fuel: nat, body: Stmts, st: State,
                                       st': State)
    requires Ready(env, top, p) && PlainList(body) && Start(p.lang, st, st')
    ensures ExprEnds(p.lang, EvalExpr(p, fuel, FuncLitCall(body), st),
                     EvalExpr(MarkProgram(top, p), fuel, FuncLitCall(MarkList(env, path + [0], body)), st'))
    decreases fuel, body, 1
  {
    hide EvalExpr, ExecList, MarkList, MarkProgram, Quiet, PlainProgram, PlainList;
    var m, mb := MarkProgram(top, p), MarkList(env, path + [0], body);
    StepLiteral(p, fuel, body, st);
    StepLiteral(m, fuel, mb, st');
    NoteList(env, path + [0], top, p, fuel, body, st, st');
    NoteReturn(p.lang, ExecList(p, fuel, body, st), ExecList(m, fuel, mb, st'), Depth(st.vars), Depth(st'.vars));
  }

  lemma {:induction false} NoteReturn(lang: Lang, r: SRes, r': SRes, n: nat, n': nat)
    requires StmtEnds(lang, r, r') && n == n'
    ensures ExprEnds(lang, FinishCall(r, Truncate(r.st.vars, n)), FinishCall(r', Truncate(r'.st.vars, n')))
  {
    hide Truncate;
  }

  lemma {:induction false} NoteCall(env: Env, path: Path, top: Env, p: Program, fuel: nat, e: Expr, st: State,
                                    st': State)
    requires Ready(env, top, p) && PlainExpr(e) && Start(p.lang, st, st') && e.Call?
    ensures ExprEnds(p.lang, EvalExpr(p, fuel, e, st), EvalExpr(MarkProgram(top, p), fuel, MarkExpr(env, path, e), st'))
    decreases fuel, e, 1
  {
    hide EvalExpr, EvalArgs, ExecList, MarkExprs, MarkList, CallExtern, FinishCall, PlainProgram, Quiet;
    var m, margs := MarkProgram(top, p), MarkExprs(env, path + [0], e.args);
    StepCall(p, fuel, e.fun, e.args, st);
    StepCall(m, fuel, e.fun, margs, st');
    NoteArgs(env, path + [0], top, p, fuel, e.args, st, st');
    var ra, ra' := EvalArgs(p, fuel, e.args, st), EvalArgs(m, fuel, margs, st');
    if ra.out.Vals? && e.fun != "panic" {
      var next := Next(p.lang, ra.st, ra'.st);
      if e.fun !in p.funcs {
        NoteExtern(p.lang, e.fun, ra.out.vs, ra.st, next);
      } else if fuel > 0 {
        NoteCallee(top, p, fuel, e.fun, ra.out.vs, ra.st, next);
      }
    }
  }

  lemma NoteExtern(lang: Lang, fun: string, vs: seq<Value>, st: State, st': State)
    requires Start(lang, st, st')
    ensures ExprEnds(lang, CallExtern(lang, fun, vs, st), CallExtern(lang, fun, vs, st'))
  {
  }

  lemma {:induction false} NoteCallee(top: Env, p: Program, fuel: nat, fun: string, vs: seq<Value>, st: State,
                                      st': State)
    requires top.lang == p.lang && PlainProgram(p) && Start(p.lang, st, st') && fun in p.funcs && fuel > 0
    ensures var m := MarkProgram(top, p);
            var r := ExecList(p, fuel - 1, p.funcs[fun].body, st.(vars := BindParams(p.funcs[fun].params, vs)));
            var r' := ExecList(m, fuel - 1, m.funcs[fun].body, st'.(vars := BindParams(m.funcs[fun].params, vs)));
            ExprEnds(p.lang, FinishCall(r, st.vars), FinishCall(r', st'.vars))
    decreases fuel - 1, p.funcs[fun].body, 3
  {
    hide ExecList, MarkList, Quiet;
    var f := p.funcs[fun];
    assert PlainFunc(f);
    var inner := BindParams(f.params, vs);
    NoteList(top, top.root(fun), top, p, fuel - 1, f.body, st.(vars := inner), st'.(vars := inner));
  }

  lemma {:induction false} NoteArgs(env: Env, path: Path, top: Env, p: Program, fuel: nat, es: Exprs, st: State,
                                    st': State)
    requires Ready(env, top, p) && PlainExprs(es) && Start(p.lang, st, st')
    ensures ArgsEnd(p.lang, EvalArgs(p, fuel, es, st),
            EvalArgs(MarkProgram(top, p), fuel, MarkExprs(env, path, es), st'))
    decreases fuel, es, 0
  {
    hide EvalExpr, MarkExpr, PlainExpr, PlainProgram, Quiet, MarkProgram;
    match es
    case ENil =>
    case ECons(e, rest) =>
      hide EvalArgs;
      var m := MarkProgram(top, p);
      var me, mrest := MarkExpr(env, path + [0], e), MarkExprs(env, path + [1], rest);
      StepArgs(p, fuel, e, rest, st);
      StepArgs(m, fuel, me, mrest, st');
      NoteExpr(env, path + [0], top, p, fuel, e, st, st');
      var r, r' := EvalExpr(p, fuel, e, st), EvalExpr(m, fuel, me, st');
      if r.out.Val? {
        NoteArgs(env, path + [1], top, p, fuel, rest, r.st, Next(p.lang, r.st, r'.st));
      }
  }

  lemma {:induction false} NoteTest(env: Env, path: Path, top: Env, p: Program, fuel: nat, test: OptExpr, st: State,
                                    st': State)
    requires Ready(env, top, p) && PlainTest(test) && Start(p.lang, st, st')
    ensures ExprEnds(p.lang, EvalTest(p, fuel, test, st),
                     EvalTest(MarkProgram(top, p), fuel, MarkTest(env, path, test), st'))
    decreases fuel, test, 0
  {
    hide EvalExpr, MarkExpr, Quiet;
    match test
    case NoExpr =>
    case SomeExpr(e) => NoteExpr(env, path, top, p, fuel, e, st, st');
  }

  // ----- Statements --------------------------------------------------------------------

  lemma {:induction false} NoteOpt(env: Env, path: Path, top: Env, p: Program, fuel: nat, s: OptStmt, st: State,
                                   st': State)
    requires Ready(env, top, p) && PlainOpt(s) && Start(p.lang, st, st')
    ensures StmtEnds(p.lang, ExecOpt(p, fuel, s, st), ExecOpt(MarkProgram(top, p), fuel, MarkOpt(env, path, s), st'))
    decreases fuel, s, 0
  {
    hide ExecStmt, MarkStmt, Quiet;
    match s
    case NoStmt =>
    case SomeStmt(s) => NoteStmt(env, path, top, p, fuel, s, st, st');
  }

  lemma {:induction false} NoteList(env: Env, path: Path, top: Env, p: Program, fuel: nat, list: Stmts, st: State,
                                    st': State)
    requires Ready(env, top, p) && PlainList(list) && Start(p.lang, st, st')
    ensures StmtEnds(p.lang, ExecList(p, fuel, list, st),
                     ExecList(MarkProgram(top, p), fuel, MarkList(env, path, list), st'))
    decreases fuel, list, 0
  {
    hide ExecStmt, MarkStmt, PlainStmt, PlainProgram, Quiet, MarkProgram;
    match list
    case SNil =>
    case SCons(s, rest) =>
      hide ExecList;
      var m := MarkProgram(top, p);
      var ms, mrest := MarkStmt(env, path + [0], s), MarkList(env, path + [1], rest);
      StepList(p, fuel, s, rest, st);
      StepList(m, fuel, ms, mrest, st');
      NoteStmt(env, path + [0], top, p, fuel, s, st, st');
      var r, r' := ExecStmt(p, fuel, s, st), ExecStmt(m, fuel, ms, st');
      if r.out == Normal {
        NoteList(env, path + [1], top, p, fuel, rest, r.st, Next(p.lang, r.st, r'.st));
      }
  }

  lemma {:induction false} NoteScoped(env: Env, path: Path, top: Env, p: Program, fuel: nat, list: Stmts, st: State,
                                      st': State)
    requires Ready(env, top, p) && PlainList(list) && Start(p.lang, st, st')
    ensures StmtEnds(p.lang, ExecScoped(p, fuel, list, st),
                     ExecScoped(MarkProgram(top, p), fuel, MarkList(env, path, list), st'))
    decreases fuel, list, 1
  {
    hide ExecList, MarkList, Quiet, Truncate, PlainProgram, PlainList, MarkProgram;
    NoteList(env, path, top, p, fuel, list, st, st');
  }

  /** Leaving a scope changes nothing about how a statement ends. */
  lemma NoteLeave(lang: Lang, r: SRes, r': SRes, n: nat)
    requires StmtEnds(lang, r, r')
    ensures StmtEnds(lang, SRes(r.out, LeaveScope(r.st, n)), SRes(r'.out, LeaveScope(r'.st, n)))
  {
    hide Truncate;
  }

  lemma {:induction false} NoteStmt(env: Env, path: Path, top: Env, p: Program, fuel: nat, s: Stmt, st: State,
                                    st': State)
    requires Ready(env, top, p) && PlainStmt(s) && Start(p.lang, st, st')
    ensures StmtEnds(p.lang, ExecStmt(p, fuel, s, st), ExecStmt(MarkProgram(top, p), fuel, MarkStmt(env, path, s), st'))
    decreases fuel, s, 2
  {
    hide EvalExpr, ExecList, ExecScoped, ExecOpt, ExecLoop, ExecSwitch, MarkExpr, MarkList, PlainExpr, PlainProgram,
         MarkProgram, Quiet;
    match s
    case ExprStmt(_) => NoteOneExpr(env, path, top, p, fuel, s, st, st');
    case Define(_, _) => NoteOneExpr(env, path, top, p, fuel, s, st, st');
    case Assign(_, _) => NoteOneExpr(env, path, top, p, fuel, s, st, st');
    case IncCounter(_) =>
    case Return(_) => NoteOneExpr(env, path, top, p, fuel, s, st, st');
    case Branch(_) =>
    case Block(body) => NoteScoped(env, path + [0], top, p, fuel, body, st, st');
    case If(_, _, _, _) => NoteIf(env, path, top, p, fuel, s, st, st');
    case For(_, _, _, _) => NoteFor(env, path, top, p, fuel, s, st, st');
    case Switch(_, _, _) => NoteSwitch(env, path, top, p, fuel, s, st, st');
  }

  lemma {:induction false} NoteOneExpr(env: Env, path: Path, top: Env, p: Program, fuel: nat, s: Stmt, st: State,
                                       st': State)
    requires Ready(env, top, p) && PlainStmt(s) && Start(p.lang, st, st') && OneExpr(s)
    ensures StmtEnds(p.lang, ExecStmt(p, fuel, s, st), ExecStmt(MarkProgram(top, p), fuel, MarkStmt(env, path, s), st'))
    decreases fuel, s, 1
  {
    hide EvalExpr, ExecStmt, MarkExpr, PlainProgram, MarkProgram, PlainExpr, Quiet;
    var m, ms := MarkProgram(top, p), MarkStmt(env, path, s);
    StepOneExpr(p, fuel, s, st);
    StepOneExpr(m, fuel, ms, st');
    NoteExpr(env, path + [0], top, p, fuel, s.x, st, st');
  }

  lemma {:induction false} NoteIf(env: Env, path: Path, top: Env, p: Program, fuel: nat, s: Stmt, st: State, st': State)
    requires Ready(env, top, p) && PlainStmt(s) && Start(p.lang, st, st') && s.If?
    ensures StmtEnds(p.lang, ExecStmt(p, fuel, s, st), ExecStmt(MarkProgram(top, p), fuel, MarkStmt(env, path, s), st'))
    decreases fuel, s, 1
  {
    hide ExecStmt, ExecOpt, EvalExpr, ExecScoped, ExecElse, MarkProgram, PlainProgram, Quiet, LeaveScope, MarkOpt,
         MarkExpr, MarkList, MarkElse;
    var m, ms := MarkProgram(top, p), MarkStmt(env, path, s);
    StepIf(p, fuel, s, st);
    StepIf(m, fuel, ms, st');
    NoteOpt(env, path + [0], top, p, fuel, s.init, st, st');
    var r, r' := ExecOpt(p, fuel, s.init, st), ExecOpt(m, fuel, ms.init, st');
    if r.out == Normal {
      var st1 := Next(p.lang, r.st, r'.st);
      NoteExpr(env, path + [1], top, p, fuel, s.cond, r.st, st1);
      var rc, rc' := EvalExpr(p, fuel, s.cond, r.st), EvalExpr(m, fuel, ms.cond, st1);
      if !rc.out.Val? {
        NoteLeave(p.lang, SRes(AbruptEnd(rc.out), rc.st), Skip(p.lang, r', rc'), Depth(st.vars));
      } else {
        var st2 := Next(p.lang, rc.st, rc'.st);
        if Truth(rc.out.v) {
          NoteScoped(env, path + [2], top, p, fuel, s.thn, rc.st, st2);
          r, r' := ExecScoped(p, fuel, s.thn, rc.st), Pass(p.lang, r', rc', ExecScoped(m, fuel, ms.thn, st2));
        } else {
          NoteElse(env, path + [3], top, p, fuel, s.els, rc.st, st2);
          r, r' := ExecElse(p, fuel, s.els, rc.st), Pass(p.lang, r', rc', ExecElse(m, fuel, ms.els, st2));
        }
        NoteLeave(p.lang, r, r', Depth(st.vars));
      }
    } else {
      NoteLeave(p.lang, r, r', Depth(st.vars));
    }
  }

  /** How the marked program ends if the expression after the statement does not end normally. */
  function Skip(lang: Lang, r: SRes, e: ERes): SRes
    requires !e.out.Val? || !Quiet(lang, r.st.sonar)
  {
    if !Quiet(lang, r.st.sonar) then r else SRes(AbruptEnd(e.out), e.st)
  }

  /** How the marked program ends: in the first part that faults, or as the last one does. */
  function Pass(lang: Lang, r: SRes, e: ERes, last: SRes): SRes
  {
    if !Quiet(lang, r.st.sonar) then r
    else if !Quiet(lang, e.st.sonar) then SRes(Faulted, e.st)
    else last
  }

  lemma {:induction false} NoteElse(env: Env, path: Path, top: Env, p: Program, fuel: nat, els: Else, st: State,
                                    st': State)
    requires Ready(env, top, p) && PlainElse(els) && Start(p.lang, st, st')
    ensures StmtEnds(p.lang, ExecElse(p, fuel, els, st),
            ExecElse(MarkProgram(top, p), fuel, MarkElse(env, path, els), st'))
    decreases fuel, els, 0
  {
    hide ExecStmt, ExecScoped, MarkStmt, MarkList, Quiet;
    match els
    case NoElse =>
    case ElseIf(s) => NoteStmt(env, path + [0], top, p, fuel, s, st, st');
    case ElseBlock(b) => NoteScoped(env, path + [0], top, p, fuel, b, st, st');
  }

  lemma {:induction false} NoteFor(env: Env, path: Path, top: Env, p: Program, fuel: nat, s: Stmt, st: State,
                                   st': State)
    requires Ready(env, top, p) && PlainStmt(s) && Start(p.lang, st, st') && s.For?
    ensures StmtEnds(p.lang, ExecStmt(p, fuel, s, st), ExecStmt(MarkProgram(top, p), fuel, MarkStmt(env, path, s), st'))
    decreases fuel, s, 1
  {
    hide ExecStmt, ExecOpt, ExecLoop, MarkProgram, PlainProgram, Quiet, LeaveScope, MarkOpt, MarkTest, MarkList;
    var m, ms := MarkProgram(top, p), MarkStmt(env, path, s);
    StepFor(p, fuel, s, st);
    StepFor(m, fuel, ms, st');
    NoteOpt(env, path + [0], top, p, fuel, s.init, st, st');
    var r, r' := ExecOpt(p, fuel, s.init, st), ExecOpt(m, fuel, ms.init, st');
    if r.out == Normal {
      var next := Next(p.lang, r.st, r'.st);
      NoteLoop(env, path, top, p, fuel, s, r.st, next);
      var l, l' := ExecLoop(p, fuel, s, r.st), ExecLoop(m, fuel, ms, next);
      NoteLeave(p.lang, l, if Quiet(p.lang, r'.st.sonar) then l' else r', Depth(st.vars));
    } else {
      NoteLeave(p.lang, r, r', Depth(st.vars));
    }
  }

  lemma {:induction false} NoteLoop(env: Env, path: Path, top: Env, p: Program, fuel: nat, s: Stmt, st: State,
                                    st': State)
    requires Ready(env, top, p) && PlainStmt(s) && Start(p.lang, st, st') && s.For?
    ensures StmtEnds(p.lang, ExecLoop(p, fuel, s, st), ExecLoop(MarkProgram(top, p), fuel, MarkStmt(env, path, s), st'))
    decreases fuel, s, 0
  {
    hide ExecLoop, EvalTest, ExecScoped, ExecOpt, PlainProgram, MarkList, MarkOpt, MarkTest, Boring, PlainTest,
         PlainOpt,
         PlainList, MarkProgram, Quiet, Alike;
    var m, ms := MarkProgram(top, p), MarkStmt(env, path, s);
    StepLoop(p, fuel, s, st);
    StepLoop(m, fuel, ms, st');
    NoteTest(TestEnv(env, s.init, s.test), path + [1], top, p, fuel, s.test, st, st');
    var rc, rc' := EvalTest(p, fuel, s.test, st), EvalTest(m, fuel, ms.test, st');
    if rc.out.Val? && Truth(rc.out.v) {
      var st1 := Next(p.lang, rc.st, rc'.st);
      NoteScoped(env, path + [3], top, p, fuel, s.body, rc.st, st1);
      var rb, rb' := ExecScoped(p, fuel, s.body, rc.st), ExecScoped(m, fuel, ms.body, st1);
      if rb.out == Normal || rb.out == Continued {
        var st2 := Next(p.lang, rb.st, rb'.st);
        NoteOpt(env, path + [2], top, p, fuel, s.post, rb.st, st2);
        var rp, rp' := ExecOpt(p, fuel, s.post, rb.st), ExecOpt(m, fuel, ms.post, st2);
        if rp.out == Normal && fuel > 0 {
          NoteLoop(env, path, top, p, fuel - 1, s, rp.st, Next(p.lang, rp.st, rp'.st));
        }
      }
    }
  }

  lemma {:induction false} NoteSwitch(env: Env, path: Path, top: Env, p: Program, fuel: nat, s: Stmt, st: State,
                                      st': State)
    requires Ready(env, top, p) && PlainStmt(s) && Start(p.lang, st, st') && s.Switch?
    ensures StmtEnds(p.lang, ExecStmt(p, fuel, s, st), ExecStmt(MarkProgram(top, p), fuel, MarkStmt(env, path, s), st'))
    decreases fuel, s, 1
  {
    hide ExecStmt, ExecOpt, EvalTest, ExecSwitch, MarkProgram, PlainProgram, Quiet, LeaveScope, MarkOpt, MarkTest,
         MarkClauses, Simple;
    var m, ms := MarkProgram(top, p), MarkStmt(env, path, s);
    StepSwitch(p, fuel, s, st);
    StepSwitch(m, fuel, ms, st');
    NoteOpt(env, path + [0], top, p, fuel, s.init, st, st');
    var r, r' := ExecOpt(p, fuel, s.init, st), ExecOpt(m, fuel, ms.init, st');
    if r.out == Normal {
      var st1 := Next(p.lang, r.st, r'.st);
      NoteTest(env, path + [1], top, p, fuel, s.tag, r.st, st1);
      var rt, rt' := EvalTest(p, fuel, s.tag, r.st), EvalTest(m, fuel, ms.tag, st1);
      if !rt.out.Val? {
        NoteLeave(p.lang, SRes(AbruptEnd(rt.out), rt.st), Skip(p.lang, r', rt'), Depth(st.vars));
      } else {
        var st2 := Next(p.lang, rt.st, rt'.st);
        NoteSelect(env, path + [2], top, p, fuel, s.clauses, LoweredTag(env, s.tag), rt.out.v, rt.st, st2);
        NoteLeave(p.lang, ExecSwitch(p, fuel, s.clauses, rt.out.v, rt.st),
                  Pass(p.lang, r', rt', ExecSwitch(m, fuel, ms.clauses, rt.out.v, st2)), Depth(st.vars));
      }
    } else {
      NoteLeave(p.lang, r, r', Depth(st.vars));
    }
  }

  lemma {:induction false} NoteSelect(env: Env, path: Path, top: Env, p: Program, fuel: nat, clauses: Clauses,
                                      low: OptExpr, v: Value, st: State, st': State)
    requires Ready(env, top, p) && PlainClauses(clauses) && Start(p.lang, st, st')
    ensures StmtEnds(p.lang, ExecSwitch(p, fuel, clauses, v, st),
                     ExecSwitch(MarkProgram(top, p), fuel, MarkClauses(env, path, clauses, low), v, st'))
    decreases fuel, clauses, 2
  {
    hide ExecSwitch, RunFrom, MatchClause, MarkProgram, PlainProgram, PlainClauses, Quiet;
    var m, mc := MarkProgram(top, p), MarkClauses(env, path, clauses, low);
    StepSelect(p, fuel, clauses, v, st);
    StepSelect(m, fuel, mc, v, st');
    NoteMatch(env, path, top, p, fuel, clauses, low, v, st, st');
    var r, r' := MatchClause(p, fuel, clauses, v, st), MatchClause(m, fuel, mc, v, st');
    SameDefault(env, path, clauses, low);
    hide MarkClauses;
    var d := DefaultIndex(clauses);
    if r.out.Hit? || (r.out.Miss? && d.Some?) {
      var k := if r.out.Hit? then r.out.k else d.value;
      NoteRun(env, path, top, p, fuel, clauses, low, k, r.st, Next(p.lang, r.st, r'.st));
    }
  }

  lemma {:induction false} NoteMatch(env: Env, path: Path, top: Env, p: Program, fuel: nat, clauses: Clauses,
                                     low: OptExpr, v: Value, st: State, st': State)
    requires Ready(env, top, p) && PlainClauses(clauses) && Start(p.lang, st, st')
    ensures MatchEnds(p.lang, MatchClause(p, fuel, clauses, v, st),
                      MatchClause(MarkProgram(top, p), fuel, MarkClauses(env, path, clauses, low), v, st'))
    decreases fuel, clauses, 1
  {
    hide MatchExprs, MarkCases, MarkList, PlainProgram, PlainList, PlainExprs, MarkProgram, Quiet, Alike;
    match clauses
    case CNil =>
    case CCons(c, rest) =>
      hide MatchClause;
      var m := MarkProgram(top, p);
      var mc := Clause(c.isDefault, MarkCases(env, path + [0], c.exprs, low), MarkList(env, path + [1], c.body));
      var mrest := MarkClauses(env, path + [2], rest, low);
      assert MarkClauses(env, path, clauses, low) == CCons(mc, mrest);
      StepClause(p, fuel, c, rest, v, st);
      StepClause(m, fuel, mc, mrest, v, st');
      if !c.isDefault {
        NoteCases(env, path + [0], top, p, fuel, c.exprs, low, v, st, st');
      }
      var r := if c.isDefault then MRes(Miss, st) else MatchExprs(p, fuel, c.exprs, v, st);
      var r' := if c.isDefault then MRes(Miss, st') else MatchExprs(m, fuel, mc.exprs, v, st');
      if r.out.Miss? {
        NoteMatch(env, path + [2], top, p, fuel, rest, low, v, r.st, Next(p.lang, r.st, r'.st));
      }
  }

  lemma {:induction false} NoteCases(env: Env, path: Path, top: Env, p: Program, fuel: nat, es: Exprs, low: OptExpr,
                                     v: Value, st: State, st': State)
    requires Ready(env, top, p) && PlainExprs(es) && Start(p.lang, st, st')
    ensures MatchEnds(p.lang, MatchExprs(p, fuel, es, v, st),
                      MatchExprs(MarkProgram(top, p), fuel, MarkCases(env, path, es, low), v, st'))
    decreases fuel, es, 0
  {
    hide OneCase, MarkCase, PlainProgram, PlainExpr, MarkProgram, Quiet;
    match es
    case ENil =>
    case ECons(e, rest) =>
      hide MatchExprs;
      var m := MarkProgram(top, p);
      var me, mrest := MarkCase(env, path, e, low), MarkCases(env, path + [0], rest, low);
      StepCase(p, fuel, e, rest, v, st);
      StepCase(m, fuel, me, mrest, v, st');
      NoteCase(env, path, top, p, fuel, e, low, v, st, st');
      var r, r' := OneCase(p, fuel, e, v, st), OneCase(m, fuel, me, v, st');
      if r.out.Val? && !Truth(r.out.v) {
        NoteCases(env, path + [0], top, p, fuel, rest, low, v, r.st, Next(p.lang, r.st, r'.st));
      }
  }

  lemma {:induction false} NoteCase(env: Env, path: Path, top: Env, p: Program, fuel: nat, e: Expr, low: OptExpr,
                                    v: Value, st: State, st': State)
    requires Ready(env, top, p) && PlainExpr(e) && Start(p.lang, st, st')
    ensures ExprEnds(p.lang, OneCase(p, fuel, e, v, st),
                     OneCase(MarkProgram(top, p), fuel, MarkCase(env, path, e, low), v, st'))
    decreases fuel, e, 3
  {
    var m, me, site := MarkProgram(top, p), MarkExpr(env, path + [1], e), CaseSite(env, path, e, low);
    MarkedCase(env, path, m, fuel, e, low, v, st');
    StepOne(p, fuel, e, v, st);
    assert !e.WatchedCase?;
    SameLang(top, p);
    hide OneCase, EvalExpr, MarkExpr, MarkCase, PlainExpr, CaseSite, FinishOp, FinishMarked, Quiet, MarkProgram, Alike;
    NoteExpr(env, path + [1], top, p, fuel, e, st, st');
    var r, r' := EvalExpr(p, fuel, e, st), EvalExpr(m, fuel, me, st');
    if r.out.Val? {
      NoteFinish(p.lang, site, Eql, v, r.out.v, r.st, Next(p.lang, r.st, r'.st));
    }
  }

  lemma {:induction false} NoteRun(env: Env, path: Path, top: Env, p: Program, fuel: nat, clauses: Clauses,
                                   low: OptExpr,
                                   k: nat, st: State, st': State)
    requires Ready(env, top, p) && PlainClauses(clauses) && Start(p.lang, st, st')
    ensures StmtEnds(p.lang, RunFrom(p, fuel, clauses, k, st),
                     RunFrom(MarkProgram(top, p), fuel, MarkClauses(env, path, clauses, low), k, st'))
    decreases fuel, clauses, 0
  {
    hide ExecScoped, MarkCases, MarkList, PlainProgram, PlainList, PlainExprs, MarkProgram, Quiet;
    match clauses
    case CNil =>
    case CCons(c, rest) =>
      hide RunFrom;
      var m := MarkProgram(top, p);
      var mc := Clause(c.isDefault, MarkCases(env, path + [0], c.exprs, low), MarkList(env, path + [1], c.body));
      var mrest := MarkClauses(env, path + [2], rest, low);
      StepRun(p, fuel, c, rest, k, st);
      StepRun(m, fuel, mc, mrest, k, st');
      if k > 0 {
        NoteRun(env, path + [2], top, p, fuel, rest, low, k - 1, st, st');
      } else {
        NoteScoped(env, path + [1], top, p, fuel, c.body, st, st');
        var r, r' := ExecScoped(p, fuel, c.body, st), ExecScoped(m, fuel, mc.body, st');
        if r.out == Fell {
          NoteRun(env, path + [2], top, p, fuel, rest, low, 0, r.st, Next(p.lang, r.st, r'.st));
        }
      }
  }

  // ----- What the pass does to a program -----------------------------------------------

  /** The rewritten program ends as the original one, in everything but the reports. */
  predicate Preserved(r: SRes, r': SRes)
  {
    r.out == r'.out && Alike(r.st, r'.st.(vars := Clean(r'.st.vars)))
  }

  /**
    The sonar pass, for a program that does not use its names: a function body of the rewritten
    program reports, in order, exactly the comparisons that the marks ask for, with site and operand
    values. It faults exactly if one of the reported pairs makes the reporting function fault, and
    exactly if none does, it ends (or runs out of the same fuel) as the original does: with the same
    outcome, variables, globals, calls and counters.
  */
  lemma {:induction false} SonarPreservesMeaning(env: Env, p: Program, fuel: nat, name: string, st: State)
    requires env.lang == p.lang && PlainProgram(p) && name in p.funcs && Clean(st.vars) == st.vars && st.sonar == []
    ensures var m, q := MarkProgram(env, p), VisitProgram(env, p);
            var r, n, r' := ExecList(p, fuel, p.funcs[name].body, st), ExecList(m, fuel, m.funcs[name].body, st),
                            ExecList(q, fuel, q.funcs[name].body, st);
            && r'.out == n.out && r'.st.sonar == n.st.sonar
            && (r'.out == Faulted <==> !Quiet(p.lang, r'.st.sonar))
            && (Preserved(r, r') <==> Quiet(p.lang, r'.st.sonar))
  {
    hide ExecList, MarkList, VisitList;
    SonarReportsMarks(env, p, fuel, name, st);
    assert PlainFunc(p.funcs[name]);
    NoteList(env, env.root(name), env, p, fuel, p.funcs[name].body, st, st);
  }
}
