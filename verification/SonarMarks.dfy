/**
  What the sonar pass reports: the program with the marks of the comparisons that the pass makes
  report their operands, and no other change. SonarMeaning shows that the rewritten program reports
  exactly what the marks ask for; SonarNotes compares the marked program with the original one.
*/
module SonarMarks {
  import opened MiniGo
  import opened SonarPass
  import opened Wrappers

  function MarkCompare(env: Env, path: Path, op: CmpOp, shape: Shape, x: Expr, y: Expr, mx: Expr, my: Expr,
                       const1: bool): Expr
  {
    match SiteOf(env, path, op, shape, x, y, const1)
    case None => Binary(Cmp(op), mx, my)
    case Some(site) => Watched(op, mx, my, site)
  }

  function MarkExpr(env: Env, path: Path, e: Expr): Expr
    decreases e, 0
  {
    match e
    case Lit(_) => e
    case Ident(_) => e
    case Binary(op, x, y) =>
      var mx, my := MarkExpr(env, path + [0], x), MarkExpr(env, path + [1], y);
      if op.Cmp? then MarkCompare(env, path, op.cmp, ShapeOf(x, y), x, y, mx, my, IsConst(env.lang, x))
      else Binary(op, mx, my)
    case Not(x) => Not(MarkExpr(env, path + [0], x))
    case Call(fun, args) => Call(fun, MarkExprs(env, path + [0], args))
    case FuncLitCall(body) => FuncLitCall(MarkList(env, path + [0], body))
    case Watched(_, _, _, _) => e
    case WatchedCase(_, _) => e
  }

  function MarkExprs(env: Env, path: Path, es: Exprs): Exprs
    decreases es, 0
  {
    match es
    case ENil => ENil
    case ECons(e, rest) => ECons(MarkExpr(env, path + [0], e), MarkExprs(env, path + [1], rest))
  }

  function MarkTest(env: Env, path: Path, test: OptExpr): OptExpr
    decreases test, 0
  {
    match test case NoExpr => NoExpr case SomeExpr(e) => SomeExpr(MarkExpr(env, path, e))
  }

  function MarkOpt(env: Env, path: Path, s: OptStmt): OptStmt
    decreases s, 0
  {
    match s case NoStmt => NoStmt case SomeStmt(s) => SomeStmt(MarkStmt(env, path, s))
  }

  function MarkList(env: Env, path: Path, list: Stmts): Stmts
    decreases list, 0
  {
    match list
    case SNil => SNil
    case SCons(s, rest) => SCons(MarkStmt(env, path + [0], s), MarkList(env, path + [1], rest))
  }

  /** The tag against which the clauses of a switch are compared if the switch is lowered. */
  function LoweredTag(env: Env, tag: OptExpr): OptExpr
  {
    if env.on then tag else NoExpr
  }

  function MarkStmt(env: Env, path: Path, s: Stmt): Stmt
    decreases s, 1
  {
    match s
    case ExprStmt(x) => ExprStmt(MarkExpr(env, path + [0], x))
    case Define(name, x) => Define(name, MarkExpr(env, path + [0], x))
    case Assign(name, x) => Assign(name, MarkExpr(env, path + [0], x))
    case IncCounter(_) => s
    case SonarCall(x, y, site) => SonarCall(MarkExpr(env, path + [0], x), MarkExpr(env, path + [1], y), site)
    case Return(x) => Return(MarkExpr(env, path + [0], x))
    case Branch(_) => s
    case Block(body) => Block(MarkList(env, path + [0], body))
    case If(init, cond, thn, els) =>
      If(MarkOpt(env, path + [0], init), MarkExpr(env, path + [1], cond),
         MarkList(env, path + [2], thn), MarkElse(env, path + [3], els))
    case For(init, test, post, body) =>
      For(MarkOpt(env, path + [0], init), MarkTest(TestEnv(env, init, test), path + [1], test),
          MarkOpt(env, path + [2], post), MarkList(env, path + [3], body))
    case Switch(init, tag, clauses) =>
      Switch(MarkOpt(env, path + [0], init), MarkTest(env, path + [1], tag),
             MarkClauses(env, path + [2], clauses, LoweredTag(env, tag)))
  }

  function MarkElse(env: Env, path: Path, els: Else): Else
    decreases els, 0
  {
    match els
    case NoElse => NoElse
    case ElseIf(s) => ElseIf(MarkStmt(env, path + [0], s))
    case ElseBlock(b) => ElseBlock(MarkList(env, path + [0], b))
  }

  function MarkClauses(env: Env, path: Path, clauses: Clauses, tag: OptExpr): Clauses
    decreases clauses, 0
  {
    match clauses
    case CNil => CNil
    case CCons(c, rest) =>
      CCons(Clause(c.isDefault, MarkCases(env, path + [0], c.exprs, tag), MarkList(env, path + [1], c.body)),
            MarkClauses(env, path + [2], rest, tag))
  }

  function MarkCases(env: Env, path: Path, es: Exprs, tag: OptExpr): Exprs
    decreases es, 0
  {
    match es
    case ENil => ENil
    case ECons(e, rest) => ECons(MarkCase(env, path, e, tag), MarkCases(env, path + [0], rest, tag))
  }

  function CaseSite(env: Env, path: Path, e: Expr, tag: OptExpr): Option<nat>
  {
    if tag.NoExpr? then None
    else SiteOf(env, path, Eql, ShapeOf(Ident(Tmp()), e), tag.e, e, IsConst(env.lang, tag.e))
  }

  function MarkCase(env: Env, path: Path, e: Expr, tag: OptExpr): Expr
    decreases e, 1
  {
    CaseMark(MarkExpr(env, path + [1], e), CaseSite(env, path, e, tag))
  }

  function CaseMark(me: Expr, site: Option<nat>): Expr
  {
    match site case None => me case Some(s) => WatchedCase(me, s)
  }

  function MarkProgram(env: Env, p: Program): Program
  {
    Program(p.lang, map name | name in p.funcs ::
      Func(p.funcs[name].params, MarkList(env, env.root(name), p.funcs[name].body)))
  }

  /** Nothing is marked inside of a constant expression. */
  lemma {:induction false} ConstUnmarked(env: Env, path: Path, e: Expr)
    requires IsConst(env.lang, e)
    ensures MarkExpr(env, path, e) == e
    decreases e
  {
    match e
    case Lit(_) =>
    case Binary(_, x, y) =>
      ConstUnmarked(env, path + [0], x);
      ConstUnmarked(env, path + [1], y);
    case Not(x) => ConstUnmarked(env, path + [0], x);
    case _ =>
  }

  // ----- What the marks mean -----------------------------------------------------------

  /** A comparison in the marked program, after its operands. */
  function FinishMarked(lang: Lang, site: Option<nat>, op: CmpOp, a: Value, b: Value, st: State): ERes
  {
    match site case None => FinishOp(lang, Cmp(op), a, b, st) case Some(s) => FinishWatch(lang, op, a, b, s, st)
  }

  lemma {:induction false} MarkedCompare(m: Program, fuel: nat, env: Env, path: Path, op: CmpOp, shape: Shape,
                                         x: Expr, y: Expr,
                      mx: Expr, my: Expr, const1: bool, st: State)
    ensures var rx := EvalExpr(m, fuel, mx, st);
            var ry := EvalExpr(m, fuel, my, rx.st);
            var site := SiteOf(env, path, op, shape, x, y, const1);
            EvalExpr(m, fuel, MarkCompare(env, path, op, shape, x, y, mx, my, const1), st) ==
            if !rx.out.Val? then rx else if !ry.out.Val? then ry
            else FinishMarked(m.lang, site, op, rx.out.v, ry.out.v, ry.st)
  {
    hide EvalExpr, SiteOf;
    match SiteOf(env, path, op, shape, x, y, const1)
    case None => StepBinary(m, fuel, Cmp(op), mx, my, st);
    case Some(site) => StepWatched(m, fuel, op, mx, my, site, st);
  }

  /** What is left of a comparison in the marked program: the second operand, the report, the result. */
  function SecondHalf(m: Program, fuel: nat, my: Expr, site: Option<nat>, op: CmpOp, vx: Value, s1: State): ERes
  {
    var ry := EvalExpr(m, fuel, my, s1);
    if ry.out.Val? then FinishMarked(m.lang, site, op, vx, ry.out.v, ry.st) else ry
  }

  lemma {:induction false} NeverCase(env: Env, path: Path, e: Expr)
    requires PlainExpr(e)
    ensures !MarkExpr(env, path, e).WatchedCase? && !VisitExpr(env, path, e).WatchedCase?
  {
  }

  /** A case expression of the marked program is compared as in a marked comparison with the tag. */
  lemma {:induction false} MarkedCase(env: Env, path: Path, m: Program, fuel: nat, e: Expr, low: OptExpr, v: Value,
                                      st: State)
    requires PlainExpr(e)
    ensures OneCase(m, fuel, MarkCase(env, path, e, low), v, st)
            == SecondHalf(m, fuel, MarkExpr(env, path + [1], e), CaseSite(env, path, e, low), Eql, v, st)
  {
    NeverCase(env, path + [1], e);
    hide MarkExpr, VisitExpr, CaseSite, PlainExpr, EvalExpr, OneCase, SecondHalf, CaseMark;
    MarkedMatch(m, fuel, MarkExpr(env, path + [1], e), CaseSite(env, path, e, low), v, st);
  }

  lemma {:induction false} MarkedMatch(m: Program, fuel: nat, me: Expr, site: Option<nat>, v: Value, st: State)
    requires !me.WatchedCase?
    ensures OneCase(m, fuel, CaseMark(me, site), v, st) == SecondHalf(m, fuel, me, site, Eql, v, st)
  {
    hide EvalExpr, OneCase, FinishOp, FinishWatch;
    StepOne(m, fuel, CaseMark(me, site), v, st);
    if site.Some? {
      CaseValue(m, fuel, me, site.value, st);
    }
  }

  lemma {:induction false} CaseValue(m: Program, fuel: nat, me: Expr, site: nat, st: State)
    ensures EvalExpr(m, fuel, WatchedCase(me, site), st) == EvalExpr(m, fuel, me, st)
  {
  }
}
