/**
  What the coverage pass may add to a program: counters, closures around the right operands of && and
  ||, empty else blocks and an empty default clause. Taking all of these away from a program before
  and after the pass leaves the same program.
*/
module CoverShape {
  import opened CoverPass
  import opened MiniGo
  import opened Wrappers

  /** Without the closures that only return an expression. */
  function Core(e: Expr): Expr
  {
    match e
    case FuncLitCall(SCons(Return(x), SNil)) => Core(x)
    case _ => e
  }

  function BareExpr(e: Expr): Expr
    decreases e, 0
  {
    match e
    case Lit(_) => e
    case Ident(_) => e
    case Binary(op, x, y) =>
      var x', y' := BareExpr(x), BareExpr(y);
      Binary(op, x', if op.LAnd? || op.LOr? then Core(y') else y')
    case Not(x) => Not(BareExpr(x))
    case Call(fun, args) => Call(fun, BareExprs(args))
    case FuncLitCall(body) => FuncLitCall(BareList(body))
    case Watched(op, x, y, site) => Watched(op, BareExpr(x), BareExpr(y), site)
    case WatchedCase(x, site) => WatchedCase(BareExpr(x), site)
  }

  function BareExprs(es: Exprs): Exprs
    decreases es, 0
  {
    match es case ENil => ENil case ECons(e, rest) => ECons(BareExpr(e), BareExprs(rest))
  }

  function BareTest(test: OptExpr): OptExpr
    decreases test, 0
  {
    match test case NoExpr => NoExpr case SomeExpr(e) => SomeExpr(BareExpr(e))
  }

  function BareOpt(s: OptStmt): OptStmt
    decreases s, 0
  {
    match s case NoStmt => NoStmt case SomeStmt(s) => SomeStmt(BareStmt(s))
  }

  /** Without counters. */
  function BareList(list: Stmts): Stmts
    decreases list, 0
  {
    match list
    case SNil => SNil
    case SCons(IncCounter(_), rest) => BareList(rest)
    case SCons(s, rest) => SCons(BareStmt(s), BareList(rest))
  }

  function BareStmt(s: Stmt): Stmt
    decreases s, 0
  {
    match s
    case ExprStmt(x) => ExprStmt(BareExpr(x))
    case Define(name, x) => Define(name, BareExpr(x))
    case Assign(name, x) => Assign(name, BareExpr(x))
    case IncCounter(_) => s
    case SonarCall(x, y, site) => SonarCall(BareExpr(x), BareExpr(y), site)
    case Return(x) => Return(BareExpr(x))
    case Branch(_) => s
    case Block(body) => Block(BareList(body))
    case If(init, cond, thn, els) => If(BareOpt(init), BareExpr(cond), BareList(thn), BareElse(els))
    case For(init, test, post, body) => For(BareOpt(init), BareTest(test), BareOpt(post), BareList(body))
    case Switch(init, tag, clauses) => Switch(BareOpt(init), BareTest(tag), BareClauses(clauses))
  }

  /** An else-if is a block that holds the statement; an empty block is none. */
  function BareElse(els: Else): Else
    decreases els, 0
  {
    match els
    case NoElse => NoElse
    case ElseIf(s) => if s.IncCounter? then NoElse else ElseBlock(SCons(BareStmt(s), SNil))
    case ElseBlock(b) => if BareList(b).SNil? then NoElse else ElseBlock(BareList(b))
  }

  /** Without an empty default clause at the end. */
  function BareClauses(clauses: Clauses): Clauses
    decreases clauses, 0
  {
    match clauses
    case CNil => CNil
    case CCons(c, rest) =>
      var c' := Clause(c.isDefault, BareExprs(c.exprs), BareList(c.body));
      if rest.CNil? && c' == Clause(true, ENil, SNil) then CNil else CCons(c', BareClauses(rest))
  }

  lemma {:induction false} ExprKept(env: Env, path: Path, e: Expr)
    ensures BareExpr(VisitExpr(env, path, e)) == BareExpr(e)
    decreases e, 1
  {
    match e
    case Binary(op, x, y) =>
      ExprKept(env, path + [0], x);
      ExprKept(env, path + [1], y);
      ClosureGone(env, path, VisitExpr(env, path + [1], y));
    case Not(x) => ExprKept(env, path + [0], x);
    case Call(_, args) => ExprsKept(env, path + [0], args);
    case FuncLitCall(body) => BlockKept(env, path + [0], body);
    case Watched(_, x, y, _) =>
      ExprKept(env, path + [0], x);
      ExprKept(env, path + [1], y);
    case WatchedCase(x, _) => ExprKept(env, path + [0], x);
    case _ =>
  }

  lemma {:induction false} ClosureGone(env: Env, path: Path, y: Expr)
    ensures Core(BareExpr(FuncLitCall(WithCounter(env, path, SCons(Return(y), SNil))))) == Core(BareExpr(y))
  {
    var list := SCons(Return(y), SNil);
    CounterGone(env, path, list);
    assert BareList(list) == SCons(Return(BareExpr(y)), SNil);
  }

  lemma {:induction false} CounterGone(env: Env, path: Path, list: Stmts)
    ensures BareList(WithCounter(env, path, list)) == BareList(list)
    ensures BareList(SCons(Counter(env, path), list)) == BareList(list)
  {
  }

  lemma {:induction false} ExprsKept(env: Env, path: Path, es: Exprs)
    ensures BareExprs(VisitExprs(env, path, es)) == BareExprs(es)
    decreases es, 1
  {
    if es.ECons? {
      ExprKept(env, path + [0], es.head);
      ExprsKept(env, path + [1], es.tail);
    }
  }

  lemma {:induction false} BlockKept(env: Env, path: Path, list: Stmts)
    ensures BareList(VisitBlock(env, path, list)) == BareList(list)
    decreases list, 2
  {
    CounterGone(env, path, SNil);
    ListKept(env, path, list, true);
  }

  lemma {:induction false} ListKept(env: Env, path: Path, list: Stmts, starts: bool)
    ensures BareList(VisitList(env, path, list, starts)) == BareList(list)
    decreases list, 1
  {
    if list.SCons? {
      var s', rest := VisitStmt(env, path + [0], list.head),
        VisitList(env, path + [1], list.tail, EndsBlock(list.head));
      StmtKept(env, path + [0], list.head);
      ListKept(env, path + [1], list.tail, EndsBlock(list.head));
      CounterGone(env, path, SCons(s', rest));
    }
  }

  lemma {:induction false} StmtKept(env: Env, path: Path, s: Stmt)
    ensures BareStmt(VisitStmt(env, path, s)) == BareStmt(s)
    ensures VisitStmt(env, path, s).IncCounter? == s.IncCounter?
    decreases s, 1
  {
    match s
    case ExprStmt(x) => ExprKept(env, path + [0], x);
    case Define(_, x) => ExprKept(env, path + [0], x);
    case Assign(_, x) => ExprKept(env, path + [0], x);
    case Return(x) => ExprKept(env, path + [0], x);
    case SonarCall(x, y, _) =>
      ExprKept(env, path + [0], x);
      ExprKept(env, path + [1], y);
    case IncCounter(_) =>
    case Branch(_) =>
    case Block(body) => BlockKept(env, path + [0], body);
    case If(init, cond, thn, els) =>
      OptKept(env, path + [0], init);
      ExprKept(env, path + [1], cond);
      BlockKept(env, path + [2], thn);
      ElseKept(env, path + [3], els);
    case For(init, test, post, body) =>
      OptKept(env, path + [0], init);
      TestKept(env, path + [1], test);
      OptKept(env, path + [2], post);
      BlockKept(env, path + [3], body);
    case Switch(init, tag, clauses) =>
      OptKept(env, path + [0], init);
      TestKept(env, path + [1], tag);
      DefaultsAfter(env, path + [2], clauses, false);
      ClausesKept(env, path + [2], clauses, DefaultIndex(clauses).Some?);
  }

  lemma {:induction false} OptKept(env: Env, path: Path, s: OptStmt)
    ensures BareOpt(VisitOpt(env, path, s)) == BareOpt(s)
    decreases s, 1
  {
    if s.SomeStmt? {
      StmtKept(env, path, s.s);
    }
  }

  lemma {:induction false} TestKept(env: Env, path: Path, test: OptExpr)
    ensures BareTest(VisitTest(env, path, test)) == BareTest(test)
    decreases test, 1
  {
    if test.SomeExpr? {
      ExprKept(env, path, test.e);
    }
  }

  lemma {:induction false} ElseKept(env: Env, path: Path, els: Else)
    ensures BareElse(VisitElse(env, path, els)) == BareElse(els)
    decreases els, 1
  {
    match els
    case NoElse => CounterGone(env, path, SNil);
    case ElseIf(s) =>
      StmtKept(env, path + [0], s);
      CounterGone(env, path, SCons(VisitStmt(env, path + [0], s), SNil));
    case ElseBlock(b) => BlockKept(env, path + [0], b);
  }

  lemma {:induction false} ClausesKept(env: Env, path: Path, clauses: Clauses, hasDefault: bool)
    requires hasDefault || Defaults(clauses) == 0
    ensures BareClauses(VisitClauses(env, path, clauses, hasDefault)) == BareClauses(clauses)
    ensures VisitClauses(env, path, clauses, hasDefault).CNil? ==> clauses.CNil?
    decreases clauses, 1
  {
    match clauses
    case CNil => CounterGone(env, path, SNil);
    case CCons(c, rest) =>
      ExprsKept(env, path + [0], c.exprs);
      BlockKept(env, path + [1], c.body);
      ClausesKept(env, path + [2], rest, hasDefault);
  }

  /** How many default clauses there are. */
  function Defaults(clauses: Clauses): nat
  {
    match clauses case CNil => 0 case CCons(c, rest) => (if c.isDefault then 1 else 0) + Defaults(rest)
  }

  /** Every switch comes out with a default clause, and with one only where it had at most one. */
  lemma {:induction false} DefaultsAfter(env: Env, path: Path, clauses: Clauses, hasDefault: bool)
    ensures Defaults(VisitClauses(env, path, clauses, hasDefault)) ==
              Defaults(clauses) + if env.on && !hasDefault then 1 else 0
    ensures DefaultIndex(clauses).Some? <==> Defaults(clauses) > 0
    decreases clauses
  {
    if clauses.CCons? {
      DefaultsAfter(env, path + [2], clauses.tail, hasDefault);
    }
  }

  /** The pass adds nothing to a program but counters and what is empty without them. */
  lemma {:induction false} OnlyAdditions(env: Env, p: Program, name: string)
    requires name in p.funcs
    ensures VisitProgram(env, p).funcs.Keys == p.funcs.Keys && VisitProgram(env, p).lang == p.lang
    ensures var f, f' := p.funcs[name], VisitProgram(env, p).funcs[name];
            f'.params == f.params && BareList(f'.body) == BareList(f.body)
  {
    BlockKept(env.(on := env.on && name != "init"), env.root(name), p.funcs[name].body);
  }
}
