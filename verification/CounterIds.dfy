/**
  No two counters of an instrumented program are the same, as far as their numbers are apart: the
  pass asks for a new number for each counter.
*/
module CounterIds {
  import opened CoverPass
  import opened MiniGo
  import opened Places
  import opened Wrappers

  // ----- The counters in a tree --------------------------------------------------------

  function ExprIds(e: Expr): multiset<nat>
    decreases e, 0
  {
    match e
    case Lit(_) => multiset{}
    case Ident(_) => multiset{}
    case Binary(_, x, y) => ExprIds(x) + ExprIds(y)
    case Not(x) => ExprIds(x)
    case Call(_, args) => ExprsIds(args)
    case FuncLitCall(body) => ListIds(body)
    case Watched(_, x, y, _) => ExprIds(x) + ExprIds(y)
    case WatchedCase(x, _) => ExprIds(x)
  }

  function ExprsIds(es: Exprs): multiset<nat>
    decreases es, 0
  {
    match es case ENil => multiset{} case ECons(e, rest) => ExprIds(e) + ExprsIds(rest)
  }

  function TestIds(test: OptExpr): multiset<nat>
    decreases test, 0
  {
    match test case NoExpr => multiset{} case SomeExpr(e) => ExprIds(e)
  }

  function OptIds(s: OptStmt): multiset<nat>
    decreases s, 0
  {
    match s case NoStmt => multiset{} case SomeStmt(s) => StmtIds(s)
  }

  function ListIds(list: Stmts): multiset<nat>
    decreases list, 0
  {
    match list case SNil => multiset{} case SCons(s, rest) => StmtIds(s) + ListIds(rest)
  }

  function StmtIds(s: Stmt): multiset<nat>
    decreases s, 0
  {
    match s
    case ExprStmt(x) => ExprIds(x)
    case Define(_, x) => ExprIds(x)
    case Assign(_, x) => ExprIds(x)
    case IncCounter(n) => multiset{n}
    case SonarCall(x, y, _) => ExprIds(x) + ExprIds(y)
    case Return(x) => ExprIds(x)
    case Branch(_) => multiset{}
    case Block(body) => ListIds(body)
    case If(init, cond, thn, els) => OptIds(init) + ExprIds(cond) + ListIds(thn) + ElseIds(els)
    case For(init, test, post, body) => OptIds(init) + TestIds(test) + OptIds(post) + ListIds(body)
    case Switch(init, tag, clauses) => OptIds(init) + TestIds(tag) + ClausesIds(clauses)
  }

  function ElseIds(els: Else): multiset<nat>
    decreases els, 0
  {
    match els case NoElse => multiset{} case ElseIf(s) => StmtIds(s) case ElseBlock(b) => ListIds(b)
  }

  function ClausesIds(clauses: Clauses): multiset<nat>
    decreases clauses, 0
  {
    match clauses
    case CNil => multiset{}
    case CCons(c, rest) => ExprsIds(c.exprs) + ListIds(c.body) + ClausesIds(rest)
  }

  // ----- The pass ----------------------------------------------------------------------

  lemma {:induction false} ExprOwn(env: Env, path: Path, e: Expr)
    requires Injective(env.id) && ExprIds(e) == multiset{}
    ensures OwnAll(env.id, path, ExprIds(VisitExpr(env, path, e)))
    decreases e, 1
  {
    hide Own, OwnAll, Injective;
    match e
    case Lit(_) => Empty(env.id, path);
    case Ident(_) => Empty(env.id, path);
    case Binary(op, x, y) =>
      ExprOwn(env, path + [0], x);
      ExprOwn(env, path + [1], y);
      var x', y' := VisitExpr(env, path + [0], x), VisitExpr(env, path + [1], y);
      ClosureIds(env, path, y');
      var wrap := env.on && (op.LAnd? || op.LOr?);
      Two(env.id, path, wrap && !env.abuts(path), ExprIds(x'), ExprIds(y'));
      BinaryIds(env, path, op, x, y);
    case Not(x) =>
      ExprOwn(env, path + [0], x);
      One(env.id, path, false, ExprIds(VisitExpr(env, path + [0], x)));
    case Call(_, args) =>
      ExprsOwn(env, path + [0], args);
      One(env.id, path, false, ExprsIds(VisitExprs(env, path + [0], args)));
    case FuncLitCall(body) =>
      BlockOwn(env, path + [0], body);
      One(env.id, path, false, ListIds(VisitBlock(env, path + [0], body)));
    case Watched(_, x, y, _) =>
      ExprOwn(env, path + [0], x);
      ExprOwn(env, path + [1], y);
      Two(env.id, path, false, ExprIds(VisitExpr(env, path + [0], x)), ExprIds(VisitExpr(env, path + [1], y)));
    case WatchedCase(x, _) =>
      ExprOwn(env, path + [0], x);
      One(env.id, path, false, ExprIds(VisitExpr(env, path + [0], x)));
  }

  lemma {:induction false} ClosureIds(env: Env, path: Path, y: Expr)
    ensures ExprIds(FuncLitCall(WithCounter(env, path, SCons(Return(y), SNil)))) ==
              (if env.abuts(path) then multiset{} else multiset{env.id(path)}) + ExprIds(y)
  {
    var list := SCons(Return(y), SNil);
    CounterIds(env, path, list);
    ReturnIds(y);
    hide ListIds;
    assert ExprIds(FuncLitCall(WithCounter(env, path, list))) == ListIds(WithCounter(env, path, list));
  }

  lemma {:induction false} ReturnIds(y: Expr)
    ensures ListIds(SCons(Return(y), SNil)) == ExprIds(y)
  {
    hide ExprIds;
    assert StmtIds(Return(y)) == ExprIds(y) && ListIds(SNil) == multiset{};
  }

  lemma {:induction false} CounterIds(env: Env, path: Path, list: Stmts)
    ensures ListIds(SCons(Counter(env, path), list)) == multiset{env.id(path)} + ListIds(list)
    ensures ListIds(WithCounter(env, path, list)) ==
              (if env.abuts(path) then multiset{} else multiset{env.id(path)}) + ListIds(list)
  {
  }

  lemma {:induction false} BinaryIds(env: Env, path: Path, op: BinOp, x: Expr, y: Expr)
    ensures ExprIds(VisitExpr(env, path, Binary(op, x, y))) ==
              (if env.on && (op.LAnd? || op.LOr?) && !env.abuts(path) then multiset{env.id(path)} else multiset{})
              + ExprIds(VisitExpr(env, path + [0], x)) + ExprIds(VisitExpr(env, path + [1], y))
  {
    ClosureIds(env, path, VisitExpr(env, path + [1], y));
  }

  lemma {:induction false} ExprsOwn(env: Env, path: Path, es: Exprs)
    requires Injective(env.id) && ExprsIds(es) == multiset{}
    ensures OwnAll(env.id, path, ExprsIds(VisitExprs(env, path, es)))
    decreases es, 1
  {
    hide Own, OwnAll, Injective;
    match es
    case ENil => Empty(env.id, path);
    case ECons(e, rest) =>
      ExprOwn(env, path + [0], e);
      ExprsOwn(env, path + [1], rest);
      Two(env.id, path, false, ExprIds(VisitExpr(env, path + [0], e)), ExprsIds(VisitExprs(env, path + [1], rest)));
  }

  lemma {:induction false} BlockOwn(env: Env, path: Path, list: Stmts)
    requires Injective(env.id) && ListIds(list) == multiset{}
    ensures OwnAll(env.id, path, ListIds(VisitBlock(env, path, list)))
    decreases list, 2
  {
    hide Own, OwnAll, Injective;
    OnlyCounter(env, path);
    ListOwn(env, path, list, true);
  }

  lemma {:induction false} OnlyCounter(env: Env, path: Path)
    requires Injective(env.id)
    ensures OwnAll(env.id, path, ListIds(SCons(Counter(env, path), SNil)))
  {
    hide Own, OwnAll, Injective;
    Empty(env.id, path + [0]);
    One(env.id, path, true, multiset{});
    CounterIds(env, path, SNil);
    assert multiset{env.id(path)} + multiset{} == ListIds(SCons(Counter(env, path), SNil));
  }

  lemma {:induction false} ListOwn(env: Env, path: Path, list: Stmts, starts: bool)
    requires Injective(env.id) && ListIds(list) == multiset{}
    ensures OwnAll(env.id, path, ListIds(VisitList(env, path, list, starts)))
    decreases list, 1
  {
    hide Own, OwnAll, Injective;
    match list
    case SNil => Empty(env.id, path);
    case SCons(s, rest) =>
      StmtOwn(env, path + [0], s);
      ListOwn(env, path + [1], rest, EndsBlock(s));
      var s', rest' := VisitStmt(env, path + [0], s), VisitList(env, path + [1], rest, EndsBlock(s));
      var here := env.on && starts && !env.abuts(path);
      Two(env.id, path, here, StmtIds(s'), ListIds(rest'));
      CounterIds(env, path, SCons(s', rest'));
      assert ListIds(SCons(s', rest')) == StmtIds(s') + ListIds(rest');
      assert ListIds(VisitList(env, path, list, starts)) ==
        (if here then multiset{env.id(path)} else multiset{}) + StmtIds(s') + ListIds(rest');
  }

  lemma {:induction false} OptOwn(env: Env, path: Path, s: OptStmt)
    requires Injective(env.id) && OptIds(s) == multiset{}
    ensures OwnAll(env.id, path, OptIds(VisitOpt(env, path, s)))
    decreases s, 1
  {
    hide Own, OwnAll, Injective;
    match s
    case NoStmt => Empty(env.id, path);
    case SomeStmt(s) => StmtOwn(env, path, s);
  }

  lemma {:induction false} TestOwn(env: Env, path: Path, test: OptExpr)
    requires Injective(env.id) && TestIds(test) == multiset{}
    ensures OwnAll(env.id, path, TestIds(VisitTest(env, path, test)))
    decreases test, 1
  {
    hide Own, OwnAll, Injective;
    match test
    case NoExpr => Empty(env.id, path);
    case SomeExpr(e) => ExprOwn(env, path, e);
  }

  lemma {:induction false} ElseOwn(env: Env, path: Path, els: Else)
    requires Injective(env.id) && ElseIds(els) == multiset{}
    ensures OwnAll(env.id, path, ElseIds(VisitElse(env, path, els)))
    decreases els, 1
  {
    hide Own, OwnAll, Injective;
    Empty(env.id, path);
    OnlyCounter(env, path);
    match els
    case NoElse =>
    case ElseIf(s) =>
      StmtOwn(env, path + [0], s);
      var s' := VisitStmt(env, path + [0], s);
      One(env.id, path, !env.abuts(path), StmtIds(s'));
      CounterIds(env, path, SCons(s', SNil));
      assert ListIds(SCons(s', SNil)) == StmtIds(s');
    case ElseBlock(b) =>
      BlockOwn(env, path + [0], b);
      One(env.id, path, false, ListIds(VisitBlock(env, path + [0], b)));
  }

  lemma {:induction false} ClausesOwn(env: Env, path: Path, clauses: Clauses, hasDefault: bool)
    requires Injective(env.id) && ClausesIds(clauses) == multiset{}
    ensures OwnAll(env.id, path, ClausesIds(VisitClauses(env, path, clauses, hasDefault)))
    decreases clauses, 1
  {
    hide Own, OwnAll, Injective;
    match clauses
    case CNil =>
      Empty(env.id, path);
      OnlyCounter(env, path);
      AddedIds(env, path);
    case CCons(c, rest) =>
      ExprsOwn(env, path + [0], c.exprs);
      BlockOwn(env, path + [1], c.body);
      ClausesOwn(env, path + [2], rest, hasDefault);
      Empty(env.id, path + [3]);
      var a, b, d := ExprsIds(VisitExprs(env, path + [0], c.exprs)), ListIds(VisitBlock(env, path + [1], c.body)),
                     ClausesIds(VisitClauses(env, path + [2], rest, hasDefault));
      Together(env.id, path, false, a, b, d, multiset{});
      assert a + b + d + multiset{} == a + b + d;
  }

  lemma {:induction false} AddedIds(env: Env, path: Path)
    ensures var list := SCons(Counter(env, path), SNil);
            ClausesIds(CCons(Clause(true, ENil, list), CNil)) == ListIds(list)
  {
    hide ListIds;
  }

  lemma {:induction false} StmtOwn(env: Env, path: Path, s: Stmt)
    requires Injective(env.id) && StmtIds(s) == multiset{}
    ensures OwnAll(env.id, path, StmtIds(VisitStmt(env, path, s)))
    decreases s, 1
  {
    hide Own, OwnAll, Injective;
    match s
    case ExprStmt(x) => BelowExpr(env, path, x);
    case Define(_, x) => BelowExpr(env, path, x);
    case Assign(_, x) => BelowExpr(env, path, x);
    case Return(x) => BelowExpr(env, path, x);
    case SonarCall(x, y, _) =>
      ExprOwn(env, path + [0], x);
      ExprOwn(env, path + [1], y);
      Two(env.id, path, false, ExprIds(VisitExpr(env, path + [0], x)), ExprIds(VisitExpr(env, path + [1], y)));
    case Branch(_) => Empty(env.id, path);
    case Block(body) =>
      BlockOwn(env, path + [0], body);
      One(env.id, path, false, ListIds(VisitBlock(env, path + [0], body)));
    case If(_, _, _, _) => IfOwn(env, path, s);
    case For(_, _, _, _) => ForOwn(env, path, s);
    case Switch(_, _, _) => SwitchOwn(env, path, s);
  }

  lemma {:induction false} BelowExpr(env: Env, path: Path, x: Expr)
    requires Injective(env.id) && ExprIds(x) == multiset{}
    ensures OwnAll(env.id, path, ExprIds(VisitExpr(env, path + [0], x)))
    decreases x, 2
  {
    hide Own, OwnAll, Injective;
    ExprOwn(env, path + [0], x);
    One(env.id, path, false, ExprIds(VisitExpr(env, path + [0], x)));
  }

  lemma {:induction false} IfOwn(env: Env, path: Path, s: Stmt)
    requires Injective(env.id) && s.If? && StmtIds(s) == multiset{}
    ensures OwnAll(env.id, path, StmtIds(VisitStmt(env, path, s)))
    decreases s, 0
  {
    hide Own, OwnAll, Injective;
    OptOwn(env, path + [0], s.init);
    ExprOwn(env, path + [1], s.cond);
    BlockOwn(env, path + [2], s.thn);
    ElseOwn(env, path + [3], s.els);
    Together(env.id, path, false, OptIds(VisitOpt(env, path + [0], s.init)),
      ExprIds(VisitExpr(env, path + [1], s.cond)),
             ListIds(VisitBlock(env, path + [2], s.thn)), ElseIds(VisitElse(env, path + [3], s.els)));
  }

  lemma {:induction false} ForOwn(env: Env, path: Path, s: Stmt)
    requires Injective(env.id) && s.For? && StmtIds(s) == multiset{}
    ensures OwnAll(env.id, path, StmtIds(VisitStmt(env, path, s)))
    decreases s, 0
  {
    hide Own, OwnAll, Injective;
    OptOwn(env, path + [0], s.init);
    TestOwn(env, path + [1], s.test);
    OptOwn(env, path + [2], s.post);
    BlockOwn(env, path + [3], s.body);
    Together(env.id, path, false, OptIds(VisitOpt(env, path + [0], s.init)),
      TestIds(VisitTest(env, path + [1], s.test)),
             OptIds(VisitOpt(env, path + [2], s.post)), ListIds(VisitBlock(env, path + [3], s.body)));
  }

  lemma {:induction false} SwitchOwn(env: Env, path: Path, s: Stmt)
    requires Injective(env.id) && s.Switch? && StmtIds(s) == multiset{}
    ensures OwnAll(env.id, path, StmtIds(VisitStmt(env, path, s)))
    decreases s, 0
  {
    hide Own, OwnAll, Injective;
    var hasDefault := DefaultIndex(s.clauses).Some?;
    OptOwn(env, path + [0], s.init);
    TestOwn(env, path + [1], s.tag);
    ClausesOwn(env, path + [2], s.clauses, hasDefault);
    Empty(env.id, path + [3]);
    var a, b, c := OptIds(VisitOpt(env, path + [0], s.init)), TestIds(VisitTest(env, path + [1], s.tag)),
                   ClausesIds(VisitClauses(env, path + [2], s.clauses, hasDefault));
    Together(env.id, path, false, a, b, c, multiset{});
    assert a + b + c + multiset{} == a + b + c;
  }

  /** All counters of an instrumented program are different. */
  lemma CountersDiffer(env: Env, p: Program, a: string, b: string)
    requires Injective(env.id) && RootsApart(env.root, p)
    requires forall name | name in p.funcs :: ListIds(p.funcs[name].body) == multiset{}
    requires a in p.funcs && b in p.funcs
    ensures var ids, others := ListIds(VisitProgram(env, p).funcs[a].body), ListIds(VisitProgram(env, p).funcs[b].body);
            && (forall n | n in ids :: ids[n] == 1)
            && (a != b ==> forall n :: !(n in ids && n in others))
  {
    hide ListIds, VisitBlock, RootsApart, Injective;
    var ids, others := ListIds(VisitProgram(env, p).funcs[a].body), ListIds(VisitProgram(env, p).funcs[b].body);
    BlockOwn(env.(on := env.on && a != "init"), env.root(a), p.funcs[a].body);
    BlockOwn(env.(on := env.on && b != "init"), env.root(b), p.funcs[b].body);
    if a != b {
      forall n ensures !(n in ids && n in others) {
        if n in ids && n in others {
          RootsClash(env.id, env.root, p, a, b, n);
        }
      }
    }
  }
}
