/** No two reports of an instrumented program have the same site: each comparison takes a new number. */
module SonarSites {
  import opened MiniGo
  import opened Places
  import opened SonarFlags
  import opened SonarPass
  import opened SonarProbes
  import opened Wrappers

  // ----- The reports in a tree ---------------------------------------------------------

  function ExprSites(e: Expr): multiset<nat>
    decreases e, 0
  {
    match e
    case Lit(_) => multiset{}
    case Ident(_) => multiset{}
    case Binary(_, x, y) => ExprSites(x) + ExprSites(y)
    case Not(x) => ExprSites(x)
    case Call(_, args) => ExprsSites(args)
    case FuncLitCall(body) => ListSites(body)
    case Watched(_, x, y, _) => ExprSites(x) + ExprSites(y)
    case WatchedCase(x, _) => ExprSites(x)
  }

  function ExprsSites(es: Exprs): multiset<nat>
    decreases es, 0
  {
    match es case ENil => multiset{} case ECons(e, rest) => ExprSites(e) + ExprsSites(rest)
  }

  function TestSites(test: OptExpr): multiset<nat>
    decreases test, 0
  {
    match test case NoExpr => multiset{} case SomeExpr(e) => ExprSites(e)
  }

  function OptSites(s: OptStmt): multiset<nat>
    decreases s, 0
  {
    match s case NoStmt => multiset{} case SomeStmt(s) => StmtSites(s)
  }

  function ListSites(list: Stmts): multiset<nat>
    decreases list, 0
  {
    match list case SNil => multiset{} case SCons(s, rest) => StmtSites(s) + ListSites(rest)
  }

  function StmtSites(s: Stmt): multiset<nat>
    decreases s, 0
  {
    match s
    case ExprStmt(x) => ExprSites(x)
    case Define(_, x) => ExprSites(x)
    case Assign(_, x) => ExprSites(x)
    case IncCounter(_) => multiset{}
    case SonarCall(x, y, id) => multiset{id / 256} + ExprSites(x) + ExprSites(y)
    case Return(x) => ExprSites(x)
    case Branch(_) => multiset{}
    case Block(body) => ListSites(body)
    case If(init, cond, thn, els) => OptSites(init) + ExprSites(cond) + ListSites(thn) + ElseSites(els)
    case For(init, test, post, body) => OptSites(init) + TestSites(test) + OptSites(post) + ListSites(body)
    case Switch(init, tag, clauses) => OptSites(init) + TestSites(tag) + ClausesSites(clauses)
  }

  function ElseSites(els: Else): multiset<nat>
    decreases els, 0
  {
    match els case NoElse => multiset{} case ElseIf(s) => StmtSites(s) case ElseBlock(b) => ListSites(b)
  }

  function ClausesSites(clauses: Clauses): multiset<nat>
    decreases clauses, 0
  {
    match clauses
    case CNil => multiset{}
    case CCons(c, rest) => ExprsSites(c.exprs) + ListSites(c.body) + ClausesSites(rest)
  }

  // ----- Constants report nothing ------------------------------------------------------

  lemma {:induction false} ConstSites(lang: Lang, e: Expr)
    requires IsConst(lang, e)
    ensures ExprSites(e) == multiset{}
  {
    match e
    case Lit(_) =>
    case Binary(_, x, y) =>
      ConstSites(lang, x);
      ConstSites(lang, y);
    case Not(x) => ConstSites(lang, x);
    case _ =>
  }

  lemma {:induction false} ProbeSites(op: CmpOp, x: Expr, y: Expr, const1: bool, const2: bool, site: nat)
    requires const1 ==> ExprSites(x) == multiset{}
    requires const2 ==> ExprSites(y) == multiset{}
    ensures ExprSites(Probe(op, x, y, const1, const2, site)) == multiset{site / 256} + ExprSites(x) + ExprSites(y)
  {
    var a, b := if const1 then x else Ident(Val1()), if const2 then y else Ident(Val2());
    var report := SCons(SonarCall(a, b, site), SCons(Return(Binary(Cmp(op), a, b)), SNil));
    ReportSites(op, a, b, site);
    var store2 := if const2 then report else SCons(Define(Val2(), y), report);
    StoreSites(Val2(), y, report);
    StoreSites(Val1(), x, store2);
    LiteralSites(if const1 then store2 else SCons(Define(Val1(), x), store2));
    hide ExprSites, ListSites;
  }

  lemma {:induction false} ReportSites(op: CmpOp, a: Expr, b: Expr, site: nat)
    requires a.Ident? || ExprSites(a) == multiset{}
    requires b.Ident? || ExprSites(b) == multiset{}
    ensures ListSites(SCons(SonarCall(a, b, site), SCons(Return(Binary(Cmp(op), a, b)), SNil))) == multiset{site / 256}
  {
    assert ExprSites(a) == ExprSites(b) == multiset{};
    var ret := Return(Binary(Cmp(op), a, b));
    assert StmtSites(ret) == ExprSites(a) + ExprSites(b);
    OneSites(ret);
    ConsSites(SonarCall(a, b, site), SCons(ret, SNil));
    assert StmtSites(SonarCall(a, b, site)) == multiset{site / 256} + ExprSites(a) + ExprSites(b);
  }

  lemma {:induction false} OneSites(s: Stmt)
    ensures ListSites(SCons(s, SNil)) == StmtSites(s)
  {
    hide StmtSites;
    assert ListSites(SNil) == multiset{};
  }

  lemma {:induction false} StoreSites(name: string, x: Expr, rest: Stmts)
    ensures ListSites(SCons(Define(name, x), rest)) == ExprSites(x) + ListSites(rest)
  {
    hide ExprSites;
  }

  lemma {:induction false} LiteralSites(body: Stmts)
    ensures ExprSites(FuncLitCall(body)) == ListSites(body)
  {
    hide ListSites;
  }

  /** A comparison: its own site and those of its operands. */
  lemma {:induction false} CompareSites(env: Env, path: Path, op: CmpOp, shape: Shape, x: Expr, y: Expr, x': Expr,
                                        y': Expr)
    requires IsConst(env.lang, x) ==> ExprSites(x') == multiset{}
    requires IsConst(env.lang, y) ==> ExprSites(y') == multiset{}
    ensures var here := SiteOf(env, path, op, shape, x, y, IsConst(env.lang, x)).Some?;
            ExprSites(Compare(env, path, op, shape, x, y, x', y', IsConst(env.lang, x))) ==
              (if here then multiset{env.seqNo(path)} else multiset{}) + ExprSites(x') + ExprSites(y')
  {
    hide ConstVal, Probe;
    var const1, const2 := IsConst(env.lang, x), IsConst(env.lang, y);
    match SiteOf(env, path, op, shape, x, y, const1)
    case None =>
    case Some(site) =>
      assert site / 256 == env.seqNo(path);
      ProbeSites(op, x', y', const1, const2, site);
      AgainstTrue(Probe(op, x', y', const1, const2, site));
  }

  lemma {:induction false} AgainstTrue(e: Expr)
    ensures ExprSites(Binary(Cmp(Eql), e, Lit(BoolV(true)))) == ExprSites(e)
  {
    assert ExprSites(Lit(BoolV(true))) == multiset{};
  }

  // ----- The pass ----------------------------------------------------------------------

  lemma {:induction false} ExprOwn(env: Env, path: Path, e: Expr)
    requires Injective(env.seqNo) && ExprSites(e) == multiset{}
    ensures OwnAll(env.seqNo, path, ExprSites(VisitExpr(env, path, e)))
    decreases e, 1
  {
    hide Own, OwnAll, Injective, Compare;
    match e
    case Lit(_) => Empty(env.seqNo, path);
    case Ident(_) => Empty(env.seqNo, path);
    case Binary(op, x, y) =>
      ExprOwn(env, path + [0], x);
      ExprOwn(env, path + [1], y);
      BinaryOwn(env, path, op, x, y);
    case Not(x) =>
      ExprOwn(env, path + [0], x);
      One(env.seqNo, path, false, ExprSites(VisitExpr(env, path + [0], x)));
    case Call(_, args) =>
      ExprsOwn(env, path + [0], args);
      One(env.seqNo, path, false, ExprsSites(VisitExprs(env, path + [0], args)));
    case FuncLitCall(body) =>
      ListOwn(env, path + [0], body);
      One(env.seqNo, path, false, ListSites(VisitList(env, path + [0], body)));
    case Watched(_, x, y, _) => Empty(env.seqNo, path);
    case WatchedCase(x, _) => Empty(env.seqNo, path);
  }

  lemma {:induction false} BinaryOwn(env: Env, path: Path, op: BinOp, x: Expr, y: Expr)
    requires Injective(env.seqNo)
    requires OwnAll(env.seqNo, path + [0], ExprSites(VisitExpr(env, path + [0], x)))
    requires OwnAll(env.seqNo, path + [1], ExprSites(VisitExpr(env, path + [1], y)))
    ensures OwnAll(env.seqNo, path, ExprSites(VisitExpr(env, path, Binary(op, x, y))))
  {
    hide Own, OwnAll, Injective, VisitExpr, ExprSites;
    var here := BinaryHere(env, path, op, x, y);
    Two(env.seqNo, path, here, ExprSites(VisitExpr(env, path + [0], x)), ExprSites(VisitExpr(env, path + [1], y)));
    BinarySites(env, path, op, x, y);
  }

  predicate BinaryHere(env: Env, path: Path, op: BinOp, x: Expr, y: Expr)
  {
    op.Cmp? && SiteOf(env, path, op.cmp, ShapeOf(x, y), x, y, IsConst(env.lang, x)).Some?
  }

  lemma {:induction false} BinarySites(env: Env, path: Path, op: BinOp, x: Expr, y: Expr)
    ensures ExprSites(VisitExpr(env, path, Binary(op, x, y))) ==
              (if BinaryHere(env, path, op, x, y) then multiset{env.seqNo(path)} else multiset{})
              + ExprSites(VisitExpr(env, path + [0], x)) + ExprSites(VisitExpr(env, path + [1], y))
  {
    hide Compare, SiteOf, ConstVal, ShapeOf;
    var x', y' := VisitExpr(env, path + [0], x), VisitExpr(env, path + [1], y);
    if op.Cmp? {
      Operand(env, path + [0], x);
      Operand(env, path + [1], y);
      CompareSites(env, path, op.cmp, ShapeOf(x, y), x, y, x', y');
    } else {
      assert VisitExpr(env, path, Binary(op, x, y)) == Binary(op, x', y');
    }
  }

  lemma {:induction false} Operand(env: Env, path: Path, x: Expr)
    ensures IsConst(env.lang, x) ==> ExprSites(VisitExpr(env, path, x)) == multiset{}
  {
    if IsConst(env.lang, x) {
      ConstUnchanged(env, path, x);
      ConstSites(env.lang, x);
    }
  }

  lemma {:induction false} ExprsOwn(env: Env, path: Path, es: Exprs)
    requires Injective(env.seqNo) && ExprsSites(es) == multiset{}
    ensures OwnAll(env.seqNo, path, ExprsSites(VisitExprs(env, path, es)))
    decreases es, 1
  {
    hide Own, OwnAll, Injective;
    match es
    case ENil => Empty(env.seqNo, path);
    case ECons(e, rest) =>
      ExprOwn(env, path + [0], e);
      ExprsOwn(env, path + [1], rest);
      Two(env.seqNo, path, false, ExprSites(VisitExpr(env, path + [0], e)),
        ExprsSites(VisitExprs(env, path + [1], rest)));
  }

  lemma {:induction false} ListOwn(env: Env, path: Path, list: Stmts)
    requires Injective(env.seqNo) && ListSites(list) == multiset{}
    ensures OwnAll(env.seqNo, path, ListSites(VisitList(env, path, list)))
    decreases list, 1
  {
    hide Own, OwnAll, Injective;
    match list
    case SNil => Empty(env.seqNo, path);
    case SCons(s, rest) =>
      StmtOwn(env, path + [0], s);
      ListOwn(env, path + [1], rest);
      Two(env.seqNo, path, false, StmtSites(VisitStmt(env, path + [0], s)),
        ListSites(VisitList(env, path + [1], rest)));
  }

  lemma {:induction false} OptOwn(env: Env, path: Path, s: OptStmt)
    requires Injective(env.seqNo) && OptSites(s) == multiset{}
    ensures OwnAll(env.seqNo, path, OptSites(VisitOpt(env, path, s)))
    decreases s, 1
  {
    hide Own, OwnAll, Injective;
    match s
    case NoStmt => Empty(env.seqNo, path);
    case SomeStmt(s) => StmtOwn(env, path, s);
  }

  lemma {:induction false} TestOwn(env: Env, path: Path, test: OptExpr)
    requires Injective(env.seqNo) && TestSites(test) == multiset{}
    ensures OwnAll(env.seqNo, path, TestSites(VisitTest(env, path, test)))
    decreases test, 1
  {
    hide Own, OwnAll, Injective;
    match test
    case NoExpr => Empty(env.seqNo, path);
    case SomeExpr(e) => ExprOwn(env, path, e);
  }

  lemma {:induction false} ElseOwn(env: Env, path: Path, els: Else)
    requires Injective(env.seqNo) && ElseSites(els) == multiset{}
    ensures OwnAll(env.seqNo, path, ElseSites(VisitElse(env, path, els)))
    decreases els, 1
  {
    hide Own, OwnAll, Injective;
    match els
    case NoElse => Empty(env.seqNo, path);
    case ElseIf(s) =>
      StmtOwn(env, path + [0], s);
      One(env.seqNo, path, false, StmtSites(VisitStmt(env, path + [0], s)));
    case ElseBlock(b) =>
      ListOwn(env, path + [0], b);
      One(env.seqNo, path, false, ListSites(VisitList(env, path + [0], b)));
  }

  lemma {:induction false} ClausesOwn(env: Env, path: Path, clauses: Clauses, tag: OptExpr)
    requires Injective(env.seqNo) && ClausesSites(clauses) == multiset{}
    ensures OwnAll(env.seqNo, path, ClausesSites(VisitClauses(env, path, clauses, tag)))
    decreases clauses, 1
  {
    hide Own, OwnAll, Injective;
    match clauses
    case CNil => Empty(env.seqNo, path);
    case CCons(c, rest) =>
      CasesOwn(env, path + [0], c.exprs, tag);
      ListOwn(env, path + [1], c.body);
      ClausesOwn(env, path + [2], rest, tag);
      Empty(env.seqNo, path + [3]);
      var a, b, d := ExprsSites(VisitCases(env, path + [0], c.exprs, tag)),
        ListSites(VisitList(env, path + [1], c.body)),
                     ClausesSites(VisitClauses(env, path + [2], rest, tag));
      Together(env.seqNo, path, false, a, b, d, multiset{});
      assert a + b + d + multiset{} == a + b + d;
  }

  lemma {:induction false} CasesOwn(env: Env, path: Path, es: Exprs, tag: OptExpr)
    requires Injective(env.seqNo) && ExprsSites(es) == multiset{}
    ensures OwnAll(env.seqNo, path, ExprsSites(VisitCases(env, path, es, tag)))
    decreases es, 1
  {
    hide Own, OwnAll, Injective, Compare;
    match es
    case ENil => Empty(env.seqNo, path);
    case ECons(e, rest) =>
      ExprOwn(env, path + [1], e);
      CasesOwn(env, path + [0], rest, tag);
      var e', rest' := ExprSites(VisitExpr(env, path + [1], e)), ExprsSites(VisitCases(env, path + [0], rest, tag));
      CaseSites(env, path, e, tag);
      var here := CaseHere(env, path, e, tag);
      Two(env.seqNo, path, here, rest', e');
      var h := if here then multiset{env.seqNo(path)} else multiset{};
      assert h + rest' + e' == h + e' + rest';
  }

  predicate CaseHere(env: Env, path: Path, e: Expr, tag: OptExpr)
  {
    tag.SomeExpr? && SiteOf(env, path, Eql, ShapeOf(Ident(Tmp()), e), tag.e, e, IsConst(env.lang, tag.e)).Some?
  }

  lemma {:induction false} CaseSites(env: Env, path: Path, e: Expr, tag: OptExpr)
    ensures ExprSites(CaseExpr(env, path, e, tag)) ==
              (if CaseHere(env, path, e, tag) then multiset{env.seqNo(path)} else multiset{})
              + ExprSites(VisitExpr(env, path + [1], e))
  {
    var e' := VisitExpr(env, path + [1], e);
    Operand(env, path + [1], e);
    assert ExprSites(Ident(Tmp())) == multiset{};
    if tag.SomeExpr? {
      CompareSites(env, path, Eql, ShapeOf(Ident(Tmp()), e), tag.e, e, Ident(Tmp()), e');
    }
  }

  lemma {:induction false} StmtOwn(env: Env, path: Path, s: Stmt)
    requires Injective(env.seqNo) && StmtSites(s) == multiset{}
    ensures OwnAll(env.seqNo, path, StmtSites(VisitStmt(env, path, s)))
    decreases s, 1
  {
    hide Own, OwnAll, Injective;
    match s
    case ExprStmt(x) => BelowExpr(env, path, x);
    case Define(_, x) => BelowExpr(env, path, x);
    case Assign(_, x) => BelowExpr(env, path, x);
    case Return(x) => BelowExpr(env, path, x);
    case IncCounter(_) => Empty(env.seqNo, path);
    case SonarCall(_, _, _) => assert false;
    case Branch(_) => Empty(env.seqNo, path);
    case Block(body) =>
      ListOwn(env, path + [0], body);
      One(env.seqNo, path, false, ListSites(VisitList(env, path + [0], body)));
    case If(_, _, _, _) => IfOwn(env, path, s);
    case For(_, _, _, _) => ForOwn(env, path, s);
    case Switch(_, _, _) => SwitchOwn(env, path, s);
  }

  lemma {:induction false} BelowExpr(env: Env, path: Path, x: Expr)
    requires Injective(env.seqNo) && ExprSites(x) == multiset{}
    ensures OwnAll(env.seqNo, path, ExprSites(VisitExpr(env, path + [0], x)))
    decreases x, 2
  {
    hide Own, OwnAll, Injective;
    ExprOwn(env, path + [0], x);
    One(env.seqNo, path, false, ExprSites(VisitExpr(env, path + [0], x)));
  }

  lemma {:induction false} IfOwn(env: Env, path: Path, s: Stmt)
    requires Injective(env.seqNo) && s.If? && StmtSites(s) == multiset{}
    ensures OwnAll(env.seqNo, path, StmtSites(VisitStmt(env, path, s)))
    decreases s, 0
  {
    hide Own, OwnAll, Injective;
    OptOwn(env, path + [0], s.init);
    ExprOwn(env, path + [1], s.cond);
    ListOwn(env, path + [2], s.thn);
    ElseOwn(env, path + [3], s.els);
    Together(env.seqNo, path, false, OptSites(VisitOpt(env, path + [0], s.init)),
             ExprSites(VisitExpr(env, path + [1], s.cond)), ListSites(VisitList(env, path + [2], s.thn)),
             ElseSites(VisitElse(env, path + [3], s.els)));
  }

  lemma {:induction false} ForOwn(env: Env, path: Path, s: Stmt)
    requires Injective(env.seqNo) && s.For? && StmtSites(s) == multiset{}
    ensures OwnAll(env.seqNo, path, StmtSites(VisitStmt(env, path, s)))
    decreases s, 0
  {
    hide Own, OwnAll, Injective;
    var inner := TestEnv(env, s.init, s.test);
    OptOwn(env, path + [0], s.init);
    TestOwn(inner, path + [1], s.test);
    OptOwn(env, path + [2], s.post);
    ListOwn(env, path + [3], s.body);
    Together(env.seqNo, path, false, OptSites(VisitOpt(env, path + [0], s.init)),
             TestSites(VisitTest(inner, path + [1], s.test)), OptSites(VisitOpt(env, path + [2], s.post)),
             ListSites(VisitList(env, path + [3], s.body)));
  }

  lemma {:induction false} SwitchOwn(env: Env, path: Path, s: Stmt)
    requires Injective(env.seqNo) && s.Switch? && StmtSites(s) == multiset{}
    ensures OwnAll(env.seqNo, path, StmtSites(VisitStmt(env, path, s)))
    decreases s, 0
  {
    hide Own, OwnAll, Injective;
    var low := if env.on && s.tag.SomeExpr? then s.tag else NoExpr;
    OptOwn(env, path + [0], s.init);
    TestOwn(env, path + [1], s.tag);
    ClausesOwn(env, path + [2], s.clauses, low);
    Empty(env.seqNo, path + [3]);
    var init', tag', clauses' := VisitOpt(env, path + [0], s.init), VisitTest(env, path + [1], s.tag),
                                 VisitClauses(env, path + [2], s.clauses, low);
    var a, b, c := OptSites(init'), TestSites(tag'), ClausesSites(clauses');
    Together(env.seqNo, path, false, a, b, c, multiset{});
    assert a + b + c + multiset{} == a + b + c;
    if low.SomeExpr? {
      LoweredSites(init', tag'.e, clauses');
    }
  }

  lemma {:induction false} LoweredSites(init: OptStmt, tag: Expr, clauses: Clauses)
    ensures StmtSites(Lowered(init, tag, clauses)) == OptSites(init) + ExprSites(tag) + ClausesSites(clauses)
  {
    var inner := Switch(NoStmt, NoExpr, clauses);
    InnerSites(clauses);
    OneSites(inner);
    var drop := Assign("_", Ident(Tmp()));
    assert StmtSites(drop) == ExprSites(Ident(Tmp())) == multiset{};
    var rest := SCons(drop, SCons(inner, SNil));
    ConsSites(drop, SCons(inner, SNil));
    StoreSites(Tmp(), tag, rest);
    var body := LoweredBody(init, tag, clauses);
    if init.SomeStmt? {
      ConsSites(init.s, SCons(Define(Tmp(), tag), rest));
    }
    assert ListSites(body) == OptSites(init) + ExprSites(tag) + ClausesSites(clauses);
    OuterSites(body);
  }

  lemma {:induction false} ConsSites(s: Stmt, rest: Stmts)
    ensures ListSites(SCons(s, rest)) == StmtSites(s) + ListSites(rest)
  {
    hide StmtSites;
  }

  lemma {:induction false} InnerSites(clauses: Clauses)
    ensures StmtSites(Switch(NoStmt, NoExpr, clauses)) == ClausesSites(clauses)
  {
    hide ClausesSites;
  }

  lemma {:induction false} OuterSites(body: Stmts)
    ensures StmtSites(Switch(NoStmt, NoExpr, CCons(Clause(true, ENil, body), CNil))) == ListSites(body)
  {
    hide ListSites;
    InnerSites(CCons(Clause(true, ENil, body), CNil));
    assert ExprsSites(ENil) == multiset{} && ClausesSites(CNil) == multiset{};
  }

  /** All reports of an instrumented program have different sites. */
  lemma SitesDiffer(env: Env, p: Program, a: string, b: string)
    requires Injective(env.seqNo) && RootsApart(env.root, p)
    requires forall name | name in p.funcs :: ListSites(p.funcs[name].body) == multiset{}
    requires a in p.funcs && b in p.funcs
    ensures var sites, others := ListSites(VisitProgram(env, p).funcs[a].body),
                                 ListSites(VisitProgram(env, p).funcs[b].body);
            && (forall n | n in sites :: sites[n] == 1)
            && (a != b ==> forall n :: !(n in sites && n in others))
  {
    hide ListSites, VisitList, RootsApart, Injective;
    var sites, others := ListSites(VisitProgram(env, p).funcs[a].body), ListSites(VisitProgram(env, p).funcs[b].body);
    ListOwn(env, env.root(a), p.funcs[a].body);
    ListOwn(env, env.root(b), p.funcs[b].body);
    if a != b {
      forall n ensures !(n in sites && n in others) {
        if n in sites && n in others {
          RootsClash(env.seqNo, env.root, p, a, b, n);
        }
      }
    }
  }
}
