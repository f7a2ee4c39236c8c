/**
  The sonar pass: every interesting comparison becomes a call of a function literal that stores the
  operands, reports them and compares the stored values, and every switch with a tag becomes a
  tagless switch over such comparisons. SonarMeaning and SonarNotes show that the rewritten program
  reports what it should, and behaves like the original one as long as no report faults.
*/
module SonarPass {
  import opened Arith
  import opened MiniGo
  import opened SonarFlags
  import opened Wrappers

  // The variables that the pass declares.
  function Tmp(): string { "__go_fuzz_tmp" }
  function Val1(): string { "__gofuzz_v1" }
  function Val2(): string { "__gofuzz_v2" }

  lemma DistinctNames()
    ensures Val1() != Val2() && Val1() != Tmp() && Val2() != Tmp()
    ensures Val1() != "_" && Val2() != "_" && Tmp() != "_"
  {
    assert Val1()[10] != Val2()[10];
    assert |Val1()| != |Tmp()| && |Val2()| != |Tmp()|;
    assert |Tmp()| > 1 && |Val1()| > 1 && |Val2()| > 1;
  }

  /**
    What the pass takes from the type checker and its own numbering: constant values (computed with
    the operators of the language), which operand types are worth reporting, and site numbers.
    Passing `on` as false leaves a subtree as it is.
  */
  datatype Env = Env(on: bool, lang: Lang, interesting: (Expr, Expr) -> bool, seqNo: Path -> nat, root: string -> Path)

  /** The value of a constant expression. */
  function ConstVal(lang: Lang, e: Expr): Option<Value>
  {
    match e
    case Lit(v) => Some(v)
    case Binary(op, x, y) =>
      var a, b := ConstVal(lang, x), ConstVal(lang, y);
      if a.None? || b.None? then None else ApplyOp(lang, op, a.value, b.value)
    case Not(x) =>
      var a := ConstVal(lang, x);
      if a.None? then None else Some(BoolV(!Truth(a.value)))
    case _ => None
  }

  predicate IsConst(lang: Lang, e: Expr)
  {
    ConstVal(lang, e).Some?
  }

  predicate IsLen(e: Expr)
  {
    e.Call? && e.fun == "len"
  }

  predicate IsCap(e: Expr)
  {
    e.Call? && e.fun == "cap"
  }

  /** Comparisons with a capacity are left alone, those with a length are flagged. */
  datatype Shape = Ordinary | Length | Capacity

  function ShapeOf(x: Expr, y: Expr): Shape
  {
    if IsCap(x) || IsCap(y) then Capacity else if IsLen(x) || IsLen(y) then Length else Ordinary
  }

  function OpFlag(op: CmpOp): nat
  {
    match op case Eql => 0 case Neq => 1 case Lss => 2 case Gtr => 3 case Leq => 4 case Geq => 5
  }

  function Flags(op: CmpOp, shape: Shape, const1: bool, const2: bool): nat
  {
    OpFlag(op) + (if shape.Length? then SONAR_LENGTH else 0)
    + (if const1 then SONAR_CONST1 else 0) + (if const2 then SONAR_CONST2 else 0)
  }

  /** The function literal that replaces a comparison; constant operands are not stored. */
  function Probe(op: CmpOp, x: Expr, y: Expr, const1: bool, const2: bool, site: nat): Expr
  {
    var a, b := if const1 then x else Ident(Val1()), if const2 then y else Ident(Val2());
    var report := SCons(SonarCall(a, b, site), SCons(Return(Binary(Cmp(op), a, b)), SNil));
    var store2 := if const2 then report else SCons(Define(Val2(), y), report);
    FuncLitCall(if const1 then store2 else SCons(Define(Val1(), x), store2))
  }

  /** The id of a comparison whose operands are reported. */
  function SiteOf(env: Env, path: Path, op: CmpOp, shape: Shape, x: Expr, y: Expr, const1: bool): Option<nat>
  {
    var const2 := IsConst(env.lang, y);
    if !env.on || shape.Capacity? || !env.interesting(x, y) || (const1 && const2) then None
    else Some(Flags(op, shape, const1, const2) + 256 * env.seqNo(path))
  }

  ghost predicate Calls(e: Expr, name: string)
  {
    exists args :: e == Call(name, args)
  }

  /** The six operator codes. */
  function Code(op: CmpOp): nat
  {
    match op case Eql => 0 case Neq => 1 case Lss => 2 case Gtr => 3 case Leq => 4 case Geq => 5
  }

  /**
    Exactly which comparisons get an id, and what its bits say: the operator, whether an operand is a
    length, which operands are constant; the type bits are left free, and above them is the site.
  */
  lemma SiteMeans(env: Env, path: Path, op: CmpOp, x: Expr, y: Expr, const1: bool)
    ensures var site := SiteOf(env, path, op, ShapeOf(x, y), x, y, const1);
            && (site.Some? <==> env.on && env.interesting(x, y) && !Calls(x, "cap") && !Calls(y, "cap")
                                && !(const1 && IsConst(env.lang, y)))
            && (site.Some? ==>
                  && site.value / 256 == env.seqNo(path) && site.value % 8 == Code(op)
                  && (site.value / 8 % 2 == 1 <==> Calls(x, "len") || Calls(y, "len"))
                  && site.value / 16 % 4 == 0
                  && (site.value / 64 % 2 == 1 <==> const1) && (site.value / 128 % 2 == 1 <==> IsConst(env.lang, y)))
  {
    CallsIs(x);
    CallsIs(y);
    hide ConstVal, IsConst, Calls, IsLen, IsCap;
    var site := SiteOf(env, path, op, ShapeOf(x, y), x, y, const1);
    if site.Some? {
      var len, c1, c2 := if ShapeOf(x, y).Length? then 1 else 0, if const1 then 1 else 0,
                         if IsConst(env.lang, y) then 1 else 0;
      assert site.value == 256 * env.seqNo(path) + 128 * c2 + 64 * c1 + 8 * len + Code(op);
      SiteBits(env.seqNo(path), c2, c1, len, Code(op));
    }
  }

  lemma CallsIs(e: Expr)
    ensures (IsLen(e) <==> Calls(e, "len")) && (IsCap(e) <==> Calls(e, "cap"))
  {
    if e.Call? {
      assert e == Call(e.fun, e.args);
    }
  }

  lemma SiteBits(seqNo: nat, c2: nat, c1: nat, len: nat, op: nat)
    requires c2 < 2 && c1 < 2 && len < 2 && op < 8
    ensures var id := 256 * seqNo + 128 * c2 + 64 * c1 + 8 * len + op;
            && id / 256 == seqNo && id % 8 == op && id / 8 % 2 == len && id / 16 % 4 == 0
            && id / 64 % 2 == c1 && id / 128 % 2 == c2
  {
    var id := 256 * seqNo + 128 * c2 + 64 * c1 + 8 * len + op;
    var low := 8 * len + op;
    DivModUnique(id, 256, seqNo, 128 * c2 + 64 * c1 + low);
    DivModUnique(id, 128, 2 * seqNo + c2, 64 * c1 + low);
    DivModUnique(id, 64, 4 * seqNo + 2 * c2 + c1, low);
    DivModUnique(id, 16, 16 * seqNo + 8 * c2 + 4 * c1, low);
    DivModUnique(id, 8, 32 * seqNo + 16 * c2 + 8 * c1 + len, op);
    DivModUnique(16 * seqNo + 8 * c2 + 4 * c1, 4, 4 * seqNo + 2 * c2 + c1, 0);
    DivModUnique(2 * seqNo + c2, 2, seqNo, c2);
    DivModUnique(4 * seqNo + 2 * c2 + c1, 2, 2 * seqNo + c2, c1);
    DivModUnique(32 * seqNo + 16 * c2 + 8 * c1 + len, 2, 16 * seqNo + 8 * c2 + 4 * c1, len);
  }

  /** A comparison with visited operands x' and y'. Its new form compares the probe with true. */
  function Compare(env: Env, path: Path, op: CmpOp, shape: Shape, x: Expr, y: Expr, x': Expr, y': Expr,
                   const1: bool): Expr
  {
    match SiteOf(env, path, op, shape, x, y, const1)
    case None => Binary(Cmp(op), x', y')
    case Some(site) =>
      Binary(Cmp(Eql), Probe(op, x', y', const1, IsConst(env.lang, y), site), Lit(BoolV(true)))
  }

  // ----- The pass ----------------------------------------------------------------------

  function VisitExpr(env: Env, path: Path, e: Expr): (res: Expr)
    ensures !env.on ==> res == e
    decreases e, 0
  {
    match e
    case Lit(_) => e
    case Ident(_) => e
    case Binary(op, x, y) =>
      var x', y' := VisitExpr(env, path + [0], x), VisitExpr(env, path + [1], y);
      if op.Cmp? then Compare(env, path, op.cmp, ShapeOf(x, y), x, y, x', y', IsConst(env.lang, x))
      else Binary(op, x', y')
    case Not(x) => Not(VisitExpr(env, path + [0], x))
    case Call(fun, args) => Call(fun, VisitExprs(env, path + [0], args))
    case FuncLitCall(body) => FuncLitCall(VisitList(env, path + [0], body))
    case Watched(_, _, _, _) => e
    case WatchedCase(_, _) => e
  }

  function VisitExprs(env: Env, path: Path, es: Exprs): (res: Exprs)
    ensures !env.on ==> res == es
    decreases es, 0
  {
    match es
    case ENil => ENil
    case ECons(e, rest) => ECons(VisitExpr(env, path + [0], e), VisitExprs(env, path + [1], rest))
  }

  function VisitTest(env: Env, path: Path, test: OptExpr): (res: OptExpr)
    ensures !env.on ==> res == test
    decreases test, 0
  {
    match test case NoExpr => NoExpr case SomeExpr(e) => SomeExpr(VisitExpr(env, path, e))
  }

  function VisitOpt(env: Env, path: Path, s: OptStmt): (res: OptStmt)
    ensures !env.on ==> res == s
    decreases s, 0
  {
    match s case NoStmt => NoStmt case SomeStmt(s) => SomeStmt(VisitStmt(env, path, s))
  }

  function VisitList(env: Env, path: Path, list: Stmts): (res: Stmts)
    ensures !env.on ==> res == list
    decreases list, 0
  {
    match list
    case SNil => SNil
    case SCons(s, rest) => SCons(VisitStmt(env, path + [0], s), VisitList(env, path + [1], rest))
  }

  /** The condition of a loop over a variable declared by its init statement is left alone. */
  predicate Boring(init: OptStmt, test: OptExpr)
  {
    init.SomeStmt? && init.s.Define? && test.SomeExpr? && test.e.Binary?
    && (test.e.x == Ident(init.s.name) || test.e.y == Ident(init.s.name))
  }

  /** That is: for name := ...; with name as an operand of the condition; ... */
  lemma BoringMeans(init: OptStmt, test: OptExpr)
    ensures Boring(init, test) <==>
            exists name, x, op, a, b :: init == SomeStmt(Define(name, x)) && test == SomeExpr(Binary(op, a, b))
                                        && Ident(name) in [a, b]
  {
    if Boring(init, test) {
      var name, x, op, a, b := init.s.name, init.s.x, test.e.op, test.e.x, test.e.y;
      assert init == SomeStmt(Define(name, x)) && test == SomeExpr(Binary(op, a, b)) && Ident(name) in [a, b];
    }
  }

  /** The condition of such a loop, and only of such a loop, is left as it is. */
  lemma LoopTests(env: Env, path: Path, loop: Stmt)
    requires loop.For?
    ensures var after := VisitStmt(env, path, loop);
            && after.For?
            && after.test ==
                 if exists name, x, op, a, b :: loop.init == SomeStmt(Define(name, x))
                                                && loop.test == SomeExpr(Binary(op, a, b)) && Ident(name) in [a, b]
                 then loop.test else VisitTest(env, path + [1], loop.test)
  {
    BoringMeans(loop.init, loop.test);
  }

  function VisitStmt(env: Env, path: Path, s: Stmt): (res: Stmt)
    ensures !env.on ==> res == s
    decreases s, 1
  {
    match s
    case ExprStmt(x) => ExprStmt(VisitExpr(env, path + [0], x))
    case Define(name, x) => Define(name, VisitExpr(env, path + [0], x))
    case Assign(name, x) => Assign(name, VisitExpr(env, path + [0], x))
    case IncCounter(_) => s
    case SonarCall(x, y, site) => SonarCall(VisitExpr(env, path + [0], x), VisitExpr(env, path + [1], y), site)
    case Return(x) => Return(VisitExpr(env, path + [0], x))
    case Branch(_) => s
    case Block(body) => Block(VisitList(env, path + [0], body))
    case If(init, cond, thn, els) =>
      If(VisitOpt(env, path + [0], init), VisitExpr(env, path + [1], cond),
         VisitList(env, path + [2], thn), VisitElse(env, path + [3], els))
    case For(init, test, post, body) =>
      For(VisitOpt(env, path + [0], init), VisitTest(TestEnv(env, init, test), path + [1], test),
          VisitOpt(env, path + [2], post), VisitList(env, path + [3], body))
    case Switch(init, tag, clauses) =>
      var init', tag' := VisitOpt(env, path + [0], init), VisitTest(env, path + [1], tag);
      if env.on && tag.SomeExpr? then Lowered(init', tag'.e, VisitClauses(env, path + [2], clauses, tag))
      else Switch(init', tag', VisitClauses(env, path + [2], clauses, NoExpr))
  }

  function TestEnv(env: Env, init: OptStmt, test: OptExpr): Env
  {
    env.(on := env.on && !Boring(init, test))
  }

  /** switch { default: init; tmp := tag; _ = tmp; switch { clauses } } */
  function Lowered(init: OptStmt, tag: Expr, clauses: Clauses): Stmt
  {
    Switch(NoStmt, NoExpr, CCons(Clause(true, ENil, LoweredBody(init, tag, clauses)), CNil))
  }

  function LoweredBody(init: OptStmt, tag: Expr, clauses: Clauses): Stmts
  {
    var rest :=
      SCons(Define(Tmp(), tag), SCons(Assign("_", Ident(Tmp())), SCons(Switch(NoStmt, NoExpr, clauses), SNil)));
    if init.NoStmt? then rest else SCons(init.s, rest)
  }

  function VisitElse(env: Env, path: Path, els: Else): (res: Else)
    ensures !env.on ==> res == els
    decreases els, 0
  {
    match els
    case NoElse => NoElse
    case ElseIf(s) => ElseIf(VisitStmt(env, path + [0], s))
    case ElseBlock(b) => ElseBlock(VisitList(env, path + [0], b))
  }

  /** The clauses of a switch; with a tag, their expressions become comparisons with the stored tag. */
  function VisitClauses(env: Env, path: Path, clauses: Clauses, tag: OptExpr): (res: Clauses)
    ensures !env.on && tag.NoExpr? ==> res == clauses
    decreases clauses, 0
  {
    match clauses
    case CNil => CNil
    case CCons(c, rest) =>
      CCons(Clause(c.isDefault, VisitCases(env, path + [0], c.exprs, tag), VisitList(env, path + [1], c.body)),
            VisitClauses(env, path + [2], rest, tag))
  }

  function VisitCases(env: Env, path: Path, es: Exprs, tag: OptExpr): (res: Exprs)
    ensures !env.on && tag.NoExpr? ==> res == es
    decreases es, 0
  {
    match es
    case ENil => ENil
    case ECons(e, rest) => ECons(CaseExpr(env, path, e, tag), VisitCases(env, path + [0], rest, tag))
  }

  function CaseExpr(env: Env, path: Path, e: Expr, tag: OptExpr): (res: Expr)
    ensures !env.on && tag.NoExpr? ==> res == e
    decreases e, 1
  {
    var e' := VisitExpr(env, path + [1], e);
    if tag.NoExpr? then e'
    else Compare(env, path, Eql, ShapeOf(Ident(Tmp()), e), tag.e, e, Ident(Tmp()), e', IsConst(env.lang, tag.e))
  }

  function VisitProgram(env: Env, p: Program): Program
  {
    Program(p.lang, map name | name in p.funcs ::
      Func(p.funcs[name].params, VisitList(env, env.root(name), p.funcs[name].body)))
  }

  // ----- The programs it is applied to -------------------------------------------------

  predicate Reserved(name: string)
  {
    name == Tmp() || name == Val1() || name == Val2()
  }

  /** Neither comparisons nor function literals. */
  predicate NoComparison(e: Expr)
  {
    match e
    case Lit(_) => true
    case Ident(_) => true
    case Binary(op, x, y) => !op.Cmp? && NoComparison(x) && NoComparison(y)
    case Not(x) => NoComparison(x)
    case Call(_, args) => NoComparisons(args)
    case _ => false
  }

  predicate NoComparisons(es: Exprs)
  {
    es.ECons? ==> NoComparison(es.head) && NoComparisons(es.tail)
  }

  /**
    The code visits the operands of a comparison with a capacity twice, VisitExpr once; without
    comparisons in them nothing happens either time.
  */
  lemma {:induction false} NothingToVisit(env: Env, path: Path, e: Expr)
    requires NoComparison(e)
    ensures VisitExpr(env, path, e) == e
    decreases e, 0
  {
    match e
    case Lit(_) =>
    case Ident(_) =>
    case Binary(_, x, y) =>
      NothingToVisit(env, path + [0], x);
      NothingToVisit(env, path + [1], y);
    case Not(x) => NothingToVisit(env, path + [0], x);
    case Call(_, args) => NothingInArgs(env, path + [0], args);
  }

  lemma {:induction false} NothingInArgs(env: Env, path: Path, es: Exprs)
    requires NoComparisons(es)
    ensures VisitExprs(env, path, es) == es
    decreases es, 0
  {
    if es.ECons? {
      NothingToVisit(env, path + [0], es.head);
      NothingInArgs(env, path + [1], es.tail);
    }
  }

  predicate PlainExpr(e: Expr)
    decreases e, 0
  {
    match e
    case Lit(_) => true
    case Ident(name) => !Reserved(name)
    case Binary(_, x, y) => PlainExpr(x) && PlainExpr(y)
    case Not(x) => PlainExpr(x)
    case Call(_, args) => PlainExprs(args)
    case FuncLitCall(body) => PlainList(body)
    case Watched(_, _, _, _) => false
    case WatchedCase(_, _) => false
  }

  predicate PlainExprs(es: Exprs)
    decreases es, 0
  {
    es.ECons? ==> PlainExpr(es.head) && PlainExprs(es.tail)
  }

  predicate PlainTest(test: OptExpr)
    decreases test, 0
  {
    test.SomeExpr? ==> PlainExpr(test.e)
  }

  predicate PlainOpt(s: OptStmt)
    decreases s, 0
  {
    s.SomeStmt? ==> PlainStmt(s.s)
  }

  predicate PlainList(list: Stmts)
    decreases list, 0
  {
    list.SCons? ==> PlainStmt(list.head) && PlainList(list.tail)
  }

  /** The names of the pass and its reports do not occur, and the init statement of a switch is a simple statement. */
  predicate PlainStmt(s: Stmt)
    decreases s, 1
  {
    match s
    case ExprStmt(x) => PlainExpr(x)
    case Define(name, x) => !Reserved(name) && PlainExpr(x)
    case Assign(name, x) => !Reserved(name) && PlainExpr(x)
    case IncCounter(_) => true
    case SonarCall(_, _, _) => false
    case Return(x) => PlainExpr(x)
    case Branch(_) => true
    case Block(body) => PlainList(body)
    case If(init, cond, thn, els) => PlainOpt(init) && PlainExpr(cond) && PlainList(thn) && PlainElse(els)
    case For(init, test, post, body) => PlainOpt(init) && PlainTest(test) && PlainOpt(post) && PlainList(body)
    case Switch(init, tag, clauses) => PlainOpt(init) && Simple(init) && PlainTest(tag) && PlainClauses(clauses)
  }

  predicate Simple(s: OptStmt)
  {
    s.SomeStmt? ==> s.s.ExprStmt? || s.s.Define? || s.s.Assign? || s.s.IncCounter?
  }

  predicate PlainElse(els: Else)
    decreases els, 0
  {
    match els case NoElse => true case ElseIf(s) => PlainStmt(s) case ElseBlock(b) => PlainList(b)
  }

  predicate PlainClauses(clauses: Clauses)
    decreases clauses, 0
  {
    clauses.CCons? ==> PlainExprs(clauses.head.exprs) && PlainList(clauses.head.body) && PlainClauses(clauses.tail)
  }

  predicate PlainFunc(f: Func)
  {
    PlainList(f.body) && forall i | 0 <= i < |f.params| :: !Reserved(f.params[i])
  }

  predicate PlainProgram(p: Program)
  {
    forall name | name in p.funcs :: PlainFunc(p.funcs[name])
  }
}
