/**
  Where the coverage pass puts its counters in a statement list: before the first statement, and
  after each one that interrupts the flow of control, unless there is no source between the two.
*/
module CounterPlaces {
  import opened CoverPass
  import opened MiniGo

  // ----- The statements that interrupt a list ------------------------------------------

  ghost predicate HoldsLiteral(e: Expr)
  {
    exists p :: p in Parts(e) && p.FuncLitCall?
  }

  /** The expressions that a simple statement evaluates. */
  function Operands(s: Stmt): seq<Expr>
  {
    match s
    case ExprStmt(x) => [x]
    case Define(_, x) => [x]
    case Assign(_, x) => [x]
    case Return(x) => [x]
    case SonarCall(x, y, _) => [x, y]
    case _ => []
  }

  ghost predicate IsPanic(s: Stmt)
  {
    exists x :: s == ExprStmt(Call("panic", ECons(x, ENil)))
  }

  /** Control flow, a call of panic with one argument, or a function literal inside. */
  ghost predicate Interrupts(s: Stmt)
  {
    || s.Block? || s.Branch? || s.If? || s.For? || s.Switch? || IsPanic(s)
    || exists x :: x in Operands(s) && HoldsLiteral(x)
  }

  lemma {:induction false} LiteralHeld(e: Expr)
    ensures HasFuncLit(e) <==> HoldsLiteral(e)
    decreases e
  {
    assert e in Parts(e);
    match e
    case Binary(_, x, y) =>
      LiteralHeld(x);
      LiteralHeld(y);
    case Not(x) => LiteralHeld(x);
    case Call(_, args) => LiteralsHeld(args);
    case Watched(_, x, y, _) =>
      LiteralHeld(x);
      LiteralHeld(y);
    case WatchedCase(x, _) => LiteralHeld(x);
    case _ =>
  }

  lemma {:induction false} LiteralsHeld(es: Exprs)
    ensures HasFuncLits(es) <==> exists p :: p in PartsOf(es) && p.FuncLitCall?
    decreases es
  {
    if es.ECons? {
      LiteralHeld(es.head);
      LiteralsHeld(es.tail);
    }
  }

  /** A basic block ends at exactly these statements. */
  lemma EndsExactly(s: Stmt)
    ensures EndsBlock(s) <==> Interrupts(s)
  {
    hide HasFuncLit, HoldsLiteral;
    forall x | x in Operands(s) ensures HasFuncLit(x) <==> HoldsLiteral(x) {
      LiteralHeld(x);
    }
    match s
    case ExprStmt(x) =>
      assert x in Operands(s);
      if x.Call? && x.fun == "panic" && x.args.ECons? && x.args.tail.ENil? {
        assert s == ExprStmt(Call("panic", ECons(x.args.head, ENil)));
      }
    case Define(_, x) => assert x in Operands(s);
    case Assign(_, x) => assert x in Operands(s);
    case Return(x) => assert x in Operands(s);
    case SonarCall(x, y, _) => assert x in Operands(s) && y in Operands(s);
    case _ =>
  }

  // ----- The places --------------------------------------------------------------------

  function ToSeq(list: Stmts): seq<Stmt>
  {
    if list.SNil? then [] else [list.head] + ToSeq(list.tail)
  }

  /** The path of the j-th statement of a list. */
  function PathAt(path: Path, j: nat): Path
  {
    path + seq(j, _ => 1)
  }

  /** A counter stands before statement j if a basic block with some source starts there. */
  ghost predicate HasCounter(env: Env, path: Path, list: seq<Stmt>, j: nat)
    requires j < |list|
  {
    (j == 0 || Interrupts(list[j - 1])) && !env.abuts(PathAt(path, j))
  }

  /** The statements from number j on with their counters. */
  ghost function PlacedFrom(env: Env, path: Path, list: seq<Stmt>, j: nat): seq<Stmt>
    requires j <= |list|
    decreases |list| - j
  {
    if j == |list| then []
    else (if HasCounter(env, path, list, j) then [Counter(env, PathAt(path, j))] else [])
         + [list[j]] + PlacedFrom(env, path, list, j + 1)
  }

  /** An empty list gets a counter, too. */
  ghost function Placed(env: Env, path: Path, list: seq<Stmt>): seq<Stmt>
  {
    if list == [] then [Counter(env, path)] else PlacedFrom(env, path, list, 0)
  }

  lemma {:induction false} PlacesFrom(env: Env, path: Path, list: Stmts, starts: bool, all: seq<Stmt>, j: nat)
    requires j <= |all| && ToSeq(list) == all[j..]
    requires j < |all| ==> (starts <==> j == 0 || Interrupts(all[j - 1]))
    ensures ToSeq(CountersOf(env, PathAt(path, j), list, starts)) == PlacedFrom(env, path, all, j)
    decreases list
  {
    hide EndsBlock, Interrupts;
    if list.SCons? {
      assert all[j] == list.head && all[j + 1..] == ToSeq(list.tail);
      EndsExactly(list.head);
      assert PathAt(path, j) + [1] == PathAt(path, j + 1);
      PlacesFrom(env, path, list.tail, EndsBlock(list.head), all, j + 1);
    }
  }

  /** The counters of a list stand in exactly these places. */
  lemma {:induction false} PlacesOf(env: Env, path: Path, list: Stmts)
    ensures ToSeq(AddCounters(env, path, list)) == Placed(env, path, ToSeq(list))
  {
    assert PathAt(path, 0) == path;
    PlacesFrom(env, path, list, true, ToSeq(list), 0);
    assert ToSeq(SCons(Counter(env, path), SNil)) == [Counter(env, path)];
  }

  lemma {:induction false} ToFrom(list: Stmts)
    ensures FromSeq(ToSeq(list)) == list
  {
    if list.SCons? {
      assert ToSeq(list)[1..] == ToSeq(list.tail);
      ToFrom(list.tail);
    }
  }

  lemma {:induction false} FromTo(list: seq<Stmt>)
    ensures ToSeq(FromSeq(list)) == list
  {
    if list != [] {
      FromTo(list[1..]);
    }
  }

  /** No superfluous counters: one that is not the first directly follows a statement that interrupts the list. */
  lemma CounterFollows(env: Env, path: Path, list: seq<Stmt>, k: nat)
    requires forall j | 0 <= j < |list| :: !list[j].IncCounter?
    requires 0 < k < |Placed(env, path, list)| && Placed(env, path, list)[k].IncCounter?
    ensures Interrupts(Placed(env, path, list)[k - 1])
  {
    FollowsFrom(env, path, list, 0, k);
  }

  lemma {:induction false} FollowsFrom(env: Env, path: Path, list: seq<Stmt>, j: nat, k: nat)
    requires forall i | 0 <= i < |list| :: !list[i].IncCounter?
    requires j <= |list| && k < |PlacedFrom(env, path, list, j)| && PlacedFrom(env, path, list, j)[k].IncCounter?
    ensures if k == 0 then j < |list| && HasCounter(env, path, list, j)
            else Interrupts(PlacedFrom(env, path, list, j)[k - 1])
    decreases |list| - j
  {
    hide Interrupts;
    if j < |list| {
      var n := if HasCounter(env, path, list, j) then 2 else 1;
      if k >= n {
        FollowsFrom(env, path, list, j + 1, k - n);
      }
    }
  }

  /** A list that nothing interrupts before its last statement gets one counter, in front, or none. */
  lemma StraightList(env: Env, path: Path, list: seq<Stmt>)
    requires list != [] && forall j | 0 <= j < |list| - 1 :: !Interrupts(list[j])
    ensures Placed(env, path, list) == if env.abuts(path) then list else [Counter(env, path)] + list
  {
    StraightFrom(env, path, list, 1);
    assert PathAt(path, 0) == path;
    assert [list[0]] + list[1..] == list;
  }

  lemma {:induction false} StraightFrom(env: Env, path: Path, list: seq<Stmt>, j: nat)
    requires 0 < j <= |list| && forall i | 0 <= i < |list| - 1 :: !Interrupts(list[i])
    ensures PlacedFrom(env, path, list, j) == list[j..]
    decreases |list| - j
  {
    hide Interrupts;
    if j < |list| {
      StraightFrom(env, path, list, j + 1);
    }
  }

  // ----- Everything that can be taken has its counter ----------------------------------

  /** The right operand of && and || is a block of its own, with a counter in front. */
  predicate CountedExpr(e: Expr)
    decreases e, 0
  {
    match e
    case Binary(op, x, y) =>
      CountedExpr(x) && CountedExpr(y) && (op.LAnd? || op.LOr? ==> y.FuncLitCall?)
    case Not(x) => CountedExpr(x)
    case Call(_, args) => CountedExprs(args)
    case FuncLitCall(body) => CountedBlock(body)
    case Watched(_, x, y, _) => CountedExpr(x) && CountedExpr(y)
    case WatchedCase(x, _) => CountedExpr(x)
    case _ => true
  }

  predicate CountedExprs(es: Exprs)
    decreases es, 0
  {
    es.ECons? ==> CountedExpr(es.head) && CountedExprs(es.tail)
  }

  /** A block begins with a counter, and so does what follows a control statement in it. */
  predicate CountedBlock(list: Stmts)
    decreases list, 1
  {
    list.SCons? && list.head.IncCounter? && CountedList(list)
  }

  predicate CountedList(list: Stmts)
    decreases list, 0
  {
    list.SCons? ==>
      && CountedStmt(list.head) && CountedList(list.tail)
      && (IsControl(list.head) && list.tail.SCons? ==> list.tail.head.IncCounter?)
  }

  predicate IsControl(s: Stmt)
  {
    s.Block? || s.Branch? || s.If? || s.For? || s.Switch?
  }

  /** Both ways of an if, the body of a loop, and every clause of a switch with one of them the default. */
  predicate CountedStmt(s: Stmt)
    decreases s, 1
  {
    match s
    case ExprStmt(x) => CountedExpr(x)
    case Define(_, x) => CountedExpr(x)
    case Assign(_, x) => CountedExpr(x)
    case Return(x) => CountedExpr(x)
    case SonarCall(x, y, _) => CountedExpr(x) && CountedExpr(y)
    case IncCounter(_) => true
    case Branch(_) => true
    case Block(body) => CountedBlock(body)
    case If(init, cond, thn, els) =>
      CountedOpt(init) && CountedExpr(cond) && CountedBlock(thn) && els.ElseBlock? && CountedBlock(els.block)
    case For(init, test, post, body) =>
      CountedOpt(init) && CountedTest(test) && CountedOpt(post) && CountedBlock(body)
    case Switch(init, tag, clauses) =>
      CountedOpt(init) && CountedTest(tag) && CountedClauses(clauses) && DefaultIndex(clauses).Some?
  }

  predicate CountedOpt(s: OptStmt)
    decreases s, 0
  {
    s.SomeStmt? ==> CountedStmt(s.s)
  }

  predicate CountedTest(test: OptExpr)
    decreases test, 0
  {
    test.SomeExpr? ==> CountedExpr(test.e)
  }

  predicate CountedClauses(clauses: Clauses)
    decreases clauses, 0
  {
    clauses.CCons? ==>
      CountedExprs(clauses.head.exprs) && CountedBlock(clauses.head.body) && CountedClauses(clauses.tail)
  }

  /** The pass is on, and there is some source everywhere. */
  ghost predicate Everywhere(env: Env)
  {
    env.on && forall path :: !env.abuts(path)
  }

  lemma {:induction false} ExprCounted(env: Env, path: Path, e: Expr)
    requires Everywhere(env)
    ensures CountedExpr(VisitExpr(env, path, e))
    decreases e, 1
  {
    match e
    case Binary(op, x, y) =>
      ExprCounted(env, path + [0], x);
      ExprCounted(env, path + [1], y);
      if op.LAnd? || op.LOr? {
        ClosureCounted(env, path, VisitExpr(env, path + [1], y));
      }
    case Not(x) => ExprCounted(env, path + [0], x);
    case Call(_, args) => ExprsCounted(env, path + [0], args);
    case FuncLitCall(body) => BlockCounted(env, path + [0], body);
    case Watched(_, x, y, _) =>
      ExprCounted(env, path + [0], x);
      ExprCounted(env, path + [1], y);
    case WatchedCase(x, _) => ExprCounted(env, path + [0], x);
    case _ =>
  }

  lemma {:induction false} ClosureCounted(env: Env, path: Path, y: Expr)
    requires Everywhere(env) && CountedExpr(y)
    ensures CountedBlock(WithCounter(env, path, SCons(Return(y), SNil)))
  {
    assert CountedStmt(Return(y));
    OneCounted(env, path, Return(y));
  }

  /** A counter alone, and one statement behind a counter. */
  lemma {:induction false} OneCounted(env: Env, path: Path, s: Stmt)
    requires CountedStmt(s)
    ensures CountedBlock(SCons(Counter(env, path), SNil))
    ensures CountedBlock(SCons(Counter(env, path), SCons(s, SNil)))
  {
    assert CountedList(SNil);
    assert CountedList(SCons(s, SNil)) && CountedStmt(Counter(env, path));
    assert CountedList(SCons(Counter(env, path), SNil));
    assert CountedList(SCons(Counter(env, path), SCons(s, SNil)));
  }

  lemma {:induction false} ExprsCounted(env: Env, path: Path, es: Exprs)
    requires Everywhere(env)
    ensures CountedExprs(VisitExprs(env, path, es))
    decreases es, 1
  {
    if es.ECons? {
      ExprCounted(env, path + [0], es.head);
      ExprsCounted(env, path + [1], es.tail);
    }
  }

  lemma {:induction false} BlockCounted(env: Env, path: Path, list: Stmts)
    requires Everywhere(env)
    ensures CountedBlock(VisitBlock(env, path, list))
    decreases list, 2
  {
    if list.SNil? {
      OneCounted(env, path, Counter(env, path));
    } else {
      ListCounted(env, path, list, true);
    }
  }

  lemma {:induction false} ListCounted(env: Env, path: Path, list: Stmts, starts: bool)
    requires Everywhere(env)
    ensures CountedList(VisitList(env, path, list, starts))
    ensures starts && list.SCons? ==> VisitList(env, path, list, starts).head.IncCounter?
    decreases list, 1
  {
    if list.SCons? {
      var s', rest := VisitStmt(env, path + [0], list.head),
        VisitList(env, path + [1], list.tail, EndsBlock(list.head));
      StmtCounted(env, path + [0], list.head);
      ListCounted(env, path + [1], list.tail, EndsBlock(list.head));
      assert CountedList(SCons(s', rest));
    }
  }

  lemma {:induction false} StmtCounted(env: Env, path: Path, s: Stmt)
    requires Everywhere(env)
    ensures CountedStmt(VisitStmt(env, path, s))
    ensures IsControl(VisitStmt(env, path, s)) <==> IsControl(s)
    decreases s, 1
  {
    match s
    case ExprStmt(x) => ExprCounted(env, path + [0], x);
    case Define(_, x) => ExprCounted(env, path + [0], x);
    case Assign(_, x) => ExprCounted(env, path + [0], x);
    case Return(x) => ExprCounted(env, path + [0], x);
    case SonarCall(x, y, _) =>
      ExprCounted(env, path + [0], x);
      ExprCounted(env, path + [1], y);
    case IncCounter(_) =>
    case Branch(_) =>
    case Block(body) => BlockCounted(env, path + [0], body);
    case If(init, cond, thn, els) =>
      OptCounted(env, path + [0], init);
      ExprCounted(env, path + [1], cond);
      BlockCounted(env, path + [2], thn);
      ElseCounted(env, path + [3], els);
    case For(init, test, post, body) =>
      OptCounted(env, path + [0], init);
      TestCounted(env, path + [1], test);
      OptCounted(env, path + [2], post);
      BlockCounted(env, path + [3], body);
    case Switch(init, tag, clauses) =>
      OptCounted(env, path + [0], init);
      TestCounted(env, path + [1], tag);
      ClausesCounted(env, path + [2], clauses, DefaultIndex(clauses).Some?);
  }

  lemma {:induction false} OptCounted(env: Env, path: Path, s: OptStmt)
    requires Everywhere(env)
    ensures CountedOpt(VisitOpt(env, path, s))
    decreases s, 1
  {
    if s.SomeStmt? {
      StmtCounted(env, path, s.s);
    }
  }

  lemma {:induction false} TestCounted(env: Env, path: Path, test: OptExpr)
    requires Everywhere(env)
    ensures CountedTest(VisitTest(env, path, test))
    decreases test, 1
  {
    if test.SomeExpr? {
      ExprCounted(env, path, test.e);
    }
  }

  lemma {:induction false} ElseCounted(env: Env, path: Path, els: Else)
    requires Everywhere(env)
    ensures var els' := VisitElse(env, path, els); els'.ElseBlock? && CountedBlock(els'.block)
    decreases els, 1
  {
    match els
    case NoElse => OneCounted(env, path, Counter(env, path));
    case ElseIf(s) =>
      StmtCounted(env, path + [0], s);
      OneCounted(env, path, VisitStmt(env, path + [0], s));
    case ElseBlock(b) => BlockCounted(env, path + [0], b);
  }

  lemma {:induction false} ClausesCounted(env: Env, path: Path, clauses: Clauses, hasDefault: bool)
    requires Everywhere(env)
    ensures CountedClauses(VisitClauses(env, path, clauses, hasDefault))
    ensures hasDefault == DefaultIndex(clauses).Some? || !hasDefault ==>
              DefaultIndex(VisitClauses(env, path, clauses, hasDefault)).Some?
    decreases clauses, 1
  {
    match clauses
    case CNil =>
      OneCounted(env, path, Counter(env, path));
      assert CountedClauses(CNil) && CountedExprs(ENil);
    case CCons(c, rest) =>
      ExprsCounted(env, path + [0], c.exprs);
      BlockCounted(env, path + [1], c.body);
      ClausesCounted(env, path + [2], rest, hasDefault);
  }

  /**
    Where there is some source everywhere, each function but init comes out with a counter for each way
    that control can take; init is left alone.
  */
  lemma EveryWayCounted(env: Env, p: Program, name: string)
    requires Everywhere(env) && name in p.funcs
    ensures var body, body' := p.funcs[name].body, VisitProgram(env, p).funcs[name].body;
            if name == "init" then body' == body else CountedBlock(body')
  {
    if name != "init" {
      BlockCounted(env, env.root(name), p.funcs[name].body);
    }
  }

  // ----- The loop ----------------------------------------------------------------------

  function EraseCounters(list: Stmts): Stmts
  {
    match list
    case SNil => SNil
    case SCons(s, rest) => if s.IncCounter? then EraseCounters(rest) else SCons(s, EraseCounters(rest))
  }

  predicate NoCounters(list: Stmts)
  {
    list.SCons? ==> !list.head.IncCounter? && NoCounters(list.tail)
  }

  /** Counters are only ever inserted: erasing them from the new list gives back the old one. */
  lemma {:induction false} ErasingCountersRestores(env: Env, path: Path, list: Stmts, starts: bool)
    requires NoCounters(list)
    ensures EraseCounters(CountersOf(env, path, list, starts)) == list
    ensures EraseCounters(AddCounters(env, path, list)) == list
    decreases list
  {
    if list.SCons? {
      ErasingCountersRestores(env, path + [1], list.tail, EndsBlock(list.head));
      if !starts {
        ErasingFirst(env, path, list);
      }
    }
  }

  lemma {:induction false} ErasingFirst(env: Env, path: Path, list: Stmts)
    requires NoCounters(list) && list.SCons?
    requires EraseCounters(CountersOf(env, path + [1], list.tail, EndsBlock(list.head))) == list.tail
    ensures EraseCounters(CountersOf(env, path, list, true)) == list
  {
  }

  /** Visits each statement of a list to which counters have been added. */
  function VisitEach(env: Env, path: Path, list: Stmts): Stmts
    decreases list
  {
    match list
    case SNil => SNil
    case SCons(s, rest) =>
      if s.IncCounter? then SCons(s, VisitEach(env, path, rest))
      else SCons(VisitStmt(env, path + [0], s), VisitEach(env, path + [1], rest))
  }

  /** Adding the counters of a block first and then visiting its statements is what VisitBlock does in one go. */
  lemma {:induction false} CountersThenVisit(env: Env, path: Path, list: Stmts, starts: bool)
    requires NoCounters(list) && env.on
    ensures VisitList(env, path, list, starts) == VisitEach(env, path, CountersOf(env, path, list, starts))
    decreases list
  {
    match list
    case SNil =>
    case SCons(s, rest) => CountersThenVisit(env, path + [1], rest, EndsBlock(s));
  }

  function FromSeq(list: seq<Stmt>): Stmts
  {
    if list == [] then SNil else SCons(list[0], FromSeq(list[1..]))
  }

  lemma {:induction false} FromSeqAppend(a: seq<Stmt>, b: seq<Stmt>)
    ensures FromSeq(a + b) == Append(FromSeq(a), FromSeq(b))
  {
    if a == [] {
      assert a + b == b;
    } else {
      assert (a + b)[1..] == a[1..] + b;
      FromSeqAppend(a[1..], b);
    }
  }

  lemma {:induction false} AppendAssociative(a: Stmts, b: Stmts, c: Stmts)
    ensures Append(Append(a, b), c) == Append(a, Append(b, c))
  {
    if a.SCons? {
      AppendAssociative(a.tail, b, c);
    }
  }

  lemma {:induction false} AppendOne(list: seq<Stmt>, s: Stmt, rest: Stmts)
    ensures Append(FromSeq(list + [s]), rest) == Append(FromSeq(list), SCons(s, rest))
  {
    FromSeqAppend(list, [s]);
    assert FromSeq([s]) == SCons(s, SNil) by { assert [s][1..] == []; }
    AppendAssociative(FromSeq(list), SCons(s, SNil), rest);
  }

  lemma {:induction false} AppendNil(list: Stmts)
    ensures Append(list, SNil) == list
  {
    if list.SCons? {
      AppendNil(list.tail);
    }
  }

  /**
    The two nested loops of addCounters: each round finds the end of the next basic block, and
    emits its counter and its statements.
  */
  method AddCountersLoop(env: Env, path: Path, list: Stmts) returns (newList: seq<Stmt>)
    ensures newList == Placed(env, path, ToSeq(list))
  {
    PlacesOf(env, path, list);
    ToFrom(AddCounters(env, path, list));
    if list.SNil? {
      newList := [Counter(env, path)];
      return;
    }
    newList := [];
    var rest, at := list, path;
    ghost var goal := AddCounters(env, path, list);
    while rest.SCons?
      invariant Append(FromSeq(newList), CountersOf(env, at, rest, true)) == goal
      decreases rest
    {
      if !env.abuts(at) {
        AppendOne(newList, Counter(env, at), CountersOf(env, at, rest, false));
        newList := newList + [Counter(env, at)];
      }
      var ended := false;
      ghost var before := rest;
      while rest.SCons? && !ended
        invariant Append(FromSeq(newList), CountersOf(env, at, rest, ended)) == goal
        invariant rest == before || rest < before
        invariant rest == before ==> !ended
        decreases rest
      {
        var s := rest.head;
        AppendOne(newList, s, CountersOf(env, at + [1], rest.tail, EndsBlock(s)));
        newList := newList + [s];
        ended := EndsBlock(s);
        rest, at := rest.tail, at + [1];
      }
    }
    AppendNil(FromSeq(newList));
    FromTo(newList);
  }
}
