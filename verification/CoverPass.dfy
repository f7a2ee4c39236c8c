/**
  The coverage pass: counters at the start of basic blocks, an else for every if, a default for
  every switch, and a closure around the right operand of && and ||. Its main theorem says that the
  rewritten program behaves like the original one in everything but the counter table.
*/
module CoverPass {
  import opened MiniGo
  import opened Wrappers

  /**
    What the pass takes from outside the tree: the counter ids (a hash in genCounter), and whether
    the source range of a basic block is empty, so that it gets no counter.
    Passing `on` as false leaves a subtree as it is.
  */
  datatype Env = Env(on: bool, id: Path -> nat, abuts: Path -> bool, root: string -> Path)

  // ----- The pass ----------------------------------------------------------------------

  /** Whether a statement is the last one of its basic block. */
  predicate EndsBlock(s: Stmt)
  {
    match s
    case Block(_) => true
    case Branch(_) => true
    case For(_, _, _, _) => true
    case If(_, _, _, _) => true
    case Switch(_, _, _) => true
    case ExprStmt(x) => (x.Call? && x.fun == "panic" && x.args.ECons? && x.args.tail.ENil?) || HasFuncLit(x)
    case Define(_, x) => HasFuncLit(x)
    case Assign(_, x) => HasFuncLit(x)
    case Return(x) => HasFuncLit(x)
    case SonarCall(x, y, _) => HasFuncLit(x) || HasFuncLit(y)
    case IncCounter(_) => false
  }

  function Counter(env: Env, path: Path): Stmt
  {
    IncCounter(env.id(path))
  }

  /** The statement list with its counters; `starts` says that a basic block starts here. */
  function CountersOf(env: Env, path: Path, list: Stmts, starts: bool): Stmts
    decreases list
  {
    match list
    case SNil => SNil
    case SCons(s, rest) =>
      var tail := SCons(s, CountersOf(env, path + [1], rest, EndsBlock(s)));
      if starts && !env.abuts(path) then SCons(Counter(env, path), tail) else tail
  }

  function AddCounters(env: Env, path: Path, list: Stmts): Stmts
  {
    if list.SNil? then SCons(Counter(env, path), SNil) else CountersOf(env, path, list, true)
  }

  function VisitExpr(env: Env, path: Path, e: Expr): (res: Expr)
    ensures !env.on ==> res == e
    decreases e, 0
  {
    match e
    case Lit(_) => e
    case Ident(_) => e
    case Binary(op, x, y) =>
      var x', y' := VisitExpr(env, path + [0], x), VisitExpr(env, path + [1], y);
      if env.on && (op.LAnd? || op.LOr?) then
        // The body of the new function literal is a block, so it gets its counter too.
        Binary(op, x', FuncLitCall(WithCounter(env, path, SCons(Return(y'), SNil))))
      else Binary(op, x', y')
    case Not(x) => Not(VisitExpr(env, path + [0], x))
    case Call(fun, args) => Call(fun, VisitExprs(env, path + [0], args))
    case FuncLitCall(body) => FuncLitCall(VisitBlock(env, path + [0], body))
    case Watched(op, x, y, site) => Watched(op, VisitExpr(env, path + [0], x), VisitExpr(env, path + [1], y), site)
    case WatchedCase(e, site) => WatchedCase(VisitExpr(env, path + [0], e), site)
  }

  function WithCounter(env: Env, path: Path, list: Stmts): Stmts
  {
    if env.abuts(path) then list else SCons(Counter(env, path), list)
  }

  function VisitExprs(env: Env, path: Path, es: Exprs): (res: Exprs)
    ensures !env.on ==> res == es
    decreases es, 0
  {
    match es
    case ENil => ENil
    case ECons(e, rest) => ECons(VisitExpr(env, path + [0], e), VisitExprs(env, path + [1], rest))
  }

  function VisitTest(env: Env, path: Path, test: OptExpr): (res: OptExpr)
    ensures !env.on ==> res == test
    decreases test, 0
  {
    match test case NoExpr => NoExpr case SomeExpr(e) => SomeExpr(VisitExpr(env, path, e))
  }

  function VisitOpt(env: Env, path: Path, s: OptStmt): (res: OptStmt)
    ensures !env.on ==> res == s
    decreases s, 0
  {
    match s case NoStmt => NoStmt case SomeStmt(s) => SomeStmt(VisitStmt(env, path, s))
  }

  /** A block: its counters are added and every statement is visited. */
  function VisitBlock(env: Env, path: Path, list: Stmts): (res: Stmts)
    ensures !env.on ==> res == list
    decreases list, 1
  {
    if env.on && list.SNil? then SCons(Counter(env, path), SNil) else VisitList(env, path, list, true)
  }

  function VisitList(env: Env, path: Path, list: Stmts, starts: bool): (res: Stmts)
    ensures !env.on ==> res == list
    decreases list, 0
  {
    match list
    case SNil => SNil
    case SCons(s, rest) =>
      var tail := SCons(VisitStmt(env, path + [0], s), VisitList(env, path + [1], rest, EndsBlock(s)));
      if env.on && starts && !env.abuts(path) then SCons(Counter(env, path), tail) else tail
  }

  function VisitStmt(env: Env, path: Path, s: Stmt): (res: Stmt)
    ensures !env.on ==> res == s
    decreases s, 1
  {
    match s
    case ExprStmt(x) => ExprStmt(VisitExpr(env, path + [0], x))
    case Define(name, x) => Define(name, VisitExpr(env, path + [0], x))
    case Assign(name, x) => Assign(name, VisitExpr(env, path + [0], x))
    case IncCounter(_) => s
    case SonarCall(x, y, site) => SonarCall(VisitExpr(env, path + [0], x), VisitExpr(env, path + [1], y), site)
    case Return(x) => Return(VisitExpr(env, path + [0], x))
    case Branch(_) => s
    case Block(body) => Block(VisitBlock(env, path + [0], body))
    case If(init, cond, thn, els) =>
      If(VisitOpt(env, path + [0], init), VisitExpr(env, path + [1], cond),
         VisitBlock(env, path + [2], thn), VisitElse(env, path + [3], els))
    case For(init, test, post, body) =>
      For(VisitOpt(env, path + [0], init), VisitTest(env, path + [1], test),
          VisitOpt(env, path + [2], post), VisitBlock(env, path + [3], body))
    case Switch(init, tag, clauses) =>
      Switch(VisitOpt(env, path + [0], init), VisitTest(env, path + [1], tag),
             VisitClauses(env, path + [2], clauses, DefaultIndex(clauses).Some?))
  }

  /** A missing else becomes an empty block, an else-if moves into a block of its own. */
  function VisitElse(env: Env, path: Path, els: Else): (res: Else)
    ensures !env.on ==> res == els
    decreases els, 0
  {
    match els
    case NoElse => if env.on then ElseBlock(SCons(Counter(env, path), SNil)) else NoElse
    case ElseIf(s) =>
      var s' := VisitStmt(env, path + [0], s);
      if env.on then ElseBlock(WithCounter(env, path, SCons(s', SNil))) else ElseIf(s')
    case ElseBlock(b) => ElseBlock(VisitBlock(env, path + [0], b))
  }

  /** A default clause, empty but for its counter, is added at the end when there is none. */
  function VisitClauses(env: Env, path: Path, clauses: Clauses, hasDefault: bool): (res: Clauses)
    ensures !env.on ==> res == clauses
    decreases clauses, 0
  {
    match clauses
    case CNil =>
      if env.on && !hasDefault then CCons(Clause(true, ENil, SCons(Counter(env, path), SNil)), CNil) else CNil
    case CCons(c, rest) =>
      CCons(Clause(c.isDefault, VisitExprs(env, path + [0], c.exprs), VisitBlock(env, path + [1], c.body)),
            VisitClauses(env, path + [2], rest, hasDefault))
  }

  /** The body of a function named init is not instrumented. */
  function VisitFunc(env: Env, name: string, f: Func): Func
  {
    Func(f.params, VisitBlock(env.(on := env.on && name != "init"), env.root(name), f.body))
  }

  function VisitProgram(env: Env, p: Program): Program
  {
    Program(p.lang, map name | name in p.funcs :: VisitFunc(env, name, p.funcs[name]))
  }

  /**
    Why a counter per basic block is enough: a statement that does not end its block, and is no
    return, is either completed or ends in a panic (or divergence, or a faulting report), so the
    ones after it are reached.
  */
  lemma {:induction false} StraightLine(p: Program, fuel: nat, s: Stmt, st: State)
    requires !EndsBlock(s) && !s.Return?
    ensures var out := ExecStmt(p, fuel, s, st).out;
            out == Normal || out.Panicked? || out == OutOfFuel || out == Faulted
  {
  }

  // ----- Meaning is preserved ----------------------------------------------------------

  /** Equal states, except for the counters. */
  predicate Same(a: State, b: State)
  {
    a.vars == b.vars && a.globals == b.globals && a.trace == b.trace && a.sonar == b.sonar
  }

  lemma {:induction false} SimExpr(env: Env, path: Path, top: Env, p: Program, fuel: nat, e: Expr, st: State,
                                   st': State)
    requires Same(st, st')
    ensures var r := EvalExpr(p, fuel, e, st);
            var r' := EvalExpr(VisitProgram(top, p), fuel, VisitExpr(env, path, e), st');
            r.out == r'.out && Same(r.st, r'.st)
    decreases fuel, e, 1
  {
    hide ExecList, EvalArgs, VisitBlock, VisitExprs, VisitProgram, FinishOp, FinishCall, FinishWatch;
    match e
    case Lit(_) =>
    case Ident(_) =>
    case Binary(_, _, _) => SimBinary(env, path, top, p, fuel, e, st, st');
    case Not(x) => SimExpr(env, path + [0], top, p, fuel, x, st, st');
    case Call(_, _) => SimCall(env, path, top, p, fuel, e, st, st');
    case FuncLitCall(body) => SimLiteral(env, path, top, p, fuel, body, st, st');
    case Watched(_, _, _, _) => SimWatched(env, path, top, p, fuel, e, st, st');
    case WatchedCase(e, _) => SimExpr(env, path + [0], top, p, fuel, e, st, st');
  }

  lemma {:induction false} SimLiteral(env: Env, path: Path, top: Env, p: Program, fuel: nat, body: Stmts, st: State,
                                      st': State)
    requires Same(st, st')
    ensures var r := EvalExpr(p, fuel, FuncLitCall(body), st);
            var r' := EvalExpr(VisitProgram(top, p), fuel, FuncLitCall(VisitBlock(env, path + [0], body)), st');
            r.out == r'.out && Same(r.st, r'.st)
    decreases fuel, body, 9
  {
    hide EvalExpr, ExecList, VisitBlock, VisitProgram;
    var q, body' := VisitProgram(top, p), VisitBlock(env, path + [0], body);
    StepLiteral(p, fuel, body, st);
    StepLiteral(q, fuel, body', st');
    SimBlock(env, path + [0], top, p, fuel, body, st, st');
  }

  lemma {:induction false} SimWatched(env: Env, path: Path, top: Env, p: Program, fuel: nat, e: Expr, st: State,
                                      st': State)
    requires Same(st, st') && e.Watched?
    ensures var r := EvalExpr(p, fuel, e, st);
            var r' := EvalExpr(VisitProgram(top, p), fuel, VisitExpr(env, path, e), st');
            r.out == r'.out && Same(r.st, r'.st)
    decreases fuel, e, 0
  {
    hide EvalExpr, ExecList, ExecStmt;
    var q, x', y' := VisitProgram(top, p), VisitExpr(env, path + [0], e.x), VisitExpr(env, path + [1], e.y);
    StepWatched(p, fuel, e.cmp, e.x, e.y, e.site, st);
    StepWatched(q, fuel, e.cmp, x', y', e.site, st');
    SimExpr(env, path + [0], top, p, fuel, e.x, st, st');
    var rx, rx' := EvalExpr(p, fuel, e.x, st), EvalExpr(q, fuel, x', st');
    if rx.out.Val? {
      SimExpr(env, path + [1], top, p, fuel, e.y, rx.st, rx'.st);
    }
  }

  lemma {:induction false} SimBinary(env: Env, path: Path, top: Env, p: Program, fuel: nat, e: Expr, st: State,
                                     st': State)
    requires Same(st, st') && e.Binary?
    ensures var r := EvalExpr(p, fuel, e, st);
            var r' := EvalExpr(VisitProgram(top, p), fuel, VisitExpr(env, path, e), st');
            r.out == r'.out && Same(r.st, r'.st)
    decreases fuel, e, 0
  {
    hide EvalExpr, ExecList, ExecStmt;
    var q, x', y' := VisitProgram(top, p), VisitExpr(env, path + [0], e.x), VisitExpr(env, path + [1], e.y);
    var wrap := env.on && (e.op.LAnd? || e.op.LOr?);
    var y'' := if wrap then FuncLitCall(WithCounter(env, path, SCons(Return(y'), SNil))) else y';
    StepBinary(p, fuel, e.op, e.x, e.y, st);
    StepBinary(q, fuel, e.op, x', y'', st');
    SimExpr(env, path + [0], top, p, fuel, e.x, st, st');
    var rx, rx' := EvalExpr(p, fuel, e.x, st), EvalExpr(q, fuel, x', st');
    if rx.out.Val? {
      var st1 := if !wrap || env.abuts(path) then rx'.st else rx'.st.(cover := rx'.st.cover + [env.id(path)]);
      if wrap {
        CountedClosure(env, path, q, fuel, y', rx'.st, st1);
      }
      SimExpr(env, path + [1], top, p, fuel, e.y, rx.st, st1);
    }
  }

  lemma {:induction false} SimCall(env: Env, path: Path, top: Env, p: Program, fuel: nat, e: Expr, st: State,
                                   st': State)
    requires Same(st, st') && e.Call?
    ensures var r := EvalExpr(p, fuel, e, st);
            var r' := EvalExpr(VisitProgram(top, p), fuel, VisitExpr(env, path, e), st');
            r.out == r'.out && Same(r.st, r'.st)
    decreases fuel, e, 0
  {
    hide EvalExpr, ExecList, ExecStmt, EvalArgs, VisitBlock;
    var q, args' := VisitProgram(top, p), VisitExprs(env, path + [0], e.args);
    StepCall(p, fuel, e.fun, e.args, st);
    StepCall(q, fuel, e.fun, args', st');
    SimArgs(env, path + [0], top, p, fuel, e.args, st, st');
    var ra, ra' := EvalArgs(p, fuel, e.args, st), EvalArgs(q, fuel, args', st');
    if ra.out.Vals? && e.fun != "panic" && e.fun in p.funcs && fuel > 0 {
      var f := p.funcs[e.fun];
      var inner := BindParams(f.params, ra.out.vs);
      SimBlock(top.(on := top.on && e.fun != "init"), top.root(e.fun), top, p, fuel - 1, f.body,
               ra.st.(vars := inner), ra'.st.(vars := inner));
    }
  }

  /** Calling a closure that returns an expression is evaluating the expression, after the counter. */
  lemma {:induction false} CountedClosure(env: Env, path: Path, q: Program, fuel: nat, e: Expr, st: State, st1: State)
    requires st1 == if env.abuts(path) then st else st.(cover := st.cover + [env.id(path)])
    ensures EvalExpr(q, fuel, FuncLitCall(WithCounter(env, path, SCons(Return(e), SNil))), st)
            == EvalExpr(q, fuel, e, st1)
  {
    var list := SCons(Return(e), SNil);
    var r := EvalExpr(q, fuel, e, st1);
    assert ExecStmt(q, fuel, Return(e), st1).st == r.st;
    assert ExecList(q, fuel, list, st1) == ExecStmt(q, fuel, Return(e), st1);
    assert ExecList(q, fuel, WithCounter(env, path, list), st) == ExecList(q, fuel, list, st1);
    assert Truncate(r.st.vars, Depth(st.vars)) == r.st.vars;
  }

  lemma {:induction false} SimArgs(env: Env, path: Path, top: Env, p: Program, fuel: nat, es: Exprs, st: State,
                                   st': State)
    requires Same(st, st')
    ensures var r := EvalArgs(p, fuel, es, st);
            var r' := EvalArgs(VisitProgram(top, p), fuel, VisitExprs(env, path, es), st');
            r.out == r'.out && Same(r.st, r'.st)
    decreases fuel, es, 0
  {
    match es
    case ENil =>
    case ECons(e, rest) =>
      SimExpr(env, path + [0], top, p, fuel, e, st, st');
      SimArgs(env, path + [1], top, p, fuel, rest, EvalExpr(p, fuel, e, st).st,
              EvalExpr(VisitProgram(top, p), fuel, VisitExpr(env, path + [0], e), st').st);
  }

  lemma {:induction false} SimTest(env: Env, path: Path, top: Env, p: Program, fuel: nat, test: OptExpr, st: State,
                                   st': State)
    requires Same(st, st')
    ensures var r := EvalTest(p, fuel, test, st);
            var r' := EvalTest(VisitProgram(top, p), fuel, VisitTest(env, path, test), st');
            r.out == r'.out && Same(r.st, r'.st)
    decreases fuel, test, 0
  {
    match test
    case NoExpr =>
    case SomeExpr(e) => SimExpr(env, path, top, p, fuel, e, st, st');
  }

  lemma {:induction false} SimOpt(env: Env, path: Path, top: Env, p: Program, fuel: nat, s: OptStmt, st: State,
                                  st': State)
    requires Same(st, st')
    ensures var r := ExecOpt(p, fuel, s, st);
            var r' := ExecOpt(VisitProgram(top, p), fuel, VisitOpt(env, path, s), st');
            r.out == r'.out && Same(r.st, r'.st)
    decreases fuel, s, 0
  {
    match s
    case NoStmt =>
    case SomeStmt(s) => SimStmt(env, path, top, p, fuel, s, st, st');
  }

  /** Blocks: executed as a list, the counters only add to the counter table. */
  lemma {:induction false} SimBlock(env: Env, path: Path, top: Env, p: Program, fuel: nat, list: Stmts, st: State,
                                    st': State)
    requires Same(st, st')
    ensures var r := ExecList(p, fuel, list, st);
            var r' := ExecList(VisitProgram(top, p), fuel, VisitBlock(env, path, list), st');
            r.out == r'.out && Same(r.st, r'.st)
    ensures var r := ExecScoped(p, fuel, list, st);
            var r' := ExecScoped(VisitProgram(top, p), fuel, VisitBlock(env, path, list), st');
            r.out == r'.out && Same(r.st, r'.st)
    decreases fuel, list, 1
  {
    SimList(env, path, top, p, fuel, list, true, st, st');
    OneCounter(VisitProgram(top, p), fuel, env.id(path), st');
  }

  lemma {:induction false} OneCounter(q: Program, fuel: nat, id: nat, st: State)
    ensures ExecList(q, fuel, SCons(IncCounter(id), SNil), st) == SRes(Normal, st.(cover := st.cover + [id]))
  {
  }

  lemma {:induction false} SimList(env: Env, path: Path, top: Env, p: Program, fuel: nat, list: Stmts, starts: bool,
                                   st: State, st': State)
    requires Same(st, st')
    ensures var r := ExecList(p, fuel, list, st);
            var r' := ExecList(VisitProgram(top, p), fuel, VisitList(env, path, list, starts), st');
            r.out == r'.out && Same(r.st, r'.st)
    decreases fuel, list, 0
  {
    match list
    case SNil =>
    case SCons(s, rest) =>
      var q := VisitProgram(top, p);
      var st1 := if env.on && starts && !env.abuts(path) then st'.(cover := st'.cover + [env.id(path)]) else st';
      var s', rest' := VisitStmt(env, path + [0], s), VisitList(env, path + [1], rest, EndsBlock(s));
      assert ExecList(q, fuel, VisitList(env, path, list, starts), st') == ExecList(q, fuel, SCons(s', rest'), st1);
      SimStmt(env, path + [0], top, p, fuel, s, st, st1);
      SimList(env, path + [1], top, p, fuel, rest, EndsBlock(s), ExecStmt(p, fuel, s, st).st,
        ExecStmt(q, fuel, s', st1).st);
  }

  lemma {:induction false} SimStmt(env: Env, path: Path, top: Env, p: Program, fuel: nat, s: Stmt, st: State,
                                   st': State)
    requires Same(st, st')
    ensures var r := ExecStmt(p, fuel, s, st);
            var r' := ExecStmt(VisitProgram(top, p), fuel, VisitStmt(env, path, s), st');
            r.out == r'.out && Same(r.st, r'.st)
    decreases fuel, s, 2
  {
    var q := VisitProgram(top, p);
    match s
    case ExprStmt(_) => SimOneExpr(env, path, top, p, fuel, s, st, st');
    case Define(_, _) => SimOneExpr(env, path, top, p, fuel, s, st, st');
    case Assign(_, _) => SimOneExpr(env, path, top, p, fuel, s, st, st');
    case IncCounter(_) =>
    case SonarCall(_, _, _) => SimReport(env, path, top, p, fuel, s, st, st');
    case Return(_) => SimOneExpr(env, path, top, p, fuel, s, st, st');
    case Branch(_) =>
    case Block(body) => SimBlock(env, path + [0], top, p, fuel, body, st, st');
    case If(_, _, _, _) => SimIf(env, path, top, p, fuel, s, st, st');
    case For(_, _, _, _) => SimFor(env, path, top, p, fuel, s, st, st');
    case Switch(_, _, _) => SimSwitchStmt(env, path, top, p, fuel, s, st, st');
  }

  lemma {:induction false} SimOneExpr(env: Env, path: Path, top: Env, p: Program, fuel: nat, s: Stmt, st: State,
                                      st': State)
    requires Same(st, st') && OneExpr(s)
    ensures var r := ExecStmt(p, fuel, s, st);
            var r' := ExecStmt(VisitProgram(top, p), fuel, VisitStmt(env, path, s), st');
            r.out == r'.out && Same(r.st, r'.st)
    decreases fuel, s, 1
  {
    hide EvalExpr, ExecStmt, VisitExpr;
    var q, s' := VisitProgram(top, p), VisitStmt(env, path, s);
    StepOneExpr(p, fuel, s, st);
    StepOneExpr(q, fuel, s', st');
    SimExpr(env, path + [0], top, p, fuel, s.x, st, st');
  }

  lemma {:induction false} SimReport(env: Env, path: Path, top: Env, p: Program, fuel: nat, s: Stmt, st: State,
                                     st': State)
    requires Same(st, st') && s.SonarCall?
    ensures var r := ExecStmt(p, fuel, s, st);
            var r' := ExecStmt(VisitProgram(top, p), fuel, VisitStmt(env, path, s), st');
            r.out == r'.out && Same(r.st, r'.st)
    decreases fuel, s, 1
  {
    hide EvalExpr, ExecStmt, VisitExpr;
    var q, s' := VisitProgram(top, p), VisitStmt(env, path, s);
    StepSonarCall(p, fuel, s.v1, s.v2, s.site, st);
    StepSonarCall(q, fuel, s'.v1, s'.v2, s.site, st');
    SimExpr(env, path + [0], top, p, fuel, s.v1, st, st');
    var r, r' := EvalExpr(p, fuel, s.v1, st), EvalExpr(q, fuel, s'.v1, st');
    if r.out.Val? {
      SimExpr(env, path + [1], top, p, fuel, s.v2, r.st, r'.st);
    }
  }

  lemma {:induction false} SimIf(env: Env, path: Path, top: Env, p: Program, fuel: nat, s: Stmt, st: State, st': State)
    requires Same(st, st') && s.If?
    ensures var r := ExecStmt(p, fuel, s, st);
            var r' := ExecStmt(VisitProgram(top, p), fuel, VisitStmt(env, path, s), st');
            r.out == r'.out && Same(r.st, r'.st)
    decreases fuel, s, 1
  {
    hide ExecStmt, ExecOpt, EvalExpr, ExecScoped, ExecElse, VisitBlock, VisitExpr, VisitElse;
    var q, s' := VisitProgram(top, p), VisitStmt(env, path, s);
    StepIf(p, fuel, s, st);
    StepIf(q, fuel, s', st');
    SimOpt(env, path + [0], top, p, fuel, s.init, st, st');
    var ri, ri' := ExecOpt(p, fuel, s.init, st), ExecOpt(q, fuel, s'.init, st');
    if ri.out == Normal {
      SimExpr(env, path + [1], top, p, fuel, s.cond, ri.st, ri'.st);
      var rc, rc' := EvalExpr(p, fuel, s.cond, ri.st), EvalExpr(q, fuel, s'.cond, ri'.st);
      if rc.out.Val? {
        if Truth(rc.out.v) {
          SimBlock(env, path + [2], top, p, fuel, s.thn, rc.st, rc'.st);
        } else {
          SimElse(env, path + [3], top, p, fuel, s.els, rc.st, rc'.st);
          var re, re' := ExecElse(p, fuel, s.els, rc.st), ExecElse(q, fuel, s'.els, rc'.st);
          TruncateTwice(re.st.vars, Depth(rc.st.vars), Depth(st.vars));
          TruncateTwice(re'.st.vars, Depth(rc.st.vars), Depth(st.vars));
        }
      }
    }
  }

  lemma {:induction false} SimFor(env: Env, path: Path, top: Env, p: Program, fuel: nat, s: Stmt, st: State, st': State)
    requires Same(st, st') && s.For?
    ensures var r := ExecStmt(p, fuel, s, st);
            var r' := ExecStmt(VisitProgram(top, p), fuel, VisitStmt(env, path, s), st');
            r.out == r'.out && Same(r.st, r'.st)
    decreases fuel, s, 1
  {
    hide ExecStmt, ExecOpt, ExecLoop, VisitBlock;
    var q, s' := VisitProgram(top, p), VisitStmt(env, path, s);
    StepFor(p, fuel, s, st);
    StepFor(q, fuel, s', st');
    SimOpt(env, path + [0], top, p, fuel, s.init, st, st');
    var ri, ri' := ExecOpt(p, fuel, s.init, st), ExecOpt(q, fuel, s'.init, st');
    SimLoop(env, path, top, p, fuel, s, ri.st, ri'.st);
  }

  lemma {:induction false} SimSwitchStmt(env: Env, path: Path, top: Env, p: Program, fuel: nat, s: Stmt, st: State,
                                         st': State)
    requires Same(st, st') && s.Switch?
    ensures var r := ExecStmt(p, fuel, s, st);
            var r' := ExecStmt(VisitProgram(top, p), fuel, VisitStmt(env, path, s), st');
            r.out == r'.out && Same(r.st, r'.st)
    decreases fuel, s, 1
  {
    var q, s' := VisitProgram(top, p), VisitStmt(env, path, s);
    SimOpt(env, path + [0], top, p, fuel, s.init, st, st');
    var ri, ri' := ExecOpt(p, fuel, s.init, st), ExecOpt(q, fuel, s'.init, st');
    if ri.out == Normal {
      SimTest(env, path + [1], top, p, fuel, s.tag, ri.st, ri'.st);
      var rt, rt' := EvalTest(p, fuel, s.tag, ri.st), EvalTest(q, fuel, s'.tag, ri'.st);
      if rt.out.Val? {
        SimSwitch(env, path + [2], top, p, fuel, s.clauses, rt.out.v, rt.st, rt'.st);
      }
    }
  }

  lemma {:induction false} SimElse(env: Env, path: Path, top: Env, p: Program, fuel: nat, els: Else, st: State,
                                   st': State)
    requires Same(st, st')
    ensures var r := ExecElse(p, fuel, els, st);
            var r' := ExecElse(VisitProgram(top, p), fuel, VisitElse(env, path, els), st');
            r.out == r'.out && Same(LeaveScope(r.st, Depth(st.vars)), LeaveScope(r'.st, Depth(st.vars)))
    decreases fuel, els, 0
  {
    var q := VisitProgram(top, p);
    match els
    case NoElse => OneCounter(q, fuel, env.id(path), st');
    case ElseIf(s) =>
      var st1 := if env.on && !env.abuts(path) then st'.(cover := st'.cover + [env.id(path)]) else st';
      SimStmt(env, path + [0], top, p, fuel, s, st, st1);
      if env.on {
        var s' := VisitStmt(env, path + [0], s);
        assert ExecList(q, fuel, WithCounter(env, path, SCons(s', SNil)), st')
               == ExecList(q, fuel, SCons(s', SNil), st1);
        assert ExecList(q, fuel, SCons(s', SNil), st1) == ExecStmt(q, fuel, s', st1);
      }
    case ElseBlock(b) => SimBlock(env, path + [0], top, p, fuel, b, st, st');
  }

  lemma {:induction false} SimLoop(env: Env, path: Path, top: Env, p: Program, fuel: nat, s: Stmt, st: State,
                                   st': State)
    requires Same(st, st') && s.For?
    ensures var r := ExecLoop(p, fuel, s, st);
            var r' := ExecLoop(VisitProgram(top, p), fuel, VisitStmt(env, path, s), st');
            r.out == r'.out && Same(r.st, r'.st)
    decreases fuel, s, 0
  {
    hide EvalTest, EvalExpr, ExecScoped, ExecOpt, ExecLoop, VisitBlock, VisitTest, VisitOpt, VisitProgram;
    var q, s' := VisitProgram(top, p), VisitStmt(env, path, s);
    StepLoop(p, fuel, s, st);
    StepLoop(q, fuel, s', st');
    SimTest(env, path + [1], top, p, fuel, s.test, st, st');
    var rc, rc' := EvalTest(p, fuel, s.test, st), EvalTest(q, fuel, s'.test, st');
    if rc.out.Val? && Truth(rc.out.v) {
      SimBlock(env, path + [3], top, p, fuel, s.body, rc.st, rc'.st);
      var rb, rb' := ExecScoped(p, fuel, s.body, rc.st), ExecScoped(q, fuel, s'.body, rc'.st);
      if rb.out == Normal || rb.out == Continued {
        SimOpt(env, path + [2], top, p, fuel, s.post, rb.st, rb'.st);
        var rp, rp' := ExecOpt(p, fuel, s.post, rb.st), ExecOpt(q, fuel, s'.post, rb'.st);
        if rp.out == Normal && fuel > 0 {
          SimLoop(env, path, top, p, fuel - 1, s, rp.st, rp'.st);
        }
      }
    }
  }

  lemma {:induction false} SimSwitch(env: Env, path: Path, top: Env, p: Program, fuel: nat, clauses: Clauses,
                                     tag: Value, st: State, st': State)
    requires Same(st, st')
    ensures var r := ExecSwitch(p, fuel, clauses, tag, st);
            var r' :=
              ExecSwitch(VisitProgram(top, p), fuel, VisitClauses(env, path, clauses, DefaultIndex(clauses).Some?),
              tag, st');
            r.out == r'.out && Same(r.st, r'.st)
    decreases fuel, clauses, 2
  {
    hide ExecSwitch, MatchClause, RunFrom, VisitClauses;
    var q := VisitProgram(top, p);
    var hasDefault := DefaultIndex(clauses).Some?;
    var clauses' := VisitClauses(env, path, clauses, hasDefault);
    StepSelect(p, fuel, clauses, tag, st);
    StepSelect(q, fuel, clauses', tag, st');
    SimMatch(env, path, top, p, fuel, clauses, hasDefault, tag, st, st');
    var m, m' := MatchClause(p, fuel, clauses, tag, st), MatchClause(q, fuel, clauses', tag, st');
    match m.out
    case MatchFail(_) =>
    case Hit(k) => SimRun(env, path, top, p, fuel, clauses, hasDefault, k, m.st, m'.st);
    case Miss =>
      VisitedDefault(env, path, clauses, hasDefault);
      if hasDefault {
        SimRun(env, path, top, p, fuel, clauses, hasDefault, DefaultIndex(clauses).value, m.st, m'.st);
      } else if env.on {
        SimRun(env, path, top, p, fuel, clauses, hasDefault, Count(clauses), m.st, m'.st);
        RunPastEnd(p, fuel, clauses, m.st);
      }
  }

  function Count(clauses: Clauses): nat
  {
    match clauses case CNil => 0 case CCons(_, rest) => Count(rest) + 1
  }

  lemma {:induction false} RunPastEnd(p: Program, fuel: nat, clauses: Clauses, st: State)
    ensures RunFrom(p, fuel, clauses, Count(clauses), st) == SRes(Normal, st)
  {
    if clauses.CCons? {
      RunPastEnd(p, fuel, clauses.tail, st);
    }
  }

  /** Where the default of the rewritten switch is: the old one, or the one added behind all clauses. */
  lemma {:induction false} VisitedDefault(env: Env, path: Path, clauses: Clauses, hasDefault: bool)
    requires DefaultIndex(clauses).Some? ==> hasDefault
    ensures DefaultIndex(VisitClauses(env, path, clauses, hasDefault)) ==
            if DefaultIndex(clauses).Some? then DefaultIndex(clauses)
            else if env.on && !hasDefault then Some(Count(clauses))
            else None
    decreases clauses
  {
    if clauses.CCons? {
      VisitedDefault(env, path + [2], clauses.tail, hasDefault);
    }
  }

  lemma {:induction false} SimMatch(env: Env, path: Path, top: Env, p: Program, fuel: nat, clauses: Clauses,
                                    hasDefault: bool,
                                    tag: Value, st: State, st': State)
    requires Same(st, st')
    ensures var m := MatchClause(p, fuel, clauses, tag, st);
            var m' := MatchClause(VisitProgram(top, p), fuel, VisitClauses(env, path, clauses, hasDefault), tag, st');
            m.out == m'.out && Same(m.st, m'.st)
    decreases fuel, clauses, 1
  {
    hide MatchExprs, VisitExprs, VisitBlock;
    match clauses
    case CNil =>
    case CCons(c, rest) => SimClause(env, path, top, p, fuel, c, rest, hasDefault, tag, st, st');
  }

  lemma {:induction false} SimClause(env: Env, path: Path, top: Env, p: Program, fuel: nat, c: Clause, rest: Clauses,
                                     hasDefault: bool, tag: Value, st: State, st': State)
    requires Same(st, st')
    ensures var clauses := CCons(c, rest);
            var m := MatchClause(p, fuel, clauses, tag, st);
            var m' := MatchClause(VisitProgram(top, p), fuel, VisitClauses(env, path, clauses, hasDefault), tag, st');
            m.out == m'.out && Same(m.st, m'.st)
    decreases fuel, CCons(c, rest), 0
  {
    hide MatchClause, MatchExprs, VisitExprs, VisitBlock;
    var q, exprs' := VisitProgram(top, p), VisitExprs(env, path + [0], c.exprs);
    var c' := Clause(c.isDefault, exprs', VisitBlock(env, path + [1], c.body));
    StepClause(p, fuel, c, rest, tag, st);
    StepClause(q, fuel, c', VisitClauses(env, path + [2], rest, hasDefault), tag, st');
    SimCases(env, path + [0], top, p, fuel, c.exprs, tag, st, st');
    var m := if c.isDefault then MRes(Miss, st) else MatchExprs(p, fuel, c.exprs, tag, st);
    var m' := if c.isDefault then MRes(Miss, st') else MatchExprs(q, fuel, exprs', tag, st');
    SimMatch(env, path + [2], top, p, fuel, rest, hasDefault, tag, m.st, m'.st);
  }

  lemma {:induction false} SimCases(env: Env, path: Path, top: Env, p: Program, fuel: nat, es: Exprs, tag: Value,
                                    st: State, st': State)
    requires Same(st, st')
    ensures var m := MatchExprs(p, fuel, es, tag, st);
            var m' := MatchExprs(VisitProgram(top, p), fuel, VisitExprs(env, path, es), tag, st');
            m.out == m'.out && Same(m.st, m'.st)
    decreases fuel, es, 0
  {
    match es
    case ENil =>
    case ECons(e, rest) =>
      var q, e', rest' := VisitProgram(top, p), VisitExpr(env, path + [0], e), VisitExprs(env, path + [1], rest);
      hide OneCase, MatchExprs;
      StepCase(p, fuel, e, rest, tag, st);
      StepCase(q, fuel, e', rest', tag, st');
      SimOneCase(env, path + [0], top, p, fuel, e, tag, st, st');
      SimCases(env, path + [1], top, p, fuel, rest, tag, OneCase(p, fuel, e, tag, st).st,
        OneCase(q, fuel, e', tag, st').st);
  }

  lemma {:induction false} SimOneCase(env: Env, path: Path, top: Env, p: Program, fuel: nat, e: Expr, tag: Value,
                                      st: State, st': State)
    requires Same(st, st')
    ensures var r := OneCase(p, fuel, e, tag, st);
            var r' := OneCase(VisitProgram(top, p), fuel, VisitExpr(env, path, e), tag, st');
            r.out == r'.out && Same(r.st, r'.st)
    decreases fuel, e, 2
  {
    hide EvalExpr, VisitBlock, VisitExprs, ApplyOp;
    SimExpr(env, path, top, p, fuel, e, st, st');
  }

  lemma {:induction false} SimRun(env: Env, path: Path, top: Env, p: Program, fuel: nat, clauses: Clauses,
                                  hasDefault: bool,
                                  k: nat, st: State, st': State)
    requires Same(st, st')
    ensures var r := RunFrom(p, fuel, clauses, k, st);
            var r' := RunFrom(VisitProgram(top, p), fuel, VisitClauses(env, path, clauses, hasDefault), k, st');
            r.out == r'.out && Same(r.st, r'.st)
    decreases fuel, clauses, 0
  {
    var q := VisitProgram(top, p);
    match clauses
    case CNil =>
      if env.on && !hasDefault {
        OneCounter(q, fuel, env.id(path), st');
        RunAdded(q, fuel, env.id(path), k, st');
      }
    case CCons(c, rest) =>
      var c' := Clause(c.isDefault, VisitExprs(env, path + [0], c.exprs), VisitBlock(env, path + [1], c.body));
      hide RunFrom, ExecScoped, VisitBlock, VisitExprs;
      StepRun(p, fuel, c, rest, k, st);
      StepRun(q, fuel, c', VisitClauses(env, path + [2], rest, hasDefault), k, st');
      if k > 0 {
        SimRun(env, path + [2], top, p, fuel, rest, hasDefault, k - 1, st, st');
      } else {
        SimBlock(env, path + [1], top, p, fuel, c.body, st, st');
        SimRun(env, path + [2], top, p, fuel, rest, hasDefault, 0, ExecScoped(p, fuel, c.body, st).st,
               ExecScoped(q, fuel, c'.body, st').st);
      }
  }

  /** The added default clause does nothing but count. */
  lemma {:induction false} RunAdded(q: Program, fuel: nat, id: nat, k: nat, st: State)
    ensures var r := RunFrom(q, fuel, CCons(Clause(true, ENil, SCons(IncCounter(id), SNil)), CNil), k, st);
            r.out == Normal && Same(st, r.st)
  {
    OneCounter(q, fuel, id, st);
    if k > 0 {
      assert RunFrom(q, fuel, CNil, k - 1, st) == SRes(Normal, st);
    }
  }

  /** Every entry of a basic block runs its counter, once and before anything else of the block. */
  lemma {:induction false} EntryCounted(env: Env, path: Path, q: Program, fuel: nat, list: Stmts, st: State)
    requires env.on && !env.abuts(path) && list.SCons?
    ensures var counted := st.(cover := st.cover + [env.id(path)]);
            ExecList(q, fuel, VisitList(env, path, list, true), st)
            == ExecList(q, fuel, VisitList(env, path, list, false), counted)
  {
    hide VisitStmt, VisitExpr;
    StepList(q, fuel, Counter(env, path), VisitList(env, path, list, false), st);
  }

  /**
    The coverage pass preserves meaning: from equal states, a function body of the rewritten program
    ends (or runs out of the same fuel) with the same outcome, variables, globals, calls and sonar log.
  */
  lemma {:induction false} CoveragePreservesMeaning(env: Env, p: Program, fuel: nat, name: string, st: State)
    requires name in p.funcs
    ensures var q := VisitProgram(env, p);
            var r, r' := ExecList(p, fuel, p.funcs[name].body, st), ExecList(q, fuel, q.funcs[name].body, st);
            r.out == r'.out && Same(r.st, r'.st)
  {
    SimBlock(env.(on := env.on && name != "init"), env.root(name), env, p, fuel, p.funcs[name].body, st, st);
  }
}
