/**
  The fragment of Go that the instrumentation passes are modelled on: expressions with side
  effects and immediately called function literals, and statements with blocks, if, for, switch,
  break, continue, fallthrough, return and panic.

  Lists of nodes are cons-lists, so that every definition follows the structure of the tree.

  Two kinds of expressions are no Go: they mark the comparisons of a program whose operands are
  reported, without saying how. They serve to state what an instrumented program reports.
*/
module MiniGo {
  import opened Wrappers

  datatype Value = Unit | BoolV(b: bool) | IntV(n: int) | StrV(s: string)

  datatype CmpOp = Eql | Neq | Lss | Gtr | Leq | Geq

  datatype BinOp = Cmp(cmp: CmpOp) | LAnd | LOr | Arith(name: string)

  datatype Expr =
    | Lit(value: Value)
    | Ident(name: string)
    | Binary(op: BinOp, x: Expr, y: Expr)
    | Not(x: Expr)
    | Call(fun: string, args: Exprs)
    | FuncLitCall(body: Stmts)
    | Watched(cmp: CmpOp, x: Expr, y: Expr, site: nat)   // a comparison whose operands are reported
    | WatchedCase(e: Expr, site: nat)                    // a case expression; the tag and its value are reported

  datatype Exprs = ENil | ECons(head: Expr, tail: Exprs)

  datatype OptExpr = NoExpr | SomeExpr(e: Expr)

  datatype BranchKind = Break | Continue | Fallthrough

  datatype Stmt =
    | ExprStmt(x: Expr)
    | Define(name: string, x: Expr)              // name := x
    | Assign(name: string, x: Expr)              // name = x, where _ drops the value
    | IncCounter(counter: nat)                   // CoverTab[counter]++
    | SonarCall(v1: Expr, v2: Expr, site: nat)   // Sonar(v1, v2, site)
    | Return(x: Expr)
    | Branch(kind: BranchKind)
    | Block(body: Stmts)
    | If(init: OptStmt, cond: Expr, thn: Stmts, els: Else)
    | For(init: OptStmt, test: OptExpr, post: OptStmt, body: Stmts)
    | Switch(init: OptStmt, tag: OptExpr, clauses: Clauses)

  datatype OptStmt = NoStmt | SomeStmt(s: Stmt)

  datatype Else = NoElse | ElseIf(s: Stmt) | ElseBlock(block: Stmts)

  datatype Stmts = SNil | SCons(head: Stmt, tail: Stmts)

  /** A case clause; the default clause has no expression list. */
  datatype Clause = Clause(isDefault: bool, exprs: Exprs, body: Stmts)

  datatype Clauses = CNil | CCons(head: Clause, tail: Clauses)

  datatype Func = Func(params: seq<string>, body: Stmts)

  datatype Event = Event(fun: string, args: seq<Value>)

  /**
    What the model leaves open about Go: comparison and arithmetic on values, either of which may
    panic, functions without a body here, whose answer may depend on everything seen so far, and the
    pairs of values on which the reporting function faults.
  */
  datatype Lang = Lang(
    compare: (CmpOp, Value, Value) -> Option<bool>,
    arith: (string, Value, Value) -> Option<Value>,
    extern: (string, seq<Value>, seq<Event>) -> Option<Value>,
    faults: (Value, Value) -> bool
  )

  /** The way from the root of a function to a part of it; the passes number their insertions by it. */
  type Path = seq<nat>

  datatype Program = Program(lang: Lang, funcs: map<string, Func>)

  // ----- States and outcomes -----------------------------------------------------------

  /** The local variables in scope, innermost declaration last. */
  datatype Vars = NoVars | Push(below: Vars, name: string, value: Value)

  datatype SonarRecord = SonarRecord(v1: Value, v2: Value, site: nat)

  datatype State = State(
    vars: Vars,
    globals: map<string, Value>,
    trace: seq<Event>,
    cover: seq<nat>,
    sonar: seq<SonarRecord>
  )

  datatype Outcome =
    | Normal
    | Broke
    | Continued
    | Fell
    | Returned(value: Value)
    | Panicked(value: Value)
    | OutOfFuel
    | Faulted

  datatype SRes = SRes(out: Outcome, st: State)

  datatype EOut = Val(v: Value) | EPanic(value: Value) | EFuel | EFault

  datatype ERes = ERes(out: EOut, st: State)

  datatype ArgsOut = Vals(vs: seq<Value>) | ArgsFail(out: EOut)

  datatype ARes = ARes(out: ArgsOut, st: State)

  /** The result of trying case expressions in order: the clause hit, none, or an abrupt end. */
  datatype MatchOut = Hit(k: nat) | Miss | MatchFail(out: EOut)

  datatype MRes = MRes(out: MatchOut, st: State)

  function Depth(vars: Vars): nat
  {
    match vars case NoVars => 0 case Push(below, _, _) => Depth(below) + 1
  }

  /** Leaves scopes until only the n outermost variables remain. */
  function Truncate(vars: Vars, n: nat): (r: Vars)
    ensures Depth(vars) >= n ==> Depth(r) == n
  {
    if Depth(vars) <= n then vars else Truncate(vars.below, n)
  }

  lemma {:induction false} TruncateTwice(vars: Vars, n: nat, m: nat)
    requires m <= n
    ensures Truncate(Truncate(vars, n), m) == Truncate(vars, m)
  {
    if Depth(vars) > n {
      TruncateTwice(vars.below, n, m);
    }
  }

  function Lookup(vars: Vars, globals: map<string, Value>, name: string): Value
  {
    match vars
    case NoVars => if name in globals then globals[name] else Unit
    case Push(below, n, v) => if n == name then v else Lookup(below, globals, name)
  }

  predicate Declared(vars: Vars, name: string)
  {
    vars.Push? && (vars.name == name || Declared(vars.below, name))
  }

  function SetVar(vars: Vars, name: string, value: Value): (r: Vars)
    ensures Depth(r) == Depth(vars)
  {
    match vars
    case NoVars => NoVars
    case Push(below, n, v) => if n == name then Push(below, n, value) else Push(SetVar(below, name, value), n, v)
  }

  function Store(st: State, name: string, value: Value): State
  {
    if name == "_" then st
    else if Declared(st.vars, name) then st.(vars := SetVar(st.vars, name, value))
    else st.(globals := st.globals[name := value])
  }

  function Declare(st: State, name: string, value: Value): State
  {
    st.(vars := Push(st.vars, name, value))
  }

  function LeaveScope(st: State, depth: nat): State
  {
    st.(vars := Truncate(st.vars, depth))
  }

  function BindParams(params: seq<string>, args: seq<Value>): Vars
  {
    if params == [] then NoVars
    else
      var k := |params| - 1;
      Push(BindParams(params[..k], args), params[k], if k < |args| then args[k] else Unit)
  }

  predicate Truth(v: Value)
  {
    v == BoolV(true)
  }

  function ApplyOp(lang: Lang, op: BinOp, a: Value, b: Value): Option<Value>
  {
    match op
    case Cmp(c) =>
      if c == Eql && a.BoolV? && b.BoolV? then Some(BoolV(a == b))
      else (match lang.compare(c, a, b) case Some(t) => Some(BoolV(t)) case None => None)
    case LAnd => Some(BoolV(Truth(a) && Truth(b)))
    case LOr => Some(BoolV(Truth(a) || Truth(b)))
    case Arith(name) => lang.arith(name, a, b)
  }

  const RUNTIME_ERROR := StrV("runtime error")

  function AbruptEnd(out: EOut): Outcome
    requires !out.Val?
  {
    match out case EPanic(v) => Panicked(v) case EFuel => OutOfFuel case EFault => Faulted
  }

  // ----- Big-step semantics ------------------------------------------------------------

  /**
    Operands are evaluated from left to right. Fuel is spent only on calls of named functions and
    on loop iterations, so a program and its instrumented form need the same amount.
  */
  function EvalExpr(p: Program, fuel: nat, e: Expr, st: State): (res: ERes)
    ensures Depth(res.st.vars) == Depth(st.vars)
    decreases fuel, e, 0
  {
    match e
    case Lit(v) => ERes(Val(v), st)
    case Ident(name) => ERes(Val(Lookup(st.vars, st.globals, name)), st)
    case Binary(op, x, y) =>
      var rx := EvalExpr(p, fuel, x, st);
      if !rx.out.Val? then rx
      else if op.LAnd? && !Truth(rx.out.v) then ERes(Val(BoolV(false)), rx.st)
      else if op.LOr? && Truth(rx.out.v) then ERes(Val(BoolV(true)), rx.st)
      else
        var ry := EvalExpr(p, fuel, y, rx.st);
        if !ry.out.Val? then ry else FinishOp(p.lang, op, rx.out.v, ry.out.v, ry.st)
    case Not(x) =>
      var rx := EvalExpr(p, fuel, x, st);
      if !rx.out.Val? then rx else ERes(Val(BoolV(!Truth(rx.out.v))), rx.st)
    case Call(fun, args) =>
      var ra := EvalArgs(p, fuel, args, st);
      if ra.out.ArgsFail? then ERes(ra.out.out, ra.st)
      else if fun == "panic" then ERes(EPanic(if |ra.out.vs| == 0 then Unit else ra.out.vs[0]), ra.st)
      else if fun in p.funcs then
        if fuel == 0 then ERes(EFuel, ra.st)
        else
          var f := p.funcs[fun];
          var inner := ra.st.(vars := BindParams(f.params, ra.out.vs));
          FinishCall(ExecList(p, fuel - 1, f.body, inner), ra.st.vars)
      else CallExtern(p.lang, fun, ra.out.vs, ra.st)
    case FuncLitCall(body) =>
      var r := ExecList(p, fuel, body, st);
      FinishCall(r, Truncate(r.st.vars, Depth(st.vars)))
    case Watched(op, x, y, site) =>
      var rx := EvalExpr(p, fuel, x, st);
      if !rx.out.Val? then rx
      else
        var ry := EvalExpr(p, fuel, y, rx.st);
        if !ry.out.Val? then ry else FinishWatch(p.lang, op, rx.out.v, ry.out.v, site, ry.st)
    case WatchedCase(e, _) => EvalExpr(p, fuel, e, st)
  }

  function Reported(st: State, v1: Value, v2: Value, site: nat): State
  {
    st.(sonar := st.sonar + [SonarRecord(v1, v2, site)])
  }

  /** A report, which may fault, and then the comparison. */
  function FinishWatch(lang: Lang, op: CmpOp, a: Value, b: Value, site: nat, st: State): ERes
  {
    if lang.faults(a, b) then ERes(EFault, Reported(st, a, b, site))
    else FinishOp(lang, Cmp(op), a, b, Reported(st, a, b, site))
  }

  function FinishOp(lang: Lang, op: BinOp, a: Value, b: Value, st: State): ERes
  {
    match ApplyOp(lang, op, a, b) case Some(v) => ERes(Val(v), st) case None => ERes(EPanic(RUNTIME_ERROR), st)
  }

  /** The end of a call: a return becomes a value, and the caller's variables are back in scope. */
  function FinishCall(r: SRes, vars: Vars): ERes
  {
    var out :=
      match r.out
      case Returned(v) => Val(v)
      case Panicked(v) => EPanic(v)
      case OutOfFuel => EFuel
      case Faulted => EFault
      case _ => Val(Unit);
    ERes(out, r.st.(vars := vars))
  }

  function CallExtern(lang: Lang, fun: string, args: seq<Value>, st: State): ERes
  {
    var out := match lang.extern(fun, args, st.trace) case Some(v) => Val(v) case None => EPanic(RUNTIME_ERROR);
    ERes(out, st.(trace := st.trace + [Event(fun, args)]))
  }

  function EvalArgs(p: Program, fuel: nat, args: Exprs, st: State): (res: ARes)
    ensures Depth(res.st.vars) == Depth(st.vars)
    decreases fuel, args, 0
  {
    match args
    case ENil => ARes(Vals([]), st)
    case ECons(e, rest) =>
      var r := EvalExpr(p, fuel, e, st);
      if !r.out.Val? then ARes(ArgsFail(r.out), r.st)
      else
        var rs := EvalArgs(p, fuel, rest, r.st);
        if rs.out.ArgsFail? then rs else ARes(Vals([r.out.v] + rs.out.vs), rs.st)
  }

  function EvalTest(p: Program, fuel: nat, test: OptExpr, st: State): (res: ERes)
    ensures Depth(res.st.vars) == Depth(st.vars)
    decreases fuel, test, 0
  {
    match test
    case NoExpr => ERes(Val(BoolV(true)), st)
    case SomeExpr(e) => EvalExpr(p, fuel, e, st)
  }

  function ExecOpt(p: Program, fuel: nat, s: OptStmt, st: State): (res: SRes)
    ensures Depth(res.st.vars) >= Depth(st.vars)
    decreases fuel, s, 0
  {
    match s
    case NoStmt => SRes(Normal, st)
    case SomeStmt(s) => ExecStmt(p, fuel, s, st)
  }

  function ExecList(p: Program, fuel: nat, list: Stmts, st: State): (res: SRes)
    ensures Depth(res.st.vars) >= Depth(st.vars)
    decreases fuel, list, 0
  {
    match list
    case SNil => SRes(Normal, st)
    case SCons(s, rest) =>
      var r := ExecStmt(p, fuel, s, st);
      if r.out == Normal then ExecList(p, fuel, rest, r.st) else r
  }

  function ExecScoped(p: Program, fuel: nat, list: Stmts, st: State): (res: SRes)
    ensures Depth(res.st.vars) == Depth(st.vars)
    decreases fuel, list, 1
  {
    var r := ExecList(p, fuel, list, st);
    SRes(r.out, LeaveScope(r.st, Depth(st.vars)))
  }

  function ExecStmt(p: Program, fuel: nat, s: Stmt, st: State): (res: SRes)
    ensures Depth(res.st.vars) >= Depth(st.vars)
    decreases fuel, s, 1
  {
    match s
    case ExprStmt(x) =>
      var r := EvalExpr(p, fuel, x, st);
      if r.out.Val? then SRes(Normal, r.st) else SRes(AbruptEnd(r.out), r.st)
    case Define(name, x) =>
      var r := EvalExpr(p, fuel, x, st);
      if r.out.Val? then SRes(Normal, Declare(r.st, name, r.out.v)) else SRes(AbruptEnd(r.out), r.st)
    case Assign(name, x) =>
      var r := EvalExpr(p, fuel, x, st);
      if r.out.Val? then SRes(Normal, Store(r.st, name, r.out.v)) else SRes(AbruptEnd(r.out), r.st)
    case IncCounter(c) => SRes(Normal, st.(cover := st.cover + [c]))
    case SonarCall(v1, v2, site) =>
      var r1 := EvalExpr(p, fuel, v1, st);
      if !r1.out.Val? then SRes(AbruptEnd(r1.out), r1.st)
      else
        var r2 := EvalExpr(p, fuel, v2, r1.st);
        if !r2.out.Val? then SRes(AbruptEnd(r2.out), r2.st)
        else SRes(if p.lang.faults(r1.out.v, r2.out.v) then Faulted else Normal,
                  Reported(r2.st, r1.out.v, r2.out.v, site))
    case Return(x) =>
      var r := EvalExpr(p, fuel, x, st);
      if r.out.Val? then SRes(Returned(r.out.v), r.st) else SRes(AbruptEnd(r.out), r.st)
    case Branch(kind) =>
      SRes((match kind case Break => Broke case Continue => Continued case Fallthrough => Fell), st)
    case Block(body) => ExecScoped(p, fuel, body, st)
    case If(init, cond, thn, els) =>
      var ri := ExecOpt(p, fuel, init, st);
      var r :=
        if ri.out != Normal then ri
        else
          var rc := EvalExpr(p, fuel, cond, ri.st);
          if !rc.out.Val? then SRes(AbruptEnd(rc.out), rc.st)
          else if Truth(rc.out.v) then ExecScoped(p, fuel, thn, rc.st)
          else ExecElse(p, fuel, els, rc.st);
      SRes(r.out, LeaveScope(r.st, Depth(st.vars)))
    case For(init, _, _, _) =>
      var ri := ExecOpt(p, fuel, init, st);
      var r := if ri.out != Normal then ri else ExecLoop(p, fuel, s, ri.st);
      SRes(r.out, LeaveScope(r.st, Depth(st.vars)))
    case Switch(init, tag, clauses) =>
      var ri := ExecOpt(p, fuel, init, st);
      var r :=
        if ri.out != Normal then ri
        else
          var rt := EvalTest(p, fuel, tag, ri.st);
          if !rt.out.Val? then SRes(AbruptEnd(rt.out), rt.st)
          else ExecSwitch(p, fuel, clauses, rt.out.v, rt.st);
      SRes(r.out, LeaveScope(r.st, Depth(st.vars)))
  }

  function ExecElse(p: Program, fuel: nat, els: Else, st: State): (res: SRes)
    ensures Depth(res.st.vars) >= Depth(st.vars)
    decreases fuel, els, 0
  {
    match els
    case NoElse => SRes(Normal, st)
    case ElseIf(s) => ExecStmt(p, fuel, s, st)
    case ElseBlock(b) => ExecScoped(p, fuel, b, st)
  }

  /** The iterations of a for statement, after its init statement. */
  function ExecLoop(p: Program, fuel: nat, s: Stmt, st: State): (res: SRes)
    requires s.For?
    ensures Depth(res.st.vars) >= Depth(st.vars)
    decreases fuel, s, 0
  {
    var rc := EvalTest(p, fuel, s.test, st);
    if !rc.out.Val? then SRes(AbruptEnd(rc.out), rc.st)
    else if !Truth(rc.out.v) then SRes(Normal, rc.st)
    else
      var rb := ExecScoped(p, fuel, s.body, rc.st);
      if rb.out == Broke then SRes(Normal, rb.st)
      else if rb.out != Normal && rb.out != Continued then rb
      else
        var rp := ExecOpt(p, fuel, s.post, rb.st);
        if rp.out != Normal then rp
        else if fuel == 0 then SRes(OutOfFuel, rp.st)
        else ExecLoop(p, fuel - 1, s, rp.st)
  }

  /** Selects a clause for the tag value and runs from it. */
  function ExecSwitch(p: Program, fuel: nat, clauses: Clauses, tag: Value, st: State): (res: SRes)
    ensures Depth(res.st.vars) == Depth(st.vars)
    decreases fuel, clauses, 2
  {
    var m := MatchClause(p, fuel, clauses, tag, st);
    match m.out
    case MatchFail(out) => if out.Val? then SRes(Normal, m.st) else SRes(AbruptEnd(out), m.st)
    case Hit(k) => RunFrom(p, fuel, clauses, k, m.st)
    case Miss =>
      var d := DefaultIndex(clauses);
      if d.None? then SRes(Normal, m.st) else RunFrom(p, fuel, clauses, d.value, m.st)
  }

  function DefaultIndex(clauses: Clauses): Option<nat>
  {
    match clauses
    case CNil => None
    case CCons(c, rest) =>
      if c.isDefault then Some(0)
      else match DefaultIndex(rest) case Some(k) => Some(k + 1) case None => None
  }

  /** Case expressions are evaluated clause by clause until one equals the tag; default is passed over. */
  function MatchClause(p: Program, fuel: nat, clauses: Clauses, tag: Value, st: State): (res: MRes)
    ensures Depth(res.st.vars) == Depth(st.vars)
    decreases fuel, clauses, 1
  {
    match clauses
    case CNil => MRes(Miss, st)
    case CCons(c, rest) =>
      var m := if c.isDefault then MRes(Miss, st) else MatchExprs(p, fuel, c.exprs, tag, st);
      if m.out.Miss? then
        var r := MatchClause(p, fuel, rest, tag, m.st);
        if r.out.Hit? then MRes(Hit(r.out.k + 1), r.st) else r
      else m
  }

  function MatchExprs(p: Program, fuel: nat, exprs: Exprs, tag: Value, st: State): (res: MRes)
    ensures Depth(res.st.vars) == Depth(st.vars)
    decreases fuel, exprs, 0
  {
    match exprs
    case ENil => MRes(Miss, st)
    case ECons(e, rest) =>
      var r := OneCase(p, fuel, e, tag, st);
      if !r.out.Val? then MRes(MatchFail(r.out), r.st)
      else if Truth(r.out.v) then MRes(Hit(0), r.st)
      else MatchExprs(p, fuel, rest, tag, r.st)
  }

  /** Evaluates one case expression and compares the tag with it. */
  function OneCase(p: Program, fuel: nat, e: Expr, tag: Value, st: State): (res: ERes)
    ensures Depth(res.st.vars) == Depth(st.vars)
    decreases fuel, e, 1
  {
    var r := EvalExpr(p, fuel, e, st);
    if !r.out.Val? then r else MatchOne(p.lang, e, tag, r.out.v, r.st)
  }

  /** The comparison of the tag with the value of a case expression. */
  function MatchOne(lang: Lang, e: Expr, tag: Value, v: Value, st: State): ERes
  {
    if e.WatchedCase? then FinishWatch(lang, Eql, tag, v, e.site, st) else FinishOp(lang, Cmp(Eql), tag, v, st)
  }

  /** Runs clause k, falling through to the next clause as long as a body asks for it. */
  function RunFrom(p: Program, fuel: nat, clauses: Clauses, k: nat, st: State): (res: SRes)
    ensures Depth(res.st.vars) == Depth(st.vars)
    decreases fuel, clauses, 0
  {
    match clauses
    case CNil => SRes(Normal, st)
    case CCons(c, rest) =>
      if k > 0 then RunFrom(p, fuel, rest, k - 1, st)
      else
        var r := ExecScoped(p, fuel, c.body, st);
        if r.out == Fell then RunFrom(p, fuel, rest, 0, r.st)
        else if r.out == Broke then SRes(Normal, r.st)
        else r
  }

  // ----- Function literals -------------------------------------------------------------

  /** Whether a function literal occurs in an expression. */
  predicate HasFuncLit(e: Expr)
  {
    match e
    case Lit(_) => false
    case Ident(_) => false
    case Binary(_, x, y) => HasFuncLit(x) || HasFuncLit(y)
    case Not(x) => HasFuncLit(x)
    case Call(_, args) => HasFuncLits(args)
    case FuncLitCall(_) => true
    case Watched(_, x, y, _) => HasFuncLit(x) || HasFuncLit(y)
    case WatchedCase(e, _) => HasFuncLit(e)
  }

  predicate HasFuncLits(es: Exprs)
  {
    es.ECons? && (HasFuncLit(es.head) || HasFuncLits(es.tail))
  }

  /** An expression and the expressions it is made of; bodies of function literals are not entered. */
  function Parts(e: Expr): seq<Expr>
  {
    match e
    case Binary(_, x, y) => [e] + Parts(x) + Parts(y)
    case Not(x) => [e] + Parts(x)
    case Call(_, args) => [e] + PartsOf(args)
    case Watched(_, x, y, _) => [e] + Parts(x) + Parts(y)
    case WatchedCase(x, _) => [e] + Parts(x)
    case _ => [e]
  }

  function PartsOf(es: Exprs): seq<Expr>
  {
    if es.ENil? then [] else Parts(es.head) + PartsOf(es.tail)
  }

  function Append(a: Stmts, b: Stmts): Stmts
  {
    match a case SNil => b case SCons(s, rest) => SCons(s, Append(rest, b))
  }

  // ----- One step at a time ------------------------------------------------------------
  // What the semantics says of a single construct, for proofs that leave the rest of it aside.

  lemma {:induction false} StepBinary(p: Program, fuel: nat, op: BinOp, x: Expr, y: Expr, st: State)
    ensures var rx := EvalExpr(p, fuel, x, st);
            EvalExpr(p, fuel, Binary(op, x, y), st) ==
            if !rx.out.Val? then rx
            else if op.LAnd? && !Truth(rx.out.v) then ERes(Val(BoolV(false)), rx.st)
            else if op.LOr? && Truth(rx.out.v) then ERes(Val(BoolV(true)), rx.st)
            else
              var ry := EvalExpr(p, fuel, y, rx.st);
              if !ry.out.Val? then ry else FinishOp(p.lang, op, rx.out.v, ry.out.v, ry.st)
  {
  }

  lemma {:induction false} StepWatched(p: Program, fuel: nat, op: CmpOp, x: Expr, y: Expr, site: nat, st: State)
    ensures var rx := EvalExpr(p, fuel, x, st);
            EvalExpr(p, fuel, Watched(op, x, y, site), st) ==
            if !rx.out.Val? then rx
            else
              var ry := EvalExpr(p, fuel, y, rx.st);
              if !ry.out.Val? then ry else FinishWatch(p.lang, op, rx.out.v, ry.out.v, site, ry.st)
  {
  }

  lemma {:induction false} StepCall(p: Program, fuel: nat, fun: string, args: Exprs, st: State)
    ensures var ra := EvalArgs(p, fuel, args, st);
            EvalExpr(p, fuel, Call(fun, args), st) ==
            if ra.out.ArgsFail? then ERes(ra.out.out, ra.st)
            else if fun == "panic" then ERes(EPanic(if |ra.out.vs| == 0 then Unit else ra.out.vs[0]), ra.st)
            else if fun !in p.funcs then CallExtern(p.lang, fun, ra.out.vs, ra.st)
            else if fuel == 0 then ERes(EFuel, ra.st)
            else
              var f := p.funcs[fun];
              FinishCall(ExecList(p, fuel - 1, f.body, ra.st.(vars := BindParams(f.params, ra.out.vs))), ra.st.vars)
  {
  }

  lemma {:induction false} StepLiteral(p: Program, fuel: nat, body: Stmts, st: State)
    ensures var r := ExecList(p, fuel, body, st);
            EvalExpr(p, fuel, FuncLitCall(body), st) == FinishCall(r, Truncate(r.st.vars, Depth(st.vars)))
  {
  }

  lemma {:induction false} StepArgs(p: Program, fuel: nat, e: Expr, rest: Exprs, st: State)
    ensures var r := EvalExpr(p, fuel, e, st);
            EvalArgs(p, fuel, ECons(e, rest), st) ==
            if !r.out.Val? then ARes(ArgsFail(r.out), r.st)
            else
              var rs := EvalArgs(p, fuel, rest, r.st);
              if rs.out.ArgsFail? then rs else ARes(Vals([r.out.v] + rs.out.vs), rs.st)
  {
  }

  lemma {:induction false} StepList(p: Program, fuel: nat, s: Stmt, rest: Stmts, st: State)
    ensures var r := ExecStmt(p, fuel, s, st);
            ExecList(p, fuel, SCons(s, rest), st) == if r.out == Normal then ExecList(p, fuel, rest, r.st) else r
  {
  }

  /** The statements that evaluate one expression. */
  predicate OneExpr(s: Stmt)
  {
    s.ExprStmt? || s.Define? || s.Assign? || s.Return?
  }

  function Conclude(s: Stmt, r: ERes): SRes
    requires OneExpr(s)
  {
    if !r.out.Val? then SRes(AbruptEnd(r.out), r.st)
    else
      match s
      case Define(name, _) => SRes(Normal, Declare(r.st, name, r.out.v))
      case Assign(name, _) => SRes(Normal, Store(r.st, name, r.out.v))
      case Return(_) => SRes(Returned(r.out.v), r.st)
      case _ => SRes(Normal, r.st)
  }

  lemma {:induction false} StepOneExpr(p: Program, fuel: nat, s: Stmt, st: State)
    requires OneExpr(s)
    ensures ExecStmt(p, fuel, s, st) == Conclude(s, EvalExpr(p, fuel, s.x, st))
  {
  }

  lemma {:induction false} StepSonarCall(p: Program, fuel: nat, x: Expr, y: Expr, site: nat, st: State)
    ensures var r1 := EvalExpr(p, fuel, x, st);
            ExecStmt(p, fuel, SonarCall(x, y, site), st) ==
            if !r1.out.Val? then SRes(AbruptEnd(r1.out), r1.st)
            else
              var r2 := EvalExpr(p, fuel, y, r1.st);
              if !r2.out.Val? then SRes(AbruptEnd(r2.out), r2.st)
              else SRes(if p.lang.faults(r1.out.v, r2.out.v) then Faulted else Normal,
                        Reported(r2.st, r1.out.v, r2.out.v, site))
  {
  }

  lemma {:induction false} StepIf(p: Program, fuel: nat, s: Stmt, st: State)
    requires s.If?
    ensures var ri := ExecOpt(p, fuel, s.init, st);
            var r :=
              if ri.out != Normal then ri
              else
                var rc := EvalExpr(p, fuel, s.cond, ri.st);
                if !rc.out.Val? then SRes(AbruptEnd(rc.out), rc.st)
                else if Truth(rc.out.v) then ExecScoped(p, fuel, s.thn, rc.st)
                else ExecElse(p, fuel, s.els, rc.st);
            ExecStmt(p, fuel, s, st) == SRes(r.out, LeaveScope(r.st, Depth(st.vars)))
  {
  }

  lemma {:induction false} StepFor(p: Program, fuel: nat, s: Stmt, st: State)
    requires s.For?
    ensures var ri := ExecOpt(p, fuel, s.init, st);
            var r := if ri.out != Normal then ri else ExecLoop(p, fuel, s, ri.st);
            ExecStmt(p, fuel, s, st) == SRes(r.out, LeaveScope(r.st, Depth(st.vars)))
  {
  }

  lemma StepLoop(p: Program, fuel: nat, s: Stmt, st: State)
    requires s.For?
    ensures var rc := EvalTest(p, fuel, s.test, st);
            ExecLoop(p, fuel, s, st) ==
            if !rc.out.Val? then SRes(AbruptEnd(rc.out), rc.st)
            else if !Truth(rc.out.v) then SRes(Normal, rc.st)
            else
              var rb := ExecScoped(p, fuel, s.body, rc.st);
              if rb.out == Broke then SRes(Normal, rb.st)
              else if rb.out != Normal && rb.out != Continued then rb
              else
                var rp := ExecOpt(p, fuel, s.post, rb.st);
                if rp.out != Normal then rp
                else if fuel == 0 then SRes(OutOfFuel, rp.st)
                else ExecLoop(p, fuel - 1, s, rp.st)
  {
  }

  lemma {:induction false} StepSwitch(p: Program, fuel: nat, s: Stmt, st: State)
    requires s.Switch?
    ensures var ri := ExecOpt(p, fuel, s.init, st);
            var r :=
              if ri.out != Normal then ri
              else
                var rt := EvalTest(p, fuel, s.tag, ri.st);
                if !rt.out.Val? then SRes(AbruptEnd(rt.out), rt.st)
                else ExecSwitch(p, fuel, s.clauses, rt.out.v, rt.st);
            ExecStmt(p, fuel, s, st) == SRes(r.out, LeaveScope(r.st, Depth(st.vars)))
  {
  }

  lemma {:induction false} StepSelect(p: Program, fuel: nat, clauses: Clauses, tag: Value, st: State)
    ensures var m := MatchClause(p, fuel, clauses, tag, st);
            ExecSwitch(p, fuel, clauses, tag, st) ==
            match m.out
            case MatchFail(out) => if out.Val? then SRes(Normal, m.st) else SRes(AbruptEnd(out), m.st)
            case Hit(k) => RunFrom(p, fuel, clauses, k, m.st)
            case Miss =>
              var d := DefaultIndex(clauses);
              if d.None? then SRes(Normal, m.st) else RunFrom(p, fuel, clauses, d.value, m.st)
  {
  }

  lemma {:induction false} StepClause(p: Program, fuel: nat, c: Clause, rest: Clauses, tag: Value, st: State)
    ensures var m := if c.isDefault then MRes(Miss, st) else MatchExprs(p, fuel, c.exprs, tag, st);
            MatchClause(p, fuel, CCons(c, rest), tag, st) ==
            if !m.out.Miss? then m
            else
              var r := MatchClause(p, fuel, rest, tag, m.st);
              if r.out.Hit? then MRes(Hit(r.out.k + 1), r.st) else r
  {
  }

  lemma {:induction false} StepCase(p: Program, fuel: nat, e: Expr, rest: Exprs, tag: Value, st: State)
    ensures var r := OneCase(p, fuel, e, tag, st);
            MatchExprs(p, fuel, ECons(e, rest), tag, st) ==
            if !r.out.Val? then MRes(MatchFail(r.out), r.st)
            else if Truth(r.out.v) then MRes(Hit(0), r.st)
            else MatchExprs(p, fuel, rest, tag, r.st)
  {
  }

  lemma {:induction false} StepOne(p: Program, fuel: nat, e: Expr, tag: Value, st: State)
    ensures var r := EvalExpr(p, fuel, e, st);
            OneCase(p, fuel, e, tag, st) == if !r.out.Val? then r else MatchOne(p.lang, e, tag, r.out.v, r.st)
  {
  }

  lemma {:induction false} StepRun(p: Program, fuel: nat, c: Clause, rest: Clauses, k: nat, st: State)
    ensures var r := ExecScoped(p, fuel, c.body, st);
            RunFrom(p, fuel, CCons(c, rest), k, st) ==
            if k > 0 then RunFrom(p, fuel, rest, k - 1, st)
            else if r.out == Fell then RunFrom(p, fuel, rest, 0, r.st)
            else if r.out == Broke then SRes(Normal, r.st)
            else r
  {
  }
}
