/**
  Why programs that use the names of the sonar pass are left out of its theorem: a variable of the
  program with the name of the first stored operand is captured by the function literal.
*/
module SonarCapture {
  import opened MiniGo
  import opened SonarPass
  import opened SonarProbes
  import opened Wrappers

  /** name op __gofuzz_v1 */
  function Clash(op: CmpOp, name: string): Expr
  {
    Binary(Cmp(op), Ident(name), Ident(Val1()))
  }

  lemma {:induction false} ClashVisited(env: Env, path: Path, op: CmpOp, name: string)
    requires env.on && env.interesting(Ident(name), Ident(Val1()))
    ensures exists site :: VisitExpr(env, path, Clash(op, name)) ==
                      Binary(Cmp(Eql), Probe(op, Ident(name), Ident(Val1()), false, false, site), Lit(BoolV(true)))
  {
    hide Flags, Probe;
    var x, y := Ident(name), Ident(Val1());
    var site := SiteOf(env, path, op, Ordinary, x, y, false).value;
    assert Compare(env, path, op, Ordinary, x, y, x, y, false) ==
           Binary(Cmp(Eql), Probe(op, x, y, false, false, site), Lit(BoolV(true)));
    assert VisitExpr(env, path, Clash(op, name)) == Compare(env, path, op, Ordinary, x, y, x, y, false);
  }

  /** The rewritten comparison compares the first operand with itself, whatever the variable holds. */
  lemma {:induction false} NameCaptured(env: Env, path: Path, p: Program, fuel: nat, op: CmpOp, name: string, st: State)
    requires env.on && env.interesting(Ident(name), Ident(Val1()))
    requires var a := Lookup(st.vars, st.globals, name); !p.lang.faults(a, a)
    ensures var a, b := Lookup(st.vars, st.globals, name), Lookup(st.vars, st.globals, Val1());
            && EvalExpr(p, fuel, Clash(op, name), st).out == FinishOp(p.lang, Cmp(op), a, b, st).out
            && EvalExpr(p, fuel, VisitExpr(env, path, Clash(op, name)), st).out
               == FinishOp(p.lang, Cmp(op), a, a, st).out
  {
    hide Probe, VisitExpr, Val1, FinishOp, FinishWatch;
    ClashVisited(env, path, op, name);
    var x, y := Ident(name), Ident(Val1());
    var site :| VisitExpr(env, path, Clash(op, name)) ==
      Binary(Cmp(Eql), Probe(op, x, y, false, false, site), Lit(BoolV(true)));
    var a := Lookup(st.vars, st.globals, name);
    var st1 := Declare(st, Val1(), a);
    StepBinary(p, fuel, Cmp(op), x, y, st);
    assert EvalExpr(p, fuel, y, st1) == ERes(Val(a), st1);
    ProbeBoth(p, fuel, op, x, y, site, st, ERes(Val(a), st), ERes(Val(a), st1));
    var r := EvalExpr(p, fuel, Probe(op, x, y, false, false, site), st);
    WatchSplit(p.lang, op, a, a, site, LeaveScope(st1, Depth(st.vars)), st);
    WatchIsOp(p.lang, op, a, site, LeaveScope(st1, Depth(st.vars)), st);
    EqualsTrue(p, fuel, Probe(op, x, y, false, false, site), st, r);
  }

  lemma WatchIsOp(lang: Lang, op: CmpOp, a: Value, site: nat, st1: State, st: State)
    requires !lang.faults(a, a)
    ensures FinishWatch(lang, op, a, a, site, st1).out == FinishOp(lang, Cmp(op), a, a, st).out
  {
  }
}
