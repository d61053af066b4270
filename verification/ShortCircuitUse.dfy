/** Short-circuit operators where scripts have them: opening a statement, and at two inputs. */
module ShortCircuitUses {
  import opened Values
  import opened Ast
  import opened CodeGen
  import opened Machine
  import opened Semantics
  import opened Runs
  import opened StmtSemantics
  import opened ExprCorrect
  import opened ProgramCorrect
  import opened CodeShapes
  import opened ShapedExprs
  import opened InsideRuns
  import opened ShortCircuits

  /** Addresses handed down are never ahead: what a node returns lies behind its code's end or before it. */
  lemma ReturnedBehind(ar: Arith, e: Expr, t: TypeReq, at: nat, ip: nat)
    requires Fits(e, t) && ip <= at
    ensures GenExpr(ar, e, t, at, ip).ip <= at + |GenExpr(ar, e, t, at, ip).code|
  {
    hide GenExpr, Fits, Held, Landing;
    var ts := ExprShaped(ar, e, t, at, ip, Shape(FLAT, false));
  }

  /** The address compiling a block hands on. */
  function BlockIp(ar: Arith, b: Block, at: nat, ip: nat, ctx: LoopTargets): nat
    decreases b
  {
    match b
    case End => ip
    case Then(st, rest) =>
      var g := GenStmt(ar, st, at, ip, ctx);
      BlockIp(ar, rest, at + |g.code|, g.ip, ctx)
  }

  function Appended(b: Block, c: Block): Block {
    match b
    case End => c
    case Then(st, rest) => Then(st, Appended(rest, c))
  }

  lemma {:induction false} AppendedCode(ar: Arith, b: Block, c: Block, at: nat, ip: nat, ctx: LoopTargets)
    ensures var g := GenBlock(ar, b, at, ip, ctx);
      GenBlock(ar, Appended(b, c), at, ip, ctx)
      == g + GenBlock(ar, c, at + |g|, BlockIp(ar, b, at, ip, ctx), ctx)
    decreases b
  {
    hide GenStmt;
    match b
    case End => assert [] + GenBlock(ar, c, at, ip, ctx) == GenBlock(ar, c, at, ip, ctx);
    case Then(st, rest) =>
      var g := GenStmt(ar, st, at, ip, ctx);
      AppendedCode(ar, rest, c, at + |g.code|, g.ip, ctx);
  }

  lemma {:induction false} BlockIpBehind(ar: Arith, b: Block, at: nat, ip: nat, ctx: LoopTargets)
    requires FitsBlock(b) && ip <= at
    ensures BlockIp(ar, b, at, ip, ctx) <= at + |GenBlock(ar, b, at, ip, ctx)|
    decreases b
  {
    hide GenExpr, Fits, GenIf, GenLoop;
    if b.Then? {
      var g := GenStmt(ar, b.first, at, ip, ctx);
      if b.first.ExprStmt? {
        ReturnedBehind(ar, b.first.e, ReqNone, at, ip);
      }
      BlockIpBehind(ar, b.rest, at + |g.code|, g.ip, ctx);
    }
  }

  /** The statement's code begins with that of `e`, wanted as a `t`. */
  predicate Opens(st: Stmt, e: Expr, t: TypeReq) {
    match st
    case ExprStmt(x) => x == e && t == ReqNone
    case If(test, _, _) => test == e && t == TestType(e)
    case Return(Present(x)) => x == e && t == ReturnType(e)
    case _ => false
  }

  lemma OpensCode(ar: Arith, st: Stmt, rest: Block, e: Expr, t: TypeReq, at: nat, ip: nat, ctx: LoopTargets)
    returns (more: Code)
    requires Opens(st, e, t)
    ensures GenBlock(ar, Then(st, rest), at, ip, ctx) == GenExpr(ar, e, t, at, ip).code + more
  {
    hide GenExpr, GenStmt, Opens;
    var c, g := GenExpr(ar, e, t, at, ip).code, GenStmt(ar, st, at, ip, ctx);
    var own := OpensStmt(ar, st, e, t, at, ip, ctx);
    more := own + GenBlock(ar, rest, at + |g.code|, g.ip, ctx);
  }

  lemma OpensStmt(ar: Arith, st: Stmt, e: Expr, t: TypeReq, at: nat, ip: nat, ctx: LoopTargets) returns (more: Code)
    requires Opens(st, e, t)
    ensures GenStmt(ar, st, at, ip, ctx).code == GenExpr(ar, e, t, at, ip).code + more
  {
    hide GenExpr, GenIf, TestType, ReturnType;
    match st
    case ExprStmt(_) => more := [];
    case Return(_) => more := [Op(ReturnOp(t))];
    case If(_, _, _) => more := OpensIf(ar, st, at, ip, ctx);
  }

  lemma OpensIf(ar: Arith, st: Stmt, at: nat, ip: nat, ctx: LoopTargets) returns (more: Code)
    requires st.If?
    ensures GenIf(ar, st, at, ip, ctx) == GenExpr(ar, st.test, TestType(st.test), at, ip).code + more
  {
    hide GenExpr, GenBlock, TestType, JumpUnless;
    var gt := GenExpr(ar, st.test, TestType(st.test), at, ip);
    more := GenIf(ar, st, at, ip, ctx)[|gt.code|..];
  }

  /**
    Anywhere in a block, behind statements the compiler serves, an operator that opens a statement works
    exactly under the condition of `ShortCircuitRight`, whose address is the one the compiler hands down.
   */
  lemma ShortCircuitOpens(p: Program, before: Block, st: Stmt, rest: Block, e: Expr, t: TypeReq,
                          at: nat, ip: nat, ctx: LoopTargets, s: State)
    requires IsShortCircuit(e) && Fits(e.left, ReqUInt) && Fits(e.right, ReqUInt) && Opens(st, e, t)
    requires FitsBlock(before) && ip <= at && s.ip == at + |GenBlock(p.ar, before, at, ip, ctx)|
    requires At(p, GenBlock(p.ar, Appended(before, Then(st, rest)), at, ip, ctx), at) && HasRoom(s, Peak(e, t))
    ensures RunsRight(p, e, t, BlockIp(p.ar, before, at, ip, ctx), s)
      <==> (Decides(p.ar, e, s.vars) ==> Harmless(p.ar, e, s.vars))
  {
    hide GenExpr, GenBlock, At, HasRoom, Peak, Fits, FitsBlock, RunsRight, Harmless, Decides, BlockIp, Appended;
    var from := BlockIp(p.ar, before, at, ip, ctx);
    AppendedCode(p.ar, before, Then(st, rest), at, ip, ctx);
    BlockIpBehind(p.ar, before, at, ip, ctx);
    var more := OpensCode(p.ar, st, rest, e, t, s.ip, from, ctx);
    NoneOpensVar(st, e, t);
    var c := GenBlock(p.ar, before, at, ip, ctx);
    AtSplit(p, c, GenExpr(p.ar, e, t, s.ip, from).code + more, at);
    AtSplit(p, GenExpr(p.ar, e, t, s.ip, from).code, more, s.ip);
    ShortCircuitRight(p, e, t, from, s);
  }

  lemma NoneOpensVar(st: Stmt, e: Expr, t: TypeReq)
    requires Opens(st, e, t)
    ensures t != ReqVar
  {
  }

  // ----- two scripts -----

  /** The script `1 || right;`. */
  function OneOr(right: Expr): Expr {
    IntBinary(LogicalOr, IntLit(1), right)
  }

  lemma OneServed(right: Expr)
    ensures Fits(IntLit(1), ReqUInt) && Peak(IntLit(1), ReqUInt) == INT_SLOT
    ensures IsShortCircuit(OneOr(right))
        && Peak(OneOr(right), ReqNone) == INT_SLOT.Max(Peak(right, ReqUInt)).Max(Room(0, 0, 0))
  {
    var one: Expr := IntLit(1);
    assert Fits(one, ReqUInt) == FitsNode(one, ReqUInt) && Peak(one, ReqUInt) == PeakNode(one, ReqUInt);
    assert Peak(OneOr(right), ReqNone) == PeakNode(OneOr(right), ReqNone);
  }

  lemma OneDecides(ar: Arith, right: Expr, vars: Store)
    ensures Eval(ar, IntLit(1), ReqUInt, vars) == Effect(IntValue(1), vars)
    ensures IsShortCircuit(OneOr(right)) && Decides(ar, OneOr(right), vars)
  {
    var one: Expr := IntLit(1);
    assert Eval(ar, one, ReqUInt, vars) == EvalNode(ar, one, ReqUInt, vars);
  }

  /** The script `1 || foo;` never ends. */
  lemma NameHangs(ar: Arith, vars: Store, n: nat)
    ensures Run(Compiled(ar, Alone(OneOr(Constant("foo")))), n, Running(Start(vars))).Running?
  {
    hide GenExpr, At, Eval, Peak, Fits, Decides, GenBlock, Run, Hangs, HasRoom;
    var e, p := OneOr(Constant("foo")), Compiled(ar, Alone(OneOr(Constant("foo"))));
    OneServed(e.right);
    OneDecides(ar, e.right, vars);
    AloneAt(ar, e);
    NameRoom(vars);
    var m, s := ConstantHangs(p, e, ReqNone, 0, Start(vars));
    StillHangs(p, m, Start(vars), s, n);
  }

  lemma NameRoom(vars: Store)
    ensures HasRoom(Start(vars), Peak(OneOr(Constant("foo")), ReqNone))
  {
    var name: Expr := Constant("foo");
    OneServed(name);
    assert Peak(name, ReqUInt) == PeakNode(name, ReqUInt);
  }

  lemma StillHangs(p: Program, m: nat, s0: State, s: State, n: nat)
    requires Goes(p, m, s0, s) && Hangs(p, s)
    ensures Run(p, n, Running(s0)).Running?
  {
    hide Step;
    if n <= m {
      WasRunning(p, n, m, Running(s0));
    } else {
      RunAdd(p, m, n - m, Running(s0));
    }
  }

  /** `1 || (x = 5)`, of which only the 1 should be looked at. */
  const FIVE: Expr := Assign("x", Absent, IntLit(5))

  lemma FiveServed(vars: Store)
    ensures Fits(FIVE, ReqUInt) && HasRoom(Start(vars), Peak(OneOr(FIVE), ReqNone))
    ensures Caught(FIVE) && PlainTargets(FIVE) && Names(FIVE) == {"x"}
  {
    FiveFits();
    FivePeak();
    hide Fits, Peak;
    OneServed(FIVE);
    var five: Expr := IntLit(5);
    assert Caught(five) && PlainTargets(five) && Names(five) == {};
  }

  lemma FiveFits()
    ensures Fits(FIVE, ReqUInt)
  {
    var five: Expr := IntLit(5);
    assert Fits(five, ReqUInt) == FitsNode(five, ReqUInt) && Fits(FIVE, ReqUInt) == FitsNode(FIVE, ReqUInt);
  }

  lemma FivePeak()
    ensures Peak(FIVE, ReqUInt) == INT_SLOT
  {
    var five: Expr := IntLit(5);
    assert Peak(five, ReqUInt) == PeakNode(five, ReqUInt) && Peak(FIVE, ReqUInt) == PeakNode(FIVE, ReqUInt);
    assert PeakIndex(Absent) == Room(0, 0, 0);
  }

  /** The script `1 || (x = 5);` puts the 1 into `x`: it is right exactly if that is there already. */
  lemma OneStored(ar: Arith, vars: Store) returns (n: nat, s': State)
    ensures var p := Compiled(ar, Alone(OneOr(FIVE)));
      && Arrives(p, n, Start(vars), s', |GenExpr(ar, OneOr(FIVE), ReqNone, 0, 0).code|)
      && s'.vars == vars["x" := VUnsigned(1)]
      && (RunsRight(p, OneOr(FIVE), ReqNone, 0, Start(vars)) <==> "x" in vars && vars["x"] == VUnsigned(1))
  {
    hide GenExpr, At, Eval, Peak, Fits, Decides, GenBlock, Run, HasRoom, Arrives, RunsRight, Assigned, Caught,
         Delivers, PlainTargets, Names;
    var p, e := Compiled(ar, Alone(OneOr(FIVE))), OneOr(FIVE);
    OneServed(FIVE);
    OneDecides(ar, FIVE, vars);
    AloneAt(ar, e);
    FiveServed(vars);
    ShortCircuitPlain(p, e, ReqNone, 0, Start(vars));
    n, s' := AssignStores(p, e, ReqNone, 0, Start(vars));
    FiveAssigned(ar, vars);
  }

  lemma FiveAssigned(ar: Arith, vars: Store)
    ensures Assigned(ar, FIVE, 1, vars) == vars["x" := VUnsigned(1)]
  {
    FiveServed(vars);
    AssignedPlain(ar, FIVE, 1, vars);
  }
}
