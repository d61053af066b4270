/**
  Assignments that move their right-hand side as a variable. Such an assignment copies whatever variable is
  current when the right-hand side is done. A conditional there may end in a node that makes none current:
  this module says, for every such assignment, when it still does what it should.
 */
module VarWanted {
  import opened Values
  import opened Ast
  import opened CodeGen
  import opened Machine
  import opened Semantics
  import opened Runs
  import opened ExprCorrect
  import opened CodeShapes
  import opened ShapedExprs
  import opened InsideRuns

  // ----- what such an assignment means -----

  /** A right-hand side asked for a variable, all of whose parts are served as what they are. */
  predicate Askable(e: Expr) {
    match e
    case Conditional(c, a, b) => Fits(c, TestType(c)) && Askable(a) && Askable(b)
    case _ => Fits(e, Natural(e))
  }

  /** The type a node that is no conditional is assigned as. */
  function Natural(e: Expr): TypeReq {
    if e.Var? || e.Assign? then ReqVar else Preferred(e)
  }

  /** The node the tests select, and the store it finds. */
  function Leaf(ar: Arith, e: Expr, vars: Store): (Expr, Store) {
    match e
    case Conditional(c, a, b) =>
      var ec := Eval(ar, c, TestType(c), vars);
      Leaf(ar, if Holds(ar, ec.out) then a else b, ec.vars)
    case _ => (e, vars)
  }

  /** The variable current when the selected node is done. */
  function CurrentThen(ar: Arith, e: Expr, vars: Store, cur: Option<CString>): Option<CString> {
    match e
    case Conditional(c, a, b) =>
      var ec := Eval(ar, c, TestType(c), vars);
      CurrentThen(ar, if Holds(ar, ec.out) then a else b, ec.vars, CurAfter(ar, c, TestType(c), vars, cur))
    case _ => CurAfter(ar, e, Natural(e), vars, cur)
  }

  /** What the selected node evaluates to. */
  function Wanted(ar: Arith, e: Expr, vars: Store): Effect {
    var l := Leaf(ar, e, vars);
    Eval(ar, l.0, Natural(l.0), l.1)
  }

  predicate MovesVar(e: Expr, t: TypeReq) {
    e.Assign? && t in {ReqNone, ReqVar} && AssignType(e.rhs, t) == ReqVar
  }

  /** The variable assigned, and the store it is made in. */
  function Assignee(ar: Arith, e: Expr, vars: Store): (CString, Store)
    requires e.Assign?
  {
    var n := Target(ar, e.name, e.sub, Wanted(ar, e.rhs, vars).vars);
    (n.0, Created(n.1, n.0))
  }

  /** The store after the assignment: the selected node's value is in the variable. */
  function Meant(ar: Arith, e: Expr, vars: Store): Store
    requires e.Assign?
  {
    var n := Assignee(ar, e, vars);
    n.1[n.0 := Stored(ar, n.1, Wanted(ar, e.rhs, vars).out)]
  }

  /** Nodes whose code, asked for a variable, leaves nothing at all: literals and concatenations. */
  predicate Silent(e: Expr) {
    e.IntLit? || e.FloatLit? || e.StrLit? || e.Constant? || e.StrCat? || e.CommaCat?
  }

  /** Nodes whose code, asked for a variable, stores their value in the current one and leaves it on the stack too. */
  predicate LeavesOperand(e: Expr) {
    e.FloatBinary? || e.IntBinary? || e.IntUnary? || e.FloatUnary? || e.StrEq? || e.AssignOp?
  }

  lemma {:induction false} LeafKinds(ar: Arith, e: Expr, vars: Store)
    ensures var l := Leaf(ar, e, vars).0; GivesVar(l) || Silent(l) || LeavesOperand(l)
  {
    if e.Conditional? {
      var ec := Eval(ar, e.test, TestType(e.test), vars);
      LeafKinds(ar, if Holds(ar, ec.out) then e.whenTrue else e.whenFalse, ec.vars);
    }
  }

  // ----- the code of the nodes that are no conditional -----

  lemma SilentCode(ar: Arith, e: Expr, at: nat, ip: nat)
    requires Silent(e)
    ensures GenExpr(ar, e, ReqVar, at, ip).code ==
      if e.StrCat? || e.CommaCat? then GenExpr(ar, e, ReqString, at, ip).code else []
  {
    assert GenExpr(ar, e, ReqVar, at, ip) == GenNode(ar, e, ReqVar, at, ip);
    assert GenExpr(ar, e, ReqString, at, ip) == GenNode(ar, e, ReqString, at, ip);
    hide GenExpr, GenStrings;
  }

  predicate SavesNumber(op: OpCode) {
    op.SAVEVAR_UINT? || op.SAVEVAR_FLT?
  }

  lemma OperandCode(ar: Arith, e: Expr, at: nat, ip: nat) returns (op: OpCode)
    requires LeavesOperand(e)
    ensures SavesNumber(op) && GenExpr(ar, e, ReqVar, at, ip).code == GenExpr(ar, e, Natural(e), at, ip).code + [Op(op)]
    ensures Natural(e) in {ReqUInt, ReqFloat}
  {
    hide GenExpr;
    GenIs(ar, e, ReqVar, at, ip);
    GenIs(ar, e, Natural(e), at, ip);
    op := if e.IntUnary? then ConversionOp(UnaryType(e.uop, e.operand), ReqVar) else ConversionOp(Natural(e), ReqVar);
    hide GenOperands, GenStrings, GenTarget, Operate;
    if e.IntUnary? {
      var g := GenExpr(ar, e.operand, UnaryType(e.uop, e.operand), at, ip).code + [Op(UnaryOpCode(e.uop, e.operand))];
      assert g + [] == g;
    } else {
      OperandTail(ar, e, at, ip, op);
    }
  }

  lemma GenIs(ar: Arith, e: Expr, t: TypeReq, at: nat, ip: nat)
    ensures GenExpr(ar, e, t, at, ip) == GenNode(ar, e, t, at, ip)
  {
  }

  lemma OperandTail(ar: Arith, e: Expr, at: nat, ip: nat, op: OpCode)
    requires LeavesOperand(e) && !e.IntUnary? && op == ConversionOp(Natural(e), ReqVar)
    ensures GenNode(ar, e, ReqVar, at, ip).code == GenNode(ar, e, Natural(e), at, ip).code + [Op(op)]
  {
    hide GenExpr, GenOperands, GenStrings, GenTarget, Operate;
    var t := Natural(e);
    assert Conversion(t, t) == [] && Conversion(t, ReqVar) == [Op(op)];
    var c := GenNode(ar, e, t, at, ip).code;
    if e.IntBinary? && (e.iop.LogicalOr? || e.iop.LogicalAnd?) {
      var gl := GenExpr(ar, e.left, ReqUInt, at, ip);
      var gr := GenExpr(ar, e.right, ReqUInt, at + |gl.code| + 2, gl.ip);
      var d := gl.code + [Op(if e.iop.LogicalOr? then JMPIF_NP else JMPIFNOT_NP), Num(gr.ip)] + gr.code;
      assert d + [] == d;
    } else if e.IntBinary? {
      var d := GenOperands(ar, e, OperandType(e.iop), at, ip).code + [Op(StrictOpCode(e.iop))];
      assert d + [] == d;
    } else if e.FloatBinary? {
      var d := GenOperands(ar, e, ReqFloat, at, ip).code + [Op(ARITH(e.fop))];
      assert d + [] == d;
    } else if e.FloatUnary? {
      var d := GenExpr(ar, e.operand, ReqFloat, at, ip).code + [Op(NEG)];
      assert d + [] == d;
    } else if e.StrEq? {
      var d := GenStrings(ar, e, at, ip).code + [Op(COMPARE_STR)] + (if e.eq then [] else [Op(NOT)]);
      assert d + [] == d;
    } else {
      var gr := GenExpr(ar, e.rhs, t, at, ip);
      var gt := GenTarget(ar, e.name, e.sub, true, at + |gr.code|, gr.ip);
      var d := gr.code + gt.code + Operate(e.aop);
      assert d + [] == d;
    }
  }

  // ----- what the code of a right-hand side does -----

  /** How a right-hand side leaves the machine, when it does not stick. */
  ghost predicate LeftBy(ar: Arith, e: Expr, s: State, s': State) {
    var l := Leaf(ar, e, s.vars).0;
    if LeavesOperand(l) then HeightOf(s') == HeightOf(s).Plus(ResultHeight(Natural(l)))
        && ResultHeight(Natural(l)) != FLAT
    else
      && s'.ints == s.ints && s'.flts == s.flts && s'.strs == s.strs
      && s'.vars == Wanted(ar, e, s.vars).vars && s'.cur == CurrentThen(ar, e, s.vars, s.cur)
  }

  function AskedPeak(e: Expr): Room {
    match e
    case Conditional(c, a, b) => Peak(c, TestType(c)).Max(AskedPeak(a)).Max(AskedPeak(b))
    case _ => Peak(e, Natural(e))
  }

  lemma SaveSteps(p: Program, s: State, op: OpCode) returns (stuck: bool, s': State)
    requires SavesNumber(op) && At(p, [Op(op)], s.ip)
    ensures stuck ==> Step(p, s).Stuck?
    ensures !stuck ==> Step(p, s) == Running(s') && s'.ip == s.ip + 1 && HeightOf(s') == HeightOf(s)
  {
    AtWord(p, [Op(op)], s.ip, 0);
    var w := if s.ip + 1 < |p.code| then p.code[s.ip + 1] else Num(-1);
    stuck := Step(p, s).Stuck?;
    if stuck {
      s' := s;
    } else {
      s' := Step(p, s).s;
      hide Execute;
      ExecuteMoves(p.ar, op, w, s.(ip := s.ip + 1), s');
    }
  }

  lemma SilentRuns(p: Program, e: Expr, ip: nat, s: State) returns (n: nat, s': State)
    requires Silent(e) && Fits(e, Natural(e)) && HasRoom(s, Peak(e, Natural(e)))
    requires At(p, GenExpr(p.ar, e, ReqVar, s.ip, ip).code, s.ip)
    ensures Arrives(p, n, s, s', s.ip + |GenExpr(p.ar, e, ReqVar, s.ip, ip).code|) && LeftBy(p.ar, e, s, s')
  {
    hide GenExpr, Eval, Fits, Peak, HasRoom, At, Arrives, CurAfter;
    SilentCode(p.ar, e, s.ip, ip);
    if e.StrCat? || e.CommaCat? {
      n, s' := ExprArrives(p, e, ReqString, ip, s);
    } else {
      n, s' := 0, s;
      StandsStill(p, s);
      LiteralMeans(p.ar, e, s.vars, s.cur);
    }
  }

  lemma StandsStill(p: Program, s: State)
    ensures Arrives(p, 0, s, s, s.ip)
  {
  }

  lemma LiteralMeans(ar: Arith, e: Expr, vars: Store, cur: Option<CString>)
    requires e.IntLit? || e.FloatLit? || e.StrLit? || e.Constant?
    ensures Eval(ar, e, Natural(e), vars).vars == vars && CurAfter(ar, e, Natural(e), vars, cur) == cur
  {
  }

  lemma OperandRuns(p: Program, e: Expr, ip: nat, s: State) returns (stuck: bool, n: nat, s': State)
    requires LeavesOperand(e) && Fits(e, Natural(e)) && HasRoom(s, Peak(e, Natural(e)))
    requires At(p, GenExpr(p.ar, e, ReqVar, s.ip, ip).code, s.ip)
    ensures var end := s.ip + |GenExpr(p.ar, e, ReqVar, s.ip, ip).code|;
      if stuck then Sticks(p, n, s, s.ip, end) else Arrives(p, n, s, s', end) && LeftBy(p.ar, e, s, s')
  {
    hide GenExpr, Eval, Fits, Peak, HasRoom, At, Arrives, CurAfter, Run, Delivers, Travels, Natural, SavesNumber, Step;
    var op := OperandCode(p.ar, e, s.ip, ip);
    var t := Natural(e);
    var c := GenExpr(p.ar, e, t, s.ip, ip).code;
    AtSplit(p, c, [Op(op)], s.ip);
    var n1, s1 := ExprArrives(p, e, t, ip, s);
    var end := s.ip + |c| + 1;
    ArrivesTravels(p, n1, s, s1, s.ip, s.ip + |c|, end);
    DeliveredHeight(s, s1, t, Eval(p.ar, e, t, s.vars).out);
    stuck, s' := SaveSteps(p, s1, op);
    n := n1 + 1;
    TravelsNext(p, n1, s, s1, s.ip, end);
    if stuck {
      StuckNext(p, n1, s, s1, s.ip, end);
    } else {
      TravelsStep(p, n1, s, s1, s', s.ip, end);
      TravelsArrives(p, n, s, s', end);
    }
  }

  lemma TravelsNext(p: Program, n: nat, s: State, s': State, lo: nat, hi: nat)
    requires Travels(p, n, s, s', lo, hi)
    ensures Goes(p, n, s, s') && Run(p, n + 1, Running(s)) == Step(p, s')
  {
    hide Step;
  }

  lemma StuckNext(p: Program, n: nat, s: State, s1: State, lo: nat, hi: nat)
    requires Travels(p, n, s, s1, lo, hi) && lo <= s1.ip < hi && Step(p, s1).Stuck?
    ensures Sticks(p, n + 1, s, lo, hi)
  {
    hide Step;
  }

  lemma DeliveredHeight(s: State, s': State, t: TypeReq, o: Out)
    requires Delivers(s, s', t, o) && t in {ReqUInt, ReqFloat}
    ensures HeightOf(s') == HeightOf(s).Plus(ResultHeight(t)) && ResultHeight(t) != FLAT
  {
  }

  lemma VariableLeft(ar: Arith, e: Expr, s: State, s': State)
    requires GivesVar(e) && !e.Conditional?
    requires s'.vars == Eval(ar, e, ReqVar, s.vars).vars && Delivers(s, s', ReqVar, Eval(ar, e, ReqVar, s.vars).out)
    requires s'.cur == CurAfter(ar, e, ReqVar, s.vars, s.cur)
    ensures LeftBy(ar, e, s, s')
  {
    hide Eval, CurAfter;
  }

  /** Any right-hand side asked for a variable. */
  lemma {:induction false} AskedRuns(p: Program, e: Expr, ip: nat, s: State) returns (stuck: bool, n: nat, s': State)
    requires Askable(e) && HasRoom(s, AskedPeak(e)) && At(p, GenExpr(p.ar, e, ReqVar, s.ip, ip).code, s.ip)
    ensures var end := s.ip + |GenExpr(p.ar, e, ReqVar, s.ip, ip).code|;
      if stuck then LeavesOperand(Leaf(p.ar, e, s.vars).0) && Sticks(p, n, s, s.ip, end)
      else Arrives(p, n, s, s', end) && LeftBy(p.ar, e, s, s')
    decreases e, 1
  {
    hide GenExpr, Eval, Fits, Peak, HasRoom, At, Arrives, CurAfter, Run, Sticks, LeftBy, Delivers;
    if e.Conditional? {
      stuck, n, s' := AskedConditional(p, e, ip, s);
    } else if GivesVar(e) {
      stuck := false;
      n, s' := ExprArrives(p, e, ReqVar, ip, s);
      VariableLeft(p.ar, e, s, s');
    } else if Silent(e) {
      stuck := false;
      n, s' := SilentRuns(p, e, ip, s);
    } else {
      stuck, n, s' := OperandRuns(p, e, ip, s);
    }
  }

  lemma AskedRoom(s: State, e: Expr)
    requires e.Conditional? && HasRoom(s, AskedPeak(e))
    ensures HasRoom(s, Peak(e.test, TestType(e.test))) && HasRoom(s, AskedPeak(e.whenTrue))
        && HasRoom(s, AskedPeak(e.whenFalse))
  {
    hide Peak, HasRoom, TestType, Room.Max;
    var tt := TestType(e.test);
    RoomForBoth(s, Peak(e.test, tt).Max(AskedPeak(e.whenTrue)), AskedPeak(e.whenFalse));
    RoomForBoth(s, Peak(e.test, tt), AskedPeak(e.whenTrue));
  }

  lemma ConditionalPlan(ar: Arith, e: Expr, at: nat, ip: nat)
    requires e.Conditional?
    ensures var tt := TestType(e.test);
      var gt := GenExpr(ar, e.test, tt, at, ip);
      var ga := GenExpr(ar, e.whenTrue, ReqVar, at + |gt.code| + 2, gt.ip);
      var elseAt := at + |gt.code| + 2 + |ga.code| + 2;
      var gb := GenExpr(ar, e.whenFalse, ReqVar, elseAt, ga.ip);
      GenExpr(ar, e, ReqVar, at, ip).code ==
      gt.code + [Op(JumpUnless(tt)), Num(elseAt)] + ga.code + [Op(JMP), Num(elseAt + |gb.code|)] + gb.code
  {
    assert GenExpr(ar, e, ReqVar, at, ip) == GenNode(ar, e, ReqVar, at, ip);
    hide GenExpr, JumpUnless, TestType;
  }

  /** The code of the branch the test selects, the address handed to it, and what follows it. */
  ghost predicate BranchAt(p: Program, e: Expr, yes: bool, at: nat, ip: nat, end: nat)
    requires e.Conditional?
  {
    var c := GenExpr(p.ar, if yes then e.whenTrue else e.whenFalse, ReqVar, at, ip).code;
    At(p, c, at) && at + |c| <= end && if yes then at + |c| < end
        && At(p, [Op(JMP), Num(end)], at + |c|) else at + |c| == end
  }

  /** The test of a conditional, and its jump. */
  lemma TestThenRuns(p: Program, e: Expr, ip: nat, s: State) returns (n: nat, s': State, ip': nat)
    requires e.Conditional? && Askable(e) && HasRoom(s, AskedPeak(e))
        && At(p, GenExpr(p.ar, e, ReqVar, s.ip, ip).code, s.ip)
    ensures var end := s.ip + |GenExpr(p.ar, e, ReqVar, s.ip, ip).code|;
      var et := Eval(p.ar, e.test, TestType(e.test), s.vars);
      var yes := Holds(p.ar, et.out);
      && Travels(p, n, s, s', s.ip, end) && s.ip <= s'.ip && BranchAt(p, e, yes, s'.ip, ip', end)
      && Delivers(s, s', ReqNone, NoValue) && s'.vars == et.vars
      && s'.cur == CurAfter(p.ar, e.test, TestType(e.test), s.vars, s.cur)
      && HasRoom(s', AskedPeak(if yes then e.whenTrue else e.whenFalse))
  {
    hide GenExpr, Eval, Fits, Peak, HasRoom, At, Arrives, CurAfter, Run, Delivers, Travels, TestType, JumpUnless,
         AskedPeak, Goes;
    var tt := TestType(e.test);
    AskedRoom(s, e);
    ConditionalPlan(p.ar, e, s.ip, ip);
    var gt := GenExpr(p.ar, e.test, tt, s.ip, ip);
    var ga := GenExpr(p.ar, e.whenTrue, ReqVar, s.ip + |gt.code| + 2, gt.ip);
    var elseAt := s.ip + |gt.code| + 2 + |ga.code| + 2;
    var gb := GenExpr(p.ar, e.whenFalse, ReqVar, elseAt, ga.ip);
    var end := elseAt + |gb.code|;
    var j0, j1 := [Op(JumpUnless(tt)), Num(elseAt)], [Op(JMP), Num(end)];
    AtSplit(p, gt.code + j0 + ga.code + j1, gb.code, s.ip);
    AtSplit(p, gt.code + j0 + ga.code, j1, s.ip);
    AtSplit(p, gt.code + j0, ga.code, s.ip);
    AtSplit(p, gt.code, j0, s.ip);
    var n1, s1 := ExprArrives(p, e.test, tt, ip, s);
    var et := Eval(p.ar, e.test, tt, s.vars);
    ArrivesTravels(p, n1, s, s1, s.ip, s.ip + |gt.code|, end);
    TravelsNext(p, n1, s, s1, s.ip, end);
    s' := TestRuns(p, tt, false, elseAt, n1, s, s1, et.out);
    n := n1 + 1;
    TravelsStep(p, n1, s, s1, s', s.ip, end);
    var yes := Holds(p.ar, et.out);
    ip' := if yes then gt.ip else ga.ip;
    NoRoomTaken(s, s', AskedPeak(if yes then e.whenTrue else e.whenFalse));
  }

  lemma {:induction false} AskedConditional(p: Program, e: Expr, ip: nat, s: State)
      returns (stuck: bool, n: nat, s': State)
    requires e.Conditional? && Askable(e) && HasRoom(s, AskedPeak(e))
        && At(p, GenExpr(p.ar, e, ReqVar, s.ip, ip).code, s.ip)
    ensures var end := s.ip + |GenExpr(p.ar, e, ReqVar, s.ip, ip).code|;
      if stuck then LeavesOperand(Leaf(p.ar, e, s.vars).0) && Sticks(p, n, s, s.ip, end)
      else Arrives(p, n, s, s', end) && LeftBy(p.ar, e, s, s')
    decreases e, 0
  {
    hide GenExpr, Eval, Fits, Peak, HasRoom, At, Arrives, CurAfter, Run, Sticks, LeftBy, Delivers, Travels, TestType,
         Goes, AskedPeak;
    var end := s.ip + |GenExpr(p.ar, e, ReqVar, s.ip, ip).code|;
    var n1, s2, ip' := TestThenRuns(p, e, ip, s);
    var et := Eval(p.ar, e.test, TestType(e.test), s.vars);
    var yes := Holds(p.ar, et.out);
    var branch := if yes then e.whenTrue else e.whenFalse;
    var upTo := s2.ip + |GenExpr(p.ar, branch, ReqVar, s2.ip, ip').code|;
    var n3, s3;
    stuck, n3, s3 := AskedRuns(p, branch, ip', s2);
    n, s' := n1 + n3, s3;
    if stuck {
      SticksWider(p, n3, s2, s2.ip, upTo, s.ip, end);
      SticksOn(p, n1, s, s2, n3, s.ip, end);
    } else {
      ArrivesTravels(p, n3, s2, s3, s.ip, upTo, end);
      TravelsOn(p, n1, s, s2, n3, s3, s.ip, end);
      if yes {
        TravelsNext(p, n, s, s3, s.ip, end);
        s' := JumpRuns(p, end, n, s, s3);
        TravelsStep(p, n, s, s3, s', s.ip, end);
        n := n + 1;
      }
      TravelsArrives(p, n, s, s', end);
      BranchLeft(p.ar, e, s, s2, s3, s', et, yes);
    }
  }

  lemma BranchLeft(ar: Arith, e: Expr, s: State, s2: State, s3: State, s': State, et: Effect, yes: bool)
    requires e.Conditional? && et == Eval(ar, e.test, TestType(e.test), s.vars) && yes == Holds(ar, et.out)
    requires Delivers(s, s2, ReqNone, NoValue) && s2.vars == et.vars
        && s2.cur == CurAfter(ar, e.test, TestType(e.test), s.vars, s.cur)
    requires LeftBy(ar, if yes then e.whenTrue else e.whenFalse, s2, s3) && s' == s3.(ip := s'.ip)
    ensures LeftBy(ar, e, s, s')
  {
    hide Eval, CurAfter, TestType;
  }

  // ----- the assignment around it -----

  /** What an assignment moved as a variable emits behind its right-hand side. */
  function Rest(ar: Arith, e: Expr, t: TypeReq, at: nat, ip: nat): Code
    requires e.Assign?
  {
    [Op(LOADVAR_VAR)] + GenTarget(ar, e.name, e.sub, true, at + 1, ip).code + [Op(SAVEVAR_VAR)] + Conversion(ReqVar, t)
  }

  lemma MovePlan(ar: Arith, e: Expr, t: TypeReq, at: nat, ip: nat)
    requires MovesVar(e, t)
    ensures var gr := GenExpr(ar, e.rhs, ReqVar, at, ip);
      GenExpr(ar, e, t, at, ip).code == gr.code + Rest(ar, e, t, at + |gr.code|, gr.ip)
  {
    hide GenExpr, GenNode, GenTarget, AssignType;
    GenIs(ar, e, t, at, ip);
    AssignPlan(ar, e, t, at, ip);
    var gr := GenExpr(ar, e.rhs, ReqVar, at, ip);
    var gt := GenTarget(ar, e.name, e.sub, true, at + |gr.code| + 1, gr.ip);
    var c := gr.code + [Op(LOADVAR_VAR)] + gt.code + [] + [Op(SAVEVAR_VAR)] + Conversion(ReqVar, t);
    assert c == gr.code + Rest(ar, e, t, at + |gr.code|, gr.ip);
  }

  lemma RestShaped(ar: Arith, e: Expr, t: TypeReq, at: nat, ip: nat, a: Shape) returns (ts: Shapes)
    requires MovesVar(e, t) && FitsIndex(e.sub)
    ensures Shaped(Rest(ar, e, t, at, ip), at, ts, map[], a, a)
  {
    hide Held, Lands, TargetLanding, PeakIndex, FitsIndex, GenTarget, AssignType;
    var lo, hi := a.h.s, a.h.s + PeakIndex(e.sub).s;
    var gt := GenTarget(ar, e.name, e.sub, true, at + 1, ip);
    SameExit(a, t);
    var ts0 := OneHeld(LOADVAR_VAR, at, a, a, lo, hi);
    var ts1 := TargetShaped(ar, e.name, e.sub, true, at + 1, ip, a);
    var ts2 := SaveHeld(ReqVar, at + 1 + |gt.code|, a, lo, hi);
    var ts3 := LastConversionHeld(ReqVar, t, at + 2 + |gt.code|, a, hi);
    var u1 := Followed([Op(LOADVAR_VAR)], gt.code, at, ts0, ts1, map[], a, a, a, lo, hi);
    var u2 := Followed([Op(LOADVAR_VAR)] + gt.code, [Op(SAVEVAR_VAR)], at, u1, ts2, map[], a, a, a, lo, hi);
    ts := Followed([Op(LOADVAR_VAR)] + gt.code + [Op(SAVEVAR_VAR)], Conversion(ReqVar, t), at, u2, ts3, map[], a, a, a,
        lo, hi);
    JustShaped(Rest(ar, e, t, at, ip), at, ts, a, lo, hi);
  }

  lemma SameExit(a: Shape, t: TypeReq)
    requires t in {ReqNone, ReqVar}
    ensures Exit(ReqVar, a) == a && Exit(t, a) == a && Steps(LOADVAR_VAR, a, a)
  {
  }

  lemma JustShaped(c: Code, at: nat, ts: Shapes, a: Shape, lo: int, hi: int)
    requires Held(c, at, ts, map[], a, a, lo, hi)
    ensures Shaped(c, at, ts, map[], a, a)
  {
  }

  /** Through shaped code without ways out the stacks stay off by what they were off at its start. */
  lemma {:induction false} OffThrough(p: Program, c: Code, at: nat, ts: Shapes, a: Shape, b: Shape, base: Height,
      n: nat, r: State, r': State, lo: nat)
    requires At(p, c, at) && Shaped(c, at, ts, map[], a, b) && Stands(at, ts, base, r)
    requires Travels(p, n, r, r', lo, at + |c|)
    ensures Stands(at, ts, base, r')
    decreases n
  {
    hide Step, Shaped, At, Travels, Stands;
    if n == 0 {
      NoSteps(p, r, r', lo, at + |c|);
    } else {
      var r1 := FirstStep(p, n, r, r', lo, at + |c|);
      StepStands(p, c, at, ts, map[], a, b, base, r, r1);
      OffThrough(p, c, at, ts, a, b, base, n - 1, r1, r', lo);
    }
  }

  // ----- when the assignment does what it should -----

  /** What the assignment leaves when a variable is wanted of it. */
  function Left(ar: Arith, e: Expr, t: TypeReq, vars: Store): Out
    requires e.Assign?
  {
    if t == ReqVar then Ref(Some(Assignee(ar, e, vars).0)) else NoValue
  }

  ghost predicate MovesRightly(p: Program, e: Expr, t: TypeReq, ip: nat, s: State, n: nat, s': State)
    requires e.Assign?
  {
    && Arrives(p, n, s, s', s.ip + |GenExpr(p.ar, e, t, s.ip, ip).code|)
    && s'.vars == Meant(p.ar, e, s.vars) && Delivers(s, s', t, Left(p.ar, e, t, s.vars))
  }

  /** The run comes to the end of the code with the meant value in the variable and the stacks as they were. */
  ghost predicate MovesRight(p: Program, e: Expr, t: TypeReq, ip: nat, s: State)
    requires e.Assign?
  {
    exists n: nat, s': State :: MovesRightly(p, e, t, ip, s, n, s')
  }

  /** The current variable happens to hold the value meant. */
  predicate Coincides(ar: Arith, e: Expr, vars: Store, cur: Option<CString>)
    requires e.Assign?
  {
    var made := Assignee(ar, e, vars).1;
    CopiedValue(ar, made, CurrentThen(ar, e.rhs, vars, cur)) == Stored(ar, made, Wanted(ar, e.rhs, vars).out)
  }

  /** What is copied: the variable current when the right-hand side is done. */
  function Copied(ar: Arith, e: Expr, vars: Store, cur: Option<CString>): Store
    requires e.Assign?
  {
    var n := Assignee(ar, e, vars);
    n.1[n.0 := CopiedValue(ar, n.1, CurrentThen(ar, e.rhs, vars, cur))]
  }

  /** When the right-hand side leaves no operand behind, the current variable is copied, whatever it is. */
  lemma MoveCopies(p: Program, e: Expr, t: TypeReq, ip: nat, s: State, n1: nat, s1: State) returns (n: nat, s': State)
    requires MovesVar(e, t) && FitsIndex(e.sub) && HasRoom(s, PeakIndex(e.sub))
    requires At(p, GenExpr(p.ar, e, t, s.ip, ip).code, s.ip)
    requires Arrives(p, n1, s, s1, s.ip + |GenExpr(p.ar, e.rhs, ReqVar, s.ip, ip).code|)
    requires !LeavesOperand(Leaf(p.ar, e.rhs, s.vars).0) && LeftBy(p.ar, e.rhs, s, s1)
    ensures Arrives(p, n, s, s', s.ip + |GenExpr(p.ar, e, t, s.ip, ip).code|)
    ensures s'.vars == Copied(p.ar, e, s.vars, s.cur) && Delivers(s, s', t, Left(p.ar, e, t, s.vars))
  {
    hide GenExpr, GenTarget, At, Arrives, Run, Delivers, Travels, Goes, HasRoom, PeakIndex, FitsIndex, Wanted,
         CurrentThen, Target, Created, Conversion, AssignType, Selected, StacksKept, CopiedValue;
    MovePlan(p.ar, e, t, s.ip, ip);
    var gr := GenExpr(p.ar, e.rhs, ReqVar, s.ip, ip);
    var mid := s.ip + |gr.code|;
    var gt := GenTarget(p.ar, e.name, e.sub, true, mid + 1, gr.ip);
    var load, save := [Op(LOADVAR_VAR)], [Op(SAVEVAR_VAR)];
    var end := s.ip + |GenExpr(p.ar, e, t, s.ip, ip).code|;
    AtSplit(p, gr.code, load + gt.code + save + Conversion(ReqVar, t), s.ip);
    AtSplit(p, load + gt.code + save, Conversion(ReqVar, t), mid);
    AtSplit(p, load + gt.code, save, mid);
    AtSplit(p, load, gt.code, mid);
    var o := Ref(s1.cur);
    AsRefLeft(p.ar, e.rhs, s, s1);
    ArrivesTravels(p, n1, s, s1, s.ip, mid, end);
    TravelsGoes(p, n1, s, s1, s.ip, end);
    var s2 := KeepVarRuns(p, n1, s, s1, o);
    TravelsStep(p, n1, s, s1, s2, s.ip, end);
    RoomThere(s, s2, PeakIndex(e.sub));
    var n3, s3 := TargetArrives(p, e.name, e.sub, true, gr.ip, s2);
    ArrivesTravels(p, n3, s2, s3, s.ip, mid + 1 + |gt.code|, end);
    TravelsOn(p, n1 + 1, s, s2, n3, s3, s.ip, end);
    TravelsGoes(p, n1 + 1 + n3, s, s3, s.ip, end);
    SelectedCur(p.ar, e, s2, s3);
    n, s' := CopyRuns(p, t, n1 + 1 + n3, s, s2, s3, o);
    CopiesRightly(p.ar, e, t, s, s1, s2, s3, s', o);
    var s4: State :| Goes(p, n1 + 1 + n3 + 1, s, s4) && s4.ip == s3.ip + 1;
    TravelsStep(p, n1 + 1 + n3, s, s3, s4, s.ip, end);
    if Conversion(ReqVar, t) == [] {
      GoesThere(p, n, s, s4, s');
    } else {
      OneWord(t);
      TravelsStep(p, n1 + 1 + n3 + 1, s, s4, s', s.ip, end);
    }
    TravelsArrives(p, n, s, s', end);
  }

  lemma OneWord(t: TypeReq)
    ensures |Conversion(ReqVar, t)| <= 1
  {
  }

  lemma AsRefLeft(ar: Arith, e: Expr, s: State, s1: State)
    requires LeftBy(ar, e, s, s1) && !LeavesOperand(Leaf(ar, e, s.vars).0)
    ensures Delivers(s, s1, ReqVar, Ref(s1.cur)) && s1.vars == Wanted(ar, e, s.vars).vars
        && s1.cur == CurrentThen(ar, e, s.vars, s.cur)
  {
    hide Wanted, CurrentThen;
  }

  lemma RoomThere(s: State, s': State, r: Room)
    requires s'.ints == s.ints && s'.flts == s.flts && s'.strs == s.strs && HasRoom(s, r)
    ensures HasRoom(s', r)
  {
  }

  lemma SelectedCur(ar: Arith, e: Expr, s2: State, s3: State)
    requires e.Assign? && Selected(Target(ar, e.name, e.sub, s2.vars).1, Target(ar, e.name, e.sub, s2.vars).0, true, s3)
    ensures var n := Target(ar, e.name, e.sub, s2.vars); s3.cur == Some(n.0) && s3.vars == Created(n.1, n.0)
  {
    hide Target, Created;
  }

  lemma CopiesRightly(ar: Arith, e: Expr, t: TypeReq, s: State, s1: State, s2: State, s3: State, s': State, o: Out)
    requires e.Assign? && t in {ReqNone, ReqVar} && o == Ref(s1.cur) && s2.vars == s1.vars
    requires s1.vars == Wanted(ar, e.rhs, s.vars).vars && s1.cur == CurrentThen(ar, e.rhs, s.vars, s.cur)
    requires var n := Target(ar, e.name, e.sub, s2.vars); s3.cur == Some(n.0) && s3.vars == Created(n.1, n.0)
    requires s'.vars == s3.vars[s3.cur.value := Stored(ar, s3.vars, o)]
    requires Delivers(s, s', t, if t == ReqVar then Ref(s3.cur) else Converted(ar, o, t))
    ensures s'.vars == Copied(ar, e, s.vars, s.cur) && Delivers(s, s', t, Left(ar, e, t, s.vars))
  {
    hide Target, Created, Wanted, CurrentThen, CopiedValue;
  }

  /** Variables and assignments leave current what they evaluate to. */
  lemma {:induction false} VariableCoincides(ar: Arith, e: Expr, vars: Store, cur: Option<CString>)
    requires GivesVar(Leaf(ar, e, vars).0)
    ensures Wanted(ar, e, vars).out == Ref(CurrentThen(ar, e, vars, cur))
  {
    hide Eval, CurAfter, TestType;
    if e.Conditional? {
      var ec := Eval(ar, e.test, TestType(e.test), vars);
      VariableCoincides(ar, if Holds(ar, ec.out) then e.whenTrue else e.whenFalse, ec.vars,
                        CurAfter(ar, e.test, TestType(e.test), vars, cur));
    } else {
      VariableRef(ar, e, vars, cur);
    }
  }

  lemma VariableRef(ar: Arith, e: Expr, vars: Store, cur: Option<CString>)
    requires e.Var? || e.Assign?
    ensures Eval(ar, e, ReqVar, vars).out == Ref(CurAfter(ar, e, ReqVar, vars, cur))
  {
    assert Eval(ar, e, ReqVar, vars) == EvalNode(ar, e, ReqVar, vars);
    assert CurAfter(ar, e, ReqVar, vars, cur) == CurNode(ar, e, ReqVar, vars, cur);
    hide Eval, CurAfter, Target;
  }

  lemma {:induction false} LeafIsNoConditional(ar: Arith, e: Expr, vars: Store)
    ensures !Leaf(ar, e, vars).0.Conditional?
  {
    hide Eval, TestType;
    if e.Conditional? {
      var ec := Eval(ar, e.test, TestType(e.test), vars);
      LeafIsNoConditional(ar, if Holds(ar, ec.out) then e.whenTrue else e.whenFalse, ec.vars);
    }
  }

  lemma SameStore(vars: Store, n: CString, v: Value, w: Value)
    ensures vars[n := v] == vars[n := w] <==> v == w
  {
    assert vars[n := v][n] == v && vars[n := w][n] == w;
  }

  /** Stacks that a right-hand side left off are off at the end of the assignment. */
  lemma OffBehind(p: Program, e: Expr, t: TypeReq, ip: nat, s: State, n1: nat, s1: State, n: nat, r: State)
    requires MovesVar(e, t) && FitsIndex(e.sub) && At(p, GenExpr(p.ar, e, t, s.ip, ip).code, s.ip)
    requires Arrives(p, n1, s, s1, s.ip + |GenExpr(p.ar, e.rhs, ReqVar, s.ip, ip).code|)
    requires Arrives(p, n, s, r, s.ip + |GenExpr(p.ar, e, t, s.ip, ip).code|)
    ensures HeightOf(r) == HeightOf(s1)
  {
    hide GenExpr, At, Arrives, Run, Travels, Goes, FitsIndex, Shaped, Rest, AssignType, Stands;
    MovePlan(p.ar, e, t, s.ip, ip);
    var gr := GenExpr(p.ar, e.rhs, ReqVar, s.ip, ip);
    var mid, end := s.ip + |gr.code|, s.ip + |GenExpr(p.ar, e, t, s.ip, ip).code|;
    var rest := Rest(p.ar, e, t, mid, gr.ip);
    RestLength(p.ar, e, t, mid, gr.ip);
    AtSplit(p, gr.code, rest, s.ip);
    ArrivesTravels(p, n1, s, s1, s.ip, mid, mid);
    TravelsGoes(p, n1, s, s1, s.ip, mid);
    ArrivesTravels(p, n, s, r, s.ip, end, end);
    TravelsGoes(p, n, s, r, s.ip, end);
    NotEarly(p, n1, s, s1, mid, n, r, end);
    var m := n - n1;
    assert n1 + m == n;
    TravelsBack(p, n1, s, s1, m, r, s.ip, end);
    var a := Shape(FLAT, false);
    var ts := RestShaped(p.ar, e, t, mid, gr.ip, a);
    StandsAtStart(rest, mid, ts, a, s1);
    OffThrough(p, rest, mid, ts, a, a, HeightOf(s1), m, s1, r, s.ip);
    StandsAtEnd(rest, mid, ts, a, HeightOf(s1), r);
  }

  lemma RestLength(ar: Arith, e: Expr, t: TypeReq, at: nat, ip: nat)
    requires e.Assign?
    ensures |Rest(ar, e, t, at, ip)| > 0
  {
  }

  lemma StandsAtStart(c: Code, at: nat, ts: Shapes, a: Shape, s: State)
    requires Shaped(c, at, ts, map[], a, a) && a.h == FLAT && s.ip == at
    ensures Stands(at, ts, HeightOf(s), s)
  {
  }

  lemma StandsAtEnd(c: Code, at: nat, ts: Shapes, a: Shape, base: Height, r: State)
    requires Shaped(c, at, ts, map[], a, a) && a.h == FLAT && Stands(at, ts, base, r) && r.ip == at + |c|
    ensures HeightOf(r) == base
  {
  }

  /**
    For every assignment moved as a variable: its code does what the assignment means exactly if the tests
    select a node that leaves a variable current, or one whose code leaves nothing while the variable that
    is current anyway holds the value meant. A node that leaves its value on a stack spoils the stacks.
   */
  lemma VariableWanted(p: Program, e: Expr, t: TypeReq, ip: nat, s: State)
    requires MovesVar(e, t) && Askable(e.rhs) && FitsIndex(e.sub)
    requires At(p, GenExpr(p.ar, e, t, s.ip, ip).code, s.ip) && HasRoom(s, AskedPeak(e.rhs))
        && HasRoom(s, PeakIndex(e.sub))
    ensures var l := Leaf(p.ar, e.rhs, s.vars).0;
      MovesRight(p, e, t, ip, s) <==> GivesVar(l) || (Silent(l) && Coincides(p.ar, e, s.vars, s.cur))
  {
    hide GenExpr, At, Arrives, Askable, FitsIndex, HasRoom, AskedPeak, PeakIndex, Leaf, Sticks, LeftBy, MovesRight,
         Rest, AssignType, Coincides;
    LeafKinds(p.ar, e.rhs, s.vars);
    LeafIsNoConditional(p.ar, e.rhs, s.vars);
    MovePlan(p.ar, e, t, s.ip, ip);
    AtSplit(p, GenExpr(p.ar, e.rhs, ReqVar, s.ip, ip).code,
        Rest(p.ar, e, t, s.ip + |GenExpr(p.ar, e.rhs, ReqVar, s.ip, ip).code|,
        GenExpr(p.ar, e.rhs, ReqVar, s.ip, ip).ip), s.ip);
    var stuck, n1, s1 := AskedRuns(p, e.rhs, ip, s);
    if stuck {
      StickingWrong(p, e, t, ip, s, n1);
    } else if LeavesOperand(Leaf(p.ar, e.rhs, s.vars).0) {
      SpoiltWrong(p, e, t, ip, s, n1, s1);
    } else {
      CopyingRight(p, e, t, ip, s, n1, s1);
      if GivesVar(Leaf(p.ar, e.rhs, s.vars).0) {
        VariableIsRight(p.ar, e, s.vars, s.cur);
      }
    }
  }

  /** Whenever the tests select no node that leaves an operand, the variable current then is what is copied. */
  lemma CurrentCopied(p: Program, e: Expr, t: TypeReq, ip: nat, s: State) returns (n: nat, s': State)
    requires MovesVar(e, t) && Askable(e.rhs) && FitsIndex(e.sub) && !LeavesOperand(Leaf(p.ar, e.rhs, s.vars).0)
    requires At(p, GenExpr(p.ar, e, t, s.ip, ip).code, s.ip) && HasRoom(s, AskedPeak(e.rhs))
        && HasRoom(s, PeakIndex(e.sub))
    ensures Arrives(p, n, s, s', s.ip + |GenExpr(p.ar, e, t, s.ip, ip).code|)
    ensures s'.vars == Copied(p.ar, e, s.vars, s.cur) && Delivers(s, s', t, Left(p.ar, e, t, s.vars))
  {
    hide GenExpr, At, Arrives, Askable, FitsIndex, HasRoom, AskedPeak, PeakIndex, Leaf, Sticks, LeftBy, Delivers, Rest,
         AssignType, Copied;
    MovePlan(p.ar, e, t, s.ip, ip);
    AtSplit(p, GenExpr(p.ar, e.rhs, ReqVar, s.ip, ip).code,
        Rest(p.ar, e, t, s.ip + |GenExpr(p.ar, e.rhs, ReqVar, s.ip, ip).code|,
        GenExpr(p.ar, e.rhs, ReqVar, s.ip, ip).ip), s.ip);
    var stuck, n1, s1 := AskedRuns(p, e.rhs, ip, s);
    n, s' := MoveCopies(p, e, t, ip, s, n1, s1);
  }

  lemma VariableIsRight(ar: Arith, e: Expr, vars: Store, cur: Option<CString>)
    requires e.Assign? && GivesVar(Leaf(ar, e.rhs, vars).0)
    ensures Coincides(ar, e, vars, cur)
  {
    hide Wanted, CurrentThen, Leaf, Assignee;
    VariableCoincides(ar, e.rhs, vars, cur);
  }

  lemma StickingWrong(p: Program, e: Expr, t: TypeReq, ip: nat, s: State, n1: nat)
    requires MovesVar(e, t) && Sticks(p, n1, s, s.ip, s.ip + |GenExpr(p.ar, e.rhs, ReqVar, s.ip, ip).code|)
    ensures !MovesRight(p, e, t, ip, s)
  {
    hide GenExpr, Sticks, Arrives, Run, Rest, AssignType, Goes;
    MovePlan(p.ar, e, t, s.ip, ip);
    var mid, end := s.ip + |GenExpr(p.ar, e.rhs, ReqVar, s.ip, ip).code|, s.ip + |GenExpr(p.ar, e, t, s.ip, ip).code|;
    forall n: nat, r: State ensures !Arrives(p, n, s, r, end) {
      StuckOff(p, n1, s, mid, n, r, end);
    }
  }

  lemma StuckOff(p: Program, n1: nat, s: State, mid: nat, n: nat, r: State, end: nat)
    requires Sticks(p, n1, s, s.ip, mid) && mid <= end
    ensures !Arrives(p, n, s, r, end)
  {
    hide Run, Sticks;
    if Goes(p, n, s, r) {
      NeverArrives(p, n1, s, mid, n, r, end);
    }
  }

  lemma SpoiltWrong(p: Program, e: Expr, t: TypeReq, ip: nat, s: State, n1: nat, s1: State)
    requires MovesVar(e, t) && FitsIndex(e.sub) && At(p, GenExpr(p.ar, e, t, s.ip, ip).code, s.ip)
    requires Arrives(p, n1, s, s1, s.ip + |GenExpr(p.ar, e.rhs, ReqVar, s.ip, ip).code|)
    requires LeavesOperand(Leaf(p.ar, e.rhs, s.vars).0) && LeftBy(p.ar, e.rhs, s, s1)
    ensures !MovesRight(p, e, t, ip, s)
  {
    hide GenExpr, At, Arrives, FitsIndex, Leaf, AssignType, Meant;
    var end := s.ip + |GenExpr(p.ar, e, t, s.ip, ip).code|;
    forall n: nat, r: State ensures !MovesRightly(p, e, t, ip, s, n, r) {
      if Arrives(p, n, s, r, end) {
        OffBehind(p, e, t, ip, s, n1, s1, n, r);
      }
    }
  }

  lemma CopyingRight(p: Program, e: Expr, t: TypeReq, ip: nat, s: State, n1: nat, s1: State)
    requires MovesVar(e, t) && FitsIndex(e.sub) && HasRoom(s, PeakIndex(e.sub))
    requires At(p, GenExpr(p.ar, e, t, s.ip, ip).code, s.ip)
    requires Arrives(p, n1, s, s1, s.ip + |GenExpr(p.ar, e.rhs, ReqVar, s.ip, ip).code|)
    requires !LeavesOperand(Leaf(p.ar, e.rhs, s.vars).0) && LeftBy(p.ar, e.rhs, s, s1)
    ensures MovesRight(p, e, t, ip, s) <==> Coincides(p.ar, e, s.vars, s.cur)
  {
    hide GenExpr, At, Arrives, FitsIndex, HasRoom, PeakIndex, Leaf, LeftBy, AssignType, Delivers, Assignee,
         CurrentThen, Wanted, CopiedValue, Stored;
    var end := s.ip + |GenExpr(p.ar, e, t, s.ip, ip).code|;
    var n, s' := MoveCopies(p, e, t, ip, s, n1, s1);
    var a := Assignee(p.ar, e, s.vars);
    SameStore(a.1, a.0, CopiedValue(p.ar, a.1, CurrentThen(p.ar, e.rhs, s.vars, s.cur)),
        Stored(p.ar, a.1, Wanted(p.ar, e.rhs, s.vars).out));
    if Coincides(p.ar, e, s.vars, s.cur) {
      assert MovesRightly(p, e, t, ip, s, n, s');
    }
    forall m: nat, q: State | MovesRightly(p, e, t, ip, s, m, q) ensures Coincides(p.ar, e, s.vars, s.cur) {
      ArrivesOnce(p, n, m, s, s', q, end);
    }
  }

  // ----- two inputs -----

  /** `b = c ? x : other`, as `a = b = c ? x : other` asks for it. */
  function Example(other: Expr): Expr {
    Assign("b", Absent, Conditional(Var("c", Absent), Var("x", Absent), other))
  }

  const TEST_VARIABLE: Option<CString> := Some("c")

  function Sum(): Expr {
    FloatBinary(Add, Var("y", Absent), IntLit(1))
  }

  predicate ZeroInC(ar: Arith, vars: Store) {
    "c" in vars && vars["c"] == VUnsigned(0) && !ar.nonZero(ar.roundTo32(ar.floatOfInt(0)))
  }

  lemma ExampleServed(other: Expr, s: State)
    requires Fits(other, Natural(other)) && !other.Conditional?
    requires Peak(other, Natural(other)) == Room(1, 0, 0) || Peak(other, Natural(other)) == Room(0, 2, 0)
    requires HasRoom(s, Room(1, 2, 0))
    ensures MovesVar(Example(other), ReqVar) && Askable(Example(other).rhs) && HasRoom(s, AskedPeak(Example(other).rhs))
  {
    hide HasRoom, Fits, Peak;
    var c, x, peak := Var("c", Absent), Var("x", Absent), Peak(other, Natural(other));
    PlainVariable("c");
    PlainVariable("x");
    assert Preferred(x) == Preferred(Example(other).rhs) == ReqNone;
    AskedAsItIs(x);
    AskedAsItIs(other);
    assert TestType(c) == ReqFloat;
    assert AskedPeak(Example(other).rhs) == Room(0, 1, 0).Max(Room(0, 0, 0)).Max(peak);
    LessRoom(s, Room(1, 2, 0), AskedPeak(Example(other).rhs));
  }

  lemma AskedAsItIs(e: Expr)
    requires !e.Conditional?
    ensures Askable(e) == Fits(e, Natural(e)) && AskedPeak(e) == Peak(e, Natural(e))
  {
    hide Fits, Peak;
  }

  lemma LessRoom(s: State, r: Room, q: Room)
    requires HasRoom(s, r) && q.i <= r.i && q.f <= r.f && q.s <= r.s
    ensures HasRoom(s, q)
  {
  }

  lemma PlainVariable(x: CString)
    ensures var v := Var(x, Absent);
      && Fits(v, ReqFloat) && Fits(v, ReqVar) && Peak(v, ReqFloat) == Room(0, 1, 0) && Peak(v, ReqVar) == Room(0, 0, 0)
  {
    var v := Var(x, Absent);
    assert Fits(v, ReqFloat) == FitsNode(v, ReqFloat) && Fits(v, ReqVar) == FitsNode(v, ReqVar);
    assert Peak(v, ReqFloat) == PeakNode(v, ReqFloat) && Peak(v, ReqVar) == PeakNode(v, ReqVar);
    assert PeakIndex(Absent) == Room(0, 0, 0);
  }

  lemma PlainLiteral()
    ensures Fits(IntLit(1), ReqUInt) && Peak(IntLit(1), ReqUInt) == Room(1, 0, 0)
    ensures Fits(IntLit(1), ReqFloat) && Peak(IntLit(1), ReqFloat) == Room(0, 1, 0)
  {
    var e: Expr := IntLit(1);
    assert Fits(e, ReqFloat) == FitsNode(e, ReqFloat) && Fits(e, ReqUInt) == FitsNode(e, ReqUInt);
    assert Peak(e, ReqFloat) == PeakNode(e, ReqFloat) && Peak(e, ReqUInt) == PeakNode(e, ReqUInt);
  }

  lemma PlainSum()
    ensures Fits(Sum(), ReqFloat) && Peak(Sum(), ReqFloat) == Room(0, 2, 0)
  {
    PlainVariable("y");
    PlainLiteral();
    assert Fits(Sum(), ReqFloat) == FitsNode(Sum(), ReqFloat);
    assert Peak(Sum(), ReqFloat) == PeakNode(Sum(), ReqFloat);
  }

  lemma ZeroInTest(ar: Arith, other: Expr, vars: Store, cur: Option<CString>)
    requires ZeroInC(ar, vars) && !other.Conditional?
    ensures Leaf(ar, Example(other).rhs, vars) == (other, vars)
    ensures CurrentThen(ar, Example(other).rhs, vars, cur) == CurAfter(ar, other, Natural(other), vars, TEST_VARIABLE)
  {
    var c: Expr := Var("c", Absent);
    assert TestType(c) == ReqFloat;
    assert Eval(ar, c, ReqFloat, vars) == EvalNode(ar, c, ReqFloat, vars);
    assert CurAfter(ar, c, ReqFloat, vars, cur) == CurNode(ar, c, ReqFloat, vars, cur);
  }

  lemma OneMeant(ar: Arith, vars: Store, cur: Option<CString>)
    requires ZeroInC(ar, vars)
    ensures var e := Example(IntLit(1));
      && Assignee(ar, e, vars) == ("b", Created(vars, "b")) && Wanted(ar, e.rhs, vars) == Effect(IntValue(1), vars)
      && CurrentThen(ar, e.rhs, vars, cur) == TEST_VARIABLE
  {
    var one: Expr := IntLit(1);
    ZeroInTest(ar, one, vars, cur);
    assert Eval(ar, one, ReqUInt, vars) == EvalNode(ar, one, ReqUInt, vars);
    assert CurAfter(ar, one, ReqUInt, vars, TEST_VARIABLE) == CurNode(ar, one, ReqUInt, vars, TEST_VARIABLE);
    hide Eval, CurAfter, Leaf, CurrentThen;
    assert Target(ar, "b", Absent, vars) == ("b", vars);
  }

  lemma ZeroCopied(ar: Arith, vars: Store, cur: Option<CString>)
    requires ZeroInC(ar, vars)
    ensures !Coincides(ar, Example(IntLit(1)), vars, cur)
    ensures Copied(ar, Example(IntLit(1)), vars, cur) == Created(vars, "b")["b" := VUnsigned(0)]
  {
    hide Assignee, Wanted, CurrentThen;
    OneMeant(ar, vars, cur);
  }

  /** With a zero in `c`, `a = b = c ? x : 1` puts that zero into `b`: the variable of the test is the current one. */
  lemma LiteralMissed(p: Program, ip: nat, s: State) returns (n: nat, s': State)
    requires ZeroInC(p.ar, s.vars) && HasRoom(s, Room(1, 2, 0))
    requires At(p, GenExpr(p.ar, Example(IntLit(1)), ReqVar, s.ip, ip).code, s.ip)
    ensures !MovesRight(p, Example(IntLit(1)), ReqVar, ip, s)
    ensures Arrives(p, n, s, s', s.ip + |GenExpr(p.ar, Example(IntLit(1)), ReqVar, s.ip, ip).code|)
    ensures s'.vars == Created(s.vars, "b")["b" := VUnsigned(0)]
  {
    hide GenExpr, At, Fits, Peak, HasRoom, Askable, AskedPeak, Coincides, Copied, MovesRight, Leaf, AssignType,
         Arrives, Delivers;
    PlainLiteral();
    ExampleServed(IntLit(1), s);
    ZeroInTest(p.ar, IntLit(1), s.vars, s.cur);
    ZeroCopied(p.ar, s.vars, s.cur);
    NoIndex(s, Room(1, 2, 0));
    VariableWanted(p, Example(IntLit(1)), ReqVar, ip, s);
    n, s' := CurrentCopied(p, Example(IntLit(1)), ReqVar, ip, s);
  }

  lemma NoIndex(s: State, r: Room)
    requires HasRoom(s, r)
    ensures FitsIndex(Absent) && HasRoom(s, PeakIndex(Absent))
  {
    assert PeakIndex(Absent) == Room(0, 0, 0);
  }

  /** With a zero in `c`, `a = b = c ? x : y + 1` leaves the sum on the float stack. */
  lemma SumLeft(p: Program, ip: nat, s: State)
    requires ZeroInC(p.ar, s.vars) && HasRoom(s, Room(1, 2, 0))
    requires At(p, GenExpr(p.ar, Example(Sum()), ReqVar, s.ip, ip).code, s.ip)
    ensures !MovesRight(p, Example(Sum()), ReqVar, ip, s)
  {
    hide GenExpr, At, Fits, Peak, HasRoom, Askable, AskedPeak, Coincides, Copied, MovesRight, Leaf, AssignType;
    PlainSum();
    ExampleServed(Sum(), s);
    ZeroInTest(p.ar, Sum(), s.vars, s.cur);
    NoIndex(s, Room(1, 2, 0));
    VariableWanted(p, Example(Sum()), ReqVar, ip, s);
  }
}
