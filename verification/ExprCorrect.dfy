/** Compiled expressions deliver the values the semantics gives them. */
module ExprCorrect {
  import opened Values
  import opened Ast
  import opened CodeGen
  import opened Machine
  import opened Semantics
  import opened Runs

  /**
    Compiler correctness for expressions: started at the first word of the code of `e`, with room for
    its operands, the machine reaches the word after the last one with the value of `e` delivered, the
    variables as the semantics leaves them, and everything already on the three stacks in place.
   */
  lemma {:induction false} ExprRuns(p: Program, e: Expr, t: TypeReq, ip: nat, s: State) returns (n: nat, s': State)
    requires Fits(e, t) && At(p, GenExpr(p.ar, e, t, s.ip, ip).code, s.ip) && HasRoom(s, Peak(e, t))
    ensures Goes(p, n, s, s') && s'.ip == s.ip + |GenExpr(p.ar, e, t, s.ip, ip).code|
    ensures s'.vars == Eval(p.ar, e, t, s.vars).vars && Delivers(s, s', t, Eval(p.ar, e, t, s.vars).out)
    ensures s'.cur == CurAfter(p.ar, e, t, s.vars, s.cur)
    decreases e, 3
  {
    hide GenNode, EvalNode, FitsNode, PeakNode, CurNode, Goes, Delivers, At;
    match e
    case IntLit(_) | FloatLit(_) | StrLit(_) | Constant(_) => n, s' := LiteralNodeRuns(p, e, t, ip, s);
    case Var(_, _) => n, s' := VarRuns(p, e, t, ip, s);
    case FloatBinary(_, _, _) => n, s' := FloatBinaryRuns(p, e, t, ip, s);
    case IntBinary(op, _, _) =>
      if op.LogicalOr? || op.LogicalAnd? {
        n, s' := ShortCircuitRuns(p, e, t, ip, s);
      } else {
        n, s' := StrictRuns(p, e, t, ip, s);
      }
    case IntUnary(_, _) => n, s' := IntUnaryRuns(p, e, t, ip, s);
    case FloatUnary(_) => n, s' := FloatUnaryRuns(p, e, t, ip, s);
    case Conditional(_, _, _) => n, s' := ConditionalRuns(p, e, t, ip, s);
    case StrEq(_, _, _) => n, s' := StrEqRuns(p, e, t, ip, s);
    case StrCat(_, _, _) | CommaCat(_, _) => n, s' := CatRuns(p, e, t, ip, s);
    case Assign(_, _, rhs) =>
      if AssignType(rhs, t) == ReqVar {
        n, s' := AssignVarRuns(p, e, t, ip, s);
      } else if AssignType(rhs, t) == ReqString {
        n, s' := AssignStringRuns(p, e, t, ip, s);
      } else {
        n, s' := AssignNumberRuns(p, e, t, ip, s);
      }
    case AssignOp(_, _, _, _) => n, s' := AssignOpRuns(p, e, t, ip, s);
  }

  lemma {:induction false} LiteralNodeRuns(p: Program, e: Expr, t: TypeReq, ip: nat, s: State)
      returns (n: nat, s': State)
    requires e.IntLit? || e.FloatLit? || e.StrLit? || e.Constant?
    requires FitsNode(e, t) && At(p, GenNode(p.ar, e, t, s.ip, ip).code, s.ip) && HasRoom(s, PeakNode(e, t))
    ensures Goes(p, n, s, s') && s'.ip == s.ip + |GenNode(p.ar, e, t, s.ip, ip).code|
    ensures s'.vars == EvalNode(p.ar, e, t, s.vars).vars && Delivers(s, s', t, EvalNode(p.ar, e, t, s.vars).out)
    ensures s'.cur == CurNode(p.ar, e, t, s.vars, s.cur)
    decreases e, 1
  {
    hide GenExpr, Eval, Fits, Peak, CurAfter, Goes, Execute, Step, Run, Delivers, At, Converted, Conversion, HasRoom,
         Room.Max, Room.Plus, ResultRoom;

    n, s' := LiteralRuns(p, e, t, s);
  }

  /** Selecting a variable evaluates its index and touches no operand. */
  lemma {:induction false} TargetRuns(p: Program, name: CString, sub: OptExpr, create: bool, ip: nat, s: State)
    returns (n: nat, s': State)
    requires FitsIndex(sub) && At(p, GenTarget(p.ar, name, sub, create, s.ip, ip).code, s.ip)
        && HasRoom(s, PeakIndex(sub))
    ensures Goes(p, n, s, s') && s'.ip == s.ip + |GenTarget(p.ar, name, sub, create, s.ip, ip).code|
        && StacksKept(s, s')
    ensures Selected(Target(p.ar, name, sub, s.vars).1, Target(p.ar, name, sub, s.vars).0, create, s')
    decreases sub, 0
  {
    hide GenExpr, Eval, Fits, Peak, CurAfter, Goes, Execute, Step, Run, Delivers, At, HasRoom, Selected, Room.Plus;
    Stay(p, s);
    match sub
    case Absent =>
      s' := SelectRuns(p, name, create, 0, s, s);
      n := 1;
    case Present(i) =>
      var load := [Op(LOADIMMED_IDENT)] + IdentWords(name);
      var adv := [Op(ADVANCE_STR)];
      var g := GenExpr(p.ar, i, ReqString, s.ip + 4, ip);
      var select := [Op(if create then SETCURVAR_ARRAY_CREATE else SETCURVAR_ARRAY)];
      assert GenTarget(p.ar, name, sub, create, s.ip, ip).code == load + adv + g.code + [Op(REWIND_STR)] + select;
      AtSplit(p, load + adv + g.code + [Op(REWIND_STR)], select, s.ip);
      AtSplit(p, load + adv + g.code, [Op(REWIND_STR)], s.ip);
      AtSplit(p, load + adv, g.code, s.ip);
      AtSplit(p, load, adv, s.ip);
      SlotFits(s, Peak(i, ReqString));
      NoRoomNeeded(s, STRING_SLOT);
      var s1 := LoadNameRuns(p, name, 0, s, s);
      var pending := Pending(name, false);
      var s2 := AdvanceRuns(p, ADVANCE_STR, pending, 1, s, s1, StrValue(name));
      RoomAbove(s, s2, pending, Peak(i, ReqString));
      var n3, s3 := ExprRuns(p, i, ReqString, ip, s2);
      Join(p, 2, s, s2, n3, s3);
      var o := Eval(p.ar, i, ReqString, s.vars).out;
      var s4 := RewindRuns(p, pending, 2 + n3, s, s2, s3, o);
      s' := SelectElementRuns(p, create, 3 + n3, s, s4, StrValue(name + AsStr(o)));
      n := 4 + n3;
  }

  lemma {:induction false} VarRuns(p: Program, e: Expr, t: TypeReq, ip: nat, s: State) returns (n: nat, s': State)
    requires e.Var?
    requires FitsNode(e, t) && At(p, GenNode(p.ar, e, t, s.ip, ip).code, s.ip) && HasRoom(s, PeakNode(e, t))
    ensures Goes(p, n, s, s') && s'.ip == s.ip + |GenNode(p.ar, e, t, s.ip, ip).code|
    ensures s'.vars == EvalNode(p.ar, e, t, s.vars).vars && Delivers(s, s', t, EvalNode(p.ar, e, t, s.vars).out)
    ensures s'.cur == CurNode(p.ar, e, t, s.vars, s.cur)
    decreases e, 1
  {
    hide GenExpr, Eval, Fits, Peak, CurAfter, Goes, Execute, Step, Run, Delivers, At, Converted, Conversion, HasRoom,
         Room.Max, Room.Plus, ResultRoom, GenTarget, Target;

    n, s' := 0, s;
    Stay(p, s);
    if t == ReqNone {
      NothingDelivered(s);
    } else {
      RoomForBoth(s, PeakIndex(e.sub), ResultRoom(t));
      var g := GenTarget(p.ar, e.name, e.sub, false, s.ip, ip);
      AtSplit(p, g.code, LoadVar(t), s.ip);
      n, s' := TargetRuns(p, e.name, e.sub, false, ip, s);
      n, s' := LoadVarRuns(p, t, n, s, s, s');
    }
  }

  lemma NoRoomNeeded(s: State, r: Room)
    requires HasRoom(s, r)
    ensures HasRoom(s, ResultRoom(ReqString))
  {
  }

  lemma NothingDelivered(s: State)
    ensures Delivers(s, s, ReqNone, NoValue)
  {
  }

  /** Both operands of a numeric operator, the right one below the left one. */
  lemma {:induction false} OperandsRun(p: Program, e: Expr, t: TypeReq, ip: nat, s: State)
      returns (n: nat, s1: State, s2: State)
    requires (e.FloatBinary? || e.IntBinary?) && Fits(e.left, t) && Fits(e.right, t)
    requires At(p, GenOperands(p.ar, e, t, s.ip, ip).code, s.ip)
    requires HasRoom(s, Peak(e.right, t)) && HasRoom(s, ResultRoom(t).Plus(Peak(e.left, t)))
    ensures Goes(p, n, s, s2) && s2.ip == s.ip + |GenOperands(p.ar, e, t, s.ip, ip).code|
    ensures var er := Eval(p.ar, e.right, t, s.vars);
            var el := Eval(p.ar, e.left, t, er.vars);
            Delivers(s, s1, t, er.out) && Delivers(s1, s2, t, el.out) && s2.vars == el.vars
    ensures s2.cur == CurOfOperands(p.ar, e, t, s.vars, s.cur)
    decreases e, 0
  {
    hide GenExpr, Eval, Fits, Peak, CurAfter, Goes, Execute, Step, Run, Delivers, At, HasRoom;
    var gr := GenExpr(p.ar, e.right, t, s.ip, ip);
    var gl := GenExpr(p.ar, e.left, t, s.ip + |gr.code|, gr.ip);
    AtSplit(p, gr.code, gl.code, s.ip);
    var n1, n2;
    n1, s1 := ExprRuns(p, e.right, t, ip, s);
    RoomLeft(s, s1, t, Eval(p.ar, e.right, t, s.vars).out, Peak(e.left, t));
    n2, s2 := ExprRuns(p, e.left, t, gr.ip, s1);
    Join(p, n1, s, s1, n2, s2);
    n := n1 + n2;
  }

  lemma {:induction false} FloatBinaryRuns(p: Program, e: Expr, t: TypeReq, ip: nat, s: State)
      returns (n: nat, s': State)
    requires e.FloatBinary?
    requires FitsNode(e, t) && At(p, GenNode(p.ar, e, t, s.ip, ip).code, s.ip) && HasRoom(s, PeakNode(e, t))
    ensures Goes(p, n, s, s') && s'.ip == s.ip + |GenNode(p.ar, e, t, s.ip, ip).code|
    ensures s'.vars == EvalNode(p.ar, e, t, s.vars).vars && Delivers(s, s', t, EvalNode(p.ar, e, t, s.vars).out)
    ensures s'.cur == CurNode(p.ar, e, t, s.vars, s.cur)
    decreases e, 1
  {
    hide GenExpr, Eval, Fits, Peak, CurAfter, Goes, Execute, Step, Run, Delivers, At, Converted, Conversion, HasRoom,
         Room.Max, Room.Plus, ResultRoom;
    RoomForBoth(s, Peak(e.right, ReqFloat).Max(ResultRoom(ReqFloat).Plus(Peak(e.left, ReqFloat))), ResultRoom(t));
    RoomForBoth(s, Peak(e.right, ReqFloat), ResultRoom(ReqFloat).Plus(Peak(e.left, ReqFloat)));

    var operands := GenOperands(p.ar, e, ReqFloat, s.ip, ip).code;
    var op := [Op(ARITH(e.fop))];
    AtSplit(p, operands + op, Conversion(ReqFloat, t), s.ip);
    AtSplit(p, operands, op, s.ip);
    var n2, s1, s2 := OperandsRun(p, e, ReqFloat, ip, s);
    var er := Eval(p.ar, e.right, ReqFloat, s.vars);
    var el := Eval(p.ar, e.left, ReqFloat, er.vars);
    var s3 := ArithRuns(p, e.fop, n2, s, s1, s2, er.out, el.out);
    n, s' := ConversionRuns(p, ReqFloat, t, n2 + 1, s, s3, FltValue(p.ar.floatOp(e.fop, AsFlt(el.out), AsFlt(er.out))));
  }

  lemma {:induction false} StrictRuns(p: Program, e: Expr, t: TypeReq, ip: nat, s: State) returns (n: nat, s': State)
    requires e.IntBinary? && (e.iop.Bits? || e.iop.Compare?)
    requires FitsNode(e, t) && At(p, GenNode(p.ar, e, t, s.ip, ip).code, s.ip) && HasRoom(s, PeakNode(e, t))
    ensures Goes(p, n, s, s') && s'.ip == s.ip + |GenNode(p.ar, e, t, s.ip, ip).code|
    ensures s'.vars == EvalNode(p.ar, e, t, s.vars).vars && Delivers(s, s', t, EvalNode(p.ar, e, t, s.vars).out)
    ensures s'.cur == CurNode(p.ar, e, t, s.vars, s.cur)
    decreases e, 1
  {
    hide GenExpr, Eval, Fits, Peak, CurAfter, Goes, Execute, Step, Run, Delivers, At, Converted, Conversion, HasRoom,
         Room.Max, Room.Plus, ResultRoom, StrictOp, StrictOpCode;
    var u := OperandType(e.iop);
    var right, left := Peak(e.right, u), ResultRoom(u).Plus(Peak(e.left, u));
    RoomForBoth(s, right.Max(left).Max(INT_SLOT), ResultRoom(t));
    RoomForBoth(s, right.Max(left), INT_SLOT);
    RoomForBoth(s, right, left);

    var operands := GenOperands(p.ar, e, OperandType(e.iop), s.ip, ip).code;
    var op := [Op(StrictOpCode(e.iop))];
    AtSplit(p, operands + op, Conversion(ReqUInt, t), s.ip);
    AtSplit(p, operands, op, s.ip);
    var n2, s1, s2 := OperandsRun(p, e, OperandType(e.iop), ip, s);
    var er := Eval(p.ar, e.right, OperandType(e.iop), s.vars);
    var el := Eval(p.ar, e.left, OperandType(e.iop), er.vars);
    var s3 := StrictOpRuns(p, e.iop, n2, s, s1, s2, er.out, el.out);
    n, s' := ConversionRuns(p, ReqUInt, t, n2 + 1, s, s3, IntValue(StrictOp(p.ar, e.iop, el.out, er.out)));
  }

  /** The jump lands behind the right operand because that operand returns its end address. */
  lemma {:induction false} ShortCircuitRuns(p: Program, e: Expr, t: TypeReq, ip: nat, s: State)
      returns (n: nat, s': State)
    requires e.IntBinary? && (e.iop.LogicalOr? || e.iop.LogicalAnd?)
    requires FitsNode(e, t) && At(p, GenNode(p.ar, e, t, s.ip, ip).code, s.ip) && HasRoom(s, PeakNode(e, t))
    ensures Goes(p, n, s, s') && s'.ip == s.ip + |GenNode(p.ar, e, t, s.ip, ip).code|
    ensures s'.vars == EvalNode(p.ar, e, t, s.vars).vars && Delivers(s, s', t, EvalNode(p.ar, e, t, s.vars).out)
    ensures s'.cur == CurNode(p.ar, e, t, s.vars, s.cur)
    decreases e, 1
  {
    hide GenExpr, Eval, Fits, Peak, CurAfter, Goes, Execute, Step, Run, Delivers, At, Converted, Conversion, HasRoom,
         Room.Max, Room.Plus, ResultRoom;
    RoomForBoth(s, Peak(e.left, ReqUInt).Max(Peak(e.right, ReqUInt)), ResultRoom(t));
    RoomForBoth(s, Peak(e.left, ReqUInt), Peak(e.right, ReqUInt));

    var gl := GenExpr(p.ar, e.left, ReqUInt, s.ip, ip);
    var gr := GenExpr(p.ar, e.right, ReqUInt, s.ip + |gl.code| + 2, gl.ip);
    var when := e.iop.LogicalOr?;
    var jump := [Op(if when then JMPIF_NP else JMPIFNOT_NP), Num(gr.ip)];
    AtSplit(p, gl.code + jump + gr.code, Conversion(ReqUInt, t), s.ip);
    AtSplit(p, gl.code + jump, gr.code, s.ip);
    AtSplit(p, gl.code, jump, s.ip);
    var n1, s1 := ExprRuns(p, e.left, ReqUInt, ip, s);
    var el := Eval(p.ar, e.left, ReqUInt, s.vars);
    var s2 := KeepingJumpRuns(p, when, gr.ip, n1, s, s1, el.out);
    var n3, s3, out := n1 + 1, s2, el.out;
    if Holds(p.ar, el.out) != when {
      NoRoomTaken(s, s2, Peak(e.right, ReqUInt));
      var n2, s4 := ExprRuns(p, e.right, ReqUInt, gl.ip, s2);
      out := Eval(p.ar, e.right, ReqUInt, s2.vars).out;
      Join(p, n1 + 1, s, s2, n2, s4);
      Compose(s, s2, s4, ReqUInt, out);
      n3, s3 := n1 + 1 + n2, s4;
    }
    n, s' := ConversionRuns(p, ReqUInt, t, n3, s, s3, out);
  }

  lemma {:induction false} IntUnaryRuns(p: Program, e: Expr, t: TypeReq, ip: nat, s: State) returns (n: nat, s': State)
    requires e.IntUnary?
    requires FitsNode(e, t) && At(p, GenNode(p.ar, e, t, s.ip, ip).code, s.ip) && HasRoom(s, PeakNode(e, t))
    ensures Goes(p, n, s, s') && s'.ip == s.ip + |GenNode(p.ar, e, t, s.ip, ip).code|
    ensures s'.vars == EvalNode(p.ar, e, t, s.vars).vars && Delivers(s, s', t, EvalNode(p.ar, e, t, s.vars).out)
    ensures s'.cur == CurNode(p.ar, e, t, s.vars, s.cur)
    decreases e, 1
  {
    hide GenExpr, Eval, Fits, Peak, CurAfter, Goes, Execute, Step, Run, Delivers, At, Converted, Conversion, HasRoom,
         Room.Max, Room.Plus, ResultRoom, UnaryResult;
    RoomForBoth(s, Peak(e.operand, UnaryType(e.uop, e.operand)).Max(INT_SLOT), ResultRoom(t));
    RoomForBoth(s, Peak(e.operand, UnaryType(e.uop, e.operand)), INT_SLOT);

    var u := UnaryType(e.uop, e.operand);
    var g := GenExpr(p.ar, e.operand, u, s.ip, ip);
    var op := [Op(UnaryOpCode(e.uop, e.operand))];
    assert GenNode(p.ar, e, t, s.ip, ip).code == g.code + op + Conversion(ReqUInt, t) by {
      NumericConversion(u, t);
    }
    AtSplit(p, g.code + op, Conversion(ReqUInt, t), s.ip);
    AtSplit(p, g.code, op, s.ip);
    var n1, s1 := ExprRuns(p, e.operand, u, ip, s);
    var o := Eval(p.ar, e.operand, u, s.vars).out;
    var s2 := UnaryOpRuns(p, e.uop, e.operand, n1, s, s1, o);
    n, s' := ConversionRuns(p, ReqUInt, t, n1 + 1, s, s2, IntValue(UnaryResult(p.ar, e.uop, o)));
  }

  lemma NumericConversion(u: TypeReq, t: TypeReq)
    ensures t == ReqUInt ==> Conversion(ReqUInt, t) == []
    ensures t != ReqUInt ==> Conversion(ReqUInt, t) == [Op(ConversionOp(ReqUInt, t))]
  {
  }

  lemma {:induction false} FloatUnaryRuns(p: Program, e: Expr, t: TypeReq, ip: nat, s: State)
      returns (n: nat, s': State)
    requires e.FloatUnary?
    requires FitsNode(e, t) && At(p, GenNode(p.ar, e, t, s.ip, ip).code, s.ip) && HasRoom(s, PeakNode(e, t))
    ensures Goes(p, n, s, s') && s'.ip == s.ip + |GenNode(p.ar, e, t, s.ip, ip).code|
    ensures s'.vars == EvalNode(p.ar, e, t, s.vars).vars && Delivers(s, s', t, EvalNode(p.ar, e, t, s.vars).out)
    ensures s'.cur == CurNode(p.ar, e, t, s.vars, s.cur)
    decreases e, 1
  {
    hide GenExpr, Eval, Fits, Peak, CurAfter, Goes, Execute, Step, Run, Delivers, At, Converted, Conversion, HasRoom,
         Room.Max, Room.Plus, ResultRoom;
    RoomForBoth(s, Peak(e.operand, ReqFloat), ResultRoom(t));

    var g := GenExpr(p.ar, e.operand, ReqFloat, s.ip, ip);
    AtSplit(p, g.code + [Op(NEG)], Conversion(ReqFloat, t), s.ip);
    AtSplit(p, g.code, [Op(NEG)], s.ip);
    var n1, s1 := ExprRuns(p, e.operand, ReqFloat, ip, s);
    var o := Eval(p.ar, e.operand, ReqFloat, s.vars).out;
    var s2 := NegateRuns(p, n1, s, s1, o);
    n, s' := ConversionRuns(p, ReqFloat, t, n1 + 1, s, s2, FltValue(p.ar.negate(AsFlt(o))));
  }

  lemma {:induction false} ConditionalRuns(p: Program, e: Expr, t: TypeReq, ip: nat, s: State)
      returns (n: nat, s': State)
    requires e.Conditional?
    requires FitsNode(e, t) && At(p, GenNode(p.ar, e, t, s.ip, ip).code, s.ip) && HasRoom(s, PeakNode(e, t))
    ensures Goes(p, n, s, s') && s'.ip == s.ip + |GenNode(p.ar, e, t, s.ip, ip).code|
    ensures s'.vars == EvalNode(p.ar, e, t, s.vars).vars && Delivers(s, s', t, EvalNode(p.ar, e, t, s.vars).out)
    ensures s'.cur == CurNode(p.ar, e, t, s.vars, s.cur)
    decreases e, 1
  {
    hide GenExpr, Eval, Fits, Peak, CurAfter, Goes, Execute, Step, Run, Delivers, At, Converted, Conversion, HasRoom,
         Room.Max, Room.Plus, ResultRoom, JumpUnless;
    RoomForBoth(s, Peak(e.test, TestType(e.test)).Max(Peak(e.whenTrue, t)), Peak(e.whenFalse, t));
    RoomForBoth(s, Peak(e.test, TestType(e.test)), Peak(e.whenTrue, t));

    var tt := TestType(e.test);
    var gt := GenExpr(p.ar, e.test, tt, s.ip, ip);
    var ga := GenExpr(p.ar, e.whenTrue, t, s.ip + |gt.code| + 2, gt.ip);
    var elseAt := s.ip + |gt.code| + 2 + |ga.code| + 2;
    var gb := GenExpr(p.ar, e.whenFalse, t, elseAt, ga.ip);
    var j0 := [Op(JumpUnless(tt)), Num(elseAt)];
    var j1 := [Op(JMP), Num(elseAt + |gb.code|)];
    AtSplit(p, gt.code + j0 + ga.code + j1, gb.code, s.ip);
    AtSplit(p, gt.code + j0 + ga.code, j1, s.ip);
    AtSplit(p, gt.code + j0, ga.code, s.ip);
    AtSplit(p, gt.code, j0, s.ip);
    var n1, s1 := ExprRuns(p, e.test, tt, ip, s);
    var et := Eval(p.ar, e.test, tt, s.vars);
    var s2 := TestRuns(p, tt, false, elseAt, n1, s, s1, et.out);
    var taken := if Holds(p.ar, et.out) then e.whenTrue else e.whenFalse;
    NoRoomTaken(s, s2, Peak(taken, t));
    var o := Eval(p.ar, taken, t, s2.vars).out;
    if Holds(p.ar, et.out) {
      var n3, s3 := ExprRuns(p, e.whenTrue, t, gt.ip, s2);
      Join(p, n1 + 1, s, s2, n3, s3);
      Compose(s, s2, s3, t, o);
      s' := JumpRuns(p, elseAt + |gb.code|, n1 + 1 + n3, s, s3);
      Moved(s, s3, s', t, o);
      n := n1 + 1 + n3 + 1;
    } else {
      var n3, s3 := ExprRuns(p, e.whenFalse, t, ga.ip, s2);
      Join(p, n1 + 1, s, s2, n3, s3);
      Compose(s, s2, s3, t, o);
      n, s' := n1 + 1 + n3, s3;
    }
  }

  lemma NoRoomTaken(s: State, s': State, r: Room)
    requires Delivers(s, s', ReqNone, NoValue) && HasRoom(s, r)
    ensures HasRoom(s', r)
  {
  }

  lemma Moved(s: State, s1: State, s2: State, t: TypeReq, o: Out)
    requires Delivers(s, s1, t, o) && s2 == s1.(ip := s2.ip)
    ensures Delivers(s, s2, t, o)
  {
  }

  lemma SlotFits(s: State, r: Room)
    requires HasRoom(s, STRING_SLOT.Plus(r))
    ensures HasRoom(s, STRING_SLOT)
  {
  }

  /** Both operands of a string operator: the left one is set aside while the right one is built. */
  lemma {:induction false} StringsRun(p: Program, e: Expr, ip: nat, s: State) returns (n: nat, s1: State, s2: State)
    requires IsStringPair(e) && Fits(e.left, ReqString) && Fits(e.right, ReqString)
    requires At(p, GenStrings(p.ar, e, s.ip, ip).code, s.ip)
    requires HasRoom(s, Peak(e.left, ReqString)) && HasRoom(s, STRING_SLOT.Plus(Peak(e.right, ReqString)))
    ensures Goes(p, n, s, s2) && s2.ip == s.ip + |GenStrings(p.ar, e, s.ip, ip).code|
    ensures var el := Eval(p.ar, e.left, ReqString, s.vars);
            var er := Eval(p.ar, e.right, ReqString, el.vars);
            Holding(s, s1, SetAside(e, AsStr(el.out))) && Delivers(s1, s2, ReqString, er.out) && s2.vars == er.vars
    ensures s2.cur == CurOfStrings(p.ar, e, s.vars, s.cur)
    decreases e, 0
  {
    hide GenExpr, Eval, Fits, Peak, CurAfter, Goes, Execute, Step, Run, Delivers, At, HasRoom, Between, SetAside,
         Holding;
    var gl := GenExpr(p.ar, e.left, ReqString, s.ip, ip);
    var between := Between(e);
    var gr := GenExpr(p.ar, e.right, ReqString, s.ip + |gl.code| + |between|, gl.ip);
    AtSplit(p, gl.code + between, gr.code, s.ip);
    AtSplit(p, gl.code, between, s.ip);
    SlotFits(s, Peak(e.right, ReqString));
    var n0, s0 := ExprRuns(p, e.left, ReqString, ip, s);
    var el := Eval(p.ar, e.left, ReqString, s.vars);
    s1 := BetweenRuns(p, e, n0, s, s0, el.out);
    RoomAbove(s, s1, SetAside(e, AsStr(el.out)), Peak(e.right, ReqString));
    var n2;
    n2, s2 := ExprRuns(p, e.right, ReqString, gl.ip, s1);
    Join(p, n0 + 1, s, s1, n2, s2);
    n := n0 + 1 + n2;
  }

  lemma {:induction false} StrEqRuns(p: Program, e: Expr, t: TypeReq, ip: nat, s: State) returns (n: nat, s': State)
    requires e.StrEq?
    requires FitsNode(e, t) && At(p, GenNode(p.ar, e, t, s.ip, ip).code, s.ip) && HasRoom(s, PeakNode(e, t))
    ensures Goes(p, n, s, s') && s'.ip == s.ip + |GenNode(p.ar, e, t, s.ip, ip).code|
    ensures s'.vars == EvalNode(p.ar, e, t, s.vars).vars && Delivers(s, s', t, EvalNode(p.ar, e, t, s.vars).out)
    ensures s'.cur == CurNode(p.ar, e, t, s.vars, s.cur)
    decreases e, 1
  {
    hide GenExpr, Eval, Fits, Peak, CurAfter, Goes, Execute, Step, Run, Delivers, At, Converted, Conversion, HasRoom,
         Room.Max, Room.Plus, ResultRoom, GenStrings, Holding;
    var left, right := Peak(e.left, ReqString), STRING_SLOT.Plus(Peak(e.right, ReqString));
    RoomForBoth(s, left.Max(right).Max(INT_SLOT), ResultRoom(t));
    RoomForBoth(s, left.Max(right), INT_SLOT);
    RoomForBoth(s, left, right);

    var operands := GenStrings(p.ar, e, s.ip, ip).code;
    var compare := [Op(COMPARE_STR)];
    var flip := if e.eq then [] else [Op(NOT)];
    AtSplit(p, operands + compare + flip, Conversion(ReqUInt, t), s.ip);
    AtSplit(p, operands + compare, flip, s.ip);
    AtSplit(p, operands, compare, s.ip);
    var n2, s1, s2 := StringsRun(p, e, ip, s);
    var el := Eval(p.ar, e.left, ReqString, s.vars);
    var er := Eval(p.ar, e.right, ReqString, el.vars);
    var s3 := CompareStrRuns(p, SetAside(e, AsStr(el.out)), n2, s, s1, s2, er.out);
    var n3 := n2 + 1;
    var same := p.ar.equalIgnoringCase(AsStr(el.out), AsStr(er.out));
    if !e.eq {
      s3 := NotRuns(p, n3, s, s3, IntValue(Bool(same)));
      n3 := n3 + 1;
    }
    n, s' := ConversionRuns(p, ReqUInt, t, n3, s, s3, IntValue(Bool(same == e.eq)));
  }

  lemma {:induction false} CatRuns(p: Program, e: Expr, t: TypeReq, ip: nat, s: State) returns (n: nat, s': State)
    requires e.StrCat? || e.CommaCat?
    requires FitsNode(e, t) && At(p, GenNode(p.ar, e, t, s.ip, ip).code, s.ip) && HasRoom(s, PeakNode(e, t))
    ensures Goes(p, n, s, s') && s'.ip == s.ip + |GenNode(p.ar, e, t, s.ip, ip).code|
    ensures s'.vars == EvalNode(p.ar, e, t, s.vars).vars && Delivers(s, s', t, EvalNode(p.ar, e, t, s.vars).out)
    ensures s'.cur == CurNode(p.ar, e, t, s.vars, s.cur)
    decreases e, 1
  {
    hide GenExpr, Eval, Fits, Peak, CurAfter, Goes, Execute, Step, Run, Delivers, At, Converted, Conversion, HasRoom,
         Room.Max, Room.Plus, ResultRoom, StrConversion, GenStrings, Holding, Glue;
    RoomForBoth(s, Peak(e.left, ReqString).Max(STRING_SLOT.Plus(Peak(e.right, ReqString))), ResultRoom(t));
    RoomForBoth(s, Peak(e.left, ReqString), STRING_SLOT.Plus(Peak(e.right, ReqString)));

    var operands := GenStrings(p.ar, e, s.ip, ip).code;
    AtSplit(p, operands + [Op(REWIND_STR)], StrConversion(t), s.ip);
    AtSplit(p, operands, [Op(REWIND_STR)], s.ip);
    var n2, s1, s2 := StringsRun(p, e, ip, s);
    var el := Eval(p.ar, e.left, ReqString, s.vars);
    var er := Eval(p.ar, e.right, ReqString, el.vars);
    var s3 := RewindRuns(p, SetAside(e, AsStr(el.out)), n2, s, s1, s2, er.out);
    n, s' := StrConversionRuns(p, t, n2 + 1, s, s3, StrValue(SetAside(e, AsStr(el.out)).text + AsStr(er.out)));
  }

  lemma {:induction false} AssignNumberRuns(p: Program, e: Expr, t: TypeReq, ip: nat, s: State)
      returns (n: nat, s': State)
    requires e.Assign? && AssignType(e.rhs, t) in {ReqUInt, ReqFloat}
    requires FitsNode(e, t) && At(p, GenNode(p.ar, e, t, s.ip, ip).code, s.ip) && HasRoom(s, PeakNode(e, t))
    ensures Goes(p, n, s, s') && s'.ip == s.ip + |GenNode(p.ar, e, t, s.ip, ip).code|
    ensures s'.vars == EvalNode(p.ar, e, t, s.vars).vars && Delivers(s, s', t, EvalNode(p.ar, e, t, s.vars).out)
    ensures s'.cur == CurNode(p.ar, e, t, s.vars, s.cur)
    decreases e, 1
  {
    hide GenExpr, Eval, Fits, Peak, CurAfter, Goes, Execute, Step, Run, Delivers, At, Converted, Conversion, HasRoom,
         Room.Max, Room.Plus, ResultRoom, GenTarget, PeakIndex, Target, Created, Existing, Stored, SaveOp;
    var sub := AssignType(e.rhs, t);
    var held := ResultRoom(sub).Plus(PeakIndex(e.sub));
    RoomForBoth(s, Peak(e.rhs, sub).Max(held), ResultRoom(t));
    RoomForBoth(s, Peak(e.rhs, sub), held);

    var gr := GenExpr(p.ar, e.rhs, sub, s.ip, ip);
    var gt := GenTarget(p.ar, e.name, e.sub, true, s.ip + |gr.code|, gr.ip);
    var t' := if t == ReqVar then ReqNone else t;
    assert ResultRoom(t') == ResultRoom(t) by { SameResultRoom(); }
    var save := [Op(SaveOp(sub))];
    NumberAssignLayout(p.ar, e, t, s.ip, ip);
    hide GenNode;
    AtSplit(p, gr.code + gt.code + save, Conversion(sub, t'), s.ip);
    AtSplit(p, gr.code + gt.code, save, s.ip);
    AtSplit(p, gr.code, gt.code, s.ip);
    var n1, s1 := ExprRuns(p, e.rhs, sub, ip, s);
    var o := Eval(p.ar, e.rhs, sub, s.vars).out;
    RoomLeft(s, s1, sub, o, PeakIndex(e.sub));
    var n2, s2 := TargetRuns(p, e.name, e.sub, true, gr.ip, s1);
    Join(p, n1, s, s1, n2, s2);
    StillDelivered(s, s1, s2, sub, o);
    var s3 := SaveRuns(p, sub, n1 + n2, s, s2, o);
    n, s' := ConversionRuns(p, sub, t', n1 + n2 + 1, s, s3, o);
    LeavesVar(p.ar, s, s', t, o);
  }

  lemma NumberAssignLayout(ar: Arith, e: Expr, t: TypeReq, at: nat, ip: nat)
    requires e.Assign? && AssignType(e.rhs, t) in {ReqUInt, ReqFloat}
    ensures var sub := AssignType(e.rhs, t);
            var gr := GenExpr(ar, e.rhs, sub, at, ip);
            var gt := GenTarget(ar, e.name, e.sub, true, at + |gr.code|, gr.ip);
            GenNode(ar, e, t, at, ip).code ==
            gr.code + gt.code + [Op(SaveOp(sub))] + Conversion(sub, if t == ReqVar then ReqNone else t)
  {
    hide GenExpr, GenTarget, Conversion, SaveOp, AssignType;
  }

  lemma SameResultRoom()
    ensures ResultRoom(ReqNone) == ResultRoom(ReqVar)
  {
  }

  lemma StillDelivered(s: State, s1: State, s2: State, t: TypeReq, o: Out)
    requires t in {ReqUInt, ReqFloat} && Delivers(s, s1, t, o) && StacksKept(s1, s2)
    ensures Delivers(s, s2, t, o)
  {
  }

  /** An assignment asked for a variable drops its value and leaves the variable it assigned. */
  lemma LeavesVar(ar: Arith, s: State, s': State, t: TypeReq, o: Out)
    requires Delivers(s, s', if t == ReqVar then ReqNone else t, Converted(ar, o, if t == ReqVar then ReqNone else t))
    ensures t == ReqVar ==> Delivers(s, s', t, Ref(s'.cur))
    ensures t != ReqVar ==> Delivers(s, s', t, Converted(ar, o, t))
  {
  }

  /** A string to be stored in an array element is set aside while the element's name is built. */
  lemma {:induction false} AssignStringRuns(p: Program, e: Expr, t: TypeReq, ip: nat, s: State)
      returns (n: nat, s': State)
    requires e.Assign? && AssignType(e.rhs, t) == ReqString
    requires FitsNode(e, t) && At(p, GenNode(p.ar, e, t, s.ip, ip).code, s.ip) && HasRoom(s, PeakNode(e, t))
    ensures Goes(p, n, s, s') && s'.ip == s.ip + |GenNode(p.ar, e, t, s.ip, ip).code|
    ensures s'.vars == EvalNode(p.ar, e, t, s.vars).vars && Delivers(s, s', t, EvalNode(p.ar, e, t, s.vars).out)
    ensures s'.cur == CurNode(p.ar, e, t, s.vars, s.cur)
    decreases e, 1
  {
    hide GenExpr, Eval, Fits, Peak, CurAfter, Goes, Execute, Step, Run, Delivers, At, Converted, Conversion, HasRoom,
         Room.Max, Room.Plus, ResultRoom, GenTarget, PeakIndex, Target, Created, Existing;
    var held := (if e.sub.Present? then STRING_SLOT else ResultRoom(ReqString)).Plus(PeakIndex(e.sub));
    RoomForBoth(s, Peak(e.rhs, ReqString).Max(held), ResultRoom(t));
    RoomForBoth(s, Peak(e.rhs, ReqString), held);

    var gr := GenExpr(p.ar, e.rhs, ReqString, s.ip, ip);
    var mid := BesideString(p.ar, e.name, e.sub, s.ip + |gr.code|, gr.ip);
    var t' := if t == ReqVar then ReqNone else t;
    assert ResultRoom(t') == ResultRoom(t) by { SameResultRoom(); }
    var save := [Op(SAVEVAR_STR)];
    StringAssignLayout(p.ar, e, t, s.ip, ip);
    hide BesideString, GenNode;
    AtSplit(p, gr.code + mid + save, Conversion(ReqString, t'), s.ip);
    AtSplit(p, gr.code + mid, save, s.ip);
    AtSplit(p, gr.code, mid, s.ip);
    var n1, s1 := ExprRuns(p, e.rhs, ReqString, ip, s);
    var o := Eval(p.ar, e.rhs, ReqString, s.vars).out;
    var n2, s2 := TargetBesideString(p, e.name, e.sub, gr.ip, n1, s, s1, o);
    var s3 := SaveRuns(p, ReqString, n2, s, s2, o);
    n, s' := ConversionRuns(p, ReqString, t', n2 + 1, s, s3, o);
    LeavesVar(p.ar, s, s', t, o);
  }

  /** The code that selects a variable while a string waits to be stored in it. */
  function BesideString(ar: Arith, name: CString, sub: OptExpr, at: nat, ip: nat): Code {
    if sub.Present? then
      [Op(ADVANCE_STR)] + GenTarget(ar, name, sub, true, at + 1, ip).code + [Op(TERMINATE_REWIND_STR)]
    else
      GenTarget(ar, name, sub, true, at, ip).code
  }

  lemma StringAssignLayout(ar: Arith, e: Expr, t: TypeReq, at: nat, ip: nat)
    requires e.Assign? && AssignType(e.rhs, t) == ReqString
    ensures var gr := GenExpr(ar, e.rhs, ReqString, at, ip);
            var mid := BesideString(ar, e.name, e.sub, at + |gr.code|, gr.ip);
            var t' := if t == ReqVar then ReqNone else t;
            GenNode(ar, e, t, at, ip).code == gr.code + mid + [Op(SAVEVAR_STR)] + Conversion(ReqString, t')
  {
    hide GenExpr, GenTarget, Conversion;
    var gr := GenExpr(ar, e.rhs, ReqString, at, ip);
    if e.sub.Present? {
      var gt := GenTarget(ar, e.name, e.sub, true, at + |gr.code| + 1, gr.ip);
      var mid := BesideString(ar, e.name, e.sub, at + |gr.code|, gr.ip);
      assert gr.code + [Op(ADVANCE_STR)] + gt.code + [Op(TERMINATE_REWIND_STR)] == gr.code + mid;
    } else {
      var gt := GenTarget(ar, e.name, e.sub, true, at + |gr.code|, gr.ip);
      assert gr.code + [] + gt.code + [] == gr.code + gt.code;
    }
  }

  lemma {:induction false} TargetBesideString(p: Program, name: CString, sub: OptExpr, ip: nat, n: nat, s0: State,
      s: State, o: Out)
    returns (n': nat, s': State)
    requires FitsIndex(sub) && Goes(p, n, s0, s) && Delivers(s0, s, ReqString, o)
    requires HasRoom(s0, (if sub.Present? then STRING_SLOT else ResultRoom(ReqString)).Plus(PeakIndex(sub)))
    requires At(p, BesideString(p.ar, name, sub, s.ip, ip), s.ip)
    ensures Goes(p, n', s0, s') && s'.ip == s.ip + |BesideString(p.ar, name, sub, s.ip, ip)|
    ensures var target := Target(p.ar, name, sub, s.vars);
            s'.vars == Created(target.1, target.0) && s'.cur == Some(target.0)
    ensures Delivers(s0, s', ReqString, o)
    decreases sub, 1
  {
    hide FitsIndex, PeakIndex, Goes, Execute, Step, Run, Delivers, At, GenExpr, Eval, HasRoom, Created, Existing,
         Room.Plus, ResultRoom, Holding;
    if sub.Present? {
      SlotFits(s0, PeakIndex(sub));
      var gt := GenTarget(p.ar, name, sub, true, s.ip + 1, ip).code;
      AtSplit(p, [Op(ADVANCE_STR)] + gt, [Op(TERMINATE_REWIND_STR)], s.ip);
      AtSplit(p, [Op(ADVANCE_STR)], gt, s.ip);
      var pending := Pending(AsStr(o), false);
      var s1 := AdvanceRuns(p, ADVANCE_STR, pending, n, s0, s, o);
      RoomAbove(s0, s1, pending, PeakIndex(sub));
      var n2, s2 := TargetRuns(p, name, sub, true, ip, s1);
      Join(p, n + 1, s0, s1, n2, s2);
      s' := TerminateRuns(p, pending, n + 1 + n2, s0, s1, s2, s, o);
      n' := n + 1 + n2 + 1;
    } else {
      s' := SelectRuns(p, name, true, n, s0, s);
      HeadKept(s0, s, s', o);
      n' := n + 1;
    }
  }

  lemma HeadKept(s0: State, s: State, s': State, o: Out)
    requires Delivers(s0, s, ReqString, o) && StacksKept(s, s') && s'.head == s.head
    ensures Delivers(s0, s', ReqString, o)
  {
  }

  lemma TerminateRuns(p: Program, pending: Pending, n: nat, s0: State, s1: State, s: State, held: State, o: Out)
      returns (s': State)
    requires Goes(p, n, s0, s) && Holding(s0, s1, pending) && StacksKept(s1, s)
        && At(p, [Op(TERMINATE_REWIND_STR)], s.ip)
    requires Delivers(s0, held, ReqString, o) && pending.text == AsStr(o)
    ensures Goes(p, n + 1, s0, s') && s'.ip == s.ip + 1 && s'.vars == s.vars && s'.cur == s.cur
    ensures Delivers(s0, s', ReqString, o)
  {
    hide Goes, At;
    s' := Tick(p, n, s0, s, [Op(TERMINATE_REWIND_STR)]);
  }

  /** A variable copied from another one keeps its type. */
  lemma {:induction false} AssignVarRuns(p: Program, e: Expr, t: TypeReq, ip: nat, s: State) returns (n: nat, s': State)
    requires e.Assign? && AssignType(e.rhs, t) == ReqVar
    requires FitsNode(e, t) && At(p, GenNode(p.ar, e, t, s.ip, ip).code, s.ip) && HasRoom(s, PeakNode(e, t))
    ensures Goes(p, n, s, s') && s'.ip == s.ip + |GenNode(p.ar, e, t, s.ip, ip).code|
    ensures s'.vars == EvalNode(p.ar, e, t, s.vars).vars && Delivers(s, s', t, EvalNode(p.ar, e, t, s.vars).out)
    ensures s'.cur == CurNode(p.ar, e, t, s.vars, s.cur)
    decreases e, 1
  {
    hide GenExpr, Eval, Fits, Peak, CurAfter, Goes, Execute, Step, Run, Delivers, At, Converted, Conversion, HasRoom,
         Room.Max, Room.Plus, ResultRoom, GenTarget, PeakIndex, Target, Created, Existing;
    RoomForBoth(s, Peak(e.rhs, ReqVar).Max(ResultRoom(ReqVar).Plus(PeakIndex(e.sub))), ResultRoom(t));
    RoomForBoth(s, Peak(e.rhs, ReqVar), ResultRoom(ReqVar).Plus(PeakIndex(e.sub)));

    var gr := GenExpr(p.ar, e.rhs, ReqVar, s.ip, ip);
    var load := [Op(LOADVAR_VAR)];
    var gt := GenTarget(p.ar, e.name, e.sub, true, s.ip + |gr.code| + 1, gr.ip);
    var save := [Op(SAVEVAR_VAR)];
    assert GenNode(p.ar, e, t, s.ip, ip).code == gr.code + load + gt.code + save + Conversion(ReqVar, t);
    AtSplit(p, gr.code + load + gt.code + save, Conversion(ReqVar, t), s.ip);
    AtSplit(p, gr.code + load + gt.code, save, s.ip);
    AtSplit(p, gr.code + load, gt.code, s.ip);
    AtSplit(p, gr.code, load, s.ip);
    var n1, s1 := ExprRuns(p, e.rhs, ReqVar, ip, s);
    var o := Eval(p.ar, e.rhs, ReqVar, s.vars).out;
    var s2 := KeepVarRuns(p, n1, s, s1, o);
    SameRoom(s, s2, PeakIndex(e.sub));
    var n3, s3 := TargetRuns(p, e.name, e.sub, true, gr.ip, s2);
    Join(p, n1 + 1, s, s2, n3, s3);
    n, s' := CopyRuns(p, t, n1 + 1 + n3, s, s2, s3, o);
  }

  lemma KeepVarRuns(p: Program, n: nat, s0: State, s: State, o: Out) returns (s': State)
    requires Goes(p, n, s0, s) && Delivers(s0, s, ReqVar, o) && At(p, [Op(LOADVAR_VAR)], s.ip)
    ensures Goes(p, n + 1, s0, s') && s'.ip == s.ip + 1 && s'.vars == s.vars && s'.copy == AsRef(o)
    ensures s'.ints == s0.ints && s'.flts == s0.flts && s'.strs == s0.strs && o.Ref?
  {
    hide Goes, At;
    s' := Tick(p, n, s0, s, [Op(LOADVAR_VAR)]);
  }

  lemma SameRoom(s: State, s': State, r: Room)
    requires s'.ints == s.ints && s'.flts == s.flts && s'.strs == s.strs && HasRoom(s, ResultRoom(ReqVar).Plus(r))
    ensures HasRoom(s', r)
  {
  }

  lemma CopyRuns(p: Program, t: TypeReq, n: nat, s0: State, s1: State, s: State, o: Out) returns (n': nat, s': State)
    requires t in {ReqNone, ReqVar} && Goes(p, n, s0, s) && o.Ref? && s.cur.Some?
    requires s1.ints == s0.ints && s1.flts == s0.flts && s1.strs == s0.strs && s1.copy == o.ref && StacksKept(s1, s)
    requires At(p, [Op(SAVEVAR_VAR)], s.ip) && At(p, Conversion(ReqVar, t), s.ip + 1)
    ensures Goes(p, n', s0, s') && s'.ip == s.ip + 1 + |Conversion(ReqVar, t)|
    ensures s'.vars == s.vars[s.cur.value := Stored(p.ar, s.vars, o)] && s'.cur == s.cur
    ensures n' == n + 1 + |Conversion(ReqVar, t)|
    ensures exists mid: State :: Goes(p, n + 1, s0, mid) && mid.ip == s.ip + 1
    ensures Delivers(s0, s', t, if t == ReqVar then Ref(s.cur) else Converted(p.ar, o, t))
  {
    hide Goes, At;
    s' := Tick(p, n, s0, s, [Op(SAVEVAR_VAR)]);
    n' := n + 1;
    if t == ReqNone {
      s' := Tick(p, n', s0, s', [Op(COPYVAR_TO_NONE)]);
      n' := n' + 1;
    }
  }

  lemma {:induction false} AssignOpRuns(p: Program, e: Expr, t: TypeReq, ip: nat, s: State) returns (n: nat, s': State)
    requires e.AssignOp?
    requires FitsNode(e, t) && At(p, GenNode(p.ar, e, t, s.ip, ip).code, s.ip) && HasRoom(s, PeakNode(e, t))
    ensures Goes(p, n, s, s') && s'.ip == s.ip + |GenNode(p.ar, e, t, s.ip, ip).code|
    ensures s'.vars == EvalNode(p.ar, e, t, s.vars).vars && Delivers(s, s', t, EvalNode(p.ar, e, t, s.vars).out)
    ensures s'.cur == CurNode(p.ar, e, t, s.vars, s.cur)
    decreases e, 1
  {
    hide GenExpr, Eval, Fits, Peak, CurAfter, Goes, Execute, Step, Run, Delivers, At, Converted, Conversion, HasRoom,
         Room.Max, Room.Plus, ResultRoom, GenTarget, PeakIndex, Target, Created, Existing, Operate, AssignOpType,
         AssignOpResult, ReadAs, Stored;
    var sub := AssignOpType(e.aop);
    var rhs, held := Peak(e.rhs, sub), ResultRoom(sub);
    var index, both := held.Plus(PeakIndex(e.sub)), held.Plus(held);
    RoomForBoth(s, rhs.Max(index).Max(both), ResultRoom(t));
    RoomForBoth(s, rhs.Max(index), both);
    RoomForBoth(s, rhs, index);

    var gr := GenExpr(p.ar, e.rhs, sub, s.ip, ip);
    var gt := GenTarget(p.ar, e.name, e.sub, true, s.ip + |gr.code|, gr.ip);
    var operate := Operate(e.aop);
    AtSplit(p, gr.code + gt.code + operate, Conversion(sub, t), s.ip);
    AtSplit(p, gr.code + gt.code, operate, s.ip);
    AtSplit(p, gr.code, gt.code, s.ip);
    var n1, s1 := ExprRuns(p, e.rhs, sub, ip, s);
    var o := Eval(p.ar, e.rhs, sub, s.vars).out;
    RoomLeft(s, s1, sub, o, PeakIndex(e.sub));
    var n2, s2 := TargetRuns(p, e.name, e.sub, true, gr.ip, s1);
    Join(p, n1, s, s1, n2, s2);
    StillDelivered(s, s1, s2, sub, o);
    var result := AssignOpResult(p.ar, e.aop, ReadAs(p.ar, s2.vars, s2.cur, sub), o);
    var s3 := OperateRuns(p, e.aop, n1 + n2, s, s2, o);
    n, s' := ConversionRuns(p, sub, t, n1 + n2 + 3, s, s3, result);
  }

  /** Reads the current variable, combines it with the operand below, and stores the result. */
  lemma OperateRuns(p: Program, op: AssignOperator, n: nat, s0: State, s: State, o: Out) returns (s': State)
    requires Goes(p, n, s0, s) && Delivers(s0, s, AssignOpType(op), o) && s.cur.Some?
    requires At(p, Operate(op), s.ip)
    requires HasRoom(s0, ResultRoom(AssignOpType(op)).Plus(ResultRoom(AssignOpType(op))))
    ensures Goes(p, n + 3, s0, s') && s'.ip == s.ip + |Operate(op)| && s'.cur == s.cur
    ensures var result := AssignOpResult(p.ar, op, ReadAs(p.ar, s.vars, s.cur, AssignOpType(op)), o);
            s'.vars == s.vars[s.cur.value := Stored(p.ar, s.vars, result)] && Delivers(s0, s', AssignOpType(op), result)
  {
    hide Goes, At, Execute, Delivers, ConversionOp, AssignOpCode, AssignOpType, AssignOpResult, ReadAs, Stored,
         HasRoom, ResultRoom;
    var t := AssignOpType(op);
    VarConversions(t);
    RoomHalf(s0, ResultRoom(t));
    AtOne(p, Operate(op), s.ip, 0);
    AtOne(p, Operate(op), s.ip, 1);
    AtOne(p, Operate(op), s.ip, 2);
    RoomLeft(s0, s, t, o, ResultRoom(t));
    var n1, s1 := LoadVarRuns(p, t, n, s0, s, s);
    var read := ReadAs(p.ar, s.vars, s.cur, t);
    var s2 := CombineRuns(p, op, n1, s0, s, s1, o, read);
    s' := SaveRuns(p, t, n1 + 1, s0, s2, AssignOpResult(p.ar, op, read, o));
  }

  lemma RoomHalf(s: State, r: Room)
    requires HasRoom(s, r.Plus(r))
    ensures HasRoom(s, r)
  {
  }

  lemma VarConversions(t: TypeReq)
    requires t in {ReqUInt, ReqFloat}
    ensures LoadVar(t) == [Op(ConversionOp(ReqVar, t))] && SaveOp(t) == ConversionOp(t, ReqVar)
  {
  }

  lemma CombineRuns(p: Program, op: AssignOperator, n: nat, s0: State, s1: State, s2: State, right: Out, left: Out)
    returns (s': State)
    requires Goes(p, n, s0, s2) && HasRoom(s0, ResultRoom(AssignOpType(op)))
    requires Delivers(s0, s1, AssignOpType(op), right) && Delivers(s1, s2, AssignOpType(op), left)
    requires At(p, [Op(AssignOpCode(op))], s2.ip)
    ensures Goes(p, n + 1, s0, s') && s'.ip == s2.ip + 1 && s'.vars == s2.vars && s'.cur == s2.cur
    ensures Delivers(s0, s', AssignOpType(op), AssignOpResult(p.ar, op, left, right))
  {
    hide Goes, At, Execute, Delivers;
    if op.FloatAssign? {
      s' := ArithRuns(p, op.fop, n, s0, s1, s2, right, left);
    } else {
      s' := StrictOpRuns(p, Bits(op.bit), n, s0, s1, s2, right, left);
    }
  }
}
