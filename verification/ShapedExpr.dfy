/** The code of every served expression is shaped: it leaves its value and nothing else, by every path. */
module ShapedExprs {
  import opened Values
  import opened Ast
  import opened CodeGen
  import opened Machine
  import opened Semantics
  import opened Runs
  import opened CodeShapes

  lemma {:induction false} ExprShaped(ar: Arith, e: Expr, t: TypeReq, at: nat, ip: nat, a: Shape) returns (ts: Shapes)
    requires Fits(e, t)
    ensures var g := GenExpr(ar, e, t, at, ip);
      Held(g.code, at, ts, map[], a, Exit(t, a), a.h.s, a.h.s + Peak(e, t).s)
          && Lands(g, at, ip, ts, Landing(e, t, a.h))
    decreases e, 3
  {
    hide GenNode, FitsNode, PeakNode, Held, Exit, Landing, Lands;
    match e
    case IntLit(_) | FloatLit(_) | StrLit(_) | Constant(_) => ts := LiteralShaped(ar, e, t, at, ip, a);
    case Var(_, _) => ts := VarShaped(ar, e, t, at, ip, a);
    case FloatBinary(_, _, _) => ts := FloatBinaryShaped(ar, e, t, at, ip, a);
    case IntBinary(op, _, _) =>
      if op.LogicalOr? || op.LogicalAnd? {
        ts := ShortCircuitShaped(ar, e, t, at, ip, a);
      } else {
        ts := StrictShaped(ar, e, t, at, ip, a);
      }
    case IntUnary(_, _) => ts := IntUnaryShaped(ar, e, t, at, ip, a);
    case FloatUnary(_) => ts := FloatUnaryShaped(ar, e, t, at, ip, a);
    case Conditional(_, _, _) => ts := ConditionalShaped(ar, e, t, at, ip, a);
    case StrEq(_, _, _) => ts := StrEqShaped(ar, e, t, at, ip, a);
    case StrCat(_, _, _) | CommaCat(_, _) => ts := CatShaped(ar, e, t, at, ip, a);
    case Assign(_, _, _) => ts := AssignShaped(ar, e, t, at, ip, a);
    case AssignOp(_, _, _, _) => ts := AssignOpShaped(ar, e, t, at, ip, a);
  }

  /** A node that returns the end of its code returns an address whose shape is known. */
  lemma LandsAtEnd(g: Gen, e: Expr, t: TypeReq, at: nat, ip: nat, ts: Shapes, a: Shape, hi: int)
    requires !ReturnsStaleIp(e) && g.ip == at + |g.code|
    requires Held(g.code, at, ts, map[], a, Exit(t, a), a.h.s, hi)
    ensures Lands(g, at, ip, ts, Landing(e, t, a.h))
  {
    EndsThere(g.code, at, ts, map[], a, Exit(t, a), a.h.s, hi);
  }

  lemma LiteralShaped(ar: Arith, e: Expr, t: TypeReq, at: nat, ip: nat, a: Shape) returns (ts: Shapes)
    requires (e.IntLit? || e.FloatLit? || e.StrLit? || e.Constant?) && FitsNode(e, t)
    ensures var g := GenNode(ar, e, t, at, ip);
      Held(g.code, at, ts, map[], a, Exit(t, a), a.h.s, a.h.s + PeakNode(e, t).s)
          && Lands(g, at, ip, ts, Landing(e, t, a.h))
  {
    hide Held, Lands, Landing;
    var c := LiteralCode(ar, e, t);
    ts := LiteralWordsShaped(ar, e, t, at, a, a.h.s + PeakNode(e, t).s);
    if e.Constant? {
      ConstantLands(Gen(c, ip), e, t, at, ip, ts, a);
    } else {
      LandsAtEnd(Gen(c, at + |c|), e, t, at, ip, ts, a, a.h.s + PeakNode(e, t).s);
    }
  }

  lemma LiteralWordsShaped(ar: Arith, e: Expr, t: TypeReq, at: nat, a: Shape, hi: int) returns (ts: Shapes)
    requires (e.IntLit? || e.FloatLit? || e.StrLit? || e.Constant?) && t != ReqVar && a.h.s <= hi
    ensures Held(LiteralCode(ar, e, t), at, ts, map[], a, Exit(t, a), a.h.s, hi)
  {
    LiteralLoads(ar, e, t, a);
    hide Held, LiteralCode, Knows, After, Width, Exit;
    ExitLevel(t, a);
    if t == ReqNone {
      ts := NoCode(at, a, map[], a.h.s, hi);
    } else {
      ts := PlainHeld(LiteralCode(ar, e, t), at, a, Exit(t, a), map[], a.h.s, hi);
    }
  }

  lemma LiteralLoads(ar: Arith, e: Expr, t: TypeReq, a: Shape)
    requires (e.IntLit? || e.FloatLit? || e.StrLit? || e.Constant?) && t != ReqVar
    ensures var c := LiteralCode(ar, e, t);
      if t == ReqNone then c == [] && Exit(t, a) == a
      else
        && c != [] && c[0].Op? && |c| == Width(c[0].op) && LoadsAs(c[0].op, t)
        && Knows(Some(Exit(t, a)), After(c[0].op, a))
  {
    hide After, Exit, Knows;
    var c := LiteralCode(ar, e, t);
    if t == ReqNone {
      NoExit(a);
    } else {
      LoadSteps(c[0].op, t, a);
    }
  }

  predicate LoadsAs(op: OpCode, t: TypeReq) {
    match t
    case ReqUInt => op.LOADIMMED_UINT?
    case ReqFloat => op.LOADIMMED_FLT?
    case ReqString => op.LOADIMMED_STR? || op.LOADIMMED_IDENT?
    case _ => false
  }

  lemma NoExit(a: Shape)
    ensures Exit(ReqNone, a) == a
  {
  }

  lemma LoadSteps(op: OpCode, t: TypeReq, a: Shape)
    requires LoadsAs(op, t)
    ensures Knows(Some(Exit(t, a)), After(op, a))
  {
  }

  lemma ConstantLands(g: Gen, e: Expr, t: TypeReq, at: nat, ip: nat, ts: Shapes, a: Shape)
    requires e.Constant? && g.ip == ip
    ensures Lands(g, at, ip, ts, Landing(e, t, a.h))
  {
  }

  // ----- variables -----

  /** A slot more on the string stack. */
  function Deeper(a: Shape): Shape {
    Shape(a.h.Plus(ONE_STRING), a.spare)
  }

  lemma {:induction false} TargetShaped(ar: Arith, name: CString, sub: OptExpr, create: bool, at: nat, ip: nat,
      a: Shape)
    returns (ts: Shapes)
    requires FitsIndex(sub)
    ensures var g := GenTarget(ar, name, sub, create, at, ip);
      Held(g.code, at, ts, map[], a, a, a.h.s, a.h.s + PeakIndex(sub).s)
          && Lands(g, at, ip, ts, TargetLanding(sub, a.h))
    decreases sub, 0
  {
    hide GenExpr, Fits, Peak, Held, Lands, Steps, Exit, Landing;
    var lo, hi := a.h.s, a.h.s + PeakIndex(sub).s;
    match sub
    case Absent =>
      ts := NameHeld(if create then SETCURVAR_CREATE else SETCURVAR, name, at, a, a, lo, hi);
      HandedDown(GenTarget(ar, name, sub, create, at, ip), at, ip, ts);
    case Present(i) => ts := IndexShaped(ar, name, sub, create, at, ip, a);
  }

  /** What surrounds an index: the name set aside before it, both strings joined behind it. */
  function NameAside(name: CString): (c: Code)
    ensures |c| == 4
  {
    [Op(LOADIMMED_IDENT)] + IdentWords(name) + [Op(ADVANCE_STR)]
  }

  function JoinSelect(create: bool): (c: Code)
    ensures |c| == 2
  {
    [Op(REWIND_STR)] + [Op(if create then SETCURVAR_ARRAY_CREATE else SETCURVAR_ARRAY)]
  }

  lemma NameAsideShaped(name: CString, at: nat, a: Shape, lo: int, hi: int) returns (ts: Shapes)
    requires lo <= a.h.s && a.h.s + 1 <= hi
    ensures Held(NameAside(name), at, ts, map[], a, Deeper(Shape(a.h, true)), lo, hi)
  {
    hide Held, Steps, Deeper, Exit;
    var a1 := Shape(a.h, true);
    IndexSteps(a, true);
    DeeperIs(a1);
    var ts0 := NameHeld(LOADIMMED_IDENT, name, at, a, a1, lo, hi);
    var ts1 := OneHeld(ADVANCE_STR, at + 3, a1, Deeper(a1), lo, hi);
    ts := Followed([Op(LOADIMMED_IDENT)] + IdentWords(name), [Op(ADVANCE_STR)], at, ts0, ts1, map[], a, a1, Deeper(a1),
        lo, hi);
  }

  lemma JoinSelectShaped(create: bool, at: nat, a: Shape, lo: int, hi: int) returns (ts: Shapes)
    requires lo <= a.h.s && a.h.s + 1 <= hi
    ensures Held(JoinSelect(create), at, ts, map[], Exit(ReqString, Deeper(Shape(a.h, true))), a, lo, hi)
  {
    hide Held, Steps, Deeper, Exit;
    var a1 := Shape(a.h, true);
    var b := Exit(ReqString, Deeper(a1));
    IndexSteps(a, create);
    DeeperIs(a1);
    ExitLevel(ReqString, Deeper(a1));
    var op := if create then SETCURVAR_ARRAY_CREATE else SETCURVAR_ARRAY;
    var ts0 := OneHeld(REWIND_STR, at, b, a1, lo, hi);
    var ts1 := OneHeld(op, at + 1, a1, a, lo, hi);
    ts := Followed([Op(REWIND_STR)], [Op(op)], at, ts0, ts1, map[], b, a1, a, lo, hi);
  }

  lemma {:induction false} IndexShaped(ar: Arith, name: CString, sub: OptExpr, create: bool, at: nat, ip: nat, a: Shape)
    returns (ts: Shapes)
    requires sub.Present? && Fits(sub.e, ReqString)
    ensures var g := GenTarget(ar, name, sub, create, at, ip);
      && Held(g.code, at, ts, map[], a, a, a.h.s, a.h.s + 1 + Peak(sub.e, ReqString).s)
      && Lands(g, at, ip, ts, Landing(sub.e, ReqString, a.h.Plus(ONE_STRING)))
    decreases sub.e, 4
  {
    hide GenExpr, Fits, Peak, Held, Lands, Exit, Landing, GenTarget, Deeper, NameAside, JoinSelect;
    var lo, hi := a.h.s, a.h.s + 1 + Peak(sub.e, ReqString).s;
    var before, behind := NameAside(name), JoinSelect(create);
    var g := GenExpr(ar, sub.e, ReqString, at + 4, ip);
    var a2 := Deeper(Shape(a.h, true));
    var b := Exit(ReqString, a2);
    IndexCode(ar, name, sub, create, at, ip);
    DeeperIs(Shape(a.h, true));
    var ts1 := NameAsideShaped(name, at, a, lo, hi);
    var ts2 := ExprShaped(ar, sub.e, ReqString, at + 4, ip, a2);
    Wider(g.code, at + 4, ts2, a2, b, a2.h.s, a2.h.s + Peak(sub.e, ReqString).s, map[], lo, hi);
    var ts3 := JoinSelectShaped(create, at + 4 + |g.code|, a, lo, hi);
    var u2 := FollowedIn(before, g.code, at, ts1, ts2, map[], a, a2, b, lo, hi);
    ts := FollowedIn(before + g.code, behind, at, u2, ts3, map[], a, b, a, lo, hi);
    LandsLater(g, before, behind, at, ip, ts2, u2, ts, Landing(sub.e, ReqString, a2.h));
  }

  lemma IndexCode(ar: Arith, name: CString, sub: OptExpr, create: bool, at: nat, ip: nat)
    requires sub.Present?
    ensures var g := GenExpr(ar, sub.e, ReqString, at + 4, ip);
      GenTarget(ar, name, sub, create, at, ip) ==
      Gen(NameAside(name) + g.code + JoinSelect(create), g.ip)
  {
    hide GenExpr;
  }

  lemma NameHeld(op: OpCode, name: CString, at: nat, a: Shape, b: Shape, lo: int, hi: int) returns (ts: Shapes)
    requires op in {SETCURVAR, SETCURVAR_CREATE, LOADIMMED_IDENT} && lo <= a.h.s <= hi
    requires b == if op == LOADIMMED_IDENT then Shape(a.h, true) else a
    ensures Held([Op(op)] + IdentWords(name), at, ts, map[], a, b, lo, hi)
  {
    hide Held;
    ts := PlainHeld([Op(op)] + IdentWords(name), at, a, b, map[], lo, hi);
  }

  lemma DeeperIs(a: Shape)
    ensures Deeper(a).h == a.h.Plus(ONE_STRING) && Deeper(a).h.s == a.h.s + 1
  {
  }

  lemma IndexSteps(a: Shape, create: bool)
    ensures var a1 := Shape(a.h, true);
      && Steps(ADVANCE_STR, a1, Deeper(a1))
      && Steps(REWIND_STR, Exit(ReqString, Deeper(a1)), a1)
      && Steps(if create then SETCURVAR_ARRAY_CREATE else SETCURVAR_ARRAY, a1, a)
  {
    hide Steps, Exit, Deeper;
    AsideSteps(Shape(a.h, true));
    SelectSteps(a, create);
  }

  lemma AsideSteps(a: Shape)
    requires a.spare
    ensures Steps(ADVANCE_STR, a, Deeper(a)) && Steps(REWIND_STR, Exit(ReqString, Deeper(a)), a)
  {
  }

  lemma SelectSteps(a: Shape, create: bool)
    ensures Steps(if create then SETCURVAR_ARRAY_CREATE else SETCURVAR_ARRAY, Shape(a.h, true), a)
  {
  }

  lemma HandedDown(g: Gen, at: nat, ip: nat, ts: Shapes)
    requires g.ip == ip
    ensures Lands(g, at, ip, ts, None)
  {
  }

  /** The address the index returns, seen from the whole code of the selection. */
  lemma LandsLater(g: Gen, before: Code, rest: Code, at: nat, ip: nat, ts2: Shapes, u2: Shapes, ts: Shapes,
      l: Option<Height>)
    requires Lands(g, at + |before|, ip, ts2, l)
    requires |ts2| == |g.code| + 1 && |u2| == |before| + |ts2| && u2[|before|..] == ts2
    requires |u2| <= |ts| == |before + g.code + rest| + 1 && ts[..|u2|] == u2
    ensures Lands(Gen(before + g.code + rest, g.ip), at, ip, ts, l)
  {
    if l.Some? {
      var k := g.ip - at - |before|;
      assert ts[|before| + k] == ts[..|u2|][|before| + k] == u2[|before|..][k];
    }
  }

  lemma {:induction false} VarShaped(ar: Arith, e: Expr, t: TypeReq, at: nat, ip: nat, a: Shape) returns (ts: Shapes)
    requires e.Var? && FitsNode(e, t)
    ensures var g := GenNode(ar, e, t, at, ip);
      Held(g.code, at, ts, map[], a, Exit(t, a), a.h.s, a.h.s + PeakNode(e, t).s)
          && Lands(g, at, ip, ts, Landing(e, t, a.h))
    decreases e, 1
  {
    hide GenExpr, Fits, Peak, Held, Lands, Landing, GenTarget, PeakIndex, FitsIndex, Room.Max;
    var lo, hi := a.h.s, a.h.s + PeakNode(e, t).s;
    if t == ReqNone {
      assert Exit(t, a) == a;
      ts := NoCode(at, a, map[], lo, hi);
    } else {
      MaxHolds(PeakIndex(e.sub), ResultRoom(t));
      var c := GenTarget(ar, e.name, e.sub, false, at, ip).code;
      var ts1 := TargetShaped(ar, e.name, e.sub, false, at, ip, a);
      Wider(c, at, ts1, a, a, lo, a.h.s + PeakIndex(e.sub).s, map[], lo, hi);
      var ts2 := LoadHeld(t, at + |c|, a, hi);
      ts := Followed(c, LoadVar(t), at, ts1, ts2, map[], a, a, Exit(t, a), lo, hi);
    }
    LandsAtEnd(GenNode(ar, e, t, at, ip), e, t, at, ip, ts, a, hi);
  }

  lemma LoadHeld(t: TypeReq, at: nat, a: Shape, hi: int) returns (ts: Shapes)
    requires t != ReqNone && a.h.s <= hi
    ensures Held(LoadVar(t), at, ts, map[], a, Exit(t, a), a.h.s, hi)
  {
    if t == ReqVar {
      assert Exit(t, a) == a;
      ts := NoCode(at, a, map[], a.h.s, hi);
    } else {
      ts := PlainHeld(LoadVar(t), at, a, Exit(t, a), map[], a.h.s, hi);
    }
  }

  // ----- numbers -----

  lemma {:induction false} OperandsShaped(ar: Arith, e: Expr, t: TypeReq, at: nat, ip: nat, a: Shape, hi: int)
      returns (ts: Shapes)
    requires (e.FloatBinary? || e.IntBinary?) && Fits(e.left, t) && Fits(e.right, t) && t in {ReqUInt, ReqFloat}
    requires a.h.s + Peak(e.right, t).s <= hi && a.h.s + Peak(e.left, t).s <= hi
    ensures Held(GenOperands(ar, e, t, at, ip).code, at, ts, map[], a, Exit(t, Exit(t, a)), a.h.s, hi)
    decreases e, 0
  {
    hide GenExpr, Fits, Peak, Held, Lands, Landing;
    var gr := GenExpr(ar, e.right, t, at, ip);
    var gl := GenExpr(ar, e.left, t, at + |gr.code|, gr.ip);
    var b := Exit(t, a);
    var ts1 := ExprShaped(ar, e.right, t, at, ip, a);
    var ts2 := ExprShaped(ar, e.left, t, at + |gr.code|, gr.ip, b);
    Wider(gr.code, at, ts1, a, b, a.h.s, a.h.s + Peak(e.right, t).s, map[], a.h.s, hi);
    Wider(gl.code, at + |gr.code|, ts2, b, Exit(t, b), b.h.s, b.h.s + Peak(e.left, t).s, map[], a.h.s, hi);
    ts := Followed(gr.code, gl.code, at, ts1, ts2, map[], a, b, Exit(t, b), a.h.s, hi);
  }

  lemma {:induction false} FloatBinaryShaped(ar: Arith, e: Expr, t: TypeReq, at: nat, ip: nat, a: Shape)
      returns (ts: Shapes)
    requires e.FloatBinary? && FitsNode(e, t)
    ensures var g := GenNode(ar, e, t, at, ip);
      Held(g.code, at, ts, map[], a, Exit(t, a), a.h.s, a.h.s + PeakNode(e, t).s)
          && Lands(g, at, ip, ts, Landing(e, t, a.h))
    decreases e, 1
  {
    hide GenExpr, Fits, Peak, Held, Lands, Landing, Conversion, Room.Max;
    var lo, hi := a.h.s, a.h.s + PeakNode(e, t).s;
    MaxHolds(Peak(e.right, ReqFloat).Max(ResultRoom(ReqFloat).Plus(Peak(e.left, ReqFloat))), ResultRoom(t));
    MaxHolds(Peak(e.right, ReqFloat), ResultRoom(ReqFloat).Plus(Peak(e.left, ReqFloat)));
    var operands := GenOperands(ar, e, ReqFloat, at, ip).code;
    var op := [Op(ARITH(e.fop))];
    var b, f := Exit(ReqFloat, Exit(ReqFloat, a)), Exit(ReqFloat, a);
    var ts1 := OperandsShaped(ar, e, ReqFloat, at, ip, a, hi);
    var ts2 := PlainHeld(op, at + |operands|, b, f, map[], lo, hi);
    var ts3 := ConversionHeld(ReqFloat, t, at + |operands| + 1, a, map[], hi);
    var u := Followed(operands, op, at, ts1, ts2, map[], a, b, f, lo, hi);
    ts := Followed(operands + op, Conversion(ReqFloat, t), at, u, ts3, map[], a, f, Exit(t, a), lo, hi);
    LandsAtEnd(GenNode(ar, e, t, at, ip), e, t, at, ip, ts, a, hi);
  }

  lemma {:induction false} StrictShaped(ar: Arith, e: Expr, t: TypeReq, at: nat, ip: nat, a: Shape) returns (ts: Shapes)
    requires e.IntBinary? && (e.iop.Bits? || e.iop.Compare?) && FitsNode(e, t)
    ensures var g := GenNode(ar, e, t, at, ip);
      Held(g.code, at, ts, map[], a, Exit(t, a), a.h.s, a.h.s + PeakNode(e, t).s)
          && Lands(g, at, ip, ts, Landing(e, t, a.h))
    decreases e, 1
  {
    hide GenExpr, Fits, Peak, Held, Lands, Landing, Conversion, Room.Max;
    var lo, hi, o := a.h.s, a.h.s + PeakNode(e, t).s, OperandType(e.iop);
    MaxHolds(Peak(e.right, o).Max(ResultRoom(o).Plus(Peak(e.left, o))).Max(INT_SLOT), ResultRoom(t));
    MaxHolds(Peak(e.right, o).Max(ResultRoom(o).Plus(Peak(e.left, o))), INT_SLOT);
    MaxHolds(Peak(e.right, o), ResultRoom(o).Plus(Peak(e.left, o)));
    var operands := GenOperands(ar, e, o, at, ip).code;
    var op := [Op(StrictOpCode(e.iop))];
    var b, f := Exit(o, Exit(o, a)), Exit(ReqUInt, a);
    var ts1 := OperandsShaped(ar, e, o, at, ip, a, hi);
    var ts2 := PlainHeld(op, at + |operands|, b, f, map[], lo, hi);
    var ts3 := ConversionHeld(ReqUInt, t, at + |operands| + 1, a, map[], hi);
    var u := Followed(operands, op, at, ts1, ts2, map[], a, b, f, lo, hi);
    ts := Followed(operands + op, Conversion(ReqUInt, t), at, u, ts3, map[], a, f, Exit(t, a), lo, hi);
    LandsAtEnd(GenNode(ar, e, t, at, ip), e, t, at, ip, ts, a, hi);
  }

  lemma {:induction false} IntUnaryShaped(ar: Arith, e: Expr, t: TypeReq, at: nat, ip: nat, a: Shape)
      returns (ts: Shapes)
    requires e.IntUnary? && FitsNode(e, t)
    ensures var g := GenNode(ar, e, t, at, ip);
      Held(g.code, at, ts, map[], a, Exit(t, a), a.h.s, a.h.s + PeakNode(e, t).s)
          && Lands(g, at, ip, ts, Landing(e, t, a.h))
    decreases e, 1
  {
    hide GenExpr, Fits, Peak, Held, Lands, Landing, Room.Max;
    var lo, hi, o := a.h.s, a.h.s + PeakNode(e, t).s, UnaryType(e.uop, e.operand);
    MaxHolds(Peak(e.operand, o).Max(INT_SLOT), ResultRoom(t));
    MaxHolds(Peak(e.operand, o), INT_SLOT);
    var g := GenExpr(ar, e.operand, o, at, ip);
    var op := [Op(UnaryOpCode(e.uop, e.operand))];
    assert GenNode(ar, e, t, at, ip).code == g.code + op + Conversion(ReqUInt, t);
    hide Conversion;
    var f := Exit(ReqUInt, a);
    var ts1 := ExprShaped(ar, e.operand, o, at, ip, a);
    Wider(g.code, at, ts1, a, Exit(o, a), lo, lo + Peak(e.operand, o).s, map[], lo, hi);
    var ts2 := PlainHeld(op, at + |g.code|, Exit(o, a), f, map[], lo, hi);
    var ts3 := ConversionHeld(ReqUInt, t, at + |g.code| + 1, a, map[], hi);
    var u := Followed(g.code, op, at, ts1, ts2, map[], a, Exit(o, a), f, lo, hi);
    ts := Followed(g.code + op, Conversion(ReqUInt, t), at, u, ts3, map[], a, f, Exit(t, a), lo, hi);
    LandsAtEnd(GenNode(ar, e, t, at, ip), e, t, at, ip, ts, a, hi);
  }

  lemma {:induction false} FloatUnaryShaped(ar: Arith, e: Expr, t: TypeReq, at: nat, ip: nat, a: Shape)
      returns (ts: Shapes)
    requires e.FloatUnary? && FitsNode(e, t)
    ensures var g := GenNode(ar, e, t, at, ip);
      Held(g.code, at, ts, map[], a, Exit(t, a), a.h.s, a.h.s + PeakNode(e, t).s)
          && Lands(g, at, ip, ts, Landing(e, t, a.h))
    decreases e, 1
  {
    hide GenExpr, Fits, Peak, Held, Lands, Landing, Conversion, Room.Max;
    var lo, hi := a.h.s, a.h.s + PeakNode(e, t).s;
    MaxHolds(Peak(e.operand, ReqFloat), ResultRoom(t));
    var g := GenExpr(ar, e.operand, ReqFloat, at, ip);
    var op := [Op(NEG)];
    var f := Exit(ReqFloat, a);
    var ts1 := ExprShaped(ar, e.operand, ReqFloat, at, ip, a);
    Wider(g.code, at, ts1, a, f, lo, lo + Peak(e.operand, ReqFloat).s, map[], lo, hi);
    var ts2 := PlainHeld(op, at + |g.code|, f, f, map[], lo, hi);
    var ts3 := ConversionHeld(ReqFloat, t, at + |g.code| + 1, a, map[], hi);
    var u := Followed(g.code, op, at, ts1, ts2, map[], a, f, f, lo, hi);
    ts := Followed(g.code + op, Conversion(ReqFloat, t), at, u, ts3, map[], a, f, Exit(t, a), lo, hi);
    LandsAtEnd(GenNode(ar, e, t, at, ip), e, t, at, ip, ts, a, hi);
  }

  /** The jump leads behind the right operand, where the deciding operand lies as that one would. */
  lemma {:induction false} ShortCircuitShaped(ar: Arith, e: Expr, t: TypeReq, at: nat, ip: nat, a: Shape)
      returns (ts: Shapes)
    requires e.IntBinary? && (e.iop.LogicalOr? || e.iop.LogicalAnd?) && FitsNode(e, t)
    ensures var g := GenNode(ar, e, t, at, ip);
      Held(g.code, at, ts, map[], a, Exit(t, a), a.h.s, a.h.s + PeakNode(e, t).s)
          && Lands(g, at, ip, ts, Landing(e, t, a.h))
    decreases e, 1
  {
    hide GenExpr, Fits, Peak, Held, Lands, Landing, Conversion, Room.Max, Shaped;
    var lo, hi := a.h.s, a.h.s + PeakNode(e, t).s;
    var gl := GenExpr(ar, e.left, ReqUInt, at, ip);
    var gr := GenExpr(ar, e.right, ReqUInt, at + |gl.code| + 2, gl.ip);
    var f := Exit(ReqUInt, a);
    var outs := map[gr.ip as int := f];
    var u := UpToRight(ar, e, t, at, ip, a, outs);
    var both := gl.code + [Op(if e.iop.LogicalOr? then JMPIF_NP else JMPIFNOT_NP), Num(gr.ip)] + gr.code;
    EndsThere(both, at, u, outs, a, f, lo, hi);
    Closed(both, at, u, outs, a, f, lo, hi);
    var ts3 := ConversionHeld(ReqUInt, t, at + |both|, a, map[], hi);
    ts := Followed(both, Conversion(ReqUInt, t), at, u, ts3, map[], a, f, Exit(t, a), lo, hi);
    LandsAtEnd(GenNode(ar, e, t, at, ip), e, t, at, ip, ts, a, hi);
  }

  /** A short-circuit operator up to the end of its right operand, wherever its jump leads. */
  lemma {:induction false} UpToRight(ar: Arith, e: Expr, t: TypeReq, at: nat, ip: nat, a: Shape, outs: map<int, Shape>)
    returns (ts: Shapes)
    requires e.IntBinary? && (e.iop.LogicalOr? || e.iop.LogicalAnd?) && Fits(e.left, ReqUInt) && Fits(e.right, ReqUInt)
    requires var gl := GenExpr(ar, e.left, ReqUInt, at, ip);
      var gr := GenExpr(ar, e.right, ReqUInt, at + |gl.code| + 2, gl.ip);
      outs == map[gr.ip as int := Exit(ReqUInt, a)]
    ensures var gl := GenExpr(ar, e.left, ReqUInt, at, ip);
      var gr := GenExpr(ar, e.right, ReqUInt, at + |gl.code| + 2, gl.ip);
      var jump := [Op(if e.iop.LogicalOr? then JMPIF_NP else JMPIFNOT_NP), Num(gr.ip)];
      && Held(gl.code + jump + gr.code, at, ts, outs, a, Exit(ReqUInt, a), a.h.s, a.h.s + PeakNode(e, t).s)
      && Lands(gl, at, ip, ts, Landing(e.left, ReqUInt, a.h))
      && Lands(gr, at + |gl.code| + 2, gl.ip, ts[|gl.code| + 2..], Landing(e.right, ReqUInt, a.h))
    decreases e, 0
  {
    hide GenExpr, Fits, Peak, Held, Landing, Room.Max, Shaped;
    var lo, hi := a.h.s, a.h.s + PeakNode(e, t).s;
    MaxHolds(Peak(e.left, ReqUInt).Max(Peak(e.right, ReqUInt)), ResultRoom(t));
    MaxHolds(Peak(e.left, ReqUInt), Peak(e.right, ReqUInt));
    var gl := GenExpr(ar, e.left, ReqUInt, at, ip);
    var gr := GenExpr(ar, e.right, ReqUInt, at + |gl.code| + 2, gl.ip);
    var f := Exit(ReqUInt, a);
    var op := if e.iop.LogicalOr? then JMPIF_NP else JMPIFNOT_NP;
    var jump := [Op(op), Num(gr.ip)];
    var ts0 := ExprShaped(ar, e.left, ReqUInt, at, ip, a);
    Wider(gl.code, at, ts0, a, f, lo, lo + Peak(e.left, ReqUInt).s, outs, lo, hi);
    var ts1 := JumpHeld(op, gr.ip, at + |gl.code|, f, a, outs, lo, hi);
    var ts2 := ExprShaped(ar, e.right, ReqUInt, at + |gl.code| + 2, gl.ip, a);
    Wider(gr.code, at + |gl.code| + 2, ts2, a, f, lo, lo + Peak(e.right, ReqUInt).s, outs, lo, hi);
    var u1 := FollowedIn(gl.code, jump, at, ts0, ts1, outs, a, f, a, lo, hi);
    ts := FollowedIn(gl.code + jump, gr.code, at, u1, ts2, outs, a, a, f, lo, hi);
    assert ts[..|ts0|] == u1[..|ts0|] == ts0;
    LandsBefore(gl, at, ip, ts0, ts, Landing(e.left, ReqUInt, a.h));
  }

  lemma LandsBefore(g: Gen, at: nat, ip: nat, ts0: Shapes, ts: Shapes, l: Option<Height>)
    requires Lands(g, at, ip, ts0, l) && |ts0| <= |ts| && ts[..|ts0|] == ts0
    ensures Lands(g, at, ip, ts, l)
  {
    if l.Some? {
      assert ts[..|ts0|][g.ip - at] == ts[g.ip - at];
    }
  }

  /** Ways out that lead to the end of the code lead to no other place. */
  lemma Closed(c: Code, at: nat, ts: Shapes, outs: map<int, Shape>, a: Shape, b: Shape, lo: int, hi: int)
    requires Held(c, at, ts, outs, a, b, lo, hi)
    requires forall n :: n in outs ==> at <= n < at + |ts| && ts[n - at] == Some(outs[n])
    ensures Held(c, at, ts, map[], a, b, lo, hi)
  {
    hide Fine;
    ComesBack(c, at, ts, outs, map[], a, b);
  }

  /** Test, branch, jump over the other branch, other branch: both ways come to the end alike. */
  lemma BranchesHeld(op: OpCode, ct: Code, ca: Code, cb: Code, at: nat, ts0: Shapes, ts2: Shapes, ts4: Shapes,
      outs: map<int, Shape>, a: Shape, x: Shape, b: Shape, lo: int, hi: int) returns (ts: Shapes)
    requires IsJump(op) && Knows(Some(a), After(op, x)) && Taken(op, x) == a && Taken(JMP, b) == b
    requires lo <= a.h.s <= hi && x.h.s == a.h.s == b.h.s
    requires var elseAt := at + |ct| + 2 + |ca| + 2;
      && outs == map[elseAt as int := a][elseAt + |cb| as int := b]
      && Held(ct, at, ts0, outs, a, x, lo, hi) && Held(ca, at + |ct| + 2, ts2, outs, a, b, lo, hi)
      && Held(cb, elseAt, ts4, map[], a, b, lo, hi)
    ensures var elseAt := at + |ct| + 2 + |ca| + 2;
      Held(ct + [Op(op), Num(elseAt)] + ca + [Op(JMP), Num(elseAt + |cb|)] + cb, at, ts, map[], a, b, lo, hi)
  {
    hide Held, Knows, After, Taken;
    var elseAt := at + |ct| + 2 + |ca| + 2;
    var end := elseAt + |cb|;
    var j0, j1 := [Op(op), Num(elseAt)], [Op(JMP), Num(end)];
    EndsThere(cb, elseAt, ts4, map[], a, b, lo, hi);
    var ts1 := JumpHeld(op, elseAt, at + |ct|, x, a, outs, lo, hi);
    var ts3 := JumpHeld(JMP, end, at + |ct| + 2 + |ca|, b, a, outs, lo, hi);
    Wider(cb, elseAt, ts4, a, b, lo, hi, outs, lo, hi);
    var u1 := Followed(ct, j0, at, ts0, ts1, outs, a, x, a, lo, hi);
    var u2 := Followed(ct + j0, ca, at, u1, ts2, outs, a, a, b, lo, hi);
    var u3 := Followed(ct + j0 + ca, j1, at, u2, ts3, outs, a, b, a, lo, hi);
    ts := FollowedIn(ct + j0 + ca + j1, cb, at, u3, ts4, outs, a, a, b, lo, hi);
    EndsThere(ct + j0 + ca + j1 + cb, at, ts, outs, a, b, lo, hi);
    assert ts[elseAt - at] == ts[|ct + j0 + ca + j1|..][0] == Some(a);
    Closed(ct + j0 + ca + j1 + cb, at, ts, outs, a, b, lo, hi);
  }

  lemma {:induction false} ConditionalShaped(ar: Arith, e: Expr, t: TypeReq, at: nat, ip: nat, a: Shape)
      returns (ts: Shapes)
    requires e.Conditional? && FitsNode(e, t)
    ensures var g := GenNode(ar, e, t, at, ip);
      Held(g.code, at, ts, map[], a, Exit(t, a), a.h.s, a.h.s + PeakNode(e, t).s)
          && Lands(g, at, ip, ts, Landing(e, t, a.h))
    decreases e, 1
  {
    hide GenExpr, Fits, Peak, Held, Lands, Landing, Room.Max, Exit, Knows, After, Taken, JumpUnless, TestType;
    TestJumps(e.test, t, a);
    var lo, hi, tt := a.h.s, a.h.s + PeakNode(e, t).s, TestType(e.test);
    MaxHolds(Peak(e.test, tt).Max(Peak(e.whenTrue, t)), Peak(e.whenFalse, t));
    MaxHolds(Peak(e.test, tt), Peak(e.whenTrue, t));
    var gt := GenExpr(ar, e.test, tt, at, ip);
    var ga := GenExpr(ar, e.whenTrue, t, at + |gt.code| + 2, gt.ip);
    var elseAt := at + |gt.code| + 2 + |ga.code| + 2;
    var gb := GenExpr(ar, e.whenFalse, t, elseAt, ga.ip);
    var b := Exit(t, a);
    var outs := map[elseAt as int := a][elseAt + |gb.code| as int := b];
    var ts0 := ExprShaped(ar, e.test, tt, at, ip, a);
    Wider(gt.code, at, ts0, a, Exit(tt, a), lo, lo + Peak(e.test, tt).s, outs, lo, hi);
    var ts2 := ExprShaped(ar, e.whenTrue, t, at + |gt.code| + 2, gt.ip, a);
    Wider(ga.code, at + |gt.code| + 2, ts2, a, b, lo, lo + Peak(e.whenTrue, t).s, outs, lo, hi);
    var ts4 := ExprShaped(ar, e.whenFalse, t, elseAt, ga.ip, a);
    Wider(gb.code, elseAt, ts4, a, b, lo, lo + Peak(e.whenFalse, t).s, map[], lo, hi);
    ts := BranchesHeld(JumpUnless(tt), gt.code, ga.code, gb.code, at, ts0, ts2, ts4, outs, a, Exit(tt, a), b, lo, hi);
    EndsThere(GenNode(ar, e, t, at, ip).code, at, ts, map[], a, b, lo, hi);
    LandsAtEnd(GenNode(ar, e, t, at, ip), e, t, at, ip, ts, a, hi);
  }

  lemma TestJumps(test: Expr, t: TypeReq, a: Shape)
    ensures var tt := TestType(test);
      var op := JumpUnless(tt);
      && IsJump(op) && Knows(Some(a), After(op, Exit(tt, a))) && Taken(op, Exit(tt, a)) == a
      && Taken(JMP, Exit(t, a)) == Exit(t, a)
      && Exit(tt, a).h.s == a.h.s && Exit(t, a).h.s == a.h.s
  {
    hide TestType;
  }

  // ----- strings -----

  lemma BetweenShaped(e: Expr, at: nat, a: Shape, hi: int) returns (ts: Shapes)
    requires IsStringPair(e) && a.h.s + 1 <= hi
    ensures Held(Between(e), at, ts, map[], Exit(ReqString, a), Deeper(a).(spare := false), a.h.s, hi)
  {
    ts := PlainHeld(Between(e), at, Exit(ReqString, a), Deeper(a).(spare := false), map[], a.h.s, hi);
  }

  lemma {:induction false} StringsShaped(ar: Arith, e: Expr, at: nat, ip: nat, a: Shape, hi: int) returns (ts: Shapes)
    requires IsStringPair(e) && Fits(e.left, ReqString) && Fits(e.right, ReqString)
    requires a.h.s + Peak(e.left, ReqString).s <= hi && a.h.s + 1 + Peak(e.right, ReqString).s <= hi
    ensures Held(GenStrings(ar, e, at, ip).code, at, ts, map[], a, Exit(ReqString, Deeper(a)), a.h.s, hi)
    decreases e, 0
  {
    hide GenExpr, Fits, Peak, Held, Lands, Landing, Between;
    var between := Between(e);
    var gl := GenExpr(ar, e.left, ReqString, at, ip);
    var gr := GenExpr(ar, e.right, ReqString, at + |gl.code| + |between|, gl.ip);
    var b, d := Exit(ReqString, a), Deeper(a).(spare := false);
    var ts0 := ExprShaped(ar, e.left, ReqString, at, ip, a);
    Wider(gl.code, at, ts0, a, b, a.h.s, a.h.s + Peak(e.left, ReqString).s, map[], a.h.s, hi);
    var ts1 := BetweenShaped(e, at + |gl.code|, a, hi);
    var ts2 := ExprShaped(ar, e.right, ReqString, at + |gl.code| + |between|, gl.ip, d);
    Wider(gr.code, at + |gl.code| + |between|, ts2, d, Exit(ReqString, d), d.h.s, d.h.s + Peak(e.right, ReqString).s,
        map[], a.h.s, hi);
    var u := Followed(gl.code, between, at, ts0, ts1, map[], a, b, d, a.h.s, hi);
    ts := Followed(gl.code + between, gr.code, at, u, ts2, map[], a, d, Exit(ReqString, d), a.h.s, hi);
  }

  lemma {:induction false} StrEqShaped(ar: Arith, e: Expr, t: TypeReq, at: nat, ip: nat, a: Shape) returns (ts: Shapes)
    requires e.StrEq? && FitsNode(e, t)
    ensures var g := GenNode(ar, e, t, at, ip);
      Held(g.code, at, ts, map[], a, Exit(t, a), a.h.s, a.h.s + PeakNode(e, t).s)
          && Lands(g, at, ip, ts, Landing(e, t, a.h))
    decreases e, 1
  {
    hide GenExpr, Fits, Peak, Held, Lands, Landing, Conversion, Room.Max, GenStrings, Exit, Steps, Deeper;
    StringSteps(a, t);
    var lo, hi := a.h.s, a.h.s + PeakNode(e, t).s;
    MaxHolds(Peak(e.left, ReqString).Max(STRING_SLOT.Plus(Peak(e.right, ReqString))).Max(INT_SLOT), ResultRoom(t));
    MaxHolds(Peak(e.left, ReqString).Max(STRING_SLOT.Plus(Peak(e.right, ReqString))), INT_SLOT);
    MaxHolds(Peak(e.left, ReqString), STRING_SLOT.Plus(Peak(e.right, ReqString)));
    var operands := GenStrings(ar, e, at, ip).code;
    var compare := [Op(COMPARE_STR)];
    var flip := if e.eq then [] else [Op(NOT)];
    var b, f := Exit(ReqString, Deeper(a)), Exit(ReqUInt, a);
    var ts0 := StringsShaped(ar, e, at, ip, a, hi);
    EndsThere(operands, at, ts0, map[], a, b, lo, hi);
    var ts1 := OneHeld(COMPARE_STR, at + |operands|, b, f, lo, hi);
    var ts2 := FlipHeld(flip, at + |operands| + 1, f, lo, hi);
    var ts3 := ConversionHeld(ReqUInt, t, at + |operands| + 1 + |flip|, a, map[], hi);
    var u1 := Followed(operands, compare, at, ts0, ts1, map[], a, b, f, lo, hi);
    var u2 := Followed(operands + compare, flip, at, u1, ts2, map[], a, f, f, lo, hi);
    ts := Followed(operands + compare + flip, Conversion(ReqUInt, t), at, u2, ts3, map[], a, f, Exit(t, a), lo, hi);
    LandsAtEnd(GenNode(ar, e, t, at, ip), e, t, at, ip, ts, a, hi);
  }

  lemma StringSteps(a: Shape, t: TypeReq)
    ensures var b := Exit(ReqString, Deeper(a));
      && Steps(COMPARE_STR, b, Exit(ReqUInt, a)) && Steps(REWIND_STR, b, Exit(ReqString, a))
          && Steps(REWIND_STR, b, Exit(ReqNone, a))
      && Exit(ReqUInt, a).h.s == Exit(ReqString, a).h.s == Exit(t, a).h.s == Exit(ReqNone, a).h.s == a.h.s
  {
  }

  lemma FlipHeld(flip: Code, at: nat, f: Shape, lo: int, hi: int) returns (ts: Shapes)
    requires (flip == [] || flip == [Op(NOT)]) && lo <= f.h.s <= hi
    ensures Held(flip, at, ts, map[], f, f, lo, hi)
  {
    if flip == [] {
      ts := NoCode(at, f, map[], lo, hi);
    } else {
      ts := PlainHeld(flip, at, f, f, map[], lo, hi);
    }
  }

  lemma {:induction false} CatShaped(ar: Arith, e: Expr, t: TypeReq, at: nat, ip: nat, a: Shape) returns (ts: Shapes)
    requires (e.StrCat? || e.CommaCat?) && FitsNode(e, t)
    ensures var g := GenNode(ar, e, t, at, ip);
      Held(g.code, at, ts, map[], a, Exit(t, a), a.h.s, a.h.s + PeakNode(e, t).s)
          && Lands(g, at, ip, ts, Landing(e, t, a.h))
    decreases e, 1
  {
    hide GenExpr, Fits, Peak, Held, Lands, Landing, StrConversion, GenStrings, Exit, Steps, Deeper, PeakNode;
    StringSteps(a, t);
    CatPeak(e, t);
    var lo, hi := a.h.s, a.h.s + PeakNode(e, t).s;
    var operands := GenStrings(ar, e, at, ip).code;
    var rewind := [Op(REWIND_STR)];
    var b, f := Exit(ReqString, Deeper(a)), if t == ReqNone then Exit(t, a) else Exit(ReqString, a);
    var ts0 := StringsShaped(ar, e, at, ip, a, hi);
    EndsThere(operands, at, ts0, map[], a, b, lo, hi);
    var ts1 := OneHeld(REWIND_STR, at + |operands|, b, f, lo, hi);
    var ts2 := StrConversionHeld(t, at + |operands| + 1, a, hi);
    var u := Followed(operands, rewind, at, ts0, ts1, map[], a, b, f, lo, hi);
    ts := Followed(operands + rewind, StrConversion(t), at, u, ts2, map[], a, f, Exit(t, a), lo, hi);
    LandsAtEnd(GenNode(ar, e, t, at, ip), e, t, at, ip, ts, a, hi);
  }

  lemma CatPeak(e: Expr, t: TypeReq)
    requires e.StrCat? || e.CommaCat?
    ensures Peak(e.left, ReqString).s <= PeakNode(e, t).s && 1 + Peak(e.right, ReqString).s <= PeakNode(e, t).s
  {
    hide Peak, Room.Max;
    MaxHolds(Peak(e.left, ReqString).Max(STRING_SLOT.Plus(Peak(e.right, ReqString))), ResultRoom(t));
    MaxHolds(Peak(e.left, ReqString), STRING_SLOT.Plus(Peak(e.right, ReqString)));
  }

  lemma StrConversionHeld(t: TypeReq, at: nat, a: Shape, hi: int) returns (ts: Shapes)
    requires t != ReqVar && a.h.s <= hi
    ensures Held(StrConversion(t), at, ts, map[], if t == ReqNone then Exit(t, a) else Exit(ReqString, a), Exit(t, a),
        a.h.s, hi)
  {
    if t == ReqUInt || t == ReqFloat {
      ts := PlainHeld(StrConversion(t), at, Exit(ReqString, a), Exit(t, a), map[], a.h.s, hi);
    } else {
      ts := NoCode(at, Exit(t, a), map[], a.h.s, hi);
    }
  }

  // ----- assignments -----

  /** What an assignment emits between its right-hand side and its target, and behind the target. */
  function Keep(s: TypeReq, sub: OptExpr): Code {
    if s == ReqVar then [Op(LOADVAR_VAR)] else if s == ReqString && sub.Present? then [Op(ADVANCE_STR)] else []
  }

  function Back(s: TypeReq, sub: OptExpr): Code {
    if s == ReqString && sub.Present? then [Op(TERMINATE_REWIND_STR)] else []
  }

  /** While the target is selected, a string lies one slot deeper. */
  function Waiting(s: TypeReq, sub: OptExpr, a: Shape): Shape {
    if s == ReqString && sub.Present? then Shape(a.h.Plus(ONE_STRING), true) else Exit(s, a)
  }

  lemma KeepHeld(s: TypeReq, sub: OptExpr, at: nat, a: Shape, hi: int) returns (ts: Shapes)
    requires a.h.s <= hi && (s == ReqString && sub.Present? ==> a.h.s + 1 <= hi)
    ensures Held(Keep(s, sub), at, ts, map[], Exit(s, a), Waiting(s, sub, a), a.h.s, hi)
  {
    if Keep(s, sub) == [] {
      ts := NoCode(at, Exit(s, a), map[], a.h.s, hi);
    } else {
      ts := PlainHeld(Keep(s, sub), at, Exit(s, a), Waiting(s, sub, a), map[], a.h.s, hi);
    }
  }

  lemma BackHeld(s: TypeReq, sub: OptExpr, at: nat, a: Shape, hi: int) returns (ts: Shapes)
    requires a.h.s <= hi && (s == ReqString && sub.Present? ==> a.h.s + 1 <= hi)
    ensures Held(Back(s, sub), at, ts, map[], Waiting(s, sub, a), Exit(s, a), a.h.s, hi)
  {
    if Back(s, sub) == [] {
      ts := NoCode(at, Exit(s, a), map[], a.h.s, hi);
    } else {
      ts := PlainHeld(Back(s, sub), at, Waiting(s, sub, a), Exit(s, a), map[], a.h.s, hi);
    }
  }

  /** The last conversion of an assignment; one wanted as a variable drops the value. */
  lemma LastConversionHeld(s: TypeReq, t: TypeReq, at: nat, a: Shape, hi: int) returns (ts: Shapes)
    requires s != ReqNone && (s == ReqVar ==> t in {ReqNone, ReqVar}) && a.h.s <= hi
    ensures var t' := if t == ReqVar && s != ReqVar then ReqNone else t;
      Held(Conversion(s, t'), at, ts, map[], Exit(s, a), Exit(t, a), a.h.s, hi)
  {
    var t' := if t == ReqVar && s != ReqVar then ReqNone else t;
    assert Exit(t', a) == Exit(t, a);
    if s != ReqVar {
      ts := ConversionHeld(s, t', at, a, map[], hi);
    } else if t == ReqVar {
      ts := NoCode(at, Exit(s, a), map[], a.h.s, hi);
    } else {
      ts := PlainHeld(Conversion(s, t'), at, Exit(s, a), Exit(t, a), map[], a.h.s, hi);
    }
  }

  lemma AssignPeak(e: Expr, t: TypeReq)
    requires e.Assign?
    ensures var s := AssignType(e.rhs, t);
      && Peak(e.rhs, s).s <= PeakNode(e, t).s
      && (if s == ReqString && e.sub.Present? then 1 else 0) + PeakIndex(e.sub).s <= PeakNode(e, t).s
  {
    hide Peak, PeakIndex, AssignType, Room.Max;
    var s := AssignType(e.rhs, t);
    var held := if s == ReqString && e.sub.Present? then STRING_SLOT else ResultRoom(s);
    MaxHolds(Peak(e.rhs, s).Max(held.Plus(PeakIndex(e.sub))), ResultRoom(t));
    MaxHolds(Peak(e.rhs, s), held.Plus(PeakIndex(e.sub)));
  }

  /** The first half of an assignment's code, up to the selected target. */
  lemma {:induction false} UpToTarget(ar: Arith, e: Expr, t: TypeReq, at: nat, ip: nat, a: Shape, hi: int)
      returns (ts: Shapes)
    requires e.Assign? && Fits(e.rhs, AssignType(e.rhs, t)) && FitsIndex(e.sub) && a.h.s + PeakNode(e, t).s <= hi
    ensures var s := AssignType(e.rhs, t);
      var gr := GenExpr(ar, e.rhs, s, at, ip);
      var keep := Keep(s, e.sub);
      var gt := GenTarget(ar, e.name, e.sub, true, at + |gr.code| + |keep|, gr.ip);
      && Held(gr.code + keep + gt.code, at, ts, map[], a, Waiting(s, e.sub, a), a.h.s, hi)
      && Lands(Gen(gr.code + keep + gt.code, gt.ip), at, ip, ts, Landing(e, t, a.h))
    decreases e, 0
  {
    hide GenExpr, Fits, Peak, Held, GenTarget, PeakIndex, FitsIndex, AssignType, Lands, PeakNode, Keep;
    AssignPeak(e, t);
    var s := AssignType(e.rhs, t);
    var gr := GenExpr(ar, e.rhs, s, at, ip);
    var keep := Keep(s, e.sub);
    var gt := GenTarget(ar, e.name, e.sub, true, at + |gr.code| + |keep|, gr.ip);
    var b, w := Exit(s, a), Waiting(s, e.sub, a);
    var ts0 := ExprShaped(ar, e.rhs, s, at, ip, a);
    Wider(gr.code, at, ts0, a, b, a.h.s, a.h.s + Peak(e.rhs, s).s, map[], a.h.s, hi);
    PeakOfIndex(e.sub);
    var ts1 := KeepHeld(s, e.sub, at + |gr.code|, a, hi);
    var ts2 := TargetShaped(ar, e.name, e.sub, true, at + |gr.code| + |keep|, gr.ip, w);
    Wider(gt.code, at + |gr.code| + |keep|, ts2, w, w, w.h.s, w.h.s + PeakIndex(e.sub).s, map[], a.h.s, hi);
    var u1 := FollowedIn(gr.code, keep, at, ts0, ts1, map[], a, b, w, a.h.s, hi);
    ts := FollowedIn(gr.code + keep, gt.code, at, u1, ts2, map[], a, w, w, a.h.s, hi);
    var l := TargetLanding(e.sub, w.h);
    LandingOf(e, t, a);
    if l.Some? {
      LandsBehind(gt, gr.code + keep, at, gr.ip, ip, ts2, ts, l);
    } else {
      assert ts[..|ts0|] == u1[..|ts0|] == ts0;
      LandsEarlier(gr, gt, keep, at, ip, ts0, ts2, ts, Landing(e.rhs, s, a.h));
    }
  }

  lemma PeakOfIndex(sub: OptExpr)
    ensures PeakIndex(sub).s >= if sub.Present? then 1 else 0
  {
    hide Peak;
  }

  lemma LandingOf(e: Expr, t: TypeReq, a: Shape)
    requires e.Assign?
    ensures var s := AssignType(e.rhs, t);
      var l := TargetLanding(e.sub, Waiting(s, e.sub, a).h);
      Landing(e, t, a.h) == if l.Some? then l else Landing(e.rhs, s, a.h)
  {
    assert Waiting(AssignType(e.rhs, t), e.sub, a).h == a.h.Plus(HeldHeight(AssignType(e.rhs, t), e.sub));
    hide AssignType;
  }

  lemma LandsBehind(g: Gen, before: Code, at: nat, ip: nat, ip': nat, ts2: Shapes, ts: Shapes, l: Option<Height>)
    requires l.Some? && Lands(g, at + |before|, ip, ts2, l) && |ts2| == |g.code| + 1
    requires |ts| == |before| + |ts2| && ts[|before|..] == ts2
    ensures Lands(Gen(before + g.code, g.ip), at, ip', ts, l)
  {
    assert ts[|before|..][g.ip - at - |before|] == ts[g.ip - at];
  }

  lemma LandsEarlier(g: Gen, gt: Gen, keep: Code, at: nat, ip: nat, ts0: Shapes, ts2: Shapes, ts: Shapes,
      l: Option<Height>)
    requires Lands(g, at, ip, ts0, l) && |ts0| == |g.code| + 1 && |ts0| <= |ts| == |g.code + keep + gt.code| + 1
        && ts[..|ts0|] == ts0
    requires Lands(gt, at + |g.code| + |keep|, g.ip, ts2, None)
    ensures Lands(Gen(g.code + keep + gt.code, gt.ip), at, ip, ts, l)
  {
    if l.Some? {
      assert ts[..|ts0|][g.ip - at] == ts[g.ip - at];
    }
  }

  lemma {:induction false} AssignShaped(ar: Arith, e: Expr, t: TypeReq, at: nat, ip: nat, a: Shape) returns (ts: Shapes)
    requires e.Assign? && FitsNode(e, t)
    ensures var g := GenNode(ar, e, t, at, ip);
      Held(g.code, at, ts, map[], a, Exit(t, a), a.h.s, a.h.s + PeakNode(e, t).s)
          && Lands(g, at, ip, ts, Landing(e, t, a.h))
    decreases e, 1
  {
    hide GenExpr, Fits, Peak, Held, Lands, Landing, GenTarget, PeakIndex, FitsIndex, PeakNode, GenNode, Conversion,
         AssignType, Keep, Back, Waiting, Exit, SaveOp;
    AssignPlan(ar, e, t, at, ip);
    TypeOfAssign(e.rhs, t);
    AssignPeak(e, t);
    PeakOfIndex(e.sub);
    ExitLevel(AssignType(e.rhs, t), a);
    var lo, hi, s := a.h.s, a.h.s + PeakNode(e, t).s, AssignType(e.rhs, t);
    var gr := GenExpr(ar, e.rhs, s, at, ip);
    var keep, back, save := Keep(s, e.sub), Back(s, e.sub), [Op(SaveOp(s))];
    var gt := GenTarget(ar, e.name, e.sub, true, at + |gr.code| + |keep|, gr.ip);
    var t' := if t == ReqVar && s != ReqVar then ReqNone else t;
    var first := gr.code + keep + gt.code;
    var w, b := Waiting(s, e.sub, a), Exit(s, a);
    var ts0 := UpToTarget(ar, e, t, at, ip, a, hi);
    var ts1 := BackHeld(s, e.sub, at + |first|, a, hi);
    var ts2 := SaveHeld(s, at + |first| + |back|, b, lo, hi);
    var ts3 := LastConversionHeld(s, t, at + |first| + |back| + 1, a, hi);
    var u1 := FollowedIn(first, back, at, ts0, ts1, map[], a, w, b, lo, hi);
    var u2 := FollowedIn(first + back, save, at, u1, ts2, map[], a, b, b, lo, hi);
    ts := FollowedIn(first + back + save, Conversion(s, t'), at, u2, ts3, map[], a, b, Exit(t, a), lo, hi);
    assert ts[..|ts0|] == u2[..|ts0|] == u1[..|ts0|] == ts0;
    LandsInFirst(Gen(first, gt.ip), GenNode(ar, e, t, at, ip), at, ip, ts0, ts, Landing(e, t, a.h));
  }

  lemma LandsInFirst(g: Gen, whole: Gen, at: nat, ip: nat, ts0: Shapes, ts: Shapes, l: Option<Height>)
    requires Lands(g, at, ip, ts0, l) && whole.ip == g.ip && |g.code| <= |whole.code| && |ts| == |whole.code| + 1
    requires |ts0| <= |ts| && ts[..|ts0|] == ts0
    ensures Lands(whole, at, ip, ts, l)
  {
    if l.Some? {
      assert ts[..|ts0|][g.ip - at] == ts[g.ip - at];
    }
  }

  lemma TypeOfAssign(rhs: Expr, t: TypeReq)
    ensures var s := AssignType(rhs, t); s != ReqNone && (s == ReqVar ==> t in {ReqNone, ReqVar})
  {
  }

  lemma SaveHeld(s: TypeReq, at: nat, b: Shape, lo: int, hi: int) returns (ts: Shapes)
    requires s != ReqNone && lo <= b.h.s <= hi
    ensures Held([Op(SaveOp(s))], at, ts, map[], b, b, lo, hi)
  {
    ts := PlainHeld([Op(SaveOp(s))], at, b, b, map[], lo, hi);
  }

  lemma AssignPlan(ar: Arith, e: Expr, t: TypeReq, at: nat, ip: nat)
    requires e.Assign?
    ensures var s := AssignType(e.rhs, t);
      var gr := GenExpr(ar, e.rhs, s, at, ip);
      var keep := Keep(s, e.sub);
      var gt := GenTarget(ar, e.name, e.sub, true, at + |gr.code| + |keep|, gr.ip);
      var t' := if t == ReqVar && s != ReqVar then ReqNone else t;
      GenNode(ar, e, t, at, ip) ==
      Gen(gr.code + keep + gt.code + Back(s, e.sub) + [Op(SaveOp(s))] + Conversion(s, t'), gt.ip)
  {
    hide GenExpr, GenTarget, Conversion, SaveOp, AssignType;
  }

  lemma AssignOpPeak(e: Expr, t: TypeReq)
    requires e.AssignOp?
    ensures Peak(e.rhs, AssignOpType(e.aop)).s <= PeakNode(e, t).s && PeakIndex(e.sub).s <= PeakNode(e, t).s
  {
    hide Peak, PeakIndex, Room.Max;
    var s := AssignOpType(e.aop);
    var held := ResultRoom(s);
    MaxHolds(Peak(e.rhs, s).Max(held.Plus(PeakIndex(e.sub))).Max(held.Plus(held)), ResultRoom(t));
    MaxHolds(Peak(e.rhs, s).Max(held.Plus(PeakIndex(e.sub))), held.Plus(held));
    MaxHolds(Peak(e.rhs, s), held.Plus(PeakIndex(e.sub)));
  }

  lemma OperateShaped(op: AssignOperator, at: nat, a: Shape, lo: int, hi: int) returns (ts: Shapes)
    requires lo <= a.h.s <= hi
    ensures var b := Exit(AssignOpType(op), a); Held(Operate(op), at, ts, map[], b, b, lo, hi)
  {
    hide Held;
    var s := AssignOpType(op);
    var b := Exit(s, a);
    var c0, c1, c2 := [Op(ConversionOp(ReqVar, s))], [Op(AssignOpCode(op))], [Op(ConversionOp(s, ReqVar))];
    var ts0 := PlainHeld(c0, at, b, Exit(s, b), map[], lo, hi);
    var ts1 := PlainHeld(c1, at + 1, Exit(s, b), b, map[], lo, hi);
    var ts2 := PlainHeld(c2, at + 2, b, b, map[], lo, hi);
    var u := Followed(c0, c1, at, ts0, ts1, map[], b, Exit(s, b), b, lo, hi);
    ts := Followed(c0 + c1, c2, at, u, ts2, map[], b, b, b, lo, hi);
    assert c0 + c1 + c2 == Operate(op);
  }

  lemma {:induction false} AssignOpShaped(ar: Arith, e: Expr, t: TypeReq, at: nat, ip: nat, a: Shape)
      returns (ts: Shapes)
    requires e.AssignOp? && FitsNode(e, t)
    ensures var g := GenNode(ar, e, t, at, ip);
      Held(g.code, at, ts, map[], a, Exit(t, a), a.h.s, a.h.s + PeakNode(e, t).s)
          && Lands(g, at, ip, ts, Landing(e, t, a.h))
    decreases e, 1
  {
    hide GenExpr, Fits, Peak, Held, Lands, Landing, GenTarget, PeakIndex, FitsIndex, PeakNode, Conversion, Operate,
         Exit, AssignOpType;
    AssignOpPeak(e, t);
    ExitLevel(AssignOpType(e.aop), a);
    var lo, hi, s := a.h.s, a.h.s + PeakNode(e, t).s, AssignOpType(e.aop);
    var gr := GenExpr(ar, e.rhs, s, at, ip);
    var gt := GenTarget(ar, e.name, e.sub, true, at + |gr.code|, gr.ip);
    var b := Exit(s, a);
    var ts0 := ExprShaped(ar, e.rhs, s, at, ip, a);
    Wider(gr.code, at, ts0, a, b, lo, lo + Peak(e.rhs, s).s, map[], lo, hi);
    var ts1 := TargetShaped(ar, e.name, e.sub, true, at + |gr.code|, gr.ip, b);
    Wider(gt.code, at + |gr.code|, ts1, b, b, b.h.s, b.h.s + PeakIndex(e.sub).s, map[], lo, hi);
    var ts2 := OperateShaped(e.aop, at + |gr.code| + |gt.code|, a, lo, hi);
    var ts3 := ConversionHeld(s, t, at + |gr.code| + |gt.code| + |Operate(e.aop)|, a, map[], hi);
    var u1 := Followed(gr.code, gt.code, at, ts0, ts1, map[], a, b, b, lo, hi);
    var u2 := Followed(gr.code + gt.code, Operate(e.aop), at, u1, ts2, map[], a, b, b, lo, hi);
    ts := Followed(gr.code + gt.code + Operate(e.aop), Conversion(s, t), at, u2, ts3, map[], a, b, Exit(t, a), lo, hi);
    LandsAtEnd(GenNode(ar, e, t, at, ip), e, t, at, ip, ts, a, hi);
  }
}
