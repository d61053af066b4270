/** Code without jumps needs all the room its peak says: with less, it runs off an operand stack. */
module Overflows {
  import opened Values
  import opened Ast
  import opened CodeGen
  import opened Machine
  import opened Semantics
  import opened Runs
  import opened CodeShapes
  import opened ShapedExprs
  import opened InsideRuns

  // ----- how high code without jumps piles its operands -----

  function Higher(a: Height, b: Height): Height {
    Height(if a.i < b.i then b.i else a.i, if a.f < b.f then b.f else a.f, if a.s < b.s then b.s else a.s)
  }

  predicate NotAbove(a: Height, b: Height) {
    a.i <= b.i && a.f <= b.f && a.s <= b.s
  }

  /** Opcodes that go on to the next instruction. */
  predicate GoesOn(op: OpCode) {
    !IsJump(op) && !Returns(op) && !op.INVALID?
  }

  predicate Straight(c: Code) {
    c == [] || (c[0].Op? && GoesOn(c[0].op) && Width(c[0].op) <= |c| && Straight(c[Width(c[0].op)..]))
  }

  /** What the code leaves on the stacks. */
  function Total(c: Code): Height
    requires Straight(c)
  {
    if c == [] then FLAT else Rise(c[0].op).Plus(Total(c[Width(c[0].op)..]))
  }

  /** The most it has on each of them on the way. */
  function Crest(c: Code): (h: Height)
    requires Straight(c)
    ensures NotAbove(FLAT, h) && NotAbove(Total(c), h)
  {
    if c == [] then FLAT else Higher(FLAT, Rise(c[0].op).Plus(Crest(c[Width(c[0].op)..])))
  }

  lemma {:induction false} Behind(a: Code, b: Code)
    requires Straight(a) && Straight(b)
    ensures Straight(a + b) && Total(a + b) == Total(a).Plus(Total(b))
        && Crest(a + b) == Higher(Crest(a), Total(a).Plus(Crest(b)))
    decreases |a|
  {
    hide Width, Rise, GoesOn, Higher, NotAbove, Height.Plus;
    if a == [] {
      assert a + b == b;
      FromNothing(b);
    } else {
      var w := Width(a[0].op);
      Wide(a[0].op);
      assert (a + b)[w..] == a[w..] + b;
      Behind(a[w..], b);
      FirstThen(Rise(a[0].op), Total(a[w..]), Crest(a[w..]), Total(b), Crest(b));
    }
  }

  lemma FromNothing(b: Code)
    requires Straight(b)
    ensures Higher(FLAT, FLAT.Plus(Crest(b))) == Crest(b) && FLAT.Plus(Total(b)) == Total(b)
  {
  }

  lemma FirstThen(r: Height, ta: Height, ca: Height, tb: Height, cb: Height)
    ensures r.Plus(ta.Plus(tb)) == r.Plus(ta).Plus(tb)
    ensures Higher(FLAT, r.Plus(Higher(ca, ta.Plus(cb)))) == Higher(Higher(FLAT, r.Plus(ca)), r.Plus(ta).Plus(cb))
  {
  }

  lemma Wide(op: OpCode)
    ensures Width(op) >= 1
  {
  }

  /** Code that leaves `total` and has had `crest`. */
  predicate Measures(c: Code, total: Height, crest: Height) {
    Straight(c) && Total(c) == total && Crest(c) == crest
  }

  lemma BothMeasured(a: Code, b: Code, ta: Height, ca: Height, tb: Height, cb: Height)
    requires Measures(a, ta, ca) && Measures(b, tb, cb)
    ensures Measures(a + b, ta.Plus(tb), Higher(ca, ta.Plus(cb)))
  {
    hide Straight, Total, Crest, Higher, Height.Plus;
    Behind(a, b);
  }

  lemma Bounds(c: Code, total: Height, crest: Height)
    requires Measures(c, total, crest)
    ensures NotAbove(FLAT, crest) && NotAbove(total, crest)
  {
  }

  lemma OneMeasured(c: Code)
    requires c != [] && c[0].Op? && GoesOn(c[0].op) && |c| == Width(c[0].op)
    ensures Measures(c, Rise(c[0].op), Higher(FLAT, Rise(c[0].op)))
  {
    hide GoesOn, Width, Rise;
    assert c[|c|..] == [];
    assert Straight(c[|c|..]) && Total(c[|c|..]) == FLAT && Crest(c[|c|..]) == FLAT;
  }

  lemma NothingMeasured()
    ensures Measures([], FLAT, FLAT)
  {
  }

  lemma Nowhere(h: Height)
    ensures FLAT.Plus(h) == h && h.Plus(FLAT) == h && Higher(h, h) == h
  {
  }

  lemma Absorbed(crest: Height, h: Height)
    requires NotAbove(h, crest)
    ensures Higher(crest, h) == crest
  {
  }

  /** One more instruction of one word. */
  lemma OpBehind(c: Code, op: OpCode, a: Height, b: Height, crest: Height)
    requires Measures(c, a, crest) && Lifts(op, a, b)
    ensures Measures(c + [Op(op)], b, Higher(crest, b))
  {
    hide Measures, GoesOn, Width, Rise;
    OneMeasured([Op(op)]);
    BothMeasured(c, [Op(op)], a, crest, Rise(op), Higher(FLAT, Rise(op)));
    Bounds(c, a, crest);
    OnTop(a, crest, Rise(op));
    assert a.Plus(Rise(op)) == b;
  }

  lemma OnTop(total: Height, crest: Height, r: Height)
    requires NotAbove(total, crest)
    ensures Higher(crest, total.Plus(Higher(FLAT, r))) == Higher(crest, total.Plus(r))
  {
  }

  /** One more that ends no higher than the code before it has been. */
  lemma OpBelow(c: Code, op: OpCode, a: Height, b: Height, crest: Height)
    requires Measures(c, a, crest) && Lifts(op, a, b) && NotAbove(b, crest)
    ensures Measures(c + [Op(op)], b, crest)
  {
    hide Measures, Lifts, NotAbove, Higher;
    OpBehind(c, op, a, b, crest);
    Absorbed(crest, b);
  }

  // ----- the code of nodes without jumps -----

  /** No `?:`, `||` or `&&`. */
  predicate JumpFree(e: Expr)
    decreases e, 1
  {
    match e
    case IntLit(_) | FloatLit(_) | StrLit(_) | Constant(_) => true
    case Var(_, sub) => JumpFreeIndex(sub)
    case FloatBinary(_, l, r) => JumpFree(l) && JumpFree(r)
    case IntBinary(op, l, r) => !op.LogicalOr? && !op.LogicalAnd? && JumpFree(l) && JumpFree(r)
    case IntUnary(_, x) => JumpFree(x)
    case FloatUnary(x) => JumpFree(x)
    case Conditional(_, _, _) => false
    case StrEq(l, r, _) => JumpFree(l) && JumpFree(r)
    case StrCat(l, r, _) => JumpFree(l) && JumpFree(r)
    case CommaCat(l, r) => JumpFree(l) && JumpFree(r)
    case Assign(_, sub, rhs) => JumpFree(rhs) && JumpFreeIndex(sub)
    case AssignOp(_, sub, _, rhs) => JumpFree(rhs) && JumpFreeIndex(sub)
  }

  predicate JumpFreeIndex(sub: OptExpr)
    decreases sub, 0
  {
    sub.Present? ==> JumpFree(sub.e)
  }

  function AsHeight(r: Room): Height {
    Height(r.i, r.f, r.s)
  }

  /** The code of a jump-free node leaves its result and needs, on each stack, exactly its peak. */
  lemma {:induction false} ExprMeasured(ar: Arith, e: Expr, t: TypeReq, at: nat, ip: nat)
    requires Fits(e, t) && JumpFree(e)
    ensures Measures(GenExpr(ar, e, t, at, ip).code, ResultHeight(t), AsHeight(Peak(e, t)))
    decreases e, 3
  {
    hide GenNode, FitsNode, PeakNode, Measures, ResultHeight, AsHeight;
    match e
    case IntLit(_) | FloatLit(_) | StrLit(_) | Constant(_) => LiteralMeasured(ar, e, t, at, ip);
    case Var(_, _) => VarMeasured(ar, e, t, at, ip);
    case FloatBinary(_, _, _) => FloatBinaryMeasured(ar, e, t, at, ip);
    case IntBinary(_, _, _) => StrictMeasured(ar, e, t, at, ip);
    case IntUnary(_, _) => IntUnaryMeasured(ar, e, t, at, ip);
    case FloatUnary(_) => FloatUnaryMeasured(ar, e, t, at, ip);
    case Conditional(_, _, _) =>
    case StrEq(_, _, _) => StrEqMeasured(ar, e, t, at, ip);
    case StrCat(_, _, _) | CommaCat(_, _) => CatMeasured(ar, e, t, at, ip);
    case Assign(_, _, _) => AssignMeasured(ar, e, t, at, ip);
    case AssignOp(_, _, _, _) => AssignOpMeasured(ar, e, t, at, ip);
  }

  lemma PeakHeights(a: Room, b: Room)
    ensures AsHeight(a.Max(b)) == Higher(AsHeight(a), AsHeight(b))
        && AsHeight(a.Plus(b)) == AsHeight(a).Plus(AsHeight(b))
  {
  }

  lemma ResultHeights(t: TypeReq)
    ensures AsHeight(ResultRoom(t)) == ResultHeight(t) && AsHeight(INT_SLOT) == ResultHeight(ReqUInt)
        && AsHeight(STRING_SLOT) == ONE_STRING
    ensures ResultHeight(ReqNone) == ResultHeight(ReqString) == ResultHeight(ReqVar) == AsHeight(Room(0, 0, 0)) == FLAT
  {
  }

  lemma LiteralMeasured(ar: Arith, e: Expr, t: TypeReq, at: nat, ip: nat)
    requires (e.IntLit? || e.FloatLit? || e.StrLit? || e.Constant?) && FitsNode(e, t)
    ensures Measures(GenNode(ar, e, t, at, ip).code, ResultHeight(t), AsHeight(PeakNode(e, t)))
  {
    hide Measures, LiteralCode, AsHeight, ResultHeight, ResultRoom;
    ResultHeights(t);
    LiteralWordsMeasured(ar, e, t);
  }

  lemma LiteralWordsMeasured(ar: Arith, e: Expr, t: TypeReq)
    requires (e.IntLit? || e.FloatLit? || e.StrLit? || e.Constant?) && t != ReqVar
    ensures Measures(LiteralCode(ar, e, t), ResultHeight(t), ResultHeight(t))
  {
    hide Measures, LiteralCode, Width, Rise, Exit, After, Knows, GoesOn, ResultHeight, ResultRoom, Higher, LoadsAs;
    LiteralLoads(ar, e, t, Shape(FLAT, false));
    Results();
    if t == ReqNone {
      NothingMeasured();
    } else {
      var c := LiteralCode(ar, e, t);
      LoadRises(c[0].op, t);
      OneMeasured(c);
    }
  }

  // ----- what single instructions add -----

  /** Opcodes of one word that are neither jumps nor returns. */
  predicate Simple(op: OpCode) {
    GoesOn(op) && Width(op) == 1
  }

  lemma Results()
    ensures ResultHeight(ReqUInt) == Height(1, 0, 0) && ResultHeight(ReqFloat) == Height(0, 1, 0)
    ensures ResultHeight(ReqNone) == ResultHeight(ReqString) == ResultHeight(ReqVar) == FLAT
  {
  }

  /** The opcode takes the stacks from `a` to `b`. */
  predicate Lifts(op: OpCode, a: Height, b: Height) {
    Simple(op) && b.i == a.i + Rise(op).i && b.f == a.f + Rise(op).f && b.s == a.s + Rise(op).s
  }

  lemma KeepsLevel(op: OpCode)
    requires || op.LOADVAR_STR? || op.LOADVAR_VAR?
             || op.SAVEVAR_UINT? || op.SAVEVAR_FLT? || op.SAVEVAR_STR? || op.SAVEVAR_VAR?
             || op.SETCURVAR_ARRAY? || op.SETCURVAR_ARRAY_CREATE? || op.COPYVAR_TO_NONE? || op.STR_TO_NONE?
             || op.NOT? || op.ONESCOMPLEMENT? || op.NEG?
    ensures Simple(op) && Rise(op) == FLAT
  {
  }

  lemma SelectsByName(op: OpCode)
    requires op.SETCURVAR? || op.SETCURVAR_CREATE? || op.LOADIMMED_IDENT?
    ensures GoesOn(op) && Width(op) == 3 && Rise(op) == FLAT
  {
  }

  lemma AddsNumber(op: OpCode)
    requires op.LOADVAR_UINT? || op.STR_TO_UINT? || op.LOADVAR_FLT? || op.STR_TO_FLT?
    ensures Simple(op) && Rise(op) == if op.LOADVAR_UINT? || op.STR_TO_UINT? then Height(1, 0, 0) else Height(0, 1, 0)
  {
  }

  lemma TakesNumber(op: OpCode)
    requires op.UINT_TO_STR? || op.UINT_TO_NONE? || op.BIT? || op.FLT_TO_STR? || op.FLT_TO_NONE? || op.ARITH?
    ensures Simple(op)
    ensures Rise(op) ==
      if op.UINT_TO_STR? || op.UINT_TO_NONE? || op.BIT? then Height(-1, 0, 0) else Height(0, -1, 0)
  {
  }

  lemma MovesNumber(op: OpCode)
    requires op.UINT_TO_FLT? || op.FLT_TO_UINT? || op.NOTF? || op.CMP?
    ensures Simple(op)
    ensures Rise(op) ==
      if op.UINT_TO_FLT? then Height(-1, 1, 0) else if op.CMP? then Height(1, -2, 0) else Height(1, -1, 0)
  {
  }

  lemma MovesString(op: OpCode)
    requires op.ADVANCE_STR? || op.REWIND_STR? || op.TERMINATE_REWIND_STR? || op.COMPARE_STR?
    ensures Simple(op)
    ensures Rise(op) ==
      if op.ADVANCE_STR? then ONE_STRING else if op.COMPARE_STR? then Height(1, 0, -1) else Height(0, 0, -1)
  {
  }

  lemma LoadRises(op: OpCode, t: TypeReq)
    requires LoadsAs(op, t)
    ensures GoesOn(op) && Rise(op) == ResultHeight(t) == Higher(FLAT, Rise(op))
  {
  }

  /** Converting a result needs room for the new one, and nothing else. */
  lemma ConvertedMeasured(c: Code, src: TypeReq, t: TypeReq, crest: Height)
    requires Measures(c, ResultHeight(src), crest) && src in {ReqUInt, ReqFloat, ReqString} && t != ReqVar
    ensures Measures(c + Conversion(src, t), ResultHeight(t), Higher(crest, ResultHeight(t)))
  {
    hide Measures, Higher, ResultHeight, Height.Plus, NotAbove, Lifts;
    if src == t {
      assert c + [] == c;
      Bounds(c, ResultHeight(src), crest);
      Absorbed(crest, ResultHeight(t));
    } else {
      ConversionLifts(src, t);
      OpBehind(c, ConversionOp(src, t), ResultHeight(src), ResultHeight(t), crest);
    }
  }

  lemma ConversionLifts(src: TypeReq, t: TypeReq)
    requires src in {ReqUInt, ReqFloat, ReqString} && t != ReqVar && src != t
    ensures Lifts(ConversionOp(src, t), ResultHeight(src), ResultHeight(t))
  {
    hide Rise, Simple, ResultHeight;
    Results();
    var op := ConversionOp(src, t);
    if op.STR_TO_NONE? {
      KeepsLevel(op);
    } else if src == ReqString {
      AddsNumber(op);
    } else if t == ReqUInt || t == ReqFloat {
      MovesNumber(op);
    } else {
      TakesNumber(op);
    }
  }

  lemma LoadVarMeasured(c: Code, t: TypeReq, crest: Height)
    requires Measures(c, FLAT, crest) && t != ReqNone
    ensures Measures(c + LoadVar(t), ResultHeight(t), Higher(crest, ResultHeight(t)))
  {
    hide Measures, Higher, ResultHeight, NotAbove, Lifts;
    ResultHeights(t);
    if t == ReqVar {
      assert c + [] == c;
      Bounds(c, FLAT, crest);
      Absorbed(crest, FLAT);
    } else {
      LoadVarLifts(t);
      OpBehind(c, LoadVar(t)[0].op, FLAT, ResultHeight(t), crest);
    }
  }

  lemma LoadVarLifts(t: TypeReq)
    requires t != ReqNone && t != ReqVar
    ensures Lifts(LoadVar(t)[0].op, FLAT, ResultHeight(t))
  {
    hide Rise, Simple, ResultHeight;
    Results();
    var op := LoadVar(t)[0].op;
    if t == ReqString {
      KeepsLevel(op);
    } else {
      AddsNumber(op);
    }
  }

  lemma {:induction false} TargetMeasured(ar: Arith, name: CString, sub: OptExpr, create: bool, at: nat, ip: nat)
    requires FitsIndex(sub) && JumpFreeIndex(sub)
    ensures Measures(GenTarget(ar, name, sub, create, at, ip).code, FLAT, AsHeight(PeakIndex(sub)))
    decreases sub, 0
  {
    hide GenExpr, Fits, Peak, JumpFree, Measures, Higher, AsHeight, ResultHeight, NotAbove, Room.Plus;
    ResultHeights(ReqString);
    match sub
    case Absent =>
      NameRises(create);
      OneMeasured([Op(if create then SETCURVAR_CREATE else SETCURVAR)] + IdentWords(name));
    case Present(i) => IndexMeasured(ar, name, i, create, at, ip);
  }

  lemma NameRises(create: bool)
    ensures var op := if create then SETCURVAR_CREATE else SETCURVAR;
        GoesOn(op) && Rise(op) == FLAT == Higher(FLAT, FLAT)
    ensures GoesOn(LOADIMMED_IDENT) && Width(LOADIMMED_IDENT) == 3 && Rise(LOADIMMED_IDENT) == FLAT
  {
    hide Rise, GoesOn, Width;
    SelectsByName(if create then SETCURVAR_CREATE else SETCURVAR);
    SelectsByName(LOADIMMED_IDENT);
  }

  lemma AsideMeasured(name: CString)
    ensures Measures(NameAside(name), ONE_STRING, ONE_STRING)
  {
    hide Measures, GoesOn, Width, Rise, Simple, Lifts;
    var load := [Op(LOADIMMED_IDENT)] + IdentWords(name);
    NameRises(true);
    AdvanceLifts(FLAT, ONE_STRING);
    OneMeasured(load);
    OpBehind(load, ADVANCE_STR, FLAT, ONE_STRING, FLAT);
  }

  lemma JoinMeasured(c: Code, create: bool, crest: Height)
    requires Measures(c, ONE_STRING, crest)
    ensures Measures(c + JoinSelect(create), FLAT, crest)
  {
    hide Measures, ResultHeight, ResultRoom, Lifts;
    Results();
    var select := if create then SETCURVAR_ARRAY_CREATE else SETCURVAR_ARRAY;
    RewindLifts(REWIND_STR, ONE_STRING, FLAT);
    StaysLevel(select, FLAT);
    Bounds(c, ONE_STRING, crest);
    OpBelow(c, REWIND_STR, ONE_STRING, FLAT, crest);
    OpBelow(c + [Op(REWIND_STR)], select, FLAT, FLAT, crest);
    assert c + JoinSelect(create) == c + [Op(REWIND_STR)] + [Op(select)];
  }

  lemma {:induction false} IndexMeasured(ar: Arith, name: CString, i: Expr, create: bool, at: nat, ip: nat)
    requires Fits(i, ReqString) && JumpFree(i)
    ensures Measures(GenTarget(ar, name, Present(i), create, at, ip).code, FLAT,
        AsHeight(STRING_SLOT.Plus(Peak(i, ReqString))))
    decreases i, 4
  {
    hide GenExpr, Fits, Peak, JumpFree, Measures, Higher, AsHeight, ResultHeight, NotAbove, Height.Plus, Room.Plus;
    var g, x := GenExpr(ar, i, ReqString, at + 4, ip).code, AsHeight(Peak(i, ReqString));
    IndexCode(ar, name, Present(i), create, at, ip);
    ExprMeasured(ar, i, ReqString, at + 4, ip);
    AsideMeasured(name);
    ResultHeights(ReqString);
    PeakHeights(STRING_SLOT, Peak(i, ReqString));
    BothMeasured(NameAside(name), g, ONE_STRING, ONE_STRING, FLAT, x);
    Bounds(g, FLAT, x);
    Deepest(ONE_STRING, x);
    Nowhere(ONE_STRING);
    JoinMeasured(NameAside(name) + g, create, ONE_STRING.Plus(x));
    assert NameAside(name) + g + JoinSelect(create) == GenTarget(ar, name, Present(i), create, at, ip).code;
  }

  lemma Deepest(base: Height, x: Height)
    requires NotAbove(FLAT, x)
    ensures Higher(base, base.Plus(x)) == base.Plus(x)
    ensures forall r: Height :: Higher(Higher(r, base), base.Plus(x)) == Higher(r, base.Plus(x))
  {
  }

  lemma {:induction false} VarMeasured(ar: Arith, e: Expr, t: TypeReq, at: nat, ip: nat)
    requires e.Var? && FitsNode(e, t) && JumpFree(e)
    ensures Measures(GenNode(ar, e, t, at, ip).code, ResultHeight(t), AsHeight(PeakNode(e, t)))
    decreases e, 1
  {
    hide GenExpr, Fits, Peak, GenTarget, PeakIndex, Measures, Higher, AsHeight, ResultHeight, ResultRoom, Room.Max;
    ResultHeights(t);
    if t == ReqNone {
      NothingMeasured();
    } else {
      TargetMeasured(ar, e.name, e.sub, false, at, ip);
      LoadVarMeasured(GenTarget(ar, e.name, e.sub, false, at, ip).code, t, AsHeight(PeakIndex(e.sub)));
      PeakHeights(PeakIndex(e.sub), ResultRoom(t));
    }
  }

  /** What a numeric operator's operands need. */
  function OperandsCrest(e: Expr, t: TypeReq): Height
    requires e.FloatBinary? || e.IntBinary?
  {
    AsHeight(Peak(e.right, t).Max(ResultRoom(t).Plus(Peak(e.left, t))))
  }

  lemma {:induction false} OperandsMeasured(ar: Arith, e: Expr, t: TypeReq, at: nat, ip: nat)
    requires e.FloatBinary? || e.IntBinary?
    requires Fits(e.left, t) && Fits(e.right, t) && JumpFree(e.left) && JumpFree(e.right)
    ensures Measures(GenOperands(ar, e, t, at, ip).code, Twice(ResultHeight(t)), OperandsCrest(e, t))
    decreases e, 0
  {
    hide GenExpr, Fits, Peak, JumpFree, Measures, ResultHeight, AsHeight, Higher, Height.Plus, Room.Max, Room.Plus,
         ResultRoom;
    var gr := GenExpr(ar, e.right, t, at, ip);
    var gl := GenExpr(ar, e.left, t, at + |gr.code|, gr.ip);
    ExprMeasured(ar, e.right, t, at, ip);
    ExprMeasured(ar, e.left, t, at + |gr.code|, gr.ip);
    BothMeasured(gr.code, gl.code, ResultHeight(t), AsHeight(Peak(e.right, t)), ResultHeight(t),
        AsHeight(Peak(e.left, t)));
    ResultHeights(t);
    PeakHeights(ResultRoom(t), Peak(e.left, t));
    PeakHeights(Peak(e.right, t), ResultRoom(t).Plus(Peak(e.left, t)));
  }

  function Twice(h: Height): Height {
    h.Plus(h)
  }

  lemma ArithLifts(op: FloatOp, h: Height)
    requires h == ResultHeight(ReqFloat)
    ensures Lifts(ARITH(op), Twice(h), h) && NotAbove(h, Twice(h))
  {
    hide Rise, Simple, ResultHeight;
    Results();
    TakesNumber(ARITH(op));
  }

  lemma {:induction false} FloatBinaryMeasured(ar: Arith, e: Expr, t: TypeReq, at: nat, ip: nat)
    requires e.FloatBinary? && FitsNode(e, t) && JumpFree(e)
    ensures Measures(GenNode(ar, e, t, at, ip).code, ResultHeight(t), AsHeight(PeakNode(e, t)))
    decreases e, 1
  {
    hide GenExpr, GenOperands, Fits, Peak, Measures, Conversion, ResultHeight, AsHeight, Higher, Height.Plus, Room.Max,
         Room.Plus, ResultRoom, Lifts, Twice;
    var c, h, crest := GenOperands(ar, e, ReqFloat, at, ip).code, ResultHeight(ReqFloat), OperandsCrest(e, ReqFloat);
    OperandsMeasured(ar, e, ReqFloat, at, ip);
    ArithLifts(e.fop, h);
    Bounds(c, Twice(h), crest);
    Lower(h, Twice(h), crest);
    OpBelow(c, ARITH(e.fop), Twice(h), h, crest);
    ConvertedMeasured(c + [Op(ARITH(e.fop))], ReqFloat, t, crest);
    ResultHeights(t);
    PeakHeights(Peak(e.right, ReqFloat).Max(ResultRoom(ReqFloat).Plus(Peak(e.left, ReqFloat))), ResultRoom(t));
  }

  lemma StrictLifts(op: IntOp)
    requires op.Bits? || op.Compare?
    ensures Lifts(StrictOpCode(op), Twice(ResultHeight(OperandType(op))), ResultHeight(ReqUInt))
  {
    hide Rise, Simple, ResultHeight;
    Results();
    if op.Bits? {
      TakesNumber(StrictOpCode(op));
    } else {
      MovesNumber(StrictOpCode(op));
    }
  }

  lemma {:induction false} StrictMeasured(ar: Arith, e: Expr, t: TypeReq, at: nat, ip: nat)
    requires e.IntBinary? && FitsNode(e, t) && JumpFree(e)
    ensures Measures(GenNode(ar, e, t, at, ip).code, ResultHeight(t), AsHeight(PeakNode(e, t)))
    decreases e, 1
  {
    hide GenExpr, GenOperands, Fits, Peak, Measures, Conversion, ResultHeight, AsHeight, Higher, Height.Plus, Room.Max,
         Room.Plus, ResultRoom, StrictOpCode, OperandType, Lifts, Twice;
    var u := OperandType(e.iop);
    var c, h, o := GenOperands(ar, e, u, at, ip).code, ResultHeight(u), StrictOpCode(e.iop);
    var pair := Peak(e.right, u).Max(ResultRoom(u).Plus(Peak(e.left, u)));
    OperandsMeasured(ar, e, u, at, ip);
    StrictLifts(e.iop);
    OpBehind(c, o, Twice(h), ResultHeight(ReqUInt), AsHeight(pair));
    ResultHeights(t);
    PeakHeights(pair, INT_SLOT);
    ConvertedMeasured(c + [Op(o)], ReqUInt, t, AsHeight(pair.Max(INT_SLOT)));
    PeakHeights(pair.Max(INT_SLOT), ResultRoom(t));
  }

  lemma UnaryLifts(op: UnaryOp, e: Expr)
    ensures Lifts(UnaryOpCode(op, e), ResultHeight(UnaryType(op, e)), ResultHeight(ReqUInt))
  {
    hide Rise, Simple, ResultHeight, Preferred;
    Results();
    if NegatesFloat(op, e) {
      MovesNumber(NOTF);
    } else {
      KeepsLevel(UnaryOpCode(op, e));
    }
  }

  lemma UnaryLayout(ar: Arith, e: Expr, t: TypeReq, at: nat, ip: nat)
    requires e.IntUnary? && FitsNode(e, t)
    ensures var u := UnaryType(e.uop, e.operand);
      GenNode(ar, e, t, at, ip).code
          == GenExpr(ar, e.operand, u, at, ip).code + [Op(UnaryOpCode(e.uop, e.operand))] + Conversion(ReqUInt, t)
  {
    hide GenExpr, Fits, Preferred;
  }

  lemma {:induction false} IntUnaryMeasured(ar: Arith, e: Expr, t: TypeReq, at: nat, ip: nat)
    requires e.IntUnary? && FitsNode(e, t) && JumpFree(e)
    ensures Measures(GenNode(ar, e, t, at, ip).code, ResultHeight(t), AsHeight(PeakNode(e, t)))
    decreases e, 1
  {
    hide GenExpr, GenNode, Fits, Peak, Measures, Conversion, ResultHeight, AsHeight, Higher, Height.Plus, Room.Max,
         Room.Plus, ResultRoom, UnaryType, UnaryOpCode, Lifts;
    UnaryLayout(ar, e, t, at, ip);
    var u, o := UnaryType(e.uop, e.operand), UnaryOpCode(e.uop, e.operand);
    var c, x := GenExpr(ar, e.operand, u, at, ip).code, Peak(e.operand, u);
    ExprMeasured(ar, e.operand, u, at, ip);
    UnaryLifts(e.uop, e.operand);
    OpBehind(c, o, ResultHeight(u), ResultHeight(ReqUInt), AsHeight(x));
    ResultHeights(t);
    PeakHeights(x, INT_SLOT);
    ConvertedMeasured(c + [Op(o)], ReqUInt, t, AsHeight(x.Max(INT_SLOT)));
    PeakHeights(x.Max(INT_SLOT), ResultRoom(t));
  }

  lemma {:induction false} FloatUnaryMeasured(ar: Arith, e: Expr, t: TypeReq, at: nat, ip: nat)
    requires e.FloatUnary? && FitsNode(e, t) && JumpFree(e)
    ensures Measures(GenNode(ar, e, t, at, ip).code, ResultHeight(t), AsHeight(PeakNode(e, t)))
    decreases e, 1
  {
    hide GenExpr, Fits, Peak, Measures, Conversion, ResultHeight, AsHeight, Higher, Height.Plus, Room.Max, ResultRoom,
         Lifts;
    var c, h, x := GenExpr(ar, e.operand, ReqFloat, at, ip).code, ResultHeight(ReqFloat), Peak(e.operand, ReqFloat);
    ExprMeasured(ar, e.operand, ReqFloat, at, ip);
    StaysLevel(NEG, h);
    Bounds(c, h, AsHeight(x));
    OpBelow(c, NEG, h, h, AsHeight(x));
    ConvertedMeasured(c + [Op(NEG)], ReqFloat, t, AsHeight(x));
    ResultHeights(t);
    PeakHeights(x, ResultRoom(t));
  }

  lemma BetweenMeasured(e: Expr)
    requires IsStringPair(e)
    ensures Measures(Between(e), ONE_STRING, ONE_STRING)
  {
    hide Measures;
    OneMeasured(Between(e));
  }

  function StringsPeak(e: Expr): Room
    requires IsStringPair(e)
  {
    Peak(e.left, ReqString).Max(STRING_SLOT.Plus(Peak(e.right, ReqString)))
  }

  lemma {:induction false} StringsMeasured(ar: Arith, e: Expr, at: nat, ip: nat)
    requires IsStringPair(e) && Fits(e.left, ReqString) && Fits(e.right, ReqString) && JumpFree(e.left)
        && JumpFree(e.right)
    ensures Measures(GenStrings(ar, e, at, ip).code, ONE_STRING, AsHeight(StringsPeak(e)))
    decreases e, 0
  {
    hide GenExpr, Fits, Peak, JumpFree, Measures, Between, ResultHeight, AsHeight, Higher, NotAbove, Height.Plus,
         Room.Max, Room.Plus;
    var between := Between(e);
    var gl := GenExpr(ar, e.left, ReqString, at, ip);
    var gr := GenExpr(ar, e.right, ReqString, at + |gl.code| + |between|, gl.ip);
    var l, r := AsHeight(Peak(e.left, ReqString)), AsHeight(Peak(e.right, ReqString));
    ExprMeasured(ar, e.left, ReqString, at, ip);
    BetweenMeasured(e);
    ExprMeasured(ar, e.right, ReqString, at + |gl.code| + |between|, gl.ip);
    ResultHeights(ReqString);
    Nowhere(ONE_STRING);
    BothMeasured(gl.code, between, FLAT, l, ONE_STRING, ONE_STRING);
    BothMeasured(gl.code + between, gr.code, ONE_STRING, Higher(l, ONE_STRING), FLAT, r);
    Bounds(gr.code, FLAT, r);
    Deepest(ONE_STRING, r);
    assert Higher(Higher(l, ONE_STRING), ONE_STRING.Plus(r)) == Higher(l, ONE_STRING.Plus(r));
    PeakHeights(STRING_SLOT, Peak(e.right, ReqString));
    PeakHeights(Peak(e.left, ReqString), STRING_SLOT.Plus(Peak(e.right, ReqString)));
  }

  lemma {:induction false} StrEqMeasured(ar: Arith, e: Expr, t: TypeReq, at: nat, ip: nat)
    requires e.StrEq? && FitsNode(e, t) && JumpFree(e)
    ensures Measures(GenNode(ar, e, t, at, ip).code, ResultHeight(t), AsHeight(PeakNode(e, t)))
    decreases e, 1
  {
    hide GenExpr, GenStrings, Fits, Peak, Measures, Conversion, ResultHeight, AsHeight, Higher, NotAbove, Height.Plus,
         Room.Max, Room.Plus, ResultRoom, Lifts;
    var c, h, pair := GenStrings(ar, e, at, ip).code, ResultHeight(ReqUInt), StringsPeak(e);
    var not: Code := if e.eq then [] else [Op(NOT)];
    StringsMeasured(ar, e, at, ip);
    CompareLifts(ONE_STRING, h);
    StaysLevel(NOT, h);
    OpBehind(c, COMPARE_STR, ONE_STRING, h, AsHeight(pair));
    ResultHeights(t);
    PeakHeights(pair, INT_SLOT);
    var c1, crest := c + [Op(COMPARE_STR)], AsHeight(pair.Max(INT_SLOT));
    Bounds(c1, h, crest);
    OpBelow(c1, NOT, h, h, crest);
    assert c1 + [] == c1;
    ConvertedMeasured(c1 + not, ReqUInt, t, crest);
    PeakHeights(pair.Max(INT_SLOT), ResultRoom(t));
  }

  lemma StrConversionMeasured(c: Code, t: TypeReq, crest: Height)
    requires Measures(c, FLAT, crest) && t != ReqVar
    ensures Measures(c + StrConversion(t), ResultHeight(t), Higher(crest, ResultHeight(t)))
  {
    hide Measures, Higher, ResultHeight, NotAbove, Lifts;
    ResultHeights(t);
    if t == ReqUInt || t == ReqFloat {
      StrLifts(t);
      OpBehind(c, StrConversion(t)[0].op, FLAT, ResultHeight(t), crest);
    } else {
      assert c + [] == c;
      Bounds(c, FLAT, crest);
      Absorbed(crest, FLAT);
    }
  }

  lemma StrLifts(t: TypeReq)
    requires t in {ReqUInt, ReqFloat}
    ensures Lifts(StrConversion(t)[0].op, FLAT, ResultHeight(t))
  {
    hide Rise, Simple, ResultHeight;
    Results();
    AddsNumber(StrConversion(t)[0].op);
  }

  lemma {:induction false} CatMeasured(ar: Arith, e: Expr, t: TypeReq, at: nat, ip: nat)
    requires (e.StrCat? || e.CommaCat?) && FitsNode(e, t) && JumpFree(e)
    ensures Measures(GenNode(ar, e, t, at, ip).code, ResultHeight(t), AsHeight(PeakNode(e, t)))
    decreases e, 1
  {
    hide GenExpr, GenStrings, Fits, Peak, Measures, StrConversion, ResultHeight, AsHeight, Higher, NotAbove,
         Height.Plus, Room.Max, Room.Plus, ResultRoom, Lifts;
    var c, pair := GenStrings(ar, e, at, ip).code, StringsPeak(e);
    StringsMeasured(ar, e, at, ip);
    RewindLifts(REWIND_STR, ONE_STRING, FLAT);
    Bounds(c, ONE_STRING, AsHeight(pair));
    OpBelow(c, REWIND_STR, ONE_STRING, FLAT, AsHeight(pair));
    StrConversionMeasured(c + [Op(REWIND_STR)], t, AsHeight(pair));
    ResultHeights(t);
    PeakHeights(pair, ResultRoom(t));
  }

  // ----- assignments -----

  /** The right-hand side, held while the variable is selected. */
  lemma {:induction false} HeldMeasured(ar: Arith, e: Expr, s: TypeReq, at: nat, ip: nat)
    requires e.Assign? && s != ReqNone && Fits(e.rhs, s) && FitsIndex(e.sub) && JumpFree(e.rhs) && JumpFreeIndex(e.sub)
    ensures var gr := GenExpr(ar, e.rhs, s, at, ip);
      var c := gr.code + Keep(s, e.sub)
          + GenTarget(ar, e.name, e.sub, true, at + |gr.code| + |Keep(s, e.sub)|, gr.ip).code;
      Measures(c, HeldHeight(s, e.sub),
          Higher(AsHeight(Peak(e.rhs, s)), HeldHeight(s, e.sub).Plus(AsHeight(PeakIndex(e.sub)))))
    decreases e, 0
  {
    hide GenExpr, GenTarget, Fits, Peak, PeakIndex, FitsIndex, JumpFree, JumpFreeIndex, Measures, Keep, HeldHeight,
         ResultHeight, AsHeight, Higher, NotAbove, Height.Plus;
    var gr, keep, held := GenExpr(ar, e.rhs, s, at, ip), Keep(s, e.sub), HeldHeight(s, e.sub);
    var target := GenTarget(ar, e.name, e.sub, true, at + |gr.code| + |keep|, gr.ip).code;
    var r, x := AsHeight(Peak(e.rhs, s)), AsHeight(PeakIndex(e.sub));
    ExprMeasured(ar, e.rhs, s, at, ip);
    KeepMeasured(gr.code, s, e.sub, r);
    TargetMeasured(ar, e.name, e.sub, true, at + |gr.code| + |keep|, gr.ip);
    BothMeasured(gr.code + keep, target, held, Higher(r, held), FLAT, x);
    Nowhere(held);
    Bounds(target, FLAT, x);
    Deepest(held, x);
    assert Higher(Higher(r, held), held.Plus(x)) == Higher(r, held.Plus(x));
  }

  lemma KeepMeasured(c: Code, s: TypeReq, sub: OptExpr, crest: Height)
    requires Measures(c, ResultHeight(s), crest) && s != ReqNone
    ensures Measures(c + Keep(s, sub), HeldHeight(s, sub), Higher(crest, HeldHeight(s, sub)))
  {
    hide Measures, Higher, ResultHeight, NotAbove, ResultRoom, Lifts;
    Results();
    ResultHeights(s);
    if s == ReqVar {
      StaysLevel(LOADVAR_VAR, FLAT);
      OpBehind(c, LOADVAR_VAR, FLAT, FLAT, crest);
    } else if s == ReqString && sub.Present? {
      AdvanceLifts(FLAT, ONE_STRING);
      OpBehind(c, ADVANCE_STR, FLAT, ONE_STRING, crest);
    } else {
      assert c + [] == c;
      Bounds(c, ResultHeight(s), crest);
      Absorbed(crest, ResultHeight(s));
    }
  }

  /** The value, its string taken back, is stored and converted. */
  lemma StoredMeasured(c: Code, s: TypeReq, t: TypeReq, sub: OptExpr, crest: Height)
    requires Measures(c, HeldHeight(s, sub), crest) && s != ReqNone && (s == ReqVar ==> t in {ReqNone, ReqVar})
    requires NotAbove(FLAT, crest) && NotAbove(ResultHeight(s), crest)
    ensures var t' := if t == ReqVar && s != ReqVar then ReqNone else t;
      Measures(c + Back(s, sub) + [Op(SaveOp(s))] + Conversion(s, t'), ResultHeight(t), Higher(crest, ResultHeight(t)))
  {
    hide Measures, Higher, ResultHeight, Conversion, ResultRoom, Lifts;
    Results();
    ResultHeights(s);
    StaysLevel(SaveOp(s), ResultHeight(s));
    var c1, t' := c + Back(s, sub), if t == ReqVar && s != ReqVar then ReqNone else t;
    if s == ReqString && sub.Present? {
      RewindLifts(TERMINATE_REWIND_STR, ONE_STRING, FLAT);
      OpBelow(c, TERMINATE_REWIND_STR, ONE_STRING, FLAT, crest);
    } else {
      assert c + [] == c;
    }
    OpBelow(c1, SaveOp(s), ResultHeight(s), ResultHeight(s), crest);
    if s == ReqVar {
      CopyMeasured(c1 + [Op(SaveOp(s))], t, crest);
    } else {
      ConvertedMeasured(c1 + [Op(SaveOp(s))], s, t', crest);
    }
  }

  lemma CopyMeasured(c: Code, t: TypeReq, crest: Height)
    requires Measures(c, FLAT, crest) && t in {ReqNone, ReqVar}
    ensures Measures(c + Conversion(ReqVar, t), ResultHeight(t), Higher(crest, ResultHeight(t)))
  {
    hide Measures, Higher, ResultHeight, NotAbove, ResultRoom, Lifts;
    Results();
    ResultHeights(t);
    if t == ReqNone {
      StaysLevel(COPYVAR_TO_NONE, FLAT);
      OpBehind(c, COPYVAR_TO_NONE, FLAT, FLAT, crest);
    } else {
      assert c + [] == c;
      Bounds(c, FLAT, crest);
      Absorbed(crest, FLAT);
    }
  }

  lemma StaysLevel(op: OpCode, h: Height)
    requires || op.LOADVAR_VAR? || op.SAVEVAR_UINT? || op.SAVEVAR_FLT? || op.SAVEVAR_STR? || op.SAVEVAR_VAR?
             || op.SETCURVAR_ARRAY? || op.SETCURVAR_ARRAY_CREATE? || op.COPYVAR_TO_NONE? || op.NOT? || op.NEG?
    ensures Lifts(op, h, h)
  {
    hide Rise, Simple;
    KeepsLevel(op);
  }

  lemma RewindLifts(op: OpCode, a: Height, b: Height)
    requires a == ONE_STRING && b == FLAT && (op.REWIND_STR? || op.TERMINATE_REWIND_STR?)
    ensures Lifts(op, a, b)
  {
    hide Rise, Simple;
    MovesString(op);
  }

  lemma CompareLifts(a: Height, b: Height)
    requires a == ONE_STRING && b == ResultHeight(ReqUInt)
    ensures Lifts(COMPARE_STR, a, b)
  {
    hide Rise, Simple, ResultHeight;
    Results();
    MovesString(COMPARE_STR);
  }

  lemma AdvanceLifts(a: Height, b: Height)
    requires a == FLAT && b == ONE_STRING
    ensures Lifts(ADVANCE_STR, a, b)
  {
    hide Rise, Simple;
    MovesString(ADVANCE_STR);
  }

  lemma {:induction false} AssignMeasured(ar: Arith, e: Expr, t: TypeReq, at: nat, ip: nat)
    requires e.Assign? && FitsNode(e, t) && JumpFree(e)
    ensures Measures(GenNode(ar, e, t, at, ip).code, ResultHeight(t), AsHeight(PeakNode(e, t)))
    decreases e, 1
  {
    hide GenExpr, GenNode, GenTarget, Fits, Peak, PeakIndex, PeakNode, Measures, Conversion, AssignType, Keep, Back,
         SaveOp, HeldHeight, ResultHeight, AsHeight, Higher, NotAbove, Height.Plus, ResultRoom;
    AssignPlan(ar, e, t, at, ip);
    TypeOfAssign(e.rhs, t);
    AssignPeakIs(e, t);
    var s := AssignType(e.rhs, t);
    var g := GenExpr(ar, e.rhs, s, at, ip);
    var c := g.code + Keep(s, e.sub) + GenTarget(ar, e.name, e.sub, true, at + |g.code| + |Keep(s, e.sub)|, g.ip).code;
    var r, held, x := AsHeight(Peak(e.rhs, s)), HeldHeight(s, e.sub), AsHeight(PeakIndex(e.sub));
    ExprMeasured(ar, e.rhs, s, at, ip);
    Bounds(g.code, ResultHeight(s), r);
    HeldMeasured(ar, e, s, at, ip);
    StillAbove(r, held.Plus(x));
    Lower(ResultHeight(s), r, Higher(r, held.Plus(x)));
    Lower(FLAT, r, Higher(r, held.Plus(x)));
    StoredMeasured(c, s, t, e.sub, Higher(r, held.Plus(x)));
  }

  lemma StillAbove(r: Height, h: Height)
    ensures NotAbove(r, Higher(r, h))
  {
  }

  lemma Lower(a: Height, b: Height, c: Height)
    requires NotAbove(a, b) && NotAbove(b, c)
    ensures NotAbove(a, c)
  {
  }

  lemma AssignPeakIs(e: Expr, t: TypeReq)
    requires e.Assign?
    ensures var s := AssignType(e.rhs, t);
      AsHeight(PeakNode(e, t)) ==
      Higher(Higher(AsHeight(Peak(e.rhs, s)), HeldHeight(s, e.sub).Plus(AsHeight(PeakIndex(e.sub)))), ResultHeight(t))
  {
    hide Peak, PeakIndex, AssignType, AsHeight, Higher, Height.Plus, Room.Max, Room.Plus, ResultRoom, ResultHeight;
    var s := AssignType(e.rhs, t);
    var held := if s == ReqString && e.sub.Present? then STRING_SLOT else ResultRoom(s);
    ResultHeights(s);
    ResultHeights(t);
    PeakHeights(held, PeakIndex(e.sub));
    PeakHeights(Peak(e.rhs, s), held.Plus(PeakIndex(e.sub)));
    PeakHeights(Peak(e.rhs, s).Max(held.Plus(PeakIndex(e.sub))), ResultRoom(t));
  }

  lemma OperateLifts(op: AssignOperator)
    ensures var s := AssignOpType(op);
      var h := ResultHeight(s);
      && s in {ReqUInt, ReqFloat} && Lifts(ConversionOp(ReqVar, s), h, Twice(h)) && Lifts(AssignOpCode(op), Twice(h), h)
      && SaveOp(s) == ConversionOp(s, ReqVar)
  {
    hide Rise, Simple, ResultHeight;
    Results();
    AddsNumber(ConversionOp(ReqVar, AssignOpType(op)));
    TakesNumber(AssignOpCode(op));
  }

  lemma OperateMeasured(c: Code, op: AssignOperator, crest: Height)
    requires Measures(c, ResultHeight(AssignOpType(op)), crest)
    ensures var h := ResultHeight(AssignOpType(op)); Measures(c + Operate(op), h, Higher(crest, Twice(h)))
  {
    hide Measures, Higher, ResultHeight, NotAbove, ConversionOp, AssignOpCode, AssignOpType, Height.Plus, GoesOn,
         Width, Lifts, Twice;
    OperateLifts(op);
    var s := AssignOpType(op);
    var h := ResultHeight(s);
    StaysLevel(SaveOp(s), h);
    Bounds(c, h, crest);
    StillAbove(crest, Twice(h));
    Lower(h, crest, Higher(crest, Twice(h)));
    OpBehind(c, ConversionOp(ReqVar, s), h, Twice(h), crest);
    var c1 := c + [Op(ConversionOp(ReqVar, s))];
    OpBelow(c1, AssignOpCode(op), Twice(h), h, Higher(crest, Twice(h)));
    var c2 := c1 + [Op(AssignOpCode(op))];
    OpBelow(c2, SaveOp(s), h, h, Higher(crest, Twice(h)));
    assert c + Operate(op) == c2 + [Op(SaveOp(s))];
  }

  lemma {:induction false} AssignOpMeasured(ar: Arith, e: Expr, t: TypeReq, at: nat, ip: nat)
    requires e.AssignOp? && FitsNode(e, t) && JumpFree(e)
    ensures Measures(GenNode(ar, e, t, at, ip).code, ResultHeight(t), AsHeight(PeakNode(e, t)))
    decreases e, 1
  {
    hide GenExpr, GenTarget, Fits, Peak, PeakIndex, Measures, Conversion, Operate, AssignOpType, ResultHeight,
         AsHeight, Higher, NotAbove, Height.Plus, Room.Max, Room.Plus, ResultRoom, Lifts;
    OperateLifts(e.aop);
    var s := AssignOpType(e.aop);
    var g := GenExpr(ar, e.rhs, s, at, ip);
    var target := GenTarget(ar, e.name, e.sub, true, at + |g.code|, g.ip).code;
    var r, x, h := Peak(e.rhs, s), PeakIndex(e.sub), ResultRoom(s);
    ExprMeasured(ar, e.rhs, s, at, ip);
    TargetMeasured(ar, e.name, e.sub, true, at + |g.code|, g.ip);
    ResultHeights(s);
    ResultHeights(t);
    BothMeasured(g.code, target, ResultHeight(s), AsHeight(r), FLAT, AsHeight(x));
    Nowhere(ResultHeight(s));
    PeakHeights(h, x);
    PeakHeights(r, h.Plus(x));
    OperateMeasured(g.code + target, e.aop, AsHeight(r.Max(h.Plus(x))));
    PeakHeights(h, h);
    PeakHeights(r.Max(h.Plus(x)), h.Plus(h));
    ConvertedMeasured(g.code + target + Operate(e.aop), s, t, AsHeight(r.Max(h.Plus(x)).Max(h.Plus(h))));
    PeakHeights(r.Max(h.Plus(x)).Max(h.Plus(h)), ResultRoom(t));
  }

  // ----- it runs through exactly if that fits -----

  predicate Fitting(h: Height) {
    h.i <= OPERAND_LIMIT && h.f <= OPERAND_LIMIT && h.s <= STRING_LIMIT
  }

  lemma NotReturned(ar: Arith, op: OpCode, w: Word, s: State)
    requires GoesOn(op)
    ensures !Execute(ar, op, w, s).Returned?
  {
  }

  /** No opcode takes a stack beyond its end. */
  lemma StaysFitting(ar: Arith, op: OpCode, w: Word, s: State, s': State)
    requires Fitting(HeightOf(s)) && GoesOn(op) && Execute(ar, op, w, s) == Running(s')
    ensures Fitting(HeightOf(s'))
  {
    hide Execute, Fitting;
    if OnVariables(op) {
      VariablesFit(ar, op, w, s, s');
    } else if LoadsHead(op) {
      HeadsFit(ar, op, w, s, s');
    } else if FromHead(op) {
      FromHeadsFit(ar, op, w, s, s');
    } else if SetsAside(op) {
      AsidesFit(ar, op, w, s, s');
    } else if TakesBack(op) {
      RewindsFit(ar, op, w, s, s');
    } else {
      NumbersFit(ar, op, w, s, s');
    }
  }

  lemma VariablesFit(ar: Arith, op: OpCode, w: Word, s: State, s': State)
    requires Fitting(HeightOf(s)) && OnVariables(op) && Execute(ar, op, w, s) == Running(s')
    ensures Fitting(HeightOf(s'))
  {
    hide Execute, Rise, Simple, GoesOn, IsJump, Width, NulFree;
    VariableMoves(ar, op, w, s, s');
    NoJump(op);
    if op.LOADVAR_UINT? || op.LOADVAR_FLT? {
      LoadHasRoom(ar, op, w, s);
      AddsNumber(op);
    } else if op.SETCURVAR? || op.SETCURVAR_CREATE? {
      SelectsByName(op);
    } else {
      KeepsLevel(op);
    }
  }

  lemma NoJump(op: OpCode)
    requires OnVariables(op)
    ensures !IsJump(op)
  {
  }

  lemma LoadHasRoom(ar: Arith, op: OpCode, w: Word, s: State)
    requires (op.LOADVAR_UINT? || op.LOADVAR_FLT?) && Execute(ar, op, w, s).Running?
    ensures if op.LOADVAR_UINT? then |s.ints| < OPERAND_LIMIT else |s.flts| < OPERAND_LIMIT
  {
    hide NulFree, ReadInt, ReadFloat;
  }

  lemma HeadsFit(ar: Arith, op: OpCode, w: Word, s: State, s': State)
    requires Fitting(HeightOf(s)) && LoadsHead(op) && Execute(ar, op, w, s) == Running(s')
    ensures Fitting(HeightOf(s'))
  {
    hide NulFree, CopiedValue, Joined, Created, Existing, ReadInt, ReadFloat, ReadString, UnsignedValue, NumberValue;
  }

  lemma FromHeadsFit(ar: Arith, op: OpCode, w: Word, s: State, s': State)
    requires Fitting(HeightOf(s)) && FromHead(op) && Execute(ar, op, w, s) == Running(s')
    ensures Fitting(HeightOf(s'))
  {
    hide NulFree, CopiedValue, Joined, Created, Existing, ReadInt, ReadFloat, ReadString, UnsignedValue, NumberValue;
  }

  lemma AsidesFit(ar: Arith, op: OpCode, w: Word, s: State, s': State)
    requires Fitting(HeightOf(s)) && SetsAside(op) && Execute(ar, op, w, s) == Running(s')
    ensures Fitting(HeightOf(s'))
  {
    hide Execute, Rise, SetsAside, IsJump, Width, NulFree;
    AdvanceMoves(ar, op, w, s, s');
    AsideHasRoom(ar, op, w, s);
    AsideRises(op);
  }

  lemma AsideHasRoom(ar: Arith, op: OpCode, w: Word, s: State)
    requires SetsAside(op) && Execute(ar, op, w, s).Running?
    ensures |s.strs| < STRING_LIMIT
  {
    hide NulFree;
  }

  lemma AsideRises(op: OpCode)
    requires SetsAside(op)
    ensures Rise(op) == ONE_STRING && !IsJump(op)
  {
  }

  lemma RewindsFit(ar: Arith, op: OpCode, w: Word, s: State, s': State)
    requires Fitting(HeightOf(s)) && TakesBack(op) && Execute(ar, op, w, s) == Running(s')
    ensures Fitting(HeightOf(s'))
  {
    hide NulFree, CopiedValue, Joined, Created, Existing, ReadInt, ReadFloat, ReadString, UnsignedValue, NumberValue;
  }

  lemma NumbersFit(ar: Arith, op: OpCode, w: Word, s: State, s': State)
    requires Fitting(HeightOf(s)) && GoesOn(op) && Execute(ar, op, w, s) == Running(s')
    requires !OnVariables(op) && !LoadsHead(op) && !FromHead(op) && !SetsAside(op) && !TakesBack(op)
    ensures Fitting(HeightOf(s'))
  {
  }

  lemma OneStep(p: Program, c: Code, s: State)
    requires Straight(c) && c != [] && At(p, c, s.ip) && Fitting(HeightOf(s))
    ensures var d := Step(p, s);
      && !d.Returned?
      && (d.Running? ==>
            && d.s.ip == s.ip + Width(c[0].op) && HeightOf(d.s) == HeightOf(s).Plus(Rise(c[0].op))
                && Fitting(HeightOf(d.s))
            && At(p, c[Width(c[0].op)..], d.s.ip))
  {
    hide Execute, Rise;
    AtWord(p, c, s.ip, 0);
    var w := if s.ip + 1 < |p.code| then p.code[s.ip + 1] else Num(-1);
    var op, s1 := c[0].op, s.(ip := s.ip + 1);
    NotReturned(p.ar, op, w, s1);
    var d := Step(p, s);
    if d.Running? {
      ExecuteMoves(p.ar, op, w, s1, d.s);
      StaysFitting(p.ar, op, w, s1, d.s);
      assert c == c[..Width(op)] + c[Width(op)..];
      AtSplit(p, c[..Width(op)], c[Width(op)..], s.ip);
    }
  }

  /** Code without jumps either runs off a stack or comes through, and then its crest has fitted. */
  lemma {:induction false} StraightRuns(p: Program, c: Code, s: State) returns (stuck: bool, n: nat, s': State)
    requires Straight(c) && At(p, c, s.ip) && Fitting(HeightOf(s))
    ensures if stuck then Sticks(p, n, s, s.ip, s.ip + |c|)
            else Arrives(p, n, s, s', s.ip + |c|) && Fitting(HeightOf(s).Plus(Crest(c)))
    decreases |c|
  {
    if c == [] {
      stuck, n, s' := false, 0, s;
    } else {
      stuck, n, s' := StraightStep(p, c, s);
    }
  }

  lemma {:induction false} StraightStep(p: Program, c: Code, s: State) returns (stuck: bool, n: nat, s': State)
    requires Straight(c) && c != [] && At(p, c, s.ip) && Fitting(HeightOf(s))
    ensures if stuck then Sticks(p, n, s, s.ip, s.ip + |c|)
            else Arrives(p, n, s, s', s.ip + |c|) && Fitting(HeightOf(s).Plus(Crest(c)))
    decreases |c|, 0
  {
    hide Step, Arrives, At, Rise, Simple, Sticks;
    OneStep(p, c, s);
    var d, w, end := Step(p, s), Width(c[0].op), s.ip + |c|;
    Wide(c[0].op);
    if d.Stuck? {
      stuck, n, s' := true, 1, s;
      SticksAtOnce(p, s, end);
    } else {
      NoTravel(p, s, s.ip, end);
      OneGoes(p, s);
      TravelsStep(p, 0, s, s, d.s, s.ip, end);
      var n1;
      stuck, n1, s' := StraightRuns(p, c[w..], d.s);
      n := 1 + n1;
      if stuck {
        SticksWider(p, n1, d.s, d.s.ip, end, s.ip, end);
        SticksOn(p, 1, s, d.s, n1, s.ip, end);
      } else {
        ArrivesTravels(p, n1, d.s, s', s.ip, end, end);
        TravelsOn(p, 1, s, d.s, n1, s', s.ip, end);
        TravelsArrives(p, n, s, s', end);
      }
    }
  }

  lemma OneGoes(p: Program, s: State)
    requires Step(p, s).Running?
    ensures Goes(p, 1, s, Step(p, s).s)
  {
    hide Step;
    assert Run(p, 0, Running(s)) == Running(s);
  }

  lemma SticksAtOnce(p: Program, s: State, end: nat)
    requires Step(p, s).Stuck? && s.ip < end
    ensures Sticks(p, 1, s, s.ip, end)
  {
    hide Step;
    assert Run(p, 0, Running(s)) == Running(s);
  }

  /**
    A served node without jumps comes to the end of its code exactly if the stacks have room for its peak.
    With less it runs off one of them on the way; there is no smaller bound that would do.
   */
  lemma RoomIsExact(p: Program, e: Expr, t: TypeReq, ip: nat, s: State)
    requires Fits(e, t) && JumpFree(e) && At(p, GenExpr(p.ar, e, t, s.ip, ip).code, s.ip) && Fitting(HeightOf(s))
    ensures var end := s.ip + |GenExpr(p.ar, e, t, s.ip, ip).code|;
      && (HasRoom(s, Peak(e, t)) <==> exists n: nat, s': State :: Arrives(p, n, s, s', end))
      && (!HasRoom(s, Peak(e, t)) <==> exists n: nat :: Sticks(p, n, s, s.ip, end))
  {
    hide GenExpr, Fits, JumpFree, Peak, At, Arrives, Sticks, Straight, Crest, Total, Run;
    var c := GenExpr(p.ar, e, t, s.ip, ip).code;
    var end := s.ip + |c|;
    ExprMeasured(p.ar, e, t, s.ip, ip);
    var stuck, n, s' := StraightRuns(p, c, s);
    if HasRoom(s, Peak(e, t)) {
      var m, q := ExprArrives(p, e, t, ip, s);
      forall k: nat ensures !Sticks(p, k, s, s.ip, end) {
        NotBoth(p, m, s, q, k, end);
      }
    } else {
      assert stuck;
      forall m: nat, q: State ensures !Arrives(p, m, s, q, end) {
        NotBoth(p, m, s, q, n, end);
      }
    }
  }

  lemma NotBoth(p: Program, m: nat, s: State, q: State, n: nat, end: nat)
    ensures !(Arrives(p, m, s, q, end) && Sticks(p, n, s, s.ip, end))
  {
    hide Run, Sticks;
    if Arrives(p, m, s, q, end) && Sticks(p, n, s, s.ip, end) {
      NeverArrives(p, n, s, end, m, q, end);
    }
  }
}
