/** What scripts mean: a big-step semantics without addresses, jumps or operand stacks. */
module Semantics {
  import opened Values
  import opened Ast
  import opened Machine

  /** The value of an expression, in the representation it was asked for. */
  datatype Out =
    | NoValue
    | IntValue(i: int)
    | FltValue(f: F64)
    | StrValue(s: CString)
    | Ref(ref: Option<CString>)  // a variable, if it exists

  datatype Effect = Effect(out: Out, vars: Store)

  predicate Shape(o: Out, t: TypeReq) {
    match t
    case ReqNone => o.NoValue?
    case ReqUInt => o.IntValue?
    case ReqFloat => o.FltValue?
    case ReqString => o.StrValue?
    case ReqVar => o.Ref?
  }

  function AsInt(o: Out): int {
    if o.IntValue? then o.i else 0
  }

  function AsFlt(o: Out): F64 {
    if o.FltValue? then o.f else F64(0)
  }

  function AsStr(o: Out): CString {
    if o.StrValue? then o.s else ""
  }

  function AsRef(o: Out): Option<CString> {
    if o.Ref? then o.ref else None
  }

  /** The same value in another representation. */
  function Converted(ar: Arith, o: Out, t: TypeReq): Out {
    match (o, t)
    case (_, ReqNone) => NoValue
    case (IntValue(i), ReqUInt) => o
    case (IntValue(i), ReqFloat) => FltValue(ar.floatOfInt(i))
    case (IntValue(i), ReqString) => StrValue(ar.showInt(ToS32(i)))
    case (FltValue(f), ReqUInt) => IntValue(ar.truncate(f))
    case (FltValue(f), ReqFloat) => o
    case (FltValue(f), ReqString) => StrValue(ar.showFloat(f))
    case (StrValue(s), ReqUInt) => IntValue(ToU32(ar.parseInt(s)))
    case (StrValue(s), ReqFloat) => FltValue(ar.parseFloat(s))
    case (StrValue(s), ReqString) => o
    case _ => NoValue
  }

  /** A literal is converted when the script is compiled, not when it runs. */
  function Literal(ar: Arith, e: Expr, t: TypeReq): Out
    requires e.IntLit? || e.FloatLit? || e.StrLit? || e.Constant?
  {
    match t
    case ReqUInt => IntValue(match e
                             case IntLit(v) => ToU32(v)
                             case FloatLit(f) => ToU32(ar.wordOfFloat(f))
                             case StrLit(s) => ToU32(ar.wordOfFloat(ar.constantValue(s)))
                             case Constant(s) => ToU32(ar.wordOfFloat(ar.constantValue(s))))
    case ReqFloat => FltValue(match e
                              case IntLit(v) => ar.floatOfInt(ToS32(v))
                              case FloatLit(f) => f
                              case StrLit(s) => ar.constantValue(s)
                              case Constant(s) => ar.constantValue(s))
    case ReqString => StrValue(match e
                               case IntLit(v) => ar.showInt(ToS32(v))
                               case FloatLit(f) => ar.showFloat(f)
                               case StrLit(s) => s
                               case Constant(s) => s)
    case _ => NoValue
  }

  function ReadAs(ar: Arith, vars: Store, ref: Option<CString>, t: TypeReq): Out {
    match t
    case ReqNone => NoValue
    case ReqUInt => IntValue(ReadInt(ar, vars, ref))
    case ReqFloat => FltValue(ReadFloat(ar, vars, ref))
    case ReqString => StrValue(ReadString(ar, vars, ref))
    case ReqVar => Ref(ref)
  }

  /** What assigning `o` stores; for a variable, what it holds in `vars`. */
  function Stored(ar: Arith, vars: Store, o: Out): Value {
    match o
    case IntValue(i) => UnsignedValue(i)
    case FltValue(f) => NumberValue(ar, f)
    case StrValue(s) => VString(s)
    case Ref(r) => CopiedValue(ar, vars, r)
    case NoValue => VString("")
  }

  function StrictOp(ar: Arith, op: IntOp, left: Out, right: Out): int {
    match op
    case Bits(b) => ar.bitOp(b, AsInt(left), AsInt(right))
    case Compare(c) => Bool(ar.compare(c, AsFlt(left), AsFlt(right)))
    case _ => 0
  }

  function UnaryResult(ar: Arith, op: UnaryOp, o: Out): int {
    if op.Complement? then ar.complement(AsInt(o))
    else if o.FltValue? then Bool(!ar.nonZero(o.f))
    else Bool(AsInt(o) == 0)
  }

  function AssignOpResult(ar: Arith, op: AssignOperator, old_: Out, rhs: Out): Out {
    match op
    case FloatAssign(f) => FltValue(ar.floatOp(f, AsFlt(old_), AsFlt(rhs)))
    case BitAssign(b) => IntValue(ar.bitOp(b, AsInt(old_), AsInt(rhs)))
  }

  predicate Holds(ar: Arith, o: Out) {
    if o.FltValue? then ar.nonZero(o.f) else AsInt(o) != 0
  }

  function Glue(glue: char): CString {
    if glue == '\0' then "" else [glue]
  }

  /** Evaluates `e` for a value of type `t`. Right operands of numeric operators run first. */
  function Eval(ar: Arith, e: Expr, t: TypeReq, vars: Store): Effect
    decreases e, 2
  {
    EvalNode(ar, e, t, vars)
  }

  /** One level of `Eval`. */
  function EvalNode(ar: Arith, e: Expr, t: TypeReq, vars: Store): Effect
    decreases e, 1
  {
    match e
    case IntLit(_) | FloatLit(_) | StrLit(_) | Constant(_) => Effect(Literal(ar, e, t), vars)
    case Var(name, sub) =>
      if t == ReqNone then Effect(NoValue, vars) else
      var n := Target(ar, name, sub, vars);
      Effect(ReadAs(ar, n.1, Existing(n.1, n.0), t), n.1)
    case FloatBinary(op, l, r) =>
      var er := Eval(ar, r, ReqFloat, vars);
      var el := Eval(ar, l, ReqFloat, er.vars);
      Effect(Converted(ar, FltValue(ar.floatOp(op, AsFlt(el.out), AsFlt(er.out))), t), el.vars)
    case IntBinary(op, l, r) =>
      if op.LogicalOr? || op.LogicalAnd? then
        var el := Eval(ar, l, ReqUInt, vars);
        var decided := Holds(ar, el.out) == op.LogicalOr?;
        var ef := if decided then el else Eval(ar, r, ReqUInt, el.vars);
        Effect(Converted(ar, ef.out, t), ef.vars)
      else
        var er := Eval(ar, r, OperandType(op), vars);
        var el := Eval(ar, l, OperandType(op), er.vars);
        Effect(Converted(ar, IntValue(StrictOp(ar, op, el.out, er.out)), t), el.vars)
    case IntUnary(op, x) =>
      var ex := Eval(ar, x, UnaryType(op, x), vars);
      Effect(Converted(ar, IntValue(UnaryResult(ar, op, ex.out)), t), ex.vars)
    case FloatUnary(x) =>
      var ex := Eval(ar, x, ReqFloat, vars);
      Effect(Converted(ar, FltValue(ar.negate(AsFlt(ex.out))), t), ex.vars)
    case Conditional(c, a, b) =>
      var ec := Eval(ar, c, TestType(c), vars);
      Eval(ar, if Holds(ar, ec.out) then a else b, t, ec.vars)
    case StrEq(l, r, eq) =>
      var el := Eval(ar, l, ReqString, vars);
      var er := Eval(ar, r, ReqString, el.vars);
      var same := ar.equalIgnoringCase(AsStr(el.out), AsStr(er.out));
      Effect(Converted(ar, IntValue(Bool(same == eq)), t), er.vars)
    case StrCat(l, r, glue) =>
      var el := Eval(ar, l, ReqString, vars);
      var er := Eval(ar, r, ReqString, el.vars);
      Effect(Converted(ar, StrValue(AsStr(el.out) + Glue(glue) + AsStr(er.out)), t), er.vars)
    case CommaCat(l, r) =>
      var el := Eval(ar, l, ReqString, vars);
      var er := Eval(ar, r, ReqString, el.vars);
      Effect(Converted(ar, StrValue(AsStr(el.out) + "_" + AsStr(er.out)), t), er.vars)
    case Assign(name, sub, rhs) =>
      var s := AssignType(rhs, t);
      var er := Eval(ar, rhs, s, vars);
      var n := Target(ar, name, sub, er.vars);
      var made := Created(n.1, n.0);
      var vars' := made[n.0 := Stored(ar, made, er.out)];
      Effect(if t == ReqVar then Ref(Some(n.0)) else Converted(ar, er.out, t), vars')
    case AssignOp(name, sub, op, rhs) =>
      var er := Eval(ar, rhs, AssignOpType(op), vars);
      var n := Target(ar, name, sub, er.vars);
      var made := Created(n.1, n.0);
      var o := AssignOpResult(ar, op, ReadAs(ar, made, Some(n.0), AssignOpType(op)), er.out);
      Effect(Converted(ar, o, t), made[n.0 := Stored(ar, made, o)])
  }

  /** The variable a name and an optional index denote, after evaluating the index. */
  function Target(ar: Arith, name: CString, sub: OptExpr, vars: Store): (CString, Store)
    decreases sub, 0
  {
    match sub
    case Absent => (name, vars)
    case Present(i) =>
      var ei := Eval(ar, i, ReqString, vars);
      (ar.intern(name + AsStr(ei.out)), ei.vars)
  }

  // ----- the current variable -----

  /** The variable that is current after evaluating `e`, if `cur` was before. */
  function CurAfter(ar: Arith, e: Expr, t: TypeReq, vars: Store, cur: Option<CString>): Option<CString>
    decreases e, 2
  {
    CurNode(ar, e, t, vars, cur)
  }

  /** One level of `CurAfter`. */
  function CurNode(ar: Arith, e: Expr, t: TypeReq, vars: Store, cur: Option<CString>): Option<CString>
    decreases e, 1
  {
    match e
    case IntLit(_) | FloatLit(_) | StrLit(_) | Constant(_) => cur
    case Var(name, sub) =>
      if t == ReqNone then cur else
      var n := Target(ar, name, sub, vars);
      Existing(n.1, n.0)
    case FloatBinary(_, _, _) => CurOfOperands(ar, e, ReqFloat, vars, cur)
    case IntBinary(op, l, r) =>
      if op.LogicalOr? || op.LogicalAnd? then
        var el := Eval(ar, l, ReqUInt, vars);
        var c := CurAfter(ar, l, ReqUInt, vars, cur);
        if Holds(ar, el.out) == op.LogicalOr? then c else CurAfter(ar, r, ReqUInt, el.vars, c)
      else CurOfOperands(ar, e, OperandType(op), vars, cur)
    case IntUnary(op, x) => CurAfter(ar, x, UnaryType(op, x), vars, cur)
    case FloatUnary(x) => CurAfter(ar, x, ReqFloat, vars, cur)
    case Conditional(c, a, b) =>
      var ec := Eval(ar, c, TestType(c), vars);
      CurAfter(ar, if Holds(ar, ec.out) then a else b, t, ec.vars, CurAfter(ar, c, TestType(c), vars, cur))
    case StrEq(_, _, _) => CurOfStrings(ar, e, vars, cur)
    case StrCat(_, _, _) => CurOfStrings(ar, e, vars, cur)
    case CommaCat(_, _) => CurOfStrings(ar, e, vars, cur)
    case Assign(name, sub, rhs) => Some(Target(ar, name, sub, Eval(ar, rhs, AssignType(rhs, t), vars).vars).0)
    case AssignOp(name, sub, op, rhs) => Some(Target(ar, name, sub, Eval(ar, rhs, AssignOpType(op), vars).vars).0)
  }

  function CurOfOperands(ar: Arith, e: Expr, t: TypeReq, vars: Store, cur: Option<CString>): Option<CString>
    requires e.FloatBinary? || e.IntBinary?
    decreases e, 0
  {
    CurAfter(ar, e.left, t, Eval(ar, e.right, t, vars).vars, CurAfter(ar, e.right, t, vars, cur))
  }

  function CurOfStrings(ar: Arith, e: Expr, vars: Store, cur: Option<CString>): Option<CString>
    requires e.StrEq? || e.StrCat? || e.CommaCat?
    decreases e, 0
  {
    CurAfter(ar, e.right, ReqString, Eval(ar, e.left, ReqString, vars).vars, CurAfter(ar, e.left, ReqString, vars, cur))
  }

  // ----- the fragment the compiler serves -----

  /** Nodes that leave a variable behind when asked for one. */
  predicate GivesVar(e: Expr) {
    match e
    case Var(_, _) | Assign(_, _, _) => true
    case Conditional(_, a, b) => GivesVar(a) && GivesVar(b)
    case _ => false
  }

  /**
    Whether compiling `e` for a `t` meets none of the compiler's three slips: a short-circuit
    operator whose right operand returns a stale address, a float-preferring `!` whose result is wanted
    other than as an int, and a variable wanted from a node that has none.
   */
  predicate Fits(e: Expr, t: TypeReq)
    decreases e, 2
  {
    FitsNode(e, t)
  }

  /** One level of `Fits`. */
  predicate FitsNode(e: Expr, t: TypeReq)
    decreases e, 1
  {
    (t == ReqVar ==> GivesVar(e)) &&
    match e
    case IntLit(_) | FloatLit(_) | StrLit(_) | Constant(_) => true
    case Var(_, sub) => t == ReqNone || FitsIndex(sub)
    case FloatBinary(_, l, r) => Fits(l, ReqFloat) && Fits(r, ReqFloat)
    case IntBinary(op, l, r) =>
      Fits(l, OperandType(op)) && Fits(r, OperandType(op)) &&
      (op.LogicalOr? || op.LogicalAnd? ==> !r.Constant? && !r.Assign?)
    case IntUnary(op, x) => Fits(x, UnaryType(op, x)) && (NegatesFloat(op, x) ==> t == ReqUInt)
    case FloatUnary(x) => Fits(x, ReqFloat)
    case Conditional(c, a, b) => Fits(c, TestType(c)) && Fits(a, t) && Fits(b, t)
    case StrEq(l, r, _) => Fits(l, ReqString) && Fits(r, ReqString)
    case StrCat(l, r, _) => Fits(l, ReqString) && Fits(r, ReqString)
    case CommaCat(l, r) => Fits(l, ReqString) && Fits(r, ReqString)
    case Assign(_, sub, rhs) => Fits(rhs, AssignType(rhs, t)) && FitsIndex(sub)
    case AssignOp(_, sub, op, rhs) => Fits(rhs, AssignOpType(op)) && FitsIndex(sub)
  }

  predicate FitsIndex(sub: OptExpr)
    decreases sub, 0
  {
    sub.Present? ==> Fits(sub.e, ReqString)
  }

  // ----- operand room -----

  /** A number of entries on the int, float and string stacks. */
  datatype Room = Room(i: nat, f: nat, s: nat) {
    function Max(o: Room): Room {
      Room(if i < o.i then o.i else i, if f < o.f then o.f else f, if s < o.s then o.s else s)
    }

    function Plus(o: Room): Room {
      Room(i + o.i, f + o.f, s + o.s)
    }
  }

  const INT_SLOT := Room(1, 0, 0)
  const STRING_SLOT := Room(0, 0, 1)

  function ResultRoom(t: TypeReq): Room {
    match t
    case ReqUInt => INT_SLOT
    case ReqFloat => Room(0, 1, 0)
    case _ => Room(0, 0, 0)
  }

  /** The most entries the code of `e` has on each stack at once, above where it starts. */
  function Peak(e: Expr, t: TypeReq): Room
    decreases e, 2
  {
    PeakNode(e, t)
  }

  /** One level of `Peak`. */
  function PeakNode(e: Expr, t: TypeReq): Room
    decreases e, 1
  {
    match e
    case IntLit(_) | FloatLit(_) | StrLit(_) | Constant(_) => ResultRoom(t)
    case Var(_, sub) => if t == ReqNone then Room(0, 0, 0) else PeakIndex(sub).Max(ResultRoom(t))
    case FloatBinary(_, l, r) =>
      Peak(r, ReqFloat).Max(ResultRoom(ReqFloat).Plus(Peak(l, ReqFloat))).Max(ResultRoom(t))
    case IntBinary(op, l, r) =>
      if op.LogicalOr? || op.LogicalAnd? then
        Peak(l, ReqUInt).Max(Peak(r, ReqUInt)).Max(ResultRoom(t))
      else
        Peak(r, OperandType(op)).Max(ResultRoom(OperandType(op)).Plus(Peak(l,
            OperandType(op)))).Max(INT_SLOT).Max(ResultRoom(t))
    case IntUnary(op, x) => Peak(x, UnaryType(op, x)).Max(INT_SLOT).Max(ResultRoom(t))
    case FloatUnary(x) => Peak(x, ReqFloat).Max(ResultRoom(t))
    case Conditional(c, a, b) => Peak(c, TestType(c)).Max(Peak(a, t)).Max(Peak(b, t))
    case StrEq(l, r, _) => Peak(l, ReqString).Max(STRING_SLOT.Plus(Peak(r, ReqString))).Max(INT_SLOT).Max(ResultRoom(t))
    case StrCat(l, r, _) => Peak(l, ReqString).Max(STRING_SLOT.Plus(Peak(r, ReqString))).Max(ResultRoom(t))
    case CommaCat(l, r) => Peak(l, ReqString).Max(STRING_SLOT.Plus(Peak(r, ReqString))).Max(ResultRoom(t))
    case Assign(_, sub, rhs) =>
      var s := AssignType(rhs, t);
      var held := if s == ReqString && sub.Present? then STRING_SLOT else ResultRoom(s);
      Peak(rhs, s).Max(held.Plus(PeakIndex(sub))).Max(ResultRoom(t))
    case AssignOp(_, sub, op, rhs) =>
      var held := ResultRoom(AssignOpType(op));
      Peak(rhs, AssignOpType(op)).Max(held.Plus(PeakIndex(sub))).Max(held.Plus(held)).Max(ResultRoom(t))
  }

  function PeakIndex(sub: OptExpr): Room
    decreases sub, 0
  {
    if sub.Present? then STRING_SLOT.Plus(Peak(sub.e, ReqString)) else Room(0, 0, 0)
  }
}
