/** The syntax trees of the compiled fragment, with the type preferences that direct compilation. */
module Ast {
  import opened Values

  /** Where a node's value should be left: nowhere, on one of the three stacks, or as the current variable. */
  datatype TypeReq = ReqNone | ReqUInt | ReqFloat | ReqString | ReqVar

  datatype IntOp =
    | Bits(bit: BitOp)
    | Compare(cmp: CompareOp)
    | LogicalOr
    | LogicalAnd

  datatype UnaryOp = Not | Complement

  datatype Expr =
    | IntLit(value: int)
    | FloatLit(f: F64)
    | StrLit(s: CString)
    | Constant(ident: CString)
    | Var(name: CString, sub: OptExpr)
    | FloatBinary(fop: FloatOp, left: Expr, right: Expr)
    | IntBinary(iop: IntOp, left: Expr, right: Expr)
    | IntUnary(uop: UnaryOp, operand: Expr)
    | FloatUnary(operand: Expr)
    | Conditional(test: Expr, whenTrue: Expr, whenFalse: Expr)
    | StrEq(left: Expr, right: Expr, eq: bool)
    | StrCat(left: Expr, right: Expr, glue: char)  // glue '\0': no character between
    | CommaCat(left: Expr, right: Expr)
    | Assign(name: CString, sub: OptExpr, rhs: Expr)
    | AssignOp(name: CString, sub: OptExpr, aop: AssignOperator, rhs: Expr)

  /** A node that may be missing: an array index, a loop's initialiser. */
  datatype OptExpr = Absent | Present(e: Expr)

  datatype AssignOperator = FloatAssign(fop: FloatOp) | BitAssign(bit: BitOp)

  datatype Stmt =
    | ExprStmt(e: Expr)
    | If(test: Expr, thn: Block, els: Block)  // an empty els is a missing else
    | Loop(init: OptExpr, test: Expr, step: OptExpr, body: Block, isDo: bool)
    | Break
    | Continue
    | Return(result: OptExpr)

  /** Statements chained by their next pointers. */
  datatype Block = End | Then(first: Stmt, rest: Block)

  function AssignOpType(op: AssignOperator): (t: TypeReq)
    ensures t in {ReqUInt, ReqFloat}
  {
    if op.FloatAssign? then ReqFloat else ReqUInt
  }

  function Preferred(e: Expr): (t: TypeReq)
    ensures t != ReqVar
  {
    match e
    case IntLit(_) | IntBinary(_, _, _) | IntUnary(_, _) | StrEq(_, _, _) => ReqUInt
    case FloatLit(_) | FloatBinary(_, _, _) | FloatUnary(_) => ReqFloat
    case StrLit(_) | Constant(_) | StrCat(_, _, _) | CommaCat(_, _) => ReqString
    case Var(_, _) => ReqNone
    case Conditional(_, a, _) => Preferred(a)
    case Assign(_, _, rhs) => Preferred(rhs)
    case AssignOp(_, _, op, _) => AssignOpType(op)
  }

  /** Whether the node's result can be copied out of the current variable. */
  predicate LoadsVar(e: Expr) {
    e.Var? || e.Assign? || e.AssignOp?
  }

  /** The stack a test is evaluated on. */
  function TestType(e: Expr): (t: TypeReq)
    ensures t in {ReqUInt, ReqFloat}
  {
    if Preferred(e) == ReqUInt then ReqUInt else ReqFloat
  }

  /** The representation an assignment moves its right-hand side in, when asked to leave a `t`. */
  function AssignType(rhs: Expr, t: TypeReq): (s: TypeReq)
    ensures s != ReqNone
    ensures s == ReqVar ==> t in {ReqNone, ReqVar} && Preferred(rhs) == ReqNone
  {
    var p := if Preferred(rhs) == ReqNone then t else Preferred(rhs);
    if p != ReqNone then p else if LoadsVar(rhs) then ReqVar else ReqString
  }

  function OperandType(op: IntOp): TypeReq {
    if op.Compare? then ReqFloat else ReqUInt
  }

  /** Whether an operand of `!` is preferred as a float. */
  predicate NegatesFloat(op: UnaryOp, e: Expr) {
    op.Not? && Preferred(e) in {ReqFloat, ReqString}
  }

  function UnaryType(op: UnaryOp, e: Expr): TypeReq {
    if NegatesFloat(op, e) then ReqFloat else ReqUInt
  }

  function ReturnType(e: Expr): TypeReq {
    if Preferred(e) == ReqNone then ReqString else Preferred(e)
  }
}
