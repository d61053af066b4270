/**
  The expression parser: prefix and infix steps driven by binding powers. What it builds are the trees
  the compiler takes.
 */
module Pratt {
  import opened Values
  import opened Ast

  datatype Token =
    | IntTok(value: nat)
    | FloatTok(f: F64)
    | StringTok(s: CString)
    | NameTok(name: CString)
    | VarTok(name: CString)
    | Sign(c: char)               // opCHAR
    | OrTok | AndTok | EqTok | NeTok | LeTok | GeTok | ShlTok | ShrTok | StrEqTok | StrNeTok
    | ConcatTok(glue: char)
    | AssignTok(aop: AssignOperator)
    | PlusPlusTok | MinusMinusTok
    | ArrowTok                    // -> and -->
    | ColonColonTok
    | SpecialTok                  // starts a construct this model does not cover
    | OtherTok                    // cannot be part of an expression

  /**
    A tree and where parsing stopped; a tree with a missing operand, because the tokens ran out; a
    thrown error; or a construct outside this model (calls, fields, objects, tags).
   */
  datatype Outcome = Tree(e: Expr, pos: nat) | Hollow | Error | Beyond

  /** Left binding power. */
  function Lbp(t: Token): nat {
    match t
    case AssignTok(_) => 10
    case PlusPlusTok | MinusMinusTok => 145
    case OrTok => 20
    case AndTok => 30
    case EqTok | NeTok => 60
    case LeTok | GeTok => 70
    case ConcatTok(_) | StrEqTok | StrNeTok => 75
    case ShlTok | ShrTok => 80
    case ArrowTok => 135
    case Sign(c) =>
      if c == '=' then 10
      else if c == '?' then 15
      else if c == '|' then 40
      else if c == '^' then 45
      else if c == '&' then 50
      else if c == '<' || c == '>' then 70
      else if c == '+' || c == '-' then 90
      else if c == '*' || c == '/' || c == '%' then 100
      else if c == '.' then 130
      else if c == '[' then 140
      else 0
    case _ => 0
  }

  const UNARY_POWER: nat := 110

  /** The token `k` places on; past the end, one that binds nothing. */
  function LookAhead(ts: seq<Token>, pos: nat): Token {
    if pos < |ts| then ts[pos] else OtherTok
  }

  predicate Is(ts: seq<Token>, pos: nat, c: char) {
    LookAhead(ts, pos) == Sign(c)
  }

  /** The tree of a left-associative infix token; none if the token is no such operator. */
  function Combine(t: Token, l: Expr, r: Expr): Option<Expr> {
    match t
    case OrTok => Some(IntBinary(LogicalOr, l, r))
    case AndTok => Some(IntBinary(LogicalAnd, l, r))
    case EqTok => Some(IntBinary(Compare(Equal), l, r))
    case NeTok => Some(IntBinary(Compare(NotEqual), l, r))
    case LeTok => Some(IntBinary(Compare(LessEq), l, r))
    case GeTok => Some(IntBinary(Compare(GreaterEq), l, r))
    case ShlTok => Some(IntBinary(Bits(ShiftLeft), l, r))
    case ShrTok => Some(IntBinary(Bits(ShiftRight), l, r))
    case StrEqTok => Some(StrEq(l, r, true))
    case StrNeTok => Some(StrEq(l, r, false))
    case ConcatTok(glue) => Some(StrCat(l, r, glue))
    case Sign(c) =>
      if c == '+' then Some(FloatBinary(Add, l, r))
      else if c == '-' then Some(FloatBinary(Sub, l, r))
      else if c == '*' then Some(FloatBinary(Mul, l, r))
      else if c == '/' then Some(FloatBinary(Div, l, r))
      else if c == '%' then Some(FloatBinary(Mod, l, r))
      else if c == '^' then Some(IntBinary(Bits(Xor), l, r))
      else if c == '&' then Some(IntBinary(Bits(BitAnd), l, r))
      else if c == '|' then Some(IntBinary(Bits(BitOr), l, r))
      else if c == '<' then Some(IntBinary(Compare(Less), l, r))
      else if c == '>' then Some(IntBinary(Compare(Greater), l, r))
      else None
    case _ => None
  }

  /** Assigning to anything but a variable is an error. */
  function MakeAssign(t: Token, l: Expr, r: Outcome): Outcome {
    if r.Error? || r.Beyond? then r
    else if !l.Var? then Error
    else if r.Hollow? then Hollow
    else if t.AssignTok? then Tree(AssignOp(l.name, l.sub, t.aop, r.e), r.pos)
    else Tree(Assign(l.name, l.sub, r.e), r.pos)
  }

  // ----- the parser as functions of the token list -----

  function ParseExpr(ts: seq<Token>, pos: nat, rbp: nat, one: F64): (r: Outcome)
    ensures r.Tree? ==> pos < r.pos <= |ts|
    decreases |ts| - pos, 3
  {
    if pos >= |ts| then Hollow
    else
      match Prefix(ts, ts[pos], pos + 1, one)
      case Tree(left, q) => Infix(ts, left, q, rbp, one)
      case other => other
  }

  /** nud: what starts with the token before `pos`. */
  function Prefix(ts: seq<Token>, t: Token, pos: nat, one: F64): (r: Outcome)
    requires pos <= |ts|
    ensures r.Tree? ==> pos <= r.pos <= |ts|
    decreases |ts| - pos, 4
  {
    match t
    case IntTok(v) => Tree(IntLit(ToS32(v)), pos)
    case FloatTok(f) => Tree(FloatLit(f), pos)
    case StringTok(s) => Tree(StrLit(s), pos)
    case NameTok(name) =>
      if LookAhead(ts, pos) == ColonColonTok || Is(ts, pos, '(') then Beyond else Tree(Constant(name), pos)
    case VarTok(name) => Tree(Var(name, Absent), pos)
    case SpecialTok => Beyond
    case Sign(c) =>
      if c == '(' then
        (match ParseExpr(ts, pos, 0, one)
         case Tree(e, q) => if Is(ts, q, ')') then Tree(e, q + 1) else Error
         case Hollow => Error
         case other => other)
      else if c == '-' then
        (match ParseExpr(ts, pos, UNARY_POWER, one)
         case Tree(e, q) => Tree(FloatUnary(e), q)
         case other => other)
      else if c == '!' || c == '~' then
        (match ParseExpr(ts, pos, UNARY_POWER, one)
         case Tree(e, q) => Tree(IntUnary(if c == '!' then Not else Complement, e), q)
         case other => other)
      else if c == '*' then Beyond
      else Error
    case _ => Error
  }

  /** The loop: infix tokens that bind tighter than `rbp` take what is there as their left operand. */
  function Infix(ts: seq<Token>, left: Expr, pos: nat, rbp: nat, one: F64): (r: Outcome)
    requires pos <= |ts|
    ensures r.Tree? ==> pos <= r.pos <= |ts|
    decreases |ts| - pos, 3
  {
    if Lbp(LookAhead(ts, pos)) <= rbp then Tree(left, pos)
    else
      match Led(ts, ts[pos], left, pos + 1, one)
      case Tree(e, q) => Infix(ts, e, q, rbp, one)
      case other => other
  }

  /** led: the operator before `pos` and its right operand. */
  function Led(ts: seq<Token>, t: Token, left: Expr, pos: nat, one: F64): (r: Outcome)
    requires pos <= |ts|
    ensures r.Tree? ==> pos <= r.pos <= |ts|
    decreases |ts| - pos, 5
  {
    if t == Sign('[') then
      (match ParseIndex(ts, pos, one)
       case Tree(idx, q) =>
         if !Is(ts, q, ']') || !left.Var? then Error
         else Tree(Var(left.name, Present(if left.sub.Present? then CommaCat(left.sub.e, idx) else idx)), q + 1)
       case Hollow => Error
       case other => other)
    else if t == Sign('?') then
      (match ParseExpr(ts, pos, 0, one)
       case Tree(mid, q) =>
         if !Is(ts, q, ':') then Error
         else
           (match ParseExpr(ts, q + 1, Lbp(t) - 1, one)
            case Tree(rhs, z) => Tree(Conditional(left, mid, rhs), z)
            case other => other)
       case Hollow => Error
       case other => other)
    else if t == Sign('=') || t.AssignTok? then MakeAssign(t, left, ParseExpr(ts, pos, Lbp(t) - 1, one))
    else if t == PlusPlusTok || t == MinusMinusTok then
      if left.Var? then
        Tree(AssignOp(left.name, left.sub, FloatAssign(if t == PlusPlusTok then Add else Sub), FloatLit(one)), pos)
      else Error
    else if t == Sign('.') || t == ArrowTok then Beyond
    else
      match ParseExpr(ts, pos, Lbp(t), one)
      case Tree(r, q) => (match Combine(t, left, r) case Some(e) => Tree(e, q) case None => Error)
      case Hollow => if Combine(t, left, left).Some? then Hollow else Error
      case other => other
  }

  /** An index: expressions with commas between them. */
  function ParseIndex(ts: seq<Token>, pos: nat, one: F64): (r: Outcome)
    requires pos <= |ts|
    ensures r.Tree? ==> pos < r.pos <= |ts|
    decreases |ts| - pos, 4
  {
    match ParseExpr(ts, pos, 0, one)
    case Tree(e, q) => MoreIndex(ts, e, q, one)
    case other => other
  }

  function MoreIndex(ts: seq<Token>, head: Expr, pos: nat, one: F64): (r: Outcome)
    requires pos <= |ts|
    ensures r.Tree? ==> pos <= r.pos <= |ts|
    decreases |ts| - pos, 4
  {
    if !Is(ts, pos, ',') then Tree(head, pos)
    else
      match ParseExpr(ts, pos + 1, 0, one)
      case Tree(e, q) => MoreIndex(ts, CommaCat(head, e), q, one)
      case other => other
  }

  // ----- printing with as few parentheses as that allows -----

  /** The operator token of a left-associative binary node. */
  function OperatorOf(e: Expr): Token
    requires e.FloatBinary? || e.IntBinary? || e.StrEq? || e.StrCat?
  {
    match e
    case FloatBinary(op, _, _) =>
      (match op
       case Add => Sign('+') case Sub => Sign('-')
       case Mul => Sign('*') case Div => Sign('/') case Mod => Sign('%'))
    case IntBinary(op, _, _) =>
      (match op
       case LogicalOr => OrTok
       case LogicalAnd => AndTok
       case Bits(b) =>
         (match b
          case Xor => Sign('^') case BitAnd => Sign('&') case BitOr => Sign('|')
          case ShiftRight => ShrTok case ShiftLeft => ShlTok)
       case Compare(c) =>
         (match c
          case Less => Sign('<') case Greater => Sign('>') case GreaterEq => GeTok case LessEq => LeTok
          case Equal => EqTok case NotEqual => NeTok))
    case StrEq(_, _, eq) => if eq then StrEqTok else StrNeTok
    case StrCat(_, _, glue) => ConcatTok(glue)
  }

  /** How tightly the root holds together seen from the left: what `rbp` must be below. */
  function Level(e: Expr): nat {
    match e
    case FloatBinary(_, _, _) | IntBinary(_, _, _) | StrEq(_, _, _) | StrCat(_, _, _) => Lbp(OperatorOf(e))
    case Conditional(_, _, _) => 15
    case Assign(_, _, _) | AssignOp(_, _, _, _) => 10
    case _ => 200
  }

  /** Seen from the right: an operator that follows must not bind tighter than this. */
  function Edge(e: Expr): nat {
    match e
    case FloatBinary(_, _, _) | IntBinary(_, _, _) | StrEq(_, _, _) | StrCat(_, _, _) => Lbp(OperatorOf(e))
    case Conditional(_, _, _) => 14
    case Assign(_, _, _) | AssignOp(_, _, _, _) => 9
    case FloatUnary(_) | IntUnary(_, _) => UNARY_POWER
    case _ => 200
  }

  function Wrapped(e: Expr): seq<Token>
    decreases e, 1
  {
    [Sign('(')] + Print(e) + [Sign(')')]
  }

  /** A left operand of an operator of that power. */
  function PrintLeft(e: Expr, power: nat): seq<Token>
    decreases e, 2
  {
    if Level(e) >= power && Edge(e) >= power then Print(e) else Wrapped(e)
  }

  /** An operand parsed with that right binding power. */
  function PrintRight(e: Expr, rbp: nat): seq<Token>
    decreases e, 2
  {
    if Level(e) > rbp then Print(e) else Wrapped(e)
  }

  function PrintIndex(e: Expr): seq<Token>
    decreases e, 1
  {
    if e.CommaCat? then PrintIndex(e.left) + [Sign(',')] + Print(e.right) else Print(e)
  }

  function PrintTarget(name: CString, sub: OptExpr): seq<Token>
    decreases sub
  {
    match sub
    case Absent => [VarTok(name)]
    case Present(e) => [VarTok(name), Sign('[')] + PrintIndex(e) + [Sign(']')]
  }

  function Print(e: Expr): seq<Token>
    decreases e, 0
  {
    match e
    case IntLit(v) => [IntTok(if v >= 0 then v else 0)]
    case FloatLit(f) => [FloatTok(f)]
    case StrLit(s) => [StringTok(s)]
    case Constant(name) => [NameTok(name)]
    case Var(name, sub) => PrintTarget(name, sub)
    case FloatBinary(_, l, r) => PrintLeft(l, Level(e)) + [OperatorOf(e)] + PrintRight(r, Level(e))
    case IntBinary(_, l, r) => PrintLeft(l, Level(e)) + [OperatorOf(e)] + PrintRight(r, Level(e))
    case StrEq(l, r, _) => PrintLeft(l, Level(e)) + [OperatorOf(e)] + PrintRight(r, Level(e))
    case StrCat(l, r, _) => PrintLeft(l, Level(e)) + [OperatorOf(e)] + PrintRight(r, Level(e))
    case IntUnary(op, x) => [Sign(if op == Not then '!' else '~')] + PrintRight(x, UNARY_POWER)
    case FloatUnary(x) => [Sign('-')] + PrintRight(x, UNARY_POWER)
    case Conditional(c, a, b) =>
      PrintLeft(c, 15) + [Sign('?')] + PrintRight(a, 0) + [Sign(':')] + PrintRight(b, 14)
    case CommaCat(l, r) => []
    case Assign(name, sub, rhs) => PrintTarget(name, sub) + [Sign('=')] + PrintRight(rhs, 9)
    case AssignOp(name, sub, op, rhs) => PrintTarget(name, sub) + [AssignTok(op)] + PrintRight(rhs, 9)
  }

  /** Trees that have a text: literals fit 31 bits, and commas occur only at the top of an index. */
  predicate Printable(e: Expr)
    decreases e, 0
  {
    match e
    case IntLit(v) => 0 <= v < TWO_31
    case FloatLit(_) | StrLit(_) | Constant(_) => true
    case Var(_, sub) => PrintableTarget(sub)
    case FloatBinary(_, l, r) => Printable(l) && Printable(r)
    case IntBinary(_, l, r) => Printable(l) && Printable(r)
    case StrEq(l, r, _) => Printable(l) && Printable(r)
    case StrCat(l, r, _) => Printable(l) && Printable(r)
    case IntUnary(_, x) => Printable(x)
    case FloatUnary(x) => Printable(x)
    case Conditional(c, a, b) => Printable(c) && Printable(a) && Printable(b)
    case CommaCat(_, _) => false
    case Assign(_, sub, rhs) => PrintableTarget(sub) && Printable(rhs)
    case AssignOp(_, sub, _, rhs) => PrintableTarget(sub) && Printable(rhs)
  }

  predicate PrintableTarget(sub: OptExpr)
    decreases sub
  {
    sub.Present? ==> PrintableIndex(sub.e)
  }

  predicate PrintableIndex(e: Expr)
    decreases e, 1
  {
    if e.CommaCat? then PrintableIndex(e.left) && Printable(e.right) else Printable(e)
  }
}
