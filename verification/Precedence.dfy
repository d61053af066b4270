/** Which operator binds tighter, as the language promises it: said of texts, without binding powers. */
module Precedence {
  import opened Values
  import opened Ast
  import opened Pratt
  import opened PrattRoundTrip

  /**
    The infix operators from loosest to tightest: between operands, the token `t` of tier `k` makes a tree
    like `e`.
   */
  predicate Operator(k: nat, t: Token, e: Expr) {
    match e
    case IntBinary(LogicalOr, _, _) => k == 0 && t == OrTok
    case IntBinary(LogicalAnd, _, _) => k == 1 && t == AndTok
    case IntBinary(Bits(BitOr), _, _) => k == 2 && t == Sign('|')
    case IntBinary(Bits(Xor), _, _) => k == 3 && t == Sign('^')
    case IntBinary(Bits(BitAnd), _, _) => k == 4 && t == Sign('&')
    case IntBinary(Compare(Equal), _, _) => k == 5 && t == EqTok
    case IntBinary(Compare(NotEqual), _, _) => k == 5 && t == NeTok
    case IntBinary(Compare(Less), _, _) => k == 6 && t == Sign('<')
    case IntBinary(Compare(Greater), _, _) => k == 6 && t == Sign('>')
    case IntBinary(Compare(LessEq), _, _) => k == 6 && t == LeTok
    case IntBinary(Compare(GreaterEq), _, _) => k == 6 && t == GeTok
    case StrCat(_, _, glue) => k == 7 && t == ConcatTok(glue)
    case StrEq(_, _, eq) => k == 7 && t == if eq then StrEqTok else StrNeTok
    case IntBinary(Bits(ShiftLeft), _, _) => k == 8 && t == ShlTok
    case IntBinary(Bits(ShiftRight), _, _) => k == 8 && t == ShrTok
    case FloatBinary(Add, _, _) => k == 9 && t == Sign('+')
    case FloatBinary(Sub, _, _) => k == 9 && t == Sign('-')
    case FloatBinary(Mul, _, _) => k == 10 && t == Sign('*')
    case FloatBinary(Div, _, _) => k == 10 && t == Sign('/')
    case FloatBinary(Mod, _, _) => k == 10 && t == Sign('%')
    case _ => false
  }

  /** `e` is an operand that reaches from `pos` to `q`: what a unary operator in front would take. */
  ghost predicate Operand(ts: seq<Token>, pos: nat, one: F64, e: Expr, q: nat) {
    ParseExpr(ts, pos, UNARY_POWER, one) == Tree(e, q)
  }

  /** The expression from `pos` on is `e` and reaches to `q`. */
  ghost predicate Whole(ts: seq<Token>, pos: nat, one: F64, e: Expr, q: nat) {
    ParseExpr(ts, pos, 0, one) == Tree(e, q)
  }

  /** Nothing here goes on with an expression: the end, or what closes or separates expressions. */
  predicate Over(ts: seq<Token>, q: nat) {
    q >= |ts| || ts[q] in {Sign(')'), Sign(']'), Sign(','), Sign(':'), OtherTok}
  }

  // ----- binding powers serve the tiers -----

  lemma TierPower(k: nat, t: Token, e: Expr)
    requires Operator(k, t, e)
    ensures k <= 10 && Lbp(t) == [20, 30, 40, 45, 50, 60, 70, 75, 80, 90, 100][k]
    ensures IsBinary(e) && OperatorOf(e) == t
  {
  }

  lemma TierOrder(j: nat, o: Token, x: Expr, k: nat, p: Token, y: Expr)
    requires Operator(j, o, x) && Operator(k, p, y)
    ensures 20 <= Lbp(o) <= 100 && 20 <= Lbp(p) <= 100 && (j < k <==> Lbp(o) < Lbp(p))
    ensures IsBinary(x) && OperatorOf(x) == o && IsBinary(y) && OperatorOf(y) == p
  {
    TierPower(j, o, x);
    TierPower(k, p, y);
  }

  lemma OverStops(ts: seq<Token>, q: nat)
    requires Over(ts, q)
    ensures Lbp(LookAhead(ts, q)) == 0
  {
  }

  /** Parsing with more allowed goes on from where parsing with less stopped. */
  lemma {:induction false} InfixGoesOn(ts: seq<Token>, left: Expr, pos: nat, r0: nat, r1: nat, one: F64)
    requires pos <= |ts| && r0 <= r1 && Infix(ts, left, pos, r1, one).Tree?
    ensures var r := Infix(ts, left, pos, r1, one);
      Infix(ts, left, pos, r0, one) == Infix(ts, r.e, r.pos, r0, one)
    decreases |ts| - pos
  {
    hide Led, ParseExpr, Lbp;
    if Lbp(LookAhead(ts, pos)) > r1 {
      PastTheEnd(ts, pos);
      var step := Led(ts, ts[pos], left, pos + 1, one);
      InfixGoesOn(ts, step.e, step.pos, r0, r1, one);
    }
  }

  lemma ExprGoesOn(ts: seq<Token>, pos: nat, r0: nat, r1: nat, one: F64)
    requires r0 <= r1 && ParseExpr(ts, pos, r1, one).Tree?
    ensures var r := ParseExpr(ts, pos, r1, one);
      r.pos <= |ts| && ParseExpr(ts, pos, r0, one) == Infix(ts, r.e, r.pos, r0, one)
  {
    hide Prefix, Led, Infix;
    var left := Prefix(ts, ts[pos], pos + 1, one);
    InfixGoesOn(ts, left.e, left.pos, r0, r1, one);
  }

  lemma OperandGoesOn(ts: seq<Token>, pos: nat, one: F64, e: Expr, q: nat, rbp: nat)
    requires Operand(ts, pos, one, e, q) && rbp <= UNARY_POWER
    ensures q <= |ts| && ParseExpr(ts, pos, rbp, one) == Infix(ts, e, q, rbp, one)
  {
    ExprGoesOn(ts, pos, rbp, UNARY_POWER, one);
  }

  /** An operator of more than the power asked takes its right operand and makes its tree. */
  lemma Takes(ts: seq<Token>, q: nat, rbp: nat, one: F64, k: nat, x: Expr, end: nat)
    requires q < |ts| && Operator(k, ts[q], x) && Lbp(ts[q]) > rbp
    requires ParseExpr(ts, q + 1, Lbp(ts[q]), one) == Tree(x.right, end)
    ensures end <= |ts| && Infix(ts, x.left, q, rbp, one) == Infix(ts, x, end, rbp, one)
  {
    TierPower(k, ts[q], x);
    BinaryParses(ts, x, q, one, end);
    hide ParseExpr, Led, Lbp;
    InfixTakes(ts, x.left, q, rbp, one, x, end);
  }

  /** The operator stops before one that binds no tighter, and takes the next operand alone. */
  lemma TakesOperand(ts: seq<Token>, q: nat, rbp: nat, one: F64, k: nat, x: Expr, end: nat)
    requires q < |ts| && Operator(k, ts[q], x) && Lbp(ts[q]) > rbp
    requires Operand(ts, q + 1, one, x.right, end) && Lbp(LookAhead(ts, end)) <= Lbp(ts[q])
    ensures end <= |ts| && Infix(ts, x.left, q, rbp, one) == Infix(ts, x, end, rbp, one)
  {
    TierPower(k, ts[q], x);
    hide ParseExpr, Led, Lbp, Operator;
    OperandGoesOn(ts, q + 1, one, x.right, end, Lbp(ts[q]));
    InfixStops(ts, x.right, end, Lbp(ts[q]), one);
    Takes(ts, q, rbp, one, k, x, end);
  }

  // ----- two operators -----

  /**
    Operands `a`, `b` and `c` with operators between them and nothing behind: a tighter second operator takes
    `b` from the first, and otherwise, of the same tier too, the first comes first.
   */
  lemma TwoOperators(ts: seq<Token>, pos: nat, one: F64, a: Expr, b: Expr, c: Expr, q0: nat, q1: nat, q2: nat,
      j: nat, k: nat, x: Expr, y: Expr)
    requires Operand(ts, pos, one, a, q0) && q0 < |ts| && Operator(j, ts[q0], x)
    requires Operand(ts, q0 + 1, one, b, q1) && q1 < |ts| && Operator(k, ts[q1], y)
    requires Operand(ts, q1 + 1, one, c, q2) && Over(ts, q2)
    requires if j < k then x.left == a && x.right == y && y.left == b && y.right == c
             else y.left == x && y.right == c && x.left == a && x.right == b
    ensures Whole(ts, pos, one, if j < k then x else y, q2)
  {
    TierOrder(j, ts[q0], x, k, ts[q1], y);
    OverStops(ts, q2);
    hide ParseExpr, Led, Lbp, Operator, Over;
    OperandGoesOn(ts, pos, one, a, q0, 0);
    if j < k {
      OperandGoesOn(ts, q0 + 1, one, b, q1, Lbp(ts[q0]));
      TakesOperand(ts, q1, Lbp(ts[q0]), one, k, y, q2);
      InfixStops(ts, y, q2, Lbp(ts[q0]), one);
      Takes(ts, q0, 0, one, j, x, q2);
      InfixStops(ts, x, q2, 0, one);
    } else {
      TakesOperand(ts, q0, 0, one, j, x, q1);
      TakesOperand(ts, q1, 0, one, k, y, q2);
      InfixStops(ts, y, q2, 0, one);
    }
  }

  // ----- what binds tighter than any operator -----

  /** A unary operator takes one operand, whatever operator follows. */
  lemma UnaryOperand(ts: seq<Token>, pos: nat, one: F64, e: Expr, q: nat)
    requires e.IntUnary? || e.FloatUnary?
    requires pos < |ts| && ts[pos] == Sign(if e.FloatUnary? then '-' else if e.uop == Not then '!' else '~')
    requires Operand(ts, pos + 1, one, e.operand, q)
    ensures Operand(ts, pos, one, e, q)
  {
    EndsAtWeaker(ts, pos + 1, UNARY_POWER, one);
    UnaryParses(ts, pos, one, e, q);
    hide Prefix, Led, Lbp;
    InfixStops(ts, e, q, UNARY_POWER, one);
  }

  /** No suffix goes on here: an operator comes, a `?`, an assignment, or nothing of the expression. */
  ghost predicate NoSuffixAt(ts: seq<Token>, q: nat) {
    Over(ts, q) || ts[q] in {Sign('?'), Sign('=')} || ts[q].AssignTok? || exists k, x :: Operator(k, ts[q], x)
  }

  lemma NoSuffixStops(ts: seq<Token>, q: nat)
    requires NoSuffixAt(ts, q)
    ensures Lbp(LookAhead(ts, q)) <= 100 && !Is(ts, q, '(') && LookAhead(ts, q) != ColonColonTok
  {
    if k, x :| q < |ts| && Operator(k, ts[q], x) {
      TierPower(k, ts[q], x);
    }
  }

  /** A number, a string, a name or a variable by itself. */
  lemma TokenOperand(ts: seq<Token>, pos: nat, one: F64, e: Expr)
    requires pos < |ts| && NoSuffixAt(ts, pos + 1)
    requires match e
      case IntLit(n) => 0 <= n < 0x8000_0000 && ts[pos] == IntTok(n)
      case FloatLit(f) => ts[pos] == FloatTok(f)
      case StrLit(s) => ts[pos] == StringTok(s)
      case Constant(name) => ts[pos] == NameTok(name)
      case Var(name, sub) => sub.Absent? && ts[pos] == VarTok(name)
      case _ => false
    ensures Operand(ts, pos, one, e, pos + 1)
  {
    NoSuffixStops(ts, pos + 1);
    assert Prefix(ts, ts[pos], pos + 1, one) == Tree(e, pos + 1);
    hide Lbp, NoSuffixAt, Led, Prefix;
    StartsWith(ts, pos, UNARY_POWER, one, e, pos + 1);
    InfixStops(ts, e, pos + 1, UNARY_POWER, one);
  }

  /** Whatever stands in parentheses. */
  lemma GroupOperand(ts: seq<Token>, pos: nat, one: F64, e: Expr, q: nat)
    requires pos < |ts| && ts[pos] == Sign('(') && Whole(ts, pos + 1, one, e, q) && Is(ts, q, ')')
    requires NoSuffixAt(ts, q + 1)
    ensures Operand(ts, pos, one, e, q + 1)
  {
    NoSuffixStops(ts, q + 1);
    GroupParses(ts, pos, one, e, q);
    hide Lbp, NoSuffixAt, Led, Prefix;
    InfixStops(ts, e, q + 1, UNARY_POWER, one);
  }

  /** An element, whatever its index. */
  lemma ElementOperand(ts: seq<Token>, pos: nat, one: F64, name: CString, i: Expr, q: nat)
    requires pos + 1 < |ts| && ts[pos] == VarTok(name) && ts[pos + 1] == Sign('[')
    requires Whole(ts, pos + 2, one, i, q) && Is(ts, q, ']') && NoSuffixAt(ts, q + 1)
    ensures Operand(ts, pos, one, Var(name, Present(i)), q + 1)
  {
    NoSuffixStops(ts, q + 1);
    IndexStarts(ts, pos + 2, i, q, one);
    IndexStops(ts, i, q, one);
    IndexedParses(ts, name, pos + 1, one, i, q);
    VarPrefix(ts, pos, name, one);
    assert Lbp(ts[pos + 1]) > UNARY_POWER;
    hide Lbp, NoSuffixAt, Led, Prefix, ParseIndex;
    StartsWith(ts, pos, UNARY_POWER, one, Var(name, Absent), pos + 1);
    InfixTakes(ts, Var(name, Absent), pos + 1, UNARY_POWER, one, Var(name, Present(i)), q + 1);
    InfixStops(ts, Var(name, Present(i)), q + 1, UNARY_POWER, one);
  }

  /** `x++` and `x--`, which add and subtract one, are operands too: `-x++` negates what they give. */
  lemma SuffixOperand(ts: seq<Token>, pos: nat, one: F64, name: CString)
    requires pos + 1 < |ts| && ts[pos] == VarTok(name) && ts[pos + 1] in {PlusPlusTok, MinusMinusTok}
    requires NoSuffixAt(ts, pos + 2)
    ensures var op := if ts[pos + 1] == PlusPlusTok then Add else Sub;
      Operand(ts, pos, one, AssignOp(name, Absent, FloatAssign(op), FloatLit(one)), pos + 2)
  {
    NoSuffixStops(ts, pos + 2);
    VarPrefix(ts, pos, name, one);
    assert Lbp(ts[pos + 1]) > UNARY_POWER;
    var op := if ts[pos + 1] == PlusPlusTok then Add else Sub;
    var e := AssignOp(name, Absent, FloatAssign(op), FloatLit(one));
    assert Led(ts, ts[pos + 1], Var(name, Absent), pos + 2, one) == Tree(e, pos + 2);
    hide Lbp, NoSuffixAt, Led, Prefix;
    StartsWith(ts, pos, UNARY_POWER, one, Var(name, Absent), pos + 1);
    InfixTakes(ts, Var(name, Absent), pos + 1, UNARY_POWER, one, e, pos + 2);
    InfixStops(ts, e, pos + 2, UNARY_POWER, one);
  }

  /** Three variables with any two operators between them. */
  lemma ThreeVariables(a: CString, b: CString, c: CString, o: Token, p: Token, one: F64, j: nat, k: nat, x: Expr,
      y: Expr)
    requires Operator(j, o, x) && Operator(k, p, y)
    requires var u, v, w := Var(a, Absent), Var(b, Absent), Var(c, Absent);
      if j < k then x.left == u && x.right == y && y.left == v && y.right == w
      else y.left == x && y.right == w && x.left == u && x.right == v
    ensures Whole([VarTok(a), o, VarTok(b), p, VarTok(c)], 0, one, if j < k then x else y, 5)
  {
    var ts := [VarTok(a), o, VarTok(b), p, VarTok(c)];
    hide ParseExpr, NoSuffixAt, Operator, Operand, Whole;
    OperatorIsNoSuffix(ts, 1, j, x);
    OperatorIsNoSuffix(ts, 3, k, y);
    OverIsNoSuffix(ts, 5);
    TokenOperand(ts, 0, one, Var(a, Absent));
    TokenOperand(ts, 2, one, Var(b, Absent));
    TokenOperand(ts, 4, one, Var(c, Absent));
    TwoOperators(ts, 0, one, Var(a, Absent), Var(b, Absent), Var(c, Absent), 1, 3, 5, j, k, x, y);
  }

  lemma OperatorIsNoSuffix(ts: seq<Token>, q: nat, k: nat, x: Expr)
    requires q < |ts| && Operator(k, ts[q], x)
    ensures NoSuffixAt(ts, q)
  {
  }

  lemma OverIsNoSuffix(ts: seq<Token>, q: nat)
    requires Over(ts, q)
    ensures NoSuffixAt(ts, q)
  {
  }

  // ----- conditionals and assignments below the operators -----

  /** An operator between operands, with nothing that binds tighter behind. */
  lemma OneOperator(ts: seq<Token>, pos: nat, one: F64, k: nat, x: Expr, q0: nat, q1: nat, rbp: nat)
    requires q0 < |ts| && Operator(k, ts[q0], x) && Operand(ts, pos, one, x.left, q0)
    requires Operand(ts, q0 + 1, one, x.right, q1) && Lbp(LookAhead(ts, q1)) < 20 && rbp < 20
    ensures q1 <= |ts| && ParseExpr(ts, pos, rbp, one) == Infix(ts, x, q1, rbp, one)
  {
    TierPower(k, ts[q0], x);
    hide ParseExpr, Led, Lbp;
    OperandGoesOn(ts, pos, one, x.left, q0, rbp);
    TakesOperand(ts, q0, rbp, one, k, x, q1);
  }

  lemma ConditionalTakes(ts: seq<Token>, test: Expr, pos: nat, one: F64, m: Expr, q: nat, b: Expr, end: nat)
    requires pos < |ts| && ts[pos] == Sign('?') && Whole(ts, pos + 1, one, m, q) && q < |ts| && ts[q] == Sign(':')
    requires ParseExpr(ts, q + 1, 14, one) == Tree(b, end)
    ensures end <= |ts| && Infix(ts, test, pos, 0, one) == Infix(ts, Conditional(test, m, b), end, 0, one)
  {
    var e := Conditional(test, m, b);
    ConditionalParses(ts, e, pos, one, q, end);
    assert Lbp(ts[pos]) > 0;
    hide ParseExpr, Led, Lbp;
    InfixTakes(ts, test, pos, 0, one, e, end);
  }

  /** The `?` takes a whole operator and its operands as the test, and all that follows the `:`. */
  lemma ConditionalBelow(ts: seq<Token>, pos: nat, one: F64, k: nat, x: Expr, q0: nat, q1: nat, m: Expr, q2: nat,
      l: nat, y: Expr, q3: nat, q4: nat)
    requires q0 < |ts| && Operator(k, ts[q0], x) && Operand(ts, pos, one, x.left, q0)
    requires Operand(ts, q0 + 1, one, x.right, q1) && q1 < |ts| && ts[q1] == Sign('?')
    requires Whole(ts, q1 + 1, one, m, q2) && q2 < |ts| && ts[q2] == Sign(':')
    requires q3 < |ts| && Operator(l, ts[q3], y) && Operand(ts, q2 + 1, one, y.left, q3)
    requires Operand(ts, q3 + 1, one, y.right, q4) && Over(ts, q4)
    ensures Whole(ts, pos, one, Conditional(x, m, y), q4)
  {
    OverStops(ts, q4);
    assert Lbp(ts[q1]) < 20;
    hide ParseExpr, Led, Lbp, Operator, Over;
    OneOperator(ts, pos, one, k, x, q0, q1, 0);
    OneOperator(ts, q2 + 1, one, l, y, q3, q4, 14);
    InfixStops(ts, y, q4, 14, one);
    ConditionalTakes(ts, x, q1, one, m, q2, y, q4);
    InfixStops(ts, Conditional(x, m, y), q4, 0, one);
  }

  /** Conditionals group to the right. */
  lemma ConditionalsNest(ts: seq<Token>, pos: nat, one: F64, a: Expr, q0: nat, m: Expr, q1: nat, b: Expr, q2: nat,
      n: Expr, q3: nat, c: Expr, q4: nat)
    requires Operand(ts, pos, one, a, q0) && q0 < |ts| && ts[q0] == Sign('?')
    requires Whole(ts, q0 + 1, one, m, q1) && q1 < |ts| && ts[q1] == Sign(':')
    requires Operand(ts, q1 + 1, one, b, q2) && q2 < |ts| && ts[q2] == Sign('?')
    requires Whole(ts, q2 + 1, one, n, q3) && q3 < |ts| && ts[q3] == Sign(':')
    requires Operand(ts, q3 + 1, one, c, q4) && Over(ts, q4)
    ensures Whole(ts, pos, one, Conditional(a, m, Conditional(b, n, c)), q4)
  {
    OverStops(ts, q4);
    assert Lbp(ts[q2]) > 14;
    var e := Conditional(b, n, c);
    hide Led, Lbp, Over;
    hide ParseExpr;
    OperandGoesOn(ts, q3 + 1, one, c, q4, 14);
    InfixStops(ts, c, q4, 14, one);
    ConditionalParses(ts, e, q2, one, q3, q4);
    OperandGoesOn(ts, q1 + 1, one, b, q2, 14);
    InfixTakes(ts, b, q2, 14, one, e, q4);
    InfixStops(ts, e, q4, 14, one);
    OperandGoesOn(ts, pos, one, a, q0, 0);
    ConditionalTakes(ts, a, q0, one, m, q1, e, q4);
    InfixStops(ts, Conditional(a, m, e), q4, 0, one);
  }

  /** Nothing binds with a power from 1 to 9. */
  lemma {:induction false} AllOrAssign(ts: seq<Token>, left: Expr, pos: nat, one: F64)
    requires pos <= |ts|
    ensures Infix(ts, left, pos, 9, one) == Infix(ts, left, pos, 0, one)
    decreases |ts| - pos
  {
    assert Lbp(LookAhead(ts, pos)) == 0 || Lbp(LookAhead(ts, pos)) > 9;
    hide Led, Lbp;
    if Lbp(LookAhead(ts, pos)) > 9 {
      PastTheEnd(ts, pos);
      var step := Led(ts, ts[pos], left, pos + 1, one);
      if step.Tree? {
        AllOrAssign(ts, step.e, step.pos, one);
      }
    }
  }

  lemma AssignTakesAll(ts: seq<Token>, pos: nat, one: F64)
    ensures ParseExpr(ts, pos, 9, one) == ParseExpr(ts, pos, 0, one)
  {
    if pos < |ts| {
      var left := Prefix(ts, ts[pos], pos + 1, one);
      hide Prefix, Infix, Led;
      if left.Tree? {
        AllOrAssign(ts, left.e, left.pos, one);
      }
    }
  }

  /** An assignment takes all that follows: operators, conditionals and further assignments. */
  lemma AssignBelow(ts: seq<Token>, pos: nat, one: F64, q0: nat, e: Expr, end: nat)
    requires e.Assign? || e.AssignOp?
    requires Operand(ts, pos, one, Var(e.name, e.sub), q0) && q0 < |ts| && ts[q0] == AssignSign(e)
    requires Whole(ts, q0 + 1, one, e.rhs, end) && Over(ts, end)
    ensures Whole(ts, pos, one, e, end)
  {
    OverStops(ts, end);
    assert Lbp(ts[q0]) > 0;
    AssignTakesAll(ts, q0 + 1, one);
    hide ParseExpr, Led, Lbp, Over;
    AssignParses(ts, e, q0, one, end);
    OperandGoesOn(ts, pos, one, Var(e.name, e.sub), q0, 0);
    InfixTakes(ts, Var(e.name, e.sub), q0, 0, one, e, end);
    InfixStops(ts, e, end, 0, one);
  }

  /** Nothing but a variable or an element can be assigned; an error behind the sign comes first. */
  lemma OnlyVariablesAssigned(ts: seq<Token>, pos: nat, one: F64, a: Expr, q: nat)
    requires Operand(ts, pos, one, a, q) && q < |ts| && (ts[q] == Sign('=') || ts[q].AssignTok?)
    ensures var r := ParseExpr(ts, q + 1, 0, one);
      && (r.Error? || r.Beyond? ==> ParseExpr(ts, pos, 0, one) == r)
      && (r.Tree? && !a.Var? ==> ParseExpr(ts, pos, 0, one) == Error)
      && (r.Hollow? ==> ParseExpr(ts, pos, 0, one) == if a.Var? then Hollow else Error)
  {
    AssignTakesAll(ts, q + 1, one);
    OperandGoesOn(ts, pos, one, a, q, 0);
    hide ParseExpr;
  }

  /** Nor is a conditional: what would be assigned to its last branch is an error. */
  lemma ConditionalNotAssigned(ts: seq<Token>, pos: nat, one: F64, a: Expr, q0: nat, m: Expr, q1: nat, b: Expr,
      q2: nat)
    requires Operand(ts, pos, one, a, q0) && q0 < |ts| && ts[q0] == Sign('?')
    requires Whole(ts, q0 + 1, one, m, q1) && q1 < |ts| && ts[q1] == Sign(':')
    requires Operand(ts, q1 + 1, one, b, q2) && q2 < |ts| && (ts[q2] == Sign('=') || ts[q2].AssignTok?)
    ensures ParseExpr(ts, q2 + 1, 0, one).Tree? ==> ParseExpr(ts, pos, 0, one) == Error
  {
    AssignTakesAll(ts, q2 + 1, one);
    assert Lbp(ts[q2]) <= 14;
    var e := Conditional(a, m, b);
    assert ParseExpr(ts, q2 + 1, 0, one).Tree? ==> Infix(ts, e, q2, 0, one) == Error by {
      hide ParseExpr;
    }
    hide ParseExpr, Led, Lbp;
    OperandGoesOn(ts, q1 + 1, one, b, q2, 14);
    InfixStops(ts, b, q2, 14, one);
    OperandGoesOn(ts, pos, one, a, q0, 0);
    ConditionalTakes(ts, a, q0, one, m, q1, b, q2);
  }

  /** A suffix behind anything else is an error. */
  lemma OnlyVariablesStepped(ts: seq<Token>, pos: nat, one: F64, e: Expr, q: nat, rbp: nat)
    requires pos < |ts| && Prefix(ts, ts[pos], pos + 1, one) == Tree(e, q) && !e.Var?
    requires q < |ts| && ts[q] in {PlusPlusTok, MinusMinusTok} && rbp <= UNARY_POWER
    ensures ParseExpr(ts, pos, rbp, one) == Error
  {
    assert Lbp(ts[q]) > UNARY_POWER;
    assert Led(ts, ts[q], e, q + 1, one) == Error;
    hide Prefix, Led;
    StartsWith(ts, pos, rbp, one, e, q);
  }

  /** Fields, methods and inner objects, which are accessed before anything else, are outside the model. */
  lemma AccessBeyond(ts: seq<Token>, pos: nat, one: F64, e: Expr, q: nat, rbp: nat)
    requires pos < |ts| && Prefix(ts, ts[pos], pos + 1, one) == Tree(e, q)
    requires q < |ts| && ts[q] in {Sign('.'), ArrowTok} && rbp <= UNARY_POWER
    ensures ParseExpr(ts, pos, rbp, one) == Beyond
  {
    assert Lbp(ts[q]) > UNARY_POWER;
    assert Led(ts, ts[q], e, q + 1, one) == Beyond;
    hide Prefix, Led;
    StartsWith(ts, pos, rbp, one, e, q);
  }
}
