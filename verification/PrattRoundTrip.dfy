/** Parsing what was printed gives the tree back, and stops right behind it. */
module PrattRoundTrip {
  import opened Values
  import opened Ast
  import opened Pratt

  ghost predicate At(ts: seq<Token>, pos: nat, c: seq<Token>) {
    pos + |c| <= |ts| && ts[pos..pos + |c|] == c
  }

  lemma AtSplit(ts: seq<Token>, pos: nat, a: seq<Token>, b: seq<Token>)
    requires At(ts, pos, a + b)
    ensures At(ts, pos, a) && At(ts, pos + |a|, b)
  {
    assert ts[pos..pos + |a|] == (a + b)[..|a|];
    assert ts[pos + |a|..pos + |a| + |b|] == (a + b)[|a|..];
  }

  lemma AtFirst(ts: seq<Token>, pos: nat, c: seq<Token>)
    requires At(ts, pos, c) && c != []
    ensures pos < |ts| && ts[pos] == c[0]
  {
  }

  /** Two parts with a token between them. */
  lemma AtParts(ts: seq<Token>, pos: nat, a: seq<Token>, t: Token, b: seq<Token>)
    requires At(ts, pos, a + [t] + b)
    ensures At(ts, pos, a) && pos + |a| < |ts| && ts[pos + |a|] == t && At(ts, pos + |a| + 1, b)
    ensures |a + [t] + b| == |a| + 1 + |b|
  {
    AtSplit(ts, pos, a + [t], b);
    AtSplit(ts, pos, a, [t]);
    AtFirst(ts, pos + |a|, [t]);
  }

  lemma PrintBinary(e: Expr)
    requires IsBinary(e)
    ensures Print(e) == PrintLeft(e.left, Level(e)) + [OperatorOf(e)] + PrintRight(e.right, Level(e))
  {
  }

  lemma PrintConditional(e: Expr)
    requires e.Conditional?
    ensures Print(e)
        == PrintLeft(e.test, 15) + [Sign('?')] + (PrintRight(e.whenTrue, 0) + [Sign(':')] + PrintRight(e.whenFalse, 14))
  {
    var c, a, b := PrintLeft(e.test, 15), PrintRight(e.whenTrue, 0), PrintRight(e.whenFalse, 14);
    assert c + [Sign('?')] + a + [Sign(':')] + b == c + [Sign('?')] + (a + [Sign(':')] + b);
  }

  function AssignSign(e: Expr): Token
    requires e.Assign? || e.AssignOp?
  {
    if e.Assign? then Sign('=') else AssignTok(e.aop)
  }

  lemma PrintAssign(e: Expr)
    requires e.Assign? || e.AssignOp?
    ensures Print(e) == PrintTarget(e.name, e.sub) + [AssignSign(e)] + PrintRight(e.rhs, 9)
  {
  }

  /** What may stand behind an expression whose last part must not run on past `power`. */
  predicate Stops(t: Token, power: nat) {
    Lbp(t) <= power && t != Sign('(') && t != ColonColonTok
  }

  // ----- single steps -----

  lemma InfixStops(ts: seq<Token>, e: Expr, pos: nat, rbp: nat, one: F64)
    requires pos <= |ts| && Lbp(LookAhead(ts, pos)) <= rbp
    ensures Infix(ts, e, pos, rbp, one) == Tree(e, pos)
  {
  }

  lemma InfixTakes(ts: seq<Token>, left: Expr, pos: nat, rbp: nat, one: F64, e: Expr, q: nat)
    requires pos < |ts| && Lbp(ts[pos]) > rbp && Led(ts, ts[pos], left, pos + 1, one) == Tree(e, q)
    ensures q <= |ts| && Infix(ts, left, pos, rbp, one) == Infix(ts, e, q, rbp, one)
  {
  }

  lemma StartsWith(ts: seq<Token>, pos: nat, rbp: nat, one: F64, e: Expr, q: nat)
    requires pos < |ts| && Prefix(ts, ts[pos], pos + 1, one) == Tree(e, q)
    ensures q <= |ts| && ParseExpr(ts, pos, rbp, one) == Infix(ts, e, q, rbp, one)
  {
  }

  lemma GroupParses(ts: seq<Token>, pos: nat, one: F64, e: Expr, q: nat)
    requires pos < |ts| && ts[pos] == Sign('(')
    requires ParseExpr(ts, pos + 1, 0, one) == Tree(e, q) && Is(ts, q, ')')
    ensures Prefix(ts, ts[pos], pos + 1, one) == Tree(e, q + 1)
  {
  }

  lemma UnaryParses(ts: seq<Token>, pos: nat, one: F64, e: Expr, q: nat)
    requires e.IntUnary? || e.FloatUnary?
    requires pos < |ts| && ts[pos] == Sign(if e.FloatUnary? then '-' else if e.uop == Not then '!' else '~')
    requires ParseExpr(ts, pos + 1, UNARY_POWER, one) == Tree(e.operand, q)
    ensures Prefix(ts, ts[pos], pos + 1, one) == Tree(e, q)
  {
  }

  predicate IsBinary(e: Expr) {
    e.FloatBinary? || e.IntBinary? || e.StrEq? || e.StrCat?
  }

  lemma OperatorPower(e: Expr)
    requires IsBinary(e)
    ensures 20 <= Lbp(OperatorOf(e)) <= 100 && Level(e) == Edge(e) == Lbp(OperatorOf(e))
    ensures Combine(OperatorOf(e), e.left, e.right) == Some(e)
    ensures var t := OperatorOf(e);
      t != Sign('[') && t != Sign('?') && t != Sign('=') && !t.AssignTok? && t != PlusPlusTok && t != MinusMinusTok
      && t != Sign('.') && t != ArrowTok && t != Sign('(') && t != ColonColonTok
  {
  }

  lemma BinaryParses(ts: seq<Token>, e: Expr, pos: nat, one: F64, q: nat)
    requires IsBinary(e) && pos < |ts| && ts[pos] == OperatorOf(e)
    requires ParseExpr(ts, pos + 1, Level(e), one) == Tree(e.right, q)
    ensures Led(ts, ts[pos], e.left, pos + 1, one) == Tree(e, q)
  {
    OperatorPower(e);
    hide OperatorOf, Lbp, Combine, ParseExpr;
    LedBinary(ts, ts[pos], e.left, pos + 1, one);
  }

  lemma LedBinary(ts: seq<Token>, t: Token, left: Expr, pos: nat, one: F64)
    requires pos <= |ts| && t != Sign('[') && t != Sign('?') && t != Sign('=') && !t.AssignTok?
    requires t != PlusPlusTok && t != MinusMinusTok && t != Sign('.') && t != ArrowTok
    ensures var r := ParseExpr(ts, pos, Lbp(t), one);
      r.Tree? && Combine(t, left, r.e).Some? ==> Led(ts, t, left, pos, one) == Tree(Combine(t, left, r.e).value, r.pos)
  {
  }

  lemma ConditionalParses(ts: seq<Token>, e: Expr, pos: nat, one: F64, m: nat, q: nat)
    requires e.Conditional? && pos < |ts| && ts[pos] == Sign('?')
    requires ParseExpr(ts, pos + 1, 0, one) == Tree(e.whenTrue, m) && Is(ts, m, ':')
    requires m < |ts| && ParseExpr(ts, m + 1, 14, one) == Tree(e.whenFalse, q)
    ensures Led(ts, ts[pos], e.test, pos + 1, one) == Tree(e, q)
  {
  }

  lemma AssignParses(ts: seq<Token>, e: Expr, pos: nat, one: F64, q: nat)
    requires e.Assign? || e.AssignOp?
    requires pos < |ts| && ts[pos] == AssignSign(e)
    requires ParseExpr(ts, pos + 1, 9, one) == Tree(e.rhs, q)
    ensures Led(ts, ts[pos], Var(e.name, e.sub), pos + 1, one) == Tree(e, q)
  {
  }

  lemma IndexedParses(ts: seq<Token>, name: CString, pos: nat, one: F64, idx: Expr, q: nat)
    requires pos < |ts| && ts[pos] == Sign('[')
    requires ParseIndex(ts, pos + 1, one) == Tree(idx, q) && Is(ts, q, ']')
    ensures Led(ts, ts[pos], Var(name, Absent), pos + 1, one) == Tree(Var(name, Present(idx)), q + 1)
  {
  }

  /** A subtree that needs no parentheses under `rbp` may be followed by what stops there. */
  lemma EdgeBelowLevel(e: Expr, power: nat)
    requires Level(e) > power && power <= UNARY_POWER
    ensures Edge(e) >= power
  {
  }

  // ----- the round trip -----

  /** Parsing printed text comes to where the infix loop holds its tree. */
  ghost predicate Arrives(ts: seq<Token>, pos: nat, c: seq<Token>, e: Expr, rbp: nat, one: F64) {
    pos + |c| <= |ts| && ParseExpr(ts, pos, rbp, one) == Infix(ts, e, pos + |c|, rbp, one)
  }

  lemma {:induction false} Parses(ts: seq<Token>, pos: nat, e: Expr, rbp: nat, one: F64)
    requires Printable(e) && At(ts, pos, Print(e)) && rbp < Level(e) && rbp <= UNARY_POWER
    requires Stops(LookAhead(ts, pos + |Print(e)|), Edge(e))
    ensures Arrives(ts, pos, Print(e), e, rbp, one)
    decreases e, 0
  {
    hide ParseExpr, Prefix, Infix, Led, ParseIndex, MoreIndex, Lbp, Stops;
    match e
    case IntLit(_) | FloatLit(_) | StrLit(_) | Constant(_) => LiteralParses(ts, pos, e, rbp, one);
    case Var(name, sub) => TargetParses(ts, pos, name, sub, rbp, one);
    case FloatBinary(_, _, _) | IntBinary(_, _, _) | StrEq(_, _, _) | StrCat(_, _, _) =>
      BinaryRoundTrip(ts, pos, e, rbp, one);
    case IntUnary(_, _) | FloatUnary(_) => UnaryRoundTrip(ts, pos, e, rbp, one);
    case Conditional(_, _, _) => ConditionalRoundTrip(ts, pos, e, rbp, one);
    case Assign(_, _, _) | AssignOp(_, _, _, _) => AssignRoundTrip(ts, pos, e, rbp, one);
  }

  lemma LiteralParses(ts: seq<Token>, pos: nat, e: Expr, rbp: nat, one: F64)
    requires e.IntLit? || e.FloatLit? || e.StrLit? || e.Constant?
    requires Printable(e) && At(ts, pos, Print(e)) && Stops(LookAhead(ts, pos + 1), Edge(e))
    ensures Arrives(ts, pos, Print(e), e, rbp, one)
  {
    AtFirst(ts, pos, Print(e));
    LiteralPrefix(ts, pos, e, one);
    hide Prefix, Infix, ParseExpr;
    StartsWith(ts, pos, rbp, one, e, pos + 1);
  }

  lemma LiteralPrefix(ts: seq<Token>, pos: nat, e: Expr, one: F64)
    requires e.IntLit? || e.FloatLit? || e.StrLit? || e.Constant?
    requires Printable(e) && pos < |ts| && ts[pos] == Print(e)[0] && Stops(LookAhead(ts, pos + 1), 200)
    ensures Prefix(ts, ts[pos], pos + 1, one) == Tree(e, pos + 1)
  {
    hide ParseExpr;
  }

  lemma {:induction false} TargetParses(ts: seq<Token>, pos: nat, name: CString, sub: OptExpr, rbp: nat, one: F64)
    requires PrintableTarget(sub) && At(ts, pos, PrintTarget(name, sub)) && rbp <= UNARY_POWER
    ensures Arrives(ts, pos, PrintTarget(name, sub), Var(name, sub), rbp, one)
    decreases sub
  {
    hide Infix, Led, ParseIndex, MoreIndex, ParseExpr, PrintIndex, Prefix, At, Lbp;
    match sub
    case Absent =>
      AtFirst(ts, pos, [VarTok(name)]);
      VarPrefix(ts, pos, name, one);
      StartsWith(ts, pos, rbp, one, Var(name, Absent), pos + 1);
    case Present(e) =>
      var inner := PrintIndex(e);
      TargetLayout(ts, pos, name, inner);
      VarPrefix(ts, pos, name, one);
      StartsWith(ts, pos, rbp, one, Var(name, Absent), pos + 1);
      IndexParses(ts, pos + 2, e, one);
      IndexStops(ts, e, pos + 2 + |inner|, one);
      IndexedParses(ts, name, pos + 1, one, e, pos + 2 + |inner|);
      BracketBinds();
      InfixTakes(ts, Var(name, Absent), pos + 1, rbp, one, Var(name, sub), pos + 3 + |inner|);
  }

  lemma BracketBinds()
    ensures Lbp(Sign('[')) > UNARY_POWER
  {
  }

  lemma TargetLayout(ts: seq<Token>, pos: nat, name: CString, inner: seq<Token>)
    requires At(ts, pos, [VarTok(name), Sign('[')] + inner + [Sign(']')])
    ensures pos + 3 + |inner| <= |ts| && ts[pos] == VarTok(name) && ts[pos + 1] == Sign('[')
    ensures At(ts, pos + 2, inner) && ts[pos + 2 + |inner|] == Sign(']')
  {
    var front := [VarTok(name), Sign('[')];
    AtSplit(ts, pos, front + inner, [Sign(']')]);
    AtSplit(ts, pos, front, inner);
    AtFirst(ts, pos + 2 + |inner|, [Sign(']')]);
    assert ts[pos..pos + 2] == front;
    assert ts[pos] == ts[pos..pos + 2][0] && ts[pos + 1] == ts[pos..pos + 2][1];
  }

  lemma VarPrefix(ts: seq<Token>, pos: nat, name: CString, one: F64)
    requires pos < |ts| && ts[pos] == VarTok(name)
    ensures Prefix(ts, ts[pos], pos + 1, one) == Tree(Var(name, Absent), pos + 1)
  {
  }

  lemma IndexStops(ts: seq<Token>, e: Expr, pos: nat, one: F64)
    requires pos < |ts| && ts[pos] == Sign(']')
    ensures MoreIndex(ts, e, pos, one) == Tree(e, pos)
  {
  }

  lemma IndexGoesOn(ts: seq<Token>, head: Expr, pos: nat, e: Expr, q: nat, one: F64)
    requires pos < |ts| && ts[pos] == Sign(',') && ParseExpr(ts, pos + 1, 0, one) == Tree(e, q)
    ensures q <= |ts| && MoreIndex(ts, head, pos, one) == MoreIndex(ts, CommaCat(head, e), q, one)
  {
  }

  lemma IndexStarts(ts: seq<Token>, pos: nat, e: Expr, q: nat, one: F64)
    requires pos <= |ts| && ParseExpr(ts, pos, 0, one) == Tree(e, q)
    ensures q <= |ts| && ParseIndex(ts, pos, one) == MoreIndex(ts, e, q, one)
  {
  }

  lemma {:induction false} IndexParses(ts: seq<Token>, pos: nat, e: Expr, one: F64)
    requires PrintableIndex(e) && At(ts, pos, PrintIndex(e))
    requires var t := LookAhead(ts, pos + |PrintIndex(e)|); t == Sign(']') || t == Sign(',')
    ensures pos + |PrintIndex(e)| <= |ts|
    ensures ParseIndex(ts, pos, one) == MoreIndex(ts, e, pos + |PrintIndex(e)|, one)
    decreases e, 2
  {
    hide ParseExpr, Infix, ParseIndex, MoreIndex, Print, Level, Edge;
    if e.CommaCat? {
      var l, r := PrintIndex(e.left), Print(e.right);
      AtSplit(ts, pos, l + [Sign(',')], r);
      AtSplit(ts, pos, l, [Sign(',')]);
      AtFirst(ts, pos + |l|, [Sign(',')]);
      IndexParses(ts, pos, e.left, one);
      Whole(ts, pos + |l| + 1, e.right, one);
      IndexGoesOn(ts, e.left, pos + |l|, e.right, pos + |l| + 1 + |r|, one);
    } else {
      Whole(ts, pos, e, one);
      IndexStarts(ts, pos, e, pos + |Print(e)|, one);
    }
  }

  /** Between brackets of any kind: nothing that follows binds. */
  lemma {:induction false} Whole(ts: seq<Token>, pos: nat, e: Expr, one: F64)
    requires Printable(e) && At(ts, pos, Print(e)) && Stops(LookAhead(ts, pos + |Print(e)|), 0)
    ensures ParseExpr(ts, pos, 0, one) == Tree(e, pos + |Print(e)|)
    decreases e, 1
  {
    hide ParseExpr, Infix, Print;
    LevelPositive(e);
    Parses(ts, pos, e, 0, one);
    InfixStops(ts, e, pos + |Print(e)|, 0, one);
  }

  lemma LevelPositive(e: Expr)
    ensures Level(e) > 0
  {
  }

  lemma {:induction false} WrappedParses(ts: seq<Token>, pos: nat, e: Expr, rbp: nat, one: F64)
    requires Printable(e) && At(ts, pos, Wrapped(e))
    ensures Arrives(ts, pos, Wrapped(e), e, rbp, one)
    decreases e, 2
  {
    hide ParseExpr, Infix, Prefix, Print;
    var inner := Print(e);
    AtSplit(ts, pos, [Sign('(')] + inner, [Sign(')')]);
    AtSplit(ts, pos, [Sign('(')], inner);
    AtFirst(ts, pos, [Sign('(')]);
    AtFirst(ts, pos + 1 + |inner|, [Sign(')')]);
    Whole(ts, pos + 1, e, one);
    GroupParses(ts, pos, one, e, pos + 1 + |inner|);
    StartsWith(ts, pos, rbp, one, e, pos + 2 + |inner|);
  }

  lemma {:induction false} LeftParses(ts: seq<Token>, pos: nat, e: Expr, power: nat, rbp: nat, one: F64)
    requires Printable(e) && At(ts, pos, PrintLeft(e, power)) && rbp < power && rbp <= UNARY_POWER
    requires Stops(LookAhead(ts, pos + |PrintLeft(e, power)|), power)
    ensures Arrives(ts, pos, PrintLeft(e, power), e, rbp, one)
    decreases e, 3
  {
    hide Arrives, Print, Wrapped, Level, Edge;
    if Level(e) >= power && Edge(e) >= power {
      Parses(ts, pos, e, rbp, one);
    } else {
      WrappedParses(ts, pos, e, rbp, one);
    }
  }

  lemma {:induction false} RightParses(ts: seq<Token>, pos: nat, e: Expr, rbp: nat, one: F64)
    requires Printable(e) && At(ts, pos, PrintRight(e, rbp)) && rbp <= UNARY_POWER
    requires Stops(LookAhead(ts, pos + |PrintRight(e, rbp)|), rbp)
    ensures ParseExpr(ts, pos, rbp, one) == Tree(e, pos + |PrintRight(e, rbp)|)
    decreases e, 3
  {
    hide ParseExpr, Infix, Print, Wrapped, Level, Edge;
    if Level(e) > rbp {
      EdgeBelowLevel(e, rbp);
      Parses(ts, pos, e, rbp, one);
    } else {
      WrappedParses(ts, pos, e, rbp, one);
    }
    InfixStops(ts, e, pos + |PrintRight(e, rbp)|, rbp, one);
  }

  lemma {:induction false} BinaryRoundTrip(ts: seq<Token>, pos: nat, e: Expr, rbp: nat, one: F64)
    requires IsBinary(e) && Printable(e) && At(ts, pos, Print(e)) && rbp < Level(e) && rbp <= UNARY_POWER
    requires Stops(LookAhead(ts, pos + |Print(e)|), Edge(e))
    ensures Arrives(ts, pos, Print(e), e, rbp, one)
    decreases e, -1
  {
    hide ParseExpr, Infix, Led, Print, PrintLeft, PrintRight, Lbp, OperatorOf, Level, Edge, At;
    OperatorPower(e);
    PrintBinary(e);
    var l, r := PrintLeft(e.left, Level(e)), PrintRight(e.right, Level(e));
    var q := pos + |l|;
    AtParts(ts, pos, l, OperatorOf(e), r);
    LeftParses(ts, pos, e.left, Level(e), rbp, one);
    RightParses(ts, q + 1, e.right, Level(e), one);
    BinaryParses(ts, e, q, one, q + 1 + |r|);
    InfixTakes(ts, e.left, q, rbp, one, e, q + 1 + |r|);
  }

  lemma {:induction false} UnaryRoundTrip(ts: seq<Token>, pos: nat, e: Expr, rbp: nat, one: F64)
    requires (e.IntUnary? || e.FloatUnary?) && Printable(e) && At(ts, pos, Print(e)) && rbp <= UNARY_POWER
    requires Stops(LookAhead(ts, pos + |Print(e)|), Edge(e))
    ensures Arrives(ts, pos, Print(e), e, rbp, one)
    decreases e, -1
  {
    hide ParseExpr, Infix, Prefix, PrintRight;
    var sign := Sign(if e.FloatUnary? then '-' else if e.uop == Not then '!' else '~');
    var x := PrintRight(e.operand, UNARY_POWER);
    assert Print(e) == [sign] + x;
    AtSplit(ts, pos, [sign], x);
    AtFirst(ts, pos, [sign]);
    RightParses(ts, pos + 1, e.operand, UNARY_POWER, one);
    UnaryParses(ts, pos, one, e, pos + 1 + |x|);
    StartsWith(ts, pos, rbp, one, e, pos + 1 + |x|);
  }

  lemma {:induction false} ConditionalRoundTrip(ts: seq<Token>, pos: nat, e: Expr, rbp: nat, one: F64)
    requires e.Conditional? && Printable(e) && At(ts, pos, Print(e)) && rbp < 15
    requires Stops(LookAhead(ts, pos + |Print(e)|), 14)
    ensures Arrives(ts, pos, Print(e), e, rbp, one)
    decreases e, -1
  {
    hide ParseExpr, Infix, Led, Print, PrintLeft, PrintRight, At;
    PrintConditional(e);
    var c, a, b := PrintLeft(e.test, 15), PrintRight(e.whenTrue, 0), PrintRight(e.whenFalse, 14);
    var q := pos + |c|;
    var m := q + 1 + |a|;
    AtParts(ts, pos, c, Sign('?'), a + [Sign(':')] + b);
    AtParts(ts, q + 1, a, Sign(':'), b);
    LeftParses(ts, pos, e.test, 15, rbp, one);
    RightParses(ts, q + 1, e.whenTrue, 0, one);
    RightParses(ts, m + 1, e.whenFalse, 14, one);
    ConditionalParses(ts, e, q, one, m, m + 1 + |b|);
    InfixTakes(ts, e.test, q, rbp, one, e, m + 1 + |b|);
  }

  lemma {:induction false} AssignRoundTrip(ts: seq<Token>, pos: nat, e: Expr, rbp: nat, one: F64)
    requires (e.Assign? || e.AssignOp?) && Printable(e) && At(ts, pos, Print(e)) && rbp < 10
    requires Stops(LookAhead(ts, pos + |Print(e)|), 9)
    ensures Arrives(ts, pos, Print(e), e, rbp, one)
    decreases e, -1
  {
    hide ParseExpr, Infix, Led, Print, PrintTarget, PrintRight, At;
    PrintAssign(e);
    var v, r := PrintTarget(e.name, e.sub), PrintRight(e.rhs, 9);
    var q := pos + |v|;
    AtParts(ts, pos, v, AssignSign(e), r);
    TargetParses(ts, pos, e.name, e.sub, rbp, one);
    RightParses(ts, q + 1, e.rhs, 9, one);
    AssignParses(ts, e, q, one, q + 1 + |r|);
    InfixTakes(ts, Var(e.name, e.sub), q, rbp, one, e, q + 1 + |r|);
  }

  /**
    For every tree that has a text, anywhere in a token list and under any binding power it may stand
    under, parsing its text gives exactly that tree and stops exactly behind it - whatever token follows,
    so long as it binds no tighter.
   */
  lemma RoundTrip(before: seq<Token>, e: Expr, after: seq<Token>, rbp: nat, one: F64)
    requires Printable(e) && rbp < Level(e) && rbp <= UNARY_POWER
    requires after != [] ==> Stops(after[0], rbp)
    ensures ParseExpr(before + Print(e) + after, |before|, rbp, one) == Tree(e, |before| + |Print(e)|)
  {
    hide ParseExpr, Infix, Print, Level, Edge;
    var ts := before + Print(e) + after;
    var end := |before| + |Print(e)|;
    assert At(ts, |before|, Print(e));
    assert LookAhead(ts, end) == if after != [] then after[0] else OtherTok;
    EdgeBelowLevel(e, rbp);
    Parses(ts, |before|, e, rbp, one);
    InfixStops(ts, e, end, rbp, one);
  }

  /** Two trees with the same text are the same tree. */
  lemma PrintInjective(a: Expr, b: Expr, one: F64)
    requires Printable(a) && Printable(b) && Print(a) == Print(b)
    ensures a == b
  {
    hide ParseExpr, Print, Printable, Level;
    LevelPositive(a);
    LevelPositive(b);
    RoundTrip([], a, [], 0, one);
    RoundTrip([], b, [], 0, one);
  }

  /** On any tokens: where an expression ends, the next token binds no tighter than was asked. */
  lemma {:induction false} EndsAtWeaker(ts: seq<Token>, pos: nat, rbp: nat, one: F64)
    requires ParseExpr(ts, pos, rbp, one).Tree?
    ensures Lbp(LookAhead(ts, ParseExpr(ts, pos, rbp, one).pos)) <= rbp
  {
    hide Prefix, Led, Infix;
    var left := Prefix(ts, ts[pos], pos + 1, one);
    InfixEnds(ts, left.e, left.pos, rbp, one);
  }

  lemma {:induction false} InfixEnds(ts: seq<Token>, left: Expr, pos: nat, rbp: nat, one: F64)
    requires pos <= |ts| && Infix(ts, left, pos, rbp, one).Tree?
    ensures Lbp(LookAhead(ts, Infix(ts, left, pos, rbp, one).pos)) <= rbp
    decreases |ts| - pos
  {
    hide Led, ParseExpr, Lbp;
    if Lbp(LookAhead(ts, pos)) > rbp {
      PastTheEnd(ts, pos);
      var d := Led(ts, ts[pos], left, pos + 1, one);
      InfixEnds(ts, d.e, d.pos, rbp, one);
    }
  }

  lemma PastTheEnd(ts: seq<Token>, pos: nat)
    requires Lbp(LookAhead(ts, pos)) > 0
    ensures pos < |ts|
  {
  }
}
