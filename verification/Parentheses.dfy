/** The printer writes no pair of parentheses that could be left out. */
module Parentheses {
  import opened Values
  import opened Ast
  import opened Pratt
  import opened PrattRoundTrip

  function Opens(s: seq<Token>): nat {
    if s == [] then 0 else (if s[0] == Sign('(') then 1 else 0) + Opens(s[1..])
  }

  lemma {:induction false} OpensBoth(a: seq<Token>, b: seq<Token>)
    ensures Opens(a + b) == Opens(a) + Opens(b)
  {
    if a == [] {
      assert a + b == b;
    } else {
      assert (a + b)[1..] == a[1..] + b;
      OpensBoth(a[1..], b);
    }
  }

  lemma OpensOne(t: Token)
    ensures Opens([t]) == if t == Sign('(') then 1 else 0
  {
    assert [t][1..] == [];
  }

  predicate IsSuffix(t: Token) {
    t.PlusPlusTok? || t.MinusMinusTok?
  }

  /** The `++` and `--` of a text, which write an assignment that binds like a suffix. */
  function Suffixes(s: seq<Token>): nat {
    if s == [] then 0 else (if IsSuffix(s[0]) then 1 else 0) + Suffixes(s[1..])
  }

  lemma {:induction false} SuffixesBoth(a: seq<Token>, b: seq<Token>)
    ensures Suffixes(a + b) == Suffixes(a) + Suffixes(b)
  {
    if a == [] {
      assert a + b == b;
    } else {
      assert (a + b)[1..] == a[1..] + b;
      SuffixesBoth(a[1..], b);
    }
  }

  lemma SuffixesOne(t: Token)
    ensures Suffixes([t]) == if IsSuffix(t) then 1 else 0
  {
    assert [t][1..] == [];
  }

  lemma {:induction false} SuffixesNowhere(s: seq<Token>)
    requires NoSuffix(s)
    ensures Suffixes(s) == 0
  {
    if s != [] {
      SuffixesNowhere(s[1..]);
    }
  }

  /** The parentheses opened and the suffixes written between two places. */
  function Between(ts: seq<Token>, from: nat, to: nat): nat
    requires from <= to <= |ts|
  {
    Opens(ts[from..to]) + Suffixes(ts[from..to])
  }

  lemma BetweenBoth(ts: seq<Token>, a: nat, b: nat, c: nat)
    requires a <= b <= c <= |ts|
    ensures Between(ts, a, c) == Between(ts, a, b) + Between(ts, b, c)
  {
    OpensBoth(ts[a..b], ts[b..c]);
    SuffixesBoth(ts[a..b], ts[b..c]);
    assert ts[a..c] == ts[a..b] + ts[b..c];
  }

  lemma BetweenOne(ts: seq<Token>, a: nat)
    requires a < |ts|
    ensures Between(ts, a, a + 1) == if ts[a] == Sign('(') || IsSuffix(ts[a]) then 1 else 0
  {
    OpensOne(ts[a]);
    SuffixesOne(ts[a]);
    assert ts[a..a + 1] == [ts[a]];
  }

  // ----- how many pairs a tree's text has -----

  function Pairs(e: Expr): nat
    decreases e, 0
  {
    match e
    case IntLit(_) | FloatLit(_) | StrLit(_) | Constant(_) | CommaCat(_, _) => 0
    case Var(_, sub) => PairsTarget(sub)
    case FloatBinary(_, l, r) => PairsLeft(l, Level(e)) + PairsRight(r, Level(e))
    case IntBinary(_, l, r) => PairsLeft(l, Level(e)) + PairsRight(r, Level(e))
    case StrEq(l, r, _) => PairsLeft(l, Level(e)) + PairsRight(r, Level(e))
    case StrCat(l, r, _) => PairsLeft(l, Level(e)) + PairsRight(r, Level(e))
    case IntUnary(_, x) => PairsRight(x, UNARY_POWER)
    case FloatUnary(x) => PairsRight(x, UNARY_POWER)
    case Conditional(c, a, b) => PairsLeft(c, 15) + PairsRight(a, 0) + PairsRight(b, 14)
    case Assign(_, sub, rhs) => PairsTarget(sub) + PairsRight(rhs, 9)
    case AssignOp(_, sub, _, rhs) => PairsTarget(sub) + PairsRight(rhs, 9)
  }

  function PairsLeft(e: Expr, power: nat): nat
    decreases e, 2
  {
    Pairs(e) + if Level(e) >= power && Edge(e) >= power then 0 else 1
  }

  function PairsRight(e: Expr, rbp: nat): nat
    decreases e, 2
  {
    Pairs(e) + if Level(e) > rbp then 0 else 1
  }

  function PairsTarget(sub: OptExpr): nat
    decreases sub
  {
    if sub.Present? then PairsIndex(sub.e) else 0
  }

  function PairsIndex(e: Expr): nat
    decreases e, 1
  {
    if e.CommaCat? then PairsIndex(e.left) + Pairs(e.right) else Pairs(e)
  }

  lemma {:induction false} PairsPrinted(e: Expr)
    ensures Opens(Print(e)) == Pairs(e)
    decreases e, 0
  {
    hide Opens, Level;
    match e
    case IntLit(v) => OpensOne(Print(e)[0]);
    case FloatLit(_) | StrLit(_) | Constant(_) => OpensOne(Print(e)[0]);
    case CommaCat(_, _) => NoOpens();
    case Var(name, sub) => TargetPrinted(name, sub);
    case FloatBinary(_, l, r) => BinaryPrinted(e);
    case IntBinary(_, l, r) => BinaryPrinted(e);
    case StrEq(l, r, _) => BinaryPrinted(e);
    case StrCat(l, r, _) => BinaryPrinted(e);
    case IntUnary(op, x) =>
      RightPrinted(x, UNARY_POWER);
      Around([Sign(if op == Not then '!' else '~')], PrintRight(x, UNARY_POWER), []);
    case FloatUnary(x) =>
      RightPrinted(x, UNARY_POWER);
      Around([Sign('-')], PrintRight(x, UNARY_POWER), []);
    case Conditional(c, a, b) => ConditionalPrinted(e);
    case Assign(name, sub, rhs) =>
      TargetPrinted(name, sub);
      RightPrinted(rhs, 9);
      Joined(PrintTarget(name, sub), Sign('='), PrintRight(rhs, 9));
    case AssignOp(name, sub, op, rhs) =>
      TargetPrinted(name, sub);
      RightPrinted(rhs, 9);
      Joined(PrintTarget(name, sub), AssignTok(op), PrintRight(rhs, 9));
  }

  lemma NoOpens()
    ensures Opens([]) == 0
  {
  }

  lemma Joined(a: seq<Token>, t: Token, b: seq<Token>)
    requires t != Sign('(')
    ensures Opens(a + [t] + b) == Opens(a) + Opens(b)
  {
    hide Opens;
    OpensOne(t);
    OpensBoth(a, [t]);
    OpensBoth(a + [t], b);
  }

  lemma Around(a: seq<Token>, m: seq<Token>, b: seq<Token>)
    ensures Opens(a + m + b) == Opens(a) + Opens(m) + Opens(b)
    ensures |a| == 1 ==> Opens(a) == if a[0] == Sign('(') then 1 else 0
    ensures |b| == 1 ==> Opens(b) == if b[0] == Sign('(') then 1 else 0
    ensures b == [] ==> a + m + b == a + m && Opens(b) == 0
  {
    hide Opens;
    NoOpens();
    OpensBoth(a, m);
    OpensBoth(a + m, b);
    if |a| == 1 {
      OpensOne(a[0]);
      assert a == [a[0]];
    }
    if |b| == 1 {
      OpensOne(b[0]);
      assert b == [b[0]];
    }
  }

  lemma {:induction false} WrappedPrinted(e: Expr)
    ensures Opens(Wrapped(e)) == Pairs(e) + 1
    decreases e, 1
  {
    hide Opens, Print, Pairs;
    PairsPrinted(e);
    Around([Sign('(')], Print(e), [Sign(')')]);
  }

  lemma {:induction false} LeftPrinted(e: Expr, power: nat)
    ensures Opens(PrintLeft(e, power)) == PairsLeft(e, power)
    decreases e, 2
  {
    hide Opens, Print, Pairs, Level, Edge;
    PairsPrinted(e);
    WrappedPrinted(e);
  }

  lemma {:induction false} RightPrinted(e: Expr, rbp: nat)
    ensures Opens(PrintRight(e, rbp)) == PairsRight(e, rbp)
    decreases e, 2
  {
    hide Opens, Print, Pairs, Level;
    PairsPrinted(e);
    WrappedPrinted(e);
  }

  lemma {:induction false} BinaryPrinted(e: Expr)
    requires IsBinary(e)
    ensures Opens(Print(e)) == Pairs(e)
    decreases e, -1
  {
    hide Opens, Level, OperatorOf, PrintLeft, PrintRight, PairsLeft, PairsRight;
    PrintBinary(e);
    OperatorOpensNone(e);
    LeftPrinted(e.left, Level(e));
    RightPrinted(e.right, Level(e));
    Joined(PrintLeft(e.left, Level(e)), OperatorOf(e), PrintRight(e.right, Level(e)));
  }

  lemma OperatorOpensNone(e: Expr)
    requires IsBinary(e)
    ensures OperatorOf(e) != Sign('(')
  {
  }

  lemma {:induction false} ConditionalPrinted(e: Expr)
    requires e.Conditional?
    ensures Opens(Print(e)) == Pairs(e)
    decreases e, -1
  {
    hide Opens, PrintLeft, PrintRight, PairsLeft, PairsRight;
    PrintConditional(e);
    LeftPrinted(e.test, 15);
    RightPrinted(e.whenTrue, 0);
    RightPrinted(e.whenFalse, 14);
    var c, a, b := PrintLeft(e.test, 15), PrintRight(e.whenTrue, 0), PrintRight(e.whenFalse, 14);
    Joined(a, Sign(':'), b);
    Joined(c, Sign('?'), a + [Sign(':')] + b);
  }

  lemma {:induction false} TargetPrinted(name: CString, sub: OptExpr)
    ensures Opens(PrintTarget(name, sub)) == PairsTarget(sub)
    decreases sub
  {
    hide Opens, PrintIndex, PairsIndex;
    match sub
    case Absent => OpensOne(VarTok(name));
    case Present(e) =>
      IndexPrinted(e);
      Around([VarTok(name)], [Sign('[')], []);
      OpensOne(Sign('['));
      assert [VarTok(name), Sign('[')] == [VarTok(name)] + [Sign('[')];
      Around([VarTok(name), Sign('[')], PrintIndex(e), [Sign(']')]);
  }

  lemma {:induction false} IndexPrinted(e: Expr)
    ensures Opens(PrintIndex(e)) == PairsIndex(e)
    decreases e, 1
  {
    hide Opens, Print, Pairs;
    if e.CommaCat? {
      IndexPrinted(e.left);
      PairsPrinted(e.right);
      Joined(PrintIndex(e.left), Sign(','), Print(e.right));
    } else {
      PairsPrinted(e);
    }
  }

  // ----- any text of a tree has as many -----

  predicate NoSuffix(ts: seq<Token>) {
    forall i :: 0 <= i < |ts| ==> !IsSuffix(ts[i])
  }

  /**
    What was parsed since `start` has a pair to spare, or stands where the printer would put none around
    it: it binds tighter than asked and the token behind it no tighter than it does.
   */
  predicate Stands(ts: seq<Token>, start: nat, e: Expr, pos: nat, rbp: nat) {
    && start <= pos <= |ts| && !e.CommaCat?
    && (|| Between(ts, start, pos) >= Pairs(e) + 1
        || (Between(ts, start, pos) >= Pairs(e) && rbp < Level(e)
            && Lbp(LookAhead(ts, pos)) <= Level(e) && Lbp(LookAhead(ts, pos)) <= Edge(e)))
  }

  lemma StandsAsLeft(ts: seq<Token>, start: nat, e: Expr, pos: nat, rbp: nat)
    requires Stands(ts, start, e, pos, rbp)
    ensures Between(ts, start, pos) >= PairsLeft(e, Lbp(LookAhead(ts, pos))) && !e.CommaCat?
    ensures Lbp(LookAhead(ts, pos)) <= rbp ==> Between(ts, start, pos) >= PairsRight(e, rbp)
  {
    hide Pairs, Between, Level, Edge, Lbp;
  }

  lemma {:induction false} ExprNeeds(ts: seq<Token>, pos: nat, rbp: nat, one: F64)
    requires rbp < 200 && ParseExpr(ts, pos, rbp, one).Tree?
    ensures var r := ParseExpr(ts, pos, rbp, one);
      pos <= r.pos <= |ts| && Between(ts, pos, r.pos) >= PairsRight(r.e, rbp) && !r.e.CommaCat?
    decreases |ts| - pos, 3
  {
    hide Prefix, Infix, PairsRight, Between, Stands;
    PrefixNeeds(ts, pos, rbp, one);
    var left := Prefix(ts, ts[pos], pos + 1, one);
    InfixNeeds(ts, pos, left.e, left.pos, rbp, one);
  }

  lemma StandsFreely(ts: seq<Token>, start: nat, e: Expr, pos: nat, rbp: nat)
    requires start <= pos <= |ts| && rbp < 200 && !e.CommaCat? && Pairs(e) == 0 && Level(e) == Edge(e) == 200
    ensures Stands(ts, start, e, pos, rbp)
  {
    hide Between, Pairs, Level, Edge;
  }

  lemma {:induction false} PrefixNeeds(ts: seq<Token>, pos: nat, rbp: nat, one: F64)
    requires rbp < 200 && pos < |ts| && Prefix(ts, ts[pos], pos + 1, one).Tree?
    ensures var r := Prefix(ts, ts[pos], pos + 1, one); pos < r.pos && Stands(ts, pos, r.e, r.pos, rbp)
    decreases |ts| - pos, 2
  {
    hide ParseExpr, Between, Stands, Edge, Lbp;
    var t, r := ts[pos], Prefix(ts, ts[pos], pos + 1, one);
    BetweenOne(ts, pos);
    if t == Sign('(') {
      ExprNeeds(ts, pos + 1, 0, one);
      var e := ParseExpr(ts, pos + 1, 0, one);
      GroupStands(ts, pos, e.e, e.pos, rbp);
    } else if t.Sign? {
      ExprNeeds(ts, pos + 1, UNARY_POWER, one);
      EndsAtWeaker(ts, pos + 1, UNARY_POWER, one);
      UnaryStands(ts, pos, r.e, r.pos, rbp);
    } else {
      LeafStands(r.e);
      StandsFreely(ts, pos, r.e, r.pos, rbp);
    }
  }

  lemma LeafStands(e: Expr)
    requires e.IntLit? || e.FloatLit? || e.StrLit? || e.Constant? || (e.Var? && e.sub.Absent?)
    ensures Pairs(e) == 0 && Level(e) == Edge(e) == 200
  {
  }

  lemma GroupStands(ts: seq<Token>, pos: nat, e: Expr, q: nat, rbp: nat)
    requires pos < |ts| && ts[pos] == Sign('(') && pos + 1 <= q < |ts| && Between(ts, pos + 1, q) >= PairsRight(e, 0)
        && !e.CommaCat?
    ensures Stands(ts, pos, e, q + 1, rbp)
  {
    hide Between, Pairs, Level, Edge, Lbp;
    BetweenOne(ts, pos);
    BetweenBoth(ts, pos, pos + 1, q);
    BetweenBoth(ts, pos, q, q + 1);
  }

  lemma UnaryStands(ts: seq<Token>, pos: nat, e: Expr, q: nat, rbp: nat)
    requires (e.FloatUnary? || e.IntUnary?) && pos + 1 <= q <= |ts| && rbp < 200
    requires Between(ts, pos + 1, q) >= PairsRight(e.operand, UNARY_POWER) && Lbp(LookAhead(ts, q)) <= UNARY_POWER
    ensures Stands(ts, pos, e, q, rbp)
  {
    hide Between, PairsRight, Lbp;
    BetweenBoth(ts, pos, pos + 1, q);
  }

  lemma {:induction false} InfixNeeds(ts: seq<Token>, start: nat, left: Expr, pos: nat, rbp: nat, one: F64)
    requires rbp < 200 && start < pos && Stands(ts, start, left, pos, rbp) && pos <= |ts|
        && Infix(ts, left, pos, rbp, one).Tree?
    ensures var r := Infix(ts, left, pos, rbp, one);
      start <= r.pos <= |ts| && Between(ts, start, r.pos) >= PairsRight(r.e, rbp) && !r.e.CommaCat?
    decreases |ts| - pos, 5
  {
    hide Led, PairsRight, PairsLeft, Between, Stands, Lbp;
    StandsAsLeft(ts, start, left, pos, rbp);
    if Lbp(LookAhead(ts, pos)) > rbp {
      PastTheEnd(ts, pos);
      LedNeeds(ts, start, left, pos, rbp, one);
      var d := Led(ts, ts[pos], left, pos + 1, one);
      InfixNeeds(ts, start, d.e, d.pos, rbp, one);
    }
  }

  lemma {:induction false} LedNeeds(ts: seq<Token>, start: nat, left: Expr, pos: nat, rbp: nat, one: F64)
    requires rbp < 200 && start < pos < |ts| && Stands(ts, start, left, pos, rbp) && Lbp(ts[pos]) > rbp
    requires Led(ts, ts[pos], left, pos + 1, one).Tree?
    ensures var r := Led(ts, ts[pos], left, pos + 1, one); pos < r.pos && Stands(ts, start, r.e, r.pos, rbp)
    decreases |ts| - pos, 4
  {
    hide ParseExpr, ParseIndex, Between, Stands, Lbp, PairsLeft, PairsRight, Combine, Level, Edge;
    var t := ts[pos];
    StandsAsLeft(ts, start, left, pos, rbp);
    PowerAtMost(t);
    if t == Sign('[') {
      IndexNeeds(ts, pos + 1, one);
      IndexStands(ts, start, left, pos, rbp, one);
    } else if t == Sign('?') {
      ConditionalStands(ts, start, left, pos, rbp, one);
    } else if t == Sign('=') || t.AssignTok? {
      AssignStands(ts, start, left, pos, rbp, one);
    } else if IsSuffix(t) {
      SuffixStands(ts, start, left, pos, rbp, one);
    } else {
      BinaryStands(ts, start, left, pos, rbp, one);
    }
  }

  lemma {:induction false} BinaryStands(ts: seq<Token>, start: nat, left: Expr, pos: nat, rbp: nat, one: F64)
    requires rbp < 200 && start < pos < |ts| && Lbp(ts[pos]) > rbp
    requires Between(ts, start, pos) >= PairsLeft(left, Lbp(ts[pos]))
    requires ts[pos] != Sign('[') && ts[pos] != Sign('?') && ts[pos] != Sign('=') && !ts[pos].AssignTok?
        && !IsSuffix(ts[pos])
    requires Led(ts, ts[pos], left, pos + 1, one).Tree?
    ensures var r := Led(ts, ts[pos], left, pos + 1, one); pos < r.pos && Stands(ts, start, r.e, r.pos, rbp)
    decreases |ts| - pos, 3
  {
    hide ParseExpr, Between, Lbp, PairsLeft, PairsRight, Combine, Level, Edge, Pairs;
    var t := ts[pos];
    PowerAtMost(t);
    ExprNeeds(ts, pos + 1, Lbp(t), one);
    EndsAtWeaker(ts, pos + 1, Lbp(t), one);
    var r := ParseExpr(ts, pos + 1, Lbp(t), one);
    Combined(t, left, r.e);
    BetweenBoth(ts, start, pos, pos + 1);
    BetweenBoth(ts, start, pos + 1, r.pos);
  }

  /** A suffix makes an assignment that binds looser than it does, and pays for the pair that would need. */
  lemma SuffixStands(ts: seq<Token>, start: nat, left: Expr, pos: nat, rbp: nat, one: F64)
    requires start < pos < |ts| && IsSuffix(ts[pos]) && Between(ts, start, pos) >= PairsLeft(left, Lbp(ts[pos]))
    requires Led(ts, ts[pos], left, pos + 1, one).Tree?
    ensures var r := Led(ts, ts[pos], left, pos + 1, one); pos < r.pos && Stands(ts, start, r.e, r.pos, rbp)
  {
    hide Between, Level, Edge, Lbp;
    BetweenOne(ts, pos);
    BetweenBoth(ts, start, pos, pos + 1);
    var r := Led(ts, ts[pos], left, pos + 1, one);
    StepPairs(left, r.e, one);
  }

  lemma StepPairs(left: Expr, e: Expr, one: F64)
    requires left.Var? && e.AssignOp? && e.sub == left.sub && e.rhs == FloatLit(one)
    ensures Pairs(e) == Pairs(left)
  {
    assert PairsRight(e.rhs, 9) == Pairs(e.rhs) == 0;
  }

  lemma PowerAtMost(t: Token)
    ensures Lbp(t) <= 145
    ensures t == Sign('?') ==> Lbp(t) == 15
    ensures t == Sign('=') || t.AssignTok? ==> Lbp(t) == 10
  {
  }

  lemma Combined(t: Token, l: Expr, r: Expr)
    requires Combine(t, l, r).Some?
    ensures var e := Combine(t, l, r).value;
      !e.CommaCat? && Level(e) == Edge(e) == Lbp(t) && Pairs(e) == PairsLeft(l, Lbp(t)) + PairsRight(r, Lbp(t))
  {
    CombinedOperator(t, l, r);
    hide PairsLeft, PairsRight, Lbp, OperatorOf, Combine;
  }

  lemma CombinedOperator(t: Token, l: Expr, r: Expr)
    requires Combine(t, l, r).Some?
    ensures var e := Combine(t, l, r).value; IsBinary(e) && OperatorOf(e) == t && e.left == l && e.right == r
  {
  }

  lemma {:induction false} ConditionalStands(ts: seq<Token>, start: nat, left: Expr, pos: nat, rbp: nat, one: F64)
    requires rbp < 15 && start < pos < |ts| && ts[pos] == Sign('?')
    requires Between(ts, start, pos) >= PairsLeft(left, 15)
    requires Led(ts, ts[pos], left, pos + 1, one).Tree?
    ensures var r := Led(ts, ts[pos], left, pos + 1, one); pos < r.pos && Stands(ts, start, r.e, r.pos, rbp)
    decreases |ts| - pos, 3
  {
    hide ParseExpr, Between, PairsLeft, PairsRight;
    ExprNeeds(ts, pos + 1, 0, one);
    var m := ParseExpr(ts, pos + 1, 0, one);
    ExprNeeds(ts, m.pos + 1, 14, one);
    EndsAtWeaker(ts, m.pos + 1, 14, one);
    var r := ParseExpr(ts, m.pos + 1, 14, one);
    BetweenBoth(ts, start, pos, pos + 1);
    BetweenBoth(ts, start, pos + 1, m.pos);
    BetweenBoth(ts, start, m.pos, m.pos + 1);
    BetweenBoth(ts, start, m.pos + 1, r.pos);
  }

  lemma {:induction false} AssignStands(ts: seq<Token>, start: nat, left: Expr, pos: nat, rbp: nat, one: F64)
    requires rbp < 10 && start < pos < |ts| && (ts[pos] == Sign('=') || ts[pos].AssignTok?)
    requires Between(ts, start, pos) >= PairsLeft(left, 10)
    requires Led(ts, ts[pos], left, pos + 1, one).Tree?
    ensures var r := Led(ts, ts[pos], left, pos + 1, one); pos < r.pos && Stands(ts, start, r.e, r.pos, rbp)
    decreases |ts| - pos, 3
  {
    hide ParseExpr, Between, PairsRight;
    ExprNeeds(ts, pos + 1, 9, one);
    EndsAtWeaker(ts, pos + 1, 9, one);
    var r := ParseExpr(ts, pos + 1, 9, one);
    BetweenBoth(ts, start, pos, pos + 1);
    BetweenBoth(ts, start, pos + 1, r.pos);
  }

  lemma IndexStands(ts: seq<Token>, start: nat, left: Expr, pos: nat, rbp: nat, one: F64)
    requires rbp < 200 && start < pos < |ts| && ts[pos] == Sign('[')
    requires Between(ts, start, pos) >= PairsLeft(left, Lbp(ts[pos]))
    requires Led(ts, ts[pos], left, pos + 1, one).Tree?
    requires var r := ParseIndex(ts, pos + 1, one);
        r.Tree? ==> pos + 1 <= r.pos <= |ts| && Between(ts, pos + 1, r.pos) >= PairsIndex(r.e)
    ensures var r := Led(ts, ts[pos], left, pos + 1, one); pos < r.pos && Stands(ts, start, r.e, r.pos, rbp)
  {
    hide ParseIndex, Between, Level, Edge, Lbp;
    var x := ParseIndex(ts, pos + 1, one);
    BetweenBoth(ts, start, pos, pos + 1);
    BetweenBoth(ts, start, pos + 1, x.pos);
    BetweenBoth(ts, start, x.pos, x.pos + 1);
    var r := Led(ts, ts[pos], left, pos + 1, one);
    IndexAdded(left, x.e, r.e);
    PowerAtMost(LookAhead(ts, r.pos));
  }

  lemma IndexAdded(left: Expr, x: Expr, e: Expr)
    requires left.Var? && e == Var(left.name, Present(if left.sub.Present? then CommaCat(left.sub.e, x) else x))
    ensures Pairs(e) <= Pairs(left) + PairsIndex(x) && Level(e) == Edge(e) == 200
  {
    hide PairsIndex;
    if left.sub.Present? {
      IndexOfBoth(left.sub.e, x);
    }
  }

  lemma IndexOfBoth(a: Expr, x: Expr)
    ensures PairsIndex(CommaCat(a, x)) <= PairsIndex(a) + PairsIndex(x)
  {
    AsIndex(x);
  }

  lemma {:induction false} IndexNeeds(ts: seq<Token>, pos: nat, one: F64)
    requires pos <= |ts|
    ensures var r := ParseIndex(ts, pos, one);
        r.Tree? ==> pos <= r.pos <= |ts| && Between(ts, pos, r.pos) >= PairsIndex(r.e)
    decreases |ts| - pos, 5
  {
    hide ParseExpr, MoreIndex, Between, PairsRight, PairsIndex;
    var r := ParseExpr(ts, pos, 0, one);
    if r.Tree? {
      ExprNeeds(ts, pos, 0, one);
      AsIndex(r.e);
      MoreNeeds(ts, pos, r.e, r.pos, one);
    }
  }

  lemma AsIndex(e: Expr)
    ensures !e.CommaCat? ==> PairsIndex(e) == Pairs(e)
    ensures PairsRight(e, 0) >= Pairs(e) && PairsIndex(e) >= Pairs(e)
  {
    hide Level;
  }

  lemma {:induction false} MoreNeeds(ts: seq<Token>, start: nat, head: Expr, pos: nat, one: F64)
    requires start < pos <= |ts| && Between(ts, start, pos) >= PairsIndex(head)
    ensures var r := MoreIndex(ts, head, pos, one);
        r.Tree? ==> start <= r.pos <= |ts| && Between(ts, start, r.pos) >= PairsIndex(r.e)
    decreases |ts| - pos, 4
  {
    hide ParseExpr, Between, PairsRight, Pairs;
    if Is(ts, pos, ',') && ParseExpr(ts, pos + 1, 0, one).Tree? {
      var r := ParseExpr(ts, pos + 1, 0, one);
      ExprNeeds(ts, pos + 1, 0, one);
      AsIndex(r.e);
      BetweenBoth(ts, start, pos, pos + 1);
      BetweenBoth(ts, start, pos + 1, r.pos);
      MoreNeeds(ts, start, CommaCat(head, r.e), r.pos, one);
    }
  }

  /**
    Wherever it stands in a token list, no text that parses to a tree has fewer parentheses than the printed
    one, but for those that its `++` and `--` spare: at most one each.
   */
  lemma FewestParentheses(ts: seq<Token>, pos: nat, rbp: nat, one: F64)
    requires rbp < 200 && ParseExpr(ts, pos, rbp, one).Tree?
    ensures var r := ParseExpr(ts, pos, rbp, one);
      && pos <= r.pos <= |ts|
      && Opens(ts[pos..r.pos]) + Suffixes(ts[pos..r.pos]) >= Opens(PrintRight(r.e, rbp))
  {
    hide ParseExpr, Print, Pairs, Opens, Suffixes, PrintRight;
    ExprNeeds(ts, pos, rbp, one);
    RightPrinted(ParseExpr(ts, pos, rbp, one).e, rbp);
  }

  lemma {:induction false} PrintedPlainly(e: Expr)
    ensures NoSuffix(Print(e))
    decreases e, 0
  {
    hide Level, Edge;
    match e
    case IntLit(_) | FloatLit(_) | StrLit(_) | Constant(_) | CommaCat(_, _) =>
    case Var(name, sub) => TargetPlainly(name, sub);
    case FloatBinary(_, l, r) => BinaryPlainly(e);
    case IntBinary(_, l, r) => BinaryPlainly(e);
    case StrEq(l, r, _) => BinaryPlainly(e);
    case StrCat(l, r, _) => BinaryPlainly(e);
    case IntUnary(op, x) => OperandPlainly(x);
    case FloatUnary(x) => OperandPlainly(x);
    case Conditional(c, a, b) =>
      PrintConditional(e);
      OperandPlainly(c);
      OperandPlainly(a);
      OperandPlainly(b);
    case Assign(name, sub, rhs) =>
      TargetPlainly(name, sub);
      OperandPlainly(rhs);
    case AssignOp(name, sub, op, rhs) =>
      TargetPlainly(name, sub);
      OperandPlainly(rhs);
  }

  lemma {:induction false} OperandPlainly(e: Expr)
    ensures forall power :: NoSuffix(PrintLeft(e, power)) && NoSuffix(PrintRight(e, power))
    decreases e, 1
  {
    hide Print, NoSuffix, Level, Edge;
    PrintedPlainly(e);
    WrappedPlainly(e);
  }

  lemma WrappedPlainly(e: Expr)
    requires NoSuffix(Print(e))
    ensures NoSuffix(Wrapped(e))
  {
    hide Print;
  }

  lemma {:induction false} BinaryPlainly(e: Expr)
    requires IsBinary(e)
    ensures NoSuffix(Print(e))
    decreases e, -1
  {
    hide Level, OperatorOf, PrintLeft, PrintRight;
    PrintBinary(e);
    OperatorPower(e);
    OperandPlainly(e.left);
    OperandPlainly(e.right);
  }

  lemma {:induction false} TargetPlainly(name: CString, sub: OptExpr)
    ensures NoSuffix(PrintTarget(name, sub))
    decreases sub
  {
    hide PrintIndex;
    if sub.Present? {
      IndexPlainly(sub.e);
    }
  }

  lemma {:induction false} IndexPlainly(e: Expr)
    ensures NoSuffix(PrintIndex(e))
    decreases e, 1
  {
    hide Print;
    if e.CommaCat? {
      IndexPlainly(e.left);
      PrintedPlainly(e.right);
    } else {
      PrintedPlainly(e);
    }
  }

  /** A text without two of its tokens. */
  function Without(s: seq<Token>, i: nat, j: nat): seq<Token>
    requires i < j < |s|
  {
    s[..i] + s[i + 1..j] + s[j + 1..]
  }

  lemma OneFewer(s: seq<Token>, i: nat, j: nat)
    requires i < j < |s| && s[i] == Sign('(') && s[j] == Sign(')')
    ensures Opens(Without(s, i, j)) == Opens(s) - 1
    ensures NoSuffix(s) ==> NoSuffix(Without(s, i, j))
  {
    hide Opens;
    var a, b, c := s[..i], s[i + 1..j], s[j + 1..];
    assert s[..j] == a + [s[i]] + b;
    assert s == s[..j] + [s[j]] + c;
    OpensBoth(a + [s[i]] + b + [s[j]], c);
    OpensBoth(a + [s[i]] + b, [s[j]]);
    OpensBoth(a + [s[i]], b);
    OpensBoth(a, [s[i]]);
    OpensOne(s[i]);
    OpensOne(s[j]);
    OpensBoth(a + b, c);
    OpensBoth(a, b);
  }

  /** Left out, any printed pair of parentheses changes what the text means, or that it means anything. */
  lemma NoPairToSpare(e: Expr, i: nat, j: nat, one: F64)
    requires i < j < |Print(e)| && Print(e)[i] == Sign('(') && Print(e)[j] == Sign(')')
    ensures ParseExpr(Without(Print(e), i, j), 0, 0, one) != Tree(e, |Print(e)| - 2)
  {
    hide ParseExpr, Print, Opens, Level, Edge, NoSuffix;
    var ts := Without(Print(e), i, j);
    PrintedPlainly(e);
    OneFewer(Print(e), i, j);
    LevelPositive(e);
    var r := ParseExpr(ts, 0, 0, one);
    if r.Tree? && r.pos == |ts| {
      FewestParentheses(ts, 0, 0, one);
      SuffixesNowhere(ts);
      assert ts[0..|ts|] == ts;
    }
  }

  /** A `++` may spare its pair: `a * x++` parses to a tree whose text without it is `a * (x += 1)`. */
  lemma SuffixSpares(one: F64)
    ensures var ts := [VarTok("a"), Sign('*'), VarTok("x"), PlusPlusTok];
      var r := ParseExpr(ts, 0, 0, one);
      r.Tree? && r.pos == |ts| && Opens(ts) == 0 && Opens(Print(r.e)) == 1
  {
    var ts := [VarTok("a"), Sign('*'), VarTok("x"), PlusPlusTok];
    var x, step: Expr := Var("x", Absent), AssignOp("x", Absent, FloatAssign(Add), FloatLit(one));
    SuffixParses(ts, x, step, one);
    var a: Expr := Var("a", Absent);
    var e := FloatBinary(Mul, a, step);
    TimesParses(ts, a, step, e, one);
    hide ParseExpr, Print, Opens, Pairs;
    OpensNowhere(ts);
    PairsPrinted(e);
    OnePair(a, step);
  }

  lemma {:induction false} OpensNowhere(s: seq<Token>)
    requires Sign('(') !in s
    ensures Opens(s) == 0
  {
    if s != [] {
      OpensNowhere(s[1..]);
    }
  }

  lemma SuffixParses(ts: seq<Token>, x: Expr, step: Expr, one: F64)
    requires ts == [VarTok("a"), Sign('*'), VarTok("x"), PlusPlusTok] && x == Var("x", Absent)
    requires step == AssignOp("x", Absent, FloatAssign(Add), FloatLit(one))
    ensures ParseExpr(ts, 2, 100, one) == Tree(step, 4)
  {
    StartsWith(ts, 2, 100, one, x, 3);
    InfixTakes(ts, x, 3, 100, one, step, 4);
    InfixStops(ts, step, 4, 100, one);
  }

  lemma TimesParses(ts: seq<Token>, a: Expr, step: Expr, e: Expr, one: F64)
    requires ts == [VarTok("a"), Sign('*'), VarTok("x"), PlusPlusTok] && a == Var("a", Absent)
        && e == FloatBinary(Mul, a, step)
    requires ParseExpr(ts, 2, 100, one) == Tree(step, 4)
    ensures ParseExpr(ts, 0, 0, one) == Tree(e, 4)
  {
    StartsWith(ts, 0, 0, one, a, 1);
    InfixTakes(ts, a, 1, 0, one, e, 4);
    InfixStops(ts, e, 4, 0, one);
  }

  lemma OnePair(a: Expr, step: Expr)
    requires a == Var("a", Absent) && step.AssignOp? && step.sub.Absent? && step.rhs.FloatLit?
    ensures Pairs(FloatBinary(Mul, a, step)) == 1
  {
    assert PairsTarget(Absent) == 0;
    assert PairsRight(step.rhs, 9) == Pairs(step.rhs) == 0;
    assert Pairs(step) == 0 && Pairs(a) == 0;
  }
}
