/**
  What a script makes of an expression's value: how it is tested, negated, returned, stored and read back.
  All of it is said in values, without the compiler's choice of types.
 */
module Uses {
  import opened Values
  import opened Ast
  import opened Machine
  import opened Semantics
  import opened StmtSemantics

  // ----- what an expression computes -----

  /** Operators and literals compute a value of one type; a conditional and an assignment pass one on. */
  predicate Computes(e: Expr, t: TypeReq) {
    match e
    case FloatLit(_) | FloatBinary(_, _, _) | FloatUnary(_) => t == ReqFloat
    case IntLit(_) | IntBinary(_, _, _) | IntUnary(_, _) | StrEq(_, _, _) => t == ReqUInt
    case StrLit(_) | Constant(_) | StrCat(_, _, _) | CommaCat(_, _) => t == ReqString
    case AssignOp(_, _, FloatAssign(_), _) => t == ReqFloat
    case AssignOp(_, _, BitAssign(_), _) => t == ReqUInt
    case Conditional(_, a, _) => Computes(a, t)
    case Assign(_, _, rhs) => Computes(rhs, t)
    case Var(_, _) => false
  }

  /** A variable has no type of its own, nor has what passes one on. */
  predicate Untyped(e: Expr) {
    match e
    case Var(_, _) => true
    case Conditional(_, a, _) => Untyped(a)
    case Assign(_, _, rhs) => Untyped(rhs)
    case _ => false
  }

  predicate True(ar: Arith, o: Out) {
    match o
    case IntValue(i) => i != 0
    case FltValue(f) => ar.nonZero(f)
    case _ => false
  }

  /** What a variable holds once the value is assigned: 32 bits of an int, single precision of a float. */
  function Kept(ar: Arith, o: Out): Value {
    match o
    case IntValue(i) => VUnsigned(i % 0x1_0000_0000)
    case FltValue(f) => VNumber(ar.roundTo32(f))
    case StrValue(s) => VString(s)
    case _ => VString("")
  }

  function Given(o: Out): Value {
    match o
    case IntValue(i) => VUnsigned(i % 0x1_0000_0000)
    case FltValue(f) => VNumber(f)
    case StrValue(s) => VString(s)
    case _ => VString("")
  }

  // ----- ways to use an expression -----

  /** `if`, `?:` and loops go by whether the value, as a `t`, is true. */
  ghost predicate TestedAs(ar: Arith, e: Expr, t: TypeReq, vars: Store) {
    var ef := Eval(ar, e, t, vars);
    && (forall thn, els, inLoop, fuel :: Exec(ar, If(e, thn, els), vars, inLoop, fuel)
          == ExecBlock(ar, if True(ar, ef.out) then thn else els, ef.vars, inLoop, fuel))
    && (forall a, b, u :: Eval(ar, Conditional(e, a, b), u, vars)
          == Eval(ar, if True(ar, ef.out) then a else b, u, ef.vars))
    && (forall init, step, body, isDo, fuel :: var st := Loop(init, e, step, body, isDo);
          Guarded(ar, st, vars, fuel) == if True(ar, ef.out) then Rounds(ar, st, ef.vars, fuel) else Normal(ef.vars))
  }

  ghost predicate NegatedAs(ar: Arith, e: Expr, t: TypeReq, vars: Store) {
    var ef := Eval(ar, e, t, vars);
    Eval(ar, IntUnary(Not, e), ReqUInt, vars) == Effect(IntValue(if True(ar, ef.out) then 0 else 1), ef.vars)
  }

  ghost predicate ReturnedAs(ar: Arith, e: Expr, t: TypeReq, vars: Store) {
    var ef := Eval(ar, e, t, vars);
    forall inLoop, fuel :: Exec(ar, Return(Present(e)), vars, inLoop, fuel) == Gave(Given(ef.out), ef.vars)
  }

  ghost predicate StoredAs(ar: Arith, e: Expr, t: TypeReq, vars: Store) {
    var ef := Eval(ar, e, t, vars);
    forall x, sub :: var n := Target(ar, x, sub, ef.vars);
      Eval(ar, Assign(x, sub, e), ReqNone, vars).vars == n.1[n.0 := Kept(ar, ef.out)]
  }

  lemma ComputesPreferred(e: Expr, t: TypeReq)
    requires Computes(e, t)
    ensures Preferred(e) == t && t in {ReqUInt, ReqFloat, ReqString}
  {
  }

  lemma UntypedPreferred(e: Expr)
    requires Untyped(e)
    ensures Preferred(e) == ReqNone
  {
  }

  lemma ConvertedType(ar: Arith, o: Out, t: TypeReq)
    requires t != ReqVar && (o.IntValue? || o.FltValue? || o.StrValue?)
    ensures Shape(Converted(ar, o, t), t)
  {
  }

  lemma LeafGivesType(ar: Arith, e: Expr, t: TypeReq, vars: Store)
    requires t != ReqVar && (e.IntLit? || e.FloatLit? || e.StrLit? || e.Constant? || e.Var?)
    ensures Shape(Eval(ar, e, t, vars).out, t)
  {
    hide ReadInt, ReadFloat, ReadString, Target;
  }

  lemma OperatorGivesType(ar: Arith, e: Expr, t: TypeReq, vars: Store)
    requires t != ReqVar && (e.FloatBinary? || e.IntUnary? || e.FloatUnary? || e.AssignOp?)
    ensures Shape(Eval(ar, e, t, vars).out, t)
  {
    hide Converted, UnaryResult, Stored, Target, ReadAs;
    forall o: Out | o.IntValue? || o.FltValue? ensures Shape(Converted(ar, o, t), t) {
      ConvertedType(ar, o, t);
    }
  }

  lemma StringGivesType(ar: Arith, e: Expr, t: TypeReq, vars: Store)
    requires t != ReqVar && (e.StrEq? || e.StrCat? || e.CommaCat?)
    ensures Shape(Eval(ar, e, t, vars).out, t)
  {
    hide Converted;
    forall o: Out | o.IntValue? || o.StrValue? ensures Shape(Converted(ar, o, t), t) {
      ConvertedType(ar, o, t);
    }
  }

  /** Every expression gives a value of the type it is asked for. */
  lemma {:induction false} GivesType(ar: Arith, e: Expr, t: TypeReq, vars: Store)
    requires t != ReqVar
    ensures Shape(Eval(ar, e, t, vars).out, t)
    decreases e
  {
    hide Converted, StrictOp, Shape;
    match e
    case IntLit(_) | FloatLit(_) | StrLit(_) | Constant(_) | Var(_, _) => LeafGivesType(ar, e, t, vars);
    case FloatBinary(_, _, _) | IntUnary(_, _) | FloatUnary(_) | AssignOp(_, _, _, _) =>
      OperatorGivesType(ar, e, t, vars);
    case StrEq(_, _, _) | StrCat(_, _, _) | CommaCat(_, _) => StringGivesType(ar, e, t, vars);
    case IntBinary(_, _, _) => IntBinaryGivesType(ar, e, t, vars);
    case Conditional(c, a, b) =>
      var ec := Eval(ar, c, TestType(c), vars);
      GivesType(ar, a, t, ec.vars);
      GivesType(ar, b, t, ec.vars);
    case Assign(_, _, _) => AssignGivesType(ar, e, t, vars);
  }

  lemma {:induction false} IntBinaryGivesType(ar: Arith, e: Expr, t: TypeReq, vars: Store)
    requires t != ReqVar && e.IntBinary?
    ensures Shape(Eval(ar, e, t, vars).out, t)
    decreases e, 0
  {
    hide Converted, StrictOp;
    if e.iop.LogicalOr? || e.iop.LogicalAnd? {
      var el := Eval(ar, e.left, ReqUInt, vars);
      GivesType(ar, e.left, ReqUInt, vars);
      GivesType(ar, e.right, ReqUInt, el.vars);
      ConvertedType(ar, el.out, t);
      ConvertedType(ar, Eval(ar, e.right, ReqUInt, el.vars).out, t);
    } else {
      forall i ensures Shape(Converted(ar, IntValue(i), t), t) {
        ConvertedType(ar, IntValue(i), t);
      }
    }
  }

  lemma {:induction false} AssignGivesType(ar: Arith, e: Expr, t: TypeReq, vars: Store)
    requires t != ReqVar && e.Assign?
    ensures Shape(Eval(ar, e, t, vars).out, t)
    decreases e, 0
  {
    hide Stored, Target;
    var s := AssignType(e.rhs, t);
    if s != ReqVar {
      GivesType(ar, e.rhs, s, vars);
      ConvertedType(ar, Eval(ar, e.rhs, s, vars).out, t);
    }
  }

  /** The type a value of type `t` is tested and negated in. */
  function AsNumber(t: TypeReq): TypeReq {
    if t == ReqUInt then ReqUInt else ReqFloat
  }

  lemma TestedInType(ar: Arith, e: Expr, vars: Store)
    ensures TestedAs(ar, e, TestType(e), vars)
  {
    GivesType(ar, e, TestType(e), vars);
    var ef := Eval(ar, e, TestType(e), vars);
    forall init, step, body, isDo, fuel ensures
      var st := Loop(init, e, step, body, isDo);
      Guarded(ar, st, vars, fuel) == if True(ar, ef.out) then Rounds(ar, st, ef.vars, fuel) else Normal(ef.vars)
    {
      var st := Loop(init, e, step, body, isDo);
      assert Guarded(ar, st, vars, fuel)
          == if Holds(ar, ef.out) then Rounds(ar, st, ef.vars, fuel) else Normal(ef.vars);
    }
  }

  lemma NegatedInType(ar: Arith, e: Expr, vars: Store)
    ensures NegatedAs(ar, e, UnaryType(Not, e), vars)
  {
    GivesType(ar, e, UnaryType(Not, e), vars);
  }

  lemma ReturnedInType(ar: Arith, e: Expr, vars: Store)
    ensures ReturnedAs(ar, e, ReturnType(e), vars)
  {
    GivesType(ar, e, ReturnType(e), vars);
  }

  lemma StoredInType(ar: Arith, e: Expr, vars: Store)
    requires AssignType(e, ReqNone) != ReqVar
    ensures StoredAs(ar, e, AssignType(e, ReqNone), vars)
  {
    var t := AssignType(e, ReqNone);
    GivesType(ar, e, t, vars);
    var ef := Eval(ar, e, t, vars);
    forall x, sub ensures
      var n := Target(ar, x, sub, ef.vars);
      Eval(ar, Assign(x, sub, e), ReqNone, vars).vars == n.1[n.0 := Kept(ar, ef.out)]
    {
      var n := Target(ar, x, sub, ef.vars);
      assert Created(n.1, n.0)[n.0 := Kept(ar, ef.out)] == n.1[n.0 := Kept(ar, ef.out)];
    }
  }

  /**
    What computes a value of one type is tested, negated, returned and stored as that, wherever it stands;
    only strings are tested and negated as the float they read as.
   */
  lemma UsedAsComputed(ar: Arith, e: Expr, t: TypeReq, vars: Store)
    requires Computes(e, t)
    ensures t in {ReqUInt, ReqFloat, ReqString}
    ensures TestedAs(ar, e, AsNumber(t), vars) && NegatedAs(ar, e, AsNumber(t), vars)
    ensures ReturnedAs(ar, e, t, vars) && StoredAs(ar, e, t, vars)
  {
    hide TestedAs, NegatedAs, ReturnedAs, StoredAs;
    ComputesPreferred(e, t);
    TestedInType(ar, e, vars);
    NegatedInType(ar, e, vars);
    ReturnedInType(ar, e, vars);
    StoredInType(ar, e, vars);
  }

  /**
    What passes on a variable is tested as a float, but negated as an int; it is returned as a string, and a
    conditional of such is stored as one.
   */
  lemma UntypedUsed(ar: Arith, e: Expr, vars: Store)
    requires Untyped(e)
    ensures TestedAs(ar, e, ReqFloat, vars) && NegatedAs(ar, e, ReqUInt, vars) && ReturnedAs(ar, e, ReqString, vars)
    ensures e.Conditional? ==> StoredAs(ar, e, ReqString, vars)
  {
    hide TestedAs, NegatedAs, ReturnedAs, StoredAs;
    UntypedPreferred(e);
    TestedInType(ar, e, vars);
    NegatedInType(ar, e, vars);
    ReturnedInType(ar, e, vars);
    if e.Conditional? {
      StoredInType(ar, e, vars);
    }
  }

  // ----- other types -----

  /** In any other type its value is the conversion of the one it computes, and its effects are the same. */
  ghost predicate Converts(ar: Arith, e: Expr, t: TypeReq, vars: Store) {
    var ef := Eval(ar, e, t, vars);
    forall u | u != ReqVar :: Eval(ar, e, u, vars) == Effect(Converted(ar, ef.out, u), ef.vars)
  }

  /** Operators, and assignments of what they compute; literals are converted when compiled, by other rules. */
  predicate Operates(e: Expr) {
    match e
    case IntLit(_) | FloatLit(_) | StrLit(_) | Constant(_) | Var(_, _) | Conditional(_, _, _) => false
    case Assign(_, _, rhs) => Operates(rhs) || rhs.IntLit? || rhs.FloatLit? || rhs.StrLit? || rhs.Constant?
    case _ => true
  }

  lemma {:induction false} OperatesConverts(ar: Arith, e: Expr, t: TypeReq, vars: Store)
    requires Operates(e) && Computes(e, t)
    ensures Converts(ar, e, t, vars)
  {
    ComputesPreferred(e, t);
    GivesType(ar, e, t, vars);
    match e
    case IntBinary(op, l, r) =>
      if op.LogicalOr? || op.LogicalAnd? {
        GivesType(ar, l, ReqUInt, vars);
        GivesType(ar, r, ReqUInt, Eval(ar, l, ReqUInt, vars).vars);
      }
    case Assign(_, _, rhs) =>
      GivesType(ar, rhs, t, vars);
    case _ =>
  }

  /**
    A conditional is of the type of its first branch: the second, when it is selected, is tested, returned and
    stored as that, so `c ? 1 : x / y` loses the fraction.
   */
  lemma ConditionalCuts(ar: Arith, c: Expr, a: Expr, b: Expr, t: TypeReq, u: TypeReq, vars: Store)
    requires Computes(a, t) && Operates(b) && Computes(b, u)
    ensures var e, ec := Conditional(c, a, b), Eval(ar, c, TestType(c), vars);
      var eb := Eval(ar, b, u, ec.vars);
      !True(ar, ec.out) ==>
        forall inLoop, fuel :: Exec(ar, Return(Present(e)), vars, inLoop, fuel)
          == Gave(Given(Converted(ar, eb.out, t)), eb.vars)
  {
    var e, ec := Conditional(c, a, b), Eval(ar, c, TestType(c), vars);
    UsedAsComputed(ar, e, t, vars);
    OperatesConverts(ar, b, u, ec.vars);
    TestedInType(ar, c, vars);
  }

  /** A comparison is 1 where it holds and 0 where it does not, the right operand being evaluated first. */
  lemma ComparesToOne(ar: Arith, op: CompareOp, l: Expr, r: Expr, vars: Store)
    ensures var er := Eval(ar, r, ReqFloat, vars);
      var el := Eval(ar, l, ReqFloat, er.vars);
      && el.out.FltValue? && er.out.FltValue?
      && Eval(ar, IntBinary(Compare(op), l, r), ReqUInt, vars)
          == Effect(IntValue(if ar.compare(op, el.out.f, er.out.f) then 1 else 0), el.vars)
  {
    GivesType(ar, r, ReqFloat, vars);
    var er := Eval(ar, r, ReqFloat, vars);
    GivesType(ar, l, ReqFloat, er.vars);
    var el := Eval(ar, l, ReqFloat, er.vars);
    assert Eval(ar, IntBinary(Compare(op), l, r), ReqUInt, vars)
        == Effect(Converted(ar, IntValue(StrictOp(ar, Compare(op), el.out, er.out)), ReqUInt), el.vars) by {
      hide StrictOp, Converted;
    }
  }

  /** `$=` is 1 where the strings agree but for case, `!$=` where they do not. */
  lemma AgreesToOne(ar: Arith, l: Expr, r: Expr, eq: bool, vars: Store)
    ensures var el := Eval(ar, l, ReqString, vars);
      var er := Eval(ar, r, ReqString, el.vars);
      && el.out.StrValue? && er.out.StrValue?
      && Eval(ar, StrEq(l, r, eq), ReqUInt, vars)
          == Effect(IntValue(if ar.equalIgnoringCase(el.out.s, er.out.s) == eq then 1 else 0), er.vars)
  {
    GivesType(ar, l, ReqString, vars);
    GivesType(ar, r, ReqString, Eval(ar, l, ReqString, vars).vars);
  }
}
