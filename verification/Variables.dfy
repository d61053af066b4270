/** What variables hold: copies are exact, and what was assigned is what is read back. */
module Variables {
  import opened Values
  import opened Ast
  import opened Machine
  import opened Semantics
  import opened StmtSemantics
  import opened Uses

  // ----- values in variables -----

  /** Rounding to single precision is done with after once, as with IEEE floats. */
  ghost predicate RoundsOnce(ar: Arith) {
    forall f :: ar.roundTo32(ar.roundTo32(f)) == ar.roundTo32(f)
  }

  /** A value as assignments leave it: a string, 32 bits, or a float of single precision. */
  predicate Canonical(ar: Arith, v: Value) {
    match v
    case VString(_) => true
    case VUnsigned(u) => 0 <= u < 0x1_0000_0000
    case VNumber(f) => ar.roundTo32(f) == f
  }

  predicate CanonicalStore(ar: Arith, vars: Store) {
    forall x | x in vars :: Canonical(ar, vars[x])
  }

  lemma StoredCanonical(ar: Arith, vars: Store, o: Out)
    requires RoundsOnce(ar)
    ensures Canonical(ar, Stored(ar, vars, o))
  {
  }

  /** No variable is lost, and a canonical store stays one. */
  ghost predicate Leaves(ar: Arith, vars: Store, after: Store) {
    vars.Keys <= after.Keys && (RoundsOnce(ar) && CanonicalStore(ar, vars) ==> CanonicalStore(ar, after))
  }

  lemma {:induction false} EvalCanonical(ar: Arith, e: Expr, t: TypeReq, vars: Store)
    ensures Leaves(ar, vars, Eval(ar, e, t, vars).vars)
    decreases e, 1
  {
    hide CanonicalStore, Canonical, RoundsOnce, Converted, Literal, ReadAs, StrictOp, UnaryResult, Stored;
    match e
    case IntLit(_) | FloatLit(_) | StrLit(_) | Constant(_) =>
    case Var(name, sub) =>
      TargetCanonical(ar, name, sub, vars);
    case FloatBinary(_, l, r) =>
      EvalCanonical(ar, r, ReqFloat, vars);
      EvalCanonical(ar, l, ReqFloat, Eval(ar, r, ReqFloat, vars).vars);
    case IntBinary(_, _, _) => IntBinaryCanonical(ar, e, t, vars);
    case IntUnary(op, x) => EvalCanonical(ar, x, UnaryType(op, x), vars);
    case FloatUnary(x) => EvalCanonical(ar, x, ReqFloat, vars);
    case Conditional(c, a, b) =>
      EvalCanonical(ar, c, TestType(c), vars);
      var v := Eval(ar, c, TestType(c), vars).vars;
      EvalCanonical(ar, a, t, v);
      EvalCanonical(ar, b, t, v);
    case StrEq(_, _, _) => PairCanonical(ar, e, vars);
    case StrCat(_, _, _) => PairCanonical(ar, e, vars);
    case CommaCat(_, _) => PairCanonical(ar, e, vars);
    case Assign(_, _, _) => AssignCanonical(ar, e, t, vars);
    case AssignOp(_, _, _, _) => CompoundCanonical(ar, e, t, vars);
  }

  lemma {:induction false} IntBinaryCanonical(ar: Arith, e: Expr, t: TypeReq, vars: Store)
    requires e.IntBinary?
    ensures Leaves(ar, vars, Eval(ar, e, t, vars).vars)
    decreases e, 0
  {
    hide CanonicalStore, RoundsOnce, Converted, StrictOp;
    if e.iop.LogicalOr? || e.iop.LogicalAnd? {
      EvalCanonical(ar, e.left, ReqUInt, vars);
      EvalCanonical(ar, e.right, ReqUInt, Eval(ar, e.left, ReqUInt, vars).vars);
    } else {
      var s := OperandType(e.iop);
      EvalCanonical(ar, e.right, s, vars);
      EvalCanonical(ar, e.left, s, Eval(ar, e.right, s, vars).vars);
    }
  }

  lemma {:induction false} AssignCanonical(ar: Arith, e: Expr, t: TypeReq, vars: Store)
    requires e.Assign?
    ensures Leaves(ar, vars, Eval(ar, e, t, vars).vars)
    decreases e, 0
  {
    hide CanonicalStore, RoundsOnce, Stored, Converted, Created;
    var s := AssignType(e.rhs, t);
    EvalCanonical(ar, e.rhs, s, vars);
    var er := Eval(ar, e.rhs, s, vars);
    TargetCanonical(ar, e.name, e.sub, er.vars);
    var n := Target(ar, e.name, e.sub, er.vars);
    StoreCanonical(ar, n.1, n.0, er.out);
  }

  lemma {:induction false} CompoundCanonical(ar: Arith, e: Expr, t: TypeReq, vars: Store)
    requires e.AssignOp?
    ensures Leaves(ar, vars, Eval(ar, e, t, vars).vars)
    decreases e, 0
  {
    hide CanonicalStore, RoundsOnce, Stored, Converted, Created, ReadAs, AssignOpResult;
    var s := AssignOpType(e.aop);
    EvalCanonical(ar, e.rhs, s, vars);
    var er := Eval(ar, e.rhs, s, vars);
    TargetCanonical(ar, e.name, e.sub, er.vars);
    var n := Target(ar, e.name, e.sub, er.vars);
    StoreCanonical(ar, n.1, n.0, AssignOpResult(ar, e.aop, ReadAs(ar, Created(n.1, n.0), Some(n.0), s), er.out));
  }

  lemma {:induction false} PairCanonical(ar: Arith, e: Expr, vars: Store)
    requires e.StrEq? || e.StrCat? || e.CommaCat?
    ensures var v := Eval(ar, e.left, ReqString, vars).vars;
      var w := Eval(ar, e.right, ReqString, v).vars;
      Leaves(ar, vars, w)
    decreases e, 0
  {
    EvalCanonical(ar, e.left, ReqString, vars);
    EvalCanonical(ar, e.right, ReqString, Eval(ar, e.left, ReqString, vars).vars);
  }

  lemma {:induction false} TargetCanonical(ar: Arith, name: CString, sub: OptExpr, vars: Store)
    ensures Leaves(ar, vars, Target(ar, name, sub, vars).1)
    decreases sub, 0
  {
    if sub.Present? {
      EvalCanonical(ar, sub.e, ReqString, vars);
    }
  }

  lemma StoreCanonical(ar: Arith, vars: Store, n: CString, o: Out)
    ensures var made := Created(vars, n);
      var after := made[n := Stored(ar, made, o)];
      Leaves(ar, vars, after)
  {
    var made := Created(vars, n);
    if RoundsOnce(ar) {
      StoredCanonical(ar, made, o);
    }
  }

  /** So does running a script, however it ends. */
  lemma {:induction false} BlockCanonical(ar: Arith, b: Block, vars: Store, inLoop: bool, fuel: nat)
    requires RoundsOnce(ar) && CanonicalStore(ar, vars)
    ensures var o := ExecBlock(ar, b, vars, inLoop, fuel); o.OutOfFuel? || CanonicalStore(ar, o.vars)
    decreases fuel, b, 4
  {
    hide CanonicalStore, RoundsOnce;
    if b.Then? {
      StmtCanonical(ar, b.first, vars, inLoop, fuel);
      var o := Exec(ar, b.first, vars, inLoop, fuel);
      if o.Normal? {
        BlockCanonical(ar, b.rest, o.vars, inLoop, fuel);
      }
    }
  }

  lemma {:induction false} StmtCanonical(ar: Arith, st: Stmt, vars: Store, inLoop: bool, fuel: nat)
    requires RoundsOnce(ar) && CanonicalStore(ar, vars)
    ensures var o := Exec(ar, st, vars, inLoop, fuel); o.OutOfFuel? || CanonicalStore(ar, o.vars)
    decreases fuel, st, 3
  {
    hide CanonicalStore, RoundsOnce;
    match st
    case ExprStmt(e) => EvalCanonical(ar, e, ReqNone, vars);
    case Break | Continue | Return(Absent) =>
    case Return(Present(e)) => EvalCanonical(ar, e, ReturnType(e), vars);
    case If(test, thn, els) =>
      EvalCanonical(ar, test, TestType(test), vars);
      var ef := Eval(ar, test, TestType(test), vars);
      BlockCanonical(ar, if Holds(ar, ef.out) then thn else els, ef.vars, inLoop, fuel);
    case Loop(init, test, step, body, isDo) =>
      EffectsCanonical(ar, init, vars);
      var v0 := Effects(ar, init, vars);
      if isDo {
        RoundsCanonical(ar, st, v0, fuel);
      } else {
        EvalCanonical(ar, test, TestType(test), v0);
        RoundsCanonical(ar, st, Eval(ar, test, TestType(test), v0).vars, fuel);
      }
  }

  lemma EffectsCanonical(ar: Arith, o: OptExpr, vars: Store)
    requires RoundsOnce(ar) && CanonicalStore(ar, vars)
    ensures CanonicalStore(ar, Effects(ar, o, vars))
  {
    if o.Present? {
      EvalCanonical(ar, o.e, ReqNone, vars);
    }
  }

  lemma {:induction false} RoundsCanonical(ar: Arith, st: Stmt, vars: Store, fuel: nat)
    requires st.Loop? && RoundsOnce(ar) && CanonicalStore(ar, vars)
    ensures var o := Rounds(ar, st, vars, fuel); o.OutOfFuel? || CanonicalStore(ar, o.vars)
    decreases fuel, st, 1
  {
    hide CanonicalStore, RoundsOnce;
    BlockCanonical(ar, st.body, vars, true, fuel);
    var o := ExecBlock(ar, st.body, vars, true, fuel);
    if o.Normal? || o.Continued? {
      EffectsCanonical(ar, st.step, o.vars);
      var v0 := Effects(ar, st.step, o.vars);
      EvalCanonical(ar, st.test, TestType(st.test), v0);
      if fuel > 0 {
        RoundsCanonical(ar, st, Eval(ar, st.test, TestType(st.test), v0).vars, fuel - 1);
      }
    }
  }

  // ----- copies -----

  /**
    An assignment from a variable or element to another. The target holds exactly what the source does, once
    both indices are evaluated, if that is as assignments leave it; without a source, the empty string.
   */
  lemma CopiesExactly(ar: Arith, a: CString, i: OptExpr, b: CString, j: OptExpr, vars: Store)
    requires RoundsOnce(ar)
    ensures var source := Target(ar, b, j, vars);
      var target := Target(ar, a, i, source.1);
      var after := Eval(ar, Assign(a, i, Var(b, j)), ReqNone, vars).vars;
      && target.0 in after && after == target.1[target.0 := after[target.0]]
      && (source.0 !in source.1 ==> after[target.0] == VString(""))
      && (source.0 in source.1 ==>
            && source.0 in target.1
            && (after[target.0] == target.1[source.0] <==> Canonical(ar, target.1[source.0])))
  {
    var source := Target(ar, b, j, vars);
    var target := Target(ar, a, i, source.1);
    TargetCanonical(ar, a, i, source.1);
    CopyGives(ar, a, i, b, j, vars);
    hide Eval;
  }

  lemma CopyGives(ar: Arith, a: CString, i: OptExpr, b: CString, j: OptExpr, vars: Store)
    ensures var source := Target(ar, b, j, vars);
      var target := Target(ar, a, i, source.1);
      var made := Created(target.1, target.0);
      Eval(ar, Assign(a, i, Var(b, j)), ReqNone, vars).vars
          == target.1[target.0 := Stored(ar, made, Ref(Existing(source.1, source.0)))]
  {
    hide Target, Stored;
    var source := Target(ar, b, j, vars);
    var target := Target(ar, a, i, source.1);
    UntypedPreferred(Var(b, j));
    var made := Created(target.1, target.0);
    var o := Ref(Existing(source.1, source.0));
    assert Eval(ar, Var(b, j), ReqVar, vars) == Effect(o, source.1);
    assert made[target.0 := Stored(ar, made, o)] == target.1[target.0 := Stored(ar, made, o)];
  }

  // ----- reading back -----

  /** `n` is the signed 32 bits of `i`. */
  predicate Wraps(n: int, i: int) {
    -0x8000_0000 <= n < 0x8000_0000 && (n - i) % 0x1_0000_0000 == 0
  }

  /** What a variable that was assigned the value `o` reads as. */
  predicate ReadsAs(ar: Arith, o: Out, r: Out) {
    match (o, r)
    case (IntValue(i), IntValue(n)) => Wraps(n, i)
    case (IntValue(i), FltValue(f)) => f == ar.roundTo32(ar.floatOfInt(i % 0x1_0000_0000))
    case (IntValue(i), StrValue(s)) => s == ar.showInt(i % 0x1_0000_0000)
    case (FltValue(f), IntValue(n)) => Wraps(n, ar.truncate(ar.roundTo32(f)))
    case (FltValue(f), FltValue(g)) => g == ar.roundTo32(f)
    case (FltValue(f), StrValue(s)) => s == ar.showFloat(ar.roundTo32(f))
    case (StrValue(s), IntValue(n)) => Wraps(n, ar.parseInt(s))
    case (StrValue(s), FltValue(f)) => f == ar.roundTo32(ar.parseFloat(s))
    case (StrValue(s), StrValue(r)) => s == r
    case _ => false
  }

  lemma Congruent(i: int)
    ensures Wraps(ToS32(i), i)
  {
    var n := ToS32(i);
    assert n % 0x1_0000_0000 == i % 0x1_0000_0000;
    assert n - i == (n / 0x1_0000_0000 - i / 0x1_0000_0000) * 0x1_0000_0000;
  }

  lemma CongruentWord(i: int)
    ensures Wraps(ToS32(i % 0x1_0000_0000), i)
  {
    var u := i % 0x1_0000_0000;
    Congruent(u);
    assert ToS32(u) - i == (ToS32(u) - u) - i / 0x1_0000_0000 * 0x1_0000_0000;
  }

  lemma HeldReads(ar: Arith, vars: Store, x: CString, o: Out, t: TypeReq)
    requires RoundsOnce(ar) && x in vars && vars[x] == Kept(ar, o)
    requires o.IntValue? || o.FltValue? || o.StrValue?
    requires t in {ReqUInt, ReqFloat, ReqString}
    ensures var read := Eval(ar, Var(x, Absent), t, vars);
      Shape(read.out, t) && ReadsAs(ar, o, read.out) && read.vars == vars
  {
    assert Target(ar, x, Absent, vars) == (x, vars);
    match o
    case IntValue(i) => CongruentWord(i);
    case FltValue(f) => Congruent(ar.truncate(ar.roundTo32(f)));
    case StrValue(s) => Congruent(ar.parseInt(s));
  }

  lemma StoredThere(ar: Arith, x: CString, sub: OptExpr, e: Expr, t: TypeReq, vars: Store)
    requires StoredAs(ar, e, t, vars)
    ensures var ef := Eval(ar, e, t, vars);
      var n := Target(ar, x, sub, ef.vars).0;
      var after := Eval(ar, Assign(x, sub, e), ReqNone, vars).vars;
      n in after && after[n] == Kept(ar, ef.out)
      && after == Target(ar, x, sub, ef.vars).1[n := after[n]]
  {
  }

  /**
    After `x = e`, or an element of `x`, reading it in any type gives what `e` computed: a string as it is, an
    int as its signed 32 bits, a float in single precision, and in other types what those are converted to.
   */
  lemma ReadsBack(ar: Arith, x: CString, sub: OptExpr, e: Expr, s: TypeReq, t: TypeReq, vars: Store)
    requires RoundsOnce(ar) && Computes(e, s) && t in {ReqUInt, ReqFloat, ReqString}
    ensures var ef := Eval(ar, e, s, vars);
      var n := Target(ar, x, sub, ef.vars).0;
      var after := Eval(ar, Assign(x, sub, e), ReqNone, vars).vars;
      var read := Eval(ar, Var(n, Absent), t, after);
      Shape(read.out, t) && ReadsAs(ar, ef.out, read.out) && read.vars == after
  {
    hide StoredAs, Eval, Target, ReadsAs;
    UsedAsComputed(ar, e, s, vars);
    GivesType(ar, e, s, vars);
    StoredThere(ar, x, sub, e, s, vars);
    var ef := Eval(ar, e, s, vars);
    HeldReads(ar, Eval(ar, Assign(x, sub, e), ReqNone, vars).vars, Target(ar, x, sub, ef.vars).0, ef.out, t);
  }

  /** A variable that was never assigned reads as zero or as the empty string, and reading does not make it. */
  lemma MissingReads(ar: Arith, x: CString, vars: Store)
    requires x !in vars
    ensures Eval(ar, Var(x, Absent), ReqUInt, vars) == Effect(IntValue(0), vars)
    ensures Eval(ar, Var(x, Absent), ReqFloat, vars) == Effect(FltValue(ar.floatOfInt(0)), vars)
    ensures Eval(ar, Var(x, Absent), ReqString, vars) == Effect(StrValue(""), vars)
  {
    assert Target(ar, x, Absent, vars) == (x, vars);
  }

  // ----- compound assignments -----

  function Operation(op: AssignOperator, l: Expr, r: Expr): Expr {
    match op
    case FloatAssign(f) => FloatBinary(f, l, r)
    case BitAssign(b) => IntBinary(Bits(b), l, r)
  }

  /** `x += e` stores what `x = x + e` does, for every operator, if `x` is there once `e` is evaluated. */
  lemma CompoundStores(ar: Arith, x: CString, op: AssignOperator, e: Expr, vars: Store)
    requires x in Eval(ar, e, AssignOpType(op), vars).vars
    ensures Eval(ar, AssignOp(x, Absent, op, e), ReqNone, vars).vars
         == Eval(ar, Assign(x, Absent, Operation(op, Var(x, Absent), e)), ReqNone, vars).vars
  {
    var t := AssignOpType(op);
    var er := Eval(ar, e, t, vars);
    var o := AssignOpResult(ar, op, ReadAs(ar, er.vars, Some(x), t), er.out);
    OperationGives(ar, x, op, e, vars);
    CompoundGives(ar, x, Absent, op, e, vars);
    hide AssignOpResult, ReadAs, Eval;
    assert Target(ar, x, Absent, er.vars) == (x, er.vars);
    UsedAsComputed(ar, Operation(op, Var(x, Absent), e), t, vars);
    StoredThere(ar, x, Absent, Operation(op, Var(x, Absent), e), t, vars);
  }

  lemma OperationGives(ar: Arith, x: CString, op: AssignOperator, e: Expr, vars: Store)
    requires x in Eval(ar, e, AssignOpType(op), vars).vars
    ensures var t := AssignOpType(op);
      var er := Eval(ar, e, t, vars);
      Eval(ar, Operation(op, Var(x, Absent), e), t, vars)
          == Effect(AssignOpResult(ar, op, ReadAs(ar, er.vars, Some(x), t), er.out), er.vars)
  {
    var t := AssignOpType(op);
    var er := Eval(ar, e, t, vars);
    assert Target(ar, x, Absent, er.vars) == (x, er.vars);
    assert Eval(ar, Var(x, Absent), t, er.vars) == Effect(ReadAs(ar, er.vars, Some(x), t), er.vars);
  }

  /** The operator's result is kept in the variable the name and index denote. */
  lemma CompoundGives(ar: Arith, x: CString, sub: OptExpr, op: AssignOperator, e: Expr, vars: Store)
    ensures var er := Eval(ar, e, AssignOpType(op), vars);
      var n := Target(ar, x, sub, er.vars);
      var o := AssignOpResult(ar, op, ReadAs(ar, Created(n.1, n.0), Some(n.0), AssignOpType(op)), er.out);
      Eval(ar, AssignOp(x, sub, op, e), ReqNone, vars).vars == n.1[n.0 := Kept(ar, o)]
  {
    hide ReadAs, Target;
    var er := Eval(ar, e, AssignOpType(op), vars);
    var n := Target(ar, x, sub, er.vars);
    var made := Created(n.1, n.0);
    var o := AssignOpResult(ar, op, ReadAs(ar, made, Some(n.0), AssignOpType(op)), er.out);
    assert Stored(ar, made, o) == Kept(ar, o);
    assert made[n.0 := Kept(ar, o)] == n.1[n.0 := Kept(ar, o)];
  }

  /**
    Of a variable or element that is not there, it stores what the operator makes of the empty string, read as
    a number, and of `e`.
   */
  lemma CompoundMakes(ar: Arith, x: CString, sub: OptExpr, op: AssignOperator, e: Expr, vars: Store)
    requires var n := Target(ar, x, sub, Eval(ar, e, AssignOpType(op), vars).vars); n.0 !in n.1
    ensures var er := Eval(ar, e, AssignOpType(op), vars);
      var n := Target(ar, x, sub, er.vars);
      var after := Eval(ar, AssignOp(x, sub, op, e), ReqNone, vars).vars;
      match op
      case FloatAssign(f) =>
        && er.out.FltValue?
        && after == n.1[n.0 := VNumber(ar.roundTo32(ar.floatOp(f, ar.roundTo32(ar.parseFloat("")), er.out.f)))]
      case BitAssign(b) =>
        && er.out.IntValue?
        && exists zero ::
            && Wraps(zero, ar.parseInt(""))
            && after == n.1[n.0 := VUnsigned(ar.bitOp(b, zero, er.out.i) % 0x1_0000_0000)]
  {
    GivesType(ar, e, AssignOpType(op), vars);
    Congruent(ar.parseInt(""));
    CompoundGives(ar, x, sub, op, e, vars);
  }

  // ----- a script -----

  /** `b = e; a = b; return a;` */
  function CopyScript(a: CString, b: CString, e: Expr): Block {
    Then(ExprStmt(Assign(b, Absent, e)),
         Then(ExprStmt(Assign(a, Absent, Var(b, Absent))), Then(Return(Present(Var(a, Absent))), End)))
  }

  /** It returns, as a string, what `e` computes as variables keep it: a string exactly. */
  lemma ScriptCopies(ar: Arith, a: CString, b: CString, e: Expr, t: TypeReq, vars: Store, fuel: nat)
    requires RoundsOnce(ar) && Computes(e, t)
    ensures var o := ExecBlock(ar, CopyScript(a, b, e), vars, false, fuel);
      o.Gave? && o.result.VString? && ReadsAs(ar, Eval(ar, e, t, vars).out, StrValue(o.result.s))
  {
    var ef := Eval(ar, e, t, vars);
    UsedAsComputed(ar, e, t, vars);
    GivesType(ar, e, t, vars);
    StoredThere(ar, b, Absent, e, t, vars);
    var held := Eval(ar, Assign(b, Absent, e), ReqNone, vars).vars;
    hide StoredAs, TestedAs, NegatedAs, Eval;
    assert Target(ar, b, Absent, ef.vars) == (b, ef.vars);
    assert held[b] == Kept(ar, ef.out);
    CopiesExactly(ar, a, Absent, b, Absent, held);
    var copied := Eval(ar, Assign(a, Absent, Var(b, Absent)), ReqNone, held).vars;
    assert Target(ar, b, Absent, held) == (b, held) == Target(ar, b, Absent, held);
    assert Target(ar, a, Absent, held) == (a, held);
    assert copied[a] == Kept(ar, ef.out);
    HeldReads(ar, copied, a, ef.out, ReqString);
    UntypedUsed(ar, Var(a, Absent), copied);
    ThreeStatements(ar, a, b, e, vars, fuel);
  }

  lemma ThreeStatements(ar: Arith, a: CString, b: CString, e: Expr, vars: Store, fuel: nat)
    ensures var held := Eval(ar, Assign(b, Absent, e), ReqNone, vars).vars;
      var copied := Eval(ar, Assign(a, Absent, Var(b, Absent)), ReqNone, held).vars;
      ExecBlock(ar, CopyScript(a, b, e), vars, false, fuel)
          == Exec(ar, Return(Present(Var(a, Absent))), copied, false, fuel)
  {
    hide Eval;
    var held := Eval(ar, Assign(b, Absent, e), ReqNone, vars).vars;
    var copied := Eval(ar, Assign(a, Absent, Var(b, Absent)), ReqNone, held).vars;
    var last := Then(Return(Present(Var(a, Absent))), End);
    assert ExecBlock(ar, last, copied, false, fuel) == Exec(ar, Return(Present(Var(a, Absent))), copied, false, fuel);
    var rest := Then(ExprStmt(Assign(a, Absent, Var(b, Absent))), last);
    assert ExecBlock(ar, rest, held, false, fuel) == ExecBlock(ar, last, copied, false, fuel);
  }
}
