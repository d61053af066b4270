/** `switch` statements: a chain of ifs whose tests are rewritten from lists of case values. */
module Switch {
  import opened Values
  import opened Ast
  import opened Machine
  import opened Semantics
  import opened StmtSemantics

  /** The values of one case, joined by `or`. */
  datatype CaseValues = One(e: Expr) | More(e: Expr, rest: CaseValues)

  /** A case, with what follows it: another case, a default, or nothing. */
  datatype Cases = Case(values: CaseValues, body: Block, rest: Cases) | Default(body: Block) | Nothing

  function EqualTo(left: Expr, e: Expr, isString: bool): Expr {
    if isString then StrEq(left, e, true) else IntBinary(Compare(Equal), left, e)
  }

  /** getSwitchOR: the test of a case. */
  function SwitchOr(left: Expr, values: CaseValues, isString: bool): Expr {
    match values
    case One(e) => EqualTo(left, e, isString)
    case More(e, rest) => IntBinary(LogicalOr, EqualTo(left, e, isString), SwitchOr(left, rest, isString))
  }

  /** The block of ifs a switch becomes. */
  function Desugared(left: Expr, cases: Cases, isString: bool): Block {
    match cases
    case Case(values, body, rest) =>
      Then(If(SwitchOr(left, values, isString), body, Desugared(left, rest, isString)), End)
    case Default(body) => body
    case Nothing => End
  }

  // ----- what a switch means -----

  function SwitchType(isString: bool): TypeReq {
    if isString then ReqString else ReqFloat
  }

  predicate Matches(ar: Arith, selector: Out, value: Out, isString: bool) {
    if isString then ar.equalIgnoringCase(AsStr(selector), AsStr(value))
    else ar.compare(Equal, AsFlt(selector), AsFlt(value))
  }

  /** Whether the selector's value is among the values, which are evaluated up to the first that matches. */
  function TryValues(ar: Arith, selector: Out, values: CaseValues, isString: bool, vars: Store): (bool, Store) {
    var ev := Eval(ar, values.e, SwitchType(isString), vars);
    if values.One? || Matches(ar, selector, ev.out, isString) then (Matches(ar, selector, ev.out, isString), ev.vars)
    else TryValues(ar, selector, values.rest, isString, ev.vars)
  }

  /** Runs the body of the first case that lists the selector's value, else the default, if any. */
  function RunCases(ar: Arith, selector: Out, cases: Cases, isString: bool, vars: Store, inLoop: bool,
      fuel: nat): Outcome {
    match cases
    case Case(values, body, rest) =>
      var tried := TryValues(ar, selector, values, isString, vars);
      if tried.0 then ExecBlock(ar, body, tried.1, inLoop, fuel)
      else RunCases(ar, selector, rest, isString, tried.1, inLoop, fuel)
    case Default(body) => ExecBlock(ar, body, vars, inLoop, fuel)
    case Nothing => Normal(vars)
  }

  /** In this store the selector has that value, and evaluating it changes nothing. */
  ghost predicate Steady(ar: Arith, left: Expr, t: TypeReq, selector: Out, vars: Store) {
    Eval(ar, left, t, vars) == Effect(selector, vars)
  }

  /** Evaluating the case values, as far as that goes, does not disturb the selector. */
  ghost predicate SteadyValues(ar: Arith, left: Expr, selector: Out, values: CaseValues, isString: bool, vars: Store) {
    var ev := Eval(ar, values.e, SwitchType(isString), vars);
    && Steady(ar, left, SwitchType(isString), selector, vars)
    && Steady(ar, left, SwitchType(isString), selector, ev.vars)
    && (values.More? && !Matches(ar, selector, ev.out, isString) ==>
          SteadyValues(ar, left, selector, values.rest, isString, ev.vars))
  }

  ghost predicate SteadyCases(ar: Arith, left: Expr, selector: Out, cases: Cases, isString: bool, vars: Store) {
    match cases
    case Case(values, _, rest) =>
      && SteadyValues(ar, left, selector, values, isString, vars)
      && var tried := TryValues(ar, selector, values, isString, vars);
      (!tried.0 ==> SteadyCases(ar, left, selector, rest, isString, tried.1))
    case _ => true
  }

  // ----- the ifs do that -----

  lemma EqualToMeans(ar: Arith, left: Expr, e: Expr, isString: bool, selector: Out, vars: Store)
    requires var ev := Eval(ar, e, SwitchType(isString), vars);
      && Steady(ar, left, SwitchType(isString), selector, vars)
      && Steady(ar, left, SwitchType(isString), selector, ev.vars)
    ensures var ev := Eval(ar, e, SwitchType(isString), vars);
      Eval(ar, EqualTo(left, e, isString), ReqUInt, vars)
          == Effect(IntValue(Bool(Matches(ar, selector, ev.out, isString))), ev.vars)
  {
    var q := EqualTo(left, e, isString);
    assert Eval(ar, q, ReqUInt, vars) == EvalNode(ar, q, ReqUInt, vars);
    hide Eval;
  }

  lemma OrMeans(ar: Arith, l: Expr, r: Expr, vars: Store)
    requires Eval(ar, l, ReqUInt, vars).out.IntValue?
    ensures var el := Eval(ar, l, ReqUInt, vars);
      var ef := if AsInt(el.out) != 0 then el else Eval(ar, r, ReqUInt, el.vars);
      Eval(ar, IntBinary(LogicalOr, l, r), ReqUInt, vars) == Effect(Converted(ar, ef.out, ReqUInt), ef.vars)
  {
    var q := IntBinary(LogicalOr, l, r);
    assert Eval(ar, q, ReqUInt, vars) == EvalNode(ar, q, ReqUInt, vars);
    hide Eval;
  }

  lemma {:induction false} SwitchOrMeans(ar: Arith, left: Expr, values: CaseValues, isString: bool, selector: Out,
      vars: Store)
    requires SteadyValues(ar, left, selector, values, isString, vars)
    ensures var tried := TryValues(ar, selector, values, isString, vars);
      Eval(ar, SwitchOr(left, values, isString), ReqUInt, vars) == Effect(IntValue(Bool(tried.0)), tried.1)
    decreases values
  {
    hide Eval, Matches;
    EqualToMeans(ar, left, values.e, isString, selector, vars);
    if values.More? {
      var ev := Eval(ar, values.e, SwitchType(isString), vars);
      OrMeans(ar, EqualTo(left, values.e, isString), SwitchOr(left, values.rest, isString), vars);
      if !Matches(ar, selector, ev.out, isString) {
        SwitchOrMeans(ar, left, values.rest, isString, selector, ev.vars);
      }
    }
  }

  lemma TestsInts(left: Expr, values: CaseValues, isString: bool)
    ensures TestType(SwitchOr(left, values, isString)) == ReqUInt
  {
  }

  /**
    The rewritten switch runs the body of the first case whose list holds the selector's value, else the
    default, whatever the bodies are and however many cases there are - given that evaluating the selector
    has no effect and the case values do not change what it is.
   */
  lemma {:induction false} SwitchMeans(ar: Arith, left: Expr, cases: Cases, isString: bool, selector: Out,
                                       vars: Store, inLoop: bool, fuel: nat)
    requires SteadyCases(ar, left, selector, cases, isString, vars)
    ensures ExecBlock(ar, Desugared(left, cases, isString), vars, inLoop, fuel)
         == RunCases(ar, selector, cases, isString, vars, inLoop, fuel)
    decreases cases
  {
    hide Eval, Matches, SwitchOr, TestType;
    if cases.Case? {
      var test := SwitchOr(left, cases.values, isString);
      var els := Desugared(left, cases.rest, isString);
      SwitchOrMeans(ar, left, cases.values, isString, selector, vars);
      TestsInts(left, cases.values, isString);
      var tried := TryValues(ar, selector, cases.values, isString, vars);
      if !tried.0 {
        SwitchMeans(ar, left, cases.rest, isString, selector, tried.1, inLoop, fuel);
      }
      IfMeans(ar, test, cases.body, els, vars, inLoop, fuel);
    }
  }

  // ----- parts without assignments -----

  /** No assignment in it. */
  predicate EffectFree(e: Expr)
    decreases e, 1
  {
    match e
    case IntLit(_) | FloatLit(_) | StrLit(_) | Constant(_) => true
    case Var(_, sub) => sub.Present? ==> EffectFree(sub.e)
    case FloatBinary(_, l, r) => EffectFree(l) && EffectFree(r)
    case IntBinary(_, l, r) => EffectFree(l) && EffectFree(r)
    case IntUnary(_, x) => EffectFree(x)
    case FloatUnary(x) => EffectFree(x)
    case Conditional(c, a, b) => EffectFree(c) && EffectFree(a) && EffectFree(b)
    case StrEq(l, r, _) => EffectFree(l) && EffectFree(r)
    case StrCat(l, r, _) => EffectFree(l) && EffectFree(r)
    case CommaCat(l, r) => EffectFree(l) && EffectFree(r)
    case Assign(_, _, _) | AssignOp(_, _, _, _) => false
  }

  predicate EffectFreeValues(values: CaseValues) {
    EffectFree(values.e) && (values.More? ==> EffectFreeValues(values.rest))
  }

  predicate EffectFreeCases(cases: Cases) {
    cases.Case? ==> EffectFreeValues(cases.values) && EffectFreeCases(cases.rest)
  }

  lemma {:induction false} EffectFreeKeeps(ar: Arith, e: Expr, t: TypeReq, vars: Store)
    requires EffectFree(e)
    ensures Eval(ar, e, t, vars).vars == vars
    decreases e, 1
  {
    assert Eval(ar, e, t, vars) == EvalNode(ar, e, t, vars);
    hide Eval;
    match e
    case IntLit(_) | FloatLit(_) | StrLit(_) | Constant(_) =>
    case Var(name, sub) =>
      assert Target(ar, name, sub, vars).1 == if sub.Present? then Eval(ar, sub.e, ReqString, vars).vars else vars;
      if sub.Present? {
        EffectFreeKeeps(ar, sub.e, ReqString, vars);
      }
    case FloatBinary(_, l, r) =>
      EffectFreeKeeps(ar, l, ReqFloat, vars);
      EffectFreeKeeps(ar, r, ReqFloat, vars);
    case IntBinary(op, l, r) =>
      EffectFreeKeeps(ar, l, OperandType(op), vars);
      EffectFreeKeeps(ar, r, OperandType(op), vars);
    case IntUnary(op, x) => EffectFreeKeeps(ar, x, UnaryType(op, x), vars);
    case FloatUnary(x) => EffectFreeKeeps(ar, x, ReqFloat, vars);
    case Conditional(c, a, b) =>
      EffectFreeKeeps(ar, c, TestType(c), vars);
      EffectFreeKeeps(ar, if Holds(ar, Eval(ar, c, TestType(c), vars).out) then a else b, t, vars);
    case StrEq(l, r, _) =>
      EffectFreeKeeps(ar, l, ReqString, vars);
      EffectFreeKeeps(ar, r, ReqString, vars);
    case StrCat(l, r, _) =>
      EffectFreeKeeps(ar, l, ReqString, vars);
      EffectFreeKeeps(ar, r, ReqString, vars);
    case CommaCat(l, r) =>
      EffectFreeKeeps(ar, l, ReqString, vars);
      EffectFreeKeeps(ar, r, ReqString, vars);
    case Assign(_, _, _) | AssignOp(_, _, _, _) =>
  }

  lemma {:induction false} EffectFreeValuesSteady(ar: Arith, left: Expr, selector: Out, values: CaseValues,
      isString: bool, vars: Store)
    requires EffectFreeValues(values) && Steady(ar, left, SwitchType(isString), selector, vars)
    ensures SteadyValues(ar, left, selector, values, isString, vars)
    ensures TryValues(ar, selector, values, isString, vars).1 == vars
    decreases values
  {
    hide Eval, Matches;
    EffectFreeKeeps(ar, values.e, SwitchType(isString), vars);
    if values.More? {
      EffectFreeValuesSteady(ar, left, selector, values.rest, isString, vars);
    }
  }

  lemma {:induction false} EffectFreeSteady(ar: Arith, left: Expr, selector: Out, cases: Cases, isString: bool,
      vars: Store)
    requires EffectFreeCases(cases) && Steady(ar, left, SwitchType(isString), selector, vars)
    ensures SteadyCases(ar, left, selector, cases, isString, vars)
    decreases cases
  {
    hide Steady, SteadyValues, TryValues;
    if cases.Case? {
      EffectFreeValuesSteady(ar, left, selector, cases.values, isString, vars);
      EffectFreeSteady(ar, left, selector, cases.rest, isString, vars);
    }
  }

  /** A switch without assignments in its selector and its case values does what it says in every store. */
  lemma EffectFreeSwitch(ar: Arith, left: Expr, cases: Cases, isString: bool, vars: Store, inLoop: bool, fuel: nat)
    requires EffectFree(left) && EffectFreeCases(cases)
    ensures ExecBlock(ar, Desugared(left, cases, isString), vars, inLoop, fuel)
         == RunCases(ar, Eval(ar, left, SwitchType(isString), vars).out, cases, isString, vars, inLoop, fuel)
  {
    EffectFreeKeeps(ar, left, SwitchType(isString), vars);
    var selector := Eval(ar, left, SwitchType(isString), vars).out;
    hide Eval, SteadyCases, ExecBlock, Desugared, RunCases;
    EffectFreeSteady(ar, left, selector, cases, isString, vars);
    SwitchMeans(ar, left, cases, isString, selector, vars, inLoop, fuel);
  }

  lemma IfMeans(ar: Arith, test: Expr, thn: Block, els: Block, vars: Store, inLoop: bool, fuel: nat)
    ensures var ef := Eval(ar, test, TestType(test), vars);
      ExecBlock(ar, Then(If(test, thn, els), End), vars, inLoop, fuel)
      == ExecBlock(ar, if Holds(ar, ef.out) then thn else els, ef.vars, inLoop, fuel)
  {
    hide Eval, TestType;
    var ef := Eval(ar, test, TestType(test), vars);
    var o := Exec(ar, If(test, thn, els), vars, inLoop, fuel);
    assert o == ExecBlock(ar, if Holds(ar, ef.out) then thn else els, ef.vars, inLoop, fuel);
    if o.Normal? {
      assert ExecBlock(ar, End, o.vars, inLoop, fuel) == o;
    }
  }

  // ----- and the compiler serves them -----

  predicate FitsValues(values: CaseValues, isString: bool) {
    Fits(values.e, SwitchType(isString)) && (values.More? ==> FitsValues(values.rest, isString))
  }

  predicate FitsCases(cases: Cases, isString: bool) {
    match cases
    case Case(values, body, rest) => FitsValues(values, isString) && FitsBlock(body) && FitsCases(rest, isString)
    case Default(body) => FitsBlock(body)
    case Nothing => true
  }

  lemma {:induction false} SwitchOrFits(left: Expr, values: CaseValues, isString: bool)
    requires Fits(left, SwitchType(isString)) && FitsValues(values, isString)
    ensures Fits(SwitchOr(left, values, isString), ReqUInt)
    decreases values
  {
    EqualToFits(left, values.e, isString);
    if values.More? {
      SwitchOrFits(left, values.rest, isString);
      OrFits(EqualTo(left, values.e, isString), SwitchOr(left, values.rest, isString));
    }
  }

  lemma EqualToFits(left: Expr, e: Expr, isString: bool)
    requires Fits(left, SwitchType(isString)) && Fits(e, SwitchType(isString))
    ensures Fits(EqualTo(left, e, isString), ReqUInt)
  {
  }

  lemma OrFits(l: Expr, r: Expr)
    requires Fits(l, ReqUInt) && Fits(r, ReqUInt) && (r.IntBinary? || r.StrEq?)
    ensures Fits(IntBinary(LogicalOr, l, r), ReqUInt)
  {
  }

  /** A switch over parts the compiler serves is served: the ors it makes never meet its slips. */
  lemma {:induction false} SwitchFits(left: Expr, cases: Cases, isString: bool)
    requires Fits(left, SwitchType(isString)) && FitsCases(cases, isString)
    ensures FitsBlock(Desugared(left, cases, isString))
    decreases cases
  {
    hide Fits, SwitchOr;
    if cases.Case? {
      SwitchOrFits(left, cases.values, isString);
      TestsInts(left, cases.values, isString);
      SwitchFits(left, cases.rest, isString);
    }
  }

  // ----- the rewriting in place -----

  /** An if node of a switch under construction: first the list of values, then the test. */
  datatype Test = Listed(values: CaseValues) | Built(e: Expr)

  class CaseNode {
    var test: Test
    const body: Block
    const next: CaseNode?     // the else block, when it is another case
    const otherwise: Option<Block>  // the else block, when it is a default's body
    ghost const depth: nat

    constructor (values: CaseValues, b: Block, n: CaseNode?, o: Option<Block>)
      requires n != null ==> n.Linked()
      ensures Linked() && test == Listed(values) && body == b && next == n && otherwise == o
    {
      test, body, next, otherwise := Listed(values), b, n, o;
      depth := if n == null then 0 else n.depth + 1;
    }

    ghost predicate Linked()
      decreases depth
    {
      next != null ==> next.depth < depth && next.Linked()
    }

    ghost function Nodes(): set<CaseNode>
      requires Linked()
      decreases depth
    {
      {this} + (if next == null then {} else next.Nodes())
    }

    /** The cases from this one on, while the tests are still lists. */
    ghost function Remaining(): Cases
      requires Linked()
      reads Nodes()
      decreases depth
    {
      Case(if test.Listed? then test.values else One(test.e), body,
           if next != null then next.Remaining() else if otherwise.Some? then Default(otherwise.value) else Nothing)
    }

    ghost predicate Unbuilt()
      requires Linked()
      reads Nodes()
      decreases depth
    {
      test.Listed? && (next != null ==> next.Unbuilt())
    }

    /** The statement the nodes stand for once the tests are built. */
    ghost function Statement(): Block
      requires Linked()
      reads Nodes()
      decreases depth
    {
      Then(If(if test.Built? then test.e else test.values.e, body,
              if next != null then next.Statement() else if otherwise.Some? then otherwise.value else End), End)
    }

    lemma NodesBelow()
      requires Linked()
      ensures forall n :: n in Nodes() ==> n.depth <= depth
      decreases depth
    {
      if next != null {
        next.NodesBelow();
      }
    }

    method PropagateSwitchExpr(left: Expr, isString: bool)
      requires Linked() && Unbuilt()
      modifies Nodes()
      ensures Statement() == Desugared(left, old(Remaining()), isString)
      decreases depth
    {
      if next != null {
        next.NodesBelow();
        assert this !in next.Nodes();
      }
      test := Built(SwitchOr(left, test.values, isString));
      if next != null {
        next.PropagateSwitchExpr(left, isString);
      }
    }
  }
}
