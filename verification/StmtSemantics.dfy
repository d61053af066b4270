/** The big-step meaning of statements, which statements the compiler serves, and the room they need. */
module StmtSemantics {
  import opened Values
  import opened Ast
  import opened Machine
  import opened Semantics

  /** How a statement ends. `OutOfFuel`: some loop was about to run more rounds than the fuel allows. */
  datatype Outcome =
    | Normal(vars: Store)
    | Broke(vars: Store)
    | Continued(vars: Store)
    | Gave(result: Value, vars: Store)
    | OutOfFuel

  function ReturnValue(o: Out): Value {
    match o
    case IntValue(i) => VUnsigned(ToU32(i))
    case FltValue(f) => VNumber(f)
    case StrValue(s) => VString(s)
    case _ => VString("")
  }

  /** The store after an expression evaluated for its effect, if there is one. */
  function Effects(ar: Arith, o: OptExpr, vars: Store): Store {
    if o.Present? then Eval(ar, o.e, ReqNone, vars).vars else vars
  }

  /** Outside every loop, `break` and `continue` do nothing. */
  function Exec(ar: Arith, st: Stmt, vars: Store, inLoop: bool, fuel: nat): Outcome
    decreases fuel, st, 3
  {
    match st
    case ExprStmt(e) => Normal(Eval(ar, e, ReqNone, vars).vars)
    case Break => if inLoop then Broke(vars) else Normal(vars)
    case Continue => if inLoop then Continued(vars) else Normal(vars)
    case Return(Absent) => Gave(VString(""), vars)
    case Return(Present(e)) =>
      var ef := Eval(ar, e, ReturnType(e), vars);
      Gave(ReturnValue(ef.out), ef.vars)
    case If(test, thn, els) =>
      var ef := Eval(ar, test, TestType(test), vars);
      ExecBlock(ar, if Holds(ar, ef.out) then thn else els, ef.vars, inLoop, fuel)
    case Loop(init, test, step, body, isDo) =>
      var v0 := Effects(ar, init, vars);
      if isDo then Rounds(ar, st, v0, fuel) else Guarded(ar, st, v0, fuel)
  }

  /** Runs a `while` or `for` loop from its first test. */
  function Guarded(ar: Arith, st: Stmt, vars: Store, fuel: nat): (o: Outcome)
    requires st.Loop?
    ensures !o.Broke? && !o.Continued?
    decreases fuel, st, 2
  {
    var ef := Eval(ar, st.test, TestType(st.test), vars);
    if Holds(ar, ef.out) then Rounds(ar, st, ef.vars, fuel) else Normal(ef.vars)
  }

  /** Runs a loop from the start of its body. */
  function Rounds(ar: Arith, st: Stmt, vars: Store, fuel: nat): (o: Outcome)
    requires st.Loop?
    ensures !o.Broke? && !o.Continued?
    decreases fuel, st, 1
  {
    var body := ExecBlock(ar, st.body, vars, true, fuel);
    match body
    case Broke(v) => Normal(v)
    case Gave(_, _) | OutOfFuel => body
    case Normal(v) => Again(ar, st, v, fuel)
    case Continued(v) => Again(ar, st, v, fuel)
  }

  /** Runs a loop from its continue point. */
  function Again(ar: Arith, st: Stmt, vars: Store, fuel: nat): (o: Outcome)
    requires st.Loop?
    ensures !o.Broke? && !o.Continued?
    decreases fuel, st, 0
  {
    var v0 := Effects(ar, st.step, vars);
    var ef := Eval(ar, st.test, TestType(st.test), v0);
    if !Holds(ar, ef.out) then Normal(ef.vars)
    else if fuel == 0 then OutOfFuel
    else Rounds(ar, st, ef.vars, fuel - 1)
  }

  function ExecBlock(ar: Arith, b: Block, vars: Store, inLoop: bool, fuel: nat): Outcome
    decreases fuel, b, 3
  {
    match b
    case End => Normal(vars)
    case Then(st, rest) =>
      var o := Exec(ar, st, vars, inLoop, fuel);
      if o.Normal? then ExecBlock(ar, rest, o.vars, inLoop, fuel) else o
  }

  /** More fuel never changes how a statement that ends ends. */
  lemma {:induction false} MoreFuel(ar: Arith, b: Block, vars: Store, inLoop: bool, fuel: nat, more: nat)
    requires fuel <= more && !ExecBlock(ar, b, vars, inLoop, fuel).OutOfFuel?
    ensures ExecBlock(ar, b, vars, inLoop, more) == ExecBlock(ar, b, vars, inLoop, fuel)
    decreases fuel, b, 2
  {
    if b.Then? {
      MoreFuelStmt(ar, b.first, vars, inLoop, fuel, more);
      var o := Exec(ar, b.first, vars, inLoop, fuel);
      if o.Normal? {
        MoreFuel(ar, b.rest, o.vars, inLoop, fuel, more);
      }
    }
  }

  lemma {:induction false} MoreFuelStmt(ar: Arith, st: Stmt, vars: Store, inLoop: bool, fuel: nat, more: nat)
    requires fuel <= more && !Exec(ar, st, vars, inLoop, fuel).OutOfFuel?
    ensures Exec(ar, st, vars, inLoop, more) == Exec(ar, st, vars, inLoop, fuel)
    decreases fuel, st, 2
  {
    hide Eval, Effects;
    match st
    case If(test, thn, els) =>
      var ef := Eval(ar, test, TestType(test), vars);
      MoreFuel(ar, if Holds(ar, ef.out) then thn else els, ef.vars, inLoop, fuel, more);
    case Loop(init, test, step, body, isDo) =>
      var v0 := Effects(ar, init, vars);
      var ef := Eval(ar, test, TestType(test), v0);
      if isDo {
        MoreFuelRounds(ar, st, v0, fuel, more);
      } else if Holds(ar, ef.out) {
        MoreFuelRounds(ar, st, ef.vars, fuel, more);
      }
    case _ =>
  }

  lemma {:induction false} MoreFuelRounds(ar: Arith, st: Stmt, vars: Store, fuel: nat, more: nat)
    requires st.Loop? && fuel <= more && !Rounds(ar, st, vars, fuel).OutOfFuel?
    ensures Rounds(ar, st, vars, more) == Rounds(ar, st, vars, fuel)
    decreases fuel, st, 1
  {
    hide Eval, Effects;
    MoreFuel(ar, st.body, vars, true, fuel, more);
    var o := ExecBlock(ar, st.body, vars, true, fuel);
    if o.Normal? || o.Continued? {
      var ef := Eval(ar, st.test, TestType(st.test), Effects(ar, st.step, o.vars));
      if Holds(ar, ef.out) {
        MoreFuelRounds(ar, st, ef.vars, fuel - 1, more - 1);
      }
    }
  }

  // ----- the fragment, and its room -----

  predicate FitsOptional(o: OptExpr) {
    o.Present? ==> Fits(o.e, ReqNone)
  }

  predicate FitsStmt(st: Stmt) {
    match st
    case ExprStmt(e) => Fits(e, ReqNone)
    case Break | Continue | Return(Absent) => true
    case Return(Present(e)) => Fits(e, ReturnType(e))
    case If(test, thn, els) => Fits(test, TestType(test)) && FitsBlock(thn) && FitsBlock(els)
    case Loop(init, test, step, body, _) =>
      FitsOptional(init) && Fits(test, TestType(test)) && FitsOptional(step) && FitsBlock(body)
  }

  predicate FitsBlock(b: Block) {
    b.Then? ==> FitsStmt(b.first) && FitsBlock(b.rest)
  }

  function PeakOptional(o: OptExpr): Room {
    if o.Present? then Peak(o.e, ReqNone) else Room(0, 0, 0)
  }

  function PeakStmt(st: Stmt): Room {
    match st
    case ExprStmt(e) => Peak(e, ReqNone)
    case Break | Continue | Return(Absent) => Room(0, 0, 0)
    case Return(Present(e)) => Peak(e, ReturnType(e))
    case If(test, thn, els) => Peak(test, TestType(test)).Max(PeakBlock(thn)).Max(PeakBlock(els))
    case Loop(init, test, step, body, _) =>
      PeakOptional(init).Max(Peak(test, TestType(test))).Max(PeakOptional(step)).Max(PeakBlock(body))
  }

  function PeakBlock(b: Block): Room {
    if b.Then? then PeakStmt(b.first).Max(PeakBlock(b.rest)) else Room(0, 0, 0)
  }
}
