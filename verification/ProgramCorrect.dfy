/** Whole scripts: what a compiled script returns, when it returns at all, and that it never derails. */
module ProgramCorrect {
  import opened Values
  import opened Ast
  import opened CodeGen
  import opened Machine
  import opened Semantics
  import opened StmtSemantics
  import opened Runs
  import opened StmtCorrect

  /** The code block of a script: its statements, then a return of whatever string is on top. */
  function Compiled(ar: Arith, b: Block): Program {
    Program(ar, GenBlock(ar, b, 0, 0, NoLoop) + [Op(RETURN)])
  }

  function Start(vars: Store): State {
    State(0, [], [], [], "", vars, None, None)
  }

  /** The fragment of scripts the theorems are about. */
  predicate Served(b: Block) {
    FitsBlock(b) && HasRoom(Start(map[]), PeakBlock(b))
  }

  /** The store a script that ends leaves behind. */
  function FinalStore(o: Outcome): Store
    requires !o.OutOfFuel?
  {
    o.vars
  }

  /** A run of the compiled script, followed for as long as the semantics has fuel. */
  lemma ScriptRuns(ar: Arith, b: Block, vars: Store, fuel: nat) returns (n: nat, c: Config)
    requires Served(b)
    ensures c == Run(Compiled(ar, b), n, Running(Start(vars)))
    ensures var o := ExecBlock(ar, b, vars, false, fuel);
            if o.OutOfFuel? then c.Running? && n >= fuel
            else && c.Returned? && c.last.vars == FinalStore(o)
                 && c.last.ints == [] && c.last.flts == [] && c.last.strs == []
                 && (o.Gave? ==> c.result == o.result)
  {
    hide GenBlock, ExecBlock, FitsBlock, PeakBlock, HasRoom, Ends, Run, Execute, At;
    var p := Compiled(ar, b);
    var s := Start(vars);
    var code := GenBlock(ar, b, 0, 0, NoLoop);
    Placed(ar, b, vars);
    var s';
    n, s' := BlockRuns(p, b, NoLoop, 0, s, fuel);
    var o := ExecBlock(ar, b, vars, false, fuel);
    if o.Normal? {
      FinishesNormally(p, n, s, s', o, |code|, fuel);
      n := n + 1;
    } else {
      EndsEarly(p, n, s, s', o, |code|, fuel);
    }
    c := Run(p, n, Running(s));
  }

  lemma Placed(ar: Arith, b: Block, vars: Store)
    requires Served(b)
    ensures At(Compiled(ar, b), GenBlock(ar, b, 0, 0, NoLoop), 0)
    ensures At(Compiled(ar, b), [Op(RETURN)], |GenBlock(ar, b, 0, 0, NoLoop)|)
    ensures FitsBlock(b) && HasRoom(Start(vars), PeakBlock(b))
  {
    hide GenBlock, FitsBlock, PeakBlock;
    var p := Compiled(ar, b);
    assert p.code[0..|p.code|] == p.code;
    AtSplit(p, GenBlock(ar, b, 0, 0, NoLoop), [Op(RETURN)], 0);
  }

  lemma FinishesNormally(p: Program, n: nat, s: State, s': State, o: Outcome, end: nat, fuel: nat)
    requires Ends(p, n, s, s', o, end, NoLoop, fuel) && o.Normal? && At(p, [Op(RETURN)], end)
    ensures var c := Run(p, n + 1, Running(s));
            c.Returned? && c.last.vars == o.vars && c.last.ints == s.ints && c.last.flts == s.flts
                && c.last.strs == s.strs
  {
    hide Run, At;
    FinalTick(p, n, s, s', RETURN);
  }

  lemma EndsEarly(p: Program, n: nat, s: State, s': State, o: Outcome, end: nat, fuel: nat)
    requires Ends(p, n, s, s', o, end, NoLoop, fuel) && !o.Normal?
    ensures var c := Run(p, n, Running(s));
            if o.OutOfFuel? then c.Running? && n >= fuel
            else o.Gave? && c == Returned(o.result, s') && Kept(s, s', o.vars)
  {
    hide Run;
  }

  /** A run that is under way now was under way before; one that has ended stays as it ended. */
  lemma {:induction false} RunsOnward(p: Program, m: nat, n: nat, c: Config)
    requires m <= n
    ensures !Run(p, m, c).Running? ==> Run(p, n, c) == Run(p, m, c)
    decreases n
  {
    hide Step;
    if m < n {
      RunsOnward(p, m, n - 1, c);
    }
  }

  /** Safety over every run: a served script never reads past its stacks or leaves its code. */
  lemma NeverStuck(ar: Arith, b: Block, vars: Store, n: nat)
    requires Served(b)
    ensures !Run(Compiled(ar, b), n, Running(Start(vars))).Stuck?
  {
    hide Run;
    var p := Compiled(ar, b);
    var m, c := ScriptRuns(ar, b, vars, n);
    if m <= n {
      RunsOnward(p, m, n, Running(Start(vars)));
    } else {
      RunsOnward(p, n, m, Running(Start(vars)));
    }
  }

  /** The compiled script halts exactly when the script does. */
  lemma HaltsTogether(ar: Arith, b: Block, vars: Store)
    requires Served(b)
    ensures (exists n :: !Run(Compiled(ar, b), n, Running(Start(vars))).Running?) <==>
            (exists fuel :: !ExecBlock(ar, b, vars, false, fuel).OutOfFuel?)
  {
    hide Run;
    var p := Compiled(ar, b);
    if n :| !Run(p, n, Running(Start(vars))).Running? {
      var m, c := ScriptRuns(ar, b, vars, n);
      RunsOnward(p, n, if m < n then n else m, Running(Start(vars)));
      assert !ExecBlock(ar, b, vars, false, n).OutOfFuel?;
    }
    if fuel :| !ExecBlock(ar, b, vars, false, fuel).OutOfFuel? {
      var m, c := ScriptRuns(ar, b, vars, fuel);
    }
  }

  /** Whatever the compiled script ends with is what the script ends with. */
  lemma SameResult(ar: Arith, b: Block, vars: Store, n: nat, fuel: nat)
    requires Served(b)
    requires !Run(Compiled(ar, b), n, Running(Start(vars))).Running?
    requires !ExecBlock(ar, b, vars, false, fuel).OutOfFuel?
    ensures var c := Run(Compiled(ar, b), n, Running(Start(vars)));
            var o := ExecBlock(ar, b, vars, false, fuel);
            c.Returned? && c.last.vars == FinalStore(o) && (o.Gave? ==> c.result == o.result)
  {
    hide Run;
    var p := Compiled(ar, b);
    var m, c := ScriptRuns(ar, b, vars, fuel);
    if m <= n {
      RunsOnward(p, m, n, Running(Start(vars)));
    } else {
      RunsOnward(p, n, m, Running(Start(vars)));
    }
  }

  // ----- scripts of one expression -----

  function Alone(e: Expr): Block {
    Then(ExprStmt(e), End)
  }

  lemma AloneAt(ar: Arith, e: Expr)
    ensures At(Compiled(ar, Alone(e)), GenExpr(ar, e, ReqNone, 0, 0).code, 0)
  {
    hide GenExpr;
    var c := GenExpr(ar, e, ReqNone, 0, 0).code;
    assert GenBlock(ar, Alone(e), 0, 0, NoLoop) == c + GenBlock(ar, End, |c|, GenExpr(ar, e, ReqNone, 0, 0).ip, NoLoop);
    assert c + [] == c;
    assert Compiled(ar, Alone(e)).code == c + [Op(RETURN)];
  }
}
