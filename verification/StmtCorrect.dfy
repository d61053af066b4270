/** Compiled statements end as the semantics says, at the address that goes with how they end. */
module StmtCorrect {
  import opened Values
  import opened Ast
  import opened CodeGen
  import opened Machine
  import opened Semantics
  import opened StmtSemantics
  import opened Runs
  import opened ExprCorrect

  /** The stacks are as high as before, with the same contents; the variables are `vars`. */
  ghost predicate Kept(s: State, s': State, vars: Store) {
    s'.ints == s.ints && s'.flts == s.flts && s'.strs == s.strs && s'.vars == vars
  }

  /**
    After `n` steps from `s` the machine is in `s'`, where outcome `o` belongs: at `end` after a
    normal end, at the loop's targets after `break` and `continue`, returned after `return`. A run
    out of fuel has made a step for each unit of fuel and is still going.
   */
  ghost predicate Ends(p: Program, n: nat, s: State, s': State, o: Outcome, end: nat, ctx: LoopTargets, fuel: nat) {
    match o
    case Normal(v) => Goes(p, n, s, s') && s'.ip == end && Kept(s, s', v)
    case Broke(v) => ctx.InLoop? && Goes(p, n, s, s') && s'.ip == ctx.breakAt && Kept(s, s', v)
    case Continued(v) => ctx.InLoop? && Goes(p, n, s, s') && s'.ip == ctx.continueAt && Kept(s, s', v)
    case Gave(r, v) => Run(p, n, Running(s)) == Returned(r, s') && Kept(s, s', v)
    case OutOfFuel => Goes(p, n, s, s') && n >= fuel
  }

  /** What happens after a stretch that kept the stacks happens to the whole run. */
  lemma Prefixed(p: Program, m: nat, s: State, s1: State, n: nat, s2: State, o: Outcome, end: nat, ctx: LoopTargets,
      fuel: nat)
    requires Goes(p, m, s, s1) && Kept(s, s1, s1.vars) && Ends(p, n, s1, s2, o, end, ctx, fuel)
    ensures Ends(p, m + n, s, s2, o, end, ctx, fuel)
  {
    RunAdd(p, m, n, Running(s));
  }

  lemma NothingKept(s: State, s': State)
    requires Delivers(s, s', ReqNone, NoValue)
    ensures Kept(s, s', s'.vars)
  {
  }

  lemma KeptBoth(s: State, s1: State, s2: State, vars: Store)
    requires Kept(s, s1, s1.vars) && Kept(s1, s2, vars)
    ensures Kept(s, s2, vars)
  {
  }

  lemma KeptRoom(s: State, s': State, vars: Store, r: Room)
    requires Kept(s, s', vars) && HasRoom(s, r)
    ensures HasRoom(s', r)
  {
  }

  lemma DeliversNothing(s: State, s': State, o: Out)
    requires Delivers(s, s', ReqNone, o)
    ensures o == NoValue
  {
  }

  /** An expression evaluated for its effect. */
  lemma EffectRuns(p: Program, e: Expr, ip: nat, s: State) returns (n: nat, s': State)
    requires Fits(e, ReqNone) && At(p, GenExpr(p.ar, e, ReqNone, s.ip, ip).code, s.ip) && HasRoom(s, Peak(e, ReqNone))
    ensures Goes(p, n, s, s') && s'.ip == s.ip + |GenExpr(p.ar, e, ReqNone, s.ip, ip).code|
    ensures Kept(s, s', Eval(p.ar, e, ReqNone, s.vars).vars)
  {
    hide GenExpr, Eval, Fits, Peak, Goes, Delivers, At, HasRoom, Kept;
    n, s' := ExprRuns(p, e, ReqNone, ip, s);
    DeliversNothing(s, s', Eval(p.ar, e, ReqNone, s.vars).out);
    NothingKept(s, s');
  }

  lemma OptionalRuns(p: Program, o: OptExpr, ip: nat, s: State) returns (n: nat, s': State)
    requires FitsOptional(o) && At(p, GenOptional(p.ar, o, s.ip, ip).code, s.ip) && HasRoom(s, PeakOptional(o))
    ensures Goes(p, n, s, s') && s'.ip == s.ip + |GenOptional(p.ar, o, s.ip, ip).code|
    ensures Kept(s, s', Effects(p.ar, o, s.vars))
  {
    hide GenExpr, Eval, Fits, Peak, Goes, At, HasRoom;
    match o
    case Absent =>
      Stay(p, s);
      n, s' := 0, s;
    case Present(e) => n, s' := EffectRuns(p, e, ip, s);
  }

  /** A test and its jump: falls through to `s.ip` past both, or goes to `target`. */
  lemma BranchRuns(p: Program, e: Expr, when: bool, target: nat, ip: nat, s: State) returns (n: nat, s': State)
    requires Fits(e, TestType(e)) && HasRoom(s, Peak(e, TestType(e)))
    requires At(p,
        GenExpr(p.ar, e, TestType(e), s.ip, ip).code
        + [Op(if when then JumpWhen(TestType(e)) else JumpUnless(TestType(e))), Num(target)], s.ip)
    ensures n >= 1 && Goes(p, n, s, s') && Kept(s, s', Eval(p.ar, e, TestType(e), s.vars).vars)
    ensures s'.ip == if Holds(p.ar, Eval(p.ar, e, TestType(e), s.vars).out) == when then target
                     else s.ip + |GenExpr(p.ar, e, TestType(e), s.ip, ip).code| + 2
  {
    hide GenExpr, Eval, Fits, Peak, Goes, Delivers, At, HasRoom, Kept, JumpWhen, JumpUnless, Holds;
    var t := TestType(e);
    AtSplit(p, GenExpr(p.ar, e, t, s.ip, ip).code, [Op(if when then JumpWhen(t) else JumpUnless(t)), Num(target)],
        s.ip);
    var n1, s1 := ExprRuns(p, e, t, ip, s);
    s' := TestRuns(p, t, when, target, n1, s, s1, Eval(p.ar, e, t, s.vars).out);
    NothingKept(s, s');
    n := n1 + 1;
  }

  /** A step that ends the call. */
  lemma FinalTick(p: Program, n: nat, s0: State, s: State, op: OpCode)
    requires Goes(p, n, s0, s) && At(p, [Op(op)], s.ip) && !ReadsOperand(op)
    ensures Run(p, n + 1, Running(s0)) == Execute(p.ar, op, Num(-1), s.(ip := s.ip + 1))
  {
    AtWord(p, [Op(op)], s.ip, 0);
    OperandUnread(p.ar, op, s.(ip := s.ip + 1));
  }

  lemma ReturnRuns(p: Program, t: TypeReq, n: nat, s0: State, s: State, o: Out) returns (s': State)
    requires t in {ReqUInt, ReqFloat, ReqString} && Goes(p, n, s0, s) && Delivers(s0, s, t, o)
        && At(p, [Op(ReturnOp(t))], s.ip)
    ensures Run(p, n + 1, Running(s0)) == Returned(ReturnValue(o), s') && Kept(s0, s', s.vars)
  {
    hide Goes, At, Run;
    FinalTick(p, n, s0, s, ReturnOp(t));
    s' := Execute(p.ar, ReturnOp(t), Num(-1), s.(ip := s.ip + 1)).last;
  }

  // ----- statements -----

  /** Compiler correctness for statements. */
  lemma {:induction false} StmtRuns(p: Program, st: Stmt, ctx: LoopTargets, ip: nat, s: State, fuel: nat)
      returns (n: nat, s': State)
    requires FitsStmt(st) && At(p, GenStmt(p.ar, st, s.ip, ip, ctx).code, s.ip) && HasRoom(s, PeakStmt(st))
    ensures Ends(p, n, s, s', Exec(p.ar, st, s.vars, ctx.InLoop?, fuel),
        s.ip + |GenStmt(p.ar, st, s.ip, ip, ctx).code|, ctx, fuel)
    decreases fuel, st, 2
  {
    hide GenExpr, Eval, Fits, Peak, Goes, Delivers, At, HasRoom, Kept, GenIf, GenLoop, Run, Execute;
    match st
    case ExprStmt(e) => n, s' := EffectRuns(p, e, ip, s);
    case Break | Continue => n, s' := JumpOutRuns(p, st, ctx, ip, s, fuel);
    case Return(r) => n, s' := ReturnStmtRuns(p, st, ctx, ip, s, fuel);
    case If(_, _, _) => n, s' := IfRuns(p, st, ctx, ip, s, fuel);
    case Loop(_, _, _, _, _) => n, s' := LoopRuns(p, st, ctx, ip, s, fuel);
  }

  lemma JumpOutRuns(p: Program, st: Stmt, ctx: LoopTargets, ip: nat, s: State, fuel: nat) returns (n: nat, s': State)
    requires (st.Break? || st.Continue?) && At(p, GenStmt(p.ar, st, s.ip, ip, ctx).code, s.ip)
    ensures Ends(p, n, s, s', Exec(p.ar, st, s.vars, ctx.InLoop?, fuel),
        s.ip + |GenStmt(p.ar, st, s.ip, ip, ctx).code|, ctx, fuel)
  {
    hide Goes, At, Execute;
    Stay(p, s);
    if ctx.NoLoop? {
      n, s' := 0, s;
    } else {
      s' := JumpRuns(p, if st.Break? then ctx.breakAt else ctx.continueAt, 0, s, s);
      n := 1;
    }
  }

  lemma ReturnStmtRuns(p: Program, st: Stmt, ctx: LoopTargets, ip: nat, s: State, fuel: nat) returns (n: nat, s': State)
    requires st.Return? && FitsStmt(st) && At(p, GenStmt(p.ar, st, s.ip, ip, ctx).code, s.ip)
        && HasRoom(s, PeakStmt(st))
    ensures Ends(p, n, s, s', Exec(p.ar, st, s.vars, ctx.InLoop?, fuel),
        s.ip + |GenStmt(p.ar, st, s.ip, ip, ctx).code|, ctx, fuel)
  {
    hide GenExpr, Eval, Fits, Peak, Goes, Delivers, At, HasRoom, ReturnOp, ReturnValue, Run;
    match st.result
    case Absent =>
      Stay(p, s);
      FinalTick(p, 0, s, s, RETURN_VOID);
      n, s' := 1, s.(ip := s.ip + 1, head := "");
    case Present(e) =>
      var t := ReturnType(e);
      AtSplit(p, GenExpr(p.ar, e, t, s.ip, ip).code, [Op(ReturnOp(t))], s.ip);
      var n1, s1 := ExprRuns(p, e, t, ip, s);
      s' := ReturnRuns(p, t, n1, s, s1, Eval(p.ar, e, t, s.vars).out);
      n := n1 + 1;
  }

  lemma {:induction false} BlockRuns(p: Program, b: Block, ctx: LoopTargets, ip: nat, s: State, fuel: nat)
      returns (n: nat, s': State)
    requires FitsBlock(b) && At(p, GenBlock(p.ar, b, s.ip, ip, ctx), s.ip) && HasRoom(s, PeakBlock(b))
    ensures Ends(p, n, s, s', ExecBlock(p.ar, b, s.vars, ctx.InLoop?, fuel), s.ip + |GenBlock(p.ar, b, s.ip, ip, ctx)|,
        ctx, fuel)
    decreases fuel, b, 2
  {
    hide GenStmt, Exec, FitsStmt, PeakStmt, Goes, At, HasRoom, Run;
    match b
    case End =>
      Stay(p, s);
      n, s' := 0, s;
    case Then(st, rest) =>
      var g := GenStmt(p.ar, st, s.ip, ip, ctx);
      AtSplit(p, g.code, GenBlock(p.ar, rest, s.ip + |g.code|, g.ip, ctx), s.ip);
      RoomForBoth(s, PeakStmt(st), PeakBlock(rest));
      var o := Exec(p.ar, st, s.vars, ctx.InLoop?, fuel);
      n, s' := StmtRuns(p, st, ctx, ip, s, fuel);
      if o.Normal? {
        var s1 := s';
        KeptRoom(s, s1, o.vars, PeakBlock(rest));
        var n2;
        n2, s' := BlockRuns(p, rest, ctx, g.ip, s1, fuel);
        Prefixed(p, n, s, s1, n2, s', ExecBlock(p.ar, rest, s1.vars, ctx.InLoop?, fuel),
            s.ip + |GenBlock(p.ar, b, s.ip, ip, ctx)|, ctx, fuel);
        n := n + n2;
      }
  }

  lemma {:induction false} IfRuns(p: Program, st: Stmt, ctx: LoopTargets, ip: nat, s: State, fuel: nat)
      returns (n: nat, s': State)
    requires st.If? && FitsStmt(st) && At(p, GenIf(p.ar, st, s.ip, ip, ctx), s.ip) && HasRoom(s, PeakStmt(st))
    ensures Ends(p, n, s, s', Exec(p.ar, st, s.vars, ctx.InLoop?, fuel), s.ip + |GenIf(p.ar, st, s.ip, ip, ctx)|, ctx,
        fuel)
    decreases fuel, st, 1
  {
    hide GenExpr, GenBlock, Eval, Fits, Peak, FitsBlock, PeakBlock, ExecBlock, Goes, At, HasRoom, Run, Kept, Ends,
         JumpUnless, Holds;
    var t := TestType(st.test);
    var gt := GenExpr(p.ar, st.test, t, s.ip, ip);
    var thenAt := s.ip + |gt.code| + 2;
    var ct := GenBlock(p.ar, st.thn, thenAt, gt.ip, ctx);
    var alone := st.els.End?;
    var target := if alone then thenAt + |ct| else thenAt + |ct| + 2;
    var ce := if alone then [] else GenBlock(p.ar, st.els, target, gt.ip, ctx);
    var end := target + |ce|;
    var branch := gt.code + [Op(JumpUnless(t)), Num(target)];
    var over := if alone then [] else [Op(JMP), Num(end)];
    assert GenIf(p.ar, st, s.ip, ip, ctx) == branch + ct + over + ce;
    AtSplit(p, branch + ct + over, ce, s.ip);
    AtSplit(p, branch + ct, over, s.ip);
    AtSplit(p, branch, ct, s.ip);
    RoomForBoth(s, Peak(st.test, t).Max(PeakBlock(st.thn)), PeakBlock(st.els));
    RoomForBoth(s, Peak(st.test, t), PeakBlock(st.thn));
    var n1, s1 := BranchRuns(p, st.test, false, target, ip, s);
    var ef := Eval(p.ar, st.test, t, s.vars);
    var taken := if Holds(p.ar, ef.out) then st.thn else st.els;
    var o := ExecBlock(p.ar, taken, ef.vars, ctx.InLoop?, fuel);
    KeptVars(s, s1, ef.vars);
    KeptRoom(s, s1, ef.vars, PeakBlock(taken));
    var n2;
    if Holds(p.ar, ef.out) {
      n2, s' := BlockRuns(p, st.thn, ctx, gt.ip, s1, fuel);
      if !alone {
        n2, s' := JumpAfter(p, n2, s1, s', o, thenAt + |ct|, end, ctx, fuel);
      }
    } else if alone {
      n2, s' := EmptyRuns(p, s1, ctx, fuel);
    } else {
      n2, s' := BlockRuns(p, st.els, ctx, gt.ip, s1, fuel);
    }
    Prefixed(p, n1, s, s1, n2, s', o, end, ctx, fuel);
    n := n1 + n2;
  }

  lemma KeptVars(s: State, s': State, vars: Store)
    requires Kept(s, s', vars)
    ensures s'.vars == vars
  {
  }

  lemma EmptyRuns(p: Program, s: State, ctx: LoopTargets, fuel: nat) returns (n: nat, s': State)
    ensures Ends(p, n, s, s', ExecBlock(p.ar, End, s.vars, ctx.InLoop?, fuel), s.ip, ctx, fuel)
  {
    n, s' := 0, s;
  }

  /** A jump behind a block is taken when the block ends normally. */
  lemma JumpAfter(p: Program, n: nat, s: State, s1: State, o: Outcome, from: nat, end: nat, ctx: LoopTargets, fuel: nat)
    returns (n': nat, s': State)
    requires Ends(p, n, s, s1, o, from, ctx, fuel) && At(p, [Op(JMP), Num(end)], from)
    ensures Ends(p, n', s, s', o, end, ctx, fuel)
  {
    hide Goes, At, Run, Execute;
    n', s' := n, s1;
    if o.Normal? {
      s' := JumpRuns(p, end, n, s, s1);
      n' := n + 1;
    }
  }

  // ----- loops -----

  /** The three stretches of a loop's code, at the addresses of its layout. */
  ghost predicate LoopAt(p: Program, st: Stmt, l: Layout)
    requires st.Loop?
  {
    && At(p, GenBlock(p.ar, st.body, l.bodyAt, l.bodyIp, InLoop(l.breakAt, l.continueAt)), l.bodyAt)
    && At(p, GenLoopTail(p.ar, st, l.continueAt, l.bodyIp, l.bodyAt).code, l.continueAt)
    && l.continueAt == l.bodyAt + |GenBlock(p.ar, st.body, l.bodyAt, l.bodyIp, InLoop(l.breakAt, l.continueAt))|
    && l.breakAt == l.continueAt + |GenLoopTail(p.ar, st, l.continueAt, l.bodyIp, l.bodyAt).code|
  }

  lemma LoopParts(p: Program, st: Stmt, at: nat, ip: nat)
    requires st.Loop? && At(p, GenLoop(p.ar, st, at, ip), at)
    ensures var l := LayOut(p.ar, st, at, ip);
            var h := GenLoopHead(p.ar, st, at, ip, l.breakAt);
            && LoopAt(p, st, l) && At(p, h.code, at)
            && l.bodyAt == at + |h.code| && l.bodyIp == h.ip && l.breakAt == at + |GenLoop(p.ar, st, at, ip)|
  {
    hide GenExpr, GenBlock, GenLoopTail, GenOptional, At;
    var l := LayOut(p.ar, st, at, ip);
    var h := GenLoopHead(p.ar, st, at, ip, l.breakAt);
    var inner := InLoop(l.breakAt, l.continueAt);
    LengthIgnoresTargets(p.ar, st.body, l.bodyAt, l.bodyIp, InLoop(0, 0), inner);
    var body := GenBlock(p.ar, st.body, l.bodyAt, l.bodyIp, inner);
    AtSplit(p, h.code + body, GenLoopTail(p.ar, st, l.continueAt, l.bodyIp, l.bodyAt).code, at);
    AtSplit(p, h.code, body, at);
  }

  lemma {:induction false} LoopRuns(p: Program, st: Stmt, ctx: LoopTargets, ip: nat, s: State, fuel: nat)
      returns (n: nat, s': State)
    requires st.Loop? && FitsStmt(st) && At(p, GenLoop(p.ar, st, s.ip, ip), s.ip) && HasRoom(s, PeakStmt(st))
    ensures Ends(p, n, s, s', Exec(p.ar, st, s.vars, ctx.InLoop?, fuel), s.ip + |GenLoop(p.ar, st, s.ip, ip)|, ctx,
        fuel)
    decreases fuel, st, 1
  {
    hide GenExpr, GenBlock, GenOptional, GenLoopTail, GenLoop, Eval, Effects, Fits, Peak, FitsBlock, PeakBlock,
         PeakOptional, PeakStmt, FitsOptional, ExecBlock, Rounds, Guarded, Goes, At, HasRoom, Run, Kept, Ends,
         JumpUnless, Holds, LayOut, LoopAt;
    LoopParts(p, st, s.ip, ip);
    LoopRoom(s, st);
    var l := LayOut(p.ar, st, s.ip, ip);
    var gi := GenOptional(p.ar, st.init, s.ip, ip);
    var t := TestType(st.test);
    var gt := GenExpr(p.ar, st.test, t, s.ip + |gi.code|, gi.ip);
    var branch := if st.isDo then [] else gt.code + [Op(JumpUnless(t)), Num(l.breakAt)];
    assert GenLoopHead(p.ar, st, s.ip, ip, l.breakAt).code == gi.code + branch;
    AtSplit(p, gi.code, branch, s.ip);
    var n1, s1 := OptionalRuns(p, st.init, ip, s);
    var v0 := Effects(p.ar, st.init, s.vars);
    KeptVars(s, s1, v0);
    KeptRoom(s, s1, v0, PeakStmt(st));
    var n2, s2;
    if st.isDo {
      n2, s2 := RoundsRuns(p, st, l, ctx, s1, fuel);
    } else {
      n2, s2 := GuardedRuns(p, st, l, ctx, gi.ip, s1, fuel);
    }
    Prefixed(p, n1, s, s1, n2, s2, Exec(p.ar, st, s.vars, ctx.InLoop?, fuel), l.breakAt, ctx, fuel);
    n, s' := n1 + n2, s2;
  }

  lemma LoopRoom(s: State, st: Stmt)
    requires st.Loop? && HasRoom(s, PeakStmt(st))
    ensures HasRoom(s, PeakOptional(st.init)) && HasRoom(s, Peak(st.test, TestType(st.test)))
    ensures HasRoom(s, PeakOptional(st.step)) && HasRoom(s, PeakBlock(st.body))
  {
    hide Peak, PeakBlock, PeakOptional, HasRoom;
    var test := Peak(st.test, TestType(st.test));
    RoomForBoth(s, PeakOptional(st.init).Max(test).Max(PeakOptional(st.step)), PeakBlock(st.body));
    RoomForBoth(s, PeakOptional(st.init).Max(test), PeakOptional(st.step));
    RoomForBoth(s, PeakOptional(st.init), test);
  }

  /** A loop entered through its first test. */
  lemma {:induction false} GuardedRuns(p: Program, st: Stmt, l: Layout, ctx: LoopTargets, ip: nat, s: State, fuel: nat)
    returns (n: nat, s': State)
    requires st.Loop? && FitsStmt(st) && HasRoom(s, PeakStmt(st)) && LoopAt(p, st, l)
    requires var code := GenExpr(p.ar, st.test, TestType(st.test), s.ip, ip).code
        + [Op(JumpUnless(TestType(st.test))), Num(l.breakAt)];
             At(p, code, s.ip) && l.bodyAt == s.ip + |code|
    ensures Ends(p, n, s, s', Guarded(p.ar, st, s.vars, fuel), l.breakAt, ctx, fuel)
    decreases fuel, st, 0, 2
  {
    hide GenExpr, Eval, Effects, Fits, Peak, FitsBlock, FitsOptional, Rounds, Goes, At, HasRoom, PeakStmt, Run, Kept,
         Ends, JumpUnless, Holds, LoopAt;
    LoopRoom(s, st);
    var n1, s1 := BranchRuns(p, st.test, false, l.breakAt, ip, s);
    var ef := Eval(p.ar, st.test, TestType(st.test), s.vars);
    KeptVars(s, s1, ef.vars);
    KeptRoom(s, s1, ef.vars, PeakStmt(st));
    var n2;
    if Holds(p.ar, ef.out) {
      n2, s' := RoundsRuns(p, st, l, ctx, s1, fuel);
    } else {
      n2, s' := EmptyRuns(p, s1, ctx, fuel);
    }
    Prefixed(p, n1, s, s1, n2, s', Guarded(p.ar, st, s.vars, fuel), l.breakAt, ctx, fuel);
    n := n1 + n2;
  }

  /** A loop from the first word of its body on. */
  lemma {:induction false} RoundsRuns(p: Program, st: Stmt, l: Layout, ctx: LoopTargets, s: State, fuel: nat)
    returns (n: nat, s': State)
    requires st.Loop? && FitsStmt(st) && HasRoom(s, PeakStmt(st)) && LoopAt(p, st, l) && s.ip == l.bodyAt
    ensures Ends(p, n, s, s', Rounds(p.ar, st, s.vars, fuel), l.breakAt, ctx, fuel)
    decreases fuel, st, 0, 1
  {
    hide GenBlock, Fits, Peak, FitsOptional, FitsBlock, ExecBlock, Again, At, HasRoom, PeakStmt, Run;
    LoopRoom(s, st);
    var inner := InLoop(l.breakAt, l.continueAt);
    n, s' := BlockRuns(p, st.body, inner, l.bodyIp, s, fuel);
    var o := ExecBlock(p.ar, st.body, s.vars, true, fuel);
    if o.Normal? || o.Continued? {
      var s1 := s';
      KeptRoom(s, s1, o.vars, PeakStmt(st));
      var n2;
      n2, s' := AgainRuns(p, st, l, ctx, s1, fuel);
      Prefixed(p, n, s, s1, n2, s', Again(p.ar, st, o.vars, fuel), l.breakAt, ctx, fuel);
      n := n + n2;
    }
  }

  /** A loop from its continue point on. */
  lemma {:induction false} AgainRuns(p: Program, st: Stmt, l: Layout, ctx: LoopTargets, s: State, fuel: nat)
    returns (n: nat, s': State)
    requires st.Loop? && FitsStmt(st) && HasRoom(s, PeakStmt(st)) && LoopAt(p, st, l) && s.ip == l.continueAt
    ensures Ends(p, n, s, s', Again(p.ar, st, s.vars, fuel), l.breakAt, ctx, fuel)
    decreases fuel, st, 0, 0
  {
    hide GenExpr, GenBlock, GenOptional, Eval, Effects, Fits, Peak, FitsBlock, FitsOptional, PeakOptional, PeakStmt,
         Rounds, Goes, At, HasRoom, Run, JumpWhen, Holds;
    LoopRoom(s, st);
    var t := TestType(st.test);
    var gs := GenOptional(p.ar, st.step, l.continueAt, l.bodyIp);
    var gt := GenExpr(p.ar, st.test, t, l.continueAt + |gs.code|, gs.ip);
    var branch := gt.code + [Op(JumpWhen(t)), Num(l.bodyAt)];
    assert GenLoopTail(p.ar, st, l.continueAt, l.bodyIp, l.bodyAt).code == gs.code + branch;
    AtSplit(p, gs.code, branch, l.continueAt);
    var n1, s1 := OptionalRuns(p, st.step, l.bodyIp, s);
    KeptRoom(s, s1, s1.vars, Peak(st.test, t));
    var n2, s2 := BranchRuns(p, st.test, true, l.bodyAt, gs.ip, s1);
    var ef := Eval(p.ar, st.test, t, s1.vars);
    Join(p, n1, s, s1, n2, s2);
    KeptBoth(s, s1, s2, ef.vars);
    n, s' := n1 + n2, s2;
    if Holds(p.ar, ef.out) && fuel > 0 {
      KeptRoom(s, s2, ef.vars, PeakStmt(st));
      var n3;
      n3, s' := RoundsRuns(p, st, l, ctx, s2, fuel - 1);
      OneMoreRound(p, n1 + n2, s, s2, n3, s', Rounds(p.ar, st, s2.vars, fuel - 1), l.breakAt, ctx, fuel - 1);
      n := n1 + n2 + n3;
    }
  }

  /** The jump back counts for the unit of fuel a round costs. */
  lemma OneMoreRound(p: Program, m: nat, s: State, s1: State, n: nat, s2: State, o: Outcome, end: nat,
      ctx: LoopTargets, fuel: nat)
    requires m >= 1 && Goes(p, m, s, s1) && Kept(s, s1, s1.vars) && Ends(p, n, s1, s2, o, end, ctx, fuel)
    ensures Ends(p, m + n, s, s2, o, end, ctx, fuel + 1)
  {
    RunAdd(p, m, n, Running(s));
  }
}
