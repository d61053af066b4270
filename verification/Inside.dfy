/** Runs of shaped code: they stay inside it until they arrive behind it, and the stacks are what the shape says. */
module InsideRuns {
  import opened Values
  import opened Ast
  import opened CodeGen
  import opened Machine
  import opened Semantics
  import opened Runs
  import opened ExprCorrect
  import opened CodeShapes
  import opened ShapedExprs

  // ----- one step -----

  /** An opcode that goes on leaves the stacks as its effect says, and control behind it or at its target. */
  ghost predicate Moves(op: OpCode, w: Word, s: State, s': State) {
    if IsJump(op) then
      || (!op.JMP? && s'.ip == s.ip + 1 && HeightOf(s') == HeightOf(s).Plus(Rise(op)))
      || (w.Num? && w.n >= 0 && s'.ip == w.n && HeightOf(s') == HeightOf(s).Plus(TakenRise(op)))
    else
      s'.ip == s.ip + Width(op) - 1 && HeightOf(s') == HeightOf(s).Plus(Rise(op))
  }

  lemma JumpMoves(ar: Arith, op: OpCode, w: Word, s: State, s': State)
    requires IsJump(op) && Execute(ar, op, w, s) == Running(s')
    ensures Moves(op, w, s, s')
  {
  }

  predicate LoadsHead(op: OpCode) {
    op.LOADVAR_STR? || op.LOADIMMED_STR? || op.LOADIMMED_IDENT?
  }

  lemma HeadMoves(ar: Arith, op: OpCode, w: Word, s: State, s': State)
    requires LoadsHead(op) && Execute(ar, op, w, s) == Running(s')
    ensures Moves(op, w, s, s')
  {
    hide NulFree, CopiedValue, Joined, Created, Existing, ReadInt, ReadFloat, ReadString, UnsignedValue, NumberValue,
         SetsHead;
  }

  predicate FromHead(op: OpCode) {
    op.STR_TO_UINT? || op.STR_TO_FLT? || op.STR_TO_NONE?
  }

  lemma StringMoves(ar: Arith, op: OpCode, w: Word, s: State, s': State)
    requires FromHead(op) && Execute(ar, op, w, s) == Running(s')
    ensures Moves(op, w, s, s')
  {
    hide NulFree, CopiedValue, Joined, Created, Existing, ReadInt, ReadFloat, ReadString, UnsignedValue, NumberValue,
         SetsHead;
  }

  predicate SetsAside(op: OpCode) {
    AppendsChar(op) || op.ADVANCE_STR?
  }

  lemma AdvanceMoves(ar: Arith, op: OpCode, w: Word, s: State, s': State)
    requires SetsAside(op) && Execute(ar, op, w, s) == Running(s')
    ensures Moves(op, w, s, s')
  {
    hide NulFree, CopiedValue, Joined, Created, Existing, ReadInt, ReadFloat, ReadString, UnsignedValue, NumberValue,
         SetsHead;
  }

  predicate TakesBack(op: OpCode) {
    op.REWIND_STR? || op.TERMINATE_REWIND_STR? || op.COMPARE_STR?
  }

  lemma RewindMoves(ar: Arith, op: OpCode, w: Word, s: State, s': State)
    requires TakesBack(op) && Execute(ar, op, w, s) == Running(s')
    ensures Moves(op, w, s, s')
  {
    hide NulFree, CopiedValue, Joined, Created, Existing, ReadInt, ReadFloat, ReadString, UnsignedValue, NumberValue,
         SetsHead;
  }

  predicate OnVariables(op: OpCode) {
    || op.SETCURVAR? || op.SETCURVAR_CREATE? || op.SETCURVAR_ARRAY? || op.SETCURVAR_ARRAY_CREATE?
    || op.LOADVAR_UINT? || op.LOADVAR_FLT? || op.LOADVAR_VAR?
    || op.SAVEVAR_UINT? || op.SAVEVAR_FLT? || op.SAVEVAR_STR? || op.SAVEVAR_VAR? || op.COPYVAR_TO_NONE?
  }

  predicate Selects(op: OpCode) {
    op.SETCURVAR? || op.SETCURVAR_CREATE? || op.SETCURVAR_ARRAY? || op.SETCURVAR_ARRAY_CREATE?
  }

  lemma VariableMoves(ar: Arith, op: OpCode, w: Word, s: State, s': State)
    requires OnVariables(op) && Execute(ar, op, w, s) == Running(s')
    ensures Moves(op, w, s, s')
  {
    hide Execute, Moves;
    if Selects(op) {
      SelectMoves(ar, op, w, s, s');
    } else {
      LoadSaveMoves(ar, op, w, s, s');
    }
  }

  lemma SelectMoves(ar: Arith, op: OpCode, w: Word, s: State, s': State)
    requires Selects(op) && Execute(ar, op, w, s) == Running(s')
    ensures Moves(op, w, s, s')
  {
    hide NulFree, CopiedValue, Joined, Created, Existing, ReadInt, ReadFloat, ReadString, UnsignedValue, NumberValue;
  }

  lemma LoadSaveMoves(ar: Arith, op: OpCode, w: Word, s: State, s': State)
    requires OnVariables(op) && !Selects(op) && Execute(ar, op, w, s) == Running(s')
    ensures Moves(op, w, s, s')
  {
    hide NulFree, CopiedValue, Joined, Created, Existing, ReadInt, ReadFloat, ReadString, UnsignedValue, NumberValue;
  }

  lemma NumberMoves(ar: Arith, op: OpCode, w: Word, s: State, s': State)
    requires !IsJump(op) && !LoadsHead(op) && !FromHead(op) && !SetsAside(op) && !TakesBack(op) && !OnVariables(op)
        && Execute(ar, op, w, s) == Running(s')
    ensures Moves(op, w, s, s')
  {
  }

  lemma ExecuteMoves(ar: Arith, op: OpCode, w: Word, s: State, s': State)
    requires Execute(ar, op, w, s) == Running(s')
    ensures Moves(op, w, s, s')
  {
    hide Execute, Moves;
    if IsJump(op) {
      JumpMoves(ar, op, w, s, s');
    } else if LoadsHead(op) {
      HeadMoves(ar, op, w, s, s');
    } else if FromHead(op) {
      StringMoves(ar, op, w, s, s');
    } else if SetsAside(op) {
      AdvanceMoves(ar, op, w, s, s');
    } else if TakesBack(op) {
      RewindMoves(ar, op, w, s, s');
    } else if OnVariables(op) {
      VariableMoves(ar, op, w, s, s');
    } else {
      NumberMoves(ar, op, w, s, s');
    }
  }

  /** The state is in front of an instruction or behind the code, with stacks as known there, counted from `base`. */
  ghost predicate Stands(at: nat, ts: Shapes, base: Height, s: State) {
    && at <= s.ip < at + |ts| && ts[s.ip - at].Some?
    && HeightOf(s) == base.Plus(ts[s.ip - at].value.h)
  }

  lemma StepStands(p: Program, c: Code, at: nat, ts: Shapes, outs: map<int, Shape>, a: Shape, b: Shape, base: Height,
      s: State, s': State)
    requires At(p, c, at) && Shaped(c, at, ts, outs, a, b) && Stands(at, ts, base, s) && s.ip < at + |c|
    requires Step(p, s) == Running(s')
    ensures Stands(at, ts, base, s') || (s'.ip in outs && HeightOf(s') == base.Plus(outs[s'.ip].h))
  {
    hide Execute, Rise, TakenRise, Returns, SetsHead, AppendsChar;
    var k := s.ip - at;
    assert Fine(c, at, ts, outs, k);
    AtWord(p, c, at, k);
    var op := c[k].op;
    if k + 1 < |c| {
      AtWord(p, c, at, k + 1);
    }
    var w := if s.ip + 1 < |p.code| then p.code[s.ip + 1] else Num(-1);
    var s1 := s.(ip := s.ip + 1);
    ExecuteMoves(p.ar, op, w, s1, s');
    NoReturn(p.ar, op, w, s1);
    Plusses(base, ts[k].value.h, Rise(op));
    Plusses(base, ts[k].value.h, TakenRise(op));
  }

  lemma NoReturn(ar: Arith, op: OpCode, w: Word, s: State)
    requires Execute(ar, op, w, s).Running?
    ensures !Returns(op) && !op.INVALID?
  {
  }

  lemma Plusses(a: Height, b: Height, c: Height)
    ensures a.Plus(b).Plus(c) == a.Plus(b.Plus(c))
  {
  }

  // ----- whole runs -----

  /** The program cut off at an address. */
  function Cut(p: Program, end: nat): Program
    requires end <= |p.code|
  {
    Program(p.ar, p.code[..end])
  }

  lemma CutAt(p: Program, c: Code, at: nat)
    requires At(p, c, at)
    ensures At(Cut(p, at + |c|), c, at)
  {
    assert p.code[..at + |c|][at..at + |c|] == p.code[at..at + |c|];
  }

  /** What lies behind shaped code is never read while it runs. */
  lemma StepCut(p: Program, c: Code, at: nat, ts: Shapes, a: Shape, b: Shape, base: Height, s: State)
    requires At(p, c, at) && Shaped(c, at, ts, map[], a, b) && Stands(at, ts, base, s) && s.ip < at + |c|
    ensures Step(Cut(p, at + |c|), s) == Step(p, s)
  {
    hide Execute, Rise, TakenRise, Returns, SetsHead, AppendsChar;
    var k := s.ip - at;
    assert Fine(c, at, ts, map[], k);
    AtWord(p, c, at, k);
    var op := c[k].op;
    if !ReadsOperand(op) {
      OperandUnread(p.ar, op, s.(ip := s.ip + 1));
    }
  }

  lemma {:induction false} WasRunning(p: Program, m: nat, n: nat, c: Config)
    requires m <= n && Run(p, n, c).Running?
    ensures Run(p, m, c).Running?
    decreases n
  {
    hide Step;
    if m < n {
      WasRunning(p, m, n - 1, c);
    }
  }

  lemma {:induction false} RunsInside(p: Program, c: Code, at: nat, ts: Shapes, a: Shape, b: Shape, s: State, n: nat,
      m: nat)
    requires At(p, c, at) && Shaped(c, at, ts, map[], a, b) && s.ip == at && HeightOf(s) == a.h
    requires Run(Cut(p, at + |c|), n, Running(s)).Running? && m <= n
    ensures var r := Run(p, m, Running(s));
      && r == Run(Cut(p, at + |c|), m, Running(s)) && r.Running?
      && Stands(at, ts, FLAT, r.s) && (m < n ==> r.s.ip < at + |c|)
    decreases m
  {
    hide Step, Shaped, Stands, At;
    AtInside(p, c, at);
    var p' := Cut(p, at + |c|);
    WasRunning(p', m, n, Running(s));
    if m == 0 {
      Starts(c, at, ts, a, b, s);
    } else {
      RunsInside(p, c, at, ts, a, b, s, n, m - 1);
      var r := Run(p, m - 1, Running(s)).s;
      StepCut(p, c, at, ts, a, b, FLAT, r);
      StepStands(p, c, at, ts, map[], a, b, FLAT, r, Step(p, r).s);
    }
    if m < n {
      WasRunning(p', m + 1, n, Running(s));
      StepsInside(p', Run(p', m, Running(s)).s);
    }
  }

  lemma Starts(c: Code, at: nat, ts: Shapes, a: Shape, b: Shape, s: State)
    requires Shaped(c, at, ts, map[], a, b) && s.ip == at && HeightOf(s) == a.h
    ensures Stands(at, ts, FLAT, s)
  {
  }

  lemma StepsInside(p: Program, s: State)
    requires Step(p, s).Running?
    ensures s.ip < |p.code|
  {
    hide Execute;
  }

  /** The run comes to `end` for the first time, without having left the code before it. */
  ghost predicate Arrives(p: Program, n: nat, s: State, s': State, end: nat) {
    && Goes(p, n, s, s') && s'.ip == end
    && forall m :: 0 <= m < n ==> Run(p, m, Running(s)).Running? && s.ip <= Run(p, m, Running(s)).s.ip < end
  }

  /** The run goes from `s` to `s'`, on its way never outside the addresses from `lo` to before `hi`. */
  ghost predicate Travels(p: Program, n: nat, s: State, s': State, lo: nat, hi: nat) {
    && Goes(p, n, s, s')
    && forall m :: 0 <= m < n ==> Run(p, m, Running(s)).Running? && lo <= Run(p, m, Running(s)).s.ip < hi
  }

  lemma ArrivesTravels(p: Program, n: nat, s: State, s': State, lo: nat, end: nat, hi: nat)
    requires Arrives(p, n, s, s', end) && lo <= s.ip && end <= hi
    ensures Travels(p, n, s, s', lo, hi) && s'.ip == end
  {
  }

  lemma TravelsArrives(p: Program, n: nat, s: State, s': State, end: nat)
    requires Travels(p, n, s, s', s.ip, end) && s'.ip == end
    ensures Arrives(p, n, s, s', end)
  {
  }

  lemma TravelsOn(p: Program, m: nat, s0: State, s1: State, n: nat, s2: State, lo: nat, hi: nat)
    requires Travels(p, m, s0, s1, lo, hi) && Travels(p, n, s1, s2, lo, hi)
    ensures Travels(p, m + n, s0, s2, lo, hi)
  {
    hide Step, Run;
    RunAdd(p, m, n, Running(s0));
    forall k: nat | k < m + n ensures Run(p, k, Running(s0)).Running? && lo <= Run(p, k, Running(s0)).s.ip < hi {
      if k >= m {
        RunAdd(p, m, k - m, Running(s0));
      }
    }
  }

  /** One step that starts inside. */
  lemma TravelsStep(p: Program, n: nat, s: State, s1: State, s2: State, lo: nat, hi: nat)
    requires Travels(p, n, s, s1, lo, hi) && Goes(p, n + 1, s, s2) && lo <= s1.ip < hi
    ensures Travels(p, n + 1, s, s2, lo, hi)
  {
    hide Step;
  }

  lemma TravelsBack(p: Program, m: nat, s: State, s1: State, n: nat, s2: State, lo: nat, hi: nat)
    requires Goes(p, m, s, s1) && Travels(p, m + n, s, s2, lo, hi)
    ensures Travels(p, n, s1, s2, lo, hi)
  {
    hide Step, Run;
    RunAdd(p, m, n, Running(s));
    forall k: nat | k < n ensures Run(p, k, Running(s1)).Running? && lo <= Run(p, k, Running(s1)).s.ip < hi {
      RunAdd(p, m, k, Running(s));
    }
  }

  /** A run arrives once. */
  lemma ArrivesOnce(p: Program, n: nat, m: nat, s: State, s1: State, s2: State, end: nat)
    requires Arrives(p, n, s, s1, end) && Arrives(p, m, s, s2, end)
    ensures n == m && s1 == s2
  {
    hide Run;
    NotBefore(p, n, m, s, s1, s2, end);
    NotBefore(p, m, n, s, s2, s1, end);
  }

  lemma NotBefore(p: Program, n: nat, m: nat, s: State, s1: State, s2: State, end: nat)
    requires Arrives(p, n, s, s1, end) && Goes(p, m, s, s2) && s2.ip == end
    ensures n <= m
  {
    hide Run;
  }

  /** Selecting a variable, with the run never leaving the code that does. */
  lemma TargetArrives(p: Program, name: CString, sub: OptExpr, create: bool, ip: nat, s: State)
      returns (n: nat, s': State)
    requires FitsIndex(sub) && At(p, GenTarget(p.ar, name, sub, create, s.ip, ip).code, s.ip)
        && HasRoom(s, PeakIndex(sub))
    ensures Arrives(p, n, s, s', s.ip + |GenTarget(p.ar, name, sub, create, s.ip, ip).code|) && StacksKept(s, s')
    ensures Selected(Target(p.ar, name, sub, s.vars).1, Target(p.ar, name, sub, s.vars).0, create, s')
  {
    hide GenTarget, Target, FitsIndex, PeakIndex, HasRoom, At, Shaped, StringsWithin, Step, Stands, Run, Selected,
         StacksKept;
    var c := GenTarget(p.ar, name, sub, create, s.ip, ip).code;
    CutAt(p, c, s.ip);
    AtInside(p, c, s.ip);
    var p' := Cut(p, s.ip + |c|);
    n, s' := TargetRuns(p', name, sub, create, ip, s);
    var a := Shape(HeightOf(s), false);
    var ts := TargetShaped(p.ar, name, sub, create, s.ip, ip, a);
    forall m: nat | m <= n
      ensures Run(p, m, Running(s)) == Run(p', m, Running(s)) && Run(p, m, Running(s)).Running?
      ensures m < n ==> s.ip <= Run(p, m, Running(s)).s.ip < s.ip + |c|
    {
      RunsInside(p, c, s.ip, ts, a, a, s, n, m);
      StandsThere(s.ip, ts, FLAT, Run(p, m, Running(s)).s);
    }
  }

  /** Compiler correctness, with the run never leaving the expression's own code. */
  lemma ExprArrives(p: Program, e: Expr, t: TypeReq, ip: nat, s: State) returns (n: nat, s': State)
    requires Fits(e, t) && At(p, GenExpr(p.ar, e, t, s.ip, ip).code, s.ip) && HasRoom(s, Peak(e, t))
    ensures Arrives(p, n, s, s', s.ip + |GenExpr(p.ar, e, t, s.ip, ip).code|)
    ensures s'.vars == Eval(p.ar, e, t, s.vars).vars && Delivers(s, s', t, Eval(p.ar, e, t, s.vars).out)
    ensures s'.cur == CurAfter(p.ar, e, t, s.vars, s.cur)
  {
    hide GenExpr, Eval, CurAfter, Fits, Peak, HasRoom, At, Shaped, StringsWithin, Step, Delivers, Stands, Run;
    var c := GenExpr(p.ar, e, t, s.ip, ip).code;
    CutAt(p, c, s.ip);
    AtInside(p, c, s.ip);
    var p' := Cut(p, s.ip + |c|);
    n, s' := ExprRuns(p', e, t, ip, s);
    var a := Shape(HeightOf(s), false);
    var ts := ExprShaped(p.ar, e, t, s.ip, ip, a);
    forall m: nat | m <= n
      ensures Run(p, m, Running(s)) == Run(p', m, Running(s)) && Run(p, m, Running(s)).Running?
      ensures m < n ==> s.ip <= Run(p, m, Running(s)).s.ip < s.ip + |c|
    {
      RunsInside(p, c, s.ip, ts, a, Exit(t, a), s, n, m);
      StandsThere(s.ip, ts, FLAT, Run(p, m, Running(s)).s);
    }
  }

  lemma AtInside(p: Program, c: Code, at: nat)
    requires At(p, c, at)
    ensures at + |c| <= |p.code|
  {
  }

  lemma StandsThere(at: nat, ts: Shapes, base: Height, s: State)
    requires Stands(at, ts, base, s)
    ensures at <= s.ip < at + |ts|
  {
  }

  /** After `n` steps the run is under way and has not been at `end` or behind it before. */
  ghost predicate StaysIn(p: Program, n: nat, s: State, end: nat) {
    && Run(p, n, Running(s)).Running?
    && forall m :: 0 <= m < n ==> Run(p, m, Running(s)).Running? && Run(p, m, Running(s)).s.ip < end
  }

  lemma ArrivingStays(p: Program, n: nat, s: State, s': State, end: nat)
    requires Arrives(p, n, s, s', end)
    ensures StaysIn(p, n, s, end) && Goes(p, n, s, s') && s'.ip == end
  {
  }

  /** All along a run through shaped code the stacks are what the shape says. */
  lemma {:induction false} RunStands(p: Program, c: Code, at: nat, ts: Shapes, a: Shape, b: Shape, s: State, n: nat,
      m: nat)
    requires At(p, c, at) && Shaped(c, at, ts, map[], a, b) && s.ip == at && HeightOf(s) == a.h
    requires StaysIn(p, n, s, at + |c|) && m <= n
    ensures Run(p, m, Running(s)).Running? && Stands(at, ts, FLAT, Run(p, m, Running(s)).s)
    decreases m
  {
    hide Step, Shaped, Stands, At;
    if m == 0 {
      Starts(c, at, ts, a, b, s);
    } else {
      RunStands(p, c, at, ts, a, b, s, n, m - 1);
      var r := Run(p, m - 1, Running(s)).s;
      assert Run(p, m, Running(s)).Running?;
      StepStands(p, c, at, ts, map[], a, b, FLAT, r, Step(p, r).s);
    }
  }

  /** What a step changes of what is known: a loaded head has its spare byte, an appended one may have none. */
  lemma StepSpare(p: Program, c: Code, at: nat, ts: Shapes, a: Shape, b: Shape, base: Height, s: State, s': State)
    requires At(p, c, at) && Shaped(c, at, ts, map[], a, b) && Stands(at, ts, base, s) && s.ip < at + |c|
    requires Step(p, s) == Running(s')
    ensures Stands(at, ts, base, s')
    ensures var k, k', op := s.ip - at, s'.ip - at, p.code[s.ip].op;
      && (AppendsChar(op) ==> ts[k].value.spare)
      && (SetsAside(op) ==> ts[k'].value.h.s == ts[k].value.h.s + 1)
      && (ts[k'].value.spare ==> SetsHead(op) || (ts[k].value.spare && !AppendsChar(op)))
  {
    hide Execute;
    StepStands(p, c, at, ts, map[], a, b, base, s, s');
    var k := s.ip - at;
    assert Fine(c, at, ts, map[], k);
    AtWord(p, c, at, k);
    var op := c[k].op;
    if k + 1 < |c| {
      AtWord(p, c, at, k + 1);
    }
    var w := if s.ip + 1 < |p.code| then p.code[s.ip + 1] else Num(-1);
    var s1 := s.(ip := s.ip + 1);
    ExecuteMoves(p.ar, op, w, s1, s');
    NoReturn(p.ar, op, w, s1);
  }

  /** The run leaves the machine's defined behaviour before it leaves these addresses. */
  ghost predicate Sticks(p: Program, n: nat, s: State, lo: nat, hi: nat) {
    && Run(p, n, Running(s)).Stuck?
    && forall m :: 0 <= m < n ==> Run(p, m, Running(s)).Running? && lo <= Run(p, m, Running(s)).s.ip < hi
  }

  lemma SticksOn(p: Program, m: nat, s0: State, s1: State, n: nat, lo: nat, hi: nat)
    requires Travels(p, m, s0, s1, lo, hi) && Sticks(p, n, s1, lo, hi)
    ensures Sticks(p, m + n, s0, lo, hi)
  {
    hide Step, Run;
    RunAdd(p, m, n, Running(s0));
    forall k: nat | k < m + n ensures Run(p, k, Running(s0)).Running? && lo <= Run(p, k, Running(s0)).s.ip < hi {
      if k >= m {
        RunAdd(p, m, k - m, Running(s0));
      }
    }
  }

  lemma SticksWider(p: Program, n: nat, s: State, lo: nat, hi: nat, lo': nat, hi': nat)
    requires Sticks(p, n, s, lo, hi) && lo' <= lo && hi <= hi'
    ensures Sticks(p, n, s, lo', hi')
  {
    hide Run;
  }

  /** What sticks does not arrive. */
  lemma {:induction false} SticksForGood(p: Program, n: nat, m: nat, s: State)
    requires Run(p, n, Running(s)).Stuck? && n <= m
    ensures Run(p, m, Running(s)).Stuck?
    decreases m
  {
    hide Step;
    if n < m {
      SticksForGood(p, n, m - 1, s);
    }
  }

  lemma NeverArrives(p: Program, n: nat, s: State, hi: nat, m: nat, r: State, end: nat)
    requires Sticks(p, n, s, s.ip, hi) && hi <= end && Goes(p, m, s, r)
    ensures r.ip < end
  {
    hide Run;
    if n <= m {
      SticksForGood(p, n, m, s);
    }
  }

  lemma TravelsWithin(p: Program, n: nat, s: State, s': State, lo: nat, hi: nat, lo': nat, hi': nat)
    requires Travels(p, n, s, s', lo, hi) && lo' <= lo && hi <= hi'
    ensures Travels(p, n, s, s', lo', hi')
  {
    hide Run;
  }

  lemma TravelsGoes(p: Program, n: nat, s: State, s': State, lo: nat, hi: nat)
    requires Travels(p, n, s, s', lo, hi)
    ensures Goes(p, n, s, s')
  {
  }

  lemma GoesFrom(p: Program, m: nat, s: State, q: State, n: nat, q': State)
    requires Goes(p, m, s, q) && Goes(p, m + n, s, q')
    ensures Goes(p, n, q, q')
  {
    RunAdd(p, m, n, Running(s));
  }

  lemma GoesThere(p: Program, n: nat, s: State, s1: State, s2: State)
    requires Goes(p, n, s, s1) && Goes(p, n, s, s2)
    ensures s1 == s2
  {
  }

  lemma NoTravel(p: Program, q: State, lo: nat, hi: nat)
    ensures Travels(p, 0, q, q, lo, hi)
  {
  }

  lemma NoSteps(p: Program, r: State, r': State, lo: nat, hi: nat)
    requires Travels(p, 0, r, r', lo, hi)
    ensures r' == r
  {
  }

  lemma FirstStep(p: Program, n: nat, r: State, r': State, lo: nat, hi: nat) returns (r1: State)
    requires n > 0 && Travels(p, n, r, r', lo, hi)
    ensures lo <= r.ip < hi && Step(p, r) == Running(r1) && Goes(p, 1, r, r1) && Travels(p, n - 1, r1, r', lo, hi)
  {
    hide Step;
    var c0, c1 := Run(p, 0, Running(r)), Run(p, 1, Running(r));
    assert c1 == Step(p, r);
    assert c1.Running?;
    r1 := c1.s;
    TravelsBack(p, 1, r, r1, n - 1, r', lo, hi);
  }

  lemma StartsIn(p: Program, s: State, n: nat, r: State, lo: nat, hi: nat)
    requires Travels(p, n, s, r, lo, hi)
    ensures n > 0 ==> lo <= s.ip < hi
  {
    assert Run(p, 0, Running(s)) == Running(s);
  }

  lemma NotEarly(p: Program, n1: nat, s: State, s1: State, jump: nat, n: nat, r: State, end: nat)
    requires Arrives(p, n1, s, s1, jump) && jump < end && Goes(p, n, s, r) && r.ip == end
    ensures n > n1
  {
    hide Run;
  }

  lemma DeliversHeight(s: State, s': State, t: TypeReq, o: Out)
    requires Delivers(s, s', t, o)
    ensures HeightOf(s') == HeightOf(s).Plus(ResultHeight(t))
  {
  }

  lemma OneStep(p: Program, n: nat, s: State, s1: State, s2: State)
    requires Goes(p, n, s, s1) && Step(p, s1) == Running(s2)
    ensures Goes(p, n + 1, s, s2)
  {
    hide Step;
  }

  /** The run comes to the end of the code, never having left it, with what the meaning says delivered. */
  ghost predicate RunsRight(p: Program, e: Expr, t: TypeReq, ip: nat, s: State) {
    exists n: nat, s': State :: Rightly(p, e, t, ip, s, n, s')
  }

  ghost predicate Rightly(p: Program, e: Expr, t: TypeReq, ip: nat, s: State, n: nat, s': State) {
    var ef := Eval(p.ar, e, t, s.vars);
    Arrives(p, n, s, s', s.ip + |GenExpr(p.ar, e, t, s.ip, ip).code|) && s'.vars == ef.vars
        && Delivers(s, s', t, ef.out)
  }
}
