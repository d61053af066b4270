/** Compiled string expressions on the byte-level string stack. */
module StringCode {
  import opened Values
  import opened Ast
  import opened CodeGen
  import opened Machine
  import opened Semantics
  import opened StmtSemantics
  import opened Runs
  import opened ExprCorrect
  import opened StringStacks
  import opened StringFrames
  import opened StringText
  import opened CodeShapes
  import opened ShapedExprs
  import opened ShapedStmts
  import opened InsideRuns
  import opened ProgramCorrect

  /** The stack as code that brings no pending strings of its own finds it: everything there lies below. */
  lemma Entered(s: Stk, head: CString)
    requires s.Sound() && s.kind == KString && s.Head() == head
    ensures Shows(s, |s.slots|, [], head) && Above(s, s)
  {
  }

  // ----- the string stack's assertions hold -----

  /** A byte behind the head's NUL, which appending a character asks for. */
  predicate Spare(s: Stk) {
    s.start + s.len + 1 < |s.buf|
  }

  lemma SetSpares(s: Stk, x: CString)
    ensures Spare(s.SetString(x))
  {
    hide Written;
  }

  lemma AdvanceSpares(s: Stk)
    requires Spare(s)
    ensures Spare(s.Advance())
  {
  }

  /** The string on top ends where the head starts, and joined with the head where the head ends. */
  lemma TopEnds(s: Stk, lo: nat, strs: seq<Pending>, head: CString)
    requires Shows(s, lo, strs, head) && strs != []
    ensures s.slots != []
    ensures var at, p := s.slots[|s.slots| - 1].offset, strs[|strs| - 1];
      at + |p.text| <= s.start && at + |Joined(p, head)| <= s.start + |head|
  {
    hide CStr, Stk.Wf;
    var p := strs[|strs| - 1];
    assert Piece(s, lo + (|strs| - 1), p);
    assert |Joined(p, head)| == |p.text| + if p.closed then 0 else |head|;
  }

  lemma LowerHead(s: Stk, t: Stk, lo: nat, strs: seq<Pending>, head: CString, strs': seq<Pending>, head': CString)
    requires Shows(s, lo, strs, head) && Shows(t, lo, strs', head') && Spare(s)
    requires |t.buf| == |s.buf| && t.start + |head'| <= s.start + |head|
    ensures Spare(t)
  {
    hide Stk.Wf, CStr, Piece;
  }

  lemma TakenBack(s: Stk)
    requires s.slots != [] && s.start < |s.buf| && s.slots[|s.slots| - 1].offset < |s.buf|
    ensures forall t :: t in {s.Rewind(), s.RewindTerminate(), s.Compared()} ==>
      |t.buf| == |s.buf| && t.start == s.slots[|s.slots| - 1].offset
  {
    hide CStr;
  }

  /** Taking a string off moves the end of the head down, if at all. */
  lemma RewindsSpare(ar: Arith, op: OpCode, w: Word, st: State, st': State, s: Stk, t: Stk, lo: nat)
    requires Shows(s, lo, st.strs, st.head) && TakesBack(op) && StringsAfter(ar, op, w, st, st')
    requires s.Wf() && Bytes(op, w, st'.head, s) == Some(t) && Shows(t, lo, st'.strs, st'.head)
    requires Spare(s)
    ensures Spare(t)
  {
    hide CStr, Joined, Stk.Wf, Stk.Floor, Shows, Spare, Apply;
    ApplyUnfolds(StringOp(op, w, st'.head).value, s);
    TopEnds(s, lo, st.strs, st.head);
    HeadStart(s);
    TakenBack(s);
    LowerHead(s, t, lo, st.strs, st.head, st'.strs, st'.head);
  }

  lemma HeadStart(s: Stk)
    requires s.Wf()
    ensures s.start < |s.buf| && forall i :: 0 <= i < |s.slots| ==> s.slots[i].offset < |s.buf|
  {
  }

  /** One step: the string stack allows its operation, as long as the slot and the byte it needs are there. */
  lemma BytesStep(ar: Arith, op: OpCode, w: Word, st: State, st': State, s: Stk, lo: nat, spare: bool, spare': bool)
    requires Shows(s, lo, st.strs, st.head) && Execute(ar, op, w, st) == Running(st')
    requires SetsAside(op) ==> lo + |st.strs| < STACK_DEPTH - 1
    requires (AppendsChar(op) ==> spare) && (spare ==> Spare(s))
    requires spare' ==> SetsHead(op) || (spare && !AppendsChar(op))
    ensures s.Wf() && Bytes(op, w, st'.head, s).Some? && (spare' ==> Spare(Bytes(op, w, st'.head, s).value))
  {
    hide Shows, Execute, Stk.Wf, Stk.Floor, Apply, CStr, Spare, Bytes, StringsAfter;
    ShowsWf(s, lo, st.strs, st.head);
    SlotsShown(s, lo, st.strs, st.head);
    ExecuteStrings(ar, op, w, st, st');
    ExecuteShows(ar, op, w, st, st', s, lo);
    if TakesBack(op) {
      RewindBytes(ar, op, w, st, st', s, lo);
      if spare' {
        RewindsSpare(ar, op, w, st, st', s, Bytes(op, w, st'.head, s).value, lo);
      }
    } else {
      OtherBytes(ar, op, w, st, st', s, lo, spare, spare');
    }
  }

  lemma RewindBytes(ar: Arith, op: OpCode, w: Word, st: State, st': State, s: Stk, lo: nat)
    requires Shows(s, lo, st.strs, st.head) && TakesBack(op) && StringsAfter(ar, op, w, st, st') && s.Wf()
    requires ShowsAfter(ar, op, w, st, st', s, lo)
    ensures Bytes(op, w, st'.head, s).Some? && Shows(Bytes(op, w, st'.head, s).value, lo, st'.strs, st'.head)
  {
    hide Shows, Stk.Wf, Apply, CStr;
    ShowsWf(s, lo, st.strs, st.head);
  }

  lemma OtherBytes(ar: Arith, op: OpCode, w: Word, st: State, st': State, s: Stk, lo: nat, spare: bool, spare': bool)
    requires Shows(s, lo, st.strs, st.head) && !TakesBack(op) && s.Wf() && StringsAfter(ar, op, w, st, st')
    requires s.kind == KString && |s.slots| == lo + |st.strs| && (SetsAside(op) ==> |s.slots| < STACK_DEPTH - 1)
    requires (AppendsChar(op) ==> spare) && (spare ==> Spare(s))
    requires spare' ==> SetsHead(op) || (spare && !AppendsChar(op))
    ensures Bytes(op, w, st'.head, s).Some? && (spare' ==> Spare(Bytes(op, w, st'.head, s).value))
  {
    hide Shows, Stk.Wf, Stk.Floor, Apply, CStr, Spare;
    SpareIs(s);
    var o := StringOp(op, w, st'.head);
    if o.Some? {
      ApplyUnfolds(o.value, s);
      if o.value.DoSet? {
        SetSpares(s, st'.head);
      } else if o.value.DoAdvance? && spare {
        AdvanceSpares(s);
      }
    }
  }

  lemma SpareIs(s: Stk)
    ensures Spare(s) == (s.start + s.len + 1 < |s.buf|)
  {
  }

  /** The byte-level stack of a state in shaped code exists, and has its spare byte where one is known of. */
  ghost predicate Carried(at: nat, ts: Shapes, r: Config, b: Option<Stk>) {
    && r.Running? && Stands(at, ts, FLAT, r.s) && b.Some?
    && (ts[r.s.ip - at].value.spare ==> Spare(b.value))
  }

  /** A whole run through shaped code: the string stack allows every operation. */
  lemma {:induction false} BytesGo(p: Program, c: Code, at: nat, ts: Shapes, a: Shape, b: Shape, hi: int, st: State,
      n: nat, s: Stk, m: nat)
    requires At(p, c, at) && Held(c, at, ts, map[], a, b, 0, hi) && st.ip == at && HeightOf(st) == a.h && !a.spare
    requires StaysIn(p, n, st, at + |c|) && m <= n && st.strs == []
    requires s.Sound() && s.kind == KString && s.Head() == st.head && |s.slots| + hi <= STACK_DEPTH - 1
    ensures Carried(at, ts, Run(p, m, Running(st)), BytesRun(p, m, st, s))
    decreases m
  {
    hide Shows, Above, Step, Bytes, Stk.Wf, Stk.Sound, Shaped, At, Spare, Execute, Stands, StringsWithin;
    RunStands(p, c, at, ts, a, b, st, n, m);
    if m == 0 {
      BytesStart(c, at, ts, a, b, st, s);
    } else {
      BytesGo(p, c, at, ts, a, b, hi, st, n, s, m - 1);
      var r, r' := Run(p, m - 1, Running(st)).s, Run(p, m, Running(st)).s;
      var t := BytesRun(p, m - 1, st, s).value;
      Entered(s, st.head);
      RunShows(p, m - 1, st, r, s, t, |s.slots|, s);
      BytesOn(p, c, at, ts, a, b, hi, r, r', t, |s.slots|);
      ShowsWf(t, |s.slots|, r.strs, r.head);
    }
  }

  lemma BytesStart(c: Code, at: nat, ts: Shapes, a: Shape, b: Shape, st: State, s: Stk)
    requires Shaped(c, at, ts, map[], a, b) && st.ip == at && HeightOf(st) == a.h && !a.spare
    ensures Carried(at, ts, Running(st), Some(s))
  {
  }

  lemma BytesOn(p: Program, c: Code, at: nat, ts: Shapes, a: Shape, b: Shape, hi: int, r: State, r': State, t: Stk,
      lo: nat)
    requires At(p, c, at) && Held(c, at, ts, map[], a, b, 0, hi) && r.ip < at + |c| && Step(p, r) == Running(r')
    requires Carried(at, ts, Running(r), Some(t)) && Shows(t, lo, r.strs, r.head) && lo + hi <= STACK_DEPTH - 1
    ensures r.ip < |p.code| && p.code[r.ip].Op? && t.Wf()
    ensures Carried(at, ts, Running(r'), Bytes(p.code[r.ip].op, OperandAt(p, r.ip), r'.head, t))
  {
    hide Shows, Step, Bytes, Stk.Wf, Shaped, At, Spare, Execute;
    StepIs(p, r, r');
    StepSpare(p, c, at, ts, a, b, FLAT, r, r');
    var op, w := p.code[r.ip].op, OperandAt(p, r.ip);
    BytesStep(p.ar, op, w, r.(ip := r.ip + 1), r', t, lo, ts[r.ip - at].value.spare, ts[r'.ip - at].value.spare);
  }

  lemma StepIs(p: Program, r: State, r': State)
    requires Step(p, r) == Running(r')
    ensures r.ip < |p.code| && p.code[r.ip].Op?
    ensures Execute(p.ar, p.code[r.ip].op, OperandAt(p, r.ip), r.(ip := r.ip + 1)) == Running(r')
  {
    hide Execute;
  }

  /**
    The code of an expression on the bytes of any string stack that has a string head and as many slots
    left as the expression may need: no assertion of the stack fails, and all slots, frames and lower
    bytes end up as they were. A string value - the concatenation of its operands, whatever their
    nesting - ends up as the head's bytes and NUL; an int one, such as what a string comparison found, on
    the int stack; and the variables, those stored under a name and an index among them, hold what the
    expression's meaning stores.
   */
  lemma CodeOnBytes(p: Program, e: Expr, t: TypeReq, ip: nat, st: State, s: Stk) returns (n: nat, st': State, u: Stk)
    requires Fits(e, t) && At(p, GenExpr(p.ar, e, t, st.ip, ip).code, st.ip)
    requires HasRoom(st, Peak(e, t)) && st.strs == []
    requires s.Sound() && s.kind == KString && s.Head() == st.head && |s.slots| + Peak(e, t).s <= STACK_DEPTH - 1
    ensures Goes(p, n, st, st') && st'.ip == st.ip + |GenExpr(p.ar, e, t, st.ip, ip).code|
    ensures BytesRun(p, n, st, s) == Some(u)
    ensures var ef := Eval(p.ar, e, t, st.vars);
      && st'.vars == ef.vars
      && (t == ReqUInt ==> st'.ints == st.ints + [AsInt(ef.out)])
      && u.kind == KString && (t == ReqString ==> u.Head() == AsStr(ef.out))
      && u.slots == s.slots && u.frames == s.frames && u.start == s.start
      && |u.buf| >= |s.buf| && forall i :: 0 <= i < s.start && i < |s.buf| ==> u.buf[i] == s.buf[i]
  {
    hide GenExpr, Eval, Fits, Peak, HasRoom, At, Shows, Above, BytesRun, Run, Held, Stk.Sound, Stands, Arrives,
         Carried, StaysIn;
    var c := GenExpr(p.ar, e, t, st.ip, ip).code;
    n, st' := ExprArrives(p, e, t, ip, st);
    ArrivingStays(p, n, st, st', st.ip + |c|);
    var a := Shape(HeightOf(st), false);
    var ts := ExprShaped(p.ar, e, t, st.ip, ip, a);
    BytesGo(p, c, st.ip, ts, a, Exit(t, a), Peak(e, t).s, st, n, s, n);
    CarriedSome(st.ip, ts, Run(p, n, Running(st)), BytesRun(p, n, st, s));
    u := BytesRun(p, n, st, s).value;
    Entered(s, st.head);
    RunShows(p, n, st, st', s, u, |s.slots|, s);
    Left(s, u, st'.head);
    assert u.start == Origin(u, |s.slots|) == Origin(s, |s.slots|) == s.start;
  }

  lemma CarriedSome(at: nat, ts: Shapes, r: Config, b: Option<Stk>)
    requires Carried(at, ts, r, b)
    ensures b.Some?
  {
  }

  lemma Left(s: Stk, t: Stk, head: CString)
    requires Shows(t, |s.slots|, [], head) && Above(s, t) && s.Floor() <= |s.slots|
    ensures t.kind == KString && t.Head() == head && t.slots == s.slots && t.frames == s.frames
    ensures |t.buf| >= |s.buf| && forall i :: 0 <= i < s.start && i < |s.buf| ==> t.buf[i] == s.buf[i]
  {
    assert t.slots == s.slots;
  }

  // ----- whole scripts -----

  lemma ScriptShaped(ar: Arith, b: Block) returns (ts: Shapes)
    requires FitsBlock(b)
    ensures var a := Shape(FLAT, false);
      Held(Compiled(ar, b).code, 0, ts, map[], a, a, 0, PeakBlock(b).s)
  {
    hide Held, GenBlock, FitsBlock, PeakBlock;
    var a, hi := Shape(FLAT, false), PeakBlock(b).s;
    var c := GenBlock(ar, b, 0, 0, NoLoop);
    var ts0 := BlockShaped(ar, b, 0, 0, NoLoop, a, map[], hi);
    var ts1 := ReturnHeld(RETURN, |c|, a, a, map[], 0, hi);
    ts := Followed(c, [Op(RETURN)], 0, ts0, ts1, map[], a, a, a, 0, hi);
  }

  lemma UnderWay(p: Program, n: nat, s: State)
    requires Run(p, n, Running(s)).Running?
    ensures StaysIn(p, n, s, |p.code|)
  {
    hide Step;
    forall m: nat | m < n ensures Run(p, m, Running(s)).Running? && Run(p, m, Running(s)).s.ip < |p.code| {
      WasRunning(p, m, n, Running(s));
      WasRunning(p, m + 1, n, Running(s));
      StepsInside(p, Run(p, m, Running(s)).s);
    }
  }

  /**
    At every step of every run of a served script the bytes show the machine's strings, on any string stack
    with as many slots left as the script may need: no assertion of the stack ever fails, and all that lay
    there before stays as it was.
   */
  lemma ScriptOnBytes(ar: Arith, b: Block, vars: Store, n: nat, s: Stk) returns (u: Stk)
    requires Served(b) && Run(Compiled(ar, b), n, Running(Start(vars))).Running?
    requires s.Sound() && s.kind == KString && s.Head() == "" && |s.slots| + PeakBlock(b).s <= STACK_DEPTH - 1
    ensures BytesRun(Compiled(ar, b), n, Start(vars), s) == Some(u)
    ensures var r := Run(Compiled(ar, b), n, Running(Start(vars))).s;
      Shows(u, |s.slots|, r.strs, r.head) && Above(s, u) && Origin(u, |s.slots|) == Origin(s, |s.slots|)
  {
    hide GenBlock, FitsBlock, PeakBlock, HasRoom, At, Shows, Above, BytesRun, Run, Held, Stk.Sound, Stands, Carried,
         StaysIn, Origin;
    var p, st := Compiled(ar, b), Start(vars);
    var a := Shape(FLAT, false);
    var ts := ScriptShaped(ar, b);
    UnderWay(p, n, st);
    WholeAt(p);
    BytesGo(p, p.code, 0, ts, a, a, PeakBlock(b).s, st, n, s, n);
    CarriedSome(0, ts, Run(p, n, Running(st)), BytesRun(p, n, st, s));
    u := BytesRun(p, n, st, s).value;
    Entered(s, "");
    RunShows(p, n, st, Run(p, n, Running(st)).s, s, u, |s.slots|, s);
  }

  /** On a string stack with nothing set aside every served script finds the slots it needs. */
  lemma ScriptOnEmptyStack(ar: Arith, b: Block, vars: Store, n: nat, s: Stk) returns (u: Stk)
    requires Served(b) && Run(Compiled(ar, b), n, Running(Start(vars))).Running?
    requires s.Sound() && s.kind == KString && s.Head() == "" && s.slots == []
    ensures BytesRun(Compiled(ar, b), n, Start(vars), s) == Some(u)
    ensures var r := Run(Compiled(ar, b), n, Running(Start(vars))).s; Shows(u, 0, r.strs, r.head)
  {
    assert PeakBlock(b).s <= STRING_LIMIT;
    hide PeakBlock, HasRoom, Shows, Above, BytesRun, Run, Stk.Sound, Served;
    u := ScriptOnBytes(ar, b, vars, n, s);
  }

  lemma WholeAt(p: Program)
    ensures At(p, p.code, 0)
  {
    assert p.code[0..|p.code|] == p.code;
  }
}
