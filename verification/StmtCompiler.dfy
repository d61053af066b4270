/** The compiler for statements: loops open a scope whose jumps are patched when the loop ends. */
module StmtCompiler {
  import opened Values
  import opened Ast
  import opened CodeGen
  import opened Streams
  import opened CodeStreams
  import opened Compiler
  import opened ProgramCorrect

  /** `tg` are the targets of the innermost open loop, and `ctx` says whether there is one. */
  ghost predicate InScope(cs: CodeStream, ctx: LoopTargets, tg: Targets)
    reads cs
  {
    && (ctx.InLoop? <==> true in cs.fixLoopStack)
    && (ctx.InLoop? ==> tg.breakAt == ctx.breakAt && tg.continueAt == ctx.continueAt)
  }

  /** A jump out of a loop waits for its target. */
  method EmitLoopJump(cs: CodeStream, kind: FixKind, ghost s0: Stream, ghost code: Code, ghost tg: Targets)
    requires cs.Valid() && cs.fixStack != [] && Emits(s0, cs.Contents(), code, tg)
    modifies cs
    ensures cs.Valid() && cs.fixLoopStack == old(cs.fixLoopStack) && cs.numFuncCalls == old(cs.numFuncCalls)
    ensures Emits(s0, cs.Contents(), code + [Num(TargetOf(kind, tg))], tg) && cs.codePos == old(cs.codePos) + 1
  {
    hide Emits, Stream.Valid;
    EmitsFix(cs.Contents(), kind, tg);
    EmitsStream(cs.Contents(), cs.Contents().EmitFix(kind), [Num(TargetOf(kind, tg))], tg);
    EmitsBoth(s0, cs.Contents(), cs.Contents().EmitFix(kind), code, [Num(TargetOf(kind, tg))], tg);
    cs.EmitFix(kind);
  }

  method CompileStmt(cs: CodeStream, ar: Arith, st: Stmt, ip: nat, ghost ctx: LoopTargets, ghost tg: Targets)
      returns (ip': nat)
    requires cs.Valid() && InScope(cs, ctx, tg)
    modifies cs
    ensures cs.Valid() && cs.fixLoopStack == old(cs.fixLoopStack) && cs.numFuncCalls == old(cs.numFuncCalls)
    ensures var g := GenStmt(ar, st, old(cs.codePos), ip, ctx);
            Emits(old(cs.Contents()), cs.Contents(), g.code, tg) && ip' == g.ip
    ensures cs.codePos == old(cs.codePos) + |GenStmt(ar, st, old(cs.codePos), ip, ctx).code|
    decreases st, 2
  {
    hide Emits, GenExpr, GenIf, GenLoop, Stream.Valid, ReturnType, ReturnOp;
    ghost var s0, at := cs.Contents(), cs.codePos;
    EmitsNothing(s0, tg);
    match st {
      case ExprStmt(e) => ip' := Compile(cs, ar, e, ip, ReqNone, tg);
      case Break | Continue =>
        var inLoop := cs.InLoop();
        if inLoop {
          EmitWord(cs, Op(JMP), s0, [], tg);
          var kind := if st.Break? then FixBreak else FixContinue;
          EmitLoopJump(cs, kind, s0, [] + [Op(JMP)], tg);
          assert [] + [Op(JMP)] + [Num(TargetOf(kind, tg))] == [Op(JMP), Num(TargetOf(kind, tg))];
        }
        ip' := cs.codePos;
      case Return(Absent) =>
        EmitWord(cs, Op(RETURN_VOID), s0, [], tg);
        assert [] + [Op(RETURN_VOID)] == [Op(RETURN_VOID)];
        ip' := cs.codePos;
      case Return(Present(e)) =>
        ip' := Compile(cs, ar, e, ip, ReturnType(e), tg);
        EmitWord(cs, Op(ReturnOp(ReturnType(e))), s0, GenExpr(ar, e, ReturnType(e), at, ip).code, tg);
        ip' := cs.codePos;
      case If(_, _, _) => ip' := CompileIf(cs, ar, st, ip, ctx, tg);
      case Loop(_, _, _, _, _) => ip' := CompileLoop(cs, ar, st, ip, ctx, tg);
    }
    EmitsLength(s0, cs.Contents(), GenStmt(ar, st, at, ip, ctx).code, tg);
  }

  method CompileBlock(cs: CodeStream, ar: Arith, b: Block, ip: nat, ghost ctx: LoopTargets, ghost tg: Targets)
      returns (end: nat)
    requires cs.Valid() && InScope(cs, ctx, tg)
    modifies cs
    ensures cs.Valid() && cs.fixLoopStack == old(cs.fixLoopStack) && cs.numFuncCalls == old(cs.numFuncCalls)
    ensures Emits(old(cs.Contents()), cs.Contents(), GenBlock(ar, b, old(cs.codePos), ip, ctx), tg)
    ensures end == cs.codePos == old(cs.codePos) + |GenBlock(ar, b, old(cs.codePos), ip, ctx)|
    decreases b, 0
  {
    hide Emits, GenStmt, Stream.Valid;
    ghost var s0, at := cs.Contents(), cs.codePos;
    EmitsNothing(s0, tg);
    if b.Then? {
      var ip' := CompileStmt(cs, ar, b.first, ip, ctx, tg);
      ghost var g := GenStmt(ar, b.first, at, ip, ctx);
      ghost var s1 := cs.Contents();
      var _ := CompileBlock(cs, ar, b.rest, ip', ctx, tg);
      EmitsBoth(s0, s1, cs.Contents(), g.code, GenBlock(ar, b.rest, at + |g.code|, g.ip, ctx), tg);
    }
    end := cs.codePos;
  }

  method CompileIf(cs: CodeStream, ar: Arith, st: Stmt, ip: nat, ghost ctx: LoopTargets, ghost tg: Targets)
      returns (ip': nat)
    requires cs.Valid() && InScope(cs, ctx, tg) && st.If?
    modifies cs
    ensures cs.Valid() && cs.fixLoopStack == old(cs.fixLoopStack) && cs.numFuncCalls == old(cs.numFuncCalls)
    ensures Emits(old(cs.Contents()), cs.Contents(), GenIf(ar, st, old(cs.codePos), ip, ctx), tg)
    ensures ip' == cs.codePos == old(cs.codePos) + |GenIf(ar, st, old(cs.codePos), ip, ctx)|
    decreases st, 1
  {
    hide Emits, GenExpr, GenBlock, GenIf, Stream.Valid, JumpUnless, TestType;
    ghost var s0, at := cs.Contents(), cs.codePos;
    IfIs(ar, st, at, ip, ctx);
    var t := TestType(st.test);
    var jump := Op(JumpUnless(t));
    ip' := Compile(cs, ar, st.test, ip, t, tg);
    ghost var gt := GenExpr(ar, st.test, t, at, ip);
    EmitWord(cs, jump, s0, gt.code, tg);
    ghost var s1 := cs.Contents();
    var elseIp := cs.Emit(Num(0));
    ghost var s2 := cs.Contents();
    ghost var ct := GenBlock(ar, st.thn, cs.codePos, ip', ctx);
    var thenEnd := CompileBlock(cs, ar, st.thn, ip', ctx, tg);
    if st.els.End? {
      PatchHole(cs, elseIp, thenEnd, s0, s1, gt.code + [jump], ct, tg);
      OneJump(gt.code, jump, Num(thenEnd), ct);
    } else {
      ghost var ce := GenBlock(ar, st.els, thenEnd + 2, ip', ctx);
      CompileElse(cs, ar, st.els, ip', s2, ct, ctx, tg);
      PatchHole(cs, elseIp, thenEnd + 2, s0, s1, gt.code + [jump], ct + [Op(JMP)] + [Num(cs.codePos)] + ce, tg);
      NestedJumps(gt.code, jump, Num(thenEnd + 2), ct, Op(JMP), Num(cs.codePos), ce);
    }
    ip' := cs.codePos;
    EmitsLength(s0, cs.Contents(), GenIf(ar, st, at, ip, ctx), tg);
  }

  lemma IfIs(ar: Arith, st: Stmt, at: nat, ip: nat, ctx: LoopTargets)
    requires st.If?
    ensures var gt := GenExpr(ar, st.test, TestType(st.test), at, ip);
      var thenAt, jump := at + |gt.code| + 2, Op(JumpUnless(TestType(st.test)));
      var ct := GenBlock(ar, st.thn, thenAt, gt.ip, ctx);
      var elseAt := thenAt + |ct| + 2;
      var ce := GenBlock(ar, st.els, elseAt, gt.ip, ctx);
      GenIf(ar, st, at, ip, ctx) ==
      if st.els.End? then gt.code + [jump, Num(thenAt + |ct|)] + ct
      else gt.code + [jump, Num(elseAt)] + ct + [Op(JMP), Num(elseAt + |ce|)] + ce
  {
    hide GenExpr, GenBlock, JumpUnless, TestType;
  }

  /** The jump over an else block, and the block. */
  method CompileElse(cs: CodeStream, ar: Arith, els: Block, ip: nat, ghost s0: Stream, ghost code: Code,
      ghost ctx: LoopTargets, ghost tg: Targets)
    requires cs.Valid() && InScope(cs, ctx, tg) && Emits(s0, cs.Contents(), code, tg)
    modifies cs
    ensures cs.Valid() && cs.fixLoopStack == old(cs.fixLoopStack) && cs.numFuncCalls == old(cs.numFuncCalls)
    ensures var ce := GenBlock(ar, els, old(cs.codePos) + 2, ip, ctx);
            Emits(s0, cs.Contents(), code + [Op(JMP)] + [Num(cs.codePos)] + ce, tg)
                && cs.codePos == old(cs.codePos) + 2 + |ce|
    decreases els, 1
  {
    hide Emits, GenBlock, Stream.Valid;
    EmitWord(cs, Op(JMP), s0, code, tg);
    ghost var s1 := cs.Contents();
    var endifIp := cs.Emit(Num(0));
    ghost var ce := GenBlock(ar, els, cs.codePos, ip, ctx);
    var end := CompileBlock(cs, ar, els, ip, ctx, tg);
    PatchHole(cs, endifIp, end, s0, s1, code + [Op(JMP)], ce, tg);
  }

  lemma NestedJumps(a: Code, j0: Word, t0: Word, b: Code, j1: Word, t1: Word, c: Code)
    ensures a + [j0] + [t0] + (b + [j1] + [t1] + c) == a + [j0, t0] + b + [j1, t1] + c
  {
  }

  method CompileOptional(cs: CodeStream, ar: Arith, o: OptExpr, ip: nat, ghost s0: Stream, ghost code: Code,
      ghost tg: Targets)
    returns (ip': nat)
    requires cs.Valid() && Emits(s0, cs.Contents(), code, tg)
    modifies cs
    ensures cs.Valid() && cs.fixLoopStack == old(cs.fixLoopStack) && cs.numFuncCalls == old(cs.numFuncCalls)
    ensures var g := GenOptional(ar, o, old(cs.codePos), ip);
            Emits(s0, cs.Contents(), code + g.code, tg) && ip' == g.ip && cs.codePos == old(cs.codePos) + |g.code|
  {
    hide Emits, GenExpr, Stream.Valid;
    if o.Present? {
      ip' := CompileChild(cs, ar, o.e, ip, ReqNone, s0, code, tg);
    } else {
      ip' := ip;
      assert code + [] == code;
    }
  }

  /** The code before a loop's body, with the exit jump still waiting. */
  method CompileLoopHead(cs: CodeStream, ar: Arith, st: Stmt, ip: nat, ghost tg: Targets) returns (ip': nat)
    requires cs.Valid() && st.Loop? && cs.fixStack != []
    modifies cs
    ensures cs.Valid() && cs.fixLoopStack == old(cs.fixLoopStack) && cs.numFuncCalls == old(cs.numFuncCalls)
    ensures var g := GenLoopHead(ar, st, old(cs.codePos), ip, tg.breakAt);
            Emits(old(cs.Contents()), cs.Contents(), g.code, tg) && ip' == g.ip
                && cs.codePos == old(cs.codePos) + |g.code|
  {
    hide Emits, GenExpr, GenOptional, Stream.Valid, JumpUnless;
    ghost var s0, at := cs.Contents(), cs.codePos;
    EmitsNothing(s0, tg);
    ip' := CompileOptional(cs, ar, st.init, ip, s0, [], tg);
    ghost var gi := GenOptional(ar, st.init, at, ip);
    assert [] + gi.code == gi.code;
    if !st.isDo {
      var t := TestType(st.test);
      ghost var gt := GenExpr(ar, st.test, t, at + |gi.code|, gi.ip);
      ip' := CompileChild(cs, ar, st.test, ip', t, s0, gi.code, tg);
      EmitWord(cs, Op(JumpUnless(t)), s0, gi.code + gt.code, tg);
      EmitLoopJump(cs, FixBreak, s0, gi.code + gt.code + [Op(JumpUnless(t))], tg);
      OneJump(gi.code + gt.code, Op(JumpUnless(t)), Num(tg.breakAt), []);
      assert GenLoopHead(ar, st, at, ip, tg.breakAt).code + [] == GenLoopHead(ar, st, at, ip, tg.breakAt).code;
      assert gi.code + gt.code + [Op(JumpUnless(t))] + [Num(tg.breakAt)] + []
          == gi.code + gt.code + [Op(JumpUnless(t))] + [Num(tg.breakAt)];
    }
  }

  /** The code after a loop's body, with the jump back still waiting. */
  method CompileLoopTail(cs: CodeStream, ar: Arith, st: Stmt, ip: nat, ghost s0: Stream, ghost code: Code,
      ghost tg: Targets)
    requires cs.Valid() && st.Loop? && cs.fixStack != [] && Emits(s0, cs.Contents(), code, tg)
    modifies cs
    ensures cs.Valid() && cs.fixLoopStack == old(cs.fixLoopStack) && cs.numFuncCalls == old(cs.numFuncCalls)
    ensures var g := GenLoopTail(ar, st, old(cs.codePos), ip, tg.start);
            Emits(s0, cs.Contents(), code + g.code, tg) && cs.codePos == old(cs.codePos) + |g.code|
  {
    hide Emits, GenExpr, GenOptional, Stream.Valid, JumpWhen;
    ghost var at := cs.codePos;
    var t := TestType(st.test);
    var ip' := CompileOptional(cs, ar, st.step, ip, s0, code, tg);
    ghost var gs := GenOptional(ar, st.step, at, ip);
    ghost var gt := GenExpr(ar, st.test, t, at + |gs.code|, gs.ip);
    ip' := CompileChild(cs, ar, st.test, ip', t, s0, code + gs.code, tg);
    EmitWord(cs, Op(JumpWhen(t)), s0, code + gs.code + gt.code, tg);
    EmitLoopJump(cs, FixLoopStart, s0, code + gs.code + gt.code + [Op(JumpWhen(t))], tg);
    assert code + gs.code + gt.code + [Op(JumpWhen(t))] + [Num(tg.start)]
        == code + (gs.code + gt.code + [Op(JumpWhen(t)), Num(tg.start)]);
  }

  method CompileLoop(cs: CodeStream, ar: Arith, st: Stmt, ip: nat, ghost ctx: LoopTargets, ghost tg: Targets)
      returns (ip': nat)
    requires cs.Valid() && InScope(cs, ctx, tg) && st.Loop?
    modifies cs
    ensures cs.Valid() && cs.fixLoopStack == old(cs.fixLoopStack) && cs.numFuncCalls == old(cs.numFuncCalls)
    ensures Emits(old(cs.Contents()), cs.Contents(), GenLoop(ar, st, old(cs.codePos), ip), tg)
    ensures ip' == cs.codePos == old(cs.codePos) + |GenLoop(ar, st, old(cs.codePos), ip)|
    decreases st, 1
  {
    hide Emits, GenExpr, GenBlock, GenOptional, GenLoopHead, GenLoopTail, Stream.Valid, LayOut;
    ghost var s0, at := cs.Contents(), cs.codePos;
    ghost var l := LayOut(ar, st, at, ip);
    LoopLayout(ar, st, at, ip);
    ghost var inner := Targets(l.bodyAt, l.breakAt, l.continueAt);
    cs.PushFixScope(true);
    ghost var s1 := cs.Contents();
    ip' := CompileLoopHead(cs, ar, st, ip, inner);
    ghost var head := GenLoopHead(ar, st, at, ip, l.breakAt).code;
    var loopBlockStart := cs.codePos;
    ghost var s2 := cs.Contents();
    ghost var body := GenBlock(ar, st.body, l.bodyAt, l.bodyIp, InLoop(l.breakAt, l.continueAt));
    assert cs.fixLoopStack[|cs.fixLoopStack| - 1];
    var continueAt := CompileBlock(cs, ar, st.body, ip', InLoop(l.breakAt, l.continueAt), inner);
    EmitsBoth(s1, s2, cs.Contents(), head, body, inner);
    CompileLoopTail(cs, ar, st, ip', s1, head + body, inner);
    var breakAt := cs.codePos;
    ghost var s3 := cs.Contents();
    EmitsLoop(s0, s3, GenLoop(ar, st, at, ip), inner, tg);
    EmitsStream(s0, s3.FixLoop(inner).PopScope(), GenLoop(ar, st, at, ip), tg);
    cs.FixLoop(loopBlockStart, breakAt, continueAt);
    cs.PopFixScope();
    ip' := cs.codePos;
  }

  /** Compiling a script writes out exactly the program the correctness theorems are about. */
  method CompileScript(ar: Arith, b: Block) returns (code: array<Word>)
    ensures fresh(code) && code[..] == Compiled(ar, b).code
  {
    hide Emits, GenBlock, Stream.Valid;
    var cs := new CodeStream();
    ghost var tg := Targets(0, 0, 0);
    ghost var s0 := cs.Contents();
    var _ := CompileBlock(cs, ar, b, 0, NoLoop, tg);
    EmitWord(cs, Op(RETURN), s0, GenBlock(ar, b, 0, 0, NoLoop), tg);
    FinalOf(s0, cs.Contents(), GenBlock(ar, b, 0, 0, NoLoop) + [Op(RETURN)], tg);
    code := cs.EmitCodeStream();
  }

  lemma FinalOf(s0: Stream, s: Stream, code: Code, tg: Targets)
    requires s0 == Stream([], [], [], []) && Emits(s0, s, code, tg)
    ensures s.Final() == code
  {
  }
}
