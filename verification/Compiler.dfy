/**
  The compiler: it walks the tree once, emits words and placeholders, and patches each placeholder
  when its target becomes known. Every method is proved to add exactly the code that `CodeGen`
  describes. `tg` stands for the targets the innermost open loop is going to have.
 */
module Compiler {
  import opened Values
  import opened Ast
  import opened CodeGen
  import opened Streams
  import opened CodeStreams

  /** Emits one word after the `code` already emitted since `s0`. */
  method EmitWord(cs: CodeStream, w: Word, ghost s0: Stream, ghost code: Code, ghost tg: Targets)
    requires cs.Valid() && Emits(s0, cs.Contents(), code, tg)
    modifies cs
    ensures cs.Valid() && cs.fixLoopStack == old(cs.fixLoopStack) && cs.numFuncCalls == old(cs.numFuncCalls)
    ensures Emits(s0, cs.Contents(), code + [w], tg) && cs.codePos == old(cs.codePos) + 1
  {
    hide Emits, Stream.Valid;
    EmitsWord(cs.Contents(), w, tg);
    EmitsBoth(s0, cs.Contents(), cs.Contents().Emit(w), code, [w], tg);
    var _ := cs.Emit(w);
  }

  method EmitIdentifier(cs: CodeStream, name: CString, ghost s0: Stream, ghost code: Code, ghost tg: Targets)
    requires cs.Valid() && Emits(s0, cs.Contents(), code, tg)
    modifies cs
    ensures cs.Valid() && cs.fixLoopStack == old(cs.fixLoopStack) && cs.numFuncCalls == old(cs.numFuncCalls)
    ensures Emits(s0, cs.Contents(), code + IdentWords(name), tg) && cs.codePos == old(cs.codePos) + 2
  {
    hide Emits, Stream.Valid;
    ghost var s := cs.Contents();
    EmitsWord(s, Ident(name), tg);
    EmitsStream(s, s.Emit(Ident(name)), [Ident(name)], tg);
    EmitsWord(s.Emit(Ident(name)), Num(0), tg);
    EmitsBoth(s0, s, s.Emit(Ident(name)), code, [Ident(name)], tg);
    EmitsBoth(s0, s.Emit(Ident(name)), s.Emit(Ident(name)).Emit(Num(0)), code + [Ident(name)], [Num(0)], tg);
    assert code + [Ident(name)] + [Num(0)] == code + IdentWords(name);
    cs.EmitIdent(name);
  }

  lemma EmitsStream(s: Stream, s': Stream, code: Code, tg: Targets)
    requires Emits(s, s', code, tg)
    ensures s.Valid() && s'.Valid()
  {
  }

  /** Emits each word of a short sequence. */
  method EmitAll(cs: CodeStream, c: Code, ghost s0: Stream, ghost code: Code, ghost tg: Targets)
    requires cs.Valid() && Emits(s0, cs.Contents(), code, tg)
    modifies cs
    ensures cs.Valid() && cs.fixLoopStack == old(cs.fixLoopStack) && cs.numFuncCalls == old(cs.numFuncCalls)
    ensures Emits(s0, cs.Contents(), code + c, tg) && cs.codePos == old(cs.codePos) + |c|
  {
    hide Emits;
    assert code + c[..0] == code;
    for i := 0 to |c|
      invariant cs.Valid() && cs.fixLoopStack == old(cs.fixLoopStack) && cs.numFuncCalls == old(cs.numFuncCalls)
      invariant Emits(s0, cs.Contents(), code + c[..i], tg) && cs.codePos == old(cs.codePos) + i
    {
      EmitWord(cs, c[i], s0, code + c[..i], tg);
      assert code + c[..i] + [c[i]] == code + c[..i + 1];
    }
    assert c[..|c|] == c;
  }

  /** Compiles a child after the `code` already emitted since `s0`. */
  method CompileChild(cs: CodeStream, ar: Arith, e: Expr, ip: nat, t: TypeReq, ghost s0: Stream, ghost code: Code,
      ghost tg: Targets)
    returns (ip': nat)
    requires cs.Valid() && Emits(s0, cs.Contents(), code, tg)
    modifies cs
    ensures cs.Valid() && cs.fixLoopStack == old(cs.fixLoopStack) && cs.numFuncCalls == old(cs.numFuncCalls)
    ensures var g := GenExpr(ar, e, t, old(cs.codePos), ip);
            Emits(s0, cs.Contents(), code + g.code, tg) && ip' == g.ip && cs.codePos == old(cs.codePos) + |g.code|
    decreases e, 3
  {
    hide Emits, GenExpr, Stream.Valid;
    ghost var s1 := cs.Contents();
    ip' := Compile(cs, ar, e, ip, t, tg);
    EmitsBoth(s0, s1, cs.Contents(), code, GenExpr(ar, e, t, old(cs.codePos), ip).code, tg);
    EmitsLength(s1, cs.Contents(), GenExpr(ar, e, t, old(cs.codePos), ip).code, tg);
  }

  /** Fills in a placeholder emitted earlier. */
  method PatchHole(cs: CodeStream, addr: nat, value: nat, ghost s0: Stream, ghost s1: Stream, ghost a: Code,
      ghost b: Code, ghost tg: Targets)
    requires cs.Valid() && addr == |s1.words| && Emits(s0, s1, a, tg) && Emits(s1.Emit(Num(0)), cs.Contents(), b, tg)
    modifies cs
    ensures cs.Valid() && cs.fixLoopStack == old(cs.fixLoopStack) && cs.numFuncCalls == old(cs.numFuncCalls)
    ensures cs.Contents() == old(cs.Contents()).AddPatch(addr, value)
    ensures Emits(s0, cs.Contents(), a + [Num(value)] + b, tg) && cs.codePos == old(cs.codePos)
  {
    hide Emits, Stream.Valid;
    EmitsPatched(s0, s1, cs.Contents(), a, Num(0), b, value, tg);
    EmitsStream(s0, cs.Contents().AddPatch(addr, value), a + [Num(value)] + b, tg);
    cs.AddPatch(addr, value);
  }

  /** Compiles an expression for a value of type `t`. */
  method Compile(cs: CodeStream, ar: Arith, e: Expr, ip: nat, t: TypeReq, ghost tg: Targets) returns (ip': nat)
    requires cs.Valid()
    modifies cs
    ensures cs.Valid() && cs.fixLoopStack == old(cs.fixLoopStack) && cs.numFuncCalls == old(cs.numFuncCalls)
    ensures var g := GenExpr(ar, e, t, old(cs.codePos), ip);
            Emits(old(cs.Contents()), cs.Contents(), g.code, tg) && ip' == g.ip
    ensures cs.codePos == old(cs.codePos) + |GenExpr(ar, e, t, old(cs.codePos), ip).code|
    decreases e, 2
  {
    hide GenNode, Emits, Stream.Valid;
    match e {
      case IntLit(_) | FloatLit(_) | StrLit(_) | Constant(_) => ip' := CompileLiteral(cs, ar, e, ip, t, tg);
      case Var(_, _) => ip' := CompileVar(cs, ar, e, ip, t, tg);
      case FloatBinary(_, _, _) => ip' := CompileFloatBinary(cs, ar, e, ip, t, tg);
      case IntBinary(op, _, _) =>
        if op.LogicalOr? || op.LogicalAnd? {
          ip' := CompileShortCircuit(cs, ar, e, ip, t, tg);
        } else {
          ip' := CompileStrict(cs, ar, e, ip, t, tg);
        }
      case IntUnary(_, _) => ip' := CompileIntUnary(cs, ar, e, ip, t, tg);
      case FloatUnary(_) => ip' := CompileFloatUnary(cs, ar, e, ip, t, tg);
      case Conditional(_, _, _) => ip' := CompileConditional(cs, ar, e, ip, t, tg);
      case StrEq(_, _, _) => ip' := CompileStrEq(cs, ar, e, ip, t, tg);
      case StrCat(_, _, _) | CommaCat(_, _) => ip' := CompileCat(cs, ar, e, ip, t, tg);
      case Assign(_, _, _) => ip' := CompileAssign(cs, ar, e, ip, t, tg);
      case AssignOp(_, _, _, _) => ip' := CompileAssignOp(cs, ar, e, ip, t, tg);
    }
    EmitsLength(old(cs.Contents()), cs.Contents(), GenExpr(ar, e, t, old(cs.codePos), ip).code, tg);
  }

  method CompileLiteral(cs: CodeStream, ar: Arith, e: Expr, ip: nat, t: TypeReq, ghost tg: Targets) returns (ip': nat)
    requires cs.Valid() && (e.IntLit? || e.FloatLit? || e.StrLit? || e.Constant?)
    modifies cs
    ensures cs.Valid() && cs.fixLoopStack == old(cs.fixLoopStack) && cs.numFuncCalls == old(cs.numFuncCalls)
    ensures var g := GenNode(ar, e, t, old(cs.codePos), ip);
            Emits(old(cs.Contents()), cs.Contents(), g.code, tg) && ip' == g.ip
    decreases e, 1
  {
    hide GenExpr, Emits, Stream.Valid, Conversion;
    ghost var s0, at := cs.Contents(), cs.codePos;
    ghost var c := LiteralCode(ar, e, t);
    EmitsNothing(s0, tg);
    if e.Constant? && t == ReqString {
      EmitWord(cs, Op(LOADIMMED_IDENT), s0, [], tg);
      EmitIdentifier(cs, e.ident, s0, [] + [Op(LOADIMMED_IDENT)], tg);
      assert [] + [Op(LOADIMMED_IDENT)] + IdentWords(e.ident) == c;
    } else {
      EmitAll(cs, LiteralCode(ar, e, t), s0, [], tg);
      assert [] + c == c;
    }
    ip' := if e.Constant? then ip else cs.codePos;
  }

  /** Emits the selection of a variable or array element after the `code` already emitted since `s0`. */
  method CompileTarget(cs: CodeStream, ar: Arith, name: CString, sub: OptExpr, create: bool, ip: nat, ghost s0: Stream,
      ghost code: Code, ghost tg: Targets)
    returns (ip': nat)
    requires cs.Valid() && Emits(s0, cs.Contents(), code, tg)
    modifies cs
    ensures cs.Valid() && cs.fixLoopStack == old(cs.fixLoopStack) && cs.numFuncCalls == old(cs.numFuncCalls)
    ensures var g := GenTarget(ar, name, sub, create, old(cs.codePos), ip);
            Emits(s0, cs.Contents(), code + g.code, tg) && ip' == g.ip && cs.codePos == old(cs.codePos) + |g.code|
    decreases sub, 0
  {
    hide GenExpr, Emits, Stream.Valid;
    ghost var at := cs.codePos;
    ghost var whole := GenTarget(ar, name, sub, create, at, ip).code;
    match sub {
      case Absent =>
        var op := Op(if create then SETCURVAR_CREATE else SETCURVAR);
        EmitWord(cs, op, s0, code, tg);
        EmitIdentifier(cs, name, s0, code + [op], tg);
        assert code + [op] + IdentWords(name) == code + whole;
        ip' := ip;
      case Present(i) =>
        EmitWord(cs, Op(LOADIMMED_IDENT), s0, code, tg);
        EmitIdentifier(cs, name, s0, code + [Op(LOADIMMED_IDENT)], tg);
        ghost var c1 := code + [Op(LOADIMMED_IDENT)] + IdentWords(name);
        EmitWord(cs, Op(ADVANCE_STR), s0, c1, tg);
        ip' := CompileChild(cs, ar, i, ip, ReqString, s0, c1 + [Op(ADVANCE_STR)], tg);
        ghost var c2 := c1 + [Op(ADVANCE_STR)] + GenExpr(ar, i, ReqString, at + 4, ip).code;
        EmitWord(cs, Op(REWIND_STR), s0, c2, tg);
        var op := Op(if create then SETCURVAR_ARRAY_CREATE else SETCURVAR_ARRAY);
        EmitWord(cs, op, s0, c2 + [Op(REWIND_STR)], tg);
        assert c2 + [Op(REWIND_STR)] + [op] == code + whole;
    }
  }

  method CompileVar(cs: CodeStream, ar: Arith, e: Expr, ip: nat, t: TypeReq, ghost tg: Targets) returns (ip': nat)
    requires cs.Valid() && (e.Var?)
    modifies cs
    ensures cs.Valid() && cs.fixLoopStack == old(cs.fixLoopStack) && cs.numFuncCalls == old(cs.numFuncCalls)
    ensures var g := GenNode(ar, e, t, old(cs.codePos), ip);
            Emits(old(cs.Contents()), cs.Contents(), g.code, tg) && ip' == g.ip
    decreases e, 1
  {
    hide GenExpr, Emits, Stream.Valid, Conversion, GenTarget;
    ghost var s0, at := cs.Contents(), cs.codePos;
    EmitsNothing(s0, tg);
    if t != ReqNone {
      var _ := CompileTarget(cs, ar, e.name, e.sub, false, ip, s0, [], tg);
      ghost var c := GenTarget(ar, e.name, e.sub, false, at, ip).code;
      assert [] + c == c;
      EmitAll(cs, LoadVar(t), s0, c, tg);
    }
    ip' := cs.codePos;
  }

  method CompileFloatBinary(cs: CodeStream, ar: Arith, e: Expr, ip: nat, t: TypeReq, ghost tg: Targets)
      returns (ip': nat)
    requires cs.Valid() && (e.FloatBinary?)
    modifies cs
    ensures cs.Valid() && cs.fixLoopStack == old(cs.fixLoopStack) && cs.numFuncCalls == old(cs.numFuncCalls)
    ensures var g := GenNode(ar, e, t, old(cs.codePos), ip);
            Emits(old(cs.Contents()), cs.Contents(), g.code, tg) && ip' == g.ip
    decreases e, 1
  {
    hide GenExpr, Emits, Stream.Valid, Conversion;
    ghost var s0, at := cs.Contents(), cs.codePos;
    ghost var gr := GenExpr(ar, e.right, ReqFloat, at, ip);
    ghost var gl := GenExpr(ar, e.left, ReqFloat, at + |gr.code|, gr.ip);
    ip' := Compile(cs, ar, e.right, ip, ReqFloat, tg);
    ip' := CompileChild(cs, ar, e.left, ip', ReqFloat, s0, gr.code, tg);
    EmitWord(cs, Op(ARITH(e.fop)), s0, gr.code + gl.code, tg);
    EmitAll(cs, Conversion(ReqFloat, t), s0, gr.code + gl.code + [Op(ARITH(e.fop))], tg);
    ip' := cs.codePos;
  }

  method CompileStrict(cs: CodeStream, ar: Arith, e: Expr, ip: nat, t: TypeReq, ghost tg: Targets) returns (ip': nat)
    requires cs.Valid() && (e.IntBinary? && (e.iop.Bits? || e.iop.Compare?))
    modifies cs
    ensures cs.Valid() && cs.fixLoopStack == old(cs.fixLoopStack) && cs.numFuncCalls == old(cs.numFuncCalls)
    ensures var g := GenNode(ar, e, t, old(cs.codePos), ip);
            Emits(old(cs.Contents()), cs.Contents(), g.code, tg) && ip' == g.ip
    decreases e, 1
  {
    hide GenExpr, Emits, Stream.Valid, Conversion, OperandType;
    ghost var s0, at := cs.Contents(), cs.codePos;
    ghost var gr := GenExpr(ar, e.right, OperandType(e.iop), at, ip);
    ghost var gl := GenExpr(ar, e.left, OperandType(e.iop), at + |gr.code|, gr.ip);
    ip' := Compile(cs, ar, e.right, ip, OperandType(e.iop), tg);
    ip' := CompileChild(cs, ar, e.left, ip', OperandType(e.iop), s0, gr.code, tg);
    EmitWord(cs, Op(StrictOpCode(e.iop)), s0, gr.code + gl.code, tg);
    EmitAll(cs, Conversion(ReqUInt, t), s0, gr.code + gl.code + [Op(StrictOpCode(e.iop))], tg);
    ip' := cs.codePos;
  }

  /** The jump is patched with whatever address the right operand returns. */
  method CompileShortCircuit(cs: CodeStream, ar: Arith, e: Expr, ip: nat, t: TypeReq, ghost tg: Targets)
      returns (ip': nat)
    requires cs.Valid() && (e.IntBinary? && (e.iop.LogicalOr? || e.iop.LogicalAnd?))
    modifies cs
    ensures cs.Valid() && cs.fixLoopStack == old(cs.fixLoopStack) && cs.numFuncCalls == old(cs.numFuncCalls)
    ensures var g := GenNode(ar, e, t, old(cs.codePos), ip);
            Emits(old(cs.Contents()), cs.Contents(), g.code, tg) && ip' == g.ip
    decreases e, 1
  {
    hide GenExpr, Emits, Stream.Valid, Conversion;
    ghost var s0, at := cs.Contents(), cs.codePos;
    var jump := Op(if e.iop.LogicalOr? then JMPIF_NP else JMPIFNOT_NP);
    ghost var gl := GenExpr(ar, e.left, ReqUInt, at, ip);
    ghost var gr := GenExpr(ar, e.right, ReqUInt, at + |gl.code| + 2, gl.ip);
    ip' := Compile(cs, ar, e.left, ip, ReqUInt, tg);
    EmitWord(cs, jump, s0, gl.code, tg);
    ghost var s1 := cs.Contents();
    var jmpIp := cs.Emit(Num(0));
    ip' := Compile(cs, ar, e.right, ip', ReqUInt, tg);
    PatchHole(cs, jmpIp, ip', s0, s1, gl.code + [jump], gr.code, tg);
    ghost var c := gl.code + [jump, Num(gr.ip)] + gr.code;
    OneJump(gl.code, jump, Num(gr.ip), gr.code);
    EmitAll(cs, Conversion(ReqUInt, t), s0, c, tg);
    ip' := cs.codePos;
  }

  method CompileIntUnary(cs: CodeStream, ar: Arith, e: Expr, ip: nat, t: TypeReq, ghost tg: Targets) returns (ip': nat)
    requires cs.Valid() && (e.IntUnary?)
    modifies cs
    ensures cs.Valid() && cs.fixLoopStack == old(cs.fixLoopStack) && cs.numFuncCalls == old(cs.numFuncCalls)
    ensures var g := GenNode(ar, e, t, old(cs.codePos), ip);
            Emits(old(cs.Contents()), cs.Contents(), g.code, tg) && ip' == g.ip
    decreases e, 1
  {
    hide GenExpr, Emits, Stream.Valid, Conversion, UnaryType, UnaryOpCode, ConversionOp;
    ghost var s0, at := cs.Contents(), cs.codePos;
    var u := UnaryType(e.uop, e.operand);
    ghost var g := GenExpr(ar, e.operand, u, at, ip);
    ip' := Compile(cs, ar, e.operand, ip, u, tg);
    EmitWord(cs, Op(UnaryOpCode(e.uop, e.operand)), s0, g.code, tg);
    ghost var c := g.code + [Op(UnaryOpCode(e.uop, e.operand))];
    if t != ReqUInt {
      EmitWord(cs, Op(ConversionOp(u, t)), s0, c, tg);
    } else {
      assert c + [] == c;
    }
    ip' := cs.codePos;
  }

  method CompileFloatUnary(cs: CodeStream, ar: Arith, e: Expr, ip: nat, t: TypeReq, ghost tg: Targets)
      returns (ip': nat)
    requires cs.Valid() && (e.FloatUnary?)
    modifies cs
    ensures cs.Valid() && cs.fixLoopStack == old(cs.fixLoopStack) && cs.numFuncCalls == old(cs.numFuncCalls)
    ensures var g := GenNode(ar, e, t, old(cs.codePos), ip);
            Emits(old(cs.Contents()), cs.Contents(), g.code, tg) && ip' == g.ip
    decreases e, 1
  {
    hide GenExpr, Emits, Stream.Valid, Conversion;
    ghost var s0, at := cs.Contents(), cs.codePos;
    ghost var g := GenExpr(ar, e.operand, ReqFloat, at, ip);
    ip' := Compile(cs, ar, e.operand, ip, ReqFloat, tg);
    EmitWord(cs, Op(NEG), s0, g.code, tg);
    EmitAll(cs, Conversion(ReqFloat, t), s0, g.code + [Op(NEG)], tg);
    ip' := cs.codePos;
  }

  /** The test, the true branch and both jumps of a conditional; the second one still has a placeholder. */
  method CompileTrueBranch(cs: CodeStream, ar: Arith, e: Expr, ip: nat, t: TypeReq, ghost tg: Targets)
    returns (ip': nat, jumpEndIp: nat, ghost s4: Stream)
    requires cs.Valid() && e.Conditional?
    modifies cs
    ensures cs.Valid() && cs.fixLoopStack == old(cs.fixLoopStack) && cs.numFuncCalls == old(cs.numFuncCalls)
    ensures var gt := GenExpr(ar, e.test, TestType(e.test), old(cs.codePos), ip);
            var ga := GenExpr(ar, e.whenTrue, t, old(cs.codePos) + |gt.code| + 2, gt.ip);
            var elseAt := old(cs.codePos) + |gt.code| + 2 + |ga.code| + 2;
            && Emits(old(cs.Contents()), s4,
                gt.code + [Op(JumpUnless(TestType(e.test)))] + [Num(elseAt)] + (ga.code + [Op(JMP)]), tg)
            && cs.Contents() == s4.Emit(Num(0)) && jumpEndIp == |s4.words| && ip' == ga.ip && cs.codePos == elseAt
    decreases e, 0
  {
    hide GenExpr, Emits, Stream.Valid, JumpUnless;
    ghost var s0, at := cs.Contents(), cs.codePos;
    var tt := TestType(e.test);
    var jump := Op(JumpUnless(tt));
    ghost var gt := GenExpr(ar, e.test, tt, at, ip);
    ghost var ga := GenExpr(ar, e.whenTrue, t, at + |gt.code| + 2, gt.ip);
    ip' := Compile(cs, ar, e.test, ip, tt, tg);
    EmitWord(cs, jump, s0, gt.code, tg);
    ghost var s1 := cs.Contents();
    var jumpElseIp := cs.Emit(Num(0));
    ghost var s2 := cs.Contents();
    ip' := Compile(cs, ar, e.whenTrue, ip', t, tg);
    EmitWord(cs, Op(JMP), s2, ga.code, tg);
    ghost var s3 := cs.Contents();
    jumpEndIp := cs.Emit(Num(0));
    s4 := s3.AddPatch(jumpElseIp, cs.codePos);
    EmitsPatched(s0, s1, s3, gt.code + [jump], Num(0), ga.code + [Op(JMP)], cs.codePos, tg);
    AppendAfter(s0, s4, gt.code + [jump] + [Num(cs.codePos)] + (ga.code + [Op(JMP)]), Num(0), tg);
    cs.AddPatch(jumpElseIp, cs.codePos);
  }

  method CompileConditional(cs: CodeStream, ar: Arith, e: Expr, ip: nat, t: TypeReq, ghost tg: Targets)
      returns (ip': nat)
    requires cs.Valid() && (e.Conditional?)
    modifies cs
    ensures cs.Valid() && cs.fixLoopStack == old(cs.fixLoopStack) && cs.numFuncCalls == old(cs.numFuncCalls)
    ensures var g := GenNode(ar, e, t, old(cs.codePos), ip);
            Emits(old(cs.Contents()), cs.Contents(), g.code, tg) && ip' == g.ip
    decreases e, 1
  {
    hide GenExpr, Emits, Stream.Valid, Conversion, JumpUnless, GenNode;
    ghost var s0, at := cs.Contents(), cs.codePos;
    var tt := TestType(e.test);
    ConditionalLayout(ar, e, t, at, ip);
    ghost var gt := GenExpr(ar, e.test, tt, at, ip);
    ghost var ga := GenExpr(ar, e.whenTrue, t, at + |gt.code| + 2, gt.ip);
    ghost var elseAt := at + |gt.code| + 2 + |ga.code| + 2;
    ghost var gb := GenExpr(ar, e.whenFalse, t, elseAt, ga.ip);
    var jumpEndIp;
    ghost var s4;
    ip', jumpEndIp, s4 := CompileTrueBranch(cs, ar, e, ip, t, tg);
    ip' := Compile(cs, ar, e.whenFalse, ip', t, tg);
    ghost var c := gt.code + [Op(JumpUnless(tt))] + [Num(elseAt)] + (ga.code + [Op(JMP)]);
    PatchHole(cs, jumpEndIp, cs.codePos, s0, s4, c, gb.code, tg);
    TwoJumps(gt.code, Op(JumpUnless(tt)), Num(elseAt), ga.code, Op(JMP), Num(elseAt + |gb.code|), gb.code);
    ip' := cs.codePos;
  }

  lemma OneJump(a: Code, j: Word, t: Word, b: Code)
    ensures a + [j] + [t] + b == a + [j, t] + b
  {
  }

  lemma TwoJumps(a: Code, j0: Word, t0: Word, b: Code, j1: Word, t1: Word, c: Code)
    ensures a + [j0] + [t0] + (b + [j1]) + [t1] + c == a + [j0, t0] + b + [j1, t1] + c
  {
  }

  lemma AppendAfter(s0: Stream, s: Stream, code: Code, w: Word, tg: Targets)
    requires Emits(s0, s, code, tg)
    ensures s.Valid() && s.Emit(w).Valid()
  {
    EmitsWord(s, w, tg);
  }

  lemma ConditionalLayout(ar: Arith, e: Expr, t: TypeReq, at: nat, ip: nat)
    requires e.Conditional?
    ensures var gt := GenExpr(ar, e.test, TestType(e.test), at, ip);
            var ga := GenExpr(ar, e.whenTrue, t, at + |gt.code| + 2, gt.ip);
            var elseAt := at + |gt.code| + 2 + |ga.code| + 2;
            var gb := GenExpr(ar, e.whenFalse, t, elseAt, ga.ip);
            var c := gt.code + [Op(JumpUnless(TestType(e.test))), Num(elseAt)] + ga.code
                + [Op(JMP), Num(elseAt + |gb.code|)] + gb.code;
            GenNode(ar, e, t, at, ip) == Gen(c, at + |c|)
  {
    hide GenExpr, JumpUnless;
  }

  /** Emits both operands of a string operator. */
  method CompileStrings(cs: CodeStream, ar: Arith, e: Expr, ip: nat, ghost tg: Targets)
    requires cs.Valid() && IsStringPair(e)
    modifies cs
    ensures cs.Valid() && cs.fixLoopStack == old(cs.fixLoopStack) && cs.numFuncCalls == old(cs.numFuncCalls)
    ensures Emits(old(cs.Contents()), cs.Contents(), GenStrings(ar, e, old(cs.codePos), ip).code, tg)
    decreases e, 0
  {
    hide GenExpr, Emits, Stream.Valid, Between;
    ghost var s0, at := cs.Contents(), cs.codePos;
    ghost var gl := GenExpr(ar, e.left, ReqString, at, ip);
    var ip' := Compile(cs, ar, e.left, ip, ReqString, tg);
    EmitAll(cs, Between(e), s0, gl.code, tg);
    ip' := CompileChild(cs, ar, e.right, ip', ReqString, s0, gl.code + Between(e), tg);
  }

  method CompileStrEq(cs: CodeStream, ar: Arith, e: Expr, ip: nat, t: TypeReq, ghost tg: Targets) returns (ip': nat)
    requires cs.Valid() && (e.StrEq?)
    modifies cs
    ensures cs.Valid() && cs.fixLoopStack == old(cs.fixLoopStack) && cs.numFuncCalls == old(cs.numFuncCalls)
    ensures var g := GenNode(ar, e, t, old(cs.codePos), ip);
            Emits(old(cs.Contents()), cs.Contents(), g.code, tg) && ip' == g.ip
    decreases e, 1
  {
    hide GenExpr, Emits, Stream.Valid, Conversion, GenStrings;
    ghost var s0, at := cs.Contents(), cs.codePos;
    ghost var c := GenStrings(ar, e, at, ip).code;
    CompileStrings(cs, ar, e, ip, tg);
    EmitWord(cs, Op(COMPARE_STR), s0, c, tg);
    EmitAll(cs, if e.eq then [] else [Op(NOT)], s0, c + [Op(COMPARE_STR)], tg);
    EmitAll(cs, Conversion(ReqUInt, t), s0, c + [Op(COMPARE_STR)] + (if e.eq then [] else [Op(NOT)]), tg);
    ip' := cs.codePos;
    EmitsLength(s0, cs.Contents(), GenNode(ar, e, t, at, ip).code, tg);
  }

  method CompileCat(cs: CodeStream, ar: Arith, e: Expr, ip: nat, t: TypeReq, ghost tg: Targets) returns (ip': nat)
    requires cs.Valid() && (e.StrCat? || e.CommaCat?)
    modifies cs
    ensures cs.Valid() && cs.fixLoopStack == old(cs.fixLoopStack) && cs.numFuncCalls == old(cs.numFuncCalls)
    ensures var g := GenNode(ar, e, t, old(cs.codePos), ip);
            Emits(old(cs.Contents()), cs.Contents(), g.code, tg) && ip' == g.ip
    decreases e, 1
  {
    hide GenExpr, Emits, Stream.Valid, Conversion, GenStrings, StrConversion;
    ghost var s0, at := cs.Contents(), cs.codePos;
    ghost var c := GenStrings(ar, e, at, ip).code;
    CompileStrings(cs, ar, e, ip, tg);
    EmitWord(cs, Op(REWIND_STR), s0, c, tg);
    EmitAll(cs, StrConversion(t), s0, c + [Op(REWIND_STR)], tg);
    ip' := cs.codePos;
    EmitsLength(s0, cs.Contents(), GenNode(ar, e, t, at, ip).code, tg);
  }

  /** The address returned is the one the target, or else the right-hand side, returned. */
  method CompileAssign(cs: CodeStream, ar: Arith, e: Expr, ip: nat, t: TypeReq, ghost tg: Targets) returns (ip': nat)
    requires cs.Valid() && (e.Assign?)
    modifies cs
    ensures cs.Valid() && cs.fixLoopStack == old(cs.fixLoopStack) && cs.numFuncCalls == old(cs.numFuncCalls)
    ensures var g := GenNode(ar, e, t, old(cs.codePos), ip);
            Emits(old(cs.Contents()), cs.Contents(), g.code, tg) && ip' == g.ip
    decreases e, 1
  {
    hide GenExpr, Emits, Stream.Valid, Conversion, GenNode, GenTarget, AssignType, SaveOp;
    ghost var s0, at := cs.Contents(), cs.codePos;
    var s := AssignType(e.rhs, t);
    var kept := s == ReqString && e.sub.Present?;
    var keep := if s == ReqVar then [Op(LOADVAR_VAR)] else if kept then [Op(ADVANCE_STR)] else [];
    var back := if kept then [Op(TERMINATE_REWIND_STR)] else [];
    var t' := if t == ReqVar && s != ReqVar then ReqNone else t;
    AssignLayout(ar, e, t, at, ip);
    ghost var gr := GenExpr(ar, e.rhs, s, at, ip);
    ip' := Compile(cs, ar, e.rhs, ip, s, tg);
    EmitAll(cs, keep, s0, gr.code, tg);
    ghost var gt := GenTarget(ar, e.name, e.sub, true, cs.codePos, ip');
    ip' := CompileTarget(cs, ar, e.name, e.sub, true, ip', s0, gr.code + keep, tg);
    EmitAll(cs, back, s0, gr.code + keep + gt.code, tg);
    EmitWord(cs, Op(SaveOp(s)), s0, gr.code + keep + gt.code + back, tg);
    EmitAll(cs, Conversion(s, t'), s0, gr.code + keep + gt.code + back + [Op(SaveOp(s))], tg);
  }

  lemma AssignLayout(ar: Arith, e: Expr, t: TypeReq, at: nat, ip: nat)
    requires e.Assign?
    ensures var s := AssignType(e.rhs, t);
            var kept := s == ReqString && e.sub.Present?;
            var keep := if s == ReqVar then [Op(LOADVAR_VAR)] else if kept then [Op(ADVANCE_STR)] else [];
            var back := if kept then [Op(TERMINATE_REWIND_STR)] else [];
            var gr := GenExpr(ar, e.rhs, s, at, ip);
            var gt := GenTarget(ar, e.name, e.sub, true, at + |gr.code| + |keep|, gr.ip);
            GenNode(ar, e, t, at, ip) ==
            Gen(gr.code + keep + gt.code + back + [Op(SaveOp(s))]
                + Conversion(s, if t == ReqVar && s != ReqVar then ReqNone else t), gt.ip)
  {
    hide GenExpr, GenTarget, Conversion, SaveOp, AssignType;
  }

  method CompileAssignOp(cs: CodeStream, ar: Arith, e: Expr, ip: nat, t: TypeReq, ghost tg: Targets) returns (ip': nat)
    requires cs.Valid() && (e.AssignOp?)
    modifies cs
    ensures cs.Valid() && cs.fixLoopStack == old(cs.fixLoopStack) && cs.numFuncCalls == old(cs.numFuncCalls)
    ensures var g := GenNode(ar, e, t, old(cs.codePos), ip);
            Emits(old(cs.Contents()), cs.Contents(), g.code, tg) && ip' == g.ip
    decreases e, 1
  {
    hide GenExpr, Emits, Stream.Valid, Conversion, GenTarget, Operate, AssignOpType;
    ghost var s0, at := cs.Contents(), cs.codePos;
    var s := AssignOpType(e.aop);
    ghost var gr := GenExpr(ar, e.rhs, s, at, ip);
    ip' := Compile(cs, ar, e.rhs, ip, s, tg);
    ghost var gt := GenTarget(ar, e.name, e.sub, true, cs.codePos, ip');
    ip' := CompileTarget(cs, ar, e.name, e.sub, true, ip', s0, gr.code, tg);
    EmitAll(cs, Operate(e.aop), s0, gr.code + gt.code, tg);
    EmitAll(cs, Conversion(s, t), s0, gr.code + gt.code + Operate(e.aop), tg);
    ip' := cs.codePos;
  }
}
