/**
  The code each node stands for, as a function of its address: jump targets are already in place.
  The compiler proper (module Compiler) emits placeholders and patches them; it is proved to leave
  exactly this code behind.
 */
module CodeGen {
  import opened Values
  import opened Ast

  datatype OpCode =
    | JMPIFFNOT | JMPIFNOT | JMPIFF | JMPIF | JMPIFNOT_NP | JMPIF_NP | JMP
    | RETURN | RETURN_VOID | RETURN_FLT | RETURN_UINT
    | CMP(cmp: CompareOp)
    | BIT(bit: BitOp)
    | NOT | NOTF | ONESCOMPLEMENT
    | ARITH(fop: FloatOp)
    | NEG
    | SETCURVAR | SETCURVAR_CREATE | SETCURVAR_ARRAY | SETCURVAR_ARRAY_CREATE
    | LOADVAR_UINT | LOADVAR_FLT | LOADVAR_STR | LOADVAR_VAR
    | SAVEVAR_UINT | SAVEVAR_FLT | SAVEVAR_STR | SAVEVAR_VAR
    | STR_TO_UINT | STR_TO_FLT | STR_TO_NONE
    | FLT_TO_UINT | FLT_TO_STR | FLT_TO_NONE
    | UINT_TO_FLT | UINT_TO_STR | UINT_TO_NONE
    | COPYVAR_TO_NONE
    | LOADIMMED_UINT | LOADIMMED_FLT | LOADIMMED_STR | LOADIMMED_IDENT
    | ADVANCE_STR | ADVANCE_STR_APPENDCHAR | ADVANCE_STR_COMMA | ADVANCE_STR_NUL
    | REWIND_STR | TERMINATE_REWIND_STR | COMPARE_STR
    | INVALID

  /** One code word. An operand that indexes a constant table is shown as the entry it denotes. */
  datatype Word =
    | Op(op: OpCode)
    | Num(n: int)
    | Flt(f: F64)
    | Str(s: CString)
    | Ident(name: CString)
    | Chr(c: char)

  type Code = seq<Word>

  /** conversionOp of engine/console/astNodes.cc. */
  function ConversionOp(src: TypeReq, dst: TypeReq): OpCode {
    match (src, dst)
    case (ReqString, ReqUInt) => STR_TO_UINT
    case (ReqString, ReqFloat) => STR_TO_FLT
    case (ReqString, ReqNone) => STR_TO_NONE
    case (ReqString, ReqVar) => SAVEVAR_STR
    case (ReqFloat, ReqUInt) => FLT_TO_UINT
    case (ReqFloat, ReqString) => FLT_TO_STR
    case (ReqFloat, ReqNone) => FLT_TO_NONE
    case (ReqFloat, ReqVar) => SAVEVAR_FLT
    case (ReqUInt, ReqFloat) => UINT_TO_FLT
    case (ReqUInt, ReqString) => UINT_TO_STR
    case (ReqUInt, ReqNone) => UINT_TO_NONE
    case (ReqUInt, ReqVar) => SAVEVAR_UINT
    case (ReqVar, ReqUInt) => LOADVAR_UINT
    case (ReqVar, ReqFloat) => LOADVAR_FLT
    case (ReqVar, ReqString) => LOADVAR_STR
    case (ReqVar, ReqNone) => COPYVAR_TO_NONE
    case _ => INVALID
  }

  function Conversion(src: TypeReq, dst: TypeReq): Code {
    if src == dst then [] else [Op(ConversionOp(src, dst))]
  }

  /** What a concatenation adds when its head is wanted as a number. */
  function StrConversion(t: TypeReq): Code {
    match t
    case ReqUInt => [Op(STR_TO_UINT)]
    case ReqFloat => [Op(STR_TO_FLT)]
    case _ => []
  }

  function IdentWords(name: CString): Code {
    [Ident(name), Num(0)]
  }

  function LoadVar(t: TypeReq): Code {
    match t
    case ReqUInt => [Op(LOADVAR_UINT)]
    case ReqFloat => [Op(LOADVAR_FLT)]
    case ReqString => [Op(LOADVAR_STR)]
    case _ => []
  }

  function SaveOp(t: TypeReq): OpCode {
    match t
    case ReqUInt => SAVEVAR_UINT
    case ReqFloat => SAVEVAR_FLT
    case ReqVar => SAVEVAR_VAR
    case _ => SAVEVAR_STR
  }

  function JumpUnless(t: TypeReq): OpCode {
    if t == ReqUInt then JMPIFNOT else JMPIFFNOT
  }

  function JumpWhen(t: TypeReq): OpCode {
    if t == ReqUInt then JMPIF else JMPIFF
  }

  function ReturnOp(t: TypeReq): OpCode {
    match t
    case ReqUInt => RETURN_UINT
    case ReqFloat => RETURN_FLT
    case _ => RETURN
  }

  function AssignOpCode(op: AssignOperator): OpCode {
    match op
    case FloatAssign(f) => ARITH(f)
    case BitAssign(b) => BIT(b)
  }

  /** The current variable becomes the operand on top, and receives the result. */
  function Operate(op: AssignOperator): Code {
    var s := AssignOpType(op);
    [Op(ConversionOp(ReqVar, s)), Op(AssignOpCode(op)), Op(ConversionOp(s, ReqVar))]
  }

  /** An operator of IntBinary that is not short-circuit. */
  function StrictOpCode(op: IntOp): OpCode {
    match op
    case Bits(b) => BIT(b)
    case Compare(c) => CMP(c)
    case _ => INVALID
  }

  function UnaryOpCode(op: UnaryOp, e: Expr): OpCode {
    if op.Complement? then ONESCOMPLEMENT
    else if NegatesFloat(op, e) then NOTF else NOT
  }

  function GlueWords(glue: char): Code {
    if glue == '\0' then [Op(ADVANCE_STR)] else [Op(ADVANCE_STR_APPENDCHAR), Chr(glue)]
  }

  /** A literal loaded as a `t`; nothing is emitted when no value is wanted. */
  function LiteralWords(t: TypeReq, u: int, f: F64, s: Code): Code {
    match t
    case ReqUInt => [Op(LOADIMMED_UINT), Num(u)]
    case ReqFloat => [Op(LOADIMMED_FLT), Flt(f)]
    case ReqString => s
    case _ => []
  }

  /** The words of a literal node; `ar` is needed because literals are converted at compile time. */
  function LiteralCode(ar: Arith, e: Expr, t: TypeReq): Code
    requires e.IntLit? || e.FloatLit? || e.StrLit? || e.Constant?
  {
    match e
    case IntLit(v) => LiteralWords(t, ToU32(v), ar.floatOfInt(ToS32(v)), [Op(LOADIMMED_STR), Str(ar.showInt(ToS32(v)))])
    case FloatLit(f) => LiteralWords(t, ToU32(ar.wordOfFloat(f)), f, [Op(LOADIMMED_STR), Str(ar.showFloat(f))])
    case StrLit(s) => LiteralWords(t, ToU32(ar.wordOfFloat(ar.constantValue(s))), ar.constantValue(s),
        [Op(LOADIMMED_STR), Str(s)])
    case Constant(s) => LiteralWords(t, ToU32(ar.wordOfFloat(ar.constantValue(s))), ar.constantValue(s),
        [Op(LOADIMMED_IDENT)] + IdentWords(s))
  }

  /** Nodes whose `compile` returns an address that is not the end of their code. */
  predicate ReturnsStaleIp(e: Expr) {
    e.Constant? || e.Assign?
  }

  /** What compiling a node emits, and the address its `compile` returns. */
  datatype Gen = Gen(code: Code, ip: nat)

  /**
    The code of `e` at address `at`, leaving a value of type `t`. `ip` is the address the caller
    hands down, which only the stale-ip nodes look at.
   */
  function GenExpr(ar: Arith, e: Expr, t: TypeReq, at: nat, ip: nat): (g: Gen)
    ensures !ReturnsStaleIp(e) ==> g.ip == at + |g.code|
    decreases e, 2
  {
    GenNode(ar, e, t, at, ip)
  }

  /** One level of `GenExpr`: proofs unfold a node without unfolding its children. */
  function GenNode(ar: Arith, e: Expr, t: TypeReq, at: nat, ip: nat): (g: Gen)
    ensures !ReturnsStaleIp(e) ==> g.ip == at + |g.code|
    decreases e, 1
  {
    match e
    case IntLit(_) | FloatLit(_) | StrLit(_) =>
      var c := LiteralCode(ar, e, t);
      Gen(c, at + |c|)
    case Constant(_) => Gen(LiteralCode(ar, e, t), ip)
    case Var(name, sub) =>
      if t == ReqNone then Gen([], at) else
      var c := GenTarget(ar, name, sub, false, at, ip).code + LoadVar(t);
      Gen(c, at + |c|)
    case FloatBinary(op, l, r) =>
      var c := GenOperands(ar, e, ReqFloat, at, ip).code + [Op(ARITH(op))] + Conversion(ReqFloat, t);
      Gen(c, at + |c|)
    case IntBinary(op, l, r) =>
      if op.LogicalOr? || op.LogicalAnd? then
        var gl := GenExpr(ar, l, ReqUInt, at, ip);
        var gr := GenExpr(ar, r, ReqUInt, at + |gl.code| + 2, gl.ip);
        var jump := if op.LogicalOr? then JMPIF_NP else JMPIFNOT_NP;
        var c := gl.code + [Op(jump), Num(gr.ip)] + gr.code + Conversion(ReqUInt, t);
        Gen(c, at + |c|)
      else
        var c := GenOperands(ar, e, OperandType(op), at, ip).code + [Op(StrictOpCode(op))] + Conversion(ReqUInt, t);
        Gen(c, at + |c|)
    case IntUnary(op, x) =>
      var c := GenExpr(ar, x, UnaryType(op, x), at, ip).code + [Op(UnaryOpCode(op, x))] +
               (if t == ReqUInt then [] else [Op(ConversionOp(UnaryType(op, x), t))]);
      Gen(c, at + |c|)
    case FloatUnary(x) =>
      var c := GenExpr(ar, x, ReqFloat, at, ip).code + [Op(NEG)] + Conversion(ReqFloat, t);
      Gen(c, at + |c|)
    case Conditional(test, a, b) =>
      var gt := GenExpr(ar, test, TestType(test), at, ip);
      var ga := GenExpr(ar, a, t, at + |gt.code| + 2, gt.ip);
      var elseAt := at + |gt.code| + 2 + |ga.code| + 2;
      var gb := GenExpr(ar, b, t, elseAt, ga.ip);
      var c := gt.code + [Op(JumpUnless(TestType(test))), Num(elseAt)] +
               ga.code + [Op(JMP), Num(elseAt + |gb.code|)] + gb.code;
      Gen(c, at + |c|)
    case StrEq(l, r, eq) =>
      var c := GenStrings(ar, e, at, ip).code + [Op(COMPARE_STR)] +
               (if eq then [] else [Op(NOT)]) + Conversion(ReqUInt, t);
      Gen(c, at + |c|)
    case StrCat(l, r, glue) =>
      var c := GenStrings(ar, e, at, ip).code + [Op(REWIND_STR)] + StrConversion(t);
      Gen(c, at + |c|)
    case CommaCat(l, r) =>
      var c := GenStrings(ar, e, at, ip).code + [Op(REWIND_STR)] + StrConversion(t);
      Gen(c, at + |c|)
    case Assign(name, sub, rhs) =>
      var s := AssignType(rhs, t);
      var gr := GenExpr(ar, rhs, s, at, ip);
      var keep := if s == ReqVar then [Op(LOADVAR_VAR)]
                  else if s == ReqString && sub.Present? then [Op(ADVANCE_STR)] else [];
      var back := if s == ReqString && sub.Present? then [Op(TERMINATE_REWIND_STR)] else [];
      var gt := GenTarget(ar, name, sub, true, at + |gr.code| + |keep|, gr.ip);
      var t' := if t == ReqVar && s != ReqVar then ReqNone else t;
      Gen(gr.code + keep + gt.code + back + [Op(SaveOp(s))] + Conversion(s, t'), gt.ip)
    case AssignOp(name, sub, op, rhs) =>
      var s := AssignOpType(op);
      var gr := GenExpr(ar, rhs, s, at, ip);
      var gt := GenTarget(ar, name, sub, true, at + |gr.code|, gr.ip);
      var c := gr.code + gt.code + Operate(op) + Conversion(s, t);
      Gen(c, at + |c|)
  }

  /** The operands of a numeric operator: the right one first. */
  function GenOperands(ar: Arith, e: Expr, t: TypeReq, at: nat, ip: nat): Gen
    requires e.FloatBinary? || e.IntBinary?
    decreases e, 0
  {
    var gr := GenExpr(ar, e.right, t, at, ip);
    var gl := GenExpr(ar, e.left, t, at + |gr.code|, gr.ip);
    Gen(gr.code + gl.code, gl.ip)
  }

  predicate IsStringPair(e: Expr) {
    e.StrEq? || e.StrCat? || e.CommaCat?
  }

  /** What sets the left operand of a string operator aside. */
  function Between(e: Expr): Code
    requires IsStringPair(e)
  {
    match e
    case StrEq(_, _, _) => [Op(ADVANCE_STR_NUL)]
    case CommaCat(_, _) => [Op(ADVANCE_STR_COMMA)]
    case StrCat(_, _, glue) => GlueWords(glue)
  }

  /** The operands of a string operator: the left one first. */
  function GenStrings(ar: Arith, e: Expr, at: nat, ip: nat): Gen
    requires IsStringPair(e)
    decreases e, 0
  {
    var between := Between(e);
    var gl := GenExpr(ar, e.left, ReqString, at, ip);
    var gr := GenExpr(ar, e.right, ReqString, at + |gl.code| + |between|, gl.ip);
    Gen(gl.code + between + gr.code, gr.ip)
  }

  /** Makes the named variable, or its element with index `sub`, the current one. */
  function GenTarget(ar: Arith, name: CString, sub: OptExpr, create: bool, at: nat, ip: nat): Gen
    decreases sub, 0
  {
    match sub
    case Absent => Gen([Op(if create then SETCURVAR_CREATE else SETCURVAR)] + IdentWords(name), ip)
    case Present(i) =>
      var g := GenExpr(ar, i, ReqString, at + 4, ip);
      Gen([Op(LOADIMMED_IDENT)] + IdentWords(name) + [Op(ADVANCE_STR)] + g.code +
          [Op(REWIND_STR), Op(if create then SETCURVAR_ARRAY_CREATE else SETCURVAR_ARRAY)], g.ip)
  }

  /** Where `break` and `continue` go: nowhere outside a loop, where they are ignored. */
  datatype LoopTargets = NoLoop | InLoop(breakAt: nat, continueAt: nat)

  /** The code before a loop's body. */
  function GenLoopHead(ar: Arith, st: Stmt, at: nat, ip: nat, breakAt: nat): Gen
    requires st.Loop?
  {
    var gi := GenOptional(ar, st.init, at, ip);
    if st.isDo then gi else
    var gt := GenExpr(ar, st.test, TestType(st.test), at + |gi.code|, gi.ip);
    Gen(gi.code + gt.code + [Op(JumpUnless(TestType(st.test))), Num(breakAt)], gt.ip)
  }

  /** The code after a loop's body, from the continue point to the break point. */
  function GenLoopTail(ar: Arith, st: Stmt, at: nat, ip: nat, bodyAt: nat): Gen
    requires st.Loop?
  {
    var gs := GenOptional(ar, st.step, at, ip);
    var gt := GenExpr(ar, st.test, TestType(st.test), at + |gs.code|, gs.ip);
    Gen(gs.code + gt.code + [Op(JumpWhen(TestType(st.test))), Num(bodyAt)], gt.ip)
  }

  function GenOptional(ar: Arith, o: OptExpr, at: nat, ip: nat): Gen {
    match o
    case Absent => Gen([], ip)
    case Present(e) => GenExpr(ar, e, ReqNone, at, ip)
  }

  /** The code of a statement at address `at`. */
  function GenStmt(ar: Arith, st: Stmt, at: nat, ip: nat, ctx: LoopTargets): (g: Gen)
    ensures !st.ExprStmt? ==> g.ip == at + |g.code|
    decreases st, 2
  {
    match st
    case ExprStmt(e) => GenExpr(ar, e, ReqNone, at, ip)
    case Break =>
      var c := if ctx.NoLoop? then [] else [Op(JMP), Num(ctx.breakAt)];
      Gen(c, at + |c|)
    case Continue =>
      var c := if ctx.NoLoop? then [] else [Op(JMP), Num(ctx.continueAt)];
      Gen(c, at + |c|)
    case Return(Absent) => Gen([Op(RETURN_VOID)], at + 1)
    case Return(Present(e)) =>
      var c := GenExpr(ar, e, ReturnType(e), at, ip).code + [Op(ReturnOp(ReturnType(e)))];
      Gen(c, at + |c|)
    case If(_, _, _) =>
      var c := GenIf(ar, st, at, ip, ctx);
      Gen(c, at + |c|)
    case Loop(_, _, _, _, _) =>
      var c := GenLoop(ar, st, at, ip);
      Gen(c, at + |c|)
  }

  function GenIf(ar: Arith, st: Stmt, at: nat, ip: nat, ctx: LoopTargets): Code
    requires st.If?
    decreases st, 0
  {
    var gt := GenExpr(ar, st.test, TestType(st.test), at, ip);
    var thenAt := at + |gt.code| + 2;
    var ct := GenBlock(ar, st.thn, thenAt, gt.ip, ctx);
    if st.els.End? then
      gt.code + [Op(JumpUnless(TestType(st.test))), Num(thenAt + |ct|)] + ct
    else
      var elseAt := thenAt + |ct| + 2;
      var ce := GenBlock(ar, st.els, elseAt, gt.ip, ctx);
      gt.code + [Op(JumpUnless(TestType(st.test))), Num(elseAt)] + ct + [Op(JMP), Num(elseAt + |ce|)] + ce
  }

  /** The addresses inside a loop's code. */
  datatype Layout = Layout(bodyAt: nat, bodyIp: nat, continueAt: nat, breakAt: nat)

  function LayOut(ar: Arith, st: Stmt, at: nat, ip: nat): Layout
    requires st.Loop?
    decreases st, 0
  {
    var h := GenLoopHead(ar, st, at, ip, 0);
    var bodyAt := at + |h.code|;
    var continueAt := bodyAt + |GenBlock(ar, st.body, bodyAt, h.ip, InLoop(0, 0))|;
    Layout(bodyAt, h.ip, continueAt, continueAt + |GenLoopTail(ar, st, continueAt, h.ip, bodyAt).code|)
  }

  function GenLoop(ar: Arith, st: Stmt, at: nat, ip: nat): Code
    requires st.Loop?
    decreases st, 1
  {
    var l := LayOut(ar, st, at, ip);
    GenLoopHead(ar, st, at, ip, l.breakAt).code +
    GenBlock(ar, st.body, l.bodyAt, l.bodyIp, InLoop(l.breakAt, l.continueAt)) +
    GenLoopTail(ar, st, l.continueAt, l.bodyIp, l.bodyAt).code
  }

  function GenBlock(ar: Arith, b: Block, at: nat, ip: nat, ctx: LoopTargets): Code
    decreases b, 0
  {
    match b
    case End => []
    case Then(st, rest) =>
      var g := GenStmt(ar, st, at, ip, ctx);
      g.code + GenBlock(ar, rest, at + |g.code|, g.ip, ctx)
  }

  /** Loop targets fill words; they never move code. */
  lemma {:induction false} LengthIgnoresTargets(ar: Arith, b: Block, at: nat, ip: nat, c0: LoopTargets, c1: LoopTargets)
    requires c0.NoLoop? == c1.NoLoop?
    ensures |GenBlock(ar, b, at, ip, c0)| == |GenBlock(ar, b, at, ip, c1)|
    decreases b, 0
  {
    if b.Then? {
      StmtLengthIgnoresTargets(ar, b.first, at, ip, c0, c1);
      var g := GenStmt(ar, b.first, at, ip, c0);
      LengthIgnoresTargets(ar, b.rest, at + |g.code|, g.ip, c0, c1);
    }
  }

  lemma {:induction false} StmtLengthIgnoresTargets(ar: Arith, st: Stmt, at: nat, ip: nat, c0: LoopTargets,
      c1: LoopTargets)
    requires c0.NoLoop? == c1.NoLoop?
    ensures |GenStmt(ar, st, at, ip, c0).code| == |GenStmt(ar, st, at, ip, c1).code|
    ensures GenStmt(ar, st, at, ip, c0).ip == GenStmt(ar, st, at, ip, c1).ip
    decreases st, 1
  {
    if st.If? {
      IfLengthIgnoresTargets(ar, st, at, ip, c0, c1);
    }
  }

  lemma {:induction false} IfLengthIgnoresTargets(ar: Arith, st: Stmt, at: nat, ip: nat, c0: LoopTargets,
      c1: LoopTargets)
    requires st.If? && c0.NoLoop? == c1.NoLoop?
    ensures |GenIf(ar, st, at, ip, c0)| == |GenIf(ar, st, at, ip, c1)|
    decreases st, 0
  {
    var gt := GenExpr(ar, st.test, TestType(st.test), at, ip);
    var thenAt := at + |gt.code| + 2;
    LengthIgnoresTargets(ar, st.thn, thenAt, gt.ip, c0, c1);
    var elseAt := thenAt + |GenBlock(ar, st.thn, thenAt, gt.ip, c0)| + 2;
    LengthIgnoresTargets(ar, st.els, elseAt, gt.ip, c0, c1);
  }

  lemma LoopLayout(ar: Arith, st: Stmt, at: nat, ip: nat)
    requires st.Loop?
    ensures var l := LayOut(ar, st, at, ip);
            var h := GenLoopHead(ar, st, at, ip, l.breakAt);
            var body := GenBlock(ar, st.body, l.bodyAt, l.bodyIp, InLoop(l.breakAt, l.continueAt));
            && l.bodyAt == at + |h.code| && l.bodyIp == h.ip && l.continueAt == l.bodyAt + |body|
            && l.breakAt == l.continueAt + |GenLoopTail(ar, st, l.continueAt, l.bodyIp, l.bodyAt).code|
            && GenLoop(ar, st, at, ip) == h.code + body + GenLoopTail(ar, st, l.continueAt, l.bodyIp, l.bodyAt).code
  {
    hide GenExpr, GenBlock, GenOptional, GenLoopTail;
    var l := LayOut(ar, st, at, ip);
    LengthIgnoresTargets(ar, st.body, l.bodyAt, l.bodyIp, InLoop(0, 0), InLoop(l.breakAt, l.continueAt));
  }
}
