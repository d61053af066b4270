/** Runs of the machine over stretches of code, and what single instructions do to a delivered value. */
module Runs {
  import opened Values
  import opened Ast
  import opened CodeGen
  import opened Machine
  import opened Semantics

  /** `c` is what the program holds at address `at`. */
  ghost predicate At(p: Program, c: Code, at: nat) {
    at + |c| <= |p.code| && p.code[at..at + |c|] == c
  }

  lemma AtSplit(p: Program, a: Code, b: Code, at: nat)
    requires At(p, a + b, at)
    ensures At(p, a, at) && At(p, b, at + |a|)
  {
    assert p.code[at..at + |a|] == (a + b)[..|a|] == a;
    assert p.code[at + |a|..at + |a| + |b|] == (a + b)[|a|..] == b;
  }

  lemma AtWord(p: Program, c: Code, at: nat, k: nat)
    requires At(p, c, at) && k < |c|
    ensures at + k < |p.code| && p.code[at + k] == c[k]
  {
  }

  lemma AtOne(p: Program, c: Code, at: nat, k: nat)
    requires At(p, c, at) && k < |c|
    ensures At(p, [c[k]], at + k)
  {
  }

  ghost predicate Goes(p: Program, n: nat, s: State, s': State) {
    Run(p, n, Running(s)) == Running(s')
  }

  lemma Stay(p: Program, s: State)
    ensures Goes(p, 0, s, s)
  {
  }

  lemma Join(p: Program, m: nat, s0: State, s1: State, n: nat, s2: State)
    requires Goes(p, m, s0, s1) && Goes(p, n, s1, s2)
    ensures Goes(p, m + n, s0, s2)
  {
    RunAdd(p, m, n, Running(s0));
  }

  /** One more step of a run, over an opcode whose following word is `w`. */
  lemma Tick(p: Program, n: nat, s0: State, s: State, c: Code) returns (s': State)
    requires Goes(p, n, s0, s) && At(p, c, s.ip) && |c| >= 1 && c[0].Op?
    requires |c| >= 2 ==> Execute(p.ar, c[0].op, c[1], s.(ip := s.ip + 1)).Running?
    requires |c| == 1 ==> Execute(p.ar, c[0].op, Num(-1), s.(ip := s.ip + 1)).Running? && !ReadsOperand(c[0].op)
    ensures s' == Execute(p.ar, c[0].op, if |c| >= 2 then c[1] else Num(-1), s.(ip := s.ip + 1)).s
    ensures Goes(p, n + 1, s0, s')
  {
    AtWord(p, c, s.ip, 0);
    if |c| >= 2 {
      AtWord(p, c, s.ip, 1);
    } else {
      OperandUnread(p.ar, c[0].op, s.(ip := s.ip + 1));
    }
    s' := Step(p, s).s;
  }

  predicate ReadsOperand(op: OpCode) {
    || IsJump(op) || op.SETCURVAR? || op.SETCURVAR_CREATE?
    || op.LOADIMMED_UINT? || op.LOADIMMED_FLT? || op.LOADIMMED_STR? || op.LOADIMMED_IDENT? || op.ADVANCE_STR_APPENDCHAR?
  }

  lemma OperandUnread(ar: Arith, op: OpCode, s: State)
    requires !ReadsOperand(op)
    ensures forall w :: Execute(ar, op, w, s) == Execute(ar, op, Num(-1), s)
  {
  }

  predicate HasRoom(s: State, r: Room) {
    |s.ints| + r.i <= OPERAND_LIMIT && |s.flts| + r.f <= OPERAND_LIMIT && |s.strs| + r.s <= STRING_LIMIT
  }

  /** From `s` to `s'` the value `o` was delivered and nothing below it was touched. */
  ghost predicate Delivers(s: State, s': State, t: TypeReq, o: Out) {
    && Shape(o, t)
    && s'.ints == (if t == ReqUInt then s.ints + [AsInt(o)] else s.ints)
    && s'.flts == (if t == ReqFloat then s.flts + [AsFlt(o)] else s.flts)
    && s'.strs == s.strs
    && (t == ReqString ==> s'.head == AsStr(o))
    && (t == ReqVar ==> s'.cur == AsRef(o))
    && (t != ReqNone && t != ReqVar ==> s'.copy == s.copy)
  }

  lemma RoomForBoth(s: State, a: Room, b: Room)
    requires HasRoom(s, a.Max(b))
    ensures HasRoom(s, a) && HasRoom(s, b)
  {
  }

  lemma RoomLeft(s: State, s': State, t: TypeReq, o: Out, r: Room)
    requires Delivers(s, s', t, o) && HasRoom(s, ResultRoom(t).Plus(r))
    ensures HasRoom(s', r)
  {
  }

  /** A value delivered after nothing was left behind. */
  lemma Compose(s0: State, s1: State, s2: State, t: TypeReq, o: Out)
    requires Delivers(s0, s1, ReqNone, NoValue) && s1.copy == s0.copy && Delivers(s1, s2, t, o)
    ensures Delivers(s0, s2, t, o)
  {
  }

  lemma AlreadyConverted(ar: Arith, s0: State, s: State, t: TypeReq, o: Out)
    requires t in {ReqUInt, ReqFloat, ReqString} && Delivers(s0, s, t, o)
    ensures Converted(ar, o, t) == o
  {
  }

  lemma StringKept(ar: Arith, s0: State, s: State, t: TypeReq, o: Out)
    requires t in {ReqNone, ReqString} && Delivers(s0, s, ReqString, o)
    ensures Delivers(s0, s, t, Converted(ar, o, t))
  {
  }

  /** A conversion replaces the delivered value by the converted one. */
  lemma ConversionRuns(p: Program, src: TypeReq, t: TypeReq, n: nat, s0: State, s: State, o: Out)
    returns (n': nat, s': State)
    requires Goes(p, n, s0, s) && src in {ReqUInt, ReqFloat, ReqString} && t != ReqVar
    requires Delivers(s0, s, src, o)
    requires At(p, Conversion(src, t), s.ip) && HasRoom(s0, ResultRoom(t))
    ensures Goes(p, n', s0, s') && s'.ip == s.ip + |Conversion(src, t)| && s'.vars == s.vars && s'.cur == s.cur
    ensures n' == n + |Conversion(src, t)|
    ensures Delivers(s0, s', t, Converted(p.ar, o, t))
  {
    hide Goes, At, Delivers, Converted;
    n', s' := n, s;
    if src == t {
      AlreadyConverted(p.ar, s0, s, t, o);
    } else {
      match src {
        case ReqUInt => s' := FromInt(p, t, n, s0, s, o);
        case ReqFloat => s' := FromFlt(p, t, n, s0, s, o);
        case ReqString => s' := FromStr(p, t, n, s0, s, o);
      }
      n' := n + 1;
    }
  }

  lemma FromInt(p: Program, t: TypeReq, n: nat, s0: State, s: State, o: Out) returns (s': State)
    requires Goes(p, n, s0, s) && t != ReqUInt && t != ReqVar && Delivers(s0, s, ReqUInt, o)
    requires At(p, [Op(ConversionOp(ReqUInt, t))], s.ip) && HasRoom(s0, ResultRoom(t))
    ensures Goes(p, n + 1, s0, s') && s'.ip == s.ip + 1 && s'.vars == s.vars && s'.cur == s.cur
    ensures Delivers(s0, s', t, Converted(p.ar, o, t))
  {
    hide Goes, At;
    s' := Tick(p, n, s0, s, [Op(ConversionOp(ReqUInt, t))]);
  }

  lemma FromFlt(p: Program, t: TypeReq, n: nat, s0: State, s: State, o: Out) returns (s': State)
    requires Goes(p, n, s0, s) && t != ReqFloat && t != ReqVar && Delivers(s0, s, ReqFloat, o)
    requires At(p, [Op(ConversionOp(ReqFloat, t))], s.ip) && HasRoom(s0, ResultRoom(t))
    ensures Goes(p, n + 1, s0, s') && s'.ip == s.ip + 1 && s'.vars == s.vars && s'.cur == s.cur
    ensures Delivers(s0, s', t, Converted(p.ar, o, t))
  {
    hide Goes, At;
    s' := Tick(p, n, s0, s, [Op(ConversionOp(ReqFloat, t))]);
  }

  lemma FromStr(p: Program, t: TypeReq, n: nat, s0: State, s: State, o: Out) returns (s': State)
    requires Goes(p, n, s0, s) && t != ReqString && t != ReqVar && Delivers(s0, s, ReqString, o)
    requires At(p, [Op(ConversionOp(ReqString, t))], s.ip) && HasRoom(s0, ResultRoom(t))
    ensures Goes(p, n + 1, s0, s') && s'.ip == s.ip + 1 && s'.vars == s.vars && s'.cur == s.cur
    ensures Delivers(s0, s', t, Converted(p.ar, o, t))
  {
    hide Goes, At;
    s' := Tick(p, n, s0, s, [Op(ConversionOp(ReqString, t))]);
  }

  lemma StrConversionRuns(p: Program, t: TypeReq, n: nat, s0: State, s: State, o: Out)
    returns (n': nat, s': State)
    requires Goes(p, n, s0, s) && t != ReqVar && Delivers(s0, s, ReqString, o)
    requires At(p, StrConversion(t), s.ip) && HasRoom(s0, ResultRoom(t))
    ensures Goes(p, n', s0, s') && s'.ip == s.ip + |StrConversion(t)| && s'.vars == s.vars && s'.cur == s.cur
    ensures Delivers(s0, s', t, Converted(p.ar, o, t))
  {
    hide Goes, At, Delivers, Converted;
    n', s' := n, s;
    if t == ReqUInt || t == ReqFloat {
      s' := FromStr(p, t, n, s0, s, o);
      n' := n + 1;
    } else {
      StringKept(p.ar, s0, s, t, o);
    }
  }

  /** A literal's words load the value they show: an int, a float, a string or a name. */
  lemma LoadIntRuns(p: Program, x: int, n: nat, s0: State, s: State) returns (s': State)
    requires Goes(p, n, s0, s) && HasRoom(s, ResultRoom(ReqUInt)) && At(p, [Op(LOADIMMED_UINT), Num(x)], s.ip)
    ensures Goes(p, n + 1, s0, s') && s'.vars == s.vars && s'.cur == s.cur
        && s'.ip == s.ip + |[Op(LOADIMMED_UINT), Num(x)]|
    ensures Delivers(s, s', ReqUInt, IntValue(x))
  {
    hide Goes, At;
    s' := Tick(p, n, s0, s, [Op(LOADIMMED_UINT), Num(x)]);
  }

  lemma LoadFltRuns(p: Program, x: F64, n: nat, s0: State, s: State) returns (s': State)
    requires Goes(p, n, s0, s) && HasRoom(s, ResultRoom(ReqFloat)) && At(p, [Op(LOADIMMED_FLT), Flt(x)], s.ip)
    ensures Goes(p, n + 1, s0, s') && s'.vars == s.vars && s'.cur == s.cur
        && s'.ip == s.ip + |[Op(LOADIMMED_FLT), Flt(x)]|
    ensures Delivers(s, s', ReqFloat, FltValue(x))
  {
    hide Goes, At;
    s' := Tick(p, n, s0, s, [Op(LOADIMMED_FLT), Flt(x)]);
  }

  lemma LoadStrRuns(p: Program, x: CString, n: nat, s0: State, s: State) returns (s': State)
    requires Goes(p, n, s0, s) && HasRoom(s, ResultRoom(ReqString)) && At(p, [Op(LOADIMMED_STR), Str(x)], s.ip)
    ensures Goes(p, n + 1, s0, s') && s'.vars == s.vars && s'.cur == s.cur
        && s'.ip == s.ip + |[Op(LOADIMMED_STR), Str(x)]|
    ensures Delivers(s, s', ReqString, StrValue(x))
  {
    hide Goes, At;
    s' := Tick(p, n, s0, s, [Op(LOADIMMED_STR), Str(x)]);
  }

  lemma LoadNameRuns(p: Program, x: CString, n: nat, s0: State, s: State) returns (s': State)
    requires Goes(p, n, s0, s) && HasRoom(s, ResultRoom(ReqString))
        && At(p, [Op(LOADIMMED_IDENT)] + IdentWords(x), s.ip)
    ensures Goes(p, n + 1, s0, s') && s'.vars == s.vars && s'.cur == s.cur
        && s'.ip == s.ip + |[Op(LOADIMMED_IDENT)] + IdentWords(x)|
    ensures Delivers(s, s', ReqString, StrValue(x))
  {
    hide Goes, At;
    s' := Tick(p, n, s0, s, [Op(LOADIMMED_IDENT)] + IdentWords(x));
  }

  lemma LiteralRuns(p: Program, e: Expr, t: TypeReq, s: State) returns (n: nat, s': State)
    requires e.IntLit? || e.FloatLit? || e.StrLit? || e.Constant?
    requires t != ReqVar && At(p, LiteralCode(p.ar, e, t), s.ip) && HasRoom(s, ResultRoom(t))
    ensures Goes(p, n, s, s') && s'.ip == s.ip + |LiteralCode(p.ar, e, t)| && s'.vars == s.vars && s'.cur == s.cur
    ensures Delivers(s, s', t, Literal(p.ar, e, t))
  {
    Stay(p, s);
    hide Goes, At, Execute;
    n, s' := 0, s;
    if t != ReqNone {
      var o := Literal(p.ar, e, t);
      if t == ReqUInt {
        s' := LoadIntRuns(p, AsInt(o), 0, s, s);
      } else if t == ReqFloat {
        s' := LoadFltRuns(p, AsFlt(o), 0, s, s);
      } else if e.Constant? {
        s' := LoadNameRuns(p, AsStr(o), 0, s, s);
      } else {
        s' := LoadStrRuns(p, AsStr(o), 0, s, s);
      }
      n := 1;
    }
  }

  /** The strict operators find the left operand above the right one. */
  lemma ArithRuns(p: Program, op: FloatOp, n: nat, s0: State, s1: State, s2: State, right: Out, left: Out)
    returns (s': State)
    requires Goes(p, n, s0, s2)
    requires Delivers(s0, s1, ReqFloat, right) && Delivers(s1, s2, ReqFloat, left)
    requires At(p, [Op(ARITH(op))], s2.ip)
    ensures Goes(p, n + 1, s0, s') && s'.ip == s2.ip + 1 && s'.vars == s2.vars && s'.cur == s2.cur
    ensures Delivers(s0, s', ReqFloat, FltValue(p.ar.floatOp(op, AsFlt(left), AsFlt(right))))
  {
    hide Goes, At;
    s' := Tick(p, n, s0, s2, [Op(ARITH(op))]);
  }

  lemma StrictOpRuns(p: Program, op: IntOp, n: nat, s0: State, s1: State, s2: State, right: Out, left: Out)
    returns (s': State)
    requires op.Bits? || op.Compare?
    requires Goes(p, n, s0, s2) && HasRoom(s0, INT_SLOT)
    requires Delivers(s0, s1, OperandType(op), right) && Delivers(s1, s2, OperandType(op), left)
    requires At(p, [Op(StrictOpCode(op))], s2.ip)
    ensures Goes(p, n + 1, s0, s') && s'.ip == s2.ip + 1 && s'.vars == s2.vars && s'.cur == s2.cur
    ensures Delivers(s0, s', ReqUInt, IntValue(StrictOp(p.ar, op, left, right)))
  {
    hide Goes, At;
    s' := Tick(p, n, s0, s2, [Op(StrictOpCode(op))]);
  }

  lemma UnaryOpRuns(p: Program, op: UnaryOp, e: Expr, n: nat, s0: State, s: State, o: Out) returns (s': State)
    requires Goes(p, n, s0, s) && HasRoom(s0, INT_SLOT)
    requires Delivers(s0, s, UnaryType(op, e), o) && At(p, [Op(UnaryOpCode(op, e))], s.ip)
    ensures Goes(p, n + 1, s0, s') && s'.ip == s.ip + 1 && s'.vars == s.vars && s'.cur == s.cur
    ensures Delivers(s0, s', ReqUInt, IntValue(UnaryResult(p.ar, op, o)))
  {
    hide Goes, At, Preferred;
    s' := Tick(p, n, s0, s, [Op(UnaryOpCode(op, e))]);
  }

  lemma NegateRuns(p: Program, n: nat, s0: State, s: State, o: Out) returns (s': State)
    requires Goes(p, n, s0, s) && Delivers(s0, s, ReqFloat, o) && At(p, [Op(NEG)], s.ip)
    ensures Goes(p, n + 1, s0, s') && s'.ip == s.ip + 1 && s'.vars == s.vars && s'.cur == s.cur
    ensures Delivers(s0, s', ReqFloat, FltValue(p.ar.negate(AsFlt(o))))
  {
    hide Goes, At;
    s' := Tick(p, n, s0, s, [Op(NEG)]);
  }

  /** A test pops its operand and jumps when that is zero, or when it is not. */
  lemma TestRuns(p: Program, t: TypeReq, when: bool, target: nat, n: nat, s0: State, s: State, o: Out)
      returns (s': State)
    requires t in {ReqUInt, ReqFloat} && Goes(p, n, s0, s) && Delivers(s0, s, t, o)
    requires At(p, [Op(if when then JumpWhen(t) else JumpUnless(t)), Num(target)], s.ip)
    ensures Goes(p, n + 1, s0, s') && s'.vars == s.vars && s'.cur == s.cur
    ensures s'.ip == if Holds(p.ar, o) == when then target else s.ip + 2
    ensures Delivers(s0, s', ReqNone, NoValue) && s'.copy == s0.copy
  {
    hide Goes, At;
    s' := Tick(p, n, s0, s, [Op(if when then JumpWhen(t) else JumpUnless(t)), Num(target)]);
  }

  /** The jumps of `||` and `&&` leave the deciding operand in place. */
  lemma KeepingJumpRuns(p: Program, when: bool, target: nat, n: nat, s0: State, s: State, o: Out) returns (s': State)
    requires Goes(p, n, s0, s) && Delivers(s0, s, ReqUInt, o)
    requires At(p, [Op(if when then JMPIF_NP else JMPIFNOT_NP), Num(target)], s.ip)
    ensures Goes(p, n + 1, s0, s') && s'.vars == s.vars && s'.cur == s.cur
    ensures Holds(p.ar, o) == when ==> s'.ip == target && Delivers(s0, s', ReqUInt, o)
    ensures Holds(p.ar, o) != when ==> s'.ip == s.ip + 2 && Delivers(s0, s', ReqNone, NoValue) && s'.copy == s0.copy
  {
    hide Goes, At;
    s' := Tick(p, n, s0, s, [Op(if when then JMPIF_NP else JMPIFNOT_NP), Num(target)]);
  }

  lemma JumpRuns(p: Program, target: nat, n: nat, s0: State, s: State) returns (s': State)
    requires Goes(p, n, s0, s) && At(p, [Op(JMP), Num(target)], s.ip)
    ensures Goes(p, n + 1, s0, s') && s' == s.(ip := target)
  {
    hide Goes, At;
    s' := Tick(p, n, s0, s, [Op(JMP), Num(target)]);
  }

  // ----- strings set aside -----

  /** From `s` to `s'` one string was set aside and nothing else was touched. */
  ghost predicate Holding(s: State, s': State, pending: Pending) {
    && s'.strs == s.strs + [pending]
    && s'.head == ""
    && s'.ints == s.ints && s'.flts == s.flts && s'.copy == s.copy
  }

  lemma RoomAbove(s: State, s': State, pending: Pending, r: Room)
    requires Holding(s, s', pending) && HasRoom(s, STRING_SLOT.Plus(r))
    ensures HasRoom(s', r)
  {
  }

  lemma AdvanceRuns(p: Program, op: OpCode, pending: Pending, n: nat, s0: State, s: State, o: Out) returns (s': State)
    requires Goes(p, n, s0, s) && Delivers(s0, s, ReqString, o) && HasRoom(s0, STRING_SLOT) && At(p, [Op(op)], s.ip)
    requires || (op == ADVANCE_STR && pending == Pending(AsStr(o), false))
             || (op == ADVANCE_STR_COMMA && pending == Pending(AsStr(o) + "_", false))
             || (op == ADVANCE_STR_NUL && pending == Pending(AsStr(o), true))
    ensures Goes(p, n + 1, s0, s') && s'.ip == s.ip + 1 && s'.vars == s.vars && s'.cur == s.cur
        && Holding(s0, s', pending)
  {
    hide Goes, At;
    s' := Tick(p, n, s0, s, [Op(op)]);
  }

  lemma GlueRuns(p: Program, glue: char, n: nat, s0: State, s: State, o: Out) returns (s': State)
    requires Goes(p, n, s0, s) && Delivers(s0, s, ReqString, o) && HasRoom(s0, STRING_SLOT)
        && At(p, GlueWords(glue), s.ip)
    ensures Goes(p, n + 1, s0, s') && s'.ip == s.ip + |GlueWords(glue)| && s'.vars == s.vars && s'.cur == s.cur
    ensures Holding(s0, s', Pending(AsStr(o) + Glue(glue), false))
  {
    hide Goes, At;
    if glue == '\0' {
      assert AsStr(o) + Glue(glue) == AsStr(o);
      s' := AdvanceRuns(p, ADVANCE_STR, Pending(AsStr(o), false), n, s0, s, o);
    } else {
      s' := Tick(p, n, s0, s, GlueWords(glue));
    }
  }

  /** The left operand of a string operator, set aside. */
  function SetAside(e: Expr, text: CString): Pending
    requires IsStringPair(e)
  {
    match e
    case StrEq(_, _, _) => Pending(text, true)
    case CommaCat(_, _) => Pending(text + "_", false)
    case StrCat(_, _, glue) => Pending(text + Glue(glue), false)
  }

  lemma BetweenRuns(p: Program, e: Expr, n: nat, s0: State, s: State, o: Out) returns (s': State)
    requires IsStringPair(e)
    requires Goes(p, n, s0, s) && Delivers(s0, s, ReqString, o) && HasRoom(s0, STRING_SLOT) && At(p, Between(e), s.ip)
    ensures Goes(p, n + 1, s0, s') && s'.ip == s.ip + |Between(e)| && s'.vars == s.vars && s'.cur == s.cur
    ensures Holding(s0, s', SetAside(e, AsStr(o)))
  {
    hide Goes, At, Execute, Delivers, Holding, Glue, GlueWords;
    match e
    case StrEq(_, _, _) => s' := AdvanceRuns(p, ADVANCE_STR_NUL, SetAside(e, AsStr(o)), n, s0, s, o);
    case CommaCat(_, _) => s' := AdvanceRuns(p, ADVANCE_STR_COMMA, SetAside(e, AsStr(o)), n, s0, s, o);
    case StrCat(_, _, glue) => s' := GlueRuns(p, glue, n, s0, s, o);
  }

  lemma RewindRuns(p: Program, pending: Pending, n: nat, s0: State, s1: State, s: State, o: Out) returns (s': State)
    requires Goes(p, n, s0, s) && Holding(s0, s1, pending) && Delivers(s1, s, ReqString, o)
        && At(p, [Op(REWIND_STR)], s.ip)
    ensures Goes(p, n + 1, s0, s') && s'.ip == s.ip + 1 && s'.vars == s.vars && s'.cur == s.cur
    ensures Delivers(s0, s', ReqString, StrValue(Joined(pending, AsStr(o))))
  {
    hide Goes, At;
    s' := Tick(p, n, s0, s, [Op(REWIND_STR)]);
  }

  lemma CompareStrRuns(p: Program, pending: Pending, n: nat, s0: State, s1: State, s: State, o: Out) returns (s': State)
    requires Goes(p, n, s0, s) && Holding(s0, s1, pending) && Delivers(s1, s, ReqString, o)
        && At(p, [Op(COMPARE_STR)], s.ip)
    requires HasRoom(s0, INT_SLOT)
    ensures Goes(p, n + 1, s0, s') && s'.ip == s.ip + 1 && s'.vars == s.vars && s'.cur == s.cur
    ensures Delivers(s0, s', ReqUInt, IntValue(Bool(p.ar.equalIgnoringCase(Joined(pending, AsStr(o)), AsStr(o)))))
  {
    hide Goes, At;
    s' := Tick(p, n, s0, s, [Op(COMPARE_STR)]);
  }

  /** `!` on an int already delivered. */
  lemma NotRuns(p: Program, n: nat, s0: State, s: State, o: Out) returns (s': State)
    requires Goes(p, n, s0, s) && Delivers(s0, s, ReqUInt, o) && At(p, [Op(NOT)], s.ip)
    ensures Goes(p, n + 1, s0, s') && s'.ip == s.ip + 1 && s'.vars == s.vars && s'.cur == s.cur
    ensures Delivers(s0, s', ReqUInt, IntValue(Bool(AsInt(o) == 0)))
  {
    hide Goes, At;
    s' := Tick(p, n, s0, s, [Op(NOT)]);
  }

  // ----- variables -----

  /** From `s` to `s'` only the variables, the current variable and the head changed. */
  ghost predicate StacksKept(s: State, s': State) {
    s'.ints == s.ints && s'.flts == s.flts && s'.strs == s.strs && s'.copy == s.copy
  }

  /** The variable `name` is the current one, made when it was missing and `create` asks for it. */
  ghost predicate Selected(vars: Store, name: CString, create: bool, s': State) {
    if create then s'.vars == Created(vars, name) && s'.cur == Some(name)
    else s'.vars == vars && s'.cur == Existing(vars, name)
  }

  lemma SelectRuns(p: Program, name: CString, create: bool, n: nat, s0: State, s: State) returns (s': State)
    requires Goes(p, n, s0, s) && At(p, [Op(if create then SETCURVAR_CREATE else SETCURVAR)] + IdentWords(name), s.ip)
    ensures Goes(p, n + 1, s0, s') && s'.ip == s.ip + 3 && StacksKept(s, s') && s'.head == s.head
    ensures Selected(s.vars, name, create, s')
  {
    hide Goes, At;
    s' := Tick(p, n, s0, s, [Op(if create then SETCURVAR_CREATE else SETCURVAR)] + IdentWords(name));
  }

  lemma SelectElementRuns(p: Program, create: bool, n: nat, s0: State, s: State, o: Out) returns (s': State)
    requires Goes(p, n, s0, s) && Delivers(s0, s, ReqString, o)
    requires At(p, [Op(if create then SETCURVAR_ARRAY_CREATE else SETCURVAR_ARRAY)], s.ip)
    ensures Goes(p, n + 1, s0, s') && s'.ip == s.ip + 1 && StacksKept(s0, s')
    ensures Selected(s.vars, p.ar.intern(AsStr(o)), create, s')
  {
    hide Goes, At;
    s' := Tick(p, n, s0, s, [Op(if create then SETCURVAR_ARRAY_CREATE else SETCURVAR_ARRAY)]);
  }

  lemma LoadVarRuns(p: Program, t: TypeReq, n: nat, start: State, s0: State, s: State) returns (n': nat, s': State)
    requires Goes(p, n, start, s) && StacksKept(s0, s) && t != ReqNone && At(p, LoadVar(t), s.ip)
        && HasRoom(s0, ResultRoom(t))
    ensures Goes(p, n', start, s') && s'.ip == s.ip + |LoadVar(t)| && s'.vars == s.vars && s'.cur == s.cur
        && n' == n + |LoadVar(t)|
    ensures Delivers(s0, s', t, ReadAs(p.ar, s.vars, s.cur, t))
  {
    hide Goes, At;
    n', s' := n, s;
    if t != ReqVar {
      s' := Tick(p, n, start, s, LoadVar(t));
      n' := n + 1;
    }
  }

  /** Saving stores the delivered value in the current variable and leaves it where it was. */
  lemma SaveRuns(p: Program, t: TypeReq, n: nat, s0: State, s: State, o: Out) returns (s': State)
    requires t in {ReqUInt, ReqFloat, ReqString} && Goes(p, n, s0, s) && Delivers(s0, s, t, o)
    requires s.cur.Some? && At(p, [Op(SaveOp(t))], s.ip)
    ensures Goes(p, n + 1, s0, s') && s'.ip == s.ip + 1 && s'.cur == s.cur
    ensures s'.vars == s.vars[s.cur.value := Stored(p.ar, s.vars, o)] && Delivers(s0, s', t, o)
  {
    hide Goes, At;
    s' := Tick(p, n, s0, s, [Op(SaveOp(t))]);
  }
}
