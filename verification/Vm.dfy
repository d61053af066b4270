/**
  The interpreter loop, in place: twelve-slot operand arrays whose tops `uintTop` and `fltTop` index, slot 0
  unused. Every opcode does to the arrays what `Machine.Execute` does to the state they show.
 */
module VmLoop {
  import opened Values
  import opened Ast
  import opened CodeGen
  import opened Machine

  const MAX_STACK_SIZE: nat := 12

  // ----- what some opcodes come to when they go on -----

  lemma BinaryMeaning(ar: Arith, op: OpCode, w: Word, s: State)
    requires Execute(ar, op, w, s).Running?
    ensures op.CMP? ==> Execute(ar, op, w, s) == CompareStep(ar, s, op.cmp)
    ensures op.BIT? ==> Execute(ar, op, w, s) == BitStep(ar, s, op.bit)
    ensures op.ARITH? ==> Execute(ar, op, w, s) == ArithStep(ar, s, op.fop)
  {
  }

  lemma FromUintMeaning(ar: Arith, op: OpCode, w: Word, s: State)
    requires Execute(ar, op, w, s).Running?
    ensures op.UINT_TO_FLT? ==>
      && s.ints != [] && |s.flts| < OPERAND_LIMIT
      && Execute(ar, op, w, s) == Running(DropInt(s).(flts := s.flts + [ar.floatOfInt(TopInt(s))]))
    ensures op.UINT_TO_STR? ==>
      s.ints != [] && Execute(ar, op, w, s) == Running(DropInt(s).(head := ar.showInt(ToS32(TopInt(s)))))
    ensures op.UINT_TO_NONE? ==> s.ints != [] && Execute(ar, op, w, s) == Running(DropInt(s))
  {
  }

  lemma FromFloatMeaning(ar: Arith, op: OpCode, w: Word, s: State)
    requires Execute(ar, op, w, s).Running?
    ensures op.FLT_TO_UINT? ==>
      && s.flts != [] && |s.ints| < OPERAND_LIMIT
      && Execute(ar, op, w, s) == Running(DropFlt(s).(ints := s.ints + [ar.truncate(TopFlt(s))]))
    ensures op.FLT_TO_STR?
        ==> s.flts != [] && Execute(ar, op, w, s) == Running(DropFlt(s).(head := ar.showFloat(TopFlt(s))))
    ensures op.FLT_TO_NONE? ==> s.flts != [] && Execute(ar, op, w, s) == Running(DropFlt(s))
  {
  }

  lemma LiteralMeaning(ar: Arith, op: OpCode, w: Word, s: State)
    requires Execute(ar, op, w, s).Running?
    ensures op.LOADIMMED_UINT? ==>
      w.Num? && |s.ints| < OPERAND_LIMIT && Execute(ar, op, w, s) == Running(s.(ip := s.ip + 1, ints := s.ints + [w.n]))
    ensures op.LOADIMMED_FLT? ==>
      w.Flt? && |s.flts| < OPERAND_LIMIT && Execute(ar, op, w, s) == Running(s.(ip := s.ip + 1, flts := s.flts + [w.f]))
    ensures op.LOADIMMED_STR? ==> w.Str? && Execute(ar, op, w, s) == Running(s.(ip := s.ip + 1, head := w.s))
    ensures op.LOADIMMED_IDENT? ==> w.Ident? && Execute(ar, op, w, s) == Running(s.(ip := s.ip + 2, head := w.name))
  {
  }

  lemma AdvanceMeaning(ar: Arith, op: OpCode, w: Word, s: State)
    requires Execute(ar, op, w, s).Running?
    ensures op.ADVANCE_STR?
        ==> Execute(ar, op, w, s) == Running(s.(strs := s.strs + [Pending(s.head, false)], head := ""))
    ensures op.ADVANCE_STR_COMMA? ==>
      Execute(ar, op, w, s) == Running(s.(strs := s.strs + [Pending(s.head + ['_'], false)], head := ""))
    ensures op.ADVANCE_STR_NUL?
        ==> Execute(ar, op, w, s) == Running(s.(strs := s.strs + [Pending(s.head, true)], head := ""))
    ensures op.ADVANCE_STR_APPENDCHAR? ==>
      && w.Chr? && w.c != '\0'
      && Execute(ar, op, w, s)
         == Running(s.(ip := s.ip + 1, strs := s.strs + [Pending(s.head + [w.c], false)], head := ""))
  {
  }

  class Vm {
    const ar: Arith
    const code: Code
    const intStack: array<int>
    const floatStack: array<F64>
    var uintTop: nat
    var fltTop: nat
    var ip: nat
    var strs: seq<Pending>
    var head: CString
    var vars: Store
    var cur: Option<CString>
    var copy: Option<CString>

    ghost predicate Valid()
      reads this
    {
      && intStack.Length == MAX_STACK_SIZE && floatStack.Length == MAX_STACK_SIZE
      && uintTop < MAX_STACK_SIZE && fltTop < MAX_STACK_SIZE
    }

    ghost function Snapshot(): State
      requires Valid()
      reads this, intStack, floatStack
    {
      State(ip, intStack[1..uintTop + 1], floatStack[1..fltTop + 1], strs, head, vars, cur, copy)
    }

    constructor (p: Program, store: Store)
      ensures Valid() && fresh(intStack) && fresh(floatStack)
      ensures ar == p.ar && code == p.code && Snapshot() == State(0, [], [], [], "", store, None, None)
    {
      ar, code := p.ar, p.code;
      intStack := new int[MAX_STACK_SIZE];
      floatStack := new F64[MAX_STACK_SIZE](i => F64(0));
      uintTop, fltTop, ip, strs, head, vars, cur, copy := 0, 0, 0, [], "", store, None, None;
    }

    // ----- the operand arrays -----

    method PushUint(i: int)
      requires Valid() && uintTop + 1 < MAX_STACK_SIZE
      modifies this`uintTop, intStack
      ensures Valid() && Shows(old(Snapshot()).(ints := old(Snapshot()).ints + [i]))
    {
      ghost var s := Snapshot();
      intStack[uintTop + 1] := i;
      uintTop := uintTop + 1;
      assert intStack[1..uintTop + 1] == s.ints + [i];
    }

    method PopUint() returns (i: int)
      requires Valid() && uintTop > 0
      modifies this`uintTop
      ensures Valid() && i == TopInt(old(Snapshot())) && Shows(DropInt(old(Snapshot())))
    {
      ghost var s := Snapshot();
      i := intStack[uintTop];
      uintTop := uintTop - 1;
      assert intStack[1..uintTop + 1] == s.ints[..|s.ints| - 1];
    }

    method SetUint(i: int)
      requires Valid() && uintTop > 0
      modifies intStack
      ensures Valid() && Shows(ReplaceInt(old(Snapshot()), i))
    {
      ghost var s := Snapshot();
      intStack[uintTop] := i;
      assert intStack[1..uintTop + 1] == s.ints[..|s.ints| - 1] + [i];
    }

    /** Writes the result of a binary operator over the lower operand. */
    method CombineUint(i: int)
      requires Valid() && uintTop > 1
      modifies this`uintTop, intStack
      ensures Valid() && var s := old(Snapshot()); Shows(s.(ints := s.ints[..|s.ints| - 2] + [i]))
    {
      ghost var s := Snapshot();
      intStack[uintTop - 1] := i;
      uintTop := uintTop - 1;
      assert intStack[1..uintTop + 1] == s.ints[..|s.ints| - 2] + [i];
    }

    method PushFlt(f: F64)
      requires Valid() && fltTop + 1 < MAX_STACK_SIZE
      modifies this`fltTop, floatStack
      ensures Valid() && Shows(old(Snapshot()).(flts := old(Snapshot()).flts + [f]))
    {
      ghost var s := Snapshot();
      floatStack[fltTop + 1] := f;
      fltTop := fltTop + 1;
      assert floatStack[1..fltTop + 1] == s.flts + [f];
    }

    method PopFlt() returns (f: F64)
      requires Valid() && fltTop > 0
      modifies this`fltTop
      ensures Valid() && f == TopFlt(old(Snapshot())) && Shows(DropFlt(old(Snapshot())))
    {
      ghost var s := Snapshot();
      f := floatStack[fltTop];
      fltTop := fltTop - 1;
      assert floatStack[1..fltTop + 1] == s.flts[..|s.flts| - 1];
    }

    method SetFlt(f: F64)
      requires Valid() && fltTop > 0
      modifies floatStack
      ensures Valid() && Shows(ReplaceFlt(old(Snapshot()), f))
    {
      ghost var s := Snapshot();
      floatStack[fltTop] := f;
      assert floatStack[1..fltTop + 1] == s.flts[..|s.flts| - 1] + [f];
    }

    method CombineFlt(f: F64)
      requires Valid() && fltTop > 1
      modifies this`fltTop, floatStack
      ensures Valid() && var s := old(Snapshot()); Shows(s.(flts := s.flts[..|s.flts| - 2] + [f]))
    {
      ghost var s := Snapshot();
      floatStack[fltTop - 1] := f;
      fltTop := fltTop - 1;
      assert floatStack[1..fltTop + 1] == s.flts[..|s.flts| - 2] + [f];
    }

    /** The operand `k` below the top. */
    function Uint(k: nat): (i: int)
      requires Valid() && k < uintTop
      reads this, intStack, floatStack
      ensures |Snapshot().ints| == uintTop && i == Snapshot().ints[|Snapshot().ints| - 1 - k]
    {
      intStack[uintTop - k]
    }

    function Flt(k: nat): (f: F64)
      requires Valid() && k < fltTop
      reads this, intStack, floatStack
      ensures |Snapshot().flts| == fltTop && f == Snapshot().flts[|Snapshot().flts| - 1 - k]
    {
      floatStack[fltTop - k]
    }

    ghost predicate Shows(s: State)
      reads this, intStack, floatStack
    {
      && Valid() && Snapshot() == s && |s.ints| == uintTop && |s.flts| == fltTop
      && ip == s.ip && strs == s.strs && head == s.head && vars == s.vars && cur == s.cur && copy == s.copy
    }

    method Goto(a: nat)
      requires Valid()
      modifies this`ip
      ensures Valid() && Shows(old(Snapshot()).(ip := a))
    {
      ip := a;
    }

    method SetStrings(ps: seq<Pending>, h: CString)
      requires Valid()
      modifies this`strs, this`head
      ensures Valid() && Shows(old(Snapshot()).(strs := ps, head := h))
    {
      strs, head := ps, h;
    }

    method SetVariables(store: Store, c: Option<CString>)
      requires Valid()
      modifies this`vars, this`cur
      ensures Valid() && Shows(old(Snapshot()).(vars := store, cur := c))
    {
      vars, cur := store, c;
    }

    method SetCopy(c: Option<CString>)
      requires Valid()
      modifies this`copy
      ensures Valid() && Shows(old(Snapshot()).(copy := c))
    {
      copy := c;
    }

    // ----- opcodes, by kind; `w` is the word at `ip` -----

    method Jumps(op: OpCode, w: Word)
      requires Valid() && IsJump(op)
      requires Execute(ar, op, w, Snapshot()).Running?
      modifies this`ip, this`uintTop, this`fltTop
      ensures Valid() && Execute(ar, op, w, old(Snapshot())) == Running(Snapshot())
    {
      hide Snapshot;
      ShowsItself();
      var taken: bool;
      match op {
        case JMPIFFNOT => var f := PopFlt(); taken := !ar.nonZero(f);
        case JMPIFNOT => var i := PopUint(); taken := i == 0;
        case JMPIFF => var f := PopFlt(); taken := ar.nonZero(f);
        case JMPIF => var i := PopUint(); taken := i != 0;
        case JMPIFNOT_NP =>
          taken := Uint(0) == 0;
          if !taken { var i := PopUint(); }
        case JMPIF_NP =>
          taken := Uint(0) != 0;
          if !taken { var i := PopUint(); }
        case JMP => taken := true;
      }
      Goto(if taken then w.n else ip + 1);
    }

    method BinaryOperators(op: OpCode, w: Word)
      requires Valid() && (op.CMP? || op.BIT? || op.ARITH?)
      requires Execute(ar, op, w, Snapshot()).Running?
      modifies this`uintTop, this`fltTop, intStack, floatStack
      ensures Valid() && Execute(ar, op, w, old(Snapshot())) == Running(Snapshot())
    {
      hide Snapshot, Execute;
      BinaryMeaning(ar, op, w, Snapshot());
      ShowsItself();
      match op {
        case CMP(c) =>
          PushUint(Bool(ar.compare(c, Flt(0), Flt(1))));
          var f := PopFlt();
          f := PopFlt();
        case BIT(b) => CombineUint(ar.bitOp(b, Uint(0), Uint(1)));
        case ARITH(o) => CombineFlt(ar.floatOp(o, Flt(0), Flt(1)));
      }
    }

    method UnaryOperators(op: OpCode, w: Word)
      requires Valid() && (op.NOT? || op.NOTF? || op.ONESCOMPLEMENT? || op.NEG?)
      requires Execute(ar, op, w, Snapshot()).Running?
      modifies this`uintTop, this`fltTop, intStack, floatStack
      ensures Valid() && Execute(ar, op, w, old(Snapshot())) == Running(Snapshot())
    {
      hide Snapshot;
      ShowsItself();
      match op {
        case NOT => SetUint(Bool(Uint(0) == 0));
        case NOTF =>
          PushUint(Bool(!ar.nonZero(Flt(0))));
          var f := PopFlt();
        case ONESCOMPLEMENT => SetUint(ar.complement(Uint(0)));
        case NEG => SetFlt(ar.negate(Flt(0)));
      }
    }

    method Selections(op: OpCode, w: Word)
      requires Valid() && (op.SETCURVAR? || op.SETCURVAR_CREATE? || op.SETCURVAR_ARRAY? || op.SETCURVAR_ARRAY_CREATE?)
      requires Execute(ar, op, w, Snapshot()).Running?
      modifies this`ip, this`vars, this`cur
      ensures Valid() && Execute(ar, op, w, old(Snapshot())) == Running(Snapshot())
    {
      hide Snapshot;
      ShowsItself();
      match op {
        case SETCURVAR =>
          Goto(ip + 2);
          SetVariables(vars, Existing(vars, w.name));
        case SETCURVAR_CREATE =>
          Goto(ip + 2);
          SetVariables(Created(vars, w.name), Some(w.name));
        case SETCURVAR_ARRAY => SetVariables(vars, Existing(vars, ar.intern(head)));
        case SETCURVAR_ARRAY_CREATE => SetVariables(Created(vars, ar.intern(head)), Some(ar.intern(head)));
      }
    }

    method Loads(op: OpCode, w: Word)
      requires Valid() && (op.LOADVAR_UINT? || op.LOADVAR_FLT? || op.LOADVAR_STR? || op.LOADVAR_VAR?)
      requires Execute(ar, op, w, Snapshot()).Running?
      modifies this`uintTop, this`fltTop, this`strs, this`head, this`copy, intStack, floatStack
      ensures Valid() && Execute(ar, op, w, old(Snapshot())) == Running(Snapshot())
    {
      hide Snapshot;
      ShowsItself();
      match op {
        case LOADVAR_UINT => PushUint(ReadInt(ar, vars, cur));
        case LOADVAR_FLT => PushFlt(ReadFloat(ar, vars, cur));
        case LOADVAR_STR => SetStrings(strs, ReadString(ar, vars, cur));
        case LOADVAR_VAR => SetCopy(cur);
      }
    }

    method Saves(op: OpCode, w: Word)
      requires Valid() && (op.SAVEVAR_UINT? || op.SAVEVAR_FLT? || op.SAVEVAR_STR? || op.SAVEVAR_VAR?)
      requires Execute(ar, op, w, Snapshot()).Running?
      modifies this`vars, this`cur
      ensures Valid() && Execute(ar, op, w, old(Snapshot())) == Running(Snapshot())
    {
      hide Snapshot;
      ShowsItself();
      match op {
        case SAVEVAR_UINT => SetVariables(vars[cur.value := UnsignedValue(Uint(0))], cur);
        case SAVEVAR_FLT => SetVariables(vars[cur.value := NumberValue(ar, Flt(0))], cur);
        case SAVEVAR_STR => SetVariables(vars[cur.value := VString(head)], cur);
        case SAVEVAR_VAR =>
          if copy.Some? || cur.Some? {
            SetVariables(vars[cur.value := CopiedValue(ar, vars, copy)], cur);
          }
      }
    }

    method FromStrings(op: OpCode, w: Word)
      requires Valid() && (op.STR_TO_UINT? || op.STR_TO_FLT? || op.STR_TO_NONE? || op.COPYVAR_TO_NONE?)
      requires Execute(ar, op, w, Snapshot()).Running?
      modifies this`uintTop, this`fltTop, this`copy, intStack, floatStack
      ensures Valid() && Execute(ar, op, w, old(Snapshot())) == Running(Snapshot())
    {
      hide Snapshot;
      ShowsItself();
      match op {
        case STR_TO_UINT => PushUint(ToU32(ar.parseInt(head)));
        case STR_TO_FLT => PushFlt(ar.parseFloat(head));
        case STR_TO_NONE =>
        case COPYVAR_TO_NONE => SetCopy(None);
      }
    }

    method FromFloats(op: OpCode, w: Word)
      requires Valid() && (op.FLT_TO_UINT? || op.FLT_TO_STR? || op.FLT_TO_NONE?)
      requires Execute(ar, op, w, Snapshot()).Running?
      modifies this`uintTop, this`fltTop, this`strs, this`head, intStack
      ensures Valid() && Execute(ar, op, w, old(Snapshot())) == Running(Snapshot())
    {
      hide Snapshot, Execute;
      FromFloatMeaning(ar, op, w, Snapshot());
      ShowsItself();
      match op {
        case FLT_TO_UINT =>
          PushUint(ar.truncate(Flt(0)));
          var f := PopFlt();
        case FLT_TO_STR =>
          var f := PopFlt();
          SetStrings(strs, ar.showFloat(f));
        case FLT_TO_NONE => var f := PopFlt();
      }
    }

    method FromUints(op: OpCode, w: Word)
      requires Valid() && (op.UINT_TO_FLT? || op.UINT_TO_STR? || op.UINT_TO_NONE?)
      requires Execute(ar, op, w, Snapshot()).Running?
      modifies this`uintTop, this`fltTop, this`strs, this`head, floatStack
      ensures Valid() && Execute(ar, op, w, old(Snapshot())) == Running(Snapshot())
    {
      hide Snapshot, Execute;
      FromUintMeaning(ar, op, w, Snapshot());
      ShowsItself();
      match op {
        case UINT_TO_FLT =>
          PushFlt(ar.floatOfInt(Uint(0)));
          var i := PopUint();
        case UINT_TO_STR =>
          var i := PopUint();
          SetStrings(strs, ar.showInt(ToS32(i)));
        case UINT_TO_NONE => var i := PopUint();
      }
    }

    method Literals(op: OpCode, w: Word)
      requires Valid() && (op.LOADIMMED_UINT? || op.LOADIMMED_FLT? || op.LOADIMMED_STR? || op.LOADIMMED_IDENT?)
      requires Execute(ar, op, w, Snapshot()).Running?
      modifies this`ip, this`uintTop, this`fltTop, this`strs, this`head, intStack, floatStack
      ensures Valid() && Execute(ar, op, w, old(Snapshot())) == Running(Snapshot())
    {
      hide Snapshot, Execute;
      LiteralMeaning(ar, op, w, Snapshot());
      ShowsItself();
      match op {
        case LOADIMMED_UINT =>
          PushUint(w.n);
          Goto(ip + 1);
        case LOADIMMED_FLT =>
          PushFlt(w.f);
          Goto(ip + 1);
        case LOADIMMED_STR =>
          SetStrings(strs, w.s);
          Goto(ip + 1);
        case LOADIMMED_IDENT =>
          SetStrings(strs, w.name);
          Goto(ip + 2);
      }
    }

    method Advances(op: OpCode, w: Word)
      requires Valid()
          && (op.ADVANCE_STR? || op.ADVANCE_STR_COMMA? || op.ADVANCE_STR_NUL? || op.ADVANCE_STR_APPENDCHAR?)
      requires Execute(ar, op, w, Snapshot()).Running?
      modifies this`ip, this`strs, this`head
      ensures Valid() && Execute(ar, op, w, old(Snapshot())) == Running(Snapshot())
    {
      hide Snapshot, Execute;
      AdvanceMeaning(ar, op, w, Snapshot());
      ShowsItself();
      match op {
        case ADVANCE_STR => SetStrings(strs + [Pending(head, false)], "");
        case ADVANCE_STR_COMMA => SetStrings(strs + [Pending(head + ['_'], false)], "");
        case ADVANCE_STR_NUL => SetStrings(strs + [Pending(head, true)], "");
        case ADVANCE_STR_APPENDCHAR =>
          SetStrings(strs + [Pending(head + [w.c], false)], "");
          Goto(ip + 1);
      }
    }

    method Rewinds(op: OpCode, w: Word)
      requires Valid() && (op.REWIND_STR? || op.TERMINATE_REWIND_STR? || op.COMPARE_STR?)
      requires Execute(ar, op, w, Snapshot()).Running?
      modifies this`strs, this`head, this`uintTop, intStack
      ensures Valid() && Execute(ar, op, w, old(Snapshot())) == Running(Snapshot())
    {
      hide Snapshot;
      ShowsItself();
      var n := |strs| - 1;
      match op {
        case REWIND_STR => SetStrings(strs[..n], Joined(strs[n], head));
        case TERMINATE_REWIND_STR => SetStrings(strs[..n], strs[n].text);
        case COMPARE_STR =>
          var same := ar.equalIgnoringCase(Joined(strs[n], head), head);
          SetStrings(strs[..n], "");
          PushUint(Bool(same));
      }
    }

    /** The opcodes that end the call, among them all that no case handles. */
    method Returns(op: OpCode, w: Word) returns (v: Value)
      requires Valid() && (op.RETURN? || op.INVALID? || op.RETURN_VOID? || op.RETURN_FLT? || op.RETURN_UINT?)
      requires Execute(ar, op, w, Snapshot()).Returned?
      modifies this`uintTop, this`fltTop, this`strs, this`head
      ensures Valid() && Execute(ar, op, w, old(Snapshot())) == Returned(v, Snapshot())
    {
      hide Snapshot;
      ShowsItself();
      match op {
        case RETURN | INVALID => v := VString(head);
        case RETURN_VOID =>
          SetStrings(strs, "");
          v := VString("");
        case RETURN_FLT =>
          var f := PopFlt();
          v := VNumber(f);
        case RETURN_UINT =>
          var i := PopUint();
          v := VUnsigned(ToU32(i));
      }
    }

    lemma ShowsItself()
      requires Valid()
      ensures Shows(Snapshot())
    {
    }

    /** One opcode that goes on and moves values between the stacks. */
    method Move(op: OpCode, w: Word)
      requires Valid() && Execute(ar, op, w, Snapshot()).Running?
      requires !IsJump(op)
      requires !(op.CMP? || op.BIT? || op.ARITH? || op.NOT? || op.NOTF? || op.ONESCOMPLEMENT? || op.NEG?)
      requires !(op.SETCURVAR? || op.SETCURVAR_CREATE? || op.SETCURVAR_ARRAY? || op.SETCURVAR_ARRAY_CREATE?)
      modifies this, intStack, floatStack
      ensures Valid() && Execute(ar, op, w, old(Snapshot())) == Running(Snapshot())
    {
      GoesOn(ar, op, w, Snapshot());
      hide Snapshot, Execute;
      match op {
        case LOADVAR_UINT | LOADVAR_FLT | LOADVAR_STR | LOADVAR_VAR => Loads(op, w);
        case SAVEVAR_UINT | SAVEVAR_FLT | SAVEVAR_STR | SAVEVAR_VAR => Saves(op, w);
        case STR_TO_UINT | STR_TO_FLT | STR_TO_NONE | COPYVAR_TO_NONE => FromStrings(op, w);
        case FLT_TO_UINT | FLT_TO_STR | FLT_TO_NONE => FromFloats(op, w);
        case UINT_TO_FLT | UINT_TO_STR | UINT_TO_NONE => FromUints(op, w);
        case LOADIMMED_UINT | LOADIMMED_FLT | LOADIMMED_STR | LOADIMMED_IDENT => Literals(op, w);
        case ADVANCE_STR | ADVANCE_STR_COMMA | ADVANCE_STR_NUL | ADVANCE_STR_APPENDCHAR => Advances(op, w);
        case REWIND_STR | TERMINATE_REWIND_STR | COMPARE_STR => Rewinds(op, w);
      }
    }

    /** One opcode that goes on. */
    method Dispatch(op: OpCode, w: Word)
      requires Valid() && Execute(ar, op, w, Snapshot()).Running?
      modifies this, intStack, floatStack
      ensures Valid() && Execute(ar, op, w, old(Snapshot())) == Running(Snapshot())
    {
      hide Snapshot, Execute;
      if IsJump(op) {
        Jumps(op, w);
      } else if op.CMP? || op.BIT? || op.ARITH? {
        BinaryOperators(op, w);
      } else if op.NOT? || op.NOTF? || op.ONESCOMPLEMENT? || op.NEG? {
        UnaryOperators(op, w);
      } else if op.SETCURVAR? || op.SETCURVAR_CREATE? || op.SETCURVAR_ARRAY? || op.SETCURVAR_ARRAY_CREATE? {
        Selections(op, w);
      } else {
        Move(op, w);
      }
    }

    /**
      Runs for at most `budget` opcodes. If the machine never leaves its defined behaviour within them,
      no array is indexed out of bounds, and what comes back is the machine's configuration.
     */
    method RunVM(budget: nat) returns (result: Option<Value>, ghost steps: nat)
      requires Valid() && forall n: nat :: n <= budget ==> !Run(Program(ar, code), n, Running(Snapshot())).Stuck?
      modifies this, intStack, floatStack
      ensures Valid() && steps <= budget
      ensures result.None?
          ==> steps == budget && Run(Program(ar, code), steps, Running(old(Snapshot()))) == Running(Snapshot())
      ensures result.Some?
          ==> Run(Program(ar, code), steps, Running(old(Snapshot()))) == Returned(result.value, Snapshot())
    {
      hide Snapshot, Execute;
      ghost var p, s := Program(ar, code), Snapshot();
      steps := 0;
      result := None;
      var left := budget;
      while left > 0
        invariant Valid() && steps + left == budget
        invariant Run(p, steps, Running(s)) == Running(Snapshot())
      {
        assert !Run(p, steps + 1, Running(s)).Stuck?;
        AtInstruction();
        var op := code[ip].op;
        var w := if ip + 1 < |code| then code[ip + 1] else Num(-1);
        Goto(ip + 1);
        steps := steps + 1;
        left := left - 1;
        Ends(ar, op, w, Snapshot());
        if op.RETURN? || op.INVALID? || op.RETURN_VOID? || op.RETURN_FLT? || op.RETURN_UINT? {
          var v := Returns(op, w);
          result := Some(v);
          return;
        }
        Dispatch(op, w);
      }
    }

    lemma AtInstruction()
      requires Valid() && !Step(Program(ar, code), Snapshot()).Stuck?
      ensures ip == Snapshot().ip && ip < |code| && code[ip].Op?
      ensures Step(Program(ar, code), Snapshot())
           == Execute(ar, code[ip].op, if ip + 1 < |code| then code[ip + 1] else Num(-1), Snapshot().(ip := ip + 1))
    {
      hide Execute;
    }
  }

  /** Returns return and nothing else does. */
  lemma Ends(ar: Arith, op: OpCode, w: Word, s: State)
    ensures Execute(ar, op, w, s).Returned? ==> op in {RETURN, INVALID, RETURN_VOID, RETURN_FLT, RETURN_UINT}
    ensures Execute(ar, op, w, s).Running? ==> op !in {RETURN, INVALID, RETURN_VOID, RETURN_FLT, RETURN_UINT}
  {
    hide Execute;
    if Execute(ar, op, w, s).Running? {
      GoesOn(ar, op, w, s);
    } else if Execute(ar, op, w, s).Returned? {
      ComesBack(ar, op, w, s);
    }
  }

  lemma ComesBack(ar: Arith, op: OpCode, w: Word, s: State)
    requires Execute(ar, op, w, s).Returned?
    ensures op in {RETURN, INVALID, RETURN_VOID, RETURN_FLT, RETURN_UINT}
  {
    hide CopiedValue, Joined, Created, Existing, ReadInt, ReadFloat, ReadString, UnsignedValue, NumberValue;
  }

  lemma GoesOn(ar: Arith, op: OpCode, w: Word, s: State)
    requires Execute(ar, op, w, s).Running?
    ensures op !in {RETURN, INVALID, RETURN_VOID, RETURN_FLT, RETURN_UINT}
  {
  }
}
