/** The virtual machine: one step per code word, on the operand stacks and the string stack. */
module Machine {
  import opened Values
  import opened Ast
  import opened CodeGen

  type Store = map<CString, Value>

  /** Slot 0 of each 12-slot operand stack stays unused, so 11 operands fit. */
  const OPERAND_LIMIT: nat := 11
  /** Advancing the string stack asserts fewer entries than this. */
  const STRING_LIMIT: nat := 63

  /** A string set aside by an advance; `closed` when a NUL was put behind it. */
  datatype Pending = Pending(text: CString, closed: bool)

  /** The state of one frame. `cur` and `copy` are the current and the copied variable, if they exist. */
  datatype State = State(
    ip: nat,
    ints: seq<int>,
    flts: seq<F64>,
    strs: seq<Pending>,
    head: CString,
    vars: Store,
    cur: Option<CString>,
    copy: Option<CString>)

  /** A run is under way, has returned a value, or has left the machine's defined behaviour. */
  datatype Config =
    | Running(s: State)
    | Returned(result: Value, last: State)
    | Stuck

  // ----- variables -----

  function Existing(vars: Store, name: CString): Option<CString> {
    if name in vars then Some(name) else None
  }

  /** Adds the variable, empty, when it does not exist yet. */
  function Created(vars: Store, name: CString): (r: Store)
    ensures name in r
  {
    if name in vars then vars else vars[name := VString("")]
  }

  function ReadInt(ar: Arith, vars: Store, ref: Option<CString>): int {
    if ref.Some? && ref.value in vars then ToS32(ValueAsInt(ar, vars[ref.value])) else 0
  }

  function ReadFloat(ar: Arith, vars: Store, ref: Option<CString>): F64 {
    if ref.Some? && ref.value in vars then ar.roundTo32(ValueAsFloat(ar, vars[ref.value])) else ar.floatOfInt(0)
  }

  function ReadString(ar: Arith, vars: Store, ref: Option<CString>): CString {
    if ref.Some? && ref.value in vars then ValueAsString(ar, vars[ref.value]) else ""
  }

  function UnsignedValue(i: int): Value {
    VUnsigned(ToU32(i))
  }

  function NumberValue(ar: Arith, f: F64): Value {
    VNumber(ar.roundTo32(f))
  }

  /** What copying a variable stores. */
  function CopiedValue(ar: Arith, vars: Store, ref: Option<CString>): Value {
    if ref.Some? && ref.value in vars then
      match vars[ref.value]
      case VUnsigned(u) => UnsignedValue(u)
      case VNumber(f) => NumberValue(ar, ar.roundTo32(f))
      case VString(s) => VString(s)
    else VString("")
  }

  // ----- steps -----

  function PushInt(s: State, i: int): Config {
    if |s.ints| < OPERAND_LIMIT then Running(s.(ints := s.ints + [i])) else Stuck
  }

  function PushFlt(s: State, f: F64): Config {
    if |s.flts| < OPERAND_LIMIT then Running(s.(flts := s.flts + [f])) else Stuck
  }

  function Advance(s: State, p: Pending): Config {
    if |s.strs| < STRING_LIMIT then Running(s.(strs := s.strs + [p], head := "")) else Stuck
  }

  function Save(s: State, v: Value): Config {
    if s.cur.Some? then Running(s.(vars := s.vars[s.cur.value := v])) else Stuck
  }

  function DropInt(s: State): State
    requires s.ints != []
  {
    s.(ints := s.ints[..|s.ints| - 1])
  }

  function DropFlt(s: State): State
    requires s.flts != []
  {
    s.(flts := s.flts[..|s.flts| - 1])
  }

  function TopInt(s: State): int
    requires s.ints != []
  {
    s.ints[|s.ints| - 1]
  }

  function TopFlt(s: State): F64
    requires s.flts != []
  {
    s.flts[|s.flts| - 1]
  }

  function ReplaceInt(s: State, i: int): State
    requires s.ints != []
  {
    s.(ints := s.ints[..|s.ints| - 1] + [i])
  }

  function ReplaceFlt(s: State, f: F64): State
    requires s.flts != []
  {
    s.(flts := s.flts[..|s.flts| - 1] + [f])
  }

  function Bool(b: bool): int {
    if b then 1 else 0
  }

  /** Goes to the address in `w` when `taken`. `s.ip` is the address of `w`. */
  function Jump(s: State, w: Word, taken: bool): Config {
    if !taken then Running(s.(ip := s.ip + 1))
    else if w.Num? && w.n >= 0 then Running(s.(ip := w.n))
    else Stuck
  }

  /** The string the topmost pending entry heads: it runs on into the current one unless closed. */
  function Joined(p: Pending, head: CString): CString {
    if p.closed then p.text else p.text + head
  }

  /** A jump on the float or int on top, which is popped. */
  function JumpOnFlt(ar: Arith, s: State, w: Word, when: bool): Config {
    if s.flts == [] then Stuck else Jump(DropFlt(s), w, ar.nonZero(TopFlt(s)) == when)
  }

  function JumpOnInt(s: State, w: Word, when: bool): Config {
    if s.ints == [] then Stuck else Jump(DropInt(s), w, (TopInt(s) != 0) == when)
  }

  /** A jump that keeps the deciding int, popping it only when falling through. */
  function JumpKeeping(s: State, w: Word, when: bool): Config {
    if s.ints == [] then Stuck
    else if (TopInt(s) != 0) == when then Jump(s, w, true)
    else Jump(DropInt(s), w, false)
  }

  /** Binary operators: the top is the left operand. */
  function BitStep(ar: Arith, s: State, op: BitOp): Config {
    if |s.ints| < 2 then Stuck else
    var n := |s.ints|;
    Running(s.(ints := s.ints[..n - 2] + [ar.bitOp(op, s.ints[n - 1], s.ints[n - 2])]))
  }

  function ArithStep(ar: Arith, s: State, op: FloatOp): Config {
    if |s.flts| < 2 then Stuck else
    var n := |s.flts|;
    Running(s.(flts := s.flts[..n - 2] + [ar.floatOp(op, s.flts[n - 1], s.flts[n - 2])]))
  }

  function CompareStep(ar: Arith, s: State, op: CompareOp): Config {
    if |s.flts| < 2 then Stuck else
    var n := |s.flts|;
    PushInt(s.(flts := s.flts[..n - 2]), Bool(ar.compare(op, s.flts[n - 1], s.flts[n - 2])))
  }

  function SetCur(s: State, name: CString, create: bool): Config {
    var vars := if create then Created(s.vars, name) else s.vars;
    Running(s.(vars := vars, cur := Existing(vars, name)))
  }

  function SetCurOperand(s: State, w: Word, create: bool): Config {
    if w.Ident? then SetCur(s.(ip := s.ip + 2), w.name, create) else Stuck
  }

  predicate IsJump(op: OpCode) {
    op.JMPIFFNOT? || op.JMPIFF? || op.JMPIFNOT? || op.JMPIF? || op.JMPIFNOT_NP? || op.JMPIF_NP? || op.JMP?
  }

  /**
    Executes one opcode; `s.ip` is already past it, and `w` is the word there. An opcode no case
    of the interpreter handles ends the call, like a return.
   */
  function Execute(ar: Arith, op: OpCode, w: Word, s: State): Config {
    match op
    case JMPIFFNOT => JumpOnFlt(ar, s, w, false)
    case JMPIFF => JumpOnFlt(ar, s, w, true)
    case JMPIFNOT => JumpOnInt(s, w, false)
    case JMPIF => JumpOnInt(s, w, true)
    case JMPIFNOT_NP => JumpKeeping(s, w, false)
    case JMPIF_NP => JumpKeeping(s, w, true)
    case JMP => Jump(s, w, true)
    case RETURN | INVALID => Returned(VString(s.head), s)
    case RETURN_VOID => Returned(VString(""), s.(head := ""))
    case RETURN_FLT => if s.flts == [] then Stuck else Returned(VNumber(TopFlt(s)), DropFlt(s))
    case RETURN_UINT => if s.ints == [] then Stuck else Returned(VUnsigned(ToU32(TopInt(s))), DropInt(s))
    case CMP(c) => CompareStep(ar, s, c)
    case BIT(b) => BitStep(ar, s, b)
    case ARITH(f) => ArithStep(ar, s, f)
    case NOT => if s.ints == [] then Stuck else Running(ReplaceInt(s, Bool(TopInt(s) == 0)))
    case NOTF => if s.flts == [] then Stuck else PushInt(DropFlt(s), Bool(!ar.nonZero(TopFlt(s))))
    case ONESCOMPLEMENT => if s.ints == [] then Stuck else Running(ReplaceInt(s, ar.complement(TopInt(s))))
    case NEG => if s.flts == [] then Stuck else Running(ReplaceFlt(s, ar.negate(TopFlt(s))))
    case SETCURVAR => SetCurOperand(s, w, false)
    case SETCURVAR_CREATE => SetCurOperand(s, w, true)
    case SETCURVAR_ARRAY => SetCur(s, ar.intern(s.head), false)
    case SETCURVAR_ARRAY_CREATE => SetCur(s, ar.intern(s.head), true)
    case LOADVAR_UINT => PushInt(s, ReadInt(ar, s.vars, s.cur))
    case LOADVAR_FLT => PushFlt(s, ReadFloat(ar, s.vars, s.cur))
    case LOADVAR_STR => Running(s.(head := ReadString(ar, s.vars, s.cur)))
    case LOADVAR_VAR => Running(s.(copy := s.cur))
    case SAVEVAR_UINT => if s.ints == [] then Stuck else Save(s, UnsignedValue(TopInt(s)))
    case SAVEVAR_FLT => if s.flts == [] then Stuck else Save(s, NumberValue(ar, TopFlt(s)))
    case SAVEVAR_STR => Save(s, VString(s.head))
    case SAVEVAR_VAR => if s.copy.None? && s.cur.None? then Running(s) else Save(s, CopiedValue(ar, s.vars, s.copy))
    case STR_TO_UINT => PushInt(s, ToU32(ar.parseInt(s.head)))
    case STR_TO_FLT => PushFlt(s, ar.parseFloat(s.head))
    case STR_TO_NONE => Running(s)
    case FLT_TO_UINT => if s.flts == [] then Stuck else PushInt(DropFlt(s), ar.truncate(TopFlt(s)))
    case FLT_TO_STR => if s.flts == [] then Stuck else Running(DropFlt(s).(head := ar.showFloat(TopFlt(s))))
    case FLT_TO_NONE => if s.flts == [] then Stuck else Running(DropFlt(s))
    case UINT_TO_FLT => if s.ints == [] then Stuck else PushFlt(DropInt(s), ar.floatOfInt(TopInt(s)))
    case UINT_TO_STR => if s.ints == [] then Stuck else Running(DropInt(s).(head := ar.showInt(ToS32(TopInt(s)))))
    case UINT_TO_NONE => if s.ints == [] then Stuck else Running(DropInt(s))
    case COPYVAR_TO_NONE => Running(s.(copy := None))
    case LOADIMMED_UINT => if w.Num? then PushInt(s.(ip := s.ip + 1), w.n) else Stuck
    case LOADIMMED_FLT => if w.Flt? then PushFlt(s.(ip := s.ip + 1), w.f) else Stuck
    case LOADIMMED_STR => if w.Str? then Running(s.(ip := s.ip + 1, head := w.s)) else Stuck
    case LOADIMMED_IDENT => if w.Ident? then Running(s.(ip := s.ip + 2, head := w.name)) else Stuck
    case ADVANCE_STR => Advance(s, Pending(s.head, false))
    case ADVANCE_STR_COMMA => Advance(s, Pending(s.head + ['_'], false))
    case ADVANCE_STR_NUL => Advance(s, Pending(s.head, true))
    case ADVANCE_STR_APPENDCHAR =>
      if w.Chr? && w.c != '\0' then Advance(s.(ip := s.ip + 1), Pending(s.head + [w.c], false)) else Stuck
    case REWIND_STR =>
      if s.strs == [] then Stuck else
      var n := |s.strs| - 1;
      Running(s.(strs := s.strs[..n], head := Joined(s.strs[n], s.head)))
    case TERMINATE_REWIND_STR =>
      if s.strs == [] then Stuck else
      var n := |s.strs| - 1;
      Running(s.(strs := s.strs[..n], head := s.strs[n].text))
    case COMPARE_STR =>
      if s.strs == [] then Stuck else
      var n := |s.strs| - 1;
      PushInt(s.(strs := s.strs[..n], head := ""),
              Bool(ar.equalIgnoringCase(Joined(s.strs[n], s.head), s.head)))
  }

  datatype Program = Program(ar: Arith, code: Code)

  function Step(p: Program, s: State): Config {
    if s.ip < |p.code| && p.code[s.ip].Op? then
      Execute(p.ar, p.code[s.ip].op, if s.ip + 1 < |p.code| then p.code[s.ip + 1] else Num(-1), s.(ip := s.ip + 1))
    else Stuck
  }

  /** The configuration after `n` steps. */
  ghost function Run(p: Program, n: nat, c: Config): Config {
    if n == 0 then c else
    var d := Run(p, n - 1, c);
    if d.Running? then Step(p, d.s) else d
  }

  lemma {:induction false} RunAdd(p: Program, m: nat, n: nat, c: Config)
    ensures Run(p, m + n, c) == Run(p, n, Run(p, m, c))
    decreases n
  {
    hide Step;
    if n > 0 {
      RunAdd(p, m, n - 1, c);
      assert m + n - 1 == m + (n - 1);
    }
  }
}
