/**
  The shape of code: how many operands lie on each stack in front of every instruction, found from the
  code alone, the way a bytecode verifier finds it. The code of every served node has such a shape.
 */
module CodeShapes {
  import opened Values
  import opened Ast
  import opened CodeGen
  import opened Machine
  import opened Semantics
  import opened Runs

  /** Entries on the int, float and string stacks, counted from some state of reference. */
  datatype Height = Height(i: int, f: int, s: int) {
    function Plus(o: Height): Height {
      Height(i + o.i, f + o.f, s + o.s)
    }
  }

  const FLAT := Height(0, 0, 0)
  const ONE_STRING := Height(0, 0, 1)

  /** What is known in front of an instruction; `spare`: one byte behind the head's NUL is sure to exist. */
  datatype Shape = Shape(h: Height, spare: bool)

  function HeightOf(s: State): Height {
    Height(|s.ints|, |s.flts|, |s.strs|)
  }

  function ResultHeight(t: TypeReq): Height {
    Height(ResultRoom(t).i, ResultRoom(t).f, ResultRoom(t).s)
  }

  predicate Returns(op: OpCode) {
    op.RETURN? || op.RETURN_VOID? || op.RETURN_FLT? || op.RETURN_UINT?
  }

  /** The words of an instruction. */
  function Width(op: OpCode): nat {
    if op.SETCURVAR? || op.SETCURVAR_CREATE? || op.LOADIMMED_IDENT? then 3
    else if ReadsOperand(op) then 2
    else 1
  }

  /** What executing an opcode adds to the stacks when control goes on behind it. */
  function Rise(op: OpCode): Height {
    match op
    case JMPIFFNOT | JMPIFF => Height(0, -1, 0)
    case JMPIFNOT | JMPIF | JMPIFNOT_NP | JMPIF_NP => Height(-1, 0, 0)
    case CMP(_) => Height(1, -2, 0)
    case BIT(_) => Height(-1, 0, 0)
    case ARITH(_) => Height(0, -1, 0)
    case NOTF => Height(1, -1, 0)
    case LOADVAR_UINT | LOADIMMED_UINT | STR_TO_UINT => Height(1, 0, 0)
    case LOADVAR_FLT | LOADIMMED_FLT | STR_TO_FLT => Height(0, 1, 0)
    case FLT_TO_UINT => Height(1, -1, 0)
    case FLT_TO_STR | FLT_TO_NONE => Height(0, -1, 0)
    case UINT_TO_FLT => Height(-1, 1, 0)
    case UINT_TO_STR | UINT_TO_NONE => Height(-1, 0, 0)
    case ADVANCE_STR | ADVANCE_STR_APPENDCHAR | ADVANCE_STR_COMMA | ADVANCE_STR_NUL => Height(0, 0, 1)
    case REWIND_STR | TERMINATE_REWIND_STR => Height(0, 0, -1)
    case COMPARE_STR => Height(1, 0, -1)
    case _ => FLAT
  }

  /** What a jump adds when it is taken. */
  function TakenRise(op: OpCode): Height {
    if op.JMPIFNOT_NP? || op.JMPIF_NP? then FLAT else Rise(op)
  }

  predicate SetsHead(op: OpCode) {
    op.LOADVAR_STR? || op.FLT_TO_STR? || op.UINT_TO_STR? || op.LOADIMMED_STR? || op.LOADIMMED_IDENT?
  }

  predicate AppendsChar(op: OpCode) {
    op.ADVANCE_STR_APPENDCHAR? || op.ADVANCE_STR_COMMA? || op.ADVANCE_STR_NUL?
  }

  function After(op: OpCode, a: Shape): Shape {
    Shape(a.h.Plus(Rise(op)), SetsHead(op) || (a.spare && !AppendsChar(op)))
  }

  function Taken(op: OpCode, a: Shape): Shape {
    Shape(a.h.Plus(TakenRise(op)), a.spare)
  }

  // ----- shaped code -----

  type Shapes = seq<Option<Shape>>

  /** `a` is known of every state `b` is known of. */
  predicate Knows(a: Option<Shape>, b: Shape) {
    a.Some? && a.value.h == b.h && (a.value.spare ==> b.spare)
  }

  /** A jump to `n` leads to an instruction of the code, or out of it where `outs` allows. */
  predicate Leads(at: nat, ts: Shapes, outs: map<int, Shape>, n: int, b: Shape) {
    || (at <= n < at + |ts| && Knows(ts[n - at], b))
    || (n in outs && Knows(Some(outs[n]), b))
  }

  predicate Fine(c: Code, at: nat, ts: Shapes, outs: map<int, Shape>, k: nat)
    requires k < |c| && |ts| == |c| + 1
  {
    ts[k].Some? ==>
      var a := ts[k].value;
      && c[k].Op? && !c[k].op.INVALID?
      && var op := c[k].op;
      && (AppendsChar(op) ==> a.spare)
      && k + Width(op) <= |c|
      && (IsJump(op) ==> c[k + 1].Num? && Leads(at, ts, outs, c[k + 1].n, Taken(op, a)))
      && (!op.JMP? && !Returns(op) ==> Knows(ts[k + Width(op)], After(op, a)))
  }

  /** `ts` tells what holds in front of every instruction of `c` placed at `at`, from `a` to `b`. */
  predicate Shaped(c: Code, at: nat, ts: Shapes, outs: map<int, Shape>, a: Shape, b: Shape) {
    && |ts| == |c| + 1 && ts[0] == Some(a) && ts[|c|] == Some(b)
    && forall k :: 0 <= k < |c| ==> Fine(c, at, ts, outs, k)
  }

  /** The string stack stays between these heights. */
  predicate StringsWithin(ts: Shapes, lo: int, hi: int) {
    forall k :: 0 <= k < |ts| && ts[k].Some? ==> lo <= ts[k].value.h.s <= hi
  }

  lemma Nothing(at: nat, a: Shape) returns (ts: Shapes)
    ensures Shaped([], at, ts, map[], a, a) && ts == [Some(a)]
  {
    ts := [Some(a)];
  }

  /** Two stretches of code one after the other. */
  lemma InSequence(c1: Code, c2: Code, at: nat, ts1: Shapes, ts2: Shapes, outs: map<int, Shape>, a: Shape, b: Shape,
      d: Shape)
    returns (ts: Shapes)
    requires Shaped(c1, at, ts1, outs, a, b) && Shaped(c2, at + |c1|, ts2, outs, b, d)
    ensures Shaped(c1 + c2, at, ts, outs, a, d)
    ensures ts == ts1[..|c1|] + ts2
  {
    ts := ts1[..|c1|] + ts2;
    var c := c1 + c2;
    hide Shaped;
    forall k | 0 <= k < |c| ensures Fine(c, at, ts, outs, k) {
      if k < |c1| {
        FineFirst(c1, c2, at, ts1, ts2, outs, a, b, d, k);
      } else {
        FineSecond(c1, c2, at, ts1, ts2, outs, a, b, d, k);
      }
    }
    SequenceEnds(c1, c2, at, ts1, ts2, outs, a, b, d);
    ShapedIs(c, at, ts, outs, a, d);
  }

  lemma ShapedIs(c: Code, at: nat, ts: Shapes, outs: map<int, Shape>, a: Shape, b: Shape)
    requires |ts| == |c| + 1 && ts[0] == Some(a) && ts[|c|] == Some(b)
    requires forall k :: 0 <= k < |c| ==> Fine(c, at, ts, outs, k)
    ensures Shaped(c, at, ts, outs, a, b)
  {
  }

  lemma SequenceEnds(c1: Code, c2: Code, at: nat, ts1: Shapes, ts2: Shapes, outs: map<int, Shape>, a: Shape, b: Shape,
      d: Shape)
    requires Shaped(c1, at, ts1, outs, a, b) && Shaped(c2, at + |c1|, ts2, outs, b, d)
    ensures var ts := ts1[..|c1|] + ts2;
      |ts| == |c1 + c2| + 1 && ts[0] == Some(a) && ts[|c1 + c2|] == Some(d)
  {
    hide Fine;
  }

  lemma FineFirst(c1: Code, c2: Code, at: nat, ts1: Shapes, ts2: Shapes, outs: map<int, Shape>, a: Shape, b: Shape,
      d: Shape, k: nat)
    requires Shaped(c1, at, ts1, outs, a, b) && Shaped(c2, at + |c1|, ts2, outs, b, d) && k < |c1|
    ensures Fine(c1 + c2, at, ts1[..|c1|] + ts2, outs, k)
  {
    hide Fine;
    var ts := ts1[..|c1|] + ts2;
    assert Fine(c1, at, ts1, outs, k);
    assert ts[0..0 + |ts1|] == ts1 && (c1 + c2)[0..0 + |c1|] == c1;
    FineMoved(c1, at, ts1, outs, c1 + c2, at, ts, 0, k);
  }

  lemma FineSecond(c1: Code, c2: Code, at: nat, ts1: Shapes, ts2: Shapes, outs: map<int, Shape>, a: Shape, b: Shape,
      d: Shape, k: nat)
    requires Shaped(c1, at, ts1, outs, a, b) && Shaped(c2, at + |c1|, ts2, outs, b, d) && |c1| <= k < |c1| + |c2|
    ensures Fine(c1 + c2, at, ts1[..|c1|] + ts2, outs, k)
  {
    hide Fine;
    var ts, n := ts1[..|c1|] + ts2, |c1|;
    assert Fine(c2, at + n, ts2, outs, k - n);
    assert ts[n..n + |ts2|] == ts2 && (c1 + c2)[n..n + |c2|] == c2;
    FineMoved(c2, at + n, ts2, outs, c1 + c2, at, ts, n, k - n);
  }

  lemma FineMoved(c: Code, at: nat, ts: Shapes, outs: map<int, Shape>, c': Code, at': nat, ts': Shapes, d: nat, k: nat)
    requires |ts| == |c| + 1 && k < |c| && Fine(c, at, ts, outs, k)
    requires |ts'| == |c'| + 1 && d + |c| <= |c'| && at == at' + d && c'[d..d + |c|] == c && ts'[d..d + |ts|] == ts
    ensures Fine(c', at', ts', outs, d + k)
  {
    hide Rise, SetsHead, AppendsChar, After, Taken, Returns, Knows;
    assert c'[d + k] == c[k] && ts'[d + k] == ts[k];
    if ts[k].Some? {
      var w := Width(c[k].op);
      assert ts'[d + k + w] == ts[k + w];
      if IsJump(c[k].op) {
        assert c'[d + k + 1] == c[k + 1];
        var n := c[k + 1].n;
        if at <= n < at + |ts| {
          assert ts'[n - at'] == ts[n - at];
        }
      }
    }
  }

  /** Code may be given more ways out than it uses. */
  lemma MoreOuts(c: Code, at: nat, ts: Shapes, outs: map<int, Shape>, more: map<int, Shape>, a: Shape, b: Shape)
    requires Shaped(c, at, ts, outs, a, b) && forall n :: n in outs ==> n in more && more[n] == outs[n]
    ensures Shaped(c, at, ts, more, a, b)
  {
    forall k | 0 <= k < |c| ensures Fine(c, at, ts, more, k) {
      assert Fine(c, at, ts, outs, k);
    }
  }

  /** A way out that leads to an instruction of the code itself is none. */
  lemma ComesBack(c: Code, at: nat, ts: Shapes, outs: map<int, Shape>, fewer: map<int, Shape>, a: Shape, b: Shape)
    requires Shaped(c, at, ts, outs, a, b)
    requires forall n :: n in outs ==>
      || (n in fewer && fewer[n] == outs[n])
      || (at <= n < at + |ts| && ts[n - at] == Some(outs[n]))
    ensures Shaped(c, at, ts, fewer, a, b)
  {
    forall k | 0 <= k < |c| ensures Fine(c, at, ts, fewer, k) {
      assert Fine(c, at, ts, outs, k);
    }
  }

  function Blank(n: nat): Shapes {
    seq(n, i => None)
  }

  /** One instruction that is no jump. */
  lemma Plain(c: Code, at: nat, a: Shape, b: Shape) returns (ts: Shapes)
    requires c != [] && c[0].Op? && !c[0].op.INVALID? && |c| == Width(c[0].op) && !IsJump(c[0].op)
    requires AppendsChar(c[0].op) ==> a.spare
    requires Returns(c[0].op) || Knows(Some(b), After(c[0].op, a))
    ensures Shaped(c, at, ts, map[], a, b) && ts == [Some(a)] + Blank(|c| - 1) + [Some(b)]
  {
    ts := [Some(a)] + Blank(|c| - 1) + [Some(b)];
    forall k | 0 <= k < |c| ensures Fine(c, at, ts, map[], k) {
    }
  }

  /** One jump. */
  lemma JumpShaped(op: OpCode, n: nat, at: nat, a: Shape, b: Shape) returns (ts: Shapes)
    requires IsJump(op) && (op.JMP? || Knows(Some(b), After(op, a)))
    ensures Shaped([Op(op), Num(n)], at, ts, map[n as int := Taken(op, a)], a, b) && ts == [Some(a), None, Some(b)]
  {
    ts := [Some(a), None, Some(b)];
    var c, outs := [Op(op), Num(n)], map[n as int := Taken(op, a)];
    forall k | 0 <= k < |c| ensures Fine(c, at, ts, outs, k) {
    }
  }

  // ----- the shape of expressions -----

  /** Shaped code between two heights of the string stack. */
  predicate Held(c: Code, at: nat, ts: Shapes, outs: map<int, Shape>, a: Shape, b: Shape, lo: int, hi: int) {
    Shaped(c, at, ts, outs, a, b) && StringsWithin(ts, lo, hi)
  }

  lemma Wider(c: Code, at: nat, ts: Shapes, a: Shape, b: Shape, lo: int, hi: int, outs: map<int, Shape>, lo': int,
      hi': int)
    requires Held(c, at, ts, map[], a, b, lo, hi) && lo' <= lo && hi <= hi'
    ensures Held(c, at, ts, outs, a, b, lo', hi')
  {
    hide Shaped;
    MoreOuts(c, at, ts, map[], outs, a, b);
  }

  lemma Followed(c1: Code, c2: Code, at: nat, ts1: Shapes, ts2: Shapes, outs: map<int, Shape>, a: Shape, b: Shape,
      d: Shape, lo: int, hi: int)
    returns (ts: Shapes)
    requires Held(c1, at, ts1, outs, a, b, lo, hi) && Held(c2, at + |c1|, ts2, outs, b, d, lo, hi)
    ensures Held(c1 + c2, at, ts, outs, a, d, lo, hi)
  {
    hide Held;
    ts := FollowedIn(c1, c2, at, ts1, ts2, outs, a, b, d, lo, hi);
  }

  /** The same, with where the parts' shapes are found in those of the whole. */
  lemma FollowedIn(c1: Code, c2: Code, at: nat, ts1: Shapes, ts2: Shapes, outs: map<int, Shape>, a: Shape, b: Shape,
      d: Shape, lo: int, hi: int)
    returns (ts: Shapes)
    requires Held(c1, at, ts1, outs, a, b, lo, hi) && Held(c2, at + |c1|, ts2, outs, b, d, lo, hi)
    ensures Held(c1 + c2, at, ts, outs, a, d, lo, hi) && |ts1| == |c1| + 1 && |ts2| == |c2| + 1
    ensures |ts| == |c1| + |ts2| && ts[..|ts1|] == ts1 && ts[|c1|..] == ts2
  {
    ts := InSequence(c1, c2, at, ts1, ts2, outs, a, b, d);
    hide Fine;
    assert forall j :: 0 <= j < |ts1| ==> ts[j] == ts1[j];
  }

  lemma PlainHeld(c: Code, at: nat, a: Shape, b: Shape, outs: map<int, Shape>, lo: int, hi: int) returns (ts: Shapes)
    requires c != [] && c[0].Op? && !c[0].op.INVALID? && |c| == Width(c[0].op) && !IsJump(c[0].op)
    requires AppendsChar(c[0].op) ==> a.spare
    requires Returns(c[0].op) || Knows(Some(b), After(c[0].op, a))
    requires lo <= a.h.s <= hi && lo <= b.h.s <= hi
    ensures Held(c, at, ts, outs, a, b, lo, hi)
  {
    ts := Plain(c, at, a, b);
    hide Shaped, Knows, After;
    MoreOuts(c, at, ts, map[], outs, a, b);
  }

  /** A one-word instruction that takes `a` to `b`. */
  predicate Steps(op: OpCode, a: Shape, b: Shape) {
    && !op.INVALID? && Width(op) == 1 && !IsJump(op) && !Returns(op)
    && (AppendsChar(op) ==> a.spare) && Knows(Some(b), After(op, a))
  }

  lemma OneHeld(op: OpCode, at: nat, a: Shape, b: Shape, lo: int, hi: int) returns (ts: Shapes)
    requires Steps(op, a, b) && lo <= a.h.s <= hi && lo <= b.h.s <= hi
    ensures Held([Op(op)], at, ts, map[], a, b, lo, hi)
  {
    ts := PlainHeld([Op(op)], at, a, b, map[], lo, hi);
  }

  lemma JumpHeld(op: OpCode, n: nat, at: nat, a: Shape, b: Shape, outs: map<int, Shape>, lo: int, hi: int)
      returns (ts: Shapes)
    requires IsJump(op) && (op.JMP? || Knows(Some(b), After(op, a)))
    requires n in outs && outs[n] == Taken(op, a) && lo <= a.h.s <= hi && lo <= b.h.s <= hi
    ensures Held([Op(op), Num(n)], at, ts, outs, a, b, lo, hi)
  {
    ts := JumpShaped(op, n, at, a, b);
    hide Shaped, Knows, After;
    MoreOuts([Op(op), Num(n)], at, ts, map[n as int := Taken(op, a)], outs, a, b);
  }

  lemma NoCode(at: nat, a: Shape, outs: map<int, Shape>, lo: int, hi: int) returns (ts: Shapes)
    requires lo <= a.h.s <= hi
    ensures Held([], at, ts, outs, a, a, lo, hi)
  {
    ts := [Some(a)];
  }

  /** In front of and behind the code of a node that leaves a `t`. */
  function Exit(t: TypeReq, a: Shape): Shape {
    Shape(a.h.Plus(ResultHeight(t)), a.spare || t == ReqString)
  }

  lemma ExitLevel(t: TypeReq, a: Shape)
    ensures Exit(t, a).h.s == a.h.s
  {
  }

  /** What lies on the stacks at the address compiling the node returns; None if it returns the one handed down. */
  function Landing(e: Expr, t: TypeReq, h: Height): Option<Height>
    decreases e, 1
  {
    match e
    case Constant(_) => None
    case Assign(_, sub, rhs) =>
      var s := AssignType(rhs, t);
      var l := TargetLanding(sub, h.Plus(HeldHeight(s, sub)));
      if l.Some? then l else Landing(rhs, s, h)
    case _ => Some(h.Plus(ResultHeight(t)))
  }

  /** The same for the code that selects a variable. */
  function TargetLanding(sub: OptExpr, h: Height): Option<Height>
    decreases sub, 0
  {
    if sub.Present? then Landing(sub.e, ReqString, h.Plus(ONE_STRING)) else None
  }

  /** What an assignment holds on the stacks while it selects its variable. */
  function HeldHeight(s: TypeReq, sub: OptExpr): Height {
    if s == ReqString && sub.Present? then ONE_STRING else ResultHeight(s)
  }

  predicate Lands(g: Gen, at: nat, ip: nat, ts: Shapes, l: Option<Height>) {
    if l.None? then g.ip == ip
    else at <= g.ip <= at + |g.code| < at + |ts| && ts[g.ip - at].Some? && ts[g.ip - at].value.h == l.value
  }

  lemma MaxHolds(a: Room, b: Room)
    ensures a.s <= a.Max(b).s && b.s <= a.Max(b).s
  {
  }

  lemma ConversionHeld(src: TypeReq, t: TypeReq, at: nat, a: Shape, outs: map<int, Shape>, hi: int) returns (ts: Shapes)
    requires src in {ReqUInt, ReqFloat, ReqString} && t != ReqVar && a.h.s <= hi
    ensures Held(Conversion(src, t), at, ts, outs, Exit(src, a), Exit(t, a), a.h.s, hi)
  {
    if src == t {
      ts := NoCode(at, Exit(src, a), outs, a.h.s, hi);
    } else {
      ts := PlainHeld(Conversion(src, t), at, Exit(src, a), Exit(t, a), outs, a.h.s, hi);
    }
  }

  lemma EndsThere(c: Code, at: nat, ts: Shapes, outs: map<int, Shape>, a: Shape, b: Shape, lo: int, hi: int)
    requires Held(c, at, ts, outs, a, b, lo, hi)
    ensures |ts| == |c| + 1 && ts[|c|] == Some(b) && ts[0] == Some(a) && lo <= a.h.s <= hi && lo <= b.h.s <= hi
  {
    hide Fine;
  }
}
