/**
  Short-circuit operators before an operand that returns a stale address. The operator's jump leads to that
  address: before the operator itself, into its left operand, or into the middle of the right one, where
  the deciding int is taken for whatever lies on the stacks there. This module says, for every right
  operand, when the operator still does what it should.
 */
module ShortCircuits {
  import opened Values
  import opened Ast
  import opened CodeGen
  import opened Machine
  import opened Semantics
  import opened Runs
  import opened ExprCorrect
  import opened CodeShapes
  import opened ShapedExprs
  import opened InsideRuns

  predicate IsShortCircuit(e: Expr) {
    e.IntBinary? && (e.iop.LogicalOr? || e.iop.LogicalAnd?)
  }

  /** The left operand decides. */
  predicate Decides(ar: Arith, e: Expr, vars: Store)
    requires IsShortCircuit(e)
  {
    Holds(ar, Eval(ar, e.left, ReqUInt, vars).out) == e.iop.LogicalOr?
  }

  // ----- where the jump leads -----

  /** Compiling the node returns the address it was handed. */
  predicate HandsBack(e: Expr) {
    match e
    case Constant(_) => true
    case Assign(_, sub, rhs) => HandsBack(rhs) && (sub.Present? ==> HandsBack(sub.e))
    case _ => false
  }

  /**
    The address the node returns is one where exactly its own int lies on the stacks: its end, or, when it
    is an assignment of an int, perhaps through further ones, the end of the innermost right-hand side.
   */
  predicate Caught(e: Expr) {
    match e
    case Constant(_) => false
    case Assign(_, sub, rhs) => AssignType(rhs, ReqUInt) == ReqUInt && (sub.Present? ==> HandsBack(sub.e))
        && Caught(rhs)
    case _ => true
  }

  const ONE_INT := Height(1, 0, 0)

  lemma {:induction false} LandingNone(e: Expr, t: TypeReq, h: Height)
    ensures Landing(e, t, h).None? <==> HandsBack(e)
    decreases e
  {
    match e
    case Assign(_, sub, rhs) =>
      LandingNone(rhs, AssignType(rhs, t), h);
      if sub.Present? {
        LandingNone(sub.e, ReqString, h.Plus(HeldHeight(AssignType(rhs, t), sub)).Plus(ONE_STRING));
      }
    case _ =>
  }

  /** No address inside a node has fewer strings pending than its start. */
  lemma {:induction false} LandingAbove(e: Expr, t: TypeReq, h: Height)
    ensures Landing(e, t, h).Some? ==> Landing(e, t, h).value.s >= h.s
    decreases e
  {
    hide AssignType;
    match e
    case Assign(_, sub, rhs) =>
      LandingAbove(rhs, AssignType(rhs, t), h);
      if sub.Present? {
        LandingAbove(sub.e, ReqString, h.Plus(HeldHeight(AssignType(rhs, t), sub)).Plus(ONE_STRING));
      }
    case _ =>
  }

  /** Inside an index the name of the array is pending. */
  lemma IndexAbove(sub: OptExpr, h: Height)
    ensures TargetLanding(sub, h).Some? ==> TargetLanding(sub, h).value.s > h.s
  {
    hide Landing;
    if sub.Present? {
      LandingAbove(sub.e, ReqString, h.Plus(ONE_STRING));
    }
  }

  /** A node that moves a float or a string returns no address where just an int lies on the stacks. */
  lemma {:induction false} NoIntThere(e: Expr, s: TypeReq, h: Height)
    requires s in {ReqFloat, ReqString} && Preferred(e) in {s, ReqNone}
    ensures Landing(e, s, h) != Some(h.Plus(ONE_INT))
    decreases e
  {
    match e
    case Assign(_, sub, rhs) =>
      assert AssignType(rhs, s) == s;
      IndexAbove(sub, h.Plus(HeldHeight(s, sub)));
      NoIntThere(rhs, s, h);
    case _ =>
  }

  lemma {:induction false} CaughtThere(e: Expr, h: Height)
    ensures Landing(e, ReqUInt, h) == Some(h.Plus(ONE_INT)) <==> Caught(e)
    decreases e
  {
    match e
    case Assign(_, sub, rhs) =>
      var s := AssignType(rhs, ReqUInt);
      IndexAbove(sub, h.Plus(HeldHeight(s, sub)));
      if sub.Present? {
        LandingNone(sub.e, ReqString, h.Plus(HeldHeight(s, sub)).Plus(ONE_STRING));
      }
      if s == ReqUInt {
        CaughtThere(rhs, h);
      } else {
        NoIntThere(rhs, s, h);
      }
    case _ =>
  }

  lemma {:induction false} HandedBack(ar: Arith, e: Expr, t: TypeReq, at: nat, ip: nat)
    requires HandsBack(e)
    ensures GenExpr(ar, e, t, at, ip).ip == ip
    decreases e, 1
  {
    hide GenNode;
    if e.Assign? {
      AssignPlan(ar, e, t, at, ip);
      var s := AssignType(e.rhs, t);
      var gr := GenExpr(ar, e.rhs, s, at, ip);
      HandedBack(ar, e.rhs, s, at, ip);
      TargetHandedBack(ar, e.name, e.sub, at + |gr.code| + |Keep(s, e.sub)|, gr.ip);
    } else {
      ConstantHandsBack(ar, e, t, at, ip);
    }
  }

  lemma ConstantHandsBack(ar: Arith, e: Expr, t: TypeReq, at: nat, ip: nat)
    requires e.Constant?
    ensures GenNode(ar, e, t, at, ip).ip == ip
  {
  }

  lemma {:induction false} TargetHandedBack(ar: Arith, name: CString, sub: OptExpr, at: nat, ip: nat)
    requires sub.Present? ==> HandsBack(sub.e)
    ensures GenTarget(ar, name, sub, true, at, ip).ip == ip
    decreases sub, 0
  {
    hide GenExpr;
    if sub.Present? {
      HandedBack(ar, sub.e, ReqString, at + 4, ip);
    }
  }

  // ----- the deciding int in the middle of assignments -----

  /** The store after the int `v` was stored by all the assignments of the operand, the innermost first. */
  function Assigned(ar: Arith, e: Expr, v: int, vars: Store): Store {
    match e
    case Assign(name, sub, rhs) =>
      var n := Target(ar, name, sub, Assigned(ar, rhs, v, vars));
      Created(n.1, n.0)[n.0 := UnsignedValue(v)]
    case _ => vars
  }

  /** Started at the address the operand returns, with an int on top, its code stores that int everywhere. */
  lemma {:induction false} ChainRuns(p: Program, e: Expr, at: nat, ip: nat, m: nat, s: State, q: State, o: Out)
      returns (n: nat, q': State)
    requires Caught(e) && Fits(e, ReqUInt) && At(p, GenExpr(p.ar, e, ReqUInt, at, ip).code, at)
    requires Goes(p, m, s, q) && Delivers(s, q, ReqUInt, o) && HasRoom(s, Peak(e, ReqUInt))
    requires q.ip == GenExpr(p.ar, e, ReqUInt, at, ip).ip
    ensures var end := at + |GenExpr(p.ar, e, ReqUInt, at, ip).code|;
      && Travels(p, n, q, q', at, end) && q'.ip == end
      && Delivers(s, q', ReqUInt, o) && q'.vars == Assigned(p.ar, e, AsInt(o), q.vars)
    decreases e, 1
  {
    hide GenNode, FitsNode, PeakNode, Delivers, HasRoom, At, Run, Travels, Assigned;
    if e.Assign? {
      n, q' := ChainAssign(p, e, at, ip, m, s, q, o);
    } else {
      n, q' := 0, q;
      NoTravel(p, q, at, at + |GenExpr(p.ar, e, ReqUInt, at, ip).code|);
      NothingAssigned(p.ar, e, AsInt(o), q.vars);
    }
  }

  lemma NothingAssigned(ar: Arith, e: Expr, v: int, vars: Store)
    requires !e.Assign?
    ensures Assigned(ar, e, v, vars) == vars
  {
  }

  lemma {:induction false} ChainAssign(p: Program, e: Expr, at: nat, ip: nat, m: nat, s: State, q: State, o: Out)
      returns (n: nat, q': State)
    requires e.Assign? && Caught(e) && FitsNode(e, ReqUInt) && At(p, GenNode(p.ar, e, ReqUInt, at, ip).code, at)
    requires Goes(p, m, s, q) && Delivers(s, q, ReqUInt, o) && HasRoom(s, PeakNode(e, ReqUInt))
    requires q.ip == GenNode(p.ar, e, ReqUInt, at, ip).ip
    ensures var end := at + |GenNode(p.ar, e, ReqUInt, at, ip).code|;
      && Travels(p, n, q, q', at, end) && q'.ip == end
      && Delivers(s, q', ReqUInt, o) && q'.vars == Assigned(p.ar, e, AsInt(o), q.vars)
    decreases e, 0
  {
    hide GenExpr, GenNode, Fits, FitsIndex, Peak, PeakNode, Delivers, HasRoom, At, Run, Goes, GenTarget, PeakIndex,
         Travels, Arrives, Target, Created, Stored, Assigned, HandsBack, Selected, StacksKept;
    IntAssignPlan(p.ar, e, at, ip);
    IntAssignRoom(s, e);
    var gr := GenExpr(p.ar, e.rhs, ReqUInt, at, ip);
    var gt := GenTarget(p.ar, e.name, e.sub, true, at + |gr.code|, gr.ip);
    var save := [Op(SAVEVAR_UINT)];
    var end := at + |gr.code + gt.code + save|;
    AtSplit(p, gr.code + gt.code, save, at);
    AtSplit(p, gr.code, gt.code, at);
    var n1, q1 := ChainRuns(p, e.rhs, at, ip, m, s, q, o);
    TravelsWithin(p, n1, q, q1, at, at + |gr.code|, at, end);
    RoomLeft(s, q1, ReqUInt, o, PeakIndex(e.sub));
    var n2, q2 := TargetArrives(p, e.name, e.sub, true, gr.ip, q1);
    ArrivesTravels(p, n2, q1, q2, at, at + |gr.code| + |gt.code|, end);
    TravelsOn(p, n1, q, q1, n2, q2, at, end);
    StillDelivered(s, q1, q2, ReqUInt, o);
    IntSelected(p.ar, e, q1, q2, AsInt(o), q.vars);
    TravelsGoes(p, n1 + n2, q, q2, at, end);
    Join(p, m, s, q, n1 + n2, q2);
    q' := SaveRuns(p, ReqUInt, m + (n1 + n2), s, q2, o);
    IntStored(p.ar, s, q2, q', o);
    n := n1 + n2 + 1;
    GoesFrom(p, m, s, q, n, q');
    TravelsStep(p, n1 + n2, q, q2, q', at, end);
  }

  /** The code of an assignment of an int whose returned address lies in its right-hand side. */
  lemma IntAssignPlan(ar: Arith, e: Expr, at: nat, ip: nat)
    requires e.Assign? && Caught(e)
    ensures var gr := GenExpr(ar, e.rhs, ReqUInt, at, ip);
      var gt := GenTarget(ar, e.name, e.sub, true, at + |gr.code|, gr.ip);
      GenNode(ar, e, ReqUInt, at, ip) == Gen(gr.code + gt.code + [Op(SAVEVAR_UINT)], gr.ip)
  {
    hide GenExpr, GenNode, GenTarget, HandsBack;
    AssignPlan(ar, e, ReqUInt, at, ip);
    var gr := GenExpr(ar, e.rhs, ReqUInt, at, ip);
    var gt := GenTarget(ar, e.name, e.sub, true, at + |gr.code|, gr.ip);
    TargetHandedBack(ar, e.name, e.sub, at + |gr.code|, gr.ip);
    NoneBetween(gr.code, gt.code, [Op(SAVEVAR_UINT)]);
  }

  lemma NoneBetween(a: Code, b: Code, c: Code)
    ensures a + [] + b + [] + c + [] == a + b + c
  {
  }

  lemma IntAssignRoom(s: State, e: Expr)
    requires e.Assign? && AssignType(e.rhs, ReqUInt) == ReqUInt && HasRoom(s, PeakNode(e, ReqUInt))
    ensures HasRoom(s, Peak(e.rhs, ReqUInt)) && HasRoom(s, ResultRoom(ReqUInt).Plus(PeakIndex(e.sub)))
  {
    hide Peak, PeakIndex, HasRoom, Room.Max, Room.Plus;
    RoomForBoth(s, Peak(e.rhs, ReqUInt).Max(ResultRoom(ReqUInt).Plus(PeakIndex(e.sub))), ResultRoom(ReqUInt));
    RoomForBoth(s, Peak(e.rhs, ReqUInt), ResultRoom(ReqUInt).Plus(PeakIndex(e.sub)));
  }

  lemma IntSelected(ar: Arith, e: Expr, q1: State, q2: State, v: int, vars: Store)
    requires e.Assign? && q1.vars == Assigned(ar, e.rhs, v, vars)
    requires Selected(Target(ar, e.name, e.sub, q1.vars).1, Target(ar, e.name, e.sub, q1.vars).0, true, q2)
    ensures q2.cur.Some? && q2.vars[q2.cur.value := UnsignedValue(v)] == Assigned(ar, e, v, vars)
  {
    hide Target;
  }

  lemma IntStored(ar: Arith, s: State, q2: State, q': State, o: Out)
    requires Delivers(s, q2, ReqUInt, o) && q2.cur.Some? && q'.vars == q2.vars[q2.cur.value := Stored(ar, q2.vars, o)]
    ensures q'.vars == q2.vars[q2.cur.value := UnsignedValue(AsInt(o))]
  {
  }

  // ----- the shape of the whole operator, its jump apart -----

  function JumpWords(e: Expr, target: nat): Code
    requires IsShortCircuit(e)
  {
    [Op(if e.iop.LogicalOr? then JMPIF_NP else JMPIFNOT_NP), Num(target)]
  }

  /** Where the jump leads. */
  function JumpTarget(ar: Arith, e: Expr, at: nat, ip: nat): nat
    requires IsShortCircuit(e)
  {
    var gl := GenExpr(ar, e.left, ReqUInt, at, ip);
    GenExpr(ar, e.right, ReqUInt, at + |gl.code| + 2, gl.ip).ip
  }

  lemma OperatorPlan(ar: Arith, e: Expr, t: TypeReq, at: nat, ip: nat)
    requires IsShortCircuit(e)
    ensures var gl := GenExpr(ar, e.left, ReqUInt, at, ip);
      var gr := GenExpr(ar, e.right, ReqUInt, at + |gl.code| + 2, gl.ip);
      GenExpr(ar, e, t, at, ip).code == gl.code + JumpWords(e, gr.ip) + gr.code + Conversion(ReqUInt, t)
  {
    assert GenExpr(ar, e, t, at, ip) == GenNode(ar, e, t, at, ip);
    hide GenExpr;
  }

  /** What lies on the stacks where the jump leads; None if it leads to the address handed down. */
  function JumpLanding(e: Expr, h: Height): Option<Height>
    requires IsShortCircuit(e)
  {
    var r := Landing(e.right, ReqUInt, h);
    if r.Some? then r else Landing(e.left, ReqUInt, h)
  }

  lemma WholeShaped(ar: Arith, e: Expr, t: TypeReq, at: nat, ip: nat, a: Shape) returns (ts: Shapes)
    requires IsShortCircuit(e) && Fits(e.left, ReqUInt) && Fits(e.right, ReqUInt) && t != ReqVar
    ensures var c, j := GenExpr(ar, e, t, at, ip).code, JumpTarget(ar, e, at, ip);
      && Shaped(c, at, ts, map[j as int := Exit(ReqUInt, a)], a, Exit(t, a))
      && var l := JumpLanding(e, a.h);
      if l.None? then j == ip else at <= j < at + |ts| && ts[j - at].Some? && ts[j - at].value.h == l.value
  {
    hide GenExpr, Fits, Peak, Held, Landing, Shaped, Exit, Conversion, Lands;
    OperatorPlan(ar, e, t, at, ip);
    var gl := GenExpr(ar, e.left, ReqUInt, at, ip);
    var gr := GenExpr(ar, e.right, ReqUInt, at + |gl.code| + 2, gl.ip);
    var outs := map[gr.ip as int := Exit(ReqUInt, a)];
    var lo, hi := a.h.s, a.h.s + PeakNode(e, t).s;
    var u := UpToRight(ar, e, t, at, ip, a, outs);
    var both := gl.code + JumpWords(e, gr.ip) + gr.code;
    EndsThere(both, at, u, outs, a, Exit(ReqUInt, a), lo, hi);
    var v := ConversionHeld(ReqUInt, t, at + |both|, a, outs, hi);
    ts := FollowedIn(both, Conversion(ReqUInt, t), at, u, v, outs, a, Exit(ReqUInt, a), Exit(t, a), lo, hi);
    HeldShaped(both + Conversion(ReqUInt, t), at, ts, outs, a, Exit(t, a), lo, hi);
    JumpLands(gl, gr, both, at, ip, u, ts, Landing(e.left, ReqUInt, a.h), Landing(e.right, ReqUInt, a.h));
  }

  lemma HeldShaped(c: Code, at: nat, ts: Shapes, outs: map<int, Shape>, a: Shape, b: Shape, lo: int, hi: int)
    requires Held(c, at, ts, outs, a, b, lo, hi)
    ensures Shaped(c, at, ts, outs, a, b) && |ts| == |c| + 1
  {
    hide Fine;
  }

  lemma JumpLands(gl: Gen, gr: Gen, both: Code, at: nat, ip: nat, u: Shapes, ts: Shapes, l: Option<Height>,
      r: Option<Height>)
    requires |u| == |both| + 1 && |both| == |gl.code| + 2 + |gr.code| && |u| <= |ts| && ts[..|u|] == u
    requires Lands(gl, at, ip, u, l) && Lands(gr, at + |gl.code| + 2, gl.ip, u[|gl.code| + 2..], r)
    ensures var x := if r.Some? then r else l;
      if x.None? then gr.ip == ip
      else
        && at <= gr.ip < at + |ts| && ts[gr.ip - at].Some?
        && ts[gr.ip - at].value.h == x.value
  {
    if r.Some? {
      assert ts[gr.ip - at] == ts[..|u|][gr.ip - at] == u[|gl.code| + 2..][gr.ip - at - |gl.code| - 2];
    } else if l.Some? {
      assert ts[gl.ip - at] == ts[..|u|][gl.ip - at];
    }
  }

  // ----- stacks that are off stay off -----

  function Times(k: nat, d: Height): Height {
    if k == 0 then FLAT else Times(k - 1, d).Plus(d)
  }

  lemma {:induction false} TimesNonZero(k: nat, d: Height)
    requires k > 0 && d != FLAT
    ensures Times(k, d) != FLAT
    ensures (d.i > 0 ==> Times(k, d).i > 0) && (d.i < 0 ==> Times(k, d).i < 0)
    ensures (d.f > 0 ==> Times(k, d).f > 0) && (d.f < 0 ==> Times(k, d).f < 0)
    ensures (d.s > 0 ==> Times(k, d).s > 0) && (d.s < 0 ==> Times(k, d).s < 0)
  {
    if k > 1 {
      TimesNonZero(k - 1, d);
    }
  }

  /** Every time round through the jump the stacks are off by as much again. */
  lemma {:induction false} OffTravels(p: Program, c: Code, at: nat, ts: Shapes, j: nat, f: Shape, a: Shape, b: Shape,
      d: Height, k: nat, n: nat, r: State, r': State)
    returns (k': nat)
    requires At(p, c, at) && Shaped(c, at, ts, map[j as int := f], a, b) && |ts| == |c| + 1
    requires at <= j < at + |ts| && ts[j - at].Some? && f.h == ts[j - at].value.h.Plus(d)
    requires Stands(at, ts, Times(k, d), r) && Travels(p, n, r, r', at, at + |c|)
    ensures k' >= k && Stands(at, ts, Times(k', d), r')
    decreases n
  {
    hide Step, Shaped, At, Travels;
    if n == 0 {
      NoSteps(p, r, r', at, at + |c|);
      k' := k;
    } else {
      var r1 := FirstStep(p, n, r, r', at, at + |c|);
      StepStands(p, c, at, ts, map[j as int := f], a, b, Times(k, d), r, r1);
      if Stands(at, ts, Times(k, d), r1) {
        k' := OffTravels(p, c, at, ts, j, f, a, b, d, k, n - 1, r1, r');
      } else {
        Plusses(Times(k, d), d, ts[j - at].value.h);
        OnceMore(at, ts, j, f, d, k, r1);
        k' := OffTravels(p, c, at, ts, j, f, a, b, d, k + 1, n - 1, r1, r');
      }
    }
  }

  lemma OnceMore(at: nat, ts: Shapes, j: nat, f: Shape, d: Height, k: nat, r: State)
    requires at <= j < at + |ts| && ts[j - at].Some? && f.h == ts[j - at].value.h.Plus(d)
    requires r.ip == j && HeightOf(r) == Times(k, d).Plus(f.h)
    ensures Stands(at, ts, Times(k + 1, d), r)
  {
  }

  /** Stacks that are off where the jump leads are off at the end. */
  lemma OffAtEnd(p: Program, c: Code, ts: Shapes, j: nat, t: TypeReq, d: Height, s: State, r: State, n: nat, r': State)
    requires var a := Shape(HeightOf(s), false);
      At(p, c, s.ip) && Shaped(c, s.ip, ts, map[j as int := Exit(ReqUInt, a)], a, Exit(t, a)) && |ts| == |c| + 1
      && s.ip <= j < s.ip + |ts| && ts[j - s.ip].Some? && a.h.Plus(ONE_INT) == ts[j - s.ip].value.h.Plus(d)
    requires d != FLAT && r.ip == j && HeightOf(r) == HeightOf(s).Plus(ONE_INT)
    requires Travels(p, n, r, r', s.ip, s.ip + |c|) && r'.ip == s.ip + |c|
    ensures HeightOf(r') != HeightOf(s).Plus(ResultHeight(t))
  {
    hide Shaped, At, Travels;
    var a := Shape(HeightOf(s), false);
    assert Times(1, d) == FLAT.Plus(d);
    assert Stands(s.ip, ts, Times(1, d), r);
    var k := OffTravels(p, c, s.ip, ts, j, Exit(ReqUInt, a), a, Exit(t, a), d, 1, n, r, r');
    TimesNonZero(k, d);
    ShapedEnds(c, s.ip, ts, map[j as int := Exit(ReqUInt, a)], a, Exit(t, a));
  }

  lemma ShapedEnds(c: Code, at: nat, ts: Shapes, outs: map<int, Shape>, a: Shape, b: Shape)
    requires Shaped(c, at, ts, outs, a, b)
    ensures |ts| == |c| + 1 && ts[0] == Some(a) && ts[|c|] == Some(b)
  {
    hide Fine;
  }

  // ----- when the operator does what it should -----

  /** The deciding operand lands where it is taken for the right one, and storing it changes nothing. */
  predicate Harmless(ar: Arith, e: Expr, vars: Store)
    requires IsShortCircuit(e)
  {
    var el := Eval(ar, e.left, ReqUInt, vars);
    Caught(e.right) && Assigned(ar, e.right, AsInt(el.out), el.vars) == el.vars
  }

  lemma OperatorMeans(ar: Arith, e: Expr, t: TypeReq, vars: Store)
    requires IsShortCircuit(e)
    ensures var el := Eval(ar, e.left, ReqUInt, vars);
      var ef := if Decides(ar, e, vars) then el else Eval(ar, e.right, ReqUInt, el.vars);
      Eval(ar, e, t, vars) == Effect(Converted(ar, ef.out, t), ef.vars)
  {
    assert Eval(ar, e, t, vars) == EvalNode(ar, e, t, vars);
    hide Eval;
  }

  /** The taken jump. */
  lemma JumpTaken(p: Program, e: Expr, target: nat, s0: State, s: State, o: Out)
    requires IsShortCircuit(e) && Delivers(s0, s, ReqUInt, o) && Holds(p.ar, o) == e.iop.LogicalOr?
    requires At(p, JumpWords(e, target), s.ip)
    ensures Step(p, s) == Running(s.(ip := target)) && Delivers(s0, s.(ip := target), ReqUInt, o)
  {
    AtWord(p, JumpWords(e, target), s.ip, 0);
    AtWord(p, JumpWords(e, target), s.ip, 1);
  }

  /** What the parts of the operator's code hold. */
  ghost predicate Laid(p: Program, e: Expr, t: TypeReq, ip: nat, at: nat)
    requires IsShortCircuit(e)
  {
    var gl := GenExpr(p.ar, e.left, ReqUInt, at, ip);
    var right := at + |gl.code| + 2;
    var gr := GenExpr(p.ar, e.right, ReqUInt, right, gl.ip);
    && At(p, gl.code, at) && At(p, JumpWords(e, gr.ip), at + |gl.code|)
    && At(p, gr.code, right) && At(p, Conversion(ReqUInt, t), right + |gr.code|)
    && |GenExpr(p.ar, e, t, at, ip).code| == |gl.code| + 2 + |gr.code| + |Conversion(ReqUInt, t)|
  }

  lemma LaidOut(p: Program, e: Expr, t: TypeReq, ip: nat, at: nat)
    requires IsShortCircuit(e) && At(p, GenExpr(p.ar, e, t, at, ip).code, at)
    ensures Laid(p, e, t, ip, at)
  {
    hide GenExpr, At, Conversion;
    OperatorPlan(p.ar, e, t, at, ip);
    var gl := GenExpr(p.ar, e.left, ReqUInt, at, ip);
    var gr := GenExpr(p.ar, e.right, ReqUInt, at + |gl.code| + 2, gl.ip);
    var jump := JumpWords(e, gr.ip);
    AtSplit(p, gl.code + jump + gr.code, Conversion(ReqUInt, t), at);
    AtSplit(p, gl.code + jump, gr.code, at);
    AtSplit(p, gl.code, jump, at);
  }

  /** The last conversion, from wherever the int was delivered. */
  lemma ConvertsAtEnd(p: Program, e: Expr, t: TypeReq, ip: nat, n: nat, s: State, s3: State, o: Out)
      returns (n': nat, s': State)
    requires IsShortCircuit(e) && Laid(p, e, t, ip, s.ip) && t != ReqVar && HasRoom(s, ResultRoom(t))
    requires var end := s.ip + |GenExpr(p.ar, e, t, s.ip, ip).code|;
      Travels(p, n, s, s3, s.ip, end) && s3.ip == end - |Conversion(ReqUInt, t)| && Delivers(s, s3, ReqUInt, o)
    ensures Arrives(p, n', s, s', s.ip + |GenExpr(p.ar, e, t, s.ip, ip).code|)
    ensures s'.vars == s3.vars && Delivers(s, s', t, Converted(p.ar, o, t))
  {
    hide GenExpr, At, Delivers, Travels, Arrives, Converted, HasRoom, Run, Goes;
    var end := s.ip + |GenExpr(p.ar, e, t, s.ip, ip).code|;
    TravelsGoes(p, n, s, s3, s.ip, end);
    n', s' := ConversionRuns(p, ReqUInt, t, n, s, s3, o);
    if Conversion(ReqUInt, t) == [] {
      GoesThere(p, n, s, s3, s');
    } else {
      TravelsStep(p, n, s, s3, s', s.ip, end);
    }
    TravelsArrives(p, n', s, s', end);
  }

  lemma OperatorRoom(s: State, e: Expr, t: TypeReq)
    requires IsShortCircuit(e) && HasRoom(s, Peak(e, t))
    ensures HasRoom(s, Peak(e.left, ReqUInt)) && HasRoom(s, Peak(e.right, ReqUInt)) && HasRoom(s, ResultRoom(t))
  {
    assert Peak(e, t) == PeakNode(e, t);
    hide Peak, HasRoom, Room.Max;
    RoomForBoth(s, Peak(e.left, ReqUInt).Max(Peak(e.right, ReqUInt)), ResultRoom(t));
    RoomForBoth(s, Peak(e.left, ReqUInt), Peak(e.right, ReqUInt));
  }

  /** When the left operand does not decide, all is well. */
  lemma Undecided(p: Program, e: Expr, t: TypeReq, ip: nat, s: State, n1: nat, s1: State)
    requires IsShortCircuit(e) && Fits(e.right, ReqUInt) && t != ReqVar && Laid(p, e, t, ip, s.ip)
        && HasRoom(s, Peak(e, t))
    requires !Decides(p.ar, e, s.vars) && Arrives(p, n1, s, s1, s.ip + |GenExpr(p.ar, e.left, ReqUInt, s.ip, ip).code|)
    requires var el := Eval(p.ar, e.left, ReqUInt, s.vars); s1.vars == el.vars && Delivers(s, s1, ReqUInt, el.out)
    ensures RunsRight(p, e, t, ip, s)
  {
    hide GenExpr, At, Delivers, Travels, Arrives, Converted, HasRoom, Run, Goes, Eval, Fits, Peak, Conversion;
    var gl := GenExpr(p.ar, e.left, ReqUInt, s.ip, ip);
    var right := s.ip + |gl.code| + 2;
    var gr := GenExpr(p.ar, e.right, ReqUInt, right, gl.ip);
    var end := s.ip + |GenExpr(p.ar, e, t, s.ip, ip).code|;
    var el := Eval(p.ar, e.left, ReqUInt, s.vars);
    OperatorRoom(s, e, t);
    OperatorMeans(p.ar, e, t, s.vars);
    ArrivesTravels(p, n1, s, s1, s.ip, s.ip + |gl.code|, end);
    TravelsGoes(p, n1, s, s1, s.ip, end);
    var s2 := KeepingJumpRuns(p, e.iop.LogicalOr?, gr.ip, n1, s, s1, el.out);
    TravelsStep(p, n1, s, s1, s2, s.ip, end);
    NoRoomTaken(s, s2, Peak(e.right, ReqUInt));
    var n3, s3 := ExprArrives(p, e.right, ReqUInt, gl.ip, s2);
    var er := Eval(p.ar, e.right, ReqUInt, s2.vars);
    ArrivesTravels(p, n3, s2, s3, s.ip, right + |gr.code|, end);
    TravelsOn(p, n1 + 1, s, s2, n3, s3, s.ip, end);
    Compose(s, s2, s3, ReqUInt, er.out);
    var n, s' := ConvertsAtEnd(p, e, t, ip, n1 + 1 + n3, s, s3, er.out);
    assert Rightly(p, e, t, ip, s, n, s');
  }

  /**
    When it decides and lands among assignments of an int, they are all carried out with the deciding int,
    although they should have been skipped; the operator's own value is right.
   */
  lemma AssignStores(p: Program, e: Expr, t: TypeReq, ip: nat, s: State) returns (n: nat, s': State)
    requires IsShortCircuit(e) && Fits(e.left, ReqUInt) && Fits(e.right, ReqUInt) && t != ReqVar
    requires At(p, GenExpr(p.ar, e, t, s.ip, ip).code, s.ip) && HasRoom(s, Peak(e, t))
    requires Decides(p.ar, e, s.vars) && Caught(e.right)
    ensures Arrives(p, n, s, s', s.ip + |GenExpr(p.ar, e, t, s.ip, ip).code|)
    ensures Delivers(s, s', t, Eval(p.ar, e, t, s.vars).out)
    ensures var el := Eval(p.ar, e.left, ReqUInt, s.vars); s'.vars == Assigned(p.ar, e.right, AsInt(el.out), el.vars)
  {
    hide GenExpr, At, Delivers, Travels, Arrives, Converted, HasRoom, Run, Goes, Eval, Fits, Peak, Conversion,
         Assigned, Caught;
    LaidOut(p, e, t, ip, s.ip);
    OperatorRoom(s, e, t);
    OperatorMeans(p.ar, e, t, s.vars);
    var gl := GenExpr(p.ar, e.left, ReqUInt, s.ip, ip);
    var right := s.ip + |gl.code| + 2;
    var gr := GenExpr(p.ar, e.right, ReqUInt, right, gl.ip);
    var end := s.ip + |GenExpr(p.ar, e, t, s.ip, ip).code|;
    var el := Eval(p.ar, e.left, ReqUInt, s.vars);
    var n1, s1 := ExprArrives(p, e.left, ReqUInt, ip, s);
    ArrivesTravels(p, n1, s, s1, s.ip, s.ip + |gl.code|, end);
    TravelsGoes(p, n1, s, s1, s.ip, end);
    var s2 := KeepingJumpRuns(p, e.iop.LogicalOr?, gr.ip, n1, s, s1, el.out);
    TravelsStep(p, n1, s, s1, s2, s.ip, end);
    var n3, s3 := ChainRuns(p, e.right, right, gl.ip, n1 + 1, s, s2, el.out);
    TravelsWithin(p, n3, s2, s3, right, right + |gr.code|, s.ip, end);
    TravelsOn(p, n1 + 1, s, s2, n3, s3, s.ip, end);
    n, s' := ConvertsAtEnd(p, e, t, ip, n1 + 1 + n3, s, s3, el.out);
  }

  lemma DecidedCaught(p: Program, e: Expr, t: TypeReq, ip: nat, s: State)
    requires IsShortCircuit(e) && Fits(e.left, ReqUInt) && Fits(e.right, ReqUInt) && t != ReqVar
    requires At(p, GenExpr(p.ar, e, t, s.ip, ip).code, s.ip) && HasRoom(s, Peak(e, t))
    requires Decides(p.ar, e, s.vars) && Caught(e.right)
    ensures RunsRight(p, e, t, ip, s) <==> Harmless(p.ar, e, s.vars)
  {
    hide GenExpr, At, Delivers, Arrives, Converted, HasRoom, Eval, Fits, Peak, Assigned, Caught;
    var end := s.ip + |GenExpr(p.ar, e, t, s.ip, ip).code|;
    OperatorMeans(p.ar, e, t, s.vars);
    var n, s' := AssignStores(p, e, t, ip, s);
    if Harmless(p.ar, e, s.vars) {
      assert Rightly(p, e, t, ip, s, n, s');
    }
    forall m: nat, q: State | Rightly(p, e, t, ip, s, m, q) ensures Harmless(p.ar, e, s.vars) {
      ArrivesOnce(p, n, m, s, s', q, end);
    }
  }

  /** What arrives at the end arrives by way of the jump. */
  lemma PastJump(p: Program, n1: nat, s: State, s1: State, s2: State, jump: nat, n: nat, r: State, end: nat)
      returns (m: nat)
    requires Arrives(p, n1, s, s1, jump) && jump < end && Goes(p, n1 + 1, s, s2) && Arrives(p, n, s, r, end)
    ensures Travels(p, m, s2, r, s.ip, end)
  {
    hide Run, Arrives, Travels, Goes;
    ArrivesTravels(p, n, s, r, s.ip, end, end);
    TravelsGoes(p, n, s, r, s.ip, end);
    NotEarly(p, n1, s, s1, jump, n, r, end);
    m := n - (n1 + 1);
    assert n1 + 1 + m == n;
    TravelsBack(p, n1 + 1, s, s2, m, r, s.ip, end);
  }

  /** A jump back into the left operand with nothing but the deciding int there: round and round for ever. */
  lemma {:induction false} LoopsOn(p: Program, e: Expr, t: TypeReq, ip: nat, m: nat, s: State, q: State, o: Out,
      n: nat, r: State)
    requires IsShortCircuit(e) && Fits(e.left, ReqUInt) && Laid(p, e, t, ip, s.ip) && HasRoom(s, Peak(e.left, ReqUInt))
    requires HandsBack(e.right) && Caught(e.left) && Goes(p, m, s, q) && Delivers(s, q, ReqUInt, o)
    requires Holds(p.ar, o) == e.iop.LogicalOr? && q.ip == s.ip + |GenExpr(p.ar, e.left, ReqUInt, s.ip, ip).code|
    requires Travels(p, n, q, r, s.ip, s.ip + |GenExpr(p.ar, e, t, s.ip, ip).code|)
    ensures r.ip < s.ip + |GenExpr(p.ar, e, t, s.ip, ip).code|
    decreases n
  {
    hide GenExpr, At, Delivers, Travels, HasRoom, Run, Goes, Fits, Peak, Conversion, Assigned, Caught, HandsBack, Step;
    var gl := GenExpr(p.ar, e.left, ReqUInt, s.ip, ip);
    var gr := GenExpr(p.ar, e.right, ReqUInt, s.ip + |gl.code| + 2, gl.ip);
    var end := s.ip + |GenExpr(p.ar, e, t, s.ip, ip).code|;
    HandedBack(p.ar, e.right, ReqUInt, s.ip + |gl.code| + 2, gl.ip);
    if n == 0 {
      NoSteps(p, q, r, s.ip, end);
    } else {
      JumpTaken(p, e, gr.ip, s, q, o);
      var q1 := FirstStep(p, n, q, r, s.ip, end);
      Join(p, m, s, q, 1, q1);
      var n2, q2 := ChainRuns(p, e.left, s.ip, ip, m + 1, s, q1, o);
      if n - 1 < n2 {
        AmongFirst(p, n2, q1, q2, s.ip, s.ip + |gl.code|, n - 1, r, end);
      } else {
        TravelsGoes(p, n2, q1, q2, s.ip, s.ip + |gl.code|);
        TravelsBack(p, n2, q1, q2, n - 1 - n2, r, s.ip, end);
        Join(p, m + 1, s, q1, n2, q2);
        LoopsOn(p, e, t, ip, m + 1 + n2, s, q2, o, n - 1 - n2, r);
      }
    }
  }

  lemma AmongFirst(p: Program, n: nat, s: State, s': State, lo: nat, hi: nat, m: nat, r: State, end: nat)
    requires Travels(p, n, s, s', lo, hi) && m < n && Travels(p, m, s, r, lo, end)
    ensures r.ip < hi
  {
    hide Run;
  }

  /** A jump to an address before the operator leaves its code. */
  lemma LeavesCode(p: Program, s2: State, n: nat, r: State, lo: nat, end: nat)
    requires Travels(p, n, s2, r, lo, end) && s2.ip < lo <= end
    ensures r.ip < end
  {
    StartsIn(p, s2, n, r, lo, end);
    if n == 0 {
      NoSteps(p, s2, r, lo, end);
    }
  }

  /** How far the stacks are off where the jump leads. */
  function OffBy(e: Expr, h: Height): Height
    requires IsShortCircuit(e)
  {
    var l := if JumpLanding(e, h).Some? then JumpLanding(e, h).value else h;
    Height(h.i + 1 - l.i, h.f - l.f, h.s - l.s)
  }

  lemma OffOrCaught(e: Expr, h: Height)
    requires IsShortCircuit(e) && !Caught(e.right) && !(HandsBack(e.right) && Caught(e.left))
    ensures OffBy(e, h) != FLAT
  {
    hide Landing, Caught;
    LandingNone(e.right, ReqUInt, h);
    LandingNone(e.left, ReqUInt, h);
    CaughtThere(e.right, h);
    CaughtThere(e.left, h);
  }

  /** When it decides and lands elsewhere, what arrives, if anything, arrives with its stacks off. */
  lemma DecidedOff(p: Program, e: Expr, t: TypeReq, ip: nat, s: State, s2: State, m: nat, r: State)
    requires IsShortCircuit(e) && Fits(e.left, ReqUInt) && Fits(e.right, ReqUInt) && t != ReqVar && ip <= s.ip
    requires At(p, GenExpr(p.ar, e, t, s.ip, ip).code, s.ip)
    requires !Caught(e.right) && !(HandsBack(e.right) && Caught(e.left))
    requires s2.ip == JumpTarget(p.ar, e, s.ip, ip) && HeightOf(s2) == HeightOf(s).Plus(ONE_INT)
    requires Travels(p, m, s2, r, s.ip, s.ip + |GenExpr(p.ar, e, t, s.ip, ip).code|)
    ensures r.ip < s.ip + |GenExpr(p.ar, e, t, s.ip, ip).code| || r.ip > s.ip + |GenExpr(p.ar, e, t, s.ip, ip).code|
         || HeightOf(r) != HeightOf(s).Plus(ResultHeight(t))
  {
    hide GenExpr, At, Travels, Run, Fits, Caught, HandsBack, Shaped, Exit, Landing, JumpTarget;
    var c, a := GenExpr(p.ar, e, t, s.ip, ip).code, Shape(HeightOf(s), false);
    var ts := WholeShaped(p.ar, e, t, s.ip, ip, a);
    ShapedEnds(c, s.ip, ts, map[s2.ip as int := Exit(ReqUInt, a)], a, Exit(t, a));
    OffOrCaught(e, a.h);
    if JumpLanding(e, a.h).None? && ip < s.ip {
      LeavesCode(p, s2, m, r, s.ip, s.ip + |c|);
    } else if r.ip == s.ip + |c| {
      OffAtEnd(p, c, ts, s2.ip, t, OffBy(e, a.h), s, s2, m, r);
    }
  }

  /**
    For every short-circuit operator, whatever its right operand and whatever is wanted of it: its code does
    what the operator means exactly if the left operand does not decide, or if it lands among assignments
    of an int only and storing it in all their variables leaves the store as it is.
   */
  lemma ShortCircuitRight(p: Program, e: Expr, t: TypeReq, ip: nat, s: State)
    requires IsShortCircuit(e) && Fits(e.left, ReqUInt) && Fits(e.right, ReqUInt) && t != ReqVar && ip <= s.ip
    requires At(p, GenExpr(p.ar, e, t, s.ip, ip).code, s.ip) && HasRoom(s, Peak(e, t))
    ensures RunsRight(p, e, t, ip, s) <==> (Decides(p.ar, e, s.vars) ==> Harmless(p.ar, e, s.vars))
  {
    hide GenExpr, At, Delivers, Travels, Arrives, HasRoom, Run, Goes, Eval, Fits, Peak, Conversion, Caught, HandsBack,
         Laid, RunsRight, Harmless;
    LaidOut(p, e, t, ip, s.ip);
    LeftAt(p, e, t, ip, s.ip);
    OperatorRoom(s, e, t);
    var n1, s1 := ExprArrives(p, e.left, ReqUInt, ip, s);
    if !Decides(p.ar, e, s.vars) {
      Undecided(p, e, t, ip, s, n1, s1);
    } else if Caught(e.right) {
      DecidedCaught(p, e, t, ip, s);
    } else {
      DecidedAstray(p, e, t, ip, s, n1, s1);
      NotHarmless(p.ar, e, s.vars);
    }
  }

  lemma LeftAt(p: Program, e: Expr, t: TypeReq, ip: nat, at: nat)
    requires IsShortCircuit(e) && Laid(p, e, t, ip, at)
    ensures At(p, GenExpr(p.ar, e.left, ReqUInt, at, ip).code, at)
  {
    hide GenExpr, At;
  }

  lemma NotHarmless(ar: Arith, e: Expr, vars: Store)
    requires IsShortCircuit(e) && !Caught(e.right)
    ensures !Harmless(ar, e, vars)
  {
  }

  lemma DecidedAstray(p: Program, e: Expr, t: TypeReq, ip: nat, s: State, n1: nat, s1: State)
    requires IsShortCircuit(e) && Fits(e.left, ReqUInt) && Fits(e.right, ReqUInt) && t != ReqVar && ip <= s.ip
    requires At(p, GenExpr(p.ar, e, t, s.ip, ip).code, s.ip) && Laid(p, e, t, ip, s.ip)
        && HasRoom(s, Peak(e.left, ReqUInt))
    requires Decides(p.ar, e, s.vars) && Arrives(p, n1, s, s1, s.ip + |GenExpr(p.ar, e.left, ReqUInt, s.ip, ip).code|)
    requires var el := Eval(p.ar, e.left, ReqUInt, s.vars); s1.vars == el.vars && Delivers(s, s1, ReqUInt, el.out)
    requires !Caught(e.right)
    ensures !RunsRight(p, e, t, ip, s)
  {
    hide GenExpr, At, Delivers, Travels, Arrives, HasRoom, Run, Goes, Eval, Fits, Peak, Conversion, Caught, HandsBack,
         Step;
    var gl := GenExpr(p.ar, e.left, ReqUInt, s.ip, ip);
    var gr := GenExpr(p.ar, e.right, ReqUInt, s.ip + |gl.code| + 2, gl.ip);
    var jump, end := s.ip + |gl.code|, s.ip + |GenExpr(p.ar, e, t, s.ip, ip).code|;
    var o := Eval(p.ar, e.left, ReqUInt, s.vars).out;
    ArrivesTravels(p, n1, s, s1, s.ip, jump, jump);
    TravelsGoes(p, n1, s, s1, s.ip, jump);
    var s2 := s1.(ip := gr.ip);
    JumpTaken(p, e, gr.ip, s, s1, o);
    OneStep(p, n1, s, s1, s2);
    DeliversHeight(s, s2, ReqUInt, o);
    forall n: nat, r: State | Arrives(p, n, s, r, end) ensures HeightOf(r) != HeightOf(s).Plus(ResultHeight(t)) {
      var m := PastJump(p, n1, s, s1, s2, jump, n, r, end);
      ArrivesTravels(p, n, s, r, s.ip, end, end);
      if HandsBack(e.right) && Caught(e.left) {
        StepBefore(p, s1, s2, m, r, s.ip, end);
        LoopsOn(p, e, t, ip, n1, s, s1, o, m + 1, r);
      } else {
        DecidedOff(p, e, t, ip, s, s2, m, r);
      }
    }
    forall n: nat, r: State ensures !Rightly(p, e, t, ip, s, n, r) {
      OffNotRight(p, e, t, ip, s, n, r);
    }
  }

  lemma OffNotRight(p: Program, e: Expr, t: TypeReq, ip: nat, s: State, n: nat, r: State)
    requires Arrives(p, n, s, r, s.ip + |GenExpr(p.ar, e, t, s.ip, ip).code|)
        ==> HeightOf(r) != HeightOf(s).Plus(ResultHeight(t))
    ensures !Rightly(p, e, t, ip, s, n, r)
  {
    hide GenExpr, Eval, Arrives;
  }

  lemma StepBefore(p: Program, s1: State, s2: State, m: nat, r: State, lo: nat, hi: nat)
    requires Step(p, s1) == Running(s2) && lo <= s1.ip < hi && Travels(p, m, s2, r, lo, hi)
    ensures Travels(p, m + 1, s1, r, lo, hi)
  {
    OneIs(p, s1, s2, lo, hi);
    hide Step, Run;
    TravelsOn(p, 1, s1, s2, m, r, lo, hi);
    assert 1 + m == m + 1;
  }

  lemma OneIs(p: Program, s1: State, s2: State, lo: nat, hi: nat)
    requires Step(p, s1) == Running(s2) && lo <= s1.ip < hi
    ensures Travels(p, 1, s1, s2, lo, hi)
  {
    hide Step;
    assert Run(p, 1, Running(s1)) == Step(p, s1);
  }

  // ----- bare names and assignments as right operands -----

  /** Before a bare name the operator works exactly when its left operand does not decide. */
  lemma ShortCircuitConstant(p: Program, e: Expr, t: TypeReq, ip: nat, s: State)
    requires IsShortCircuit(e) && e.right.Constant? && Fits(e.left, ReqUInt) && t != ReqVar && ip <= s.ip
    requires At(p, GenExpr(p.ar, e, t, s.ip, ip).code, s.ip) && HasRoom(s, Peak(e, t))
    ensures RunsRight(p, e, t, ip, s) <==> !Decides(p.ar, e, s.vars)
  {
    hide GenExpr, At, HasRoom, Eval, Peak, RunsRight;
    ShortCircuitRight(p, e, t, ip, s);
  }

  /** The machine stays where it is for ever. */
  ghost predicate Hangs(p: Program, s: State) {
    forall n: nat :: Run(p, n, Running(s)) == Running(s)
  }

  lemma {:induction false} HangsForever(p: Program, s: State, n: nat)
    requires Step(p, s) == Running(s)
    ensures Run(p, n, Running(s)) == Running(s)
    decreases n
  {
    hide Step;
    if n > 0 {
      HangsForever(p, s, n - 1);
    }
  }

  /** When it does decide, and returns its own end, the jump leads to itself. */
  lemma ConstantHangs(p: Program, e: Expr, t: TypeReq, ip: nat, s: State) returns (n: nat, s': State)
    requires IsShortCircuit(e) && e.right.Constant? && !ReturnsStaleIp(e.left) && Fits(e.left, ReqUInt)
    requires At(p, GenExpr(p.ar, e, t, s.ip, ip).code, s.ip) && HasRoom(s, Peak(e, t)) && Decides(p.ar, e, s.vars)
    ensures Goes(p, n, s, s') && s'.ip < s.ip + |GenExpr(p.ar, e, t, s.ip, ip).code| && Hangs(p, s')
  {
    hide GenExpr, At, Delivers, Arrives, HasRoom, Run, Eval, Fits, Peak, Conversion, Step;
    LaidOut(p, e, t, ip, s.ip);
    OperatorRoom(s, e, t);
    n, s' := ExprArrives(p, e.left, ReqUInt, ip, s);
    var gl := GenExpr(p.ar, e.left, ReqUInt, s.ip, ip);
    ArrivesTravels(p, n, s, s', s.ip, s.ip + |gl.code|, s.ip + |gl.code|);
    HandedBack(p.ar, e.right, ReqUInt, s.ip + |gl.code| + 2, gl.ip);
    JumpTaken(p, e, gl.ip, s, s', Eval(p.ar, e.left, ReqUInt, s.vars).out);
    assert s'.(ip := gl.ip) == s';
    forall m: nat ensures Run(p, m, Running(s')) == Running(s') {
      HangsForever(p, s', m);
    }
  }

  /**
    Before an assignment - of an int, a float or a string, to a variable or an element, of another
    assignment or not - the operator works exactly when its left operand does not decide, or everything
    assigned on the way is assigned as an int, no index is entered, and every store is no change.
   */
  lemma ShortCircuitAssign(p: Program, e: Expr, t: TypeReq, ip: nat, s: State)
    requires IsShortCircuit(e) && e.right.Assign? && Fits(e.left, ReqUInt) && Fits(e.right, ReqUInt) && t != ReqVar
        && ip <= s.ip
    requires At(p, GenExpr(p.ar, e, t, s.ip, ip).code, s.ip) && HasRoom(s, Peak(e, t))
    ensures var el := Eval(p.ar, e.left, ReqUInt, s.vars);
      RunsRight(p, e, t, ip, s) <==>
      (Decides(p.ar, e, s.vars) ==> Caught(e.right) && Assigned(p.ar, e.right, AsInt(el.out), el.vars) == el.vars)
  {
    hide GenExpr, At, HasRoom, Eval, Peak, Fits, RunsRight, Caught, Assigned;
    ShortCircuitRight(p, e, t, ip, s);
  }

  /** The variables assigned one after the other by `x = y = ... = r`. */
  function Names(e: Expr): set<CString> {
    if e.Assign? then Names(e.rhs) + {e.name} else {}
  }

  predicate PlainTargets(e: Expr) {
    e.Assign? ==> e.sub.Absent? && PlainTargets(e.rhs)
  }

  lemma {:induction false} AssignedPlain(ar: Arith, e: Expr, v: int, vars: Store)
    requires PlainTargets(e)
    ensures var a := Assigned(ar, e, v, vars);
      && a.Keys == vars.Keys + Names(e)
      && forall x :: x in a ==> a[x] == if x in Names(e) then UnsignedValue(v) else vars[x]
  {
    if e.Assign? {
      AssignedPlain(ar, e.rhs, v, vars);
    }
  }

  /** Without elements, no change means that each of the variables held the deciding int already. */
  lemma AssignedNoChange(ar: Arith, e: Expr, v: int, vars: Store)
    requires PlainTargets(e)
    ensures Assigned(ar, e, v, vars) == vars <==> forall x :: x in Names(e) ==> x in vars && vars[x] == UnsignedValue(v)
  {
    AssignedPlain(ar, e, v, vars);
    var a := Assigned(ar, e, v, vars);
    if forall x :: x in Names(e) ==> x in vars && vars[x] == UnsignedValue(v) {
      assert a.Keys == vars.Keys;
    }
  }

  /**
    Before assignments of variables, not elements, the operator works exactly when its left operand does not
    decide, or each of the variables is assigned as an int and holds the deciding int already.
   */
  lemma ShortCircuitPlain(p: Program, e: Expr, t: TypeReq, ip: nat, s: State)
    requires IsShortCircuit(e) && e.right.Assign? && PlainTargets(e.right) && t != ReqVar && ip <= s.ip
    requires Fits(e.left, ReqUInt) && Fits(e.right, ReqUInt)
    requires At(p, GenExpr(p.ar, e, t, s.ip, ip).code, s.ip) && HasRoom(s, Peak(e, t))
    ensures var el := Eval(p.ar, e.left, ReqUInt, s.vars);
      RunsRight(p, e, t, ip, s) <==>
      (Decides(p.ar, e, s.vars) ==>
         Caught(e.right)
         && forall x :: x in Names(e.right) ==> x in el.vars && el.vars[x] == UnsignedValue(AsInt(el.out)))
  {
    hide GenExpr, At, HasRoom, Eval, Peak, Fits, RunsRight, Caught, Assigned, Names, PlainTargets;
    ShortCircuitAssign(p, e, t, ip, s);
    var el := Eval(p.ar, e.left, ReqUInt, s.vars);
    AssignedNoChange(p.ar, e.right, AsInt(el.out), el.vars);
  }
}
