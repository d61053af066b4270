/** A float-preferring `!` whose result is wanted as something other than an int. */
module Limits {
  import opened Values
  import opened Ast
  import opened CodeGen
  import opened Machine
  import opened Semantics
  import opened Runs
  import opened ExprCorrect
  import opened StmtSemantics
  import opened StmtCorrect
  import opened ProgramCorrect
  import opened InsideRuns

  /** What the conversion behind the `!` leaves: an int too many, unless it ends the call or sticks. */
  ghost predicate Spoils(t: TypeReq, s: State, cur: Option<CString>, end: nat, c: Config) {
    match t
    case ReqUInt => false
    case ReqFloat => c.Returned?
    case ReqVar =>
      if s.flts == [] || cur.None? then c.Stuck?
      else c.Running? && c.s.ip == end && |c.s.ints| == |s.ints| + 1 && c.s.flts == s.flts
    case _ =>
      if s.flts == [] then c.Stuck?
      else c.Running? && c.s.ip == end && |c.s.ints| == |s.ints| + 1 && c.s.flts == s.flts[..|s.flts| - 1]
  }

  /**
    The conversion after a float-preferring `!` starts from the type the operand had, not from the int
    the operator leaves: the int stays behind, and the conversion either takes, or stores, a float that
    belongs to someone else or, from float to float, is no instruction at all and ends the call.
   */
  lemma NegatedFloat(p: Program, e: Expr, t: TypeReq, ip: nat, s: State) returns (n: nat)
    requires e.IntUnary? && NegatesFloat(e.uop, e.operand) && t != ReqUInt
    requires Fits(e.operand, ReqFloat) && At(p, GenExpr(p.ar, e, t, s.ip, ip).code, s.ip)
    requires HasRoom(s, Peak(e.operand, ReqFloat)) && HasRoom(s, INT_SLOT)
    ensures var end := s.ip + |GenExpr(p.ar, e, t, s.ip, ip).code|;
      && Spoils(t, s, CurAfter(p.ar, e.operand, ReqFloat, s.vars, s.cur), end, Run(p, n, Running(s)))
      && forall m :: 0 <= m < n ==> Run(p, m, Running(s)).Running? && Run(p, m, Running(s)).s.ip < end
  {
    hide Eval, Fits, Peak, Goes, Execute, Step, Run, Delivers, At, HasRoom, GenExpr, CurAfter, Spoils, Travels, Arrives;
    var g := GenExpr(p.ar, e.operand, ReqFloat, s.ip, ip);
    NegatedFloatCode(p.ar, e, t, s.ip, ip);
    var conv := [Op(ConversionOp(ReqFloat, t))];
    var end := s.ip + |g.code| + 2;
    AtSplit(p, g.code + [Op(NOTF)], conv, s.ip);
    AtSplit(p, g.code, [Op(NOTF)], s.ip);
    var n1, s1 := ExprArrives(p, e.operand, ReqFloat, ip, s);
    var o := Eval(p.ar, e.operand, ReqFloat, s.vars).out;
    ArrivesTravels(p, n1, s, s1, s.ip, s.ip + |g.code|, end);
    TravelsGoes(p, n1, s, s1, s.ip, end);
    var s2 := UnaryOpRuns(p, e.uop, e.operand, n1, s, s1, o);
    TravelsStep(p, n1, s, s1, s2, s.ip, end);
    FinalTick(p, n1 + 1, s, s2, ConversionOp(ReqFloat, t));
    AfterNegation(p.ar, t, s, s2, IntValue(UnaryResult(p.ar, e.uop, o)));
    n := n1 + 2;
    UpToTravels(p, n1 + 1, s, s2, s.ip, end);
  }

  lemma UpToTravels(p: Program, n: nat, s: State, s': State, lo: nat, end: nat)
    requires Travels(p, n, s, s', lo, end) && s'.ip < end
    ensures forall m :: 0 <= m <= n ==> Run(p, m, Running(s)).Running? && Run(p, m, Running(s)).s.ip < end
  {
    hide Run;
  }

  lemma NegatedFloatCode(ar: Arith, e: Expr, t: TypeReq, at: nat, ip: nat)
    requires e.IntUnary? && NegatesFloat(e.uop, e.operand) && t != ReqUInt
    ensures GenExpr(ar, e, t, at, ip).code ==
            GenExpr(ar, e.operand, ReqFloat, at, ip).code + [Op(NOTF)] + [Op(ConversionOp(ReqFloat, t))]
  {
    assert GenExpr(ar, e, t, at, ip) == GenNode(ar, e, t, at, ip);
    hide GenExpr;
  }

  lemma AfterNegation(ar: Arith, t: TypeReq, s: State, s2: State, o: Out)
    requires Delivers(s, s2, ReqUInt, o) && t != ReqUInt
    ensures Spoils(t, s, s2.cur, s2.ip + 1, Execute(ar, ConversionOp(ReqFloat, t), Num(-1), s2.(ip := s2.ip + 1)))
  {
  }

  /** A float-preferring `!` does what it should exactly when its result is wanted as an int. */
  lemma NegatedFloatRight(p: Program, e: Expr, t: TypeReq, ip: nat, s: State)
    requires e.IntUnary? && NegatesFloat(e.uop, e.operand) && Fits(e.operand, ReqFloat)
    requires At(p, GenExpr(p.ar, e, t, s.ip, ip).code, s.ip) && HasRoom(s, Peak(e, t))
    ensures RunsRight(p, e, t, ip, s) <==> t == ReqUInt
  {
    hide Eval, Fits, Peak, Run, Delivers, At, HasRoom, GenExpr, Arrives, NegatesFloat, Spoils;
    if t == ReqUInt {
      NegationServed(e);
      var n, s' := ExprArrives(p, e, t, ip, s);
      assert Rightly(p, e, t, ip, s, n, s');
    } else {
      NegationRoom(s, e, t);
      var n := NegatedFloat(p, e, t, ip, s);
      forall m: nat, r: State ensures !Rightly(p, e, t, ip, s, m, r) {
        SpoiltNotRight(p, e, t, ip, s, n, m, r);
      }
    }
  }

  lemma NegationServed(e: Expr)
    requires e.IntUnary? && NegatesFloat(e.uop, e.operand) && Fits(e.operand, ReqFloat)
    ensures Fits(e, ReqUInt)
  {
    assert Fits(e, ReqUInt) == FitsNode(e, ReqUInt);
    hide Fits;
  }

  lemma NegationRoom(s: State, e: Expr, t: TypeReq)
    requires e.IntUnary? && NegatesFloat(e.uop, e.operand) && HasRoom(s, Peak(e, t))
    ensures HasRoom(s, Peak(e.operand, ReqFloat)) && HasRoom(s, INT_SLOT)
  {
    assert Peak(e, t) == PeakNode(e, t);
    hide Peak, HasRoom, Room.Max;
    RoomForBoth(s, Peak(e.operand, ReqFloat).Max(INT_SLOT), ResultRoom(t));
    RoomForBoth(s, Peak(e.operand, ReqFloat), INT_SLOT);
  }

  lemma SpoiltNotRight(p: Program, e: Expr, t: TypeReq, ip: nat, s: State, n: nat, m: nat, r: State)
    requires var end := s.ip + |GenExpr(p.ar, e, t, s.ip, ip).code|;
      && (exists cur :: Spoils(t, s, cur, end, Run(p, n, Running(s))))
      && forall k :: 0 <= k < n ==> Run(p, k, Running(s)).Running? && Run(p, k, Running(s)).s.ip < end
    ensures !Rightly(p, e, t, ip, s, m, r)
  {
    hide Eval, GenExpr, Run;
  }

  /** `!0.0` */
  function NotZero(): Expr {
    IntUnary(Not, FloatLit(F64(0)))
  }

  lemma NotZeroServed(vars: Store)
    ensures Fits(FloatLit(F64(0)), ReqFloat) && HasRoom(Start(vars), Peak(NotZero(), ReqNone))
    ensures NegatesFloat(Not, FloatLit(F64(0)))
  {
    var zero: Expr := FloatLit(F64(0));
    assert Fits(zero, ReqFloat) == FitsNode(zero, ReqFloat) && Peak(zero, ReqFloat) == PeakNode(zero, ReqFloat);
    assert Peak(NotZero(), ReqNone) == PeakNode(NotZero(), ReqNone);
  }

  /** The script `!0.0;` takes from an empty float stack. */
  lemma NotZeroSticks(ar: Arith, vars: Store) returns (n: nat)
    ensures Run(Compiled(ar, Alone(NotZero())), n, Running(Start(vars))).Stuck?
    ensures !RunsRight(Compiled(ar, Alone(NotZero())), NotZero(), ReqNone, 0, Start(vars))
  {
    hide GenExpr, GenBlock, Eval, CurAfter, Fits, Peak, HasRoom, At, Run, RunsRight, NegatesFloat;
    var p := Compiled(ar, Alone(NotZero()));
    NotZeroServed(vars);
    AloneAt(ar, NotZero());
    NegationRoom(Start(vars), NotZero(), ReqNone);
    n := NegatedFloat(p, NotZero(), ReqNone, 0, Start(vars));
    NegatedFloatRight(p, NotZero(), ReqNone, 0, Start(vars));
  }
}
