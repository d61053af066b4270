/** The code of every served statement is shaped too: between statements the stacks are as they were. */
module ShapedStmts {
  import opened Values
  import opened Ast
  import opened CodeGen
  import opened Machine
  import opened Semantics
  import opened StmtSemantics
  import opened Runs
  import opened CodeShapes
  import opened ShapedExprs

  /** Every way out is taken with the stacks as `a` says. */
  predicate AllAs(outs: map<int, Shape>, a: Shape) {
    forall n :: n in outs ==> outs[n] == a
  }

  lemma {:induction false} BlockShaped(ar: Arith, b: Block, at: nat, ip: nat, ctx: LoopTargets, a: Shape,
      outs: map<int, Shape>, hi: int)
    returns (ts: Shapes)
    requires FitsBlock(b) && a.h.s + PeakBlock(b).s <= hi && AllAs(outs, a)
    requires ctx.InLoop? ==> ctx.breakAt in outs && ctx.continueAt in outs
    ensures Held(GenBlock(ar, b, at, ip, ctx), at, ts, outs, a, a, a.h.s, hi)
    decreases b, 0
  {
    hide Held, GenStmt, FitsStmt, PeakStmt, Room.Max;
    match b
    case End => ts := NoCode(at, a, outs, a.h.s, hi);
    case Then(st, rest) =>
      MaxHolds(PeakStmt(st), PeakBlock(rest));
      var g := GenStmt(ar, st, at, ip, ctx);
      var ts0 := StmtShaped(ar, st, at, ip, ctx, a, outs, hi);
      var ts1 := BlockShaped(ar, rest, at + |g.code|, g.ip, ctx, a, outs, hi);
      ts := Followed(g.code, GenBlock(ar, rest, at + |g.code|, g.ip, ctx), at, ts0, ts1, outs, a, a, a, a.h.s, hi);
  }

  /** An expression evaluated for its effect. */
  lemma EffectShaped(ar: Arith, e: Expr, at: nat, ip: nat, a: Shape, outs: map<int, Shape>, hi: int)
      returns (ts: Shapes)
    requires Fits(e, ReqNone) && a.h.s + Peak(e, ReqNone).s <= hi
    ensures Held(GenExpr(ar, e, ReqNone, at, ip).code, at, ts, outs, a, a, a.h.s, hi)
  {
    hide Held, GenExpr, Fits, Peak, Lands, Landing, Exit;
    NoExit(a);
    ts := ExprShaped(ar, e, ReqNone, at, ip, a);
    Wider(GenExpr(ar, e, ReqNone, at, ip).code, at, ts, a, a, a.h.s, a.h.s + Peak(e, ReqNone).s, outs, a.h.s, hi);
  }

  lemma ValueShaped(ar: Arith, e: Expr, t: TypeReq, at: nat, ip: nat, a: Shape, outs: map<int, Shape>, hi: int)
      returns (ts: Shapes)
    requires Fits(e, t) && a.h.s + Peak(e, t).s <= hi
    ensures Held(GenExpr(ar, e, t, at, ip).code, at, ts, outs, a, Exit(t, a), a.h.s, hi)
  {
    hide Held, GenExpr, Fits, Peak, Lands, Landing, Exit;
    ts := ExprShaped(ar, e, t, at, ip, a);
    Wider(GenExpr(ar, e, t, at, ip).code, at, ts, a, Exit(t, a), a.h.s, a.h.s + Peak(e, t).s, outs, a.h.s, hi);
  }

  lemma {:induction false} StmtShaped(ar: Arith, st: Stmt, at: nat, ip: nat, ctx: LoopTargets, a: Shape,
      outs: map<int, Shape>, hi: int)
    returns (ts: Shapes)
    requires FitsStmt(st) && a.h.s + PeakStmt(st).s <= hi && AllAs(outs, a)
    requires ctx.InLoop? ==> ctx.breakAt in outs && ctx.continueAt in outs
    ensures Held(GenStmt(ar, st, at, ip, ctx).code, at, ts, outs, a, a, a.h.s, hi)
    decreases st, 2
  {
    hide Held, GenExpr, Fits, Peak, GenIf, GenLoop, Room.Max, FitsBlock, PeakBlock, FitsOptional, PeakOptional;
    match st
    case ExprStmt(e) => ts := EffectShaped(ar, e, at, ip, a, outs, hi);
    case Break | Continue => ts := LeaveShaped(ar, st, at, ip, ctx, a, outs, hi);
    case Return(Absent) => ts := ReturnHeld(RETURN_VOID, at, a, a, outs, a.h.s, hi);
    case Return(Present(e)) => ts := GiveShaped(ar, e, at, ip, a, outs, hi);
    case If(_, _, _) => ts := IfShaped(ar, st, at, ip, ctx, a, outs, hi);
    case Loop(_, _, _, _, _) => ts := LoopShaped(ar, st, at, ip, a, outs, hi);
  }

  lemma LeaveShaped(ar: Arith, st: Stmt, at: nat, ip: nat, ctx: LoopTargets, a: Shape, outs: map<int, Shape>, hi: int)
      returns (ts: Shapes)
    requires (st.Break? || st.Continue?) && AllAs(outs, a) && a.h.s <= hi
    requires ctx.InLoop? ==> ctx.breakAt in outs && ctx.continueAt in outs
    ensures Held(GenStmt(ar, st, at, ip, ctx).code, at, ts, outs, a, a, a.h.s, hi)
  {
    hide Held;
    if ctx.NoLoop? {
      ts := NoCode(at, a, outs, a.h.s, hi);
    } else {
      ts := GoHeld(if st.Break? then ctx.breakAt else ctx.continueAt, at, a, a, outs, a.h.s, hi);
    }
  }

  lemma GoHeld(n: nat, at: nat, a: Shape, b: Shape, outs: map<int, Shape>, lo: int, hi: int) returns (ts: Shapes)
    requires n in outs && outs[n] == a && lo <= a.h.s <= hi && lo <= b.h.s <= hi
    ensures Held([Op(JMP), Num(n)], at, ts, outs, a, b, lo, hi)
  {
    hide Held;
    ts := JumpHeld(JMP, n, at, a, b, outs, lo, hi);
  }

  lemma ReturnHeld(op: OpCode, at: nat, a: Shape, b: Shape, outs: map<int, Shape>, lo: int, hi: int)
      returns (ts: Shapes)
    requires (op.RETURN? || op.RETURN_VOID? || op.RETURN_FLT? || op.RETURN_UINT?) && lo <= a.h.s <= hi
        && lo <= b.h.s <= hi
    ensures Held([Op(op)], at, ts, outs, a, b, lo, hi)
  {
    hide Held;
    ts := PlainHeld([Op(op)], at, a, b, outs, lo, hi);
  }

  lemma GiveShaped(ar: Arith, e: Expr, at: nat, ip: nat, a: Shape, outs: map<int, Shape>, hi: int) returns (ts: Shapes)
    requires Fits(e, ReturnType(e)) && a.h.s + Peak(e, ReturnType(e)).s <= hi
    ensures Held(GenExpr(ar, e, ReturnType(e), at, ip).code + [Op(ReturnOp(ReturnType(e)))], at, ts, outs, a, a,
        a.h.s, hi)
  {
    hide Held, GenExpr, Fits, Peak, ReturnType, Exit;
    var t := ReturnType(e);
    var c := GenExpr(ar, e, t, at, ip).code;
    ExitLevel(t, a);
    var ts0 := ValueShaped(ar, e, t, at, ip, a, outs, hi);
    var ts1 := ReturnHeld(ReturnOp(t), at + |c|, Exit(t, a), a, outs, a.h.s, hi);
    ts := Followed(c, [Op(ReturnOp(t))], at, ts0, ts1, outs, a, Exit(t, a), a, a.h.s, hi);
  }

  /** A test and the jump behind it. */
  lemma TestShaped(ar: Arith, test: Expr, when: bool, target: nat, at: nat, ip: nat, a: Shape, outs: map<int, Shape>,
      hi: int)
    returns (ts: Shapes)
    requires Fits(test, TestType(test)) && a.h.s + Peak(test, TestType(test)).s <= hi && target in outs
        && outs[target] == a
    ensures var t := TestType(test);
      Held(GenExpr(ar, test, t, at, ip).code + [Op(if when then JumpWhen(t) else JumpUnless(t)), Num(target)], at, ts,
          outs, a, a, a.h.s, hi)
  {
    hide Held, GenExpr, Fits, Peak, TestType, Exit, Knows, After, Taken;
    var t := TestType(test);
    var c, op := GenExpr(ar, test, t, at, ip).code, if when then JumpWhen(t) else JumpUnless(t);
    ExitLevel(t, a);
    TestPops(t, when, a);
    var ts0 := ValueShaped(ar, test, t, at, ip, a, outs, hi);
    var ts1 := JumpHeld(op, target, at + |c|, Exit(t, a), a, outs, a.h.s, hi);
    ts := Followed(c, [Op(op), Num(target)], at, ts0, ts1, outs, a, Exit(t, a), a, a.h.s, hi);
  }

  lemma TestPops(t: TypeReq, when: bool, a: Shape)
    requires t in {ReqUInt, ReqFloat}
    ensures var op := if when then JumpWhen(t) else JumpUnless(t);
      IsJump(op) && !op.JMP? && Knows(Some(a), After(op, Exit(t, a))) && Taken(op, Exit(t, a)) == a
  {
  }

  /** The addresses inside the code among the ways out are none. */
  lemma Inner(c: Code, at: nat, ts: Shapes, outs: map<int, Shape>, more: map<int, Shape>, a: Shape, lo: int, hi: int)
    requires Held(c, at, ts, more, a, a, lo, hi)
    requires forall n :: n in more ==>
        (n in outs && outs[n] == more[n]) || (at <= n < at + |ts| && ts[n - at] == Some(more[n]))
    ensures Held(c, at, ts, outs, a, a, lo, hi)
  {
    hide Fine;
    ComesBack(c, at, ts, more, outs, a, a);
  }

  lemma {:induction false} IfShaped(ar: Arith, st: Stmt, at: nat, ip: nat, ctx: LoopTargets, a: Shape,
      outs: map<int, Shape>, hi: int)
    returns (ts: Shapes)
    requires st.If? && FitsStmt(st) && a.h.s + PeakStmt(st).s <= hi && AllAs(outs, a)
    requires ctx.InLoop? ==> ctx.breakAt in outs && ctx.continueAt in outs
    ensures Held(GenIf(ar, st, at, ip, ctx), at, ts, outs, a, a, a.h.s, hi)
    decreases st, 1
  {
    hide Held, GenExpr, Fits, Peak, GenBlock, Room.Max, FitsBlock, PeakBlock, TestType;
    IfPeak(st);
    var lo, tt := a.h.s, TestType(st.test);
    var gt := GenExpr(ar, st.test, tt, at, ip);
    var thenAt := at + |gt.code| + 2;
    var ct := GenBlock(ar, st.thn, thenAt, gt.ip, ctx);
    if st.els.End? {
      var end := thenAt + |ct|;
      var more := outs[end as int := a];
      var test := gt.code + [Op(JumpUnless(tt)), Num(end)];
      var ts0 := TestShaped(ar, st.test, false, end, at, ip, a, more, hi);
      var ts1 := BlockShaped(ar, st.thn, thenAt, gt.ip, ctx, a, more, hi);
      ts := FollowedIn(test, ct, at, ts0, ts1, more, a, a, a, lo, hi);
      EndsThere(test + ct, at, ts, more, a, a, lo, hi);
      Inner(test + ct, at, ts, outs, more, a, lo, hi);
    } else {
      var elseAt := thenAt + |ct| + 2;
      var ce := GenBlock(ar, st.els, elseAt, gt.ip, ctx);
      var end := elseAt + |ce|;
      var more := outs[elseAt as int := a][end as int := a];
      var test, go := gt.code + [Op(JumpUnless(tt)), Num(elseAt)], [Op(JMP), Num(end)];
      var ts0 := TestShaped(ar, st.test, false, elseAt, at, ip, a, more, hi);
      var ts1 := BlockShaped(ar, st.thn, thenAt, gt.ip, ctx, a, more, hi);
      var ts2 := GoHeld(end, thenAt + |ct|, a, a, more, lo, hi);
      var ts3 := BlockShaped(ar, st.els, elseAt, gt.ip, ctx, a, more, hi);
      var u1 := Followed(test, ct, at, ts0, ts1, more, a, a, a, lo, hi);
      var u2 := Followed(test + ct, go, at, u1, ts2, more, a, a, a, lo, hi);
      ts := FollowedIn(test + ct + go, ce, at, u2, ts3, more, a, a, a, lo, hi);
      EndsThere(test + ct + go + ce, at, ts, more, a, a, lo, hi);
      EndsThere(ce, elseAt, ts3, more, a, a, lo, hi);
      assert ts[|test + ct + go|..][0] == Some(a);
      Inner(test + ct + go + ce, at, ts, outs, more, a, lo, hi);
    }
  }

  lemma IfPeak(st: Stmt)
    requires st.If?
    ensures var h := PeakStmt(st).s;
      Peak(st.test, TestType(st.test)).s <= h && PeakBlock(st.thn).s <= h && PeakBlock(st.els).s <= h
  {
    hide Peak, TestType, Room.Max;
    MaxHolds(Peak(st.test, TestType(st.test)).Max(PeakBlock(st.thn)), PeakBlock(st.els));
    MaxHolds(Peak(st.test, TestType(st.test)), PeakBlock(st.thn));
  }

  lemma LoopPeak(st: Stmt)
    requires st.Loop?
    ensures var h := PeakStmt(st).s;
      && PeakOptional(st.init).s <= h && Peak(st.test, TestType(st.test)).s <= h
      && PeakOptional(st.step).s <= h && PeakBlock(st.body).s <= h
  {
    hide Peak, TestType, Room.Max, PeakOptional;
    var i, t, s := PeakOptional(st.init), Peak(st.test, TestType(st.test)), PeakOptional(st.step);
    MaxHolds(i.Max(t).Max(s), PeakBlock(st.body));
    MaxHolds(i.Max(t), s);
    MaxHolds(i, t);
  }

  lemma OptionalShaped(ar: Arith, o: OptExpr, at: nat, ip: nat, a: Shape, outs: map<int, Shape>, hi: int)
      returns (ts: Shapes)
    requires FitsOptional(o) && a.h.s + PeakOptional(o).s <= hi
    ensures Held(GenOptional(ar, o, at, ip).code, at, ts, outs, a, a, a.h.s, hi)
  {
    hide Held, GenExpr, Fits, Peak;
    match o
    case Absent => ts := NoCode(at, a, outs, a.h.s, hi);
    case Present(e) => ts := EffectShaped(ar, e, at, ip, a, outs, hi);
  }

  lemma LoopHeadShaped(ar: Arith, st: Stmt, at: nat, ip: nat, breakAt: nat, a: Shape, outs: map<int, Shape>, hi: int)
      returns (ts: Shapes)
    requires st.Loop? && FitsStmt(st) && a.h.s + PeakStmt(st).s <= hi && breakAt in outs && outs[breakAt] == a
    ensures Held(GenLoopHead(ar, st, at, ip, breakAt).code, at, ts, outs, a, a, a.h.s, hi)
  {
    hide Held, GenExpr, Fits, Peak, GenOptional, TestType, FitsOptional, PeakOptional, FitsBlock, PeakBlock, Room.Max;
    LoopPeak(st);
    var gi := GenOptional(ar, st.init, at, ip);
    ts := OptionalShaped(ar, st.init, at, ip, a, outs, hi);
    if !st.isDo {
      var t := TestType(st.test);
      var test := GenExpr(ar, st.test, t, at + |gi.code|, gi.ip).code + [Op(JumpUnless(t)), Num(breakAt)];
      var ts1 := TestShaped(ar, st.test, false, breakAt, at + |gi.code|, gi.ip, a, outs, hi);
      ts := Followed(gi.code, test, at, ts, ts1, outs, a, a, a, a.h.s, hi);
      assert gi.code + test == GenLoopHead(ar, st, at, ip, breakAt).code;
    }
  }

  lemma LoopTailShaped(ar: Arith, st: Stmt, at: nat, ip: nat, bodyAt: nat, a: Shape, outs: map<int, Shape>, hi: int)
      returns (ts: Shapes)
    requires st.Loop? && FitsStmt(st) && a.h.s + PeakStmt(st).s <= hi && bodyAt in outs && outs[bodyAt] == a
    ensures Held(GenLoopTail(ar, st, at, ip, bodyAt).code, at, ts, outs, a, a, a.h.s, hi)
  {
    hide Held, GenExpr, Fits, Peak, GenOptional, TestType, FitsOptional, PeakOptional, FitsBlock, PeakBlock, Room.Max;
    LoopPeak(st);
    var gs := GenOptional(ar, st.step, at, ip);
    var t := TestType(st.test);
    var test := GenExpr(ar, st.test, t, at + |gs.code|, gs.ip).code + [Op(JumpWhen(t)), Num(bodyAt)];
    var ts0 := OptionalShaped(ar, st.step, at, ip, a, outs, hi);
    var ts1 := TestShaped(ar, st.test, true, bodyAt, at + |gs.code|, gs.ip, a, outs, hi);
    ts := Followed(gs.code, test, at, ts0, ts1, outs, a, a, a, a.h.s, hi);
    assert gs.code + test == GenLoopTail(ar, st, at, ip, bodyAt).code;
  }

  lemma {:induction false} LoopShaped(ar: Arith, st: Stmt, at: nat, ip: nat, a: Shape, outs: map<int, Shape>, hi: int)
      returns (ts: Shapes)
    requires st.Loop? && FitsStmt(st) && a.h.s + PeakStmt(st).s <= hi
    ensures Held(GenLoop(ar, st, at, ip), at, ts, outs, a, a, a.h.s, hi)
    decreases st, 1
  {
    hide Held, GenExpr, Fits, Peak, GenBlock, GenLoopHead, GenLoopTail, LayOut, PeakBlock, FitsBlock, PeakStmt;
    LoopPeak(st);
    var lo, l := a.h.s, LayOut(ar, st, at, ip);
    LoopLayout(ar, st, at, ip);
    var more := map[l.breakAt as int := a][l.continueAt as int := a][l.bodyAt as int := a];
    var head := GenLoopHead(ar, st, at, ip, l.breakAt).code;
    var body := GenBlock(ar, st.body, l.bodyAt, l.bodyIp, InLoop(l.breakAt, l.continueAt));
    var tail := GenLoopTail(ar, st, l.continueAt, l.bodyIp, l.bodyAt).code;
    var ts0 := LoopHeadShaped(ar, st, at, ip, l.breakAt, a, more, hi);
    var ts1 := BlockShaped(ar, st.body, l.bodyAt, l.bodyIp, InLoop(l.breakAt, l.continueAt), a, more, hi);
    var ts2 := LoopTailShaped(ar, st, l.continueAt, l.bodyIp, l.bodyAt, a, more, hi);
    var u := FollowedIn(head, body, at, ts0, ts1, more, a, a, a, lo, hi);
    ts := FollowedIn(head + body, tail, at, u, ts2, more, a, a, a, lo, hi);
    EndsThere(head + body + tail, at, ts, more, a, a, lo, hi);
    EndsThere(body, l.bodyAt, ts1, more, a, a, lo, hi);
    EndsThere(tail, l.continueAt, ts2, more, a, a, lo, hi);
    LoopPlaces(ts, u, ts1, ts2, |head|, |body|, a);
    Inner(head + body + tail, at, ts, map[], more, a, lo, hi);
    Wider(head + body + tail, at, ts, a, a, lo, hi, outs, lo, hi);
  }

  lemma LoopPlaces(ts: Shapes, u: Shapes, ts1: Shapes, ts2: Shapes, h: nat, b: nat, a: Shape)
    requires |u| == h + |ts1| && u[h..] == ts1 && |ts1| == b + 1 && ts1[0] == Some(a)
    requires |u| <= |ts| == h + b + |ts2| && ts[..|u|] == u && ts[h + b..] == ts2 && |ts2| > 0 && ts2[0] == Some(a)
    ensures ts[h] == Some(a) && ts[h + b] == Some(a)
  {
    assert ts[h] == ts[..|u|][h] == u[h..][0];
    assert ts[h + b] == ts[h + b..][0];
  }
}
