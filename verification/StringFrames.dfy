/** Frames on the string stack: what one finds on entry it leaves behind, and arguments survive each other. */
module StringFrames {
  import opened Values
  import opened StringStacks

  /** An operation that takes off nothing below the lowest `low` slots and `outer` frames. */
  predicate Within(op: Op, s: Stk, low: nat, outer: nat) {
    && Allowed(op, s, outer)
    && (op.DoRewind? || op.DoRewindTerminate? || op.DoCompare? ==> |s.slots| > low)
  }

  /** The operations, one after the other, lead from `s` to `t`. */
  ghost predicate Leads(ops: seq<Op>, s: Stk, low: nat, outer: nat, t: Stk) {
    && s.Sound()
    && (if ops == [] then t == s
        else Within(ops[0], s, low, outer) && Leads(ops[1..], Apply(ops[0], s), low, outer, t))
  }

  /** `t` holds everything `s` holds below its head, and whatever else it holds lies from there on. */
  ghost predicate Above(s: Stk, t: Stk) {
    && s.slots <= t.slots && s.frames <= t.frames
    && (forall i :: |s.frames| <= i < |t.frames| ==> t.frames[i] >= |s.slots|)
    && (forall i :: |s.slots| <= i < |t.slots| ==> t.slots[i].offset >= s.start)
    && s.start <= t.start
    && |s.buf| <= |t.buf|
    && (forall i :: 0 <= i < s.start && i < |s.buf| ==> t.buf[i] == s.buf[i])
  }

  lemma AboveTrans(r: Stk, s: Stk, t: Stk)
    requires Above(r, s) && Above(s, t)
    ensures Above(r, t)
  {
  }

  /** Setting the head writes from the head on. */
  lemma SetAbove(s: Stk, t: Stk, r: Result)
    requires Above(s, t)
    ensures Above(s, Set(t, r))
  {
    hide Grown, Written, CStr;
    var u := Set(t, r);
    match r {
      case StringResult(x) =>
        var b := Grown(t.buf, t.start + |x| + 2);
        forall i | 0 <= i < s.start && i < |s.buf| ensures u.buf[i] == s.buf[i] {
          assert u.buf[i] == u.buf[..t.start][i] == b[..t.start][i] == b[..|t.buf|][i] == t.buf[i];
        }
      case UnsignedResult(_) | NumberResult(_) =>
        forall i | 0 <= i < s.start && i < |s.buf| ensures u.buf[i] == s.buf[i] {
          assert u.buf[i] == u.buf[..|t.buf|][i] == t.buf[i];
        }
    }
  }

  lemma AdvanceCharAbove(s: Stk, t: Stk, c: char)
    requires Above(s, t) && t.start + t.len + 1 < |t.buf|
    ensures Above(s, t.AdvanceChar(c))
  {
  }

  lemma AdvanceAbove(s: Stk, t: Stk)
    requires Above(s, t)
    ensures Above(s, t.Advance())
  {
  }

  lemma RewindAbove(s: Stk, t: Stk)
    requires Above(s, t) && t.Wf() && |t.slots| > |s.slots| && |t.slots| > t.Floor() && t.start < |t.buf|
    ensures Above(s, t.Rewind()) && Above(s, t.RewindTerminate()) && Above(s, t.Compared())
  {
    hide CStr;
    assert t.slots[|t.slots| - 1].offset >= s.start;
  }

  lemma PushFrameAbove(s: Stk, t: Stk)
    requires Above(s, t)
    ensures Above(s, t.PushFrame())
  {
  }

  lemma PopFrameAbove(s: Stk, t: Stk)
    requires Above(s, t) && t.Wf() && |t.frames| > |s.frames|
    ensures t.frames[|t.frames| - 1] < |t.slots| && Above(s, t.PopFrame())
  {
    assert t.frames[|t.frames| - 1] >= |s.slots|;
  }

  /** No operation of the activity above `s` touches what `s` holds below its head. */
  lemma StaysAbove(s: Stk, op: Op, t: Stk)
    requires t.Sound() && Above(s, t) && Within(op, t, |s.slots|, |s.frames|)
    ensures Above(s, Apply(op, t))
  {
    hide CStr, Above, Set;
    match op {
      case DoSet(r) => SetAbove(s, t, r);
      case DoAdvance => AdvanceAbove(s, t);
      case DoAdvanceChar(c) => AdvanceCharAbove(s, t, c);
      case DoRewind | DoRewindTerminate | DoCompare => RewindAbove(s, t);
      case DoPushFrame => PushFrameAbove(s, t);
      case DoReturn(r) =>
        PopFrameAbove(s, t);
        SetAbove(s, t.PopFrame(), r);
    }
  }

  lemma {:induction false} LeadsAbove(s: Stk, ops: seq<Op>, t: Stk, u: Stk)
    requires Above(s, t) && Leads(ops, t, |s.slots|, |s.frames|, u)
    ensures Above(s, u) && u.Sound()
    decreases |ops|
  {
    hide Above, Apply, Stk.Wf, Stk.Settled;
    if ops != [] {
      StaysAbove(s, ops[0], t);
      LeadsAbove(s, ops[1..], Apply(ops[0], t), u);
    }
  }

  lemma AboveItself(s: Stk)
    ensures Above(s, s)
  {
  }

  // ----- a frame, from push to pop -----

  /** The buffer of `t` agrees with that of `s` below the space `s` leaves for a return value, and in it. */
  ghost predicate KeptBelow(s: Stk, t: Stk) {
    |s.buf| <= |t.buf| && forall i :: 0 <= i < |s.buf| && i < s.start + RETURN_SPACE ==> t.buf[i] == s.buf[i]
  }

  /** A scan depends only on the bytes up to its NUL. */
  lemma {:induction false} CStrSame(b: seq<char>, c: seq<char>, at: nat, n: nat)
    requires at + n < |b| && at + n < |c| && b[at + n] == '\0' && b[at..at + n + 1] == c[at..at + n + 1]
    ensures CStr(b, at) == CStr(c, at)
    decreases n
  {
    assert forall k :: at <= k <= at + n ==> b[k] == b[at..at + n + 1][k - at] == c[k];
    if b[at] != '\0' {
      assert b[at + 1..at + 1 + (n - 1) + 1] == c[at + 1..at + 1 + (n - 1) + 1];
      CStrSame(b, c, at + 1, n - 1);
    }
  }

  lemma PoppedAbove(b: Stk, t: Stk)
    requires b.Wf() && t.Wf() && Above(b.PushFrame(), t) && |t.frames| == |b.frames| + 1
    ensures t.frames[|t.frames| - 1] < |t.slots|
    ensures t.PopFrame() == b.(buf := t.buf) && KeptBelow(b, t)
  {
    hide Grown, CStr;
    var f := b.PushFrame();
    assert t.frames == f.frames;
    assert f.slots[|b.slots|] == t.slots[|b.slots|];
    assert t.slots[..|b.slots|] == b.slots;
    forall i | 0 <= i < |b.buf| && i < b.start + RETURN_SPACE ensures t.buf[i] == b.buf[i] {
      assert t.buf[i] == f.buf[i] == Grown(b.buf, f.start + 1)[..|b.buf|][i] == b.buf[i];
    }
  }

  /**
    From a frame's push, through any operations that stay in it and inside frames they opened, to its
    pop: start, length, kind, value, slots and frames are those of before, and so is every byte below
    the return space - so a head shorter than that space reads the same.
   */
  lemma FrameRestored(b: Stk, ops: seq<Op>, t: Stk)
    requires b.Sound() && Leads(ops, b.PushFrame(), |b.slots| + 1, |b.frames| + 1, t)
    requires |t.frames| == |b.frames| + 1
    ensures t.Sound() && t.frames[|t.frames| - 1] < |t.slots|
    ensures t.PopFrame() == b.(buf := t.buf) && KeptBelow(b, t)
    ensures b.kind == KString && b.len < 512 ==> t.PopFrame().Head() == b.Head()
  {
    hide Above, Leads, CStr;
    var f := b.PushFrame();
    AboveItself(f);
    LeadsAbove(f, ops, f, t);
    PoppedAbove(b, t);
    HeadKept(b, t);
  }

  lemma HeadKept(b: Stk, t: Stk)
    requires b.Sound() && KeptBelow(b, t)
    ensures b.kind == KString && b.len < RETURN_SPACE ==> CStr(t.buf, b.start) == b.Head()
  {
    if b.kind == KString && b.len < RETURN_SPACE {
      var j :| b.start + b.len <= j < |b.buf| && b.buf[j] == '\0';
      CStrStops(b.buf, b.start, j);
      hide CStr;
      assert b.buf[b.start..b.start + b.len + 1] == t.buf[b.start..b.start + b.len + 1];
      CStrSame(b.buf, t.buf, b.start, b.len);
    }
  }

  /** A scan goes over bytes that are no NUL and on from there. */
  lemma {:induction false} CStrOver(c: seq<char>, at: nat, n: nat)
    requires at + n <= |c| && NulFree(c[at..at + n])
    ensures CStr(c, at) == c[at..at + n] + CStr(c, at + n)
    decreases n
  {
    if n == 0 {
      assert c[at..at] + CStr(c, at) == CStr(c, at);
    } else {
      assert c[at] == c[at..at + n][0] != '\0';
      assert c[at..at + n] == [c[at]] + c[at + 1..at + 1 + (n - 1)];
      CStrOver(c, at + 1, n - 1);
      assert [c[at]] + (c[at + 1..at + n] + CStr(c, at + n)) == c[at..at + n] + CStr(c, at + n);
    }
  }

  /**
    A string head that reaches over the return space: the frame lies inside it, so after the pop its first
    bytes run on into whatever string the frame left where it began, while the length is that of before.
    The stack is sound again exactly if what was left there is as long as what it replaced.
   */
  lemma LongHeadAfterFrame(b: Stk, ops: seq<Op>, t: Stk)
    requires b.Sound() && b.kind == KString && b.len >= 512
    requires Leads(ops, b.PushFrame(), |b.slots| + 1, |b.frames| + 1, t) && |t.frames| == |b.frames| + 1
    ensures t.frames[|t.frames| - 1] < |t.slots|
    ensures t.PopFrame().len == b.len == |b.Head()|
    ensures t.PopFrame().Head() == b.Head()[..512] + CStr(t.buf, b.start + 512)
    ensures t.PopFrame().Sound() <==> |CStr(t.buf, b.start + 512)| == b.len - 512
  {
    hide Above, Leads, CStr, Stk.Wf;
    FrameRestored(b, ops, t);
    PopFrameWf(t);
    LongHead(b);
    var x := b.Head()[..RETURN_SPACE];
    assert b.buf[b.start..b.start + RETURN_SPACE] == b.buf[b.start..b.start + b.len][..RETURN_SPACE] == x;
    assert t.buf[b.start..b.start + RETURN_SPACE] == b.buf[b.start..b.start + RETURN_SPACE];
    CStrOver(t.buf, b.start, RETURN_SPACE);
  }

  lemma LongHead(b: Stk)
    requires b.Sound() && b.kind == KString
    ensures b.start + b.len < |b.buf| && b.buf[b.start..b.start + b.len] == b.Head() && |b.Head()| == b.len
  {
    var j :| b.start + b.len <= j < |b.buf| && b.buf[j] == '\0';
    CStrStops(b.buf, b.start, j);
  }

  // ----- the arguments of a call -----

  /**
    Each argument is evaluated by operations that leave as many slots and frames as they found, with its
    value at the head, and is then pushed; `heads` lists those values. Their evaluation may hold whole
    calls.
   */
  ghost predicate Pushes(args: seq<seq<Op>>, s: Stk, heads: seq<Argument>, t: Stk) {
    if args == [] then s.Sound() && t == s && heads == []
    else
      heads != []
      && (exists mid: Stk ::
            PushesFirst(args[0], s, mid) && heads[0] == mid.HeadArgument()
            && Pushes(args[1..], mid.AdvanceChar('\0'), heads[1..], t))
  }

  ghost predicate PushesFirst(arg: seq<Op>, s: Stk, mid: Stk) {
    && Leads(arg, s, |s.slots|, |s.frames|, mid)
    && |mid.slots| == |s.slots| && |mid.frames| == |s.frames|
    && |mid.slots| < STACK_DEPTH - 1
    && mid.start + mid.len + 1 < |mid.buf|
  }

  /** The values getArgcArgv lists after the function's name: at most nineteen. */
  function Arguments(s: Stk): seq<Argument>
    requires s.Floor() <= |s.slots|
  {
    var n := |s.slots| - s.Floor();
    seq(if n < MAX_ARGS - 1 then n else MAX_ARGS - 1, i requires 0 <= i < n => s.ArgumentAt(s.Floor() + i))
  }

  lemma FirstPushed(arg: seq<Op>, s: Stk, mid: Stk)
    requires s.Sound() && PushesFirst(arg, s, mid)
    ensures mid.Sound() && mid.slots == s.slots && mid.frames == s.frames && Above(s, mid)
    ensures Above(s, mid.AdvanceChar('\0')) && mid.AdvanceChar('\0').Sound()
  {
    hide Leads, CStr;
    AboveItself(s);
    LeadsAbove(s, arg, s, mid);
    AdvanceCharAbove(s, mid, '\0');
    AdvanceCharSound(mid, '\0');
  }

  /** A string that gets its NUL, in a buffer that keeps it from there on. */
  lemma PushedString(b: seq<char>, u: seq<char>, c: seq<char>, at: nat, n: nat)
    requires Ends(b, n) && at + |CStr(b, at)| == n && n + 2 <= |b| == |u| <= |c| && u[..n] == b[..n] && u[n] == '\0'
    requires forall i :: 0 <= i <= n ==> c[i] == u[i]
    ensures CStr(c, at) == CStr(b, at)
  {
    var j :| n <= j < |b| && b[j] == '\0';
    CStrStops(b, at, j);
    hide CStr;
    forall i | at <= i <= n ensures b[i] == c[i] {
      assert i < n ==> u[i] == u[..n][i] == b[..n][i];
    }
    assert b[at..n + 1] == c[at..n + 1];
    CStrSame(b, c, at, n - at);
  }

  /** A pushed argument reads as the head did, as long as nothing below the new head changes. */
  lemma PushedReads(mid: Stk, t: Stk)
    requires mid.Sound() && mid.start + mid.len + 1 < |mid.buf| && Above(mid.AdvanceChar('\0'), t)
    ensures |mid.slots| < |t.slots| && t.ArgumentAt(|mid.slots|) == mid.HeadArgument()
  {
    hide CStr, Written, Ends;
    var u := mid.AdvanceChar('\0');
    assert t.slots[|mid.slots|] == u.slots[|mid.slots|] == mid.Saved();
    if mid.kind == KString {
      var n := mid.start + mid.len;
      assert u.buf[n] == u.buf[n..n + 2][0];
      PushedString(mid.buf, u.buf, t.buf, mid.start, n);
    }
  }

  lemma {:induction false} PushesAbove(args: seq<seq<Op>>, s: Stk, heads: seq<Argument>, t: Stk)
    requires s.Sound() && Pushes(args, s, heads, t)
    ensures t.Sound() && Above(s, t)
    ensures t.frames == s.frames && |t.slots| == |s.slots| + |args| && |heads| == |args|
    ensures forall i :: 0 <= i < |args| ==> t.ArgumentAt(|s.slots| + i) == heads[i]
    decreases |args|
  {
    hide Above, Stk.Sound, Stk.ArgumentAt, Stk.HeadArgument, Leads;
    if args == [] {
      AboveItself(s);
    } else {
      var mid: Stk :| PushesFirst(args[0], s, mid) && heads[0] == mid.HeadArgument()
        && Pushes(args[1..], mid.AdvanceChar('\0'), heads[1..], t);
      FirstPushed(args[0], s, mid);
      var u := mid.AdvanceChar('\0');
      PushesAbove(args[1..], u, heads[1..], t);
      AboveTrans(s, u, t);
      PushedReads(mid, t);
      forall i | 0 <= i < |args| ensures t.ArgumentAt(|s.slots| + i) == heads[i] {
        if i > 0 {
          assert heads[i] == heads[1..][i - 1];
          assert |s.slots| + i == |u.slots| + (i - 1);
        }
      }
    }
  }

  /** A result as an argument is read. */
  function Shown(r: Result): Argument {
    match r
    case StringResult(x) => StringArg(x)
    case UnsignedResult(u) => PackedArg(KUnsigned, u)
    case NumberResult(bits) => PackedArg(KNumber, bits)
  }

  /** Whatever the stack, a value that is set is what the head reads as: number, float bits or string. */
  lemma SetReads(s: Stk, r: Result)
    ensures Set(s, r).HeadArgument() == Shown(r)
  {
    if r.StringResult? {
      hide Grown, Written;
      var x, t := r.s, Set(s, r);
      assert t.buf[s.start..s.start + |x| + 1] == x + "\0";
      assert t.buf[s.start + |x|] == t.buf[s.start..s.start + |x| + 1][|x|];
      assert t.buf[s.start..s.start + |x|] == t.buf[s.start..s.start + |x| + 1][..|x|];
      CStrOf(t.buf, s.start, x);
    }
  }

  lemma ReturnReads(u: Stk)
    requires u.Wf() && u.frames != []
    ensures forall r :: Apply(DoReturn(r), u).HeadArgument() == Shown(r)
  {
    hide Shown, Stk.HeadArgument;
    PopFrameWf(u);
    forall r ensures Apply(DoReturn(r), u).HeadArgument() == Shown(r) {
      SetReads(u.PopFrame(), r);
    }
  }

  /** What an evaluation sets last, or a call at its end returns. */
  function LastResult(ops: seq<Op>): Option<Result> {
    if ops == [] then None
    else
      match ops[|ops| - 1]
      case DoSet(r) => Some(r)
      case DoReturn(r) => Some(r)
      case _ => None
  }

  lemma LastReads(ops: seq<Op>, s: Stk)
    requires LastResult(ops).Some? && s.Wf() && Allowed(ops[|ops| - 1], s, 0)
    ensures Apply(ops[|ops| - 1], s).HeadArgument() == Shown(LastResult(ops).value)
  {
    hide Shown, Stk.HeadArgument, Set;
    match ops[|ops| - 1]
    case DoSet(r) => SetReads(s, r);
    case DoReturn(r) => ReturnReads(s);
  }

  lemma {:induction false} LeadsToResult(ops: seq<Op>, s: Stk, low: nat, outer: nat, t: Stk)
    requires Leads(ops, s, low, outer, t) && LastResult(ops).Some?
    ensures t.HeadArgument() == Shown(LastResult(ops).value)
    decreases |ops|
  {
    hide Apply, Stk.HeadArgument, Shown, Stk.Wf, Stk.Settled;
    if |ops| == 1 {
      LastReads(ops, s);
    } else {
      LeadsToResult(ops[1..], Apply(ops[0], s), low, outer, t);
    }
  }

  lemma {:induction false} PushesResults(args: seq<seq<Op>>, s: Stk, heads: seq<Argument>, t: Stk)
    requires s.Sound() && Pushes(args, s, heads, t)
    ensures |heads| == |args|
    ensures forall i :: 0 <= i < |args| && LastResult(args[i]).Some? ==> heads[i] == Shown(LastResult(args[i]).value)
    decreases |args|
  {
    hide Above, Stk.Sound, Leads, LastResult, Shown;
    if args != [] {
      var mid: Stk :| PushesFirst(args[0], s, mid) && heads[0] == mid.HeadArgument()
        && Pushes(args[1..], mid.AdvanceChar('\0'), heads[1..], t);
      FirstPushed(args[0], s, mid);
      PushesResults(args[1..], mid.AdvanceChar('\0'), heads[1..], t);
      if LastResult(args[0]).Some? {
        LeadsToResult(args[0], s, |s.slots|, |s.frames|, mid);
      }
      forall i | 0 <= i < |args| && LastResult(args[i]).Some?
        ensures heads[i] == Shown(LastResult(args[i]).value)
      {
        assert i > 0 ==> heads[i] == heads[1..][i - 1] && args[i] == args[1..][i - 1];
      }
    }
  }

  /**
    A call: the frame is pushed, each argument evaluated (calls and all) and pushed. At the call the
    argument list is exactly the values the evaluations left, in order, strings intact - of one that ends by
    setting or returning a value, that value; and when the callee, whatever it does above them, is finished,
    popping gives the caller its stack back, with any value returned at its head.
   */
  lemma CallKeeps(b: Stk, args: seq<seq<Op>>, heads: seq<Argument>, t: Stk, body: seq<Op>, u: Stk)
    requires b.Sound() && Pushes(args, b.PushFrame(), heads, t)
    requires Leads(body, t, |t.slots|, |t.frames|, u) && |u.frames| == |t.frames|
    ensures t.Floor() <= |t.slots|
    ensures |heads| == |args|
    ensures forall i :: 0 <= i < |args| && LastResult(args[i]).Some? ==> heads[i] == Shown(LastResult(args[i]).value)
    ensures |args| < 19 ==> Arguments(t) == heads
    ensures |args| >= 19 ==> Arguments(t) == heads[..19]
    ensures u.frames != [] && u.frames[|u.frames| - 1] < |u.slots|
    ensures u.PopFrame() == b.(buf := u.buf) && KeptBelow(b, u)
    ensures u.Wf() && Allowed(DoReturn(StringResult("")), u, 0)
    ensures forall r :: Apply(DoReturn(r), u).HeadArgument() == Shown(r)
  {
    hide Above, Leads, Pushes, CStr, Stk.ArgumentAt, LastResult, Shown;
    var f := b.PushFrame();
    PushFrameSound(b);
    PushesAbove(args, f, heads, t);
    PushesResults(args, f, heads, t);
    AboveItself(t);
    LeadsAbove(t, body, t, u);
    AboveTrans(f, t, u);
    PoppedAbove(b, u);
    ReturnReads(u);
    assert t.Floor() == |b.slots| + 1 == |f.slots|;
  }
}
