/**
  The frame discipline of the VM: script calls, native calls and nested executions push and pop frames,
  minimum stack depths and string-stack frames. Throws and suspension are outside this model.
 */
module Frames {
  import opened Values

  const MAX_VM_STACK: nat := 12

  /** A frame: whether an execution started with it, the string frames it has to pop, whether it is in a native call. */
  datatype Frame = Frame(popMinDepth: bool, pushes: nat, inNative: bool)

  /** `vmStack` holds, for each execution under way, the place of the last frame below it. */
  datatype State = State(frames: seq<Frame>, vmStack: seq<int>, strFrames: nat)

  datatype Step =
    | Exec            // the host or a native function runs a block
    | PushFrame       // OP_PUSH_FRAME
    | CallScript      // a function with a body: its frame takes the pushed string frame over
    | CallNothing     // no such function, no body, or a wrong number of arguments
    | CallNative
    | NativeReturns
    | Return          // the end of a block or function

  function Top(s: State): Frame
    requires s.frames != []
  {
    s.frames[|s.frames| - 1]
  }

  function WithTop(s: State, f: Frame): (r: State)
    requires s.frames != []
    ensures |r.frames| == |s.frames| && r.frames[..|s.frames| - 1] == s.frames[..|s.frames| - 1] && Top(r) == f
    ensures r.vmStack == s.vmStack && r.strFrames == s.strFrames
  {
    s.(frames := s.frames[|s.frames| - 1 := f])
  }

  /** getMinStackSize: how many frames lie below the execution under way. */
  function MinStackSize(s: State): int {
    if s.vmStack == [] then 0 else s.vmStack[|s.vmStack| - 1] + 1
  }

  /** What a step needs: the right code to be running, a pushed frame for a call, room on the vmStack. */
  predicate Enabled(step: Step, s: State) {
    match step
    case Exec => (s.frames == [] || Top(s).inNative) && |s.vmStack| < MAX_VM_STACK
    case PushFrame | Return => s.frames != [] && !Top(s).inNative
    case CallScript | CallNothing | CallNative => s.frames != [] && !Top(s).inNative && Top(s).pushes > 0
    case NativeReturns => s.frames != [] && Top(s).inNative
  }

  function PopStr(n: nat): nat {
    if n > 0 then n - 1 else 0
  }

  function Less(n: nat, m: nat): nat {
    if m <= n then n - m else 0
  }

  function Apply(step: Step, s: State): State
    requires Enabled(step, s)
  {
    match step
    case Exec => State(s.frames + [Frame(true, 0, false)], s.vmStack + [|s.frames| - 1], s.strFrames)
    case PushFrame => WithTop(s, Top(s).(pushes := Top(s).pushes + 1)).(strFrames := s.strFrames + 1)
    case CallScript =>
      var t := WithTop(s, Top(s).(pushes := Top(s).pushes - 1));
      t.(frames := t.frames + [Frame(false, 1, false)])
    case CallNothing => WithTop(s, Top(s).(pushes := Top(s).pushes - 1)).(strFrames := PopStr(s.strFrames))
    case CallNative => WithTop(s, Top(s).(inNative := true))
    case NativeReturns =>
      if Top(s).pushes > 0 then
        WithTop(s, Top(s).(pushes := Top(s).pushes - 1, inNative := false)).(strFrames := PopStr(s.strFrames))
      else WithTop(s, Top(s).(inNative := false))
    case Return =>
      State(s.frames[..|s.frames| - 1],
            if Top(s).popMinDepth && s.vmStack != [] then s.vmStack[..|s.vmStack| - 1] else s.vmStack,
            Less(s.strFrames, Top(s).pushes))
  }

  /** Where the frames are that executions started with, each less one. */
  function Depths(frames: seq<Frame>): seq<int> {
    if frames == [] then []
    else
      var n := |frames| - 1;
      Depths(frames[..n]) + (if frames[n].popMinDepth then [n - 1] else [])
  }

  function Pushes(frames: seq<Frame>): nat {
    if frames == [] then 0 else Pushes(frames[..|frames| - 1]) + frames[|frames| - 1].pushes
  }

  /** The bottom frame starts an execution; vmStack lists all that do; the string stack has all pushed frames. */
  ghost predicate Sound(s: State, outside: nat) {
    && (s.frames != [] ==> s.frames[0].popMinDepth)
    && s.vmStack == Depths(s.frames)
    && s.strFrames == outside + Pushes(s.frames)
  }

  lemma TopOff(frames: seq<Frame>, f: Frame)
    ensures Depths(frames + [f]) == Depths(frames) + (if f.popMinDepth then [|frames| - 1] else [])
    ensures Pushes(frames + [f]) == Pushes(frames) + f.pushes
  {
    assert (frames + [f])[..|frames|] == frames;
  }

  lemma SplitTop(s: State)
    requires s.frames != []
    ensures s.frames == s.frames[..|s.frames| - 1] + [Top(s)]
  {
  }

  /**
    Every step of every run: vmStack keeps telling where executions started, and the string stack's frames
    less those the frames account for stay as many as they were.
   */
  lemma StaysSound(step: Step, s: State, outside: nat)
    requires Sound(s, outside) && Enabled(step, s)
    ensures Sound(Apply(step, s), outside)
  {
    hide Depths, Pushes;
    if step.Exec? {
      TopOff(s.frames, Frame(true, 0, false));
    } else {
      var below := s.frames[..|s.frames| - 1];
      SplitTop(s);
      TopOff(below, Top(s));
      var t := Apply(step, s);
      if !step.Return? {
        if step.CallScript? {
          var caller := Top(s).(pushes := Top(s).pushes - 1);
          TopOff(below, caller);
          assert WithTop(s, caller).frames == below + [caller];
          TopOff(below + [caller], Frame(false, 1, false));
        } else {
          SplitTop(t);
          TopOff(below, Top(t));
        }
      } else if |s.frames| > 1 {
        assert below[0] == s.frames[0];
      }
    }
  }

  datatype Outcome = Running | Finished | Failed

  /** What the interpreter makes of the number of frames after a return. */
  function AfterReturn(s: State): Outcome
    requires s.frames != []
  {
    var left := |s.frames| - 1;
    if left == MinStackSize(s) then Finished else if left < MinStackSize(s) then Failed else Running
  }

  lemma {:induction false} DepthsBelow(frames: seq<Frame>)
    ensures forall k :: 0 <= k < |Depths(frames)| ==> Depths(frames)[k] < |frames| - 1
    ensures Depths(frames) == [] ==> forall k :: 0 <= k < |frames| ==> !frames[k].popMinDepth
    decreases |frames|
  {
    if frames != [] {
      DepthsBelow(frames[..|frames| - 1]);
      assert forall k :: 0 <= k < |frames| - 1 ==> frames[k] == frames[..|frames| - 1][k];
    }
  }

  /** A return ends the execution exactly if its frame began it, and never finds frames missing. */
  lemma ReturnsRight(s: State, outside: nat)
    requires Sound(s, outside) && Enabled(Return, s)
    ensures AfterReturn(s) == if Top(s).popMinDepth then Finished else Running
  {
    var below := s.frames[..|s.frames| - 1];
    DepthsBelow(below);
    if !Top(s).popMinDepth {
      assert |s.frames| > 1 && below[0] == s.frames[0];
    }
  }

  // ----- an execution from start to end -----

  /** The steps lead from `s` to `t` without giving up any of the lowest `low` frames. */
  predicate Leads(steps: seq<Step>, s: State, low: nat, t: State) {
    if steps == [] then t == s
    else Enabled(steps[0], s) && |s.frames| > low && Leads(steps[1..], Apply(steps[0], s), low, t)
  }

  /** No step of the execution touches the frames below it. */
  lemma StaysAbove(step: Step, s: State, t: State)
    requires Enabled(step, t) && |t.frames| > |s.frames| && t.frames[..|s.frames|] == s.frames
    ensures |Apply(step, t).frames| >= |s.frames| && Apply(step, t).frames[..|s.frames|] == s.frames
  {
    var u := Apply(step, t);
    if step.CallScript? {
      var c := WithTop(t, Top(t).(pushes := Top(t).pushes - 1));
      assert u.frames[..|s.frames|] == c.frames[..|s.frames|] == t.frames[..|s.frames|];
    } else if step.Exec? {
      assert u.frames[..|s.frames|] == t.frames[..|s.frames|];
    } else if step.Return? {
      assert u.frames[..|s.frames|] == t.frames[..|s.frames|];
    } else {
      assert u.frames[..|s.frames|] == u.frames[..|t.frames| - 1][..|s.frames|]
          == t.frames[..|t.frames| - 1][..|s.frames|];
    }
  }

  lemma {:induction false} LeadsAbove(steps: seq<Step>, s: State, t: State, u: State, outside: nat)
    requires Sound(t, outside) && |t.frames| >= |s.frames| && t.frames[..|s.frames|] == s.frames
    requires Leads(steps, t, |s.frames|, u)
    ensures Sound(u, outside) && |u.frames| >= |s.frames| && u.frames[..|s.frames|] == s.frames
    decreases |steps|
  {
    hide Sound, Apply;
    if steps != [] {
      StaysSound(steps[0], t, outside);
      StaysAbove(steps[0], s, t);
      LeadsAbove(steps[1..], s, Apply(steps[0], t), u, outside);
    }
  }

  /**
    A whole execution, whatever script calls, native calls and executions it nests: when it is over, the
    frames, the vmStack and the number of string frames are exactly those it was entered with.
   */
  lemma ExecRestores(s: State, steps: seq<Step>, t: State, outside: nat)
    requires Sound(s, outside) && Enabled(Exec, s)
    requires Leads(steps, Apply(Exec, s), |s.frames|, t) && |t.frames| == |s.frames|
    ensures t == s
  {
    hide Leads;
    var e := Apply(Exec, s);
    StaysSound(Exec, s, outside);
    assert e.frames[..|s.frames|] == s.frames;
    LeadsAbove(steps, s, e, t, outside);
    assert t.frames == t.frames[..|s.frames|];
  }

  /** Running script code can push a string frame for a call; one more is then owed. */
  lemma FramePushed(s: State)
    requires s.frames != [] && !Top(s).inNative
    ensures var a := Apply(PushFrame, s);
      && Enabled(PushFrame, s) && a.strFrames == s.strFrames + 1 && Top(a).pushes == Top(s).pushes + 1
      && Enabled(CallScript, a) && Enabled(CallNothing, a) && Enabled(CallNative, a)
  {
  }

  /** A call that finds nothing to run gives the pushed string frame back: it is as if nothing was called. */
  lemma EmptyCallRestores(s: State)
    requires s.frames != [] && !Top(s).inNative
    ensures Apply(CallNothing, Apply(PushFrame, s)) == s
  {
    SplitTop(s);
    SplitTop(Apply(CallNothing, Apply(PushFrame, s)));
  }

  /**
    So does a call of a native function, whatever executions it starts, as long as they end; while it runs, it
    can start them, and its caller runs nothing.
   */
  lemma NativeCallRestores(s: State, steps: seq<Step>, t: State, outside: nat)
    requires Sound(s, outside) && s.frames != [] && !Top(s).inNative
    ensures var n := Apply(CallNative, Apply(PushFrame, s));
      && !Enabled(PushFrame, n) && !Enabled(Return, n) && Enabled(NativeReturns, n)
      && (Enabled(Exec, n) <==> |s.vmStack| < 12)
      && Apply(NativeReturns, n) == s
      && (Enabled(Exec, n) && Leads(steps, Apply(Exec, n), |n.frames|, t) && |t.frames| == |n.frames| ==> t == n)
  {
    var n := Apply(CallNative, Apply(PushFrame, s));
    StaysSound(PushFrame, s, outside);
    StaysSound(CallNative, Apply(PushFrame, s), outside);
    hide Sound;
    SplitTop(s);
    SplitTop(Apply(NativeReturns, n));
    hide Leads;
    if Enabled(Exec, n) && Leads(steps, Apply(Exec, n), |n.frames|, t) && |t.frames| == |n.frames| {
      hide Apply, Enabled;
      ExecRestores(n, steps, t, outside);
    }
  }

  /** However a native function left its caller's pushed frames, the caller runs again, with one less owed. */
  lemma NativeReturnRuns(s: State)
    requires Enabled(NativeReturns, s)
    ensures var t := Apply(NativeReturns, s);
      && |t.frames| == |s.frames| && !Top(t).inNative
      && Top(t).pushes == if Top(s).pushes > 0 then Top(s).pushes - 1 else 0
  {
  }

  /**
    And a call of a script function: whatever the callee calls, starts and leaves pushed, when its frame is gone
    the caller's is as before the call, with vmStack and string frames.
   */
  lemma ScriptCallRestores(s: State, steps: seq<Step>, t: State, outside: nat)
    requires Sound(s, outside) && s.frames != [] && !Top(s).inNative
    requires Leads(steps, Apply(CallScript, Apply(PushFrame, s)), |s.frames|, t) && |t.frames| == |s.frames|
    ensures t == s
  {
    hide Leads;
    var a := Apply(PushFrame, s);
    var c := Apply(CallScript, a);
    StaysSound(PushFrame, s, outside);
    StaysSound(CallScript, a, outside);
    SplitTop(s);
    assert c.frames[..|s.frames|] == s.frames;
    hide Apply, Enabled;
    LeadsAbove(steps, s, c, t, outside);
    assert t.frames == t.frames[..|s.frames|];
  }

  // ----- as the program does it -----

  class ExprEvalState {
    var vmFrames: seq<Frame>
    const vmStack: array<int>
    var vm: nat
    var numStringFrames: nat

    ghost predicate Valid()
      reads this, vmStack
    {
      vmStack.Length == MAX_VM_STACK && vm <= MAX_VM_STACK
    }

    ghost function Snapshot(): State
      requires Valid()
      reads this, vmStack
    {
      State(vmFrames, vmStack[..vm], numStringFrames)
    }

    constructor ()
      ensures Valid() && Snapshot() == State([], [], 0) && fresh(vmStack)
    {
      vmStack := new int[MAX_VM_STACK];
      vmFrames, vm, numStringFrames := [], 0, 0;
    }

    method PushMinStackDepth()
      requires Valid() && vm < MAX_VM_STACK
      modifies this`vm, vmStack
      ensures Valid() && vmStack[..vm] == old(vmStack[..vm]) + [|vmFrames| - 1]
    {
      vmStack[vm] := |vmFrames| - 1;
      vm := vm + 1;
    }

    function GetMinStackSize(): (n: int)
      requires Valid()
      reads this, vmStack
      ensures n == MinStackSize(Snapshot())
    {
      if vm == 0 then 0 else vmStack[vm - 1] + 1
    }

    /** setupExecFrame of a block run by the host or a native function. */
    method Execute()
      requires Valid() && Enabled(Exec, Snapshot())
      modifies this`vmFrames, this`vm, vmStack
      ensures Valid() && Snapshot() == Apply(Exec, old(Snapshot()))
    {
      PushMinStackDepth();
      vmFrames := vmFrames + [Frame(true, 0, false)];
    }

    /** A call of a function with a body: the caller's pushed string frame becomes the callee's. */
    method BeginScriptCall()
      requires Valid() && Enabled(CallScript, Snapshot())
      modifies this`vmFrames
      ensures Valid() && Snapshot() == Apply(CallScript, old(Snapshot()))
    {
      var caller := vmFrames[|vmFrames| - 1];
      vmFrames := vmFrames[|vmFrames| - 1 := caller.(pushes := caller.pushes - 1)];
      vmFrames := vmFrames + [Frame(false, 0, false)];
      var callee := vmFrames[|vmFrames| - 1];
      vmFrames := vmFrames[|vmFrames| - 1 := callee.(pushes := callee.pushes + 1)];
    }

    /** Pops the string frames a frame still has to. */
    method ClearStringStack()
      requires Valid() && vmFrames != [] && vmFrames[|vmFrames| - 1].pushes <= numStringFrames
      modifies this`vmFrames, this`numStringFrames
      ensures Valid() && vmStack[..vm] == old(vmStack[..vm])
      ensures numStringFrames == old(numStringFrames) - old(vmFrames[|vmFrames| - 1].pushes)
      ensures vmFrames == old(vmFrames)[|old(vmFrames)| - 1 := old(vmFrames[|vmFrames| - 1]).(pushes := 0)]
    {
      var frame := vmFrames[|vmFrames| - 1];
      var i := 0;
      while i < frame.pushes
        invariant 0 <= i <= frame.pushes && numStringFrames == old(numStringFrames) - i && vmFrames == old(vmFrames)
      {
        numStringFrames := numStringFrames - 1;
        i := i + 1;
      }
      vmFrames := vmFrames[|vmFrames| - 1 := frame.(pushes := 0)];
    }

    /** execFinished: the top frame goes, and the number of those left says whether the execution is over. */
    method FinishFrame(ghost outside: nat) returns (outcome: Outcome)
      requires Valid() && Enabled(Return, Snapshot()) && Sound(Snapshot(), outside)
      modifies this`vmFrames, this`vm, this`numStringFrames
      ensures Valid() && Snapshot() == Apply(Return, old(Snapshot())) && outcome == AfterReturn(old(Snapshot()))
      ensures outcome == if old(vmFrames[|vmFrames| - 1].popMinDepth) then Finished else Running
    {
      ghost var s := Snapshot();
      ReturnsRight(s, outside);
      StackHolds(s, outside);
      ClearStringStack();
      var oldMinSize := GetMinStackSize();
      var last := vmFrames[|vmFrames| - 1];
      vmFrames := vmFrames[..|vmFrames| - 1];
      assert vmFrames == s.frames[..|s.frames| - 1];
      if last.popMinDepth {
        vm := vm - 1;
        assert vmStack[..vm] == s.vmStack[..|s.vmStack| - 1];
      }
      outcome := if |vmFrames| == oldMinSize then Finished else if |vmFrames| < oldMinSize then Failed else Running;
    }
  }

  lemma StackHolds(s: State, outside: nat)
    requires Sound(s, outside) && s.frames != []
    ensures Top(s).pushes <= s.strFrames && (Top(s).popMinDepth ==> s.vmStack != [])
  {
    SplitTop(s);
    TopOff(s.frames[..|s.frames| - 1], Top(s));
  }
}
