/** The string stack as the interpreter keeps it: parallel fixed-size arrays beside one growing buffer. */
module StringMemory {
  import opened Values
  import opened StringStacks
  import opened StringFrames

  class StringStack {
    var buffer: seq<char>
    const frameOffsets: array<nat>
    const startOffsets: array<nat>
    const startLengths: array<nat>
    const startTypes: array<Kind>
    const startValues: array<nat>
    const argv: array<Argument>
    var numFrames: nat
    var start: nat
    var len: nat
    var startStackSize: nat
    var kind: Kind
    var value: nat

    ghost predicate Shape()
      reads this, frameOffsets, startOffsets, startLengths, startTypes, startValues, argv
    {
      && frameOffsets.Length == FRAME_DEPTH && argv.Length == MAX_ARGS
      && startOffsets.Length == STACK_DEPTH && startLengths.Length == STACK_DEPTH
      && startTypes.Length == STACK_DEPTH && startValues.Length == STACK_DEPTH
      && frameOffsets != startOffsets && frameOffsets != startLengths && frameOffsets != startValues
      && startOffsets != startLengths && startOffsets != startValues && startLengths != startValues
      && numFrames < FRAME_DEPTH && startStackSize < STACK_DEPTH
    }

    /** The used parts of the arrays, as one value. */
    ghost function Snapshot(): Stk
      requires Shape()
      reads this, frameOffsets, startOffsets, startLengths, startTypes, startValues, argv
    {
      Stk(buffer, Slots(startStackSize), frameOffsets[..numFrames], start, len, kind, value)
    }

    ghost function Slots(n: nat): (s: seq<Slot>)
      requires Shape() && n <= STACK_DEPTH
      reads this, frameOffsets, startOffsets, startLengths, startTypes, startValues, argv
      ensures |s| == n
      ensures forall i :: 0 <= i < n ==> s[i] == Slot(startOffsets[i], startLengths[i], startTypes[i], startValues[i])
    {
      seq(n, i requires 0 <= i < n
          && Shape() reads this, frameOffsets, startOffsets, startLengths, startTypes, startValues, argv
             => Slot(startOffsets[i], startLengths[i], startTypes[i], startValues[i]))
    }

    ghost predicate Valid()
      reads this, frameOffsets, startOffsets, startLengths, startTypes, startValues, argv
    {
      Shape() && Snapshot().Sound()
    }

    /** An empty stack over a zeroed buffer. */
    constructor ()
      ensures Valid() && Snapshot() == Stk(seq(8192 + 2048, i => '\0'), [], [], 0, 0, KString, 0)
      ensures fresh(frameOffsets) && fresh(startOffsets) && fresh(startLengths) && fresh(startTypes)
      ensures fresh(startValues) && fresh(argv)
      ensures frameOffsets.Length == 16 && startOffsets.Length == 64 && argv.Length == 20
    {
      buffer := seq(8192 + 2048, i => '\0');
      frameOffsets := new nat[FRAME_DEPTH];
      startOffsets := new nat[STACK_DEPTH];
      startLengths := new nat[STACK_DEPTH];
      startTypes := new Kind[STACK_DEPTH](i => KString);
      startValues := new nat[STACK_DEPTH];
      argv := new Argument[MAX_ARGS](i => StringArg(""));
      numFrames, start, len, startStackSize, kind, value := 0, 0, 0, 0, KString, 0;
      new;
      assert Slots(0) == [];
      assert frameOffsets[..0] == [];
      assert buffer[0] == '\0';
      assert Ends(buffer, 0);
    }

    method SetUnsignedValue(u: nat)
      requires Shape() && Snapshot().Wf()
      modifies this`buffer, this`len, this`kind, this`value
      ensures Valid() && Snapshot() == old(Snapshot()).SetPacked(KUnsigned, u)
      ensures kind == KUnsigned && value == u && len == 0
    {
      hide Stk.Wf, Stk.Settled, CStr, Grown, Written;
      ghost var s := Snapshot();
      SetSound(s, UnsignedResult(u));
      buffer := Grown(buffer, start + 16);
      len := 0;
      value := u;
      kind := KUnsigned;
      assert Snapshot() == s.SetPacked(KUnsigned, u);
    }

    method SetNumberValue(bits: nat)
      requires Shape() && Snapshot().Wf()
      modifies this`buffer, this`len, this`kind, this`value
      ensures Valid() && Snapshot() == old(Snapshot()).SetPacked(KNumber, bits)
      ensures kind == KNumber && value == bits && len == 0
    {
      hide Stk.Wf, Stk.Settled, CStr, Grown, Written;
      ghost var s := Snapshot();
      SetSound(s, NumberResult(bits));
      buffer := Grown(buffer, start + 16);
      len := 0;
      value := bits;
      kind := KNumber;
      assert Snapshot() == s.SetPacked(KNumber, bits);
    }

    method SetStringValue(x: CString)
      requires Shape() && Snapshot().Wf()
      modifies this`buffer, this`len, this`kind
      ensures Valid() && Snapshot() == old(Snapshot()).SetString(x)
      ensures kind == KString && CStr(buffer, start) == x && len == |x|
    {
      hide Stk.Wf, Stk.Settled, CStr, Grown, Written;
      ghost var s := Snapshot();
      SetReads(s, StringResult(x));
      SetSound(s, StringResult(x));
      len := |x|;
      kind := KString;
      buffer := Grown(buffer, start + len + 2);
      buffer := Written(buffer, start, x + "\0");
      assert Snapshot() == s.SetString(x);
    }

    /** strlen, of the string at `at`. */
    method StringLength(at: nat) returns (n: nat)
      requires Ends(buffer, at)
      ensures n == |CStr(buffer, at)|
    {
      n := 0;
      while buffer[at + n] != '\0'
        invariant Ends(buffer, at + n)
        invariant |CStr(buffer, at)| == n + |CStr(buffer, at + n)|
        decreases |buffer| - n
      {
        n := n + 1;
      }
    }

    /** Writes the head into the next slot. */
    method SaveHead()
      requires Shape() && startStackSize < STACK_DEPTH - 1
      modifies this`startStackSize, startOffsets, startLengths, startTypes, startValues
      ensures Shape() && Snapshot() == old(Snapshot()).(slots := old(Snapshot()).slots + [old(Snapshot()).Saved()])
    {
      ghost var before := Slots(startStackSize);
      startTypes[startStackSize] := kind;
      startValues[startStackSize] := value;
      startLengths[startStackSize] := len;
      startOffsets[startStackSize] := start;
      startStackSize := startStackSize + 1;
      assert Slots(startStackSize) == before + [Slot(start, len, kind, value)];
    }

    /** Takes start, kind and value from the topmost slot, which is dropped; the length comes after. */
    method DropSlot()
      requires Shape() && startStackSize > 0
      modifies this`startStackSize, this`start, this`kind, this`value
      ensures Shape()
      ensures var s := old(Snapshot());
        var top := s.slots[|s.slots| - 1];
        Snapshot() == s.(slots := s.slots[..|s.slots| - 1], start := top.offset, kind := top.kind, value := top.value)
    {
      ghost var before := Slots(startStackSize);
      startStackSize := startStackSize - 1;
      start := startOffsets[startStackSize];
      kind := startTypes[startStackSize];
      value := startValues[startStackSize];
      assert Slots(startStackSize) == before[..startStackSize];
    }

    method Advance()
      requires Valid() && Allowed(DoAdvance, Snapshot(), 0)
      modifies this`startStackSize, this`start, this`len, this`kind, startOffsets, startLengths, startTypes, startValues
      ensures Valid() && Snapshot() == old(Snapshot()).Advance()
    {
      hide Stk.Wf, Stk.Settled, CStr, Grown, Written;
      ghost var s := Snapshot();
      AdvanceSound(s);
      SaveHead();
      start := start + len;
      len := 0;
      kind := KString;
      assert Snapshot() == s.Advance();
    }

    method AdvanceChar(c: char)
      requires Valid() && Allowed(DoAdvanceChar(c), Snapshot(), 0)
      modifies this`buffer, this`startStackSize, this`start, this`len, this`kind
      modifies startOffsets, startLengths, startTypes, startValues
      ensures Valid() && Snapshot() == old(Snapshot()).AdvanceChar(c)
    {
      hide Stk.Wf, Stk.Settled, CStr, Written;
      ghost var s := Snapshot();
      AdvanceCharSound(s, c);
      SaveHead();
      start := start + len;
      ghost var b := buffer;
      buffer := buffer[start := c];
      buffer := buffer[start + 1 := '\0'];
      WrittenPair(b, start, c);
      start := start + 1;
      len := 0;
      kind := KString;
      assert Snapshot() == s.AdvanceChar(c);
    }

    /** An argument is complete. */
    method Push()
      requires Valid() && Allowed(DoAdvanceChar('\0'), Snapshot(), 0)
      modifies this`buffer, this`startStackSize, this`start, this`len, this`kind
      modifies startOffsets, startLengths, startTypes, startValues
      ensures Valid() && Snapshot() == old(Snapshot()).AdvanceChar('\0')
    {
      AdvanceChar('\0');
    }

    method SetHeadLength()
      requires Shape() && Snapshot().(len := 0).Wf()
      modifies this`len
      ensures Shape() && Snapshot() == old(Snapshot()).(len := old(Snapshot()).HeadLength())
    {
      if kind == KString {
        len := StringLength(start);
      } else {
        len := 0;
      }
    }

    method Rewind()
      requires Valid() && Allowed(DoRewind, Snapshot(), 0)
      modifies this`buffer, this`startStackSize, this`start, this`len, this`kind, this`value
      ensures Valid() && old(Snapshot()).start < |old(Snapshot()).buf| && Snapshot() == old(Snapshot()).Rewind()
    {
      hide Stk.Wf, Stk.Settled, CStr, Grown, Written;
      ghost var s := Snapshot();
      RewindSound(s);
      HeadInside(s);
      if kind != KString {
        buffer := buffer[start := '\0'];
      }
      DropSlot();
      Shortened(s.Rewind(), Snapshot());
      SetHeadLength();
    }

    method RewindTerminate()
      requires Valid() && Allowed(DoRewindTerminate, Snapshot(), 0)
      modifies this`buffer, this`startStackSize, this`start, this`len, this`kind, this`value
      ensures Valid() && old(Snapshot()).start < |old(Snapshot()).buf|
          && Snapshot() == old(Snapshot()).RewindTerminate()
    {
      hide Stk.Wf, Stk.Settled, CStr, Grown, Written;
      ghost var s := Snapshot();
      TerminatedSound(s);
      buffer := buffer[start := '\0'];
      DropSlot();
      Shortened(s.RewindTerminate(), Snapshot());
      SetHeadLength();
    }

    /** Whether the two topmost strings are `same`; both are taken off, an empty one is left. */
    method Compare(same: (CString, CString) -> bool) returns (matched: bool)
      requires Valid() && Allowed(DoCompare, Snapshot(), 0)
      modifies this`buffer, this`startStackSize, this`start, this`len, this`kind, this`value
      ensures Valid() && old(Snapshot()).slots[|old(Snapshot()).slots| - 1].offset < |old(Snapshot()).buf|
      ensures Snapshot() == old(Snapshot()).Compared()
      ensures matched == old(Snapshot()).CompareResult(same)
    {
      hide Stk.Wf, Stk.Settled, CStr, Grown, Written;
      ghost var s := Snapshot();
      ComparedSound(s);
      HeadInside(s);
      TopInside(s);
      var oldStart, oldKind := start, kind;
      DropSlot();
      matched := kind == oldKind && same(CStr(buffer, start), CStr(buffer, oldStart));
      len := 0;
      buffer := buffer[start := '\0'];
      assert Snapshot() == s.Compared();
    }

    method PushFrame()
      requires Valid() && startStackSize < 63 && numFrames < 15
      modifies this`buffer, this`numFrames, this`startStackSize, this`start, this`len, this`kind, this`value
      modifies frameOffsets, startOffsets, startLengths, startTypes, startValues
      ensures Valid() && Snapshot() == old(Snapshot()).PushFrame()
    {
      hide Stk.Wf, Stk.Settled, CStr, Grown, Written;
      ghost var s := Snapshot();
      PushFrameSound(s);
      frameOffsets[numFrames] := startStackSize;
      numFrames := numFrames + 1;
      assert frameOffsets[..numFrames] == s.frames + [startStackSize];
      assert Slots(startStackSize) == s.slots;
      SaveHead();
      start := start + RETURN_SPACE;
      buffer := Grown(buffer, start + 1);
      buffer := buffer[start := '\0'];
      kind := KString;
      value := 0;
      len := 0;
      assert Snapshot() == s.PushFrame();
    }

    method PopFrame()
      requires Valid() && numFrames > 0
      modifies this`numFrames, this`startStackSize, this`start, this`len, this`kind, this`value
      ensures Shape() && old(Snapshot()).frames[old(numFrames) - 1] < |old(Snapshot()).slots|
      ensures Snapshot() == old(Snapshot()).PopFrame() && Snapshot().Wf()
    {
      hide Stk.Wf, Stk.Settled, CStr, Grown, Written;
      ghost var s := Snapshot();
      PopFrameWf(s);
      numFrames := numFrames - 1;
      assert frameOffsets[numFrames] == s.frames[numFrames];
      startStackSize := frameOffsets[numFrames];
      start := startOffsets[startStackSize];
      len := startLengths[startStackSize];
      kind := startTypes[startStackSize];
      value := startValues[startStackSize];
      assert frameOffsets[..numFrames] == s.frames[..numFrames];
      assert Slots(startStackSize) == s.slots[..startStackSize];
    }

    /** Lists a call's name and arguments, leaving the frame for the caller to pop. */
    method GetArgcArgv(name: CString) returns (argc: nat)
      requires Valid() && numFrames > 0
      modifies argv
      ensures Valid() && Snapshot() == old(Snapshot()) && Snapshot().Floor() <= |Snapshot().slots|
      ensures argc <= argv.Length && argv[..argc] == [StringArg(name)] + Arguments(Snapshot())
    {
      hide Stk.Wf, Stk.Settled, CStr;
      ghost var s := Snapshot();
      var startStack := frameOffsets[numFrames - 1] + 1;
      FrameInside(s);
      assert frameOffsets[numFrames - 1] == s.frames[numFrames - 1];
      var argCount := if startStackSize - startStack < MAX_ARGS - 1 then startStackSize - startStack else MAX_ARGS - 1;
      argv[0] := StringArg(name);
      var i := 0;
      while i < argCount
        invariant 0 <= i <= argCount && argv[0] == StringArg(name)
        invariant Shape() && Snapshot() == s
        invariant forall k :: 1 <= k <= i ==> argv[k] == s.ArgumentAt(startStack + k - 1)
      {
        argv[i + 1] := StackValue(startStack + i);
        i := i + 1;
      }
      argc := argCount + 1;
      ghost var listed := [StringArg(name)] + Arguments(s);
      forall k | 0 <= k < argc ensures argv[k] == listed[k] {
        if k > 0 {
          assert listed[k] == Arguments(s)[k - 1] == s.ArgumentAt(startStack + (k - 1));
        }
      }
      assert argv[..argc] == listed;
    }

    /** getStackConsoleValue: numbers travel by value, strings by where they are. */
    function StackValue(i: nat): (a: Argument)
      requires Shape() && i < startStackSize
      reads this, frameOffsets, startOffsets, startLengths, startTypes, startValues, argv
      ensures a == Snapshot().ArgumentAt(i)
    {
      if startTypes[i] == KString then StringArg(CStr(buffer, startOffsets[i]))
          else PackedArg(startTypes[i], startValues[i])
    }
  }

  lemma WrittenPair(b: seq<char>, at: nat, c: char)
    requires at + 1 < |b|
    ensures Written(b, at, [c, '\0']) == b[at := c][at + 1 := '\0']
  {
  }

  lemma HeadInside(s: Stk)
    requires s.Wf()
    ensures s.start < |s.buf|
  {
  }

  lemma TopInside(s: Stk)
    requires s.Wf() && s.slots != []
    ensures s.slots[|s.slots| - 1].offset < |s.buf|
  {
  }

  lemma FrameInside(s: Stk)
    requires s.Wf() && s.frames != []
    ensures s.frames[|s.frames| - 1] < |s.slots|
  {
  }

  /** A sound stack is well-formed for a shorter head too. */
  lemma Shortened(s: Stk, t: Stk)
    requires s.Wf() && t.(len := s.len) == s
    ensures t.(len := 0).Wf()
  {
  }
}
