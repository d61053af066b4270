/**
  The string stack: strings, numbers and call frames share one growing byte buffer. Its operations
  are first described on a snapshot (`Stk`); the class at the end performs them on its fields.
 */
module StringStacks {
  import opened Values

  const STACK_DEPTH: nat := 64
  const FRAME_DEPTH: nat := 16
  const MAX_ARGS: nat := 20
  const RETURN_SPACE: nat := 512

  datatype Kind = KString | KUnsigned | KNumber

  /** A value set aside: where its bytes start, and what the head was. */
  datatype Slot = Slot(offset: nat, len: nat, kind: Kind, value: nat)

  /** An argument as a callee receives it. */
  datatype Argument = StringArg(s: string) | PackedArg(kind: Kind, value: nat)

  /** The C string at an address. */
  function CStr(buf: seq<char>, at: nat): (s: string)
    ensures NulFree(s)
    ensures at <= |buf| ==> at + |s| <= |buf|
    decreases |buf| - at
  {
    if at >= |buf| || buf[at] == '\0' then "" else [buf[at]] + CStr(buf, at + 1)
  }

  /** validateBufferSize: a buffer too small is extended, with zeros, past the wanted size. */
  function Grown(buf: seq<char>, size: nat): (r: seq<char>)
    ensures |r| >= size && |r| >= |buf| && r[..|buf|] == buf
  {
    if size > |buf| then buf + seq(size + 2048 - |buf|, i => '\0') else buf
  }

  /** There is a NUL at `at` or behind it. */
  ghost predicate Ends(buf: seq<char>, at: nat) {
    exists j :: at <= j < |buf| && buf[j] == '\0'
  }

  /** The bytes of `s` laid over `buf` from `at` on. */
  function Written(buf: seq<char>, at: nat, s: string): (r: seq<char>)
    requires at + |s| <= |buf|
    ensures |r| == |buf| && r[..at] == buf[..at] && r[at..at + |s|] == s && r[at + |s|..] == buf[at + |s|..]
  {
    buf[..at] + s + buf[at + |s|..]
  }

  datatype Stk = Stk(buf: seq<char>, slots: seq<Slot>, frames: seq<nat>, start: nat, len: nat, kind: Kind, value: nat) {

    /**
      Frames point at their slots, offsets rise to the head, and from the end of every value on there
      is a NUL somewhere in the buffer, so that no string scan leaves it.
     */
    ghost predicate Wf() {
      && Ends(buf, start + len)
      && (forall i :: 0 <= i < |frames| ==> frames[i] < |slots|)
      && (forall i, j :: 0 <= i < j < |frames| ==> frames[i] < frames[j])
      && (forall i :: 0 <= i < |slots| ==> slots[i].offset <= start && Ends(buf, slots[i].offset + slots[i].len))
      && (forall i, j :: 0 <= i < j < |slots| ==> slots[i].offset <= slots[j].offset)
    }

    /** The length the head carries is the length of its string, or 0 beside a number. */
    ghost predicate Settled() {
      len == HeadLength()
    }

    ghost predicate Sound() {
      Wf() && Settled()
    }

    /** The first slot of the topmost frame that belongs to its activity. */
    function Floor(): nat {
      if frames == [] then 0 else frames[|frames| - 1] + 1
    }

    function Head(): string {
      CStr(buf, start)
    }

    function Saved(): Slot {
      Slot(start, len, kind, value)
    }

    function HeadLength(): nat {
      if kind == KString then |Head()| else 0
    }

    function SetString(s: CString): Stk {
      var b := Grown(buf, start + |s| + 2);
      this.(buf := Written(b, start, s + "\0"), len := |s|, kind := KString)
    }

    function SetPacked(k: Kind, v: nat): Stk
      requires k != KString
    {
      this.(buf := Grown(buf, start + 16), len := 0, kind := k, value := v)
    }

    function Advance(): Stk {
      this.(slots := slots + [Saved()], start := start + len, len := 0, kind := KString)
    }

    function AdvanceChar(c: char): Stk
      requires start + len + 1 < |buf|
    {
      this.(slots := slots + [Saved()], buf := Written(buf, start + len, [c, '\0']), start := start + len + 1,
          len := 0, kind := KString)
    }

    /** Back to the slot on top, keeping the bytes. */
    function Reopened(): Stk
      requires slots != []
    {
      var top := slots[|slots| - 1];
      var s := this.(slots := slots[..|slots| - 1], start := top.offset, kind := top.kind, value := top.value);
      s.(len := s.HeadLength())
    }

    function Rewind(): Stk
      requires slots != [] && start < |buf|
    {
      (if kind == KString then this else this.(buf := buf[start := '\0'])).Reopened()
    }

    function RewindTerminate(): Stk
      requires slots != [] && start < |buf|
    {
      this.(buf := buf[start := '\0']).Reopened()
    }

    /** Compares the two topmost strings and leaves an empty one. */
    function CompareResult(same: (CString, CString) -> bool): bool
      requires slots != []
    {
      var top := slots[|slots| - 1];
      top.kind == kind && same(CStr(buf, top.offset), CStr(buf, start))
    }

    function Compared(): Stk
      requires slots != [] && slots[|slots| - 1].offset < |buf|
    {
      var top := slots[|slots| - 1];
      Stk(buf[top.offset := '\0'], slots[..|slots| - 1], frames, top.offset, 0, top.kind, top.value)
    }

    function PushFrame(): Stk {
      var start' := start + RETURN_SPACE;
      Stk(Grown(buf, start' + 1)[start' := '\0'], slots + [Saved()], frames + [|slots|], start', 0, KString, 0)
    }

    function PopFrame(): Stk
      requires frames != [] && frames[|frames| - 1] < |slots|
    {
      var size := frames[|frames| - 1];
      var saved := slots[size];
      Stk(buf, slots[..size], frames[..|frames| - 1], saved.offset, saved.len, saved.kind, saved.value)
    }

    /** What a slot's value reads as. */
    function ArgumentAt(i: nat): Argument
      requires i < |slots|
    {
      if slots[i].kind == KString then StringArg(CStr(buf, slots[i].offset))
          else PackedArg(slots[i].kind, slots[i].value)
    }

    function HeadArgument(): Argument {
      if kind == KString then StringArg(Head()) else PackedArg(kind, value)
    }
  }

  // ----- runs of operations -----

  /** What a finished call leaves at the head. */
  datatype Result = StringResult(s: CString) | UnsignedResult(u: nat) | NumberResult(bits: nat)

  datatype Op =
    | DoSet(r: Result)
    | DoAdvance
    | DoAdvanceChar(c: char)
    | DoRewind
    | DoRewindTerminate
    | DoCompare
    | DoPushFrame
    | DoReturn(r: Result)

  function Set(s: Stk, r: Result): Stk {
    match r
    case StringResult(x) => s.SetString(x)
    case UnsignedResult(u) => s.SetPacked(KUnsigned, u)
    case NumberResult(bits) => s.SetPacked(KNumber, bits)
  }

  /**
    What an operation asks of its caller: the depth assertions, a string to run on from, one byte
    behind a string for the appended character, and, when taking something off, that it lies in the
    topmost frame. `outer` frames are not to be left.
   */
  predicate Allowed(op: Op, s: Stk, outer: nat) {
    match op
    case DoSet(_) => true
    case DoAdvance => |s.slots| < STACK_DEPTH - 1 && s.kind == KString
    case DoAdvanceChar(_) => |s.slots| < STACK_DEPTH - 1 && s.start + s.len + 1 < |s.buf|
    case DoRewind | DoRewindTerminate | DoCompare => |s.slots| > s.Floor()
    case DoPushFrame => |s.slots| < STACK_DEPTH - 1 && |s.frames| < FRAME_DEPTH - 1
    case DoReturn(_) => |s.frames| > outer
  }

  function Apply(op: Op, s: Stk): Stk
    requires s.Wf() && Allowed(op, s, 0)
  {
    match op
    case DoSet(r) => Set(s, r)
    case DoAdvance => s.Advance()
    case DoAdvanceChar(c) => s.AdvanceChar(c)
    case DoRewind => s.Rewind()
    case DoRewindTerminate => s.RewindTerminate()
    case DoCompare => s.Compared()
    case DoPushFrame => s.PushFrame()
    case DoReturn(r) => Set(s.PopFrame(), r)
  }

  // ----- every operation keeps the stack sound -----

  /** Every NUL-bounded scan of `b` is one of `c`. */
  ghost predicate Keeps(b: seq<char>, c: seq<char>) {
    |b| <= |c| && forall at :: Ends(b, at) ==> Ends(c, at)
  }

  lemma KeepsGrown(buf: seq<char>, size: nat)
    ensures Keeps(buf, Grown(buf, size))
  {
  }

  /** Laying a terminated text over the buffer never loses the last NUL: its own comes after. */
  lemma KeepsWritten(buf: seq<char>, at: nat, s: string)
    requires at + |s| < |buf|
    ensures Keeps(buf, Written(buf, at, s + "\0"))
    ensures Ends(Written(buf, at, s + "\0"), at + |s|)
  {
    var w := Written(buf, at, s + "\0");
    assert w[at + |s|] == '\0';
    forall pos: nat | Ends(buf, pos) ensures Ends(w, pos) {
      var j :| pos <= j < |buf| && buf[j] == '\0';
      if at <= j <= at + |s| {
        assert pos <= at + |s|;
      } else {
        assert w[j] == '\0';
      }
    }
  }

  lemma KeepsTerminated(buf: seq<char>, at: nat)
    requires at < |buf|
    ensures Keeps(buf, buf[at := '\0'])
    ensures Ends(buf[at := '\0'], at)
  {
    var w := buf[at := '\0'];
    assert w[at] == '\0';
    forall pos: nat | Ends(buf, pos) ensures Ends(w, pos) {
      var j :| pos <= j < |buf| && buf[j] == '\0';
      assert w[j] == '\0';
    }
  }

  /** A scan that starts before a NUL stops before the end of the buffer. */
  lemma {:induction false} CStrStops(buf: seq<char>, at: nat, nul: nat)
    requires at <= nul < |buf| && buf[nul] == '\0'
    ensures at + |CStr(buf, at)| <= nul
    ensures buf[at + |CStr(buf, at)|] == '\0'
    ensures buf[at..at + |CStr(buf, at)|] == CStr(buf, at)
    decreases nul - at
  {
    if buf[at] != '\0' {
      CStrStops(buf, at + 1, nul);
    }
  }

  lemma CStrEnds(buf: seq<char>, at: nat)
    requires Ends(buf, at)
    ensures Ends(buf, at + |CStr(buf, at)|)
  {
    var j :| at <= j < |buf| && buf[j] == '\0';
    CStrStops(buf, at, j);
  }

  /** A terminated text reads back. */
  lemma {:induction false} CStrOf(buf: seq<char>, at: nat, s: CString)
    requires at + |s| < |buf| && buf[at..at + |s|] == s && buf[at + |s|] == '\0'
    ensures CStr(buf, at) == s
    decreases |s|
  {
    if s != "" {
      assert buf[at] == s[0];
      assert NulFree(s[1..]);
      CStrOf(buf, at + 1, s[1..]);
    }
  }

  /** The same slots and frames over a buffer that keeps its NULs. */
  lemma SameSlots(s: Stk, t: Stk)
    requires s.Wf() && t.slots == s.slots && t.frames == s.frames && t.start == s.start
    requires Keeps(s.buf, t.buf) && Ends(t.buf, t.start + t.len)
    ensures t.Wf()
  {
  }

  /** One more slot, holding what was the head. */
  lemma OneMoreSlot(s: Stk, t: Stk)
    requires s.Wf() && t.slots == s.slots + [s.Saved()] && t.start >= s.start
    requires t.frames == s.frames || t.frames == s.frames + [|s.slots|]
    requires Keeps(s.buf, t.buf) && Ends(t.buf, t.start + t.len)
    ensures t.Wf()
  {
  }

  lemma SetSound(s: Stk, r: Result)
    requires s.Wf()
    ensures Set(s, r).Sound()
  {
    hide CStr, Grown, Written;
    var t := Set(s, r);
    match r {
      case StringResult(x) =>
        var b := Grown(s.buf, s.start + |x| + 2);
        KeepsGrown(s.buf, s.start + |x| + 2);
        KeepsWritten(b, s.start, x);
        assert t.buf[s.start..s.start + |x| + 1] == x + "\0";
        assert t.buf[s.start + |x|] == t.buf[s.start..s.start + |x| + 1][|x|];
        assert t.buf[s.start..s.start + |x|] == t.buf[s.start..s.start + |x| + 1][..|x|];
        CStrOf(t.buf, s.start, x);
      case UnsignedResult(_) | NumberResult(_) =>
        KeepsGrown(s.buf, s.start + 16);
        EndsBelow(s.buf, s.start + s.len, s.start);
    }
    SameSlots(s, t);
  }

  lemma EndsBelow(buf: seq<char>, a: nat, b: nat)
    requires Ends(buf, a) && b <= a
    ensures Ends(buf, b)
  {
    var j :| a <= j < |buf| && buf[j] == '\0';
  }

  lemma AdvanceSound(s: Stk)
    requires s.Sound() && s.kind == KString
    ensures s.Advance().Sound()
  {
    var j :| s.start + s.len <= j < |s.buf| && s.buf[j] == '\0';
    CStrStops(s.buf, s.start, j);
    hide CStr;
    CStrOf(s.buf, s.start + s.len, "");
    OneMoreSlot(s, s.Advance());
  }

  /**
    Advancing is safe over any head, but over a number the new head's length is 0 although the bytes there
    are whatever was left: it is right exactly over a string, or where the byte is a NUL.
   */
  lemma AdvanceSettles(s: Stk)
    requires s.Sound()
    ensures s.start < |s.buf| && s.Advance().Wf()
    ensures s.Advance().Sound() <==> s.kind == KString || s.buf[s.start] == '\0'
  {
    hide CStr;
    OneMoreSlot(s, s.Advance());
    if s.kind == KString {
      AdvanceSound(s);
    } else {
      EmptyOnlyAtNul(s.buf, s.start);
    }
  }

  lemma EmptyOnlyAtNul(buf: seq<char>, at: nat)
    requires at < |buf|
    ensures |CStr(buf, at)| == 0 <==> buf[at] == '\0'
  {
  }

  lemma AdvanceCharSound(s: Stk, c: char)
    requires s.Wf() && s.start + s.len + 1 < |s.buf|
    ensures s.AdvanceChar(c).Sound()
  {
    hide CStr, Written;
    var t := s.AdvanceChar(c);
    KeepsWritten(s.buf, s.start + s.len, [c]);
    assert t.buf[s.start + s.len..s.start + s.len + 2] == [c, '\0'];
    assert t.buf[t.start] == t.buf[s.start + s.len..s.start + s.len + 2][1];
    CStrOf(t.buf, t.start, "");
    OneMoreSlot(s, t);
  }

  lemma ReopenedSound(s: Stk)
    requires s.Wf() && |s.slots| > s.Floor()
    ensures s.Reopened().Sound()
  {
    hide CStr;
    var t := s.Reopened();
    EndsBelow(s.buf, s.start + s.len, t.start);
    CStrEnds(s.buf, t.start);
  }

  lemma TerminatedSound(s: Stk)
    requires s.Wf() && |s.slots| > s.Floor()
    ensures s.start < |s.buf| && s.(buf := s.buf[s.start := '\0'], len := 0).Wf()
    ensures s.RewindTerminate().Sound()
  {
    hide CStr;
    KeepsTerminated(s.buf, s.start);
    var t := s.(buf := s.buf[s.start := '\0'], len := 0);
    SameSlots(s, t);
    ReopenedSound(t);
    assert t.Reopened() == s.RewindTerminate();
  }

  lemma RewindSound(s: Stk)
    requires s.Wf() && |s.slots| > s.Floor()
    ensures s.Rewind().Sound()
  {
    hide CStr;
    if s.kind == KString {
      ReopenedSound(s);
    } else {
      TerminatedSound(s);
      assert s.Rewind() == s.RewindTerminate();
    }
  }

  lemma ComparedSound(s: Stk)
    requires s.Wf() && |s.slots| > s.Floor()
    ensures s.Compared().Sound()
  {
    hide CStr;
    var t := s.Compared();
    KeepsTerminated(s.buf, t.start);
    CStrOf(t.buf, t.start, "");
  }

  lemma PushFrameSound(s: Stk)
    requires s.Wf()
    ensures s.PushFrame().Sound()
  {
    hide CStr, Grown;
    var t := s.PushFrame();
    KeepsGrown(s.buf, t.start + 1);
    KeepsTerminated(Grown(s.buf, t.start + 1), t.start);
    CStrOf(t.buf, t.start, "");
    OneMoreSlot(s, t);
  }

  lemma PopFrameWf(s: Stk)
    requires s.Wf() && s.frames != []
    ensures s.frames[|s.frames| - 1] < |s.slots| && s.PopFrame().Wf()
  {
  }

  /** Whatever an operation finds on a sound stack, it leaves a sound stack. */
  lemma StaysSound(op: Op, s: Stk)
    requires s.Sound() && Allowed(op, s, 0)
    ensures Apply(op, s).Sound()
  {
    hide CStr, Stk.Settled;
    match op {
      case DoSet(r) => SetSound(s, r);
      case DoAdvance => AdvanceSound(s);
      case DoAdvanceChar(c) => AdvanceCharSound(s, c);
      case DoRewind => RewindSound(s);
      case DoRewindTerminate => TerminatedSound(s);
      case DoCompare => ComparedSound(s);
      case DoPushFrame => PushFrameSound(s);
      case DoReturn(r) =>
        PopFrameWf(s);
        SetSound(s.PopFrame(), r);
    }
  }
}
