/**
  The byte-level string stack does what the machine's string stack says: the machine keeps whole
  strings, the interpreter one buffer in which they run into each other.
 */
module StringText {
  import opened Values
  import opened CodeGen
  import opened Machine
  import opened StringStacks
  import opened StringFrames

  /** Where the value after slot `k` starts. */
  function Next(s: Stk, k: nat): nat
    requires k < |s.slots|
  {
    if k + 1 < |s.slots| then s.slots[k + 1].offset else s.start
  }

  /** Slot `k` holds the pending string, with its NUL when closed, right up to the next value. */
  ghost predicate Piece(s: Stk, k: nat, p: Pending)
    requires k < |s.slots|
  {
    var at := s.slots[k].offset;
    && s.slots[k].kind == KString
    && at + |p.text| < |s.buf|
    && s.buf[at..at + |p.text|] == p.text
    && (p.closed ==> s.buf[at + |p.text|] == '\0')
    && Next(s, k) == at + |p.text| + (if p.closed then 1 else 0)
  }

  /** From slot `lo` on, the bytes of `s` show the pending strings and the head. */
  ghost predicate Shows(s: Stk, lo: nat, strs: seq<Pending>, head: CString) {
    && s.Sound() && s.kind == KString && s.Head() == head
    && lo >= s.Floor()
    && |s.slots| == lo + |strs|
    && forall i :: 0 <= i < |strs| ==> Piece(s, lo + i, strs[i])
  }

  lemma ShowsWf(s: Stk, lo: nat, strs: seq<Pending>, head: CString)
    requires Shows(s, lo, strs, head)
    ensures s.Wf() && s.Sound() && s.kind == KString
    ensures strs != [] ==> |s.slots| > s.Floor()
  {
  }

  /** The bytes of a string head and of the NUL behind it. */
  lemma HeadBytes(s: Stk)
    requires s.Sound() && s.kind == KString
    ensures s.start + s.len < |s.buf| && s.len == |s.Head()|
    ensures s.buf[s.start..s.start + s.len] == s.Head() && s.buf[s.start + s.len] == '\0'
  {
    var j :| s.start + s.len <= j < |s.buf| && s.buf[j] == '\0';
    CStrStops(s.buf, s.start, j);
  }

  /** A piece stays one when the bytes below the start of the head do not change. */
  lemma PieceStays(s: Stk, t: Stk, k: nat, p: Pending)
    requires s.Wf() && k < |s.slots| && Piece(s, k, p)
    requires k < |t.slots| && t.slots[k] == s.slots[k] && Next(t, k) == Next(s, k)
    requires s.start <= |t.buf| && s.start <= |s.buf| && t.buf[..s.start] == s.buf[..s.start]
    requires s.slots[k].offset + |p.text| < |t.buf|
    requires p.closed || Next(s, k) <= s.start
    ensures Piece(t, k, p)
  {
    var at := s.slots[k].offset;
    assert Next(s, k) <= s.start;
    assert forall i :: 0 <= i < s.start ==> t.buf[i] == t.buf[..s.start][i] == s.buf[i];
    assert t.buf[at..at + |p.text|] == s.buf[at..at + |p.text|];
  }

  lemma SetShows(s: Stk, lo: nat, strs: seq<Pending>, head: CString, x: CString)
    requires Shows(s, lo, strs, head)
    ensures Shows(s.SetString(x), lo, strs, x)
  {
    hide CStr, Written, Grown, Piece;
    var t := s.SetString(x);
    SetSound(s, StringResult(x));
    var b := Grown(s.buf, s.start + |x| + 2);
    assert t.buf[s.start..s.start + |x| + 1] == x + "\0";
    assert t.buf[s.start + |x|] == t.buf[s.start..s.start + |x| + 1][|x|];
    assert t.buf[s.start..s.start + |x|] == t.buf[s.start..s.start + |x| + 1][..|x|];
    CStrOf(t.buf, s.start, x);
    assert s.start <= |s.buf| by { HeadBytes(s); }
    assert t.buf[..s.start] == b[..s.start] == b[..|s.buf|][..s.start] == s.buf[..s.start];
    forall i | 0 <= i < |strs| ensures Piece(t, lo + i, strs[i]) {
      assert Piece(s, lo + i, strs[i]);
      PieceRoom(s, lo + i, strs[i]);
      PieceStays(s, t, lo + i, strs[i]);
    }
  }

  lemma PieceRoom(s: Stk, k: nat, p: Pending)
    requires s.Wf() && k < |s.slots| && Piece(s, k, p)
    ensures s.slots[k].offset + |p.text| < |s.buf| && Next(s, k) <= s.start
  {
  }

  lemma AdvanceShows(s: Stk, lo: nat, strs: seq<Pending>, head: CString)
    requires Shows(s, lo, strs, head)
    ensures Shows(s.Advance(), lo, strs + [Pending(head, false)], "")
  {
    hide CStr, Piece;
    var t := s.Advance();
    HeadBytes(s);
    AdvanceSound(s);
    CStrOf(t.buf, t.start, "");
    forall i | 0 <= i < |strs| ensures Piece(t, lo + i, strs[i]) {
      assert Piece(s, lo + i, strs[i]);
      PieceRoom(s, lo + i, strs[i]);
      PieceStays(s, t, lo + i, strs[i]);
    }
    LastPiece(t, Pending(head, false));
  }

  lemma LastPiece(t: Stk, p: Pending)
    requires t.slots != []
    requires var top := t.slots[|t.slots| - 1];
      && top.kind == KString && top.offset + |p.text| < |t.buf|
      && t.buf[top.offset..top.offset + |p.text|] == p.text
      && (p.closed ==> t.buf[top.offset + |p.text|] == '\0')
      && t.start == top.offset + |p.text| + (if p.closed then 1 else 0)
    ensures Piece(t, |t.slots| - 1, p)
  {
  }

  lemma AdvanceCharShows(s: Stk, lo: nat, strs: seq<Pending>, head: CString, c: char)
    requires Shows(s, lo, strs, head) && s.start + s.len + 1 < |s.buf|
    ensures Shows(s.AdvanceChar(c), lo,
                  strs + [if c == '\0' then Pending(head, true) else Pending(head + [c], false)], "")
  {
    hide CStr, Piece, Written;
    var t := s.AdvanceChar(c);
    HeadBytes(s);
    AdvanceCharSound(s, c);
    var n := s.start + s.len;
    assert t.buf[n..n + 2] == [c, '\0'];
    assert t.buf[n] == t.buf[n..n + 2][0] && t.buf[n + 1] == t.buf[n..n + 2][1];
    assert t.buf[..n] == s.buf[..n];
    assert t.buf[..s.start] == t.buf[..n][..s.start] == s.buf[..s.start];
    assert t.buf[s.start..n] == t.buf[..n][s.start..] == s.buf[s.start..n];
    CStrOf(t.buf, t.start, "");
    forall i | 0 <= i < |strs| ensures Piece(t, lo + i, strs[i]) {
      assert Piece(s, lo + i, strs[i]);
      PieceRoom(s, lo + i, strs[i]);
      PieceStays(s, t, lo + i, strs[i]);
    }
    if c == '\0' {
      LastPiece(t, Pending(head, true));
    } else {
      assert t.buf[s.start..n + 1] == t.buf[s.start..n] + [c];
      LastPiece(t, Pending(head + [c], false));
    }
  }

  /** The text in a slot, read on through the head. */
  lemma JoinedReads(s: Stk, lo: nat, strs: seq<Pending>, head: CString)
    requires Shows(s, lo, strs, head) && strs != []
    ensures CStr(s.buf, s.slots[|s.slots| - 1].offset) == Joined(strs[|strs| - 1], head)
  {
    hide CStr;
    var p := strs[|strs| - 1];
    assert Piece(s, lo + (|strs| - 1), p);
    var at := s.slots[|s.slots| - 1].offset;
    HeadBytes(s);
    if p.closed {
      CStrOf(s.buf, at, p.text);
    } else {
      var all: CString := p.text + head;
      assert s.buf[at..at + |all|] == s.buf[at..s.start] + s.buf[s.start..s.start + s.len];
      CStrOf(s.buf, at, all);
    }
  }

  /** Taking the top slot off leaves the pieces under it. */
  lemma PiecesUnder(s: Stk, lo: nat, strs: seq<Pending>, head: CString, t: Stk)
    requires Shows(s, lo, strs, head) && strs != []
    requires t.slots == s.slots[..|s.slots| - 1] && t.start == s.slots[|s.slots| - 1].offset
    requires |t.buf| == |s.buf| && t.buf[..t.start] == s.buf[..t.start]
    ensures forall i :: 0 <= i < |strs| - 1 ==> Piece(t, lo + i, strs[i])
  {
    hide CStr;
    HeadBytes(s);
    forall i | 0 <= i < |strs| - 1 ensures Piece(t, lo + i, strs[i]) {
      var k, p := lo + i, strs[i];
      assert Piece(s, k, p) && Next(t, k) == Next(s, k);
      var at := s.slots[k].offset;
      assert at + |p.text| <= t.start;
      assert forall j :: 0 <= j < t.start ==> t.buf[j] == t.buf[..t.start][j] == s.buf[j];
      assert t.buf[at..at + |p.text|] == s.buf[at..at + |p.text|];
    }
  }

  lemma RewindShows(s: Stk, lo: nat, strs: seq<Pending>, head: CString)
    requires Shows(s, lo, strs, head) && strs != []
    ensures s.start < |s.buf| && Shows(s.Rewind(), lo, strs[..|strs| - 1], Joined(strs[|strs| - 1], head))
  {
    hide CStr, Stk.Wf, Stk.Settled, Stk.Floor, Piece;
    ShowsWf(s, lo, strs, head);
    HeadStarts(s);
    RewindSound(s);
    JoinedReads(s, lo, strs, head);
    PiecesUnder(s, lo, strs, head, s.Rewind());
    FloorSame(s, s.Rewind());
    TopKind(s, lo, strs, head);
  }

  lemma HeadStarts(s: Stk)
    requires s.Wf()
    ensures s.start < |s.buf|
  {
  }

  lemma FloorSame(s: Stk, t: Stk)
    requires s.frames == t.frames
    ensures s.Floor() == t.Floor()
  {
  }

  lemma TopBytes(s: Stk, lo: nat, strs: seq<Pending>, head: CString)
    requires Shows(s, lo, strs, head) && strs != []
    ensures var top, p := s.slots[|s.slots| - 1], strs[|strs| - 1];
      && top.kind == KString && top.offset + |p.text| < |s.buf| && top.offset + |p.text| <= s.start < |s.buf|
      && s.buf[top.offset..top.offset + |p.text|] == p.text
      && s.buf[s.start := '\0'][top.offset + |p.text|] == '\0'
  {
    assert Piece(s, lo + (|strs| - 1), strs[|strs| - 1]);
  }

  lemma TopKind(s: Stk, lo: nat, strs: seq<Pending>, head: CString)
    requires Shows(s, lo, strs, head) && strs != []
    ensures s.slots[|s.slots| - 1].kind == KString
  {
    assert Piece(s, lo + (|strs| - 1), strs[|strs| - 1]);
  }

  lemma TerminateShows(s: Stk, lo: nat, strs: seq<Pending>, head: CString)
    requires Shows(s, lo, strs, head) && strs != []
    ensures s.start < |s.buf| && Shows(s.RewindTerminate(), lo, strs[..|strs| - 1], strs[|strs| - 1].text)
  {
    hide CStr, Stk.Wf, Stk.Settled, Stk.Floor, Piece;
    ShowsWf(s, lo, strs, head);
    HeadStarts(s);
    TerminatedSound(s);
    var t := s.RewindTerminate();
    var p := strs[|strs| - 1];
    TopBytes(s, lo, strs, head);
    var at := s.slots[|s.slots| - 1].offset;
    assert t.buf[at..at + |p.text|] == s.buf[at..at + |p.text|];
    CStrOf(t.buf, at, p.text);
    PiecesUnder(s, lo, strs, head, t);
    FloorSame(s, t);
  }

  lemma CompareShows(s: Stk, lo: nat, strs: seq<Pending>, head: CString, same: (CString, CString) -> bool)
    requires Shows(s, lo, strs, head) && strs != []
    ensures s.slots[|s.slots| - 1].offset < |s.buf|
    ensures Shows(s.Compared(), lo, strs[..|strs| - 1], "")
    ensures s.CompareResult(same) == same(Joined(strs[|strs| - 1], head), head)
  {
    hide CStr, Stk.Wf, Stk.Settled, Stk.Floor, Piece;
    ShowsWf(s, lo, strs, head);
    HeadStarts(s);
    ComparedSound(s);
    JoinedReads(s, lo, strs, head);
    var t := s.Compared();
    CStrOf(t.buf, t.start, "");
    PiecesUnder(s, lo, strs, head, t);
    FloorSame(s, t);
    TopKind(s, lo, strs, head);
  }

  // ----- whole runs -----

  /** What the interpreter does to its string stack for one opcode; `head` is the string it loads, if it does. */
  function StringOp(op: OpCode, w: Word, head: CString): Option<Op> {
    match op
    case LOADVAR_STR | FLT_TO_STR | UINT_TO_STR | LOADIMMED_STR | LOADIMMED_IDENT => Some(DoSet(StringResult(head)))
    case ADVANCE_STR => Some(DoAdvance)
    case ADVANCE_STR_COMMA => Some(DoAdvanceChar('_'))
    case ADVANCE_STR_NUL => Some(DoAdvanceChar('\0'))
    case ADVANCE_STR_APPENDCHAR => if w.Chr? then Some(DoAdvanceChar(w.c)) else None
    case REWIND_STR => Some(DoRewind)
    case TERMINATE_REWIND_STR => Some(DoRewindTerminate)
    case COMPARE_STR => Some(DoCompare)
    case _ => None
  }

  /** The byte-level effect of one step that keeps running; None where the string stack's assertions fail. */
  ghost function Bytes(op: OpCode, w: Word, head: CString, s: Stk): Option<Stk>
    requires s.Wf()
  {
    match StringOp(op, w, head)
    case None => Some(s)
    case Some(o) => if Allowed(o, s, 0) then Some(Apply(o, s)) else None
  }

  /** What an opcode does to the machine's strings. */
  ghost predicate StringsAfter(ar: Arith, op: OpCode, w: Word, st: State, st': State) {
    match op
    case LOADVAR_STR | FLT_TO_STR | UINT_TO_STR | LOADIMMED_STR | LOADIMMED_IDENT => st'.strs == st.strs
    case ADVANCE_STR => st'.strs == st.strs + [Pending(st.head, false)] && st'.head == ""
    case ADVANCE_STR_COMMA => st'.strs == st.strs + [Pending(st.head + ['_'], false)] && st'.head == ""
    case ADVANCE_STR_NUL => st'.strs == st.strs + [Pending(st.head, true)] && st'.head == ""
    case ADVANCE_STR_APPENDCHAR =>
      w.Chr? && w.c != '\0' && st'.strs == st.strs + [Pending(st.head + [w.c], false)] && st'.head == ""
    case REWIND_STR =>
      st.strs != [] && st'.strs == st.strs[..|st.strs| - 1] && st'.head == Joined(st.strs[|st.strs| - 1], st.head)
    case TERMINATE_REWIND_STR =>
      st.strs != [] && st'.strs == st.strs[..|st.strs| - 1] && st'.head == st.strs[|st.strs| - 1].text
    case COMPARE_STR =>
      && st.strs != [] && st'.strs == st.strs[..|st.strs| - 1] && st'.head == ""
      && st'.ints == st.ints + [Bool(ar.equalIgnoringCase(Joined(st.strs[|st.strs| - 1], st.head), st.head))]
    case _ => st'.strs == st.strs && st'.head == st.head
  }

  predicate Advances(op: OpCode) {
    op.ADVANCE_STR? || op.ADVANCE_STR_COMMA? || op.ADVANCE_STR_NUL? || op.ADVANCE_STR_APPENDCHAR?
  }

  predicate Rewinds(op: OpCode) {
    op.REWIND_STR? || op.TERMINATE_REWIND_STR? || op.COMPARE_STR?
  }

  lemma AdvanceStrings(ar: Arith, op: OpCode, w: Word, st: State, st': State)
    requires Execute(ar, op, w, st) == Running(st') && Advances(op)
    ensures StringsAfter(ar, op, w, st, st')
  {
  }

  lemma RewindStrings(ar: Arith, op: OpCode, w: Word, st: State, st': State)
    requires Execute(ar, op, w, st) == Running(st') && Rewinds(op)
    ensures StringsAfter(ar, op, w, st, st')
  {
  }

  lemma OtherStrings(ar: Arith, op: OpCode, w: Word, st: State, st': State)
    requires Execute(ar, op, w, st) == Running(st') && !Advances(op) && !Rewinds(op)
    ensures StringsAfter(ar, op, w, st, st')
  {
  }

  lemma ExecuteStrings(ar: Arith, op: OpCode, w: Word, st: State, st': State)
    requires Execute(ar, op, w, st) == Running(st')
    ensures StringsAfter(ar, op, w, st, st')
  {
    hide Execute, StringsAfter;
    if Advances(op) {
      AdvanceStrings(ar, op, w, st, st');
    } else if Rewinds(op) {
      RewindStrings(ar, op, w, st, st');
    } else {
      OtherStrings(ar, op, w, st, st');
    }
  }

  /** The bytes after an opcode show the machine's strings after it. */
  ghost predicate ShowsAfter(ar: Arith, op: OpCode, w: Word, st: State, st': State, s: Stk, lo: nat)
    requires s.Wf()
  {
    var b := Bytes(op, w, st'.head, s);
    b.Some? ==>
      && Shows(b.value, lo, st'.strs, st'.head)
      && (op == COMPARE_STR ==> s.slots != [] && st'.ints == st.ints + [Bool(s.CompareResult(ar.equalIgnoringCase))])
  }

  lemma AdvancesShow(ar: Arith, op: OpCode, w: Word, st: State, st': State, s: Stk, lo: nat)
    requires s.Wf() && Shows(s, lo, st.strs, st.head) && Advances(op) && StringsAfter(ar, op, w, st, st')
    ensures ShowsAfter(ar, op, w, st, st', s, lo)
  {
    hide Shows, CStr, Stk.Wf, Stk.Floor, Apply, Joined;
    ShowsWf(s, lo, st.strs, st.head);
    var o := StringOp(op, w, st'.head).value;
    ApplyUnfolds(o, s);
    if Allowed(o, s, 0) {
      if op.ADVANCE_STR? {
        AdvanceShows(s, lo, st.strs, st.head);
      } else {
        AdvanceCharShows(s, lo, st.strs, st.head, o.c);
      }
    }
  }

  lemma RewindsShow(ar: Arith, op: OpCode, w: Word, st: State, st': State, s: Stk, lo: nat)
    requires s.Wf() && Shows(s, lo, st.strs, st.head) && Rewinds(op) && StringsAfter(ar, op, w, st, st')
    ensures ShowsAfter(ar, op, w, st, st', s, lo)
  {
    hide Shows, CStr, Stk.Wf, Stk.Floor, Apply, Joined;
    ShowsWf(s, lo, st.strs, st.head);
    ApplyUnfolds(StringOp(op, w, st'.head).value, s);
    if op.REWIND_STR? {
      RewindShows(s, lo, st.strs, st.head);
    } else if op.TERMINATE_REWIND_STR? {
      TerminateShows(s, lo, st.strs, st.head);
    } else {
      CompareShows(s, lo, st.strs, st.head, ar.equalIgnoringCase);
    }
  }

  lemma OthersShow(ar: Arith, op: OpCode, w: Word, st: State, st': State, s: Stk, lo: nat)
    requires s.Wf() && Shows(s, lo, st.strs, st.head) && !Advances(op) && !Rewinds(op)
        && StringsAfter(ar, op, w, st, st')
    ensures ShowsAfter(ar, op, w, st, st', s, lo)
  {
    hide Shows, CStr, Stk.Wf, Stk.Floor, Apply, Joined;
    if StringOp(op, w, st'.head).Some? {
      SetShows(s, lo, st.strs, st.head, st'.head);
      ApplyUnfolds(DoSet(StringResult(st'.head)), s);
    }
  }

  /** One executed opcode: the bytes show the machine's strings afterwards if they did before. */
  lemma ExecuteShows(ar: Arith, op: OpCode, w: Word, st: State, st': State, s: Stk, lo: nat)
    requires Shows(s, lo, st.strs, st.head)
    requires Execute(ar, op, w, st) == Running(st')
    ensures s.Wf() && ShowsAfter(ar, op, w, st, st', s, lo)
  {
    hide Shows, Execute, StringsAfter, ShowsAfter, Stk.Wf;
    ShowsWf(s, lo, st.strs, st.head);
    ExecuteStrings(ar, op, w, st, st');
    if Advances(op) {
      AdvancesShow(ar, op, w, st, st', s, lo);
    } else if Rewinds(op) {
      RewindsShow(ar, op, w, st, st', s, lo);
    } else {
      OthersShow(ar, op, w, st, st', s, lo);
    }
  }

  /** Where the text from slot `lo` on starts. */
  function Origin(s: Stk, lo: nat): nat {
    if lo < |s.slots| then s.slots[lo].offset else s.start
  }

  lemma OriginStays(op: Op, s: Stk, lo: nat)
    requires s.Wf() && lo <= |s.slots| && Within(op, s, lo, |s.frames|) && !op.DoPushFrame?
    ensures Origin(Apply(op, s), lo) == Origin(s, lo)
  {
    hide CStr, Grown, Written;
  }

  /** ... and nothing below slot `lo` and the bytes of its values is touched. */
  lemma ExecuteAbove(ar: Arith, op: OpCode, w: Word, st: State, st': State, s: Stk, lo: nat, base: Stk)
    requires Shows(s, lo, st.strs, st.head) && Above(base, s) && |base.slots| == lo
    requires Execute(ar, op, w, st) == Running(st')
    ensures Bytes(op, w, st'.head, s).Some? ==>
              && Above(base, Bytes(op, w, st'.head, s).value)
              && Origin(Bytes(op, w, st'.head, s).value, lo) == Origin(s, lo)
  {
    hide Shows, Above, CStr, Stk.Wf, Stk.Floor, Apply, Execute, Joined, Origin;
    ShowsWf(s, lo, st.strs, st.head);
    ExecuteStrings(ar, op, w, st, st');
    var o := StringOp(op, w, st'.head);
    if o.Some? && Allowed(o.value, s, 0) {
      SlotsShown(s, lo, st.strs, st.head);
      BaseFrames(base, s);
      StaysAbove(base, o.value, s);
      OriginStays(o.value, s, lo);
    }
  }

  lemma SlotsShown(s: Stk, lo: nat, strs: seq<Pending>, head: CString)
    requires Shows(s, lo, strs, head)
    ensures |s.slots| == lo + |strs|
  {
  }

  lemma BaseFrames(base: Stk, s: Stk)
    requires Above(base, s)
    ensures |base.frames| <= |s.frames|
  {
  }

  /** The byte-level stack after `n` steps of the machine from `st`; None once an assertion of it has failed. */
  ghost function BytesRun(p: Program, n: nat, st: State, s: Stk): Option<Stk> {
    if n == 0 then Some(s) else
    var c, b := Run(p, n - 1, Running(st)), BytesRun(p, n - 1, st, s);
    if c.Running? && b.Some? && b.value.Wf() && Step(p, c.s).Running? then
      Bytes(p.code[c.s.ip].op, OperandAt(p, c.s.ip), Step(p, c.s).s.head, b.value)
    else None
  }

  function OperandAt(p: Program, ip: nat): Word {
    if ip + 1 < |p.code| then p.code[ip + 1] else Num(-1)
  }

  /** Any run: at its end the bytes show the machine's strings, and all that lay below is as it was. */
  lemma {:induction false} RunShows(p: Program, n: nat, st: State, st': State, s: Stk, t: Stk, lo: nat, base: Stk)
    requires Shows(s, lo, st.strs, st.head) && Above(base, s) && |base.slots| == lo
    requires Run(p, n, Running(st)) == Running(st') && BytesRun(p, n, st, s) == Some(t)
    ensures Shows(t, lo, st'.strs, st'.head) && Above(base, t) && Origin(t, lo) == Origin(s, lo)
  {
    hide Shows, Above, Execute, Bytes, Stk.Wf, Origin;
    if n > 0 {
      var st1, s1 := Run(p, n - 1, Running(st)).s, BytesRun(p, n - 1, st, s).value;
      RunShows(p, n - 1, st, st1, s, s1, lo, base);
      ShowsWf(s1, lo, st1.strs, st1.head);
      var op, w := p.code[st1.ip].op, OperandAt(p, st1.ip);
      ExecuteShows(p.ar, op, w, st1.(ip := st1.ip + 1), st', s1, lo);
      ExecuteAbove(p.ar, op, w, st1.(ip := st1.ip + 1), st', s1, lo, base);
    }
  }

  lemma ApplyUnfolds(op: Op, s: Stk)
    requires s.Wf()
    ensures Allowed(op, s, 0) ==>
      match op
      case DoSet(r) => Apply(op, s) == Set(s, r)
      case DoAdvance => Apply(op, s) == s.Advance()
      case DoAdvanceChar(c) => s.start + s.len + 1 < |s.buf| && Apply(op, s) == s.AdvanceChar(c)
      case DoRewind => s.slots != [] && s.start < |s.buf| && Apply(op, s) == s.Rewind()
      case DoRewindTerminate => s.slots != [] && s.start < |s.buf| && Apply(op, s) == s.RewindTerminate()
      case DoCompare => s.slots != [] && s.slots[|s.slots| - 1].offset < |s.buf| && Apply(op, s) == s.Compared()
      case _ => true
  {
    hide CStr;
  }
}
