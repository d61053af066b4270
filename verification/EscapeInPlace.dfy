/** The lexer and the escape reader as they work: inside the buffer that holds the text. */
module EscapeInPlace {
  import opened Values
  import opened Escape

  // ----- the escape reader -----

  /** memmove of `n` bytes towards the start. */
  method MoveDown(buf: array<Byte>, to: nat, from: nat, n: nat)
    requires to <= from && from + n <= buf.Length
    modifies buf
    ensures buf[..to] == old(buf[..to]) && buf[to..to + n] == old(buf[from..from + n])
  {
    var k := 0;
    while k < n
      invariant 0 <= k <= n
      invariant buf[..to] == old(buf[..to]) && buf[to..to + k] == old(buf[from..from + k])
      invariant buf[to + k..] == old(buf[to + k..])
    {
      buf[to + k] := buf[from + k];
      assert old(buf[from..from + k + 1]) == old(buf[from..from + k]) + [old(buf[from + k])];
      assert buf[to..to + k + 1] == buf[to..to + k] + [buf[to + k]];
      k := k + 1;
    }
  }

  /** Where the terminator is. */
  method StringEnd(buf: array<Byte>) returns (n: nat)
    requires exists k :: 0 <= k < buf.Length && buf[k] == NUL
    ensures n < buf.Length && buf[n] == NUL && NUL !in buf[..n]
    ensures forall k :: 0 <= k < buf.Length && buf[k] == NUL ==> n <= k
  {
    n := 0;
    while buf[n] != NUL
      invariant n < buf.Length && forall k :: 0 <= k < n ==> buf[k] != NUL
      invariant exists k :: n <= k < buf.Length && buf[k] == NUL
      decreases buf.Length - n
    {
      n := n + 1;
    }
  }

  /**
    Replaces `size` bytes at `i` by the bytes of `with`, closing the gap; the text ends before `len`. The
    move takes as many bytes from behind the text as it has put down.
   */
  method Replace(buf: array<Byte>, i: nat, size: nat, with: seq<Byte>, len: nat)
    requires i + size <= len && |with| < size && len + |with| <= buf.Length && |with| in {1, 2}
    modifies buf
    ensures buf[..i] == old(buf[..i]) && buf[i..len - size + |with|] == with + old(buf[i + size..len])
  {
    ghost var was := buf[..];
    buf[i] := with[0];
    if |with| == 2 {
      buf[i + 1] := with[1];
    }
    ghost var put := buf[..];
    assert put == was[..i] + with + was[i + |with|..];
    MoveDown(buf, i + |with|, i + size, len - i - size + |with|);
    GapClosed(was, put, buf[..], i, size, with, len);
  }

  lemma GapClosed(was: seq<Byte>, put: seq<Byte>, now: seq<Byte>, i: nat, size: nat, with: seq<Byte>, len: nat)
    requires i + size <= len && |with| < size && len + |with| <= |was| == |now|
    requires put == was[..i] + with + was[i + |with|..] && now[..i + |with|] == put[..i + |with|]
    requires now[i + |with|..len - size + 2 * |with|] == put[i + size..len + |with|]
    ensures now[..i] == was[..i] && now[i..len - size + |with|] == with + was[i + size..len]
  {
    var n := len - i - size;
    assert now[..i] == now[..i + |with|][..i];
    assert now[i..i + |with|] == now[..i + |with|][i..] == with;
    assert now[i + |with|..len - size + |with|] == now[i + |with|..len - size + 2 * |with|][..n];
    assert put[i + size..len + |with|][..n] == put[i + size..len] == was[i + size..len];
    assert now[i..len - size + |with|] == now[i..i + |with|] + now[i + |with|..len - size + |with|];
  }

  lemma CollapsedStep(b: seq<Byte>, first: bool)
    requires b != []
    ensures b[0] != BACKSLASH ==> Collapsed(b, first) == Prefixed([b[0]], Collapsed(b[1..], false))
    ensures b[0] == BACKSLASH && Unescape(b).Malformed? ==> Collapsed(b, first) == None
    ensures b[0] == BACKSLASH && Unescape(b).Unescaped? ==>
      var u := Unescape(b);
      Collapsed(b, first)
          == Prefixed(if b[1] == LOWER_C then Guarded(u.byte, first) else [u.byte], Collapsed(b[u.size..], false))
  {
  }

  /** The whole text is what has been put down and what is still to be read. */
  ghost predicate Halfway(all: seq<Byte>, out: seq<Byte>, rest: seq<Byte>, first: bool) {
    Collapsed(all, true) == Prefixed(out, Collapsed(rest, first))
  }

  lemma Goes(all: seq<Byte>, out: seq<Byte>, more: seq<Byte>, rest: seq<Byte>, rest': seq<Byte>, first: bool)
    requires Halfway(all, out, rest, first) && Collapsed(rest, first) == Prefixed(more, Collapsed(rest', false))
    ensures Halfway(all, out + more, rest', false)
  {
    if Collapsed(rest', false).Some? {
      var r := Collapsed(rest', false).value;
      assert out + (more + r) == (out + more) + r;
    }
  }

  lemma PrefixedTwice(a: seq<Byte>, b: seq<Byte>, r: Option<seq<Byte>>)
    ensures Prefixed(a, Prefixed(b, r)) == Prefixed(a + b, r)
  {
    if r.Some? {
      assert a + (b + r.value) == a + b + r.value;
    }
  }

  lemma OrdinaryOne(b: seq<Byte>)
    ensures Collapsed([1] + b, false) == Prefixed([1], Collapsed(b, false))
  {
  }

  /** A guarded byte 1 is put down with its guard and then read as an ordinary byte. */
  lemma GoesOne(all: seq<Byte>, out: seq<Byte>, with: seq<Byte>, rest: seq<Byte>, rest': seq<Byte>, first: bool)
    requires Halfway(all, out, rest, first) && Collapsed(rest, first) == Prefixed(with, Collapsed(rest', false))
    requires |with| == 1 || with == [2, 1]
    ensures Halfway(all, out + [with[0]], with[1..] + rest', false)
  {
    hide Collapsed, Halfway;
    var b := with[1..] + rest';
    if |with| == 2 {
      OrdinaryOne(rest');
      PrefixedTwice([with[0]], [1], Collapsed(rest', false));
      assert with == [with[0]] + [1] && b == [1] + rest';
    } else {
      assert b == rest' && with == [with[0]];
    }
    Goes(all, out, [with[0]], rest, b, first);
  }

  /**
    How many bytes behind the text its moves touch: those of its first escape, as each escape shortens the
    text by at least as many as the next one reads behind it.
   */
  function Slack(b: seq<Byte>, first: bool): nat {
    if b == [] then 0
    else if b[0] != BACKSLASH then Slack(b[1..], false)
    else
      match Unescape(b)
      case Malformed => 0
      case Unescaped(byte, _) => if b[1] == LOWER_C then |Guarded(byte, first)| else 1
  }

  lemma {:induction false} LittleSlack(b: seq<Byte>)
    ensures Slack(b, false) <= 1
  {
    hide Unescape;
    if b != [] && b[0] != BACKSLASH {
      LittleSlack(b[1..]);
    }
  }

  /** The escape at `i`. */
  method CollapseAt(buf: array<Byte>, i: nat, size: nat, ghost all: seq<Byte>) returns (ok: bool, newSize: nat)
    requires i < size <= buf.Length && size + Slack(buf[i..size], i == 0) <= buf.Length && buf[i] == BACKSLASH
        && Halfway(all, buf[..i], buf[i..size], i == 0)
    modifies buf
    ensures !ok ==> Collapsed(all, true) == None
    ensures ok ==> i + 1 <= newSize < size && Halfway(all, buf[..i + 1], buf[i + 1..newSize], false)
  {
    hide Collapsed, Unescape, Halfway;
    ghost var rest, done := buf[i..size], buf[..i];
    CollapsedStep(rest, i == 0);
    var u := Unescape(buf[i..size]);
    if u.Malformed? {
      GivesUp(all, done, rest, i == 0);
      return false, size;
    }
    Shorter(rest, i == 0);
    var with := if buf[i + 1] == LOWER_C then Guarded(u.byte, i == 0) else [u.byte];
    ghost var left := rest[u.size..];
    GoesOne(all, done, with, rest, left, i == 0);
    assert left == buf[i + u.size..size];
    Replace(buf, i, u.size, with, size);
    ok, newSize := true, size - u.size + |with|;
    PastFirst(buf[..], i, newSize, with, left);
  }

  lemma PastFirst(now: seq<Byte>, i: nat, end: nat, with: seq<Byte>, left: seq<Byte>)
    requires i < end <= |now| && with != [] && now[i..end] == with + left
    ensures now[..i + 1] == now[..i] + [with[0]] && now[i + 1..end] == with[1..] + left
  {
  }

  /**
    Collapses the escapes of the string in the buffer, in place. `len` bytes, the terminator among them,
    are left; on a malformed escape it gives up.
   */
  method CollapseEscape(buf: array<Byte>) returns (ok: bool, ghost len: nat, ghost n: nat)
    requires exists k :: 0 <= k < buf.Length && buf[k] == NUL
    requires forall k :: 0 <= k < buf.Length && buf[k] == NUL && NUL !in buf[..k] ==>
        k + 1 + Slack(buf[..k + 1], true) <= buf.Length
    modifies buf
    ensures len <= buf.Length && n < buf.Length && NUL !in old(buf[..n]) && old(buf[n]) == NUL
    ensures Collapsed(old(buf[..n + 1]), true) == if ok then Some(buf[..len]) else None
  {
    hide Collapsed, Unescape, Halfway;
    var end := StringEnd(buf);
    ghost var all := buf[..end + 1];
    n := end;
    var size := end + 1;
    var i := 0;
    NothingYet(all);
    assert buf[..0] == [] && buf[0..size] == all;
    while i < size
      invariant 0 <= i <= size <= buf.Length && size + Slack(buf[i..size], i == 0) <= buf.Length
      invariant Halfway(all, buf[..i], buf[i..size], i == 0)
      decreases size - i
    {
      if buf[i] != BACKSLASH {
        CollapsedStep(buf[i..size], i == 0);
        assert buf[i..size][1..] == buf[i + 1..size] && buf[..i + 1] == buf[..i] + [buf[i]];
        Goes(all, buf[..i], [buf[i]], buf[i..size], buf[i + 1..size], i == 0);
      } else {
        ok, size := CollapseAt(buf, i, size, all);
        if !ok {
          len := 0;
          return;
        }
        LittleSlack(buf[i + 1..size]);
      }
      i := i + 1;
    }
    ok, len := true, size;
    assert buf[i..size] == [];
    AllDone(all, buf[..size]);
  }

  lemma NothingYet(all: seq<Byte>)
    ensures Halfway(all, [], all, true)
  {
    if Collapsed(all, true).Some? {
      assert [] + Collapsed(all, true).value == Collapsed(all, true).value;
    }
  }

  lemma GivesUp(all: seq<Byte>, out: seq<Byte>, rest: seq<Byte>, first: bool)
    requires Halfway(all, out, rest, first) && Collapsed(rest, first) == None
    ensures Collapsed(all, true) == None
  {
  }

  lemma AllDone(all: seq<Byte>, out: seq<Byte>)
    ensures forall first :: Halfway(all, out, [], first) ==> Collapsed(all, true) == Some(out)
  {
    assert forall first :: Collapsed([], first) == Some([]);
    assert out + [] == out;
  }

  lemma Shorter(b: seq<Byte>, first: bool)
    requires b != [] && b[0] == BACKSLASH && Unescape(b).Unescaped?
    ensures var u := Unescape(b);
      var with := if b[1] == LOWER_C then Guarded(u.byte, first) else [u.byte];
      |with| < u.size && |with| in {1, 2}
  {
  }
}
