/** The lexer decodes a string literal inside the source text: escapes shrink, NULs fill up, then close up. */
module LexString {
  import opened Values
  import opened Escape

  /** A string token: where its bytes are and where lexing goes on; or an illegal token. */
  datatype Lexed = StringAt(start: nat, len: nat, next: nat, closedBy: Byte) | IllegalToken

  lemma {:induction false} NonZeroJoin(a: seq<Byte>, b: seq<Byte>)
    ensures NonZero(a + b) == NonZero(a) + NonZero(b)
  {
    if a == [] {
      assert a + b == b;
    } else {
      assert (a + b)[1..] == a[1..] + b;
      NonZeroJoin(a[1..], b);
    }
  }

  function Zeros(n: nat): (z: seq<Byte>)
    ensures |z| == n && forall i :: 0 <= i < n ==> z[i] == NUL
  {
    seq(n, i => NUL)
  }

  lemma {:induction false} ZerosVanish(n: nat)
    ensures NonZero(Zeros(n)) == []
  {
    if n > 0 {
      assert Zeros(n)[1..] == Zeros(n - 1);
      ZerosVanish(n - 1);
    }
  }

  /** An escape in place: its byte, guarded if need be, and NULs up to its old size. */
  function Padded(bytes: seq<Byte>, size: nat): (r: seq<Byte>)
    requires |bytes| <= size
    ensures |r| == size
  {
    bytes + Zeros(size - |bytes|)
  }

  lemma VanishingTail(a: seq<Byte>, z: seq<Byte>)
    requires NonZero(z) == []
    ensures NonZero(a + z) == NonZero(a)
  {
    NonZeroJoin(a, z);
    assert NonZero(a) + [] == NonZero(a);
  }

  lemma PaddedVanishes(bytes: seq<Byte>, size: nat)
    requires |bytes| <= size
    ensures NonZero(Padded(bytes, size)) == NonZero(bytes)
  {
    hide NonZero;
    var z := Zeros(size - |bytes|);
    ZerosVanish(size - |bytes|);
    VanishingTail(bytes, z);
  }

  /** What decoding the whole text comes to, from what lies decoded in place and what is still to be read. */
  ghost predicate Halfway(src: seq<Byte>, done: seq<Byte>, first: bool, quote: Byte, altQuote: Byte) {
    && |done| <= |src|
    && Decode(src, true, quote, altQuote) == After(NonZero(done), |done|, Decode(src[|done|..], first, quote, altQuote))
  }

  lemma AfterTwice(a: seq<Byte>, m: nat, b: seq<Byte>, n: nat, d: Decoding)
    ensures After(a, m, After(b, n, d)) == After(a + b, m + n, d)
  {
  }

  lemma Begins(src: seq<Byte>, quote: Byte, altQuote: Byte)
    ensures Halfway(src, [], true, quote, altQuote)
  {
  }

  /** A step that leaves `piece` in place of as many bytes read. */
  lemma Steps(src: seq<Byte>, done: seq<Byte>, piece: seq<Byte>, bytes: seq<Byte>, first: bool, first': bool,
              quote: Byte, altQuote: Byte)
    requires Halfway(src, done, first, quote, altQuote) && |done| + |piece| <= |src|
    requires NonZero(piece) == bytes
    requires Decode(src[|done|..], first, quote, altQuote)
          == After(bytes, |piece|, Decode(src[|done| + |piece|..], first', quote, altQuote))
    ensures Halfway(src, done + piece, first', quote, altQuote)
  {
    hide Decode, NonZero;
    NonZeroJoin(done, piece);
    AfterTwice(NonZero(done), |done|, bytes, |piece|, Decode(src[|done| + |piece|..], first', quote, altQuote));
  }

  /** What decoding does with the next byte. */
  lemma DecodeStep(b: seq<Byte>, first: bool, quote: Byte, altQuote: Byte)
    ensures b == [] ==> Decode(b, first, quote, altQuote) == Illegal
    ensures b != [] ==>
      var d := Decode(b, first, quote, altQuote);
      if b[0] == NEWLINE then d == Illegal
      else if b[0] == RETURN then d == After([], 1, Decode(b[1..], first, quote, altQuote))
      else if b[0] == quote || b[0] == altQuote then d == Decoded([], 1)
      else if b[0] == BACKSLASH then
        var u := Unescape(b);
        if u.Malformed? then d == Illegal
        else d == After(NonZero(Guarded(u.byte, first)), u.size, Decode(b[u.size..], false, quote, altQuote))
      else d == After(NonZero([b[0]]), 1, Decode(b[1..], false, quote, altQuote))
  {
  }

  lemma Stops(b: seq<Byte>, first: bool, quote: Byte, altQuote: Byte)
    requires b == [] || b[0] == NEWLINE
        || (b[0] == BACKSLASH && b[0] != quote && b[0] != altQuote && Unescape(b).Malformed?)
    ensures Decode(b, first, quote, altQuote) == Illegal
  {
  }

  lemma Quoted(b: seq<Byte>, first: bool, quote: Byte, altQuote: Byte)
    requires b != [] && b[0] != NEWLINE && b[0] != RETURN && (b[0] == quote || b[0] == altQuote)
    ensures Decode(b, first, quote, altQuote) == Decoded([], 1)
  {
  }

  lemma GivesUp(src: seq<Byte>, done: seq<Byte>, first: bool, quote: Byte, altQuote: Byte)
    requires Halfway(src, done, first, quote, altQuote) && Decode(src[|done|..], first, quote, altQuote) == Illegal
    ensures Decode(src, true, quote, altQuote) == Illegal
  {
  }

  lemma Closes(src: seq<Byte>, done: seq<Byte>, first: bool, quote: Byte, altQuote: Byte)
    requires Halfway(src, done, first, quote, altQuote)
        && Decode(src[|done|..], first, quote, altQuote) == Decoded([], 1)
    ensures Decode(src, true, quote, altQuote) == Decoded(NonZero(done), |done| + 1)
  {
  }

  /** What the first pass leaves in place of the next byte or escape. */
  function Piece(b: seq<Byte>, first: bool): (r: seq<Byte>)
    requires b != [] && (b[0] == BACKSLASH ==> Unescape(b).Unescaped?)
    ensures 1 <= |r| <= |b|
  {
    if b[0] == RETURN then [NUL]
    else if b[0] == BACKSLASH then Padded(Guarded(Unescape(b).byte, first), Unescape(b).size)
    else [b[0]]
  }

  lemma PieceDecodes(b: seq<Byte>, first: bool, quote: Byte, altQuote: Byte)
    requires b != [] && (b[0] == BACKSLASH ==> Unescape(b).Unescaped?)
    requires b[0] != NEWLINE && (b[0] == RETURN || (b[0] != quote && b[0] != altQuote))
    ensures var p := Piece(b, first);
      Decode(b, first, quote, altQuote)
          == After(NonZero(p), |p|, Decode(b[|p|..], first && b[0] == RETURN, quote, altQuote))
  {
    DecodeStep(b, first, quote, altQuote);
    hide Decode, Unescape;
    if b[0] == RETURN {
      ZeroVanishes();
    } else if b[0] == BACKSLASH {
      hide NonZero, Zeros;
      PaddedVanishes(Guarded(Unescape(b).byte, first), Unescape(b).size);
    }
  }

  lemma ZeroVanishes()
    ensures NonZero([NUL]) == []
  {
  }

  /** First pass: decodes in place up to the closing quote, which is zapped. */
  method DecodePass(buf: array<Byte>, bufEnd: nat, start: nat, quote: Byte, altQuote: Byte)
    returns (boundary: Option<nat>, closedBy: Byte)
    requires start <= bufEnd <= buf.Length
    modifies buf
    ensures buf[..start] == old(buf[..start]) && buf[bufEnd..] == old(buf[bufEnd..])
    ensures boundary.None? ==> Decode(old(buf[start..bufEnd]), true, quote, altQuote) == Illegal
    ensures boundary.Some? ==>
      && start <= boundary.value < bufEnd && closedBy in {quote, altQuote} && closedBy == old(buf[boundary.value])
      && Decode(old(buf[start..bufEnd]), true, quote, altQuote)
         == Decoded(NonZero(buf[start..boundary.value]), boundary.value - start + 1)
      && buf[boundary.value] == NUL && buf[boundary.value + 1..] == old(buf[boundary.value + 1..])
  {
    hide Decode, Unescape, NonZero, Halfway, Piece;
    ghost var src, was := buf[start..bufEnd], buf[..];
    var idx := start;
    var first := true;
    Begins(src, quote, altQuote);
    assert buf[start..start] == [];
    while true
      invariant start <= idx <= bufEnd
      invariant buf[..start] == was[..start] && buf[idx..] == was[idx..]
      invariant Halfway(src, buf[start..idx], first, quote, altQuote)
      decreases bufEnd - idx
    {
      ghost var done := buf[start..idx];
      Ahead(was, buf[..], start, idx, bufEnd);
      if idx >= bufEnd || buf[idx] == NEWLINE {
        Stops(buf[idx..bufEnd], first, quote, altQuote);
        GivesUp(src, done, first, quote, altQuote);
        return None, NUL;
      }
      var c := buf[idx];
      if c != RETURN && (c == quote || c == altQuote) {
        Quoted(buf[idx..bufEnd], first, quote, altQuote);
        Closes(src, done, first, quote, altQuote);
        buf[idx] := NUL;
        assert buf[start..idx] == done;
        return Some(idx), c;
      }
      if c == BACKSLASH && Unescape(buf[idx..bufEnd]).Malformed? {
        Stops(buf[idx..bufEnd], first, quote, altQuote);
        GivesUp(src, done, first, quote, altQuote);
        return None, NUL;
      }
      idx := DecodeOne(buf, bufEnd, start, idx, first, quote, altQuote, src);
      first := first && c == RETURN;
      assert buf[idx..] == was[idx..];
    }
  }

  /** Decodes one byte or escape in place. */
  method DecodeOne(buf: array<Byte>, bufEnd: nat, start: nat, idx: nat, first: bool, quote: Byte, altQuote: Byte,
      ghost src: seq<Byte>)
    returns (next: nat)
    requires start <= idx < bufEnd <= buf.Length && |src| == bufEnd - start
    requires buf[idx..bufEnd] == src[idx - start..] && Halfway(src, buf[start..idx], first, quote, altQuote)
    requires buf[idx] == BACKSLASH ==> Unescape(buf[idx..bufEnd]).Unescaped?
    requires buf[idx] != NEWLINE && (buf[idx] == RETURN || (buf[idx] != quote && buf[idx] != altQuote))
    modifies buf
    ensures idx < next <= bufEnd && buf[..start] == old(buf[..start]) && buf[next..] == old(buf[next..])
    ensures Halfway(src, buf[start..next], first && old(buf[idx]) == RETURN, quote, altQuote)
  {
    hide Decode, Unescape, NonZero, Halfway, Piece;
    ghost var done, before := buf[start..idx], buf[..idx];
    var rest, c := buf[idx..bufEnd], buf[idx];
    var piece := Piece(rest, first);
    PieceDecodes(rest, first, quote, altQuote);
    assert src[|done| + |piece|..] == rest[|piece|..];
    Steps(src, done, piece, NonZero(piece), first, first && c == RETURN, quote, altQuote);
    Put(buf, idx, piece);
    next := idx + |piece|;
    assert buf[..next] == before + piece;
    Behind(before, buf[..next], start, piece);
  }

  lemma Ahead(was: seq<Byte>, now: seq<Byte>, start: nat, idx: nat, end: nat)
    requires start <= idx <= end <= |was| == |now| && now[idx..] == was[idx..]
    ensures now[idx..end] == was[start..end][idx - start..]
  {
  }

  lemma Behind(before: seq<Byte>, now: seq<Byte>, start: nat, piece: seq<Byte>)
    requires start <= |before| && now == before + piece
    ensures now[start..] == before[start..] + piece && now[..start] == before[..start]
  {
  }

  // ----- the second pass -----

  lemma NonZeroMore(b: seq<Byte>, k: nat)
    requires k < |b|
    ensures NonZero(b[..k + 1]) == NonZero(b[..k]) + (if b[k] == NUL then [] else [b[k]])
  {
    assert b[..k + 1] == b[..k] + [b[k]];
    NonZeroJoin(b[..k], [b[k]]);
    assert [b[k]][1..] == [];
  }

  /** Closes up the bytes before `boundary` over the NULs; the writer never passes the reader. */
  method Compact(buf: array<Byte>, start: nat, boundary: nat) returns (write: nat)
    requires start <= boundary <= buf.Length
    modifies buf
    ensures start <= write <= boundary && buf[start..write] == NonZero(old(buf[start..boundary]))
    ensures forall i :: write <= i < boundary ==> buf[i] == NUL
    ensures buf[..start] == old(buf[..start]) && buf[boundary..] == old(buf[boundary..])
  {
    hide NonZero;
    ghost var was, b := buf[..], buf[start..boundary];
    var read := start;
    write := start;
    NothingKept(b);
    while read < boundary
      invariant start <= write <= read <= boundary
      invariant buf[start..write] == NonZero(b[..read - start])
      invariant buf[..start] == was[..start] && buf[read..] == was[read..]
    {
      var c := buf[read];
      assert c == was[read] == b[read - start];
      NonZeroMore(b, read - start);
      read := read + 1;
      if c != NUL {
        ghost var kept := buf[start..write];
        buf[write] := c;
        write := write + 1;
        assert buf[start..write] == kept + [c];
      }
    }
    assert b[..read - start] == b;
    ghost var kept := buf[start..write];
    var i := write;
    while i < boundary
      invariant write <= i <= boundary && forall k :: write <= k < i ==> buf[k] == NUL
      invariant buf[start..write] == kept && buf[..start] == was[..start] && buf[boundary..] == was[boundary..]
    {
      buf[i] := NUL;
      i := i + 1;
    }
  }

  lemma NothingKept(b: seq<Byte>)
    ensures NonZero(b[..0]) == []
  {
  }

  /**
    decodeStringInPlace: the token's bytes are exactly what decoding the text behind the opening quote
    gives, the rest up to and with the closing quote is NUL, and nothing else in the source changes.
   */
  method DecodeStringInPlace(buf: array<Byte>, bufEnd: nat, open: nat, quote: Byte, altQuote: Byte, dontSkipStart: bool)
    returns (r: Lexed)
    requires bufEnd <= buf.Length
    modifies buf
    ensures var start := if dontSkipStart then open else open + 1;
      match r
      case IllegalToken =>
        open >= bufEnd || (start <= bufEnd && Decode(old(buf[..])[start..bufEnd], true, quote, altQuote) == Illegal)
      case StringAt(s, len, next, closedBy) =>
        && s == start <= next <= bufEnd && start + len < next
        && Decode(old(buf[..])[start..bufEnd], true, quote, altQuote) == Decoded(buf[start..start + len], next - start)
        && closedBy in {quote, altQuote} && closedBy == old(buf[..])[next - 1]
        && (forall i :: start + len <= i < next ==> buf[i] == NUL)
        && buf[..start] == old(buf[..start]) && buf[next..] == old(buf[..])[next..]
  {
    hide Decode, NonZero;
    if open >= bufEnd {
      return IllegalToken;
    }
    var start := if dontSkipStart then open else open + 1;
    assert buf[start..bufEnd] == buf[..][start..bufEnd];
    var boundary, closedBy := DecodePass(buf, bufEnd, start, quote, altQuote);
    if boundary.None? {
      return IllegalToken;
    }
    var end := boundary.value;
    ghost var decoded := buf[..];
    var write := Compact(buf, start, end);
    assert buf[end + 1..] == buf[end..][1..] == decoded[end..][1..] == decoded[end + 1..];
    assert buf[end] == buf[end..][0] == decoded[end..][0] == NUL;
    r := StringAt(start, write - start, end + 1, closedBy);
  }
}
