/** String escapes: what the printer writes, and how the lexer and the escape reader take it back. */
module Escape {
  import opened Values

  type Byte = b: nat | b < 256

  const NUL: Byte := 0
  const TAB: Byte := 9
  const NEWLINE: Byte := 10
  const RETURN: Byte := 13
  const QUOTE: Byte := 34
  const APOSTROPHE: Byte := 39
  const BACKSLASH: Byte := 92
  const ZERO: Byte := 48
  const LOWER_C: Byte := 99
  const LOWER_N: Byte := 110
  const LOWER_O: Byte := 111
  const LOWER_P: Byte := 112
  const LOWER_R: Byte := 114
  const LOWER_T: Byte := 116
  const LOWER_X: Byte := 120

  // ----- the printer -----

  /** A digit 0..15 in upper case. */
  function HexDigit(d: nat): Byte
    requires d < 16
  {
    if d < 10 then d + ZERO else d + 55
  }

  /** The digit after `\c` for the control characters that have one. */
  function ExpandRemap(c: Byte): Byte
    requires 1 <= c <= 7 || 11 <= c <= 12 || c == 14
  {
    if c <= 7 then c - 1 else if c <= 12 then c - 4 else 9
  }

  function Escaped(c: Byte): (r: seq<Byte>)
    ensures 1 <= |r| <= 4
  {
    if c == QUOTE || c == BACKSLASH || c == APOSTROPHE then [BACKSLASH, c]
    else if c == RETURN then [BACKSLASH, LOWER_R]
    else if c == NEWLINE then [BACKSLASH, LOWER_N]
    else if c == TAB then [BACKSLASH, LOWER_T]
    else if c == 15 then [BACKSLASH, LOWER_C, LOWER_R]
    else if 1 <= c <= 7 || 11 <= c <= 12 || c == 14 then [BACKSLASH, LOWER_C, ExpandRemap(c) + ZERO]
    else if c < 32 then [BACKSLASH, LOWER_X, HexDigit(c / 16), HexDigit(c % 16)]
    else [c]
  }

  /** expandEscape of a whole string. */
  function Expanded(s: seq<Byte>): seq<Byte> {
    if s == [] then [] else Escaped(s[0]) + Expanded(s[1..])
  }

  lemma {:induction false} ExpandedAppend(s: seq<Byte>, c: Byte)
    ensures Expanded(s + [c]) == Expanded(s) + Escaped(c)
  {
    if s == [] {
      assert Expanded([c]) == Escaped(c) + Expanded([c][1..]);
    } else {
      assert (s + [c])[1..] == s[1..] + [c];
      ExpandedAppend(s[1..], c);
    }
  }

  /** Writes a few bytes from a cursor on. */
  method Put(dest: array<Byte>, at: nat, e: seq<Byte>)
    requires at + |e| <= dest.Length
    modifies dest
    ensures dest[..at + |e|] == old(dest[..at]) + e && dest[at + |e|..] == old(dest[at + |e|..])
  {
    var k := 0;
    while k < |e|
      invariant 0 <= k <= |e|
      invariant dest[..at + k] == old(dest[..at]) + e[..k] && dest[at + k..] == old(dest[..])[at + k..]
    {
      dest[at + k] := e[k];
      assert e[..k + 1] == e[..k] + [e[k]];
      k := k + 1;
    }
    assert e[..k] == e;
  }

  /** Writes through a cursor, up to four bytes for one, and a NUL at the end. */
  method ExpandEscape(dest: array<Byte>, src: seq<Byte>)
    requires dest.Length > |Expanded(src)| && NUL !in src
    modifies dest
    ensures dest[..|Expanded(src)| + 1] == Expanded(src) + [NUL]
    ensures dest[|Expanded(src)| + 1..] == old(dest[..])[|Expanded(src)| + 1..]
  {
    hide Escaped, Expanded;
    var at, i := 0, 0;
    NothingExpanded(src);
    while i < |src|
      invariant 0 <= i <= |src| && 0 <= at <= |Expanded(src)|
      invariant dest[..at] == Expanded(src[..i]) && dest[at..] == old(dest[..])[at..]
    {
      var e := Escaped(src[i]);
      ExpandedMore(src, i);
      Put(dest, at, e);
      at := at + |e|;
      i := i + 1;
    }
    assert src[..i] == src;
    dest[at] := NUL;
  }

  lemma NothingExpanded(s: seq<Byte>)
    ensures Expanded(s[..0]) == []
  {
  }

  lemma ExpandedMore(s: seq<Byte>, i: nat)
    requires i < |s|
    ensures Expanded(s[..i + 1]) == Expanded(s[..i]) + Escaped(s[i]) && |Expanded(s[..i + 1])| <= |Expanded(s)|
  {
    assert s[..i + 1] == s[..i] + [s[i]];
    ExpandedAppend(s[..i], s[i]);
    ExpandedPrefix(s, i + 1);
  }

  lemma ExpandedPrefix(s: seq<Byte>, n: nat)
    requires n <= |s|
    ensures |Expanded(s[..n])| <= |Expanded(s)|
    decreases n
  {
    if n > 0 {
      assert s[..n][1..] == s[1..][..n - 1];
      ExpandedPrefix(s[1..], n - 1);
    }
  }

  // ----- reading escapes -----

  function HexVal(c: Byte): (d: int)
    ensures -1 <= d < 16
  {
    if 48 <= c <= 57 then c - 48
    else if 97 <= c <= 102 then 10 + (c - 97)
    else if 65 <= c <= 70 then 10 + (c - 65)
    else -1
  }

  function ConvEscape(c: Byte): Byte {
    if c == LOWER_N then NEWLINE else if c == LOWER_R then RETURN else if c == LOWER_T then TAB else c
  }

  /** The byte for the character after `\c`. */
  function CollapseRemap(k: Byte): Option<Byte> {
    if k == LOWER_R then Some(15)
    else if k == LOWER_P then Some(16)
    else if k == LOWER_O then Some(17)
    else if 48 <= k <= 57 then
      var dig := k - ZERO;
      Some(if dig <= 6 then dig + 1 else if dig <= 8 then dig + 4 else 14)
    else None
  }

  /** What an escape at the head of `b` stands for, and how many bytes it takes. */
  datatype Unescaped = Unescaped(byte: Byte, size: nat) | Malformed

  function Unescape(b: seq<Byte>): (r: Unescaped)
    requires b != [] && b[0] == BACKSLASH
    ensures r.Unescaped? ==> 2 <= r.size <= |b| && r.size <= 4
  {
    if |b| < 2 then Malformed
    else if b[1] == LOWER_X then
      if |b| < 4 || HexVal(b[2]) < 0 || HexVal(b[3]) < 0 then Malformed
      else Unescaped(HexVal(b[2]) * 16 + HexVal(b[3]), 4)
    else if b[1] == LOWER_C then
      if |b| < 3 || CollapseRemap(b[2]).None? then Malformed else Unescaped(CollapseRemap(b[2]).value, 3)
    else Unescaped(ConvEscape(b[1]), 2)
  }

  /** A string may not start with the byte 1: a 2 goes before it. */
  function Guarded(byte: Byte, first: bool): seq<Byte> {
    if first && byte == 1 then [2, 1] else [byte]
  }

  lemma EscapedReads(c: Byte, tail: seq<Byte>)
    requires c != NUL
    ensures var e := Escaped(c) + tail;
      if e[0] == BACKSLASH then Unescape(e) == Unescaped(c, |Escaped(c)|)
      else Escaped(c) == [c] && c != QUOTE && c != APOSTROPHE && c != NEWLINE && c != RETURN
  {
  }

  /** `b` is the digit of value `d` in either spelling. */
  predicate HexDigitOf(b: Byte, d: nat) {
    d < 16 && (b == "0123456789abcdef"[d] as int || b == "0123456789ABCDEF"[d] as int)
  }

  /** Two hex digits after a backslash and an `x`, lower or upper case, stand for their byte. */
  lemma HexReads(c: Byte, high: Byte, low: Byte, tail: seq<Byte>)
    requires HexDigitOf(high, c / 16) && HexDigitOf(low, c % 16)
    ensures Unescape(['\\' as int, 'x' as int, high, low] + tail) == Unescaped(c, 4)
  {
    HexDigitReads(high, c / 16);
    HexDigitReads(low, c % 16);
  }

  lemma HexDigitReads(b: Byte, d: nat)
    ensures HexVal(b) == d <==> HexDigitOf(b, d)
  {
    var lower, upper := "0123456789abcdef", "0123456789ABCDEF";
    assert forall k :: 0 <= k < 10 ==> lower[k] as int == 48 + k == upper[k] as int;
    assert forall k :: 10 <= k < 16 ==> lower[k] as int == 87 + k && upper[k] as int == 55 + k;
  }

  /** Anything else there is no escape. */
  lemma HexOnly(b: seq<Byte>)
    requires |b| >= 2 && b[0] == BACKSLASH && b[1] == LOWER_X
    ensures Unescape(b).Unescaped? <==>
      |b| >= 4 && exists h: nat, l: nat :: HexDigitOf(b[2], h) && HexDigitOf(b[3], l)
  {
    if Unescape(b).Unescaped? {
      HexDigitReads(b[2], HexVal(b[2]));
      HexDigitReads(b[3], HexVal(b[3]));
      assert HexDigitOf(b[2], HexVal(b[2])) && HexDigitOf(b[3], HexVal(b[3]));
    } else if |b| >= 4 {
      forall h: nat, l: nat | HexDigitOf(b[2], h) && HexDigitOf(b[3], l) ensures false {
        HexDigitReads(b[2], h);
        HexDigitReads(b[3], l);
      }
    }
  }

  /** The codes after `\c`, and the bytes they stand for: those of colours and their bookkeeping. */
  const CONTROL_CODES: string := "0123456789rpo"
  const CONTROL_BYTES: seq<Byte> := [1, 2, 3, 4, 5, 6, 7, 11, 12, 14, 15, 16, 17]

  /** Every code has its byte, and any other character is no escape. */
  lemma ControlReads(k: Byte, tail: seq<Byte>)
    ensures var r := Unescape([BACKSLASH, LOWER_C, k] + tail);
      && (forall i :: 0 <= i < 13 && CONTROL_CODES[i] as int == k ==> r == Unescaped(CONTROL_BYTES[i], 3))
      && (r.Malformed? <==> forall i :: 0 <= i < 13 ==> CONTROL_CODES[i] as int != k)
  {
    assert forall i :: 0 <= i < 10 ==> CONTROL_CODES[i] as int == 48 + i;
    assert CONTROL_CODES[10] as int == 114 && CONTROL_CODES[11] as int == 112 && CONTROL_CODES[12] as int == 111;
    if Unescape([BACKSLASH, LOWER_C, k] + tail).Unescaped? {
      var i := if k == LOWER_R then 10 else if k == LOWER_P then 11 else if k == LOWER_O then 12 else k - 48;
      assert CONTROL_CODES[i] as int == k;
    }
  }

  /** Other characters stand for themselves, but for `n`, `r` and `t`; a backslash alone for nothing. */
  lemma LetterReads(c: Byte, tail: seq<Byte>)
    requires c != 'x' as int && c != 'c' as int
    ensures Unescape([BACKSLASH, c] + tail)
         == Unescaped(if c == 'n' as int then 10 else if c == 'r' as int then 13 else if c == 't' as int then 9 else c,
                2)
    ensures Unescape([BACKSLASH]) == Malformed
  {
  }

  /** What is printed is visible, and only quotes, backslashes and control bytes are escaped. */
  lemma PrintedVisibly(c: Byte)
    ensures forall i :: 0 <= i < |Escaped(c)| ==> Escaped(c)[i] >= 32
    ensures Escaped(c) == [c] <==> c >= 32 && c != '"' as int && c != '\'' as int && c != '\\' as int
  {
  }

  /** And no escape of visible bytes that stands for a control byte is shorter, but for `\cp` and `\co`. */
  lemma PrintedShortly(c: Byte, b: seq<Byte>)
    requires 0 < c < 32 && b != [] && b[0] == '\\' as int
    requires Unescape(b).Unescaped? && Unescape(b).byte == c
    requires forall i :: 0 <= i < Unescape(b).size ==> b[i] >= 32
    ensures |Escaped(c)| <= Unescape(b).size || (c in {16, 17} && Unescape(b).size == 3)
  {
  }

  // ----- the lexer -----

  /** A decoded string and how much was read, the closing quote included; or an illegal token. */
  datatype Decoding = Decoded(s: seq<Byte>, size: nat) | Illegal

  function After(bytes: seq<Byte>, size: nat, d: Decoding): Decoding {
    match d
    case Decoded(s, n) => Decoded(bytes + s, size + n)
    case Illegal => Illegal
  }

  function NonZero(b: seq<Byte>): (r: seq<Byte>)
    ensures |r| <= |b|
  {
    if b == [] then [] else (if b[0] == NUL then [] else [b[0]]) + NonZero(b[1..])
  }

  /** Reads up to the first closing quote. A NUL, raw or escaped, leaves nothing; a raw return is skipped. */
  function Decode(b: seq<Byte>, first: bool, quote: Byte, altQuote: Byte): (r: Decoding)
    ensures r.Decoded? ==> |r.s| < r.size <= |b|
  {
    if b == [] || b[0] == NEWLINE then Illegal
    else if b[0] == RETURN then After([], 1, Decode(b[1..], first, quote, altQuote))
    else if b[0] == quote || b[0] == altQuote then Decoded([], 1)
    else if b[0] == BACKSLASH then
      match Unescape(b)
      case Malformed => Illegal
      case Unescaped(byte, size) => After(NonZero(Guarded(byte, first)), size,
          Decode(b[size..], false, quote, altQuote))
    else After(NonZero([b[0]]), 1, Decode(b[1..], false, quote, altQuote))
  }

  /** One printed byte, read back. */
  lemma DecodesOne(c: Byte, tail: seq<Byte>, first: bool, quote: Byte, altQuote: Byte)
    requires c != NUL && quote in {QUOTE, APOSTROPHE} && altQuote in {QUOTE, APOSTROPHE}
    ensures Decode(Escaped(c) + tail, first, quote, altQuote)
         == After(if Escaped(c)[0] == BACKSLASH then Guarded(c, first) else [c], |Escaped(c)|,
                  Decode(tail, false, quote, altQuote))
    ensures c == 1 ==> Escaped(c)[0] == BACKSLASH
  {
    EscapedReads(c, tail);
    var e := Escaped(c) + tail;
    assert e[|Escaped(c)|..] == tail;
    hide Unescape;
    if e[0] == BACKSLASH {
      NoZeros(Guarded(c, first));
    } else {
      NoZeros([c]);
      assert Escaped(c) == [c] && e[1..] == tail;
    }
  }

  lemma {:induction false} NoZeros(b: seq<Byte>)
    requires NUL !in b
    ensures NonZero(b) == b
  {
    if b != [] {
      NoZeros(b[1..]);
    }
  }

  /** What the lexer makes of a printed string: a leading byte 1 gets its guard. */
  function Reread(s: seq<Byte>, first: bool): seq<Byte> {
    if s == [] then [] else Guarded(s[0], first) + s[1..]
  }

  /**
    The lexer, started behind the opening quote of a printed string, reads exactly to the closing quote
    and gives back the string, with the guard if it starts with the byte 1.
   */
  lemma {:induction false} DecodesPrinted(s: seq<Byte>, tail: seq<Byte>, first: bool, quote: Byte, altQuote: Byte)
    requires NUL !in s && quote in {QUOTE, APOSTROPHE} && altQuote in {QUOTE, APOSTROPHE}
    ensures Decode(Expanded(s) + [quote] + tail, first, quote, altQuote) == Decoded(Reread(s, first), |Expanded(s)| + 1)
    decreases |s|
  {
    hide Decode, Escaped;
    if s == [] {
      AtQuote([quote] + tail, first, quote, altQuote);
      assert Expanded(s) + [quote] + tail == [quote] + tail;
    } else {
      var rest := Expanded(s[1..]) + [quote] + tail;
      assert Expanded(s) + [quote] + tail == Escaped(s[0]) + rest;
      DecodesOne(s[0], rest, first, quote, altQuote);
      DecodesPrinted(s[1..], tail, false, quote, altQuote);
      assert Reread(s[1..], false) == s[1..];
    }
  }

  lemma AtQuote(b: seq<Byte>, first: bool, quote: Byte, altQuote: Byte)
    requires b != [] && b[0] == quote && quote in {QUOTE, APOSTROPHE}
    ensures Decode(b, first, quote, altQuote) == Decoded([], 1)
  {
  }

  /** Printing and lexing is the identity exactly on the strings that do not start with the byte 1. */
  lemma LexRoundTrip(s: seq<Byte>, tail: seq<Byte>, quote: Byte, altQuote: Byte)
    requires NUL !in s && quote in {QUOTE, APOSTROPHE} && altQuote in {QUOTE, APOSTROPHE}
    ensures Decode(Expanded(s) + [quote] + tail, true, quote, altQuote) == Decoded(s, |Expanded(s)| + 1) <==>
            (s == [] || s[0] != 1)
  {
    hide Decode, Expanded;
    DecodesPrinted(s, tail, true, quote, altQuote);
    if s != [] && s[0] == 1 {
      assert Reread(s, true)[0] == 2;
    } else if s != [] {
      assert Reread(s, true) == s;
    }
  }

  // ----- the escape reader -----

  /**
    collapseEscape on the bytes of a string and its NUL. A backslash at the very end takes the NUL for its
    character; a leading byte 1 is only guarded when a `\c` escape made it.
   */
  function Collapsed(b: seq<Byte>, first: bool): Option<seq<Byte>> {
    if b == [] then Some([])
    else if b[0] != BACKSLASH then Prefixed([b[0]], Collapsed(b[1..], false))
    else
      match Unescape(b)
      case Malformed => None
      case Unescaped(byte, size) =>
        Prefixed(if b[1] == LOWER_C then Guarded(byte, first) else [byte], Collapsed(b[size..], false))
  }

  function Prefixed(a: seq<Byte>, r: Option<seq<Byte>>): Option<seq<Byte>> {
    if r.Some? then Some(a + r.value) else None
  }

  lemma CollapsesOne(c: Byte, tail: seq<Byte>, first: bool)
    requires c != NUL
    ensures Collapsed(Escaped(c) + tail, first) == Prefixed(Guarded(c, first), Collapsed(tail, false))
  {
    EscapedReads(c, tail);
    var e := Escaped(c) + tail;
    assert e[|Escaped(c)|..] == tail;
    hide Unescape;
    if e[0] != BACKSLASH {
      assert e[1..] == tail;
    }
  }

  lemma CollapsesNul(first: bool)
    ensures Collapsed([NUL], first) == Some([NUL])
  {
    var b: seq<Byte> := [NUL];
    assert b[1..] == [] && b + [] == b;
    assert Collapsed(b, first) == Prefixed(b, Collapsed(b[1..], false));
  }

  lemma {:induction false} CollapsesPrinted(s: seq<Byte>, first: bool)
    requires NUL !in s
    ensures Collapsed(Expanded(s) + [NUL], first) == Some(Reread(s, first) + [NUL])
    decreases |s|
  {
    hide Escaped;
    if s == [] {
      assert Expanded(s) + [NUL] == [NUL] && Reread(s, first) + [NUL] == [NUL];
      CollapsesNul(first);
    } else {
      var rest := Expanded(s[1..]) + [NUL];
      assert Expanded(s) + [NUL] == Escaped(s[0]) + rest;
      CollapsesOne(s[0], rest, first);
      CollapsesPrinted(s[1..], false);
      assert Reread(s[1..], false) == s[1..];
      assert Guarded(s[0], first) + (s[1..] + [NUL]) == Reread(s, first) + [NUL];
    }
  }

  /** The escape reader undoes the printer exactly where the lexer does. */
  lemma CollapseRoundTrip(s: seq<Byte>)
    requires NUL !in s
    ensures Collapsed(Expanded(s) + [NUL], true) == Some(s + [NUL]) <==> (s == [] || s[0] != 1)
  {
    hide Collapsed, Expanded;
    CollapsesPrinted(s, true);
    if s != [] && s[0] == 1 {
      assert (Reread(s, true) + [NUL])[0] == 2 && (s + [NUL])[0] == 1;
    } else if s != [] {
      assert Reread(s, true) == s;
    }
  }
}
