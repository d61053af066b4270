/** The bytecode file: what is written for a compiled block, and what is read back. */
module Dso {
  import opened Values

  type Byte = b: nat | b < 256
  type Word32 = w: nat | w < 0x1_0000_0000

  const VERSION: Word32 := 78
  const MIN_VERSION: Word32 := 77
  const ESCAPE: Byte := 0xFF

  /** An identifier: where its name starts in the global strings, and the code addresses that use it. */
  datatype Ident = Ident(offset: Word32, patches: seq<Word32>)

  /** Everything a file holds after its version. Line breaks are two words a pair. */
  datatype Image = Image(
    globalStrings: seq<Byte>,
    functionStrings: seq<Byte>,
    globalFloats: seq<F64>,
    functionFloats: seq<F64>,
    code: seq<Word32>,
    lineBreaks: seq<Word32>,
    idents: seq<Ident>,
    functionCalls: Word32,
    startTypeStrings: Word32,
    numTypeStrings: Word32)

  /** A block as the reader leaves it. */
  datatype Loaded = Loaded(
    globalStrings: seq<Byte>,
    functionStrings: seq<Byte>,
    globalFloats: seq<F64>,
    functionFloats: seq<F64>,
    code: seq<Word32>,
    lineBreaks: seq<Word32>,
    identNames: seq<seq<Byte>>,
    identOffsets: seq<Word32>,
    functionCalls: Word32,
    startTypeStrings: Word32,
    numTypeStrings: Word32)

  // ----- words and bytes -----

  function U32Bytes(n: Word32): (r: seq<Byte>)
    ensures |r| == 4
  {
    [n % 256, n / 256 % 256, n / 0x1_0000 % 256, n / 0x100_0000]
  }

  function U32At(b: seq<Byte>, pos: nat): Word32
    requires pos + 4 <= |b|
  {
    (b[pos] as int) + 256 * (b[pos + 1] as int) + 0x1_0000 * (b[pos + 2] as int) + 0x100_0000 * (b[pos + 3] as int)
  }

  predicate Is64(f: F64) {
    f.bits < 0x1_0000_0000 * 0x1_0000_0000
  }

  function F64Bytes(f: F64): (r: seq<Byte>)
    ensures |r| == 8
  {
    U32Bytes(f.bits % 0x1_0000_0000) + U32Bytes(f.bits / 0x1_0000_0000 % 0x1_0000_0000)
  }

  function F64At(b: seq<Byte>, pos: nat): (f: F64)
    requires pos + 8 <= |b|
    ensures Is64(f)
  {
    F64(U32At(b, pos) + 0x1_0000_0000 * U32At(b, pos + 4))
  }

  /** A code word takes one byte below 0xFF, else the escape byte and four. */
  function CodeBytes(w: Word32): (r: seq<Byte>)
    ensures |r| in {1, 5}
  {
    if w < 0xFF then [w] else [ESCAPE] + U32Bytes(w)
  }

  ghost predicate At(b: seq<Byte>, pos: nat, c: seq<Byte>) {
    pos + |c| <= |b| && b[pos..pos + |c|] == c
  }

  lemma AtSplit(b: seq<Byte>, pos: nat, x: seq<Byte>, y: seq<Byte>)
    requires At(b, pos, x + y)
    ensures At(b, pos, x) && At(b, pos + |x|, y)
  {
    assert b[pos..pos + |x|] == (x + y)[..|x|];
    assert b[pos + |x|..pos + |x| + |y|] == (x + y)[|x|..];
  }

  lemma U32RoundTrip(b: seq<Byte>, pos: nat, n: Word32)
    requires At(b, pos, U32Bytes(n))
    ensures U32At(b, pos) == n
  {
    var c := U32Bytes(n);
    assert forall i :: 0 <= i < 4 ==> b[pos + i] == b[pos..pos + 4][i] == c[i];
    assert n == n % 256 + 256 * (n / 256 % 256) + 0x1_0000 * (n / 0x1_0000 % 256) + 0x100_0000 * (n / 0x100_0000);
  }

  lemma F64RoundTrip(b: seq<Byte>, pos: nat, f: F64)
    requires Is64(f) && At(b, pos, F64Bytes(f))
    ensures F64At(b, pos) == f
  {
    var high := f.bits / 0x1_0000_0000 % 0x1_0000_0000;
    AtSplit(b, pos, U32Bytes(f.bits % 0x1_0000_0000), U32Bytes(high));
    U32RoundTrip(b, pos, f.bits % 0x1_0000_0000);
    U32RoundTrip(b, pos + 4, high);
  }

  // ----- writing -----

  /** Values written one after the other. */
  function Many<T>(put: T -> seq<Byte>, vs: seq<T>): seq<Byte> {
    if vs == [] then [] else put(vs[0]) + Many(put, vs[1..])
  }

  function IdentBytes(i: Ident): seq<Byte> {
    U32Bytes(i.offset) + (U32Bytes(|i.patches| % 0x1_0000_0000) + Many(U32Bytes, i.patches))
  }

  /** The sizes fit their words, and line breaks come in pairs. */
  ghost predicate Storable(m: Image) {
    && |m.globalStrings| < 0x1_0000_0000 && |m.functionStrings| < 0x1_0000_0000
    && |m.globalFloats| < 0x1_0000_0000 && |m.functionFloats| < 0x1_0000_0000
    && (forall i :: 0 <= i < |m.globalFloats| ==> Is64(m.globalFloats[i]))
    && (forall i :: 0 <= i < |m.functionFloats| ==> Is64(m.functionFloats[i]))
    && |m.code| < 0x1_0000_0000 && |m.lineBreaks| % 2 == 0 && |m.lineBreaks| / 2 < 0x1_0000_0000
    && |m.idents| < 0x1_0000_0000
    && (forall k :: 0 <= k < |m.idents| ==> |m.idents[k].patches| < 0x1_0000_0000)
  }

  function Blob(s: seq<Byte>): seq<Byte>
    requires |s| < 0x1_0000_0000
  {
    U32Bytes(|s|) + s
  }

  function Floats(fs: seq<F64>): seq<Byte>
    requires |fs| < 0x1_0000_0000
  {
    U32Bytes(|fs|) + Many(F64Bytes, fs)
  }

  ghost function Tables(m: Image): seq<Byte>
    requires Storable(m)
  {
    U32Bytes(VERSION)
        + (Blob(m.globalStrings) + (Blob(m.functionStrings) + (Floats(m.globalFloats) + Floats(m.functionFloats))))
  }

  ghost function CodePart(m: Image): seq<Byte>
    requires Storable(m)
  {
    U32Bytes(|m.code|) + (U32Bytes(|m.lineBreaks| / 2) + (Many(CodeBytes, m.code) + Many(U32Bytes, m.lineBreaks)))
  }

  ghost function IdentPart(m: Image): seq<Byte>
    requires Storable(m)
  {
    U32Bytes(|m.idents|) + (Many(IdentBytes, m.idents)
      + (U32Bytes(m.functionCalls) + (U32Bytes(m.startTypeStrings) + U32Bytes(m.numTypeStrings))))
  }

  /** The file. */
  ghost function FileOf(m: Image): seq<Byte>
    requires Storable(m)
  {
    Tables(m) + (CodePart(m) + IdentPart(m))
  }

  // ----- reading -----

  /** A value and where reading goes on; or the stream was too short. */
  datatype Got<T> = Short | Got(v: T, next: nat)

  function GetU32(b: seq<Byte>, pos: nat): Got<Word32> {
    if pos + 4 <= |b| then Got(U32At(b, pos), pos + 4) else Short
  }

  function GetF64(b: seq<Byte>, pos: nat): Got<F64> {
    if pos + 8 <= |b| then Got(F64At(b, pos), pos + 8) else Short
  }

  function GetCode(b: seq<Byte>, pos: nat): Got<Word32> {
    if pos >= |b| then Short
    else if b[pos] == ESCAPE then GetU32(b, pos + 1)
    else Got(b[pos], pos + 1)
  }

  function GetIdent(b: seq<Byte>, pos: nat): Got<Ident> {
    var o := GetU32(b, pos);
    if o.Short? then Short else
    var n := GetU32(b, o.next);
    if n.Short? then Short else
    var ps := GetMany(GetU32, b, n.next, n.v);
    if ps.Short? then Short else Got(Ident(o.v, ps.v), ps.next)
  }

  /** `n` values, one after the other. */
  function GetMany<T>(get: (seq<Byte>, nat) -> Got<T>, b: seq<Byte>, pos: nat, n: nat): Got<seq<T>>
    decreases n
  {
    if n == 0 then Got([], pos)
    else
      var g := get(b, pos);
      if g.Short? then Short else
      var rest := GetMany(get, b, g.next, n - 1);
      if rest.Short? then Short else Got([g.v] + rest.v, rest.next)
  }

  /** `n` bytes. */
  function GetBytes(b: seq<Byte>, pos: nat, n: nat): Got<seq<Byte>> {
    if pos + n <= |b| then Got(b[pos..pos + n], pos + n) else Short
  }

  // ----- each part comes back -----

  lemma U32Back(b: seq<Byte>, pos: nat, n: Word32)
    requires At(b, pos, U32Bytes(n))
    ensures GetU32(b, pos) == Got(n, pos + 4)
  {
    U32RoundTrip(b, pos, n);
  }

  lemma F64Back(b: seq<Byte>, pos: nat, f: F64)
    requires Is64(f) && At(b, pos, F64Bytes(f))
    ensures GetF64(b, pos) == Got(f, pos + 8)
  {
    F64RoundTrip(b, pos, f);
  }

  /** A small word is never mistaken for the escape, and a large one always uses it. */
  lemma CodeBack(b: seq<Byte>, pos: nat, w: Word32)
    requires At(b, pos, CodeBytes(w))
    ensures GetCode(b, pos) == Got(w, pos + |CodeBytes(w)|) && |CodeBytes(w)| == if w < 0xFF then 1 else 5
  {
    assert b[pos] == b[pos..pos + |CodeBytes(w)|][0];
    if w >= 0xFF {
      AtSplit(b, pos, [ESCAPE], U32Bytes(w));
      U32Back(b, pos + 1, w);
    }
  }

  /** Wherever its bytes are, the value is read back. */
  ghost predicate Reads<T>(get: (seq<Byte>, nat) -> Got<T>, put: T -> seq<Byte>, b: seq<Byte>, v: T) {
    forall p: nat :: At(b, p, put(v)) ==> get(b, p) == Got(v, p + |put(v)|)
  }

  lemma {:induction false} ManyBack<T>(get: (seq<Byte>, nat) -> Got<T>, put: T -> seq<Byte>, b: seq<Byte>, pos: nat,
      vs: seq<T>)
    requires At(b, pos, Many(put, vs)) && forall k :: 0 <= k < |vs| ==> Reads(get, put, b, vs[k])
    ensures GetMany(get, b, pos, |vs|) == Got(vs, pos + |Many(put, vs)|)
    decreases |vs|
  {
    hide At;
    if vs != [] {
      AtSplit(b, pos, put(vs[0]), Many(put, vs[1..]));
      assert Reads(get, put, b, vs[0]);
      hide Reads;
      forall k | 0 <= k < |vs[1..]| ensures Reads(get, put, b, vs[1..][k]) {
        assert vs[1..][k] == vs[k + 1];
      }
      ManyBack(get, put, b, pos + |put(vs[0])|, vs[1..]);
      assert [vs[0]] + vs[1..] == vs;
    }
  }

  lemma WordsBack(b: seq<Byte>, pos: nat, ws: seq<Word32>)
    requires At(b, pos, Many(U32Bytes, ws))
    ensures GetMany(GetU32, b, pos, |ws|) == Got(ws, pos + |Many(U32Bytes, ws)|)
  {
    hide At, U32Bytes, GetU32;
    forall k | 0 <= k < |ws| ensures Reads(GetU32, U32Bytes, b, ws[k]) {
      forall p: nat | At(b, p, U32Bytes(ws[k])) ensures GetU32(b, p) == Got(ws[k], p + |U32Bytes(ws[k])|) {
        U32Back(b, p, ws[k]);
      }
    }
    ManyBack(GetU32, U32Bytes, b, pos, ws);
  }

  lemma FloatsBack(b: seq<Byte>, pos: nat, fs: seq<F64>)
    requires At(b, pos, Many(F64Bytes, fs)) && forall k :: 0 <= k < |fs| ==> Is64(fs[k])
    ensures GetMany(GetF64, b, pos, |fs|) == Got(fs, pos + |Many(F64Bytes, fs)|)
  {
    hide At, F64Bytes, GetF64;
    forall k | 0 <= k < |fs| ensures Reads(GetF64, F64Bytes, b, fs[k]) {
      forall p: nat | At(b, p, F64Bytes(fs[k])) ensures GetF64(b, p) == Got(fs[k], p + |F64Bytes(fs[k])|) {
        F64Back(b, p, fs[k]);
      }
    }
    ManyBack(GetF64, F64Bytes, b, pos, fs);
  }

  lemma CodesBack(b: seq<Byte>, pos: nat, ws: seq<Word32>)
    requires At(b, pos, Many(CodeBytes, ws))
    ensures GetMany(GetCode, b, pos, |ws|) == Got(ws, pos + |Many(CodeBytes, ws)|)
  {
    hide At, CodeBytes, GetCode;
    forall k | 0 <= k < |ws| ensures Reads(GetCode, CodeBytes, b, ws[k]) {
      forall p: nat | At(b, p, CodeBytes(ws[k])) ensures GetCode(b, p) == Got(ws[k], p + |CodeBytes(ws[k])|) {
        CodeBack(b, p, ws[k]);
      }
    }
    ManyBack(GetCode, CodeBytes, b, pos, ws);
  }

  lemma IdentBack(b: seq<Byte>, pos: nat, i: Ident)
    requires |i.patches| < 0x1_0000_0000 && At(b, pos, IdentBytes(i))
    ensures GetIdent(b, pos) == Got(i, pos + |IdentBytes(i)|)
  {
    hide At, U32Bytes, GetU32, GetMany, Many;
    var n: Word32 := |i.patches|;
    AtSplit(b, pos, U32Bytes(i.offset), U32Bytes(n) + Many(U32Bytes, i.patches));
    AtSplit(b, pos + 4, U32Bytes(n), Many(U32Bytes, i.patches));
    U32Back(b, pos, i.offset);
    U32Back(b, pos + 4, n);
    WordsBack(b, pos + 8, i.patches);
  }

  lemma IdentsBack(b: seq<Byte>, pos: nat, ids: seq<Ident>)
    requires At(b, pos, Many(IdentBytes, ids)) && forall k :: 0 <= k < |ids| ==> |ids[k].patches| < 0x1_0000_0000
    ensures GetMany(GetIdent, b, pos, |ids|) == Got(ids, pos + |Many(IdentBytes, ids)|)
  {
    hide At, IdentBytes, GetIdent;
    forall k | 0 <= k < |ids| ensures Reads(GetIdent, IdentBytes, b, ids[k]) {
      forall p: nat | At(b, p, IdentBytes(ids[k])) ensures GetIdent(b, p) == Got(ids[k], p + |IdentBytes(ids[k])|) {
        IdentBack(b, p, ids[k]);
      }
    }
    ManyBack(GetIdent, IdentBytes, b, pos, ids);
  }
}
