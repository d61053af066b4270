/** Whole bytecode files: reading one back gives what was written, for every block. */
module DsoFile {
  import opened Values
  import opened Dso

  /** The C string at an offset; past the end of the strings, the empty one. */
  function NameAt(strings: seq<Byte>, at: nat): (s: seq<Byte>)
    ensures 0 !in s
    decreases |strings| - at
  {
    if at >= |strings| || strings[at] == 0 then [] else [strings[at]] + NameAt(strings, at + 1)
  }

  function NamesAt(strings: seq<Byte>, ids: seq<Ident>): (r: seq<seq<Byte>>)
    ensures |r| == |ids| && forall k :: 0 <= k < |ids| ==> r[k] == NameAt(strings, ids[k].offset)
  {
    seq(|ids|, k requires 0 <= k < |ids| => NameAt(strings, ids[k].offset))
  }

  function OffsetsOf(ids: seq<Ident>): (r: seq<Word32>)
    ensures |r| == |ids| && forall k :: 0 <= k < |ids| ==> r[k] == ids[k].offset
  {
    seq(|ids|, k requires 0 <= k < |ids| => ids[k].offset)
  }

  /** What a stored block is when loaded: the addresses of identifiers are dropped, one call slot is always there. */
  function LoadedOf(m: Image): Loaded {
    Loaded(m.globalStrings, m.functionStrings, m.globalFloats, m.functionFloats, m.code, m.lineBreaks,
           NamesAt(m.globalStrings, m.idents), OffsetsOf(m.idents),
           if m.functionCalls == 0 then 1 else m.functionCalls, m.startTypeStrings, m.numTypeStrings)
  }

  /** A sized table: its size, then as much. */
  function GetBlob(b: seq<Byte>, pos: nat): Got<seq<Byte>> {
    var n := GetU32(b, pos);
    if n.Short? then Short else GetBytes(b, n.next, n.v)
  }

  function GetFloats(b: seq<Byte>, pos: nat): Got<seq<F64>> {
    var n := GetU32(b, pos);
    if n.Short? then Short else GetMany(GetF64, b, n.next, n.v)
  }

  /** The code and the line breaks, whose two sizes come first. */
  function GetCodePart(b: seq<Byte>, pos: nat): Got<(seq<Word32>, seq<Word32>)> {
    var n := GetU32(b, pos);
    if n.Short? then Short else
    var pairs := GetU32(b, n.next);
    if pairs.Short? then Short else
    var code := GetMany(GetCode, b, pairs.next, n.v);
    if code.Short? then Short else
    var breaks := GetMany(GetU32, b, code.next, pairs.v * 2);
    if breaks.Short? then Short else Got((code.v, breaks.v), breaks.next)
  }

  function GetIdents(b: seq<Byte>, pos: nat): Got<seq<Ident>> {
    var n := GetU32(b, pos);
    if n.Short? then Short else GetMany(GetIdent, b, n.next, n.v)
  }

  /** The calls and the types at the end, which files of the older version do not have. */
  function GetTypesPart(b: seq<Byte>, pos: nat, version: Word32): Got<(Word32, Word32, Word32)> {
    if version <= MIN_VERSION then Got((1, 0, 0), pos) else
    var calls := GetU32(b, pos);
    if calls.Short? then Short else
    var start := GetU32(b, calls.next);
    if start.Short? then Short else
    var types := GetU32(b, start.next);
    if types.Short? then Short else
    Got((if calls.v == 0 then 1 else calls.v, start.v, types.v), types.next)
  }

  /** Everything behind the version; none if the stream is too short. */
  function ReadBody(b: seq<Byte>, pos: nat, version: Word32): Option<Loaded> {
    var gs := GetBlob(b, pos);
    if gs.Short? then None else
    var fs := GetBlob(b, gs.next);
    if fs.Short? then None else
    var gf := GetFloats(b, fs.next);
    if gf.Short? then None else
    var ff := GetFloats(b, gf.next);
    if ff.Short? then None else
    var c := GetCodePart(b, ff.next);
    if c.Short? then None else
    var ids := GetIdents(b, c.next);
    if ids.Short? then None else
    var t := GetTypesPart(b, ids.next, version);
    if t.Short? then None else
    Some(Loaded(gs.v, fs.v, gf.v, ff.v, c.v.0, c.v.1, NamesAt(gs.v, ids.v), OffsetsOf(ids.v), t.v.0, t.v.1, t.v.2))
  }

  /**
    A block from a stream whose version the caller has read, or, given 0, that starts with the present one.
    None for another version.
   */
  function ReadStream(b: seq<Byte>, pos: nat, given: Word32): Option<Loaded> {
    var version := if given == 0 then GetU32(b, pos) else Got(given, pos);
    if version.Short? || (given == 0 && version.v != VERSION) then None
    else if version.v < MIN_VERSION || version.v > VERSION then None
    else ReadBody(b, version.next, version.v)
  }

  // ----- the parts come back -----

  lemma BlobBack(b: seq<Byte>, pos: nat, s: seq<Byte>)
    requires |s| < 0x1_0000_0000 && At(b, pos, Blob(s))
    ensures GetBlob(b, pos) == Got(s, pos + |Blob(s)|)
  {
    AtSplit(b, pos, U32Bytes(|s|), s);
    U32Back(b, pos, |s|);
  }

  lemma FloatTableBack(b: seq<Byte>, pos: nat, fs: seq<F64>)
    requires |fs| < 0x1_0000_0000 && At(b, pos, Floats(fs)) && forall k :: 0 <= k < |fs| ==> Is64(fs[k])
    ensures GetFloats(b, pos) == Got(fs, pos + |Floats(fs)|)
  {
    hide At, GetMany, Many, GetU32, U32Bytes;
    AtSplit(b, pos, U32Bytes(|fs|), Many(F64Bytes, fs));
    U32Back(b, pos, |fs|);
    FloatsBack(b, pos + 4, fs);
  }

  lemma CodePartBack(b: seq<Byte>, pos: nat, m: Image)
    requires Storable(m) && At(b, pos, CodePart(m))
    ensures GetCodePart(b, pos) == Got((m.code, m.lineBreaks), pos + |CodePart(m)|)
  {
    hide At, GetMany, Many, GetU32, U32Bytes;
    var n: Word32, pairs: Word32 := |m.code|, |m.lineBreaks| / 2;
    var code, breaks := Many(CodeBytes, m.code), Many(U32Bytes, m.lineBreaks);
    AtSplit(b, pos, U32Bytes(n), U32Bytes(pairs) + (code + breaks));
    AtSplit(b, pos + 4, U32Bytes(pairs), code + breaks);
    AtSplit(b, pos + 8, code, breaks);
    U32Back(b, pos, n);
    U32Back(b, pos + 4, pairs);
    CodesBack(b, pos + 8, m.code);
    WordsBack(b, pos + 8 + |code|, m.lineBreaks);
  }

  lemma IdentTableBack(b: seq<Byte>, pos: nat, ids: seq<Ident>)
    requires |ids| < 0x1_0000_0000 && forall k :: 0 <= k < |ids| ==> |ids[k].patches| < 0x1_0000_0000
    requires At(b, pos, U32Bytes(|ids|) + Many(IdentBytes, ids))
    ensures GetIdents(b, pos) == Got(ids, pos + 4 + |Many(IdentBytes, ids)|)
  {
    hide At, GetMany, Many, GetU32, U32Bytes;
    AtSplit(b, pos, U32Bytes(|ids|), Many(IdentBytes, ids));
    U32Back(b, pos, |ids|);
    IdentsBack(b, pos + 4, ids);
  }

  lemma TablesLayout(b: seq<Byte>, pos: nat, m: Image)
    requires Storable(m) && At(b, pos, Tables(m))
    ensures var p1 := pos + 4;
      var p2 := p1 + |Blob(m.globalStrings)|;
      var p3 := p2 + |Blob(m.functionStrings)|;
      var p4 := p3 + |Floats(m.globalFloats)|;
      && At(b, pos, U32Bytes(VERSION)) && At(b, p1, Blob(m.globalStrings)) && At(b, p2, Blob(m.functionStrings))
      && At(b, p3, Floats(m.globalFloats)) && At(b, p4, Floats(m.functionFloats))
      && p4 + |Floats(m.functionFloats)| == pos + |Tables(m)|
  {
    hide At, Blob, Floats, U32Bytes;
    var v, gs, fs, gf, ff := U32Bytes(VERSION), Blob(m.globalStrings), Blob(m.functionStrings), Floats(m.globalFloats),
        Floats(m.functionFloats);
    AtSplit(b, pos, v, gs + (fs + (gf + ff)));
    AtSplit(b, pos + 4, gs, fs + (gf + ff));
    AtSplit(b, pos + 4 + |gs|, fs, gf + ff);
    AtSplit(b, pos + 4 + |gs| + |fs|, gf, ff);
  }

  lemma IdentPartLayout(b: seq<Byte>, pos: nat, m: Image)
    requires Storable(m) && At(b, pos, IdentPart(m))
    ensures var p := pos + 4 + |Many(IdentBytes, m.idents)|;
      && At(b, pos, U32Bytes(|m.idents|) + Many(IdentBytes, m.idents))
      && At(b, p, U32Bytes(m.functionCalls)) && At(b, p + 4, U32Bytes(m.startTypeStrings))
          && At(b, p + 8, U32Bytes(m.numTypeStrings))
  {
    hide At, Many, U32Bytes;
    var n, ids := U32Bytes(|m.idents|), Many(IdentBytes, m.idents);
    var c, s, t := U32Bytes(m.functionCalls), U32Bytes(m.startTypeStrings), U32Bytes(m.numTypeStrings);
    assert n + (ids + (c + (s + t))) == (n + ids) + (c + (s + t));
    AtSplit(b, pos, n + ids, c + (s + t));
    AtSplit(b, pos + 4 + |ids|, c, s + t);
    AtSplit(b, pos + 8 + |ids|, s, t);
  }

  /** What reading a block as of that version gives: the older one has one call slot and no types. */
  function LoadedAs(m: Image, version: Word32): Loaded {
    if version <= MIN_VERSION then LoadedOf(m.(functionCalls := 1, startTypeStrings := 0, numTypeStrings := 0))
        else LoadedOf(m)
  }

  lemma BodyBack(m: Image, version: Word32)
    requires Storable(m)
    ensures ReadBody(FileOf(m), 4, version) == Some(LoadedAs(m, version))
    ensures GetU32(FileOf(m), 0) == Got(VERSION, 4)
  {
    hide At, GetU32, GetBlob, GetFloats, GetCodePart, GetIdents, GetTypesPart, Tables, CodePart, IdentPart, Blob,
         Floats, U32Bytes, Many;
    var b := FileOf(m);
    WholeFile(m);
    var p1 := |Tables(m)|;
    var p2 := p1 + |CodePart(m)|;
    TablesLayout(b, 0, m);
    U32Back(b, 0, VERSION);
    BlobBack(b, 4, m.globalStrings);
    BlobBack(b, 4 + |Blob(m.globalStrings)|, m.functionStrings);
    var q := 4 + |Blob(m.globalStrings)| + |Blob(m.functionStrings)|;
    FloatTableBack(b, q, m.globalFloats);
    FloatTableBack(b, q + |Floats(m.globalFloats)|, m.functionFloats);
    CodePartBack(b, p1, m);
    IdentPartLayout(b, p2, m);
    IdentTableBack(b, p2, m.idents);
    var r := p2 + 4 + |Many(IdentBytes, m.idents)|;
    U32Back(b, r, m.functionCalls);
    U32Back(b, r + 4, m.startTypeStrings);
    U32Back(b, r + 8, m.numTypeStrings);
    TypesBack(b, r, m, version);
  }

  lemma TypesBack(b: seq<Byte>, r: nat, m: Image, version: Word32)
    requires GetU32(b, r) == Got(m.functionCalls, r + 4) && GetU32(b, r + 4) == Got(m.startTypeStrings, r + 8)
    requires GetU32(b, r + 8) == Got(m.numTypeStrings, r + 12)
    ensures var t, l := GetTypesPart(b, r, version), LoadedAs(m, version);
      t.Got? && t.v == (l.functionCalls, l.startTypeStrings, l.numTypeStrings)
  {
    hide GetU32, NamesAt, OffsetsOf;
  }

  /**
    For every block whose sizes fit their words: reading the file written for it gives the same code
    words, strings, floats and line breaks, the identifiers in the same places, and the type offsets. The file
    starts with the version, least significant byte first.
   */
  lemma FileRoundTrip(m: Image)
    requires Storable(m)
    ensures ReadStream(FileOf(m), 0, 0) == Some(LoadedOf(m))
    ensures |FileOf(m)| >= 4 && FileOf(m)[..4] == [78, 0, 0, 0]
  {
    hide FileOf, ReadBody, GetU32, LoadedOf;
    FileStarts(m);
    BodyBack(m, VERSION);
  }

  lemma FileStarts(m: Image)
    requires Storable(m)
    ensures |FileOf(m)| >= 4 && FileOf(m)[..4] == [78, 0, 0, 0]
  {
    hide CodePart, IdentPart, Blob, Floats;
    assert Tables(m)[..4] == U32Bytes(VERSION);
    assert FileOf(m)[..4] == Tables(m)[..4];
  }

  /** So does reading on behind a version the caller names; as the older one, without calls and types. */
  lemma VersionGiven(m: Image, version: Word32)
    requires Storable(m) && version > 0
    ensures ReadStream(FileOf(m), 4, version) ==
      if version == 77 || version == 78 then Some(LoadedAs(m, version)) else None
  {
    hide FileOf, ReadBody, LoadedAs;
    BodyBack(m, version);
  }

  lemma WholeFile(m: Image)
    requires Storable(m)
    ensures var b := FileOf(m);
      At(b, 0, Tables(m)) && At(b, |Tables(m)|, CodePart(m)) && At(b, |Tables(m)| + |CodePart(m)|, IdentPart(m))
  {
    hide Tables, CodePart, IdentPart;
    var b := FileOf(m);
    assert At(b, 0, Tables(m) + (CodePart(m) + IdentPart(m)));
    AtSplit(b, 0, Tables(m), CodePart(m) + IdentPart(m));
    AtSplit(b, |Tables(m)|, CodePart(m), IdentPart(m));
  }

  // ----- as the program does it -----

  /** Writes values one after the other. */
  method WriteMany<T>(st: seq<Byte>, put: T -> seq<Byte>, vs: seq<T>) returns (out: seq<Byte>)
    ensures out == st + Many(put, vs)
  {
    out := st;
    var i := 0;
    assert vs[0..] == vs;
    while i < |vs|
      invariant 0 <= i <= |vs| && st + Many(put, vs) == out + Many(put, vs[i..])
    {
      assert vs[i..][1..] == vs[i + 1..];
      assert out + (put(vs[i]) + Many(put, vs[i + 1..])) == out + put(vs[i]) + Many(put, vs[i + 1..]);
      out := out + put(vs[i]);
      i := i + 1;
    }
  }

  method WriteTables(m: Image) returns (st: seq<Byte>)
    requires Storable(m)
    ensures st == Tables(m)
  {
    hide Many, U32Bytes;
    var s0 := U32Bytes(VERSION) + Blob(m.globalStrings) + Blob(m.functionStrings);
    var s1 := WriteMany(s0 + U32Bytes(|m.globalFloats|), F64Bytes, m.globalFloats);
    st := WriteMany(s1 + U32Bytes(|m.functionFloats|), F64Bytes, m.functionFloats);
    assert s1 == s0 + Floats(m.globalFloats);
    assert st == s0 + Floats(m.globalFloats) + Floats(m.functionFloats);
  }

  method WriteCode(m: Image) returns (st: seq<Byte>)
    requires Storable(m)
    ensures st == CodePart(m)
  {
    hide Many, U32Bytes;
    var sizes := U32Bytes(|m.code|) + U32Bytes(|m.lineBreaks| / 2);
    st := WriteMany(sizes, CodeBytes, m.code);
    st := WriteMany(st, U32Bytes, m.lineBreaks);
  }

  method WriteIdents(m: Image) returns (st: seq<Byte>)
    requires Storable(m)
    ensures st == IdentPart(m)
  {
    hide Many, U32Bytes;
    st := WriteMany(U32Bytes(|m.idents|), IdentBytes, m.idents);
    st := st + U32Bytes(m.functionCalls) + U32Bytes(m.startTypeStrings) + U32Bytes(m.numTypeStrings);
  }

  /** The output part of compileToStream. */
  method WriteFile(m: Image) returns (st: seq<Byte>)
    requires Storable(m)
    ensures st == FileOf(m)
  {
    var tables := WriteTables(m);
    var code := WriteCode(m);
    var idents := WriteIdents(m);
    st := tables + (code + idents);
  }

  /** A stream being read. */
  class Reader {
    const bytes: seq<Byte>
    var pos: nat

    constructor (b: seq<Byte>)
      ensures bytes == b && pos == 0
    {
      bytes, pos := b, 0;
    }

    /** One value, if there are bytes for it. */
    method Read<T>(get: (seq<Byte>, nat) -> Got<T>) returns (r: Option<T>)
      modifies this`pos
      ensures var g := get(bytes, old(pos));
        if g.Short? then r == None && pos == old(pos) else r == Some(g.v) && pos == g.next
    {
      var g := get(bytes, pos);
      if g.Short? {
        return None;
      }
      pos := g.next;
      r := Some(g.v);
    }

    /** `n` values into an array. */
    method ReadMany<T>(get: (seq<Byte>, nat) -> Got<T>, n: nat) returns (r: Option<seq<T>>)
      modifies this`pos
      ensures var g := GetMany(get, bytes, old(pos), n);
        if g.Short? then r == None else r == Some(g.v) && pos == g.next
    {
      hide GetMany, Behind;
      var vs: seq<T> := [];
      var i := 0;
      NothingBehind(GetMany(get, bytes, pos, n));
      while i < n
        invariant 0 <= i <= n
        invariant GetMany(get, bytes, old(pos), n) == Behind(vs, GetMany(get, bytes, pos, n - i))
      {
        OneBehind(get, bytes, pos, n - i, vs);
        var v := Read(get);
        if v.None? {
          return None;
        }
        vs := vs + [v.value];
        i := i + 1;
      }
      AllRead(get, bytes, pos, vs);
      r := Some(vs);
    }

    /** A size, then as many values. */
    method ReadSized<T>(get: (seq<Byte>, nat) -> Got<T>) returns (r: Option<seq<T>>)
      modifies this`pos
      ensures var n := GetU32(bytes, old(pos));
        if n.Short? then r == None
        else
          var g := GetMany(get, bytes, n.next, n.v);
          if g.Short? then r == None else r == Some(g.v) && pos == g.next
    {
      hide GetU32, GetMany;
      var n := Read(GetU32);
      if n.None? {
        return None;
      }
      r := ReadMany(get, n.value);
    }

    method ReadCodePart() returns (r: Option<(seq<Word32>, seq<Word32>)>)
      modifies this`pos
      ensures var g := GetCodePart(bytes, old(pos)); if g.Short? then r == None else r == Some(g.v) && pos == g.next
    {
      hide GetU32, GetMany;
      var size := Read(GetU32);
      if size.None? { return None; }
      var pairs := Read(GetU32);
      if pairs.None? { return None; }
      var code := ReadMany(GetCode, size.value);
      if code.None? { return None; }
      var breaks := ReadMany(GetU32, pairs.value * 2);
      if breaks.None? { return None; }
      r := Some((code.value, breaks.value));
    }

    method ReadTypesPart(version: Word32) returns (r: Option<(Word32, Word32, Word32)>)
      modifies this`pos
      ensures var g := GetTypesPart(bytes, old(pos), version);
        if g.Short? then r == None else r == Some(g.v)
    {
      hide GetU32;
      if version <= MIN_VERSION {
        return Some((1, 0, 0));
      }
      var calls := Read(GetU32);
      if calls.None? { return None; }
      var start := Read(GetU32);
      if start.None? { return None; }
      var types := Read(GetU32);
      if types.None? { return None; }
      r := Some((if calls.value == 0 then 1 else calls.value, start.value, types.value));
    }

    /** CodeBlock::read, started in front of the version or, if that is given, behind it. */
    method ReadBlock(readVersion: Word32) returns (r: Option<Loaded>)
      modifies this`pos
      ensures r == ReadStream(bytes, old(pos), readVersion)
    {
      hide GetU32, GetMany, GetBlob, GetCodePart, GetTypesPart, NamesAt, OffsetsOf;
      var version := readVersion;
      if readVersion == 0 {
        var read := Read(GetU32);
        if read.None? || read.value != VERSION { return None; }
        version := read.value;
      }
      if version < MIN_VERSION || version > VERSION { return None; }
      var gs := Read(GetBlob);
      if gs.None? { return None; }
      var fs := Read(GetBlob);
      if fs.None? { return None; }
      var gf := ReadSized(GetF64);
      if gf.None? { return None; }
      var ff := ReadSized(GetF64);
      if ff.None? { return None; }
      var c := ReadCodePart();
      if c.None? { return None; }
      var ids := ReadSized(GetIdent);
      if ids.None? { return None; }
      var t := ReadTypesPart(version);
      if t.None? { return None; }
      r := Some(Loaded(gs.value, fs.value, gf.value, ff.value, c.value.0, c.value.1,
                       NamesAt(gs.value, ids.value), OffsetsOf(ids.value), t.value.0, t.value.1, t.value.2));
    }
  }

  /** Values already read, and what reading the rest gives. */
  function Behind<T>(vs: seq<T>, g: Got<seq<T>>): Got<seq<T>> {
    if g.Short? then Short else Got(vs + g.v, g.next)
  }

  lemma NothingBehind<T>(g: Got<seq<T>>)
    ensures Behind([], g) == g
  {
    if g.Got? {
      assert [] + g.v == g.v;
    }
  }

  lemma OneBehind<T>(get: (seq<Byte>, nat) -> Got<T>, b: seq<Byte>, pos: nat, n: nat, vs: seq<T>)
    requires n > 0
    ensures var g := get(b, pos);
      Behind(vs, GetMany(get, b, pos, n)) == if g.Short? then Short
          else Behind(vs + [g.v], GetMany(get, b, g.next, n - 1))
  {
    var g := get(b, pos);
    if g.Got? {
      var rest := GetMany(get, b, g.next, n - 1);
      if rest.Got? {
        assert vs + ([g.v] + rest.v) == vs + [g.v] + rest.v;
      }
    }
  }

  lemma AllRead<T>(get: (seq<Byte>, nat) -> Got<T>, b: seq<Byte>, pos: nat, vs: seq<T>)
    ensures Behind(vs, GetMany(get, b, pos, 0)) == Got(vs, pos)
  {
    assert vs + [] == vs;
  }
}
