/** The compiler's string and identifier tables, whose places and offsets the code and the file use. */
module CompilerTables {
  import opened Values
  import opened Dso
  import opened DsoFile

  /** A text without its NUL, where it starts among the strings, and what a tag keeps free behind it. */
  datatype StringEntry = StringEntry(text: seq<Byte>, start: nat, tag: bool, spare: seq<Byte>)

  /** A tag is replaced by its number: one byte for the mark, five digits and a NUL. */
  const TAG_LENGTH: nat := 7

  /** How many bytes are kept behind the NUL. */
  function Spare(text: seq<Byte>, tag: bool): nat {
    if tag && |text| + 1 < TAG_LENGTH then TAG_LENGTH - |text| - 1 else 0
  }

  function Spelled(e: StringEntry): seq<Byte> {
    e.text + [0] + e.spare
  }

  /** All strings, each with its NUL, as they are written to a file. */
  function Strings(es: seq<StringEntry>): seq<Byte> {
    if es == [] then [] else Strings(es[..|es| - 1]) + Spelled(es[|es| - 1])
  }

  predicate Fine(e: StringEntry) {
    0 !in e.text && |e.spare| == Spare(e.text, e.tag)
  }

  ghost predicate Laid(es: seq<StringEntry>) {
    forall k :: 0 <= k < |es| ==> es[k].start == |Strings(es[..k])| && Fine(es[k])
  }

  /** strcmp or strcasecmp finding no difference. */
  function Same(fold: Byte -> Byte, a: seq<Byte>, b: seq<Byte>, caseSens: bool): bool {
    a == b || (!caseSens && |a| == |b| && forall i :: 0 <= i < |a| ==> fold(a[i]) == fold(b[i]))
  }

  lemma {:induction false} StringsPrefix(es: seq<StringEntry>, n: nat)
    requires n <= |es|
    ensures |Strings(es[..n])| <= |Strings(es)| && Strings(es)[..|Strings(es[..n])|] == Strings(es[..n])
    decreases |es|
  {
    if n == |es| {
      assert es[..n] == es;
    } else {
      assert es[..|es| - 1][..n] == es[..n];
      StringsPrefix(es[..|es| - 1], n);
    }
  }

  lemma {:induction false} NameStops(s: seq<Byte>, at: nat, text: seq<Byte>)
    requires 0 !in text && at + |text| < |s| && s[at..at + |text|] == text && s[at + |text|] == 0
    ensures NameAt(s, at) == text
    decreases |text|
  {
    if text != [] {
      assert s[at] == text[0];
      assert s[at + 1..at + |text|] == text[1..];
      NameStops(s, at + 1, text[1..]);
    }
  }

  /** Every entry's offset finds its text among the written strings. */
  lemma EntryReads(es: seq<StringEntry>, k: nat)
    requires Laid(es) && k < |es|
    ensures es[k].start < |Strings(es)| && NameAt(Strings(es), es[k].start) == es[k].text
  {
    hide Strings, Laid, NameAt;
    StartOf(es, k);
    StringsPrefix(es, k + 1);
    LastSpelled(es, k);
    var s, at, upTo := Strings(es), es[k].start, Strings(es[..k + 1]);
    assert upTo[at..] == es[k].text + [0] + es[k].spare;
    TextWithin(s, upTo, at, es[k].text, es[k].spare);
    NameStops(s, at, es[k].text);
  }

  lemma StartOf(es: seq<StringEntry>, k: nat)
    requires Laid(es) && k < |es|
    ensures es[k].start == |Strings(es[..k])| && Fine(es[k])
  {
  }

  lemma LastSpelled(es: seq<StringEntry>, k: nat)
    requires k < |es|
    ensures Strings(es[..k + 1]) == Strings(es[..k]) + Spelled(es[k])
  {
    assert es[..k + 1][..k] == es[..k];
  }

  lemma TextWithin(s: seq<Byte>, upTo: seq<Byte>, at: nat, text: seq<Byte>, rest: seq<Byte>)
    requires |upTo| <= |s| && s[..|upTo|] == upTo && |upTo| == at + |text| + 1 + |rest|
        && upTo[at..] == text + [0] + rest
    ensures at + |text| < |s| && s[at..at + |text|] == text && s[at + |text|] == 0
  {
    forall i | 0 <= i <= |text| ensures s[at + i] == if i < |text| then text[i] else 0 {
      assert s[at + i] == s[..|upTo|][at + i] == upTo[at..][i] == (text + [0] + rest)[i];
    }
  }

  /** The first text that is the same. */
  ghost predicate First(es: seq<StringEntry>, fold: Byte -> Byte, text: seq<Byte>, caseSens: bool, tag: bool, k: nat)
    requires k < |es|
  {
    Answers(es[k], fold, text, caseSens, tag) && forall j :: 0 <= j < k ==> !Answers(es[j], fold, text, caseSens, tag)
  }

  /** Tags and other strings are kept apart. */
  function Answers(e: StringEntry, fold: Byte -> Byte, text: seq<Byte>, caseSens: bool, tag: bool): bool {
    e.tag == tag && Same(fold, e.text, text, caseSens)
  }

  class StringTable {
    var entries: seq<StringEntry>
    var totalLen: nat
    const fold: Byte -> Byte

    ghost predicate Valid()
      reads this
    {
      Laid(entries) && totalLen == |Strings(entries)|
    }

    constructor (f: Byte -> Byte)
      ensures Valid() && entries == [] && fold == f
    {
      entries, totalLen, fold := [], 0, f;
    }

    /**
      The offset of the first text of that kind that is the same, letter by letter or but for case; read there,
      the written strings give it. A new one goes to the end. A tag's spare bytes come from `behind`, whatever
      follows the text in memory.
     */
    method Add(text: seq<Byte>, caseSens: bool, tag: bool, behind: seq<Byte>) returns (start: nat)
      requires Valid() && 0 !in text && Spare(text, tag) <= |behind|
      modifies this
      ensures Valid() && old(entries) <= entries && |entries| <= |old(entries)| + 1
      ensures entries == old(entries) <==>
        exists k :: 0 <= k < |old(entries)| && old(entries)[k].tag == tag && |old(entries)[k].text| == |text|
          && (forall i :: 0 <= i < |text| ==>
                old(entries)[k].text[i] == text[i] || (!caseSens && fold(old(entries)[k].text[i]) == fold(text[i])))
      ensures entries != old(entries) ==>
        && entries[|old(entries)|].text == text && entries[|old(entries)|].tag == tag
        && start == |Strings(old(entries))|
        && |Strings(entries)| == start + (if tag && |text| < 6 then 7 else |text| + 1)
      ensures var name := NameAt(Strings(entries), start);
        |name| == |text| && forall i :: 0 <= i < |text| ==>
          name[i] == text[i] || (!caseSens && fold(name[i]) == fold(text[i]))
      ensures exists k ::
          0 <= k < |entries| && entries[k].start == start && First(entries, fold, text, caseSens, tag, k)
    {
      hide Laid, Strings;
      var i := 0;
      while i < |entries|
        invariant 0 <= i <= |entries| && entries == old(entries) && totalLen == old(totalLen)
        invariant forall j :: 0 <= j < i ==> !Answers(entries[j], fold, text, caseSens, tag)
      {
        if Answers(entries[i], fold, text, caseSens, tag) {
          assert First(entries, fold, text, caseSens, tag, i);
          EntryReads(entries, i);
          return entries[i].start;
        }
        i := i + 1;
      }
      start := totalLen;
      var added := StringEntry(text, totalLen, tag, behind[..Spare(text, tag)]);
      entries := entries + [added];
      totalLen := totalLen + |text| + 1 + Spare(text, tag);
      Appended(old(entries), added);
      EntryReads(entries, i);
      assert entries[i].start == start && First(entries, fold, text, caseSens, tag, i);
    }
  }

  lemma Appended(es: seq<StringEntry>, e: StringEntry)
    requires Laid(es) && e.start == |Strings(es)| && Fine(e)
    ensures Laid(es + [e]) && Strings(es + [e]) == Strings(es) + Spelled(e)
  {
    var all := es + [e];
    assert all[..|all| - 1] == es;
    forall k | 0 <= k < |all| ensures all[k].start == |Strings(all[..k])| && Fine(all[k]) {
      assert k < |es| ==> all[..k] == es[..k];
      assert k == |es| ==> all[..k] == es;
    }
  }

  lemma StartsRise(es: seq<StringEntry>, i: nat, j: nat)
    requires Laid(es) && i < j < |es|
    ensures es[i].start < es[j].start
  {
    hide Strings, Laid;
    StartOf(es, i);
    StartOf(es, j);
    LastSpelled(es, i);
    assert es[..j][..i + 1] == es[..i + 1];
    StringsPrefix(es[..j], i + 1);
  }

  /**
    Whatever was added between, two texts of one kind get the same offset exactly if they are the same: letter
    by letter when case counts, and else when they fold alike.
   */
  lemma OffsetsTell(es: seq<StringEntry>, more: seq<StringEntry>, fold: Byte -> Byte, a: seq<Byte>, b: seq<Byte>,
      caseSens: bool, tag: bool, k: nat, m: nat)
    requires Laid(es + more) && k < |es| && m < |es + more|
    requires First(es, fold, a, caseSens, tag, k) && First(es + more, fold, b, caseSens, tag, m)
    ensures es[k].start == (es + more)[m].start <==>
      |a| == |b| && forall i :: 0 <= i < |a| ==> if caseSens then a[i] == b[i] else fold(a[i]) == fold(b[i])
  {
    hide Laid;
    var all := es + more;
    assert all[k] == es[k];
    if k < m {
      StartsRise(all, k, m);
      assert !Answers(all[k], fold, b, caseSens, tag);
    } else if m < k {
      StartsRise(all, m, k);
      assert all[m] == es[m] && !Answers(es[m], fold, a, caseSens, tag);
    }
  }

  /** A tag and another string never share one. */
  lemma TagsApart(es: seq<StringEntry>, fold: Byte -> Byte, a: seq<Byte>, b: seq<Byte>, caseA: bool, caseB: bool,
      k: nat, m: nat)
    requires Laid(es) && k < |es| && m < |es|
    requires First(es, fold, a, caseA, true, k) && First(es, fold, b, caseB, false, m)
    ensures es[k].start != es[m].start
  {
    hide Laid;
    if k < m {
      StartsRise(es, k, m);
    } else {
      StartsRise(es, m, k);
    }
  }

  // ----- identifiers -----

  /** The identifier list, its count, and the place of the entry a new one is hung behind, if known. */
  datatype Idents = Idents(list: seq<Ident>, count: nat, tail: Option<nat>)

  const NO_IDENTS := Idents([], 0, None)

  ghost predicate Orderly(t: Idents) {
    && t.count == |t.list| && t.tail == (if t.list == [] then None else Some(|t.list| - 1))
    && forall i, j :: 0 <= i < j < |t.list| ==> t.list[i].offset != t.list[j].offset
  }

  /** The place of the identifier with that offset; the length if there is none. */
  function Place(list: seq<Ident>, offset: Word32): (k: nat)
    ensures k <= |list| && (k < |list| ==> list[k].offset == offset)
    ensures forall j :: 0 <= j < k ==> list[j].offset != offset
  {
    if list == [] then 0
    else if list[0].offset == offset then 0
    else 1 + Place(list[1..], offset)
  }

  /** Notes one more use of an identifier; without a known tail a new one becomes the whole list. */
  function AddIdent(t: Idents, offset: Word32, ip: Word32): (r: (Idents, nat))
    requires t.tail.Some? ==> t.tail.value < |t.list|
  {
    var k := Place(t.list, offset);
    if k < |t.list| then (t.(list := t.list[k := t.list[k].(patches := [ip] + t.list[k].patches)]), k)
    else
      var kept := if t.tail.None? then [] else t.list[..t.tail.value + 1];
      (Idents(kept + [Ident(offset, [ip])], t.count + 1, Some(|kept|)), t.count)
  }

  /** Hangs another table behind. An empty table takes over the other's list, but not where it ends. */
  function Append(t: Idents, other: Idents): (Idents, nat) {
    if other.list == [] then (t, t.count)
    else if t.list == [] then (t.(list := other.list, count := other.count), 0)
    else (Idents(t.list + other.list, t.count + other.count, Some(|t.list| + |other.list| - 1)), t.count)
  }

  /**
    An identifier keeps its place from its first use on, whatever is added after; the use noted is the newest
    of its offset, and no other identifier's uses change.
   */
  lemma AddKeepsPlaces(t: Idents, offset: Word32, ip: Word32)
    requires Orderly(t)
    ensures var r := AddIdent(t, offset, ip);
      && Orderly(r.0) && r.1 < |r.0.list| && r.0.list[r.1].offset == offset
      && |t.list| <= |r.0.list| <= |t.list| + 1
      && (|r.0.list| == |t.list| <==> exists k :: 0 <= k < |t.list| && t.list[k].offset == offset)
      && r.0.list[r.1].patches == [ip] + (if r.1 < |t.list| then t.list[r.1].patches else [])
      && (forall k :: 0 <= k < |t.list| ==> r.0.list[k].offset == t.list[k].offset)
      && (forall k :: 0 <= k < |t.list| && k != r.1 ==> r.0.list[k] == t.list[k])
  {
  }

  /** The types of a file stand behind its identifiers, from the place append returns. */
  lemma TypesBehind(t: Idents, types: Idents)
    requires Orderly(t) && Orderly(types)
    ensures var r := Append(t, types);
      r.0.count == |r.0.list| && r.0.list == t.list + types.list && r.1 == t.count
  {
  }

  /**
    Adding a new identifier to an appended table keeps what is there exactly if the first table had
    identifiers, or the second had none: otherwise the new one becomes the whole list.
   */
  lemma AddAfterAppend(t: Idents, types: Idents, offset: Word32, ip: Word32)
    requires Orderly(t) && Orderly(types) && Place(t.list + types.list, offset) == |t.list| + |types.list|
    ensures var r := Append(t, types).0;
      && (r.tail.Some? ==> r.tail.value < |r.list|)
      && (AddIdent(r, offset, ip).0.list == t.list + types.list + [Ident(offset, [ip])] <==>
            (t.list != [] || types.list == []))
  {
    hide Place;
    var r, one := Append(t, types).0, [Ident(offset, [ip])];
    assert r.list == t.list + types.list;
    if t.list != [] {
      assert r.list[..|r.list|] == r.list;
    } else {
      assert |AddIdent(r, offset, ip).0.list| == 1;
    }
  }
}
