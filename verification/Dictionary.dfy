/** The variable dictionary: chained hashing, with a rehash that relinks the entries it has. */
module Dictionaries {
  import opened Values
  import FindMatch

  const INITIAL_SIZE: nat := 15

  class Entry {
    const name: CString
    var nextEntry: Entry?
    var value: Value

    constructor (n: CString)
      ensures name == n && nextEntry == null && value == VString("")
    {
      name, nextEntry, value := n, null, VString("");
    }
  }

  // ----- chains -----

  ghost function At(c: seq<Entry>, i: nat): Entry? {
    if i < |c| then c[i] else null
  }

  /** The entries of `c`, linked in that order from `head`. */
  ghost predicate Linked(head: Entry?, c: seq<Entry>)
    reads c
  {
    head == At(c, 0) && forall i :: 0 <= i < |c| ==> c[i].nextEntry == At(c, i + 1)
  }

  /** No name twice; so no entry twice. */
  ghost predicate Distinct(c: seq<Entry>) {
    forall i, j :: 0 <= i < j < |c| ==> c[i].name != c[j].name
  }

  lemma LinkedRest(head: Entry?, c: seq<Entry>)
    requires Linked(head, c) && c != []
    ensures head != null && Linked(c[0].nextEntry, c[1..])
  {
  }

  /** Hangs a chain behind the last entry of another. */
  method Splice(last: Entry, first: Entry?, ghost a: seq<Entry>, ghost c: seq<Entry>)
    requires a != [] && last == a[|a| - 1] && Linked(a[0], a) && Linked(first, c) && last !in a[..|a| - 1] && last !in c
    modifies last`nextEntry
    ensures Linked(a[0], a + c)
  {
    last.nextEntry := first;
    assert forall i :: 0 <= i < |a| - 1 ==> a[..|a| - 1][i] == a[i];
  }

  /** Puts an entry in front of a chain. */
  method Prepend(e: Entry, first: Entry?, ghost c: seq<Entry>)
    requires Linked(first, c) && e !in c
    modifies e`nextEntry
    ensures Linked(e, [e] + c)
  {
    e.nextEntry := first;
  }

  /** Takes an entry out of the middle of a chain. */
  method Unlink(prev: Entry, ent: Entry, ghost a: seq<Entry>, ghost b: seq<Entry>)
    requires a != [] && prev == a[|a| - 1] && Linked(a[0], a + [ent] + b) && Distinct(a + [ent] + b)
    modifies prev`nextEntry
    ensures Linked(a[0], a + b)
  {
    ghost var c: seq<Entry> := a + [ent] + b;
    assert c[|a|] == ent && c[|a| - 1] == prev;
    prev.nextEntry := ent.nextEntry;
    forall i | 0 <= i < |a + b|
      ensures (a + b)[i].nextEntry == At(a + b, i + 1)
    {
      var k := if i < |a| then i else i + 1;
      assert (a + b)[i] == c[k] && (k != |a| - 1 ==> c[k].name != c[|a| - 1].name);
    }
  }

  // ----- buckets -----

  /** Every entry is in the bucket its name hashes to, and no bucket holds a name twice. */
  ghost predicate Bucketed(chains: seq<seq<Entry>>, hash: CString -> nat) {
    && chains != []
    && (forall b, e :: 0 <= b < |chains| && e in chains[b] ==> hash(e.name) % |chains| == b)
    && (forall b :: 0 <= b < |chains| ==> Distinct(chains[b]))
  }

  /** The chains hold exactly the entries of the map. */
  ghost predicate Holding(chains: seq<seq<Entry>>, hash: CString -> nat, entries: map<CString, Entry>) {
    && chains != []
    && (forall b, e :: 0 <= b < |chains| && e in chains[b] ==> e.name in entries && entries[e.name] == e)
    && (forall n :: n in entries ==> entries[n].name == n && entries[n] in chains[hash(n) % |chains|])
  }

  ghost function Flat(chains: seq<seq<Entry>>): seq<Entry> {
    if chains == [] then [] else Flat(chains[..|chains| - 1]) + chains[|chains| - 1]
  }

  lemma {:induction false} FlatMembers(chains: seq<seq<Entry>>, n: nat, e: Entry)
    requires n <= |chains|
    ensures e in Flat(chains[..n]) <==> exists b :: 0 <= b < n && e in chains[b]
    decreases n
  {
    if n > 0 {
      FlatMembers(chains, n - 1, e);
      assert chains[..n][..n - 1] == chains[..n - 1];
    }
  }

  lemma DistinctJoined(a: seq<Entry>, b: seq<Entry>)
    requires Distinct(a) && Distinct(b) && forall x, y :: x in a && y in b ==> x.name != y.name
    ensures Distinct(a + b)
  {
  }

  /** All entries, bucket after bucket: no name comes twice. */
  lemma {:induction false} FlatDistinct(chains: seq<seq<Entry>>, hash: CString -> nat, n: nat)
    requires Bucketed(chains, hash) && n <= |chains|
    ensures Distinct(Flat(chains[..n]))
    decreases n
  {
    hide Distinct;
    if n == 0 {
      NoneDistinct();
    } else {
      FlatDistinct(chains, hash, n - 1);
      assert chains[..n][..n - 1] == chains[..n - 1];
      var f, c := Flat(chains[..n - 1]), chains[n - 1];
      forall x, y | x in f && y in c ensures x.name != y.name {
        FlatMembers(chains, n - 1, x);
      }
      DistinctJoined(f, c);
    }
  }

  lemma NoneDistinct()
    ensures Distinct([])
  {
  }

  /** The end of the list made so far is on none of the buckets to come, and on the list only once. */
  lemma LastIsNew(chains: seq<seq<Entry>>, hash: CString -> nat, i: nat, dummy: Entry)
    requires Bucketed(chains, hash) && i < |chains|
    requires forall b :: 0 <= b < |chains| ==> dummy !in chains[b]
    ensures var h := [dummy] + Flat(chains[..i]);
      var last := h[|h| - 1];
      && last !in h[..|h| - 1]
      && (forall b :: i <= b < |chains| ==> last !in chains[b])
      && (last == dummy || exists b :: 0 <= b < |chains| && last in chains[b])
  {
    var f := Flat(chains[..i]);
    var h: seq<Entry> := [dummy] + f;
    var last := h[|h| - 1];
    FlatDistinct(chains, hash, i);
    FlatMembers(chains, i, dummy);
    if f == [] {
      assert h[..|h| - 1] == [];
    } else {
      assert last == f[|f| - 1] && last in f;
      FlatMembers(chains, i, last);
      forall k | 0 <= k < |h| - 1 ensures h[k] != last {
        assert k > 0 ==> h[k] == f[k - 1] && f[k - 1].name != f[|f| - 1].name;
      }
    }
  }

  /** The first `k` entries of `l` have been dealt out to the buckets. */
  ghost predicate Dealt(chains: seq<seq<Entry>>, hash: CString -> nat, l: seq<Entry>, k: nat)
    requires k <= |l|
  {
    && Bucketed(chains, hash)
    && (forall b, e :: 0 <= b < |chains| && e in chains[b] ==> e in l[..k])
    && (forall j :: 0 <= j < k ==> l[j] in chains[hash(l[j].name) % |chains|])
  }

  lemma DistinctInFront(e: Entry, c: seq<Entry>)
    requires Distinct(c) && forall x :: x in c ==> x.name != e.name
    ensures Distinct([e] + c)
  {
  }

  lemma DealtOneMore(chains: seq<seq<Entry>>, hash: CString -> nat, l: seq<Entry>, k: nat)
    requires k < |l| && Distinct(l) && Dealt(chains, hash, l, k)
    ensures var b := hash(l[k].name) % |chains|;
      Dealt(chains[b := [l[k]] + chains[b]], hash, l, k + 1)
  {
    hide Distinct;
    var b := hash(l[k].name) % |chains|;
    var d := chains[b := [l[k]] + chains[b]];
    assert l[..k + 1] == l[..k] + [l[k]];
    forall c, e | 0 <= c < |d| && e in d[c] ensures e in l[..k + 1] && hash(e.name) % |d| == c {
      if e in chains[c] {
        assert e in l[..k];
      }
    }
    forall e | e in chains[b] ensures e.name != l[k].name {
      assert e in l[..k];
      NotDealtYet(l, k, e);
    }
    DistinctInFront(l[k], chains[b]);
  }

  lemma NotDealtYet(l: seq<Entry>, k: nat, e: Entry)
    requires k < |l| && Distinct(l) && e in l[..k]
    ensures e.name != l[k].name
  {
  }

  lemma DealtAll(old_: seq<seq<Entry>>, chains: seq<seq<Entry>>, hash: CString -> nat, entries: map<CString, Entry>)
    requires Bucketed(old_, hash) && Holding(old_, hash, entries) && Dealt(chains, hash, Flat(old_), |Flat(old_)|)
    ensures Holding(chains, hash, entries)
  {
    var l := Flat(old_);
    assert old_[..|old_|] == old_ && l[..|l|] == l;
    forall e ensures e in l <==> exists b :: 0 <= b < |old_| && e in old_[b] {
      FlatMembers(old_, |old_|, e);
    }
    forall b, e | 0 <= b < |chains| && e in chains[b] ensures e.name in entries && entries[e.name] == e {
      assert e in l;
      var c :| 0 <= c < |old_| && e in old_[c];
    }
    forall n | n in entries ensures entries[n] in chains[hash(n) % |chains|] {
      assert entries[n] in old_[hash(n) % |old_|];
      assert entries[n] in l;
      var j :| 0 <= j < |l| && l[j] == entries[n];
    }
  }

  class Dictionary {
    var data: array<Entry?>
    var size: nat
    var count: nat
    const hash: CString -> nat
    ghost var chains: seq<seq<Entry>>
    /** The dictionary as the finite map it stands for: each name's own entry object. */
    ghost var entries: map<CString, Entry>

    ghost predicate Chained()
      reads this, data, entries.Values
    {
      && data.Length == size == |chains| && Bucketed(chains, hash) && Holding(chains, hash, entries)
      && (forall b, e :: 0 <= b < |chains| && e in chains[b] ==> e in entries.Values)
      && (forall b :: 0 <= b < |chains| ==> Linked(data[b], chains[b]))
    }

    ghost predicate Valid()
      reads this, data, entries.Values
    {
      Chained() && count == |entries| && count <= size * 2
    }

    constructor (h: CString -> nat)
      ensures Valid() && entries == map[] && fresh(data)
    {
      hash := h;
      data := new Entry?[INITIAL_SIZE](i => null);
      size, count := INITIAL_SIZE, 0;
      chains := seq(INITIAL_SIZE, i => []);
      entries := map[];
    }

    method Lookup(name: CString) returns (r: Entry?)
      requires Chained()
      ensures r == if name in entries then entries[name] else null
    {
      ghost var c := chains[hash(name) % size];
      var walk := data[hash(name) % size];
      ghost var k := 0;
      while walk != null
        invariant 0 <= k <= |c| && Linked(walk, c[k..])
        invariant forall i :: 0 <= i < k ==> c[i].name != name
        decreases |c| - k
      {
        assert c[k] in c;
        if walk.name == name {
          return walk;
        }
        assert c[k..][1..] == c[k + 1..];
        LinkedRest(walk, c[k..]);
        walk := walk.nextEntry;
        k := k + 1;
      }
      r := null;
    }

    /** Hangs all buckets behind one another. */
    method Flatten() returns (head: Entry?)
      requires Chained()
      modifies entries.Values`nextEntry
      ensures Linked(head, Flat(chains))
    {
      hide Distinct, Bucketed, Holding, Linked, Flat;
      var dummy := new Entry("");
      var walk := dummy;
      ghost var h, w: nat := [dummy], 0;
      var i := 0;
      NothingFlat(chains);
      OneLinked(dummy);
      while i < size
        invariant 0 <= i <= size
        invariant h == [dummy] + Flat(chains[..i]) && Linked(dummy, h) && w < |h| && h[w] == walk
        invariant forall b :: i <= b < size ==> Linked(data[b], chains[b])
      {
        walk := LastOf(walk, h, w);
        LastIsNew(chains, hash, i, dummy);
        Splice(walk, data[i], h, chains[i]);
        w := |h| - 1;
        FlatMore(chains, i);
        h := h + chains[i];
        i := i + 1;
      }
      assert chains[..i] == chains;
      LinkedRest(dummy, h);
      assert h[1..] == Flat(chains);
      head := dummy.nextEntry;
    }

    /** Puts the next entry in front of its new bucket. */
    method Deal(walk: Entry, ghost l: seq<Entry>, ghost k: nat) returns (next: Entry?)
      requires k <= |l| && Linked(walk, l[k..]) && Distinct(l) && 0 < size == data.Length == |chains|
      requires Dealt(chains, hash, l, k) && forall b :: 0 <= b < size ==> Linked(data[b], chains[b])
      modifies data, this`chains, walk`nextEntry
      ensures k < |l| && Linked(next, l[k + 1..]) && |chains| == size
      ensures Dealt(chains, hash, l, k + 1) && forall b :: 0 <= b < size ==> Linked(data[b], chains[b])
    {
      hide Distinct, Linked, Dealt;
      FirstOf(walk, l, k);
      NextIsApart(chains, hash, l, k);
      next := walk.nextEntry;
      var idx := hash(walk.name) % size;
      DealtOneMore(chains, hash, l, k);
      Prepend(walk, data[idx], chains[idx]);
      data[idx] := walk;
      chains := chains[idx := [walk] + chains[idx]];
    }

    /** Deals the entries out to a larger array of buckets, relinking each. */
    method Rebucket(head: Entry?, ghost l: seq<Entry>)
      requires size > 0 && Linked(head, l) && Distinct(l) && forall e :: e in l ==> e in entries.Values
      modifies this`data, this`size, this`chains, entries.Values`nextEntry
      ensures size == old(size) * 4 - 1 && data.Length == size == |chains| && fresh(data)
      ensures Dealt(chains, hash, l, |l|) && forall b :: 0 <= b < size ==> Linked(data[b], chains[b])
    {
      hide Distinct, Linked, Dealt;
      size := size * 4 - 1;
      data := new Entry?[size](i => null);
      chains := seq(size, i => []);
      var walk := head;
      ghost var k := 0;
      NoneDealt(chains, hash, l);
      NoneLinked();
      assert l[0..] == l;
      while walk != null
        invariant 0 <= k <= |l| && Linked(walk, l[k..]) && data.Length == size == |chains| == old(size) * 4 - 1
            && fresh(data)
        invariant Dealt(chains, hash, l, k) && forall b :: 0 <= b < size ==> Linked(data[b], chains[b])
        decreases |l| - k
      {
        InList(walk, l, k);
        walk := Deal(walk, l, k);
        k := k + 1;
      }
      NoMore(l, k);
    }

    /** Four times the buckets, less one, with the same entries. */
    method Grow()
      requires Chained()
      modifies this`data, this`size, this`chains, entries.Values`nextEntry
      ensures Chained() && size == old(size) * 4 - 1 && fresh(data)
    {
      hide Distinct, Linked, Bucketed, Flat, Holding, Dealt;
      ghost var before := chains;
      AllDistinct(chains, hash);
      FlatInMap(chains, hash, entries);
      var head := Flatten();
      Rebucket(head, Flat(before));
      DealtAll(before, chains, hash, entries);
      DealtBucketed(chains, hash, Flat(before));
      InTheMap(chains, hash, entries);
    }

    /** Puts a new entry in front of its bucket. */
    method Insert(name: CString) returns (r: Entry)
      requires Chained() && name !in entries
      modifies this`chains, this`entries, data
      ensures Chained() && entries == old(entries)[name := r] && fresh(r) && r.value == VString("") && r.name == name
    {
      hide Distinct, Linked, Bucketed, Holding;
      BucketsExist(chains, hash, entries);
      r := new Entry(name);
      var idx := hash(name) % size;
      AddedBucket(chains, hash, entries, r);
      Prepend(r, data[idx], chains[idx]);
      data[idx] := r;
      chains := chains[idx := [r] + chains[idx]];
      entries := entries[name := r];
      InTheMap(chains, hash, entries);
    }

    /**
      The entry of that name, made if there is none. Entries that were there stay the objects they were,
      with their values, also when the table grows.
     */
    method Add(name: CString) returns (r: Entry)
      requires Valid()
      modifies this`data, this`size, this`count, this`chains, this`entries, data, entries.Values`nextEntry
      ensures Valid() && name in entries && entries[name] == r
      ensures if name in old(entries) then entries == old(entries)
              else entries == old(entries)[name := r] && fresh(r) && r.value == VString("")
      ensures data == old(data) || fresh(data)
    {
      hide Bucketed, Holding, Linked;
      SizePositive();
      var found := Lookup(name);
      if found != null {
        return found;
      }
      count := count + 1;
      if count > size * 2 {
        Grow();
      }
      r := Insert(name);
    }

    /** Unlinks an entry from its bucket, where it is the `k`th. */
    method Detach(ent: Entry) returns (ghost idx: nat, ghost k: nat, ghost r: seq<Entry>)
      requires Chained() && ent.name in entries && entries[ent.name] == ent
      modifies data, entries.Values`nextEntry
      ensures idx < size && idx == Bucket(ent.name) && k < |chains[idx]| && chains[idx][k] == ent
          && r == chains[idx][..k] + chains[idx][k + 1..]
      ensures Bucketed(chains[idx := r], hash) && Holding(chains[idx := r], hash, entries - {ent.name})
      ensures Linked(data[idx], r) && forall b :: 0 <= b < size && b != idx ==> Linked(data[b], chains[b])
    {
      hide Distinct, Linked, Bucketed, Holding;
      BucketsExist(chains, hash, entries);
      var at := hash(ent.name) % size;
      Taken(chains, hash, entries, ent);
      ghost var c := chains[at];
      var prev;
      prev, k := Before(data[at], ent, c);
      TakenOut(chains, hash, entries, ent, k);
      assert prev != null ==> prev in c;
      Bypass(data, at, prev, ent, c, k);
      idx, r := at, c[..k] + c[k + 1..];
    }

    /** Takes an entry out of its bucket, where it is the `k`th, leaving the order of the others. */
    method Remove(ent: Entry) returns (ghost k: nat)
      requires Valid() && ent.name in entries && entries[ent.name] == ent
      modifies this`count, this`chains, this`entries, data, entries.Values`nextEntry
      ensures Valid() && entries == old(entries) - {ent.name}
      ensures |chains| > 0 && Bucket(ent.name) < |old(chains)|
      ensures var c := old(chains[Bucket(ent.name)]);
        k < |c| && c[k] == ent && chains == old(chains)[Bucket(ent.name) := c[..k] + c[k + 1..]]
    {
      hide Distinct, Linked, Bucketed, Holding;
      ghost var idx, r;
      idx, k, r := Detach(ent);
      OneLess(entries, ent.name);
      chains := chains[idx := r];
      entries := entries - {ent.name};
      count := count - 1;
      InTheMap(chains, hash, entries);
    }

    ghost function Bucket(name: CString): nat
      reads this
    {
      if size == 0 then 0 else hash(name) % size
    }

    /** Walks along a bucket, removing what matches from it. */
    method SweepBucket(i: nat, pattern: CString, fold: char -> char, ghost before: map<CString, Entry>)
      requires Valid() && i < size && FindMatch.Folds(fold) && Kept(before, entries, pattern, fold)
      modifies this`count, this`chains, this`entries, data, entries.Values`nextEntry
      ensures Valid() && Kept(before, entries, pattern, fold) && entries.Values <= old(entries.Values)
      ensures |chains| == |old(chains)| && NoMatch(chains[i], pattern, fold)
      ensures forall b :: 0 <= b < |chains| && b != i ==> chains[b] == old(chains)[b]
    {
      hide Chained, Bucketed, Holding, Linked, Distinct, NoMatch, Kept;
      Start(i, pattern, fold);
      var walk := data[i];
      ghost var k := 0;
      while walk != null
        invariant Valid() && entries.Values <= old(entries.Values) && |chains| == |old(chains)|
        invariant k <= |chains[i]| && walk == At(chains[i], k)
        invariant Kept(before, entries, pattern, fold) && NoMatch(chains[i][..k], pattern, fold)
        invariant forall b :: 0 <= b < |chains| && b != i ==> chains[b] == old(chains)[b]
        decreases |chains[i]| - k
      {
        ghost var c, m := chains[i], entries;
        OnChain(i, k);
        var next := walk.nextEntry;
        var matched := FindMatch.IsMatch(pattern, walk.name, false, fold);
        if matched {
          ghost var at := Remove(walk);
          SamePlace(c, k, at);
          assert chains[i] == c[..k] + c[k + 1..];
          OneLessKept(before, m, walk.name, pattern, fold);
        } else {
          OneMoreKept(c, k, pattern, fold);
          k := k + 1;
        }
        walk := next;
      }
      assert chains[i][..k] == chains[i];
    }

    lemma Start(i: nat, pattern: CString, fold: char -> char)
      requires Chained() && i < size
      ensures data.Length == size == |chains| && data[i] == At(chains[i], 0) && NoMatch(chains[i][..0], pattern, fold)
    {
    }

    /** An entry of a bucket is the map's, in the bucket of its name, and leads to the next. */
    lemma OnChain(i: nat, k: nat)
      requires Chained() && i < |chains| && k < |chains[i]|
      ensures var e := chains[i][k];
        && e.nextEntry == At(chains[i], k + 1) && e.name in entries && entries[e.name] == e
        && Bucket(e.name) == i && Distinct(chains[i])
    {
      hide Distinct;
      assert chains[i][k] in chains[i];
    }

    /**
      Removes the entries whose names match, while walking along the buckets they are removed from: every
      match goes, nothing else does.
     */
    method DeleteVariables(pattern: CString, fold: char -> char)
      requires Valid() && FindMatch.Folds(fold)
      modifies this`count, this`chains, this`entries, data, entries.Values`nextEntry
      ensures Valid()
      ensures entries == map n | n in old(entries) && !FindMatch.Glob(pattern, n, false, fold) :: old(entries)[n]
    {
      hide FindMatch.Folds, Bucketed, Holding, Linked, Distinct, NoMatch;
      var i := 0;
      while i < size
        invariant i <= size && Valid() && entries.Values <= old(entries.Values)
        invariant Kept(old(entries), entries, pattern, fold)
        invariant forall b :: 0 <= b < i ==> NoMatch(chains[b], pattern, fold)
      {
        SweepBucket(i, pattern, fold, old(entries));
        i := i + 1;
      }
      NoneLeft(chains, hash, entries, pattern, fold);
    }

    lemma SizePositive()
      requires Chained()
      ensures size > 0
    {
    }
  }

  /** Only entries whose names match are gone. */
  ghost predicate Kept(before: map<CString, Entry>, entries: map<CString, Entry>, pattern: CString,
      fold: char -> char) {
    && (forall n :: n in entries ==> n in before && entries[n] == before[n])
    && (forall n :: n in before && n !in entries ==> FindMatch.Glob(pattern, n, false, fold))
  }

  ghost predicate NoMatch(c: seq<Entry>, pattern: CString, fold: char -> char) {
    forall e :: e in c ==> !FindMatch.Glob(pattern, e.name, false, fold)
  }

  lemma OneLessKept(before: map<CString, Entry>, entries: map<CString, Entry>, name: CString, pattern: CString,
      fold: char -> char)
    requires Kept(before, entries, pattern, fold) && FindMatch.Glob(pattern, name, false, fold)
    ensures Kept(before, entries - {name}, pattern, fold) && (entries - {name}).Values <= entries.Values
  {
  }

  lemma OneMoreKept(c: seq<Entry>, k: nat, pattern: CString, fold: char -> char)
    requires k < |c| && NoMatch(c[..k], pattern, fold) && !FindMatch.Glob(pattern, c[k].name, false, fold)
    ensures NoMatch(c[..k + 1], pattern, fold)
  {
    assert c[..k + 1] == c[..k] + [c[k]];
  }

  lemma SamePlace(c: seq<Entry>, j: nat, k: nat)
    requires Distinct(c) && j < |c| && k < |c| && c[j] == c[k]
    ensures j == k
  {
  }

  /** When no bucket holds a match, none is left. */
  lemma NoneLeft(chains: seq<seq<Entry>>, hash: CString -> nat, entries: map<CString, Entry>, pattern: CString,
      fold: char -> char)
    requires Holding(chains, hash, entries) && forall b :: 0 <= b < |chains| ==> NoMatch(chains[b], pattern, fold)
    ensures forall n :: n in entries ==> !FindMatch.Glob(pattern, n, false, fold)
  {
    forall n | n in entries ensures !FindMatch.Glob(pattern, n, false, fold) {
      assert entries[n] in chains[hash(n) % |chains|];
    }
  }

  lemma Taken(chains: seq<seq<Entry>>, hash: CString -> nat, entries: map<CString, Entry>, ent: Entry)
    requires Holding(chains, hash, entries) && ent.name in entries && entries[ent.name] == ent
    ensures ent in chains[hash(ent.name) % |chains|]
  {
  }

  lemma NotFirst(walk: Entry?, c: seq<Entry>, k: nat, ent: Entry)
    requires k <= |c| && Linked(walk, c[k..]) && ent in c[k..] && walk != ent
    ensures walk != null && k < |c| && walk == c[k] && Linked(walk.nextEntry, c[k + 1..]) && ent in c[k + 1..]
  {
  }

  lemma HeadOf(head: Entry?, c: seq<Entry>)
    requires Linked(head, c) && c != []
    ensures head == c[0]
  {
  }

  lemma OneLess(m: map<CString, Entry>, n: CString)
    requires n in m
    ensures |m - {n}| == |m| - 1
  {
  }

  /** The buckets without one entry. */
  lemma TakenOut(chains: seq<seq<Entry>>, hash: CString -> nat, entries: map<CString, Entry>, ent: Entry, k: nat)
    requires Bucketed(chains, hash) && Holding(chains, hash, entries)
    requires ent.name in entries && entries[ent.name] == ent
    requires var c := chains[hash(ent.name) % |chains|]; k < |c| && c[k] == ent
    ensures var b := hash(ent.name) % |chains|;
      var c := chains[b];
      var d := chains[b := c[..k] + c[k + 1..]];
      && c == c[..k] + [ent] + c[k + 1..] && Distinct(c[..k] + [ent] + c[k + 1..])
      && Bucketed(d, hash) && Holding(d, hash, entries - {ent.name})
      && forall e, o :: e in c && 0 <= o < |chains| && o != b ==> e !in chains[o]
  {
    hide Distinct;
    var c := chains[hash(ent.name) % |chains|];
    BucketDistinct(chains, hash, hash(ent.name) % |chains|);
    Without(c, k);
    hide Bucketed, Holding;
    TakenBucket(chains, hash, entries, ent, c[..k] + c[k + 1..]);
    Elsewhere(chains, hash, hash(ent.name) % |chains|);
  }

  lemma BucketDistinct(chains: seq<seq<Entry>>, hash: CString -> nat, b: nat)
    requires Bucketed(chains, hash) && b < |chains|
    ensures Distinct(chains[b])
  {
  }

  lemma Elsewhere(chains: seq<seq<Entry>>, hash: CString -> nat, b: nat)
    requires Bucketed(chains, hash) && b < |chains|
    ensures forall e, o :: e in chains[b] && 0 <= o < |chains| && o != b ==> e !in chains[o]
  {
    forall e: Entry, o | e in chains[b] && 0 <= o < |chains| && o != b ensures e !in chains[o] {
      assert hash(e.name) % |chains| == b;
    }
  }

  lemma TakenBucket(chains: seq<seq<Entry>>, hash: CString -> nat, entries: map<CString, Entry>, ent: Entry,
      r: seq<Entry>)
    requires Bucketed(chains, hash) && Holding(chains, hash, entries)
    requires ent.name in entries && entries[ent.name] == ent && Distinct(r)
    requires forall e :: e in r <==> e in chains[hash(ent.name) % |chains|] && e != ent
    ensures var d := chains[hash(ent.name) % |chains| := r];
      Bucketed(d, hash) && Holding(d, hash, entries - {ent.name})
  {
    hide Distinct;
    var b := hash(ent.name) % |chains|;
    var d := chains[b := r];
    forall o, e | 0 <= o < |d| && e in d[o] ensures e in chains[o] && e != ent {
    }
    forall o, e: Entry | 0 <= o < |d| && e in d[o] ensures e.name != ent.name {
      assert e in chains[o];
    }
  }

  lemma Without(c: seq<Entry>, k: nat)
    requires k < |c|
    ensures c == c[..k] + [c[k]] + c[k + 1..]
    ensures Distinct(c) ==> Distinct(c[..k] + c[k + 1..])
    ensures forall e :: e in c[..k] + c[k + 1..] ==> e in c && (Distinct(c) ==> e != c[k])
    ensures forall e :: e in c && e != c[k] ==> e in c[..k] + c[k + 1..]
  {
  }

  lemma AllDistinct(chains: seq<seq<Entry>>, hash: CString -> nat)
    requires Bucketed(chains, hash)
    ensures Distinct(Flat(chains)) && |chains| > 0
  {
    FlatDistinct(chains, hash, |chains|);
    assert chains[..|chains|] == chains;
  }

  lemma InTheMap(chains: seq<seq<Entry>>, hash: CString -> nat, entries: map<CString, Entry>)
    requires Holding(chains, hash, entries)
    ensures forall b, e :: 0 <= b < |chains| && e in chains[b] ==> e in entries.Values
  {
    forall b, e | 0 <= b < |chains| && e in chains[b] ensures e in entries.Values {
      assert e.name in entries && entries[e.name] == e;
    }
  }

  lemma BucketsExist(chains: seq<seq<Entry>>, hash: CString -> nat, entries: map<CString, Entry>)
    requires Holding(chains, hash, entries)
    ensures |chains| > 0
  {
  }

  lemma NoneDealt(chains: seq<seq<Entry>>, hash: CString -> nat, l: seq<Entry>)
    requires chains != [] && forall b :: 0 <= b < |chains| ==> chains[b] == []
    ensures Dealt(chains, hash, l, 0)
  {
  }

  lemma NoneLinked()
    ensures Linked(null, [])
  {
  }

  lemma FirstOf(walk: Entry, l: seq<Entry>, k: nat)
    requires k <= |l| && Linked(walk, l[k..])
    ensures k < |l| && walk == l[k] && Linked(walk.nextEntry, l[k + 1..])
  {
  }

  lemma InList(walk: Entry, l: seq<Entry>, k: nat)
    requires k <= |l| && Linked(walk, l[k..])
    ensures walk in l
  {
  }

  lemma NoMore(l: seq<Entry>, k: nat)
    requires k <= |l| && Linked(null, l[k..])
    ensures k == |l|
  {
  }

  /** The next entry to be dealt is in no bucket yet and not further down the list. */
  lemma NextIsApart(chains: seq<seq<Entry>>, hash: CString -> nat, l: seq<Entry>, k: nat)
    requires k < |l| && Distinct(l) && Dealt(chains, hash, l, k)
    ensures forall b :: 0 <= b < |chains| ==> l[k] !in chains[b]
    ensures l[k] !in l[k + 1..] && l[k] in l
  {
    forall b | 0 <= b < |chains| ensures l[k] !in chains[b] {
      if l[k] in chains[b] {
        NotDealtYet(l, k, l[k]);
      }
    }
  }

  lemma FlatInMap(chains: seq<seq<Entry>>, hash: CString -> nat, entries: map<CString, Entry>)
    requires Holding(chains, hash, entries)
    ensures forall e :: e in Flat(chains) ==> e in entries.Values
  {
    assert chains[..|chains|] == chains;
    forall e | e in Flat(chains) ensures e in entries.Values {
      FlatMembers(chains, |chains|, e);
      assert e.name in entries && entries[e.name] == e;
    }
  }

  lemma DealtBucketed(chains: seq<seq<Entry>>, hash: CString -> nat, l: seq<Entry>)
    requires Dealt(chains, hash, l, |l|)
    ensures Bucketed(chains, hash)
  {
  }

  lemma AddedBucket(chains: seq<seq<Entry>>, hash: CString -> nat, entries: map<CString, Entry>, r: Entry)
    requires Bucketed(chains, hash) && Holding(chains, hash, entries) && r.name !in entries
    ensures var b := hash(r.name) % |chains|;
      var d := chains[b := [r] + chains[b]];
      && Bucketed(d, hash) && Holding(d, hash, entries[r.name := r])
      && forall c :: 0 <= c < |chains| ==> r !in chains[c]
  {
    hide Distinct;
    var b := hash(r.name) % |chains|;
    DistinctInFront(r, chains[b]);
  }

  /** Lets whatever leads to `ent`, its bucket or the entry before it, lead past it. */
  method Bypass(data: array<Entry?>, idx: nat, prev: Entry?, ent: Entry, ghost c: seq<Entry>, ghost k: nat)
    requires idx < data.Length && Linked(data[idx], c) && k < |c| && c[k] == ent
    requires c == c[..k] + [ent] + c[k + 1..] && Distinct(c[..k] + [ent] + c[k + 1..])
    requires prev == (if k == 0 then null else c[k - 1]) && Linked(ent.nextEntry, c[k + 1..])
    modifies data, (if prev == null then {} else {prev})`nextEntry
    ensures Linked(data[idx], c[..k] + c[k + 1..])
    ensures forall b :: 0 <= b < data.Length && b != idx ==> data[b] == old(data[b])
  {
    hide Linked, Distinct;
    HeadOf(data[idx], c);
    if prev == null {
      assert c[..k] + c[k + 1..] == c[k + 1..];
      data[idx] := ent.nextEntry;
    } else {
      Unlink(prev, ent, c[..k], c[k + 1..]);
    }
  }

  /** The entry before `ent` on a chain that has it. */
  method Before(first: Entry?, ent: Entry, ghost c: seq<Entry>) returns (prev: Entry?, ghost k: nat)
    requires Linked(first, c) && ent in c
    ensures k < |c| && c[k] == ent && prev == if k == 0 then null else c[k - 1]
    ensures ent.nextEntry == At(c, k + 1) && Linked(ent.nextEntry, c[k + 1..])
  {
    hide Linked;
    prev := null;
    k := 0;
    var walk := first;
    assert c[0..] == c;
    while walk != ent
      invariant k <= |c| && Linked(walk, c[k..]) && ent in c[k..]
      invariant prev == if k == 0 then null else c[k - 1]
      decreases |c| - k
    {
      NotFirst(walk, c, k, ent);
      prev := walk;
      walk := walk.nextEntry;
      k := k + 1;
    }
    FirstOf(walk, c, k);
    HeadIs(ent.nextEntry, c, k + 1);
  }

  lemma HeadIs(head: Entry?, c: seq<Entry>, k: nat)
    requires k <= |c| && Linked(head, c[k..])
    ensures head == At(c, k)
  {
  }

  method LastOf(e: Entry, ghost c: seq<Entry>, ghost w: nat) returns (last: Entry)
    requires w < |c| && c[w] == e && Linked(c[0], c)
    ensures last == c[|c| - 1]
  {
    last := e;
    ghost var k := w;
    while last.nextEntry != null
      invariant k < |c| && c[k] == last
      decreases |c| - k
    {
      last := last.nextEntry;
      k := k + 1;
    }
  }

  lemma OneLinked(e: Entry)
    requires e.nextEntry == null
    ensures Linked(e, [e])
  {
  }

  lemma NothingFlat(chains: seq<seq<Entry>>)
    ensures Flat(chains[..0]) == []
  {
  }

  lemma FlatMore(chains: seq<seq<Entry>>, i: nat)
    requires i < |chains|
    ensures Flat(chains[..i + 1]) == Flat(chains[..i]) + chains[i]
  {
    assert chains[..i + 1][..i] == chains[..i];
  }
}
