/** Open addressing: the table a namespace caches its resolutions in. */
module HashTables {
  import opened Values
  import opened Namespaces
  import opened Resolution

  type Table = seq<Option<nat>>

  /** HashPointer of a function name. */
  type Hash = CString -> nat

  /** The slot `j` steps after the one a hash value starts at, at most once around. */
  function Slot(h: nat, j: nat, size: nat): (k: nat)
    requires 0 < size && j <= size
    ensures k < size
  {
    var start := h % size;
    if start + j >= size then start + j - size else start + j
  }

  /** Every slot is reached from every start, within one round. */
  lemma SlotReached(h: nat, k: nat, size: nat) returns (j: nat)
    requires k < size
    ensures j < size && Slot(h, j, size) == k
  {
    var start := h % size;
    j := if k >= start then k - start else k + size - start;
  }

  predicate Sane(entries: seq<Entry>, tab: Table) {
    |tab| > 0 && forall k :: 0 <= k < |tab| && tab[k].Some? ==> tab[k].value < |entries|
  }

  /** Probing for `f` goes past its first `j` slots: other names are there. */
  ghost predicate Passes(entries: seq<Entry>, tab: Table, h: Hash, f: CString, j: nat)
    requires Sane(entries, tab) && j <= |tab|
  {
    forall i: nat :: i < j ==>
      var o := tab[Slot(h(f), i, |tab|)]; o.Some? && entries[o.value].name != f
  }

  /** Probing for `f` does not go past slot `j` of its round. */
  predicate Stops(entries: seq<Entry>, tab: Table, h: Hash, f: CString, j: nat)
    requires Sane(entries, tab)
  {
    j < |tab| && var o := tab[Slot(h(f), j, |tab|)]; o.None? || entries[o.value].name == f
  }

  /** Probing for `f` ends at `r`: a slot with that name, or an empty one. */
  ghost predicate Probes(entries: seq<Entry>, tab: Table, h: Hash, f: CString, r: Option<nat>)
    requires Sane(entries, tab)
  {
    exists j: nat :: j < |tab| && Passes(entries, tab, h, f, j) && tab[Slot(h(f), j, |tab|)] == r
      && (r.Some? ==> entries[r.value].name == f)
  }

  /** The table answers every name as the list does. */
  ghost predicate Serves(entries: seq<Entry>, tab: Table, h: Hash, list: seq<nat>) {
    Sane(entries, tab) && forall f: CString :: Probes(entries, tab, h, f, Named(entries, list, f))
  }

  // ----- filling -----

  function Used(tab: Table): set<nat> {
    set k: nat | k < |tab| && tab[k].Some?
  }

  /** The entries of a list that are the first of their name. */
  ghost function Firsts(entries: seq<Entry>, list: seq<nat>): set<nat> {
    set e | e in list && e < |entries| && Named(entries, list, entries[e].name) == Some(e)
  }

  /** The table holds exactly the first entries on `done`, each where probing finds it. */
  ghost predicate Filled(entries: seq<Entry>, tab: Table, h: Hash, done: seq<nat>) {
    && Sane(entries, tab)
    && (forall k: nat :: k < |tab| && tab[k].Some? ==> Named(entries, done, entries[tab[k].value].name) == tab[k])
    && (forall f: CString :: Named(entries, done, f).Some? ==> Probes(entries, tab, h, f, Named(entries, done, f)))
    && |Used(tab)| <= |Firsts(entries, done)|
  }

  lemma {:induction false} AllUsed(tab: Table, n: nat)
    requires n <= |tab| && forall k :: 0 <= k < n ==> tab[k].Some?
    ensures |Used(tab)| >= n
    decreases n
  {
    if n > 0 {
      AllUsed(tab[n - 1 := None], n - 1);
      assert Used(tab) == Used(tab[n - 1 := None]) + {n - 1};
    }
  }

  /** With fewer entries than slots one slot is free, so probing for any name ends. */
  lemma ProbingEnds(entries: seq<Entry>, tab: Table, h: Hash, f: CString) returns (j: nat)
    requires Sane(entries, tab) && |Used(tab)| < |tab|
    ensures j < |tab| && tab[Slot(h(f), j, |tab|)].None?
  {
    if forall k :: 0 <= k < |tab| ==> tab[k].Some? {
      AllUsed(tab, |tab|);
    }
    var k :| 0 <= k < |tab| && tab[k].None?;
    j := SlotReached(h(f), k, |tab|);
  }

  lemma {:induction false} FirstStop(entries: seq<Entry>, tab: Table, h: Hash, f: CString, j: nat, end: nat)
      returns (i: nat)
    requires Sane(entries, tab) && j <= end < |tab| && tab[Slot(h(f), end, |tab|)].None?
    requires Passes(entries, tab, h, f, j)
    ensures i < |tab| && Passes(entries, tab, h, f, i)
    ensures var o := tab[Slot(h(f), i, |tab|)]; o.None? || entries[o.value].name == f
    decreases end - j
  {
    var o := tab[Slot(h(f), j, |tab|)];
    if o.None? || entries[o.value].name == f {
      i := j;
    } else {
      i := FirstStop(entries, tab, h, f, j + 1, end);
    }
  }

  /** A filled table with a free slot answers every name as the list does. */
  lemma FilledServes(entries: seq<Entry>, tab: Table, h: Hash, list: seq<nat>)
    requires Filled(entries, tab, h, list) && |Used(tab)| < |tab|
    requires forall e :: e in list ==> e < |entries|
    ensures Serves(entries, tab, h, list)
  {
    forall f: CString ensures Probes(entries, tab, h, f, Named(entries, list, f)) {
      if Named(entries, list, f).None? {
        assert forall k: nat :: k < |tab| && tab[k].Some? ==> entries[tab[k].value].name != f;
        var end := ProbingEnds(entries, tab, h, f);
        var i := FirstStop(entries, tab, h, f, 0, end);
      }
    }
  }

  /** Where probing stops is the only thing it can find. */
  lemma ProbesOnce(entries: seq<Entry>, tab: Table, h: Hash, f: CString, j: nat, r: Option<nat>)
    requires Sane(entries, tab) && j < |tab| && Passes(entries, tab, h, f, j) && Probes(entries, tab, h, f, r)
    requires var o := tab[Slot(h(f), j, |tab|)]; o.None? || entries[o.value].name == f
    ensures tab[Slot(h(f), j, |tab|)] == r
  {
  }

  // ----- one more entry -----

  lemma NamedMore(entries: seq<Entry>, done: seq<nat>, e: nat, f: CString)
    requires e < |entries|
    ensures Named(entries, done + [e], f) == Or(Named(entries, done, f), if entries[e].name == f then Some(e) else None)
  {
    NamedSplit(entries, done, [e], f);
    assert [e][1..] == [];
  }

  lemma FirstsGrow(entries: seq<Entry>, done: seq<nat>, more: seq<nat>)
    ensures Firsts(entries, done) <= Firsts(entries, done + more)
    ensures |Firsts(entries, done)| <= |Firsts(entries, done + more)|
  {
    forall e | e in Firsts(entries, done) ensures e in Firsts(entries, done + more) {
      NamedSplit(entries, done, more, entries[e].name);
      assert e in done + more;
    }
    SubsetSize(Firsts(entries, done), Firsts(entries, done + more));
  }

  lemma {:induction false} SubsetSize(a: set<nat>, b: set<nat>)
    requires a <= b
    ensures |a| <= |b|
  {
    if a != {} {
      var x :| x in a;
      SubsetSize(a - {x}, b - {x});
    }
  }

  /** Its name is there already: the table stays. */
  lemma FillSkips(entries: seq<Entry>, tab: Table, h: Hash, done: seq<nat>, e: nat, k: nat)
    requires Filled(entries, tab, h, done) && e < |entries|
    requires k < |tab| && tab[k].Some? && entries[tab[k].value].name == entries[e].name
    ensures Filled(entries, tab, h, done + [e])
  {
    assert Named(entries, done, entries[e].name) == tab[k];
    forall f: CString ensures Named(entries, done + [e], f) == Named(entries, done, f) {
      NamedMore(entries, done, e, f);
    }
    FirstsGrow(entries, done, [e]);
  }

  /** Filling a free slot is no matter to probes that end at a used one. */
  lemma StillProbes(entries: seq<Entry>, tab: Table, h: Hash, f: CString, r: Option<nat>, k: nat, e: nat)
    requires Sane(entries, tab) && k < |tab| && tab[k].None? && e < |entries|
    requires r.Some? && Probes(entries, tab, h, f, r)
    ensures Probes(entries, tab[k := Some(e)], h, f, r)
  {
    var j: nat :| j < |tab| && Passes(entries, tab, h, f, j) && tab[Slot(h(f), j, |tab|)] == r
      && (r.Some? ==> entries[r.value].name == f);
    StillPasses(entries, tab, h, f, j, k, e);
  }

  lemma StillPasses(entries: seq<Entry>, tab: Table, h: Hash, f: CString, j: nat, k: nat, e: nat)
    requires Sane(entries, tab) && k < |tab| && tab[k].None? && e < |entries|
    requires j <= |tab| && Passes(entries, tab, h, f, j)
    ensures Passes(entries, tab[k := Some(e)], h, f, j)
  {
  }

  /** Its name is new: it goes into the free slot its probing ended at. */
  lemma FillPuts(entries: seq<Entry>, tab: Table, h: Hash, done: seq<nat>, e: nat, j: nat)
    requires Filled(entries, tab, h, done) && e < |entries|
    requires j < |tab| && Passes(entries, tab, h, entries[e].name, j)
    requires tab[Slot(h(entries[e].name), j, |tab|)].None?
    ensures Filled(entries, tab[Slot(h(entries[e].name), j, |tab|) := Some(e)], h, done + [e])
  {
    hide Slot, Passes, Probes, Named, Firsts;
    var name := entries[e].name;
    var k := Slot(h(name), j, |tab|);
    var t := tab[k := Some(e)];
    NotThere(entries, tab, h, done, name, j);
    forall f: CString ensures Named(entries, done + [e], f).Some? ==>
      Probes(entries, t, h, f, Named(entries, done + [e], f))
    {
      NamedMore(entries, done, e, f);
      if Named(entries, done, f).Some? {
        StillProbes(entries, tab, h, f, Named(entries, done, f), k, e);
      } else if f == name {
        StillPasses(entries, tab, h, name, j, k, e);
        ProbesAt(entries, t, h, name, j);
      }
    }
    forall i: nat | i < |t| && t[i].Some? ensures Named(entries, done + [e], entries[t[i].value].name) == t[i] {
      NamedMore(entries, done, e, entries[t[i].value].name);
    }
    OneMoreFirst(entries, done, e);
    assert Used(t) == Used(tab) + {k};
  }

  lemma ProbesAt(entries: seq<Entry>, tab: Table, h: Hash, f: CString, j: nat)
    requires Sane(entries, tab) && j < |tab| && Passes(entries, tab, h, f, j)
    ensures var r := tab[Slot(h(f), j, |tab|)];
      (r.Some? ==> entries[r.value].name == f) ==> Probes(entries, tab, h, f, r)
  {
  }

  lemma OneMoreFirst(entries: seq<Entry>, done: seq<nat>, e: nat)
    requires e < |entries| && Named(entries, done, entries[e].name).None?
    ensures |Firsts(entries, done + [e])| >= |Firsts(entries, done)| + 1
  {
    FirstsGrow(entries, done, [e]);
    NamedMore(entries, done, e, entries[e].name);
    assert e in done + [e];
    SubsetSize(Firsts(entries, done) + {e}, Firsts(entries, done + [e]));
  }

  /** A name whose probing ends at a free slot is not on the list. */
  lemma NotThere(entries: seq<Entry>, tab: Table, h: Hash, done: seq<nat>, f: CString, j: nat)
    requires Filled(entries, tab, h, done) && j < |tab| && Passes(entries, tab, h, f, j)
    requires tab[Slot(h(f), j, |tab|)].None?
    ensures Named(entries, done, f).None?
  {
    var r := Named(entries, done, f);
    assert r.Some? ==> Probes(entries, tab, h, f, r);
    if Probes(entries, tab, h, f, r) {
      ProbesOnce(entries, tab, h, f, j, r);
    }
  }

  lemma NothingFilled(entries: seq<Entry>, tab: Table, h: Hash)
    requires |tab| > 0 && forall k :: 0 <= k < |tab| ==> tab[k].None?
    ensures Filled(entries, tab, h, [])
  {
  }

  // ----- linking behind a table's back -----

  /**
    A table built for a list `a` goes on being read after the list became `a + b`. It answers as the
    longer list does exactly when `b` brings no new name.
   */
  lemma StaleServes(entries: seq<Entry>, tab: Table, h: Hash, a: seq<nat>, b: seq<nat>)
    requires Serves(entries, tab, h, a)
    ensures Serves(entries, tab, h, a + b) <==>
      forall e :: e in b && e < |entries| ==> Named(entries, a, entries[e].name).Some?
  {
    forall f: CString ensures Named(entries, a + b, f) == Or(Named(entries, a, f), Named(entries, b, f)) {
      NamedSplit(entries, a, b, f);
    }
    if Serves(entries, tab, h, a + b) {
      forall e | e in b && e < |entries| ensures Named(entries, a, entries[e].name).Some? {
        var f := entries[e].name;
        var r := Named(entries, a + b, f);
        assert Probes(entries, tab, h, f, r) && Probes(entries, tab, h, f, Named(entries, a, f));
        var j: nat :| j < |tab| && Passes(entries, tab, h, f, j) && tab[Slot(h(f), j, |tab|)] == r
          && (r.Some? ==> entries[r.value].name == f);
        ProbesOnce(entries, tab, h, f, j, Named(entries, a, f));
      }
    }
  }
}
