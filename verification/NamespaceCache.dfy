/** When the lookup tables of the namespaces are good, and what keeps them so. */
module NamespaceCache {
  import opened Values
  import opened Namespaces
  import opened Chains
  import opened Resolution
  import opened PackageSteps
  import opened Declarations
  import opened PackageRounds
  import opened HashTables

  /** A namespace's hash table: when it was built, where it lies in the cache's memory, its size. */
  datatype Cache = Cache(sequence: nat, table: nat, size: nat)

  const NEVER_BUILT := Cache(0, 0, 0)

  /** A table that is up to date is still allocated and answers as the walk up the chain does. */
  ghost predicate Serving(w: World, x: nat, c: Cache, now: nat, blocks: seq<Table>, h: Hash) {
    && c.sequence <= now
    && (c.sequence == now && now > 0 ==>
          && c.table < |blocks| && c.size == |blocks[c.table]|
          && forall chain :: Chain(w, chain) && chain[0] == x ==> Serves(w.entries, blocks[c.table], h, Flat(w, chain)))
    && (now == 0 ==> c.size == 0)
  }

  ghost predicate CacheOk(w: World, caches: seq<Cache>, now: nat, blocks: seq<Table>, h: Hash) {
    && |caches| == |w.spaces|
    && (forall x :: 0 <= x < |caches| ==> Serving(w, x, caches[x], now, blocks, h))
    && (now == 0 ==> w.entries == [])
  }

  ghost predicate NoneCurrent(caches: seq<Cache>, now: nat) {
    forall x :: 0 <= x < |caches| ==> caches[x].sequence < now
  }

  lemma NoneCurrentOk(w: World, caches: seq<Cache>, now: nat, blocks: seq<Table>, h: Hash)
    requires |caches| == |w.spaces| && NoneCurrent(caches, now) && now > 0
    ensures CacheOk(w, caches, now, blocks, h)
  {
  }

  /** A new namespace lies on no old chain. */
  lemma FoundCacheOk(w: World, caches: seq<Cache>, now: nat, blocks: seq<Table>, h: Hash, name: Name, package: Name)
    requires Wf(w) && CacheOk(w, caches, now, blocks, h) && Lookup(w, name, package).None?
    ensures CacheOk(Found(w, name, package), caches + [NEVER_BUILT], now, blocks, h)
  {
    var f := Found(w, name, package);
    forall x | 0 <= x < |caches| ensures Serving(f, x, caches[x], now, blocks, h) {
      assert Serving(w, x, caches[x], now, blocks, h);
      forall chain | Chain(f, chain) && chain[0] == x
        ensures Chain(w, chain) && Flat(f, chain) == Flat(w, chain)
      {
        OldChain(w, f, chain);
      }
    }
  }

  lemma {:induction false} OldChain(w: World, f: World, chain: seq<nat>)
    requires Wf(w) && |w.spaces| <= |f.spaces| && f.spaces[..|w.spaces|] == w.spaces
    requires Chain(f, chain) && chain[0] < |w.spaces|
    ensures Chain(w, chain) && Flat(f, chain) == Flat(w, chain)
    decreases |chain|
  {
    assert w.spaces[chain[0]] == f.spaces[..|w.spaces|][chain[0]] == f.spaces[chain[0]];
    if |chain| > 1 {
      assert f.spaces[chain[0]].parent == Some(chain[1]);
      assert Chain(f, chain[1..]);
      OldChain(w, f, chain[1..]);
      assert forall i :: 1 <= i < |chain| ==> chain[i] == chain[1..][i - 1];
    }
  }

  lemma SequencesBound(w: World, caches: seq<Cache>, now: nat, blocks: seq<Table>, h: Hash)
    requires CacheOk(w, caches, now, blocks, h)
    ensures |caches| == |w.spaces| && forall x :: 0 <= x < |caches| ==> caches[x].sequence <= now
  {
  }

  lemma FindKeeps(base: World, ps: seq<CString>, name: Name, package: Name, caches: seq<Cache>, now: nat,
      blocks: seq<Table>, h: Hash)
    requires IsBase(base) && Ready(base, ps) && (package.None? || ps == [])
    requires CacheOk(Stacked(base, ps), caches, now, blocks, h)
    ensures var f := Found(base, name, package);
      && IsBase(f) && Ready(f, ps) && Found(Stacked(base, ps), name, package) == Stacked(f, ps)
      && Lookup(Stacked(f, ps), name, package) == Lookup(f, name, package)
      && CacheOk(Stacked(f, ps), if |f.spaces| > |base.spaces| then caches + [NEVER_BUILT] else caches, now, blocks, h)
  {
    hide CacheOk, Stacked, IndexOf;
    var f, s := Found(base, name, package), Stacked(base, ps);
    FoundWf(base, name, package);
    FoundReady(base, ps, name, package);
    StackedWf(base, ps);
    if ps == [] {
      StackedNone(base);
      StackedNone(f);
    } else {
      FoundStacked(base, ps, name);
    }
    PartnersSame(s, base, "", 0);
    PartnersSame(Stacked(f, ps), f, "", 0);
    if Lookup(base, name, package).None? {
      FoundCacheOk(s, caches, now, blocks, h, name, package);
    }
  }

  lemma {:induction false} FlatInside(w: World, chain: seq<nat>)
    requires Wf(w)
    ensures forall e: nat :: e in Flat(w, chain) ==> e < |w.entries|
  {
    hide Wf;
    if chain != [] {
      FlatInside(w, chain[1..]);
      if chain[0] < |w.spaces| {
        ListInside(w, chain[0]);
      }
    }
  }

  lemma FirstsListed(entries: seq<Entry>, list: seq<nat>)
    ensures forall e :: e in Firsts(entries, list) ==> e in list
  {
  }

  lemma FilledSane(entries: seq<Entry>, tab: Table, h: Hash, done: seq<nat>)
    requires Filled(entries, tab, h, done)
    ensures Sane(entries, tab) && |Used(tab)| <= |Firsts(entries, done)|
  {
  }

  lemma FlatAt(w: World, chain: seq<nat>, i: nat)
    requires i < |chain| && chain[i] < |w.spaces|
    ensures Flat(w, chain[..i + 1]) == Flat(w, chain[..i]) + w.spaces[chain[i]].entries
    ensures Flat(w, chain) == Flat(w, chain[..i]) + w.spaces[chain[i]].entries + Flat(w, chain[i + 1..])
  {
    assert chain[..i + 1] == chain[..i] + [chain[i]];
    FlatSplit(w, chain[..i], [chain[i]]);
    assert Flat(w, [chain[i]]) == w.spaces[chain[i]].entries + Flat(w, [chain[i]][1..]);
    assert chain == chain[..i + 1] + chain[i + 1..];
    FlatSplit(w, chain[..i + 1], chain[i + 1..]);
  }

  lemma ParentChain(w: World, chain: seq<nat>)
    requires Chain(w, chain) && w.spaces[chain[0]].parent.Some?
    ensures |chain| > 1 && Chain(w, chain[1..]) && w.spaces[chain[0]].parent == Some(chain[1])
  {
  }

  /** A namespace without entries of its own may use its parent's table. */
  lemma SharedOk(w: World, caches: seq<Cache>, now: nat, blocks: seq<Table>, h: Hash, x: nat, up: nat, chain: seq<nat>)
    requires CacheOk(w, caches, now, blocks, h) && Chain(w, chain) && chain[0] == x
    requires up < |caches| && w.spaces[x].parent == Some(up) && w.spaces[x].entries == [] && caches[up].sequence == now
    ensures CacheOk(w, caches[x := Cache(now, caches[up].table, caches[up].size)], now, blocks, h)
  {
    hide Serves;
    assert Serving(w, up, caches[up], now, blocks, h);
    var c := Cache(now, caches[up].table, caches[up].size);
    forall other | Chain(w, other) && other[0] == x && now > 0
      ensures Serves(w.entries, blocks[c.table], h, Flat(w, other))
    {
      ParentChain(w, other);
      assert Chain(w, other[1..]) && other[1..][0] == up;
      assert Flat(w, other) == [] + Flat(w, other[1..]) == Flat(w, other[1..]);
    }
    assert Serving(w, x, c, now, blocks, h);
    forall y | 0 <= y < |caches| && y != x ensures Serving(w, y, caches[y], now, blocks, h) {
    }
  }

  lemma BuiltOk(w: World, caches: seq<Cache>, now: nat, blocks: seq<Table>, h: Hash, x: nat, tab: Table,
      chain: seq<nat>)
    requires CacheOk(w, caches, now, blocks, h) && Chain(w, chain) && chain[0] == x && x < |caches|
    requires caches[x].sequence < now && Serves(w.entries, tab, h, Flat(w, chain))
    ensures CacheOk(w, caches[x := Cache(now, |blocks|, |tab|)], now, blocks + [tab], h)
  {
    hide Serves;
    forall other | Chain(w, other) && other[0] == x ensures other == chain {
      ChainsAgree(w, other, chain);
    }
    assert Serving(w, x, Cache(now, |blocks|, |tab|), now, blocks + [tab], h);
    forall y | 0 <= y < |caches| && y != x ensures Serving(w, y, caches[y], now, blocks + [tab], h) {
      assert Serving(w, y, caches[y], now, blocks, h);
    }
  }

  /** What an up-to-date cache record is good for. */
  lemma CurrentServes(w: World, caches: seq<Cache>, now: nat, blocks: seq<Table>, h: Hash, x: nat, chain: seq<nat>,
      f: CString)
    requires Wf(w) && CacheOk(w, caches, now, blocks, h) && Chain(w, chain) && chain[0] == x
    requires caches[x].sequence == now
    ensures caches[x].size == 0 ==> Named(w.entries, Flat(w, chain), f).None?
    ensures caches[x].size > 0 ==>
      && caches[x].table < |blocks|
      && var tab := blocks[caches[x].table];
      && Sane(w.entries, tab) && Probes(w.entries, tab, h, f, Named(w.entries, Flat(w, chain), f))
      && exists j: nat :: Stops(w.entries, tab, h, f, j)
  {
    hide Named, Flat, Wf;
    assert Serving(w, x, caches[x], now, blocks, h);
    if now == 0 {
      assert w.entries == [];
      NamedBound(w.entries, Flat(w, chain), f);
    } else {
      var tab := blocks[caches[x].table];
      assert Serves(w.entries, tab, h, Flat(w, chain));
      var r := Named(w.entries, Flat(w, chain), f);
      assert Probes(w.entries, tab, h, f, r);
      var j: nat :| j < |tab| && Passes(w.entries, tab, h, f, j) && tab[Slot(h(f), j, |tab|)] == r
        && (r.Some? ==> w.entries[r.value].name == f);
      assert Stops(w.entries, tab, h, f, j);
    }
  }

  lemma NamedBound(entries: seq<Entry>, list: seq<nat>, f: CString)
    ensures Named(entries, list, f).Some? ==> Named(entries, list, f).value < |entries|
  {
  }

  /**
    Linking a class to a parent leaves the class's table current. What it then answers is right for the
    longer chain exactly when every function of the new ancestors has a namesake on the class itself.
   */
  lemma LinkedBehindCache(w: World, x: nat, up: seq<nat>, tab: Table, h: Hash)
    requires Wf(w) && Chain(w, [x]) && Chain(w, up) && x !in up && Serves(w.entries, tab, h, Flat(w, [x]))
    ensures var l := Linked(w, x, up[0]);
      && Chain(l, [x] + up)
      && (Serves(l.entries, tab, h, Flat(l, [x] + up)) <==>
            forall e :: e in Flat(w, up)
                ==> e < |w.entries| && Named(w.entries, w.spaces[x].entries, w.entries[e].name).Some?)
  {
    hide Serves, Named, Wf;
    var l := Linked(w, x, up[0]);
    var c := [x] + up;
    assert forall i :: 1 <= i < |c| ==> c[i] == up[i - 1] && c[i] != x;
    assert Chain(l, c);
    assert Flat(w, [x]) == w.spaces[x].entries + Flat(w, [x][1..]) == w.spaces[x].entries;
    assert c[1..] == up;
    FlatSame(l, w, up);
    FlatInside(w, up);
    StaleServes(w.entries, tab, h, w.spaces[x].entries, Flat(w, up));
  }
}
