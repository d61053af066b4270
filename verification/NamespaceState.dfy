/**
  The namespace state of a VM: the namespaces and their entries, the active packages, and the lookup
  cache that a sequence number invalidates. A pointer to a namespace or entry is its place.
 */
module NamespaceStates {
  import opened Values
  import opened Namespaces
  import opened Chains
  import opened Resolution
  import opened PackageSteps
  import opened Declarations
  import opened PackageRounds
  import opened HashTables
  import opened NamespaceCache
  import opened Linking

  const MAX_ACTIVE_PACKAGES: nat := 512

  class NamespaceState {
    var spaces: seq<Space>        // mNamespaceList, first to be made first
    var entries: seq<Entry>
    var caches: seq<Cache>
    var blocks: seq<Table>        // mCacheAllocator
    var cacheSequence: nat
    const active: array<CString>
    var numActive: nat
    var oldNumActive: nat
    const hash: Hash
    var refCounts: map<nat, nat>  // mRefCountToParent, where it was ever counted
    /** What the declarations alone have built, packages or not. */
    ghost var base: World

    ghost function TheWorld(): World
      reads this
    {
      World(spaces, entries)
    }

    ghost function Active(): seq<CString>
      requires numActive <= active.Length
      reads this, active
    {
      active[..numActive]
    }

    /** The world is the table with the active packages stacked on it. */
    ghost predicate Layered()
      reads this, active
    {
      && active.Length == MAX_ACTIVE_PACKAGES && numActive <= MAX_ACTIVE_PACKAGES
      && IsBase(base) && Distinct(Active()) && Ready(base, Active())
      && TheWorld() == Stacked(base, Active())
    }

    ghost predicate Cached()
      reads this
    {
      CacheOk(TheWorld(), caches, cacheSequence, blocks, hash)
    }

    ghost predicate Valid()
      reads this, active
    {
      Layered() && Cached()
    }

    constructor (h: Hash)
      ensures Valid() && Active() == [] && fresh(active)
      ensures base == World([Space(None, None, None, [])], [])
    {
      hash := h;
      active := new CString[MAX_ACTIVE_PACKAGES](i => "");
      numActive, oldNumActive, cacheSequence := 0, 0, 0;
      spaces, entries, caches, blocks := [Space(None, None, None, [])], [], [NEVER_BUILT], [];
      refCounts := map[];
      base := World([Space(None, None, None, [])], []);
      new;
      StackedNone(base);
      HasOne(base, [0], 0);
      assert Active() == [];
    }

    /** Every table is out of date, and its memory is gone. */
    method TrashCache()
      requires |caches| == |spaces| && forall x :: 0 <= x < |caches| ==> caches[x].sequence <= cacheSequence
      modifies this`cacheSequence, this`blocks
      ensures cacheSequence == old(cacheSequence) + 1 && NoneCurrent(caches, cacheSequence)
    {
      cacheSequence := cacheSequence + 1;
      blocks := [];
    }

    method Find(name: Name, package: Name) returns (x: nat)
      requires |caches| == |spaces|
      modifies this`spaces, this`caches
      ensures TheWorld() == Found(old(TheWorld()), name, package)
      ensures Lookup(TheWorld(), name, package) == Some(x) && x < |spaces| <= |old(spaces)| + 1
      ensures |old(spaces)| <= |spaces|
      ensures caches == if |spaces| > |old(spaces)| then old(caches) + [NEVER_BUILT] else old(caches)
    {
      var walk: nat := |spaces|;
      while walk > 0
        invariant walk <= |spaces|
        invariant IndexOf(spaces, name, package, |spaces|) == IndexOf(spaces, name, package, walk)
      {
        walk := walk - 1;
        if spaces[walk].name == name && spaces[walk].package == package {
          return walk;
        }
      }
      x := |spaces|;
      spaces := spaces + [Space(name, package, None, [])];
      caches := caches + [NEVER_BUILT];
    }

    /** Every entry on a namespace's list gets a new owner. */
    method SetOwners(list: seq<nat>, owner: nat)
      requires forall e :: e in list ==> e < |entries|
      modifies this`entries
      ensures entries == Reowned(old(entries), list, owner)
    {
      var i := 0;
      while i < |list|
        invariant 0 <= i <= |list|
        invariant |entries| == |old(entries)|
        invariant forall e :: 0 <= e < |entries| ==>
          entries[e] == if e in list[..i] then old(entries)[e].(owner := owner) else old(entries)[e]
      {
        assert list[i] in list;
        entries := entries[list[i] := entries[list[i]].(owner := owner)];
        assert forall e :: e in list[..i + 1] <==> e in list[..i] || e == list[i];
        i := i + 1;
      }
      assert list[..i] == list;
    }

    /** Puts a package's namespace between the one it overrides and its parent, and swaps their entries. */
    method Hook(walk: nat, parent: nat)
      requires walk < |spaces| && parent < |spaces| && walk != parent
      requires forall e :: e in spaces[walk].entries || e in spaces[parent].entries ==> e < |entries|
      modifies this`spaces, this`entries
      ensures TheWorld() == HookOne(old(TheWorld()), walk, parent) && |spaces| == |old(spaces)|
    {
      spaces := spaces[walk := spaces[walk].(parent := spaces[parent].parent)];
      spaces := spaces[parent := spaces[parent].(parent := Some(walk))];
      SetOwners(spaces[parent].entries, walk);
      SetOwners(spaces[walk].entries, parent);
      var list := spaces[walk].entries;
      spaces := spaces[walk := spaces[walk].(entries := spaces[parent].entries)];
      spaces := spaces[parent := spaces[parent].(entries := list)];
      assert spaces == HookOne(old(TheWorld()), walk, parent).spaces;
    }

    /** Takes it out again. */
    method Unhook(walk: nat, parent: nat)
      requires walk < |spaces| && parent < |spaces| && walk != parent
      requires forall e :: e in spaces[walk].entries || e in spaces[parent].entries ==> e < |entries|
      modifies this`spaces, this`entries
      ensures TheWorld() == UnhookOne(old(TheWorld()), walk, parent) && |spaces| == |old(spaces)|
    {
      spaces := spaces[parent := spaces[parent].(parent := spaces[walk].parent)];
      spaces := spaces[walk := spaces[walk].(parent := None)];
      SetOwners(spaces[parent].entries, walk);
      SetOwners(spaces[walk].entries, parent);
      var list := spaces[walk].entries;
      spaces := spaces[walk := spaces[walk].(entries := spaces[parent].entries)];
      spaces := spaces[parent := spaces[parent].(entries := list)];
      assert spaces == UnhookOne(old(TheWorld()), walk, parent).spaces;
    }

    /** Whether a package is among the active ones, and where. */
    method Position(name: CString) returns (i: nat)
      requires numActive <= active.Length
      ensures i <= numActive && (i < numActive ==> active[i] == name)
      ensures name !in active[..i]
    {
      i := 0;
      while i < numActive && active[i] != name
        invariant i <= numActive && name !in active[..i]
      {
        i := i + 1;
      }
    }

    /** What an activation does at one namespace of the list. */
    method HookRound(p: CString, walk: nat, ghost ps: seq<CString>, ghost table: World)
      requires IsBase(table) && Ready(table, ps) && walk < |table.spaces|
      requires TheWorld() == Hooked(Stacked(WithBases(table, p, walk + 1), ps), p, walk + 1)
      requires |caches| == |spaces| && NoneCurrent(caches, cacheSequence) && cacheSequence > 0
      modifies this`spaces, this`entries, this`caches
      ensures TheWorld() == Hooked(Stacked(WithBases(table, p, walk), ps), p, walk)
      ensures |caches| == |spaces| && NoneCurrent(caches, cacheSequence)
    {
      hide IsBase, Ready, Stacked, Hooked, IndexOf, Found, WithBases, HookOne;
      ActivateStep(table, ps, p, walk);
      if spaces[walk].package == Some(p) {
        var parent := Find(spaces[walk].name, None);
        Hook(walk, parent);
      }
    }

    /** The walk of an activation over the namespace list. */
    method HookPackage(p: CString, ghost ps: seq<CString>)
      requires IsBase(base) && Ready(base, ps) && TheWorld() == Stacked(base, ps)
      requires |caches| == |spaces| && NoneCurrent(caches, cacheSequence) && cacheSequence > 0
      modifies this`spaces, this`entries, this`caches, this`base
      ensures base == WithBases(old(base), p, 0) && TheWorld() == Hooked(Stacked(base, ps), p, 0)
      ensures |caches| == |spaces| && NoneCurrent(caches, cacheSequence)
    {
      hide IsBase, Ready, Stacked, Hooked, WithBases;
      ghost var table := base;
      var walk := |spaces|;
      ActivateBegins(table, ps, p);
      while walk > 0
        invariant 0 <= walk <= |table.spaces| && base == table
        invariant TheWorld() == Hooked(Stacked(WithBases(table, p, walk), ps), p, walk)
        invariant |caches| == |spaces| && NoneCurrent(caches, cacheSequence)
      {
        walk := walk - 1;
        HookRound(p, walk, ps, table);
      }
      base := WithBases(table, p, 0);
    }

    /** The walk that takes package `ps[j]` off, the topmost one left. */
    method UnhookPackage(p: CString, ghost ps: seq<CString>, ghost j: nat)
      requires IsBase(base) && Ready(base, ps) && Distinct(ps) && j < |ps| && p == ps[j]
      requires TheWorld() == Stacked(base, ps[..j + 1]) && |caches| == |spaces|
      modifies this`spaces, this`entries, this`caches
      ensures TheWorld() == Stacked(base, ps[..j]) && caches == old(caches)
    {
      hide IsBase, Ready, Stacked, Unhooked, Lookup, Found, UnhookOne;
      var walk := |spaces|;
      UnhookBegins(base, ps, j);
      while walk > 0
        invariant 0 <= walk <= |base.spaces| && |spaces| == |base.spaces| && caches == old(caches)
        invariant TheWorld() == Unhooked(Stacked(base, ps[..j + 1]), p, walk)
      {
        walk := walk - 1;
        DeactivateStep(base, ps, j, walk);
        if spaces[walk].package == Some(p) {
          var parent := Find(spaces[walk].name, None);
          Unhook(walk, parent);
        }
      }
      UnhookEnds(base, ps, j);
    }

    method ActivatePackage(name: Name)
      requires Valid()
      modifies this, active
      ensures refCounts == old(refCounts)
      ensures Valid() && oldNumActive == old(oldNumActive) && active[numActive..] == old(active[..])[numActive..]
      ensures var ps := old(Active());
        if name.None? || |ps| == MAX_ACTIVE_PACKAGES || name.value in ps then
          Active() == ps && base == old(base) && TheWorld() == old(TheWorld()) && cacheSequence == old(cacheSequence)
        else
          Active() == ps + [name.value] && base == WithBases(old(base), name.value, 0)
    {
      hide IsBase, Ready, CacheOk, Stacked, Hooked, WithBases;
      if numActive == MAX_ACTIVE_PACKAGES {
        return;
      }
      if name.None? {
        return;
      }
      var p := name.value;
      var at := Position(p);
      if at < numActive {
        assert active[at] in Active();
        return;
      }
      SequencesBound(TheWorld(), caches, cacheSequence, blocks, hash);
      TrashCache();
      ghost var ps, table := Active(), base;
      HookPackage(p, ps);
      active[numActive] := p;
      numActive := numActive + 1;
      assert Active() == ps + [p];
      ActivateEnds(table, ps, p);
      NoneCurrentOk(TheWorld(), caches, cacheSequence, blocks, hash);
    }

    /** Takes off the package and every one activated after it. */
    method DeactivatePackage(name: CString)
      requires Valid()
      modifies this
      ensures refCounts == old(refCounts)
      ensures Valid() && base == old(base) && oldNumActive == old(oldNumActive)
      ensures name !in old(Active()) ==> Active() == old(Active()) && TheWorld() == old(TheWorld())
      ensures name in old(Active()) ==>
        exists i :: 0 <= i < |old(Active())| && old(Active())[i] == name && Active() == old(Active())[..i]
    {
      hide IsBase, Ready, CacheOk, Stacked;
      var i := Position(name);
      if i == numActive {
        return;
      }
      SequencesBound(TheWorld(), caches, cacheSequence, blocks, hash);
      TrashCache();
      ghost var ps := Active();
      assert ps[i] == name;
      var j: int := numActive - 1;
      assert ps[..j + 1] == ps;
      while j >= i
        invariant i - 1 <= j < |ps|
        invariant TheWorld() == Stacked(base, ps[..j + 1]) && |caches| == |spaces| && NoneCurrent(caches, cacheSequence)
        invariant numActive == |ps| && oldNumActive == old(oldNumActive) && base == old(base) && cacheSequence > 0
        invariant refCounts == old(refCounts)
      {
        UnhookPackage(active[j], ps, j);
        j := j - 1;
      }
      numActive := i;
      assert Active() == ps[..i];
      FewerActive(base, ps, i);
      NoneCurrentOk(TheWorld(), caches, cacheSequence, blocks, hash);
    }

    /** `find` between declarations: under active packages only namespaces without a package are made. */
    method FindNamespace(name: Name, package: Name) returns (x: nat)
      requires Valid() && (package.None? || numActive == 0)
      modifies this`spaces, this`caches, this`base
      ensures Valid() && Active() == old(Active())
      ensures TheWorld() == Found(old(TheWorld()), name, package) && base == Found(old(base), name, package)
      ensures Lookup(base, name, package) == Some(x) && x < |spaces|
    {
      hide IsBase, Ready, Stacked, CacheOk, IndexOf;
      SequencesBound(TheWorld(), caches, cacheSequence, blocks, hash);
      x := Find(name, package);
      base := Found(base, name, package);
      FindKeeps(old(base), Active(), name, package, old(caches), cacheSequence, blocks, hash);
    }

    /** The entry of that name on the namespace's own list, cleared, or a new one in front. */
    method CreateLocalEntry(x: nat, name: CString) returns (e: nat)
      requires x < |spaces| && Wf(TheWorld())
      modifies this`spaces, this`entries
      ensures |spaces| == |old(spaces)| && spaces[x].package == old(spaces[x].package)
      ensures TheWorld() == Added(old(TheWorld()), x, spaces[x].package, name, NoBody)
      ensures e < |entries| && Named(entries, spaces[x].entries, name) == Some(e)
    {
      hide Wf;
      ListInside(TheWorld(), x);
      var list := spaces[x].entries;
      var found := FirstNamed(list, name);
      if found.Some? {
        e := found.value;
        entries := entries[e := entries[e].(body := NoBody)];
        NamedSame(entries, old(entries), list, name);
        return;
      }
      e := |entries|;
      entries := entries + [Entry(name, x, spaces[x].package, NoBody)];
      spaces := spaces[x := spaces[x].(entries := [e] + list)];
    }

    method AddFunction(x: nat, name: CString, block: nat, offset: nat)
      requires Valid() && x < |spaces|
      modifies this`spaces, this`entries, this`base, this`cacheSequence, this`blocks
      ensures Valid() && Active() == old(Active())
      ensures TheWorld() == Added(old(TheWorld()), x, old(spaces[x].package), name, Script(block, offset))
      ensures Content(old(base), Active(), x) < |old(base).spaces|
      ensures base
          == Added(old(base), Content(old(base), Active(), x), old(spaces[x].package), name, Script(block, offset))
    {
      hide IsBase, Ready, Stacked, CacheOk, Content, Wf;
      ghost var w := TheWorld();
      SequencesBound(w, caches, cacheSequence, blocks, hash);
      LayeredWf(base, Active());
      var e := CreateLocalEntry(x, name);
      TrashCache();
      entries := entries[e := entries[e].(body := Script(block, offset))];
      BodySet(w, x, spaces[x].package, name, Script(block, offset), e);
      AddedStacked(base, Active(), x, spaces[x].package, name, Script(block, offset));
      AddKeeps(base, Active(), Content(base, Active(), x), spaces[x].package, name, Script(block, offset));
      base := Added(base, Content(base, Active(), x), spaces[x].package, name, Script(block, offset));
      NoneCurrentOk(TheWorld(), caches, cacheSequence, blocks, hash);
    }

    method UnlinkPackages()
      requires Valid()
      modifies this
      ensures refCounts == old(refCounts)
      ensures Valid() && Active() == [] && base == old(base) && oldNumActive == old(numActive)
    {
      hide IsBase, Ready, Stacked, CacheOk;
      oldNumActive := numActive;
      if numActive == 0 {
        return;
      }
      assert active[0] == Active()[0];
      ghost var ps := Active();
      DeactivatePackage(active[0]);
      FirstTakesAll(ps, Active());
    }

    method RelinkPackages()
      requires Valid() && Active() == [] && oldNumActive <= MAX_ACTIVE_PACKAGES && Distinct(active[..oldNumActive])
      modifies this, active
      ensures refCounts == old(refCounts)
      ensures Valid() && Active() == old(active[..oldNumActive]) && base == Relinked(old(base), Active())
    {
      hide IsBase, Ready, Stacked, CacheOk, WithBases;
      if oldNumActive == 0 {
        return;
      }
      ghost var ps, table := active[..oldNumActive], base;
      var i := 0;
      while i < oldNumActive
        invariant i <= oldNumActive == |ps| <= MAX_ACTIVE_PACKAGES && numActive == i && Valid()
        invariant Active() == ps[..i] && active[..oldNumActive] == ps && Distinct(ps)
        invariant base == Relinked(table, ps[..i]) && refCounts == old(refCounts)
      {
        label Before:
        assert active[i] == ps[i];
        NotYet(ps, i);
        ActivatePackage(Some(active[i]));
        assert ps[..i + 1] == ps[..i] + [ps[i]];
        assert ps[..i + 1][..i] == ps[..i];
        SlotsKept(old@Before(active[..]), active[..], ps, i);
        i := i + 1;
      }
      assert ps[..i] == ps;
    }

    /**
      A function declaration of a script: the packages come off, the namespace is found or made, the
      entry goes into it, and the packages go on again. Only the table changes.
     */
    method DeclareFunction(name: CString, ns: Name, package: Name, block: nat, offset: nat)
      requires Valid()
      modifies this, active
      ensures refCounts == old(refCounts)
      ensures Valid() && Active() == old(Active())
      ensures base == Relinked(Declaring(old(base), ns, package, name, Script(block, offset)), old(Active()))
    {
      hide IsBase, Ready, Stacked, CacheOk, Relinked, Found, Added, IndexOf;
      ghost var ps := Active();
      label Start:
      UnlinkPackages();
      assert active[..oldNumActive] == ps;
      var x := FindNamespace(ns, package);
      StackedNone(base);
      AddFunction(x, name, block, offset);
      RelinkPackages();
    }

    // ----- lookups -----

    /** From every namespace the way up ends, whatever packages are active. */
    lemma WaysUp()
      requires Layered()
      ensures Wf(TheWorld()) && Grounded(TheWorld())
    {
      hide Wf, Grounded, Ready, Stacked, Loose;
      LayeredWf(base, Active());
      StackedGrounded(base, Active());
    }

    /** Walks one list. */
    method FirstNamed(list: seq<nat>, name: CString) returns (r: Option<nat>)
      requires forall e :: e in list ==> e < |entries|
      ensures r == Named(entries, list, name)
    {
      var k := 0;
      while k < |list|
        invariant 0 <= k <= |list| && Named(entries, list, name) == Named(entries, list[k..], name)
      {
        assert list[k] in list;
        if entries[list[k]].name == name {
          return Some(list[k]);
        }
        assert list[k..][1..] == list[k + 1..];
        k := k + 1;
      }
      r := None;
    }

    /** Walks the lists of a namespace and its parents. */
    method LookupRecursive(x: nat, name: CString) returns (r: Option<nat>)
      requires Wf(TheWorld()) && HasChain(TheWorld(), x)
      ensures r == Named(entries, Flat(TheWorld(), ChainOf(TheWorld(), x)), name)
    {
      hide Wf, Named;
      ghost var w := TheWorld();
      ghost var chain := ChainOf(w, x);
      var ns := Some(x);
      ghost var i := 0;
      while ns.Some?
        invariant i <= |chain| && ns == if i < |chain| then Some(chain[i]) else None
        invariant Named(entries, Flat(w, chain), name) == Named(entries, Flat(w, chain[i..]), name)
        decreases |chain| - i
      {
        var list := spaces[ns.value].entries;
        assert chain[i..][1..] == chain[i + 1..];
        NamedSplit(entries, list, Flat(w, chain[i + 1..]), name);
        ListInside(w, chain[i]);
        r := FirstNamed(list, name);
        if r.Some? {
          return;
        }
        ns := spaces[ns.value].parent;
        i := i + 1;
      }
      r := None;
      assert chain[i..] == [];
    }

    /** How many entries on one list of the chain a walk from `x` finds; `seen` collects them. */
    method CountList(x: nat, list: seq<nat>, ghost seen: set<nat>) returns (n: nat, ghost seen': set<nat>)
      requires Wf(TheWorld()) && HasChain(TheWorld(), x)
      requires forall e :: e in list ==> e < |entries|
      ensures |seen'| <= |seen| + n && seen <= seen'
      ensures forall e :: e in list && e in Firsts(entries, Flat(TheWorld(), ChainOf(TheWorld(), x))) ==> e in seen'
    {
      hide Wf, Named, Flat;
      ghost var chain := ChainOf(TheWorld(), x);
      n, seen' := 0, seen;
      var k := 0;
      while k < |list|
        invariant 0 <= k <= |list| && |seen'| <= |seen| + n && seen <= seen'
        invariant forall e :: e in list[..k] && e in Firsts(entries, Flat(TheWorld(), chain)) ==> e in seen'
      {
        assert list[k] in list;
        var first := LookupRecursive(x, entries[list[k]].name);
        if first == Some(list[k]) {
          n := n + 1;
          seen' := seen' + {list[k]};
        }
        assert list[..k + 1] == list[..k] + [list[k]];
        k := k + 1;
      }
      assert list[..k] == list;
    }

    /** How many entries along the chain are the first of their name. */
    method CountFirsts(x: nat) returns (n: nat)
      requires Wf(TheWorld()) && HasChain(TheWorld(), x)
      ensures n >= |Firsts(entries, Flat(TheWorld(), ChainOf(TheWorld(), x)))|
    {
      hide Wf, Named, Firsts;
      ghost var w := TheWorld();
      ghost var chain := ChainOf(w, x);
      ghost var all := Flat(w, chain);
      n := 0;
      var ns := Some(x);
      ghost var i := 0;
      ghost var seen: set<nat> := {};
      while ns.Some?
        invariant i <= |chain| && ns == if i < |chain| then Some(chain[i]) else None
        invariant |seen| <= n && forall e :: e in Flat(w, chain[..i]) && e in Firsts(entries, all) ==> e in seen
        decreases |chain| - i
      {
        var list := spaces[ns.value].entries;
        assert chain[..i + 1] == chain[..i] + [chain[i]];
        FlatSplit(w, chain[..i], [chain[i]]);
        assert Flat(w, [chain[i]]) == list + Flat(w, [chain[i]][1..]) == list;
        ListInside(w, chain[i]);
        var more;
        more, seen := CountList(x, list, seen);
        n := n + more;
        ns := spaces[ns.value].parent;
        i := i + 1;
      }
      assert chain[..i] == chain;
      FirstsListed(entries, all);
      SubsetSize(Firsts(entries, all), seen);
    }

    /** Where probing for a name ends: its slot, or a free one. */
    method Probe(tab: Table, name: CString) returns (index: nat, ghost j: nat)
      requires Sane(entries, tab) && exists k: nat :: Stops(entries, tab, hash, name, k)
      ensures j < |tab| && index == Slot(hash(name), j, |tab|) && Passes(entries, tab, hash, name, j)
      ensures Stops(entries, tab, hash, name, j)
    {
      ghost var end: nat :| Stops(entries, tab, hash, name, end);
      index := hash(name) % |tab|;
      j := 0;
      while tab[index].Some? && entries[tab[index].value].name != name
        invariant j <= end && index == Slot(hash(name), j, |tab|) && Passes(entries, tab, hash, name, j)
        decreases end - j
      {
        index := index + 1;
        if index >= |tab| {
          index := 0;
        }
        j := j + 1;
      }
    }

    /** Puts an entry into the table unless its name is there. */
    method Insert(tab: Table, e: nat, ghost done: seq<nat>) returns (tab': Table)
      requires Filled(entries, tab, hash, done) && |Used(tab)| < |tab| && e < |entries|
      ensures |tab'| == |tab| && Filled(entries, tab', hash, done + [e])
    {
      hide Filled, Slot;
      FilledSane(entries, tab, hash, done);
      ghost var end := ProbingEnds(entries, tab, hash, entries[e].name);
      assert Stops(entries, tab, hash, entries[e].name, end);
      ghost var j;
      var index;
      index, j := Probe(tab, entries[e].name);
      if tab[index].None? {
        FillPuts(entries, tab, hash, done, e, j);
        tab' := tab[index := Some(e)];
      } else {
        FillSkips(entries, tab, hash, done, e, index);
        tab' := tab;
      }
    }

    method InsertList(tab: Table, list: seq<nat>, ghost done: seq<nat>, ghost rest: seq<nat>) returns (tab': Table)
      requires Filled(entries, tab, hash, done) && forall e :: e in list ==> e < |entries|
      requires |Firsts(entries, done + list + rest)| < |tab|
      ensures |tab'| == |tab| && Filled(entries, tab', hash, done + list)
    {
      hide Filled, Firsts, Used;
      tab' := tab;
      var k := 0;
      assert list[..0] == [] && done + [] == done;
      while k < |list|
        invariant 0 <= k <= |list| && |tab'| == |tab| && Filled(entries, tab', hash, done + list[..k])
      {
        assert list[k] in list;
        assert done + list + rest == (done + list[..k]) + (list[k..] + rest);
        FirstsGrow(entries, done + list[..k], list[k..] + rest);
        FilledSane(entries, tab', hash, done + list[..k]);
        tab' := Insert(tab', list[k], done + list[..k]);
        assert (done + list[..k]) + [list[k]] == done + list[..k + 1];
        k := k + 1;
      }
      assert list[..k] == list;
    }

    /** A fresh table of the namespace's own size, with everything along the chain put in. */
    method FillTable(x: nat) returns (tab: Table)
      requires Wf(TheWorld()) && HasChain(TheWorld(), x)
      ensures Serves(entries, tab, hash, Flat(TheWorld(), ChainOf(TheWorld(), x)))
    {
      hide Wf, Filled, Firsts, Used, Serves;
      ghost var w := TheWorld();
      ghost var chain := ChainOf(w, x);
      ghost var all := Flat(w, chain);
      var n := CountFirsts(x);
      var size := n + n / 2 + 1;
      if size % 2 == 0 {
        size := size + 1;
      }
      tab := seq(size, i => None);
      NothingFilled(entries, tab, hash);
      var ns := Some(x);
      ghost var i := 0;
      assert Flat(w, chain[..0]) == [];
      while ns.Some?
        invariant i <= |chain| && ns == if i < |chain| then Some(chain[i]) else None
        invariant |tab| == size > n && Filled(entries, tab, hash, Flat(w, chain[..i]))
        decreases |chain| - i
      {
        var list := spaces[ns.value].entries;
        FlatAt(w, chain, i);
        ListInside(w, chain[i]);
        tab := InsertList(tab, list, Flat(w, chain[..i]), Flat(w, chain[i + 1..]));
        ns := spaces[ns.value].parent;
        i := i + 1;
      }
      assert chain[..i] == chain;
      FilledSane(entries, tab, hash, all);
      FlatInside(w, chain);
      FilledServes(entries, tab, hash, all);
    }

    method BuildHashTable(x: nat)
      requires Wf(TheWorld()) && Cached() && HasChain(TheWorld(), x)
      modifies this`caches, this`blocks
      ensures Cached() && caches[x].sequence == cacheSequence
      decreases |ChainOf(TheWorld(), x)|
    {
      hide Wf, Serves, Flat, CacheOk;
      ghost var chain := ChainOf(TheWorld(), x);
      SequencesBound(TheWorld(), caches, cacheSequence, blocks, hash);
      if caches[x].sequence == cacheSequence {
        return;
      }
      if spaces[x].entries == [] && spaces[x].parent.Some? {
        var up := spaces[x].parent.value;
        ParentChain(TheWorld(), chain);
        ChainIs(TheWorld(), chain[1..]);
        BuildHashTable(up);
        SequencesBound(TheWorld(), caches, cacheSequence, blocks, hash);
        SharedOk(TheWorld(), caches, cacheSequence, blocks, hash, x, up, chain);
        caches := caches[x := Cache(cacheSequence, caches[up].table, caches[up].size)];
        return;
      }
      var tab := FillTable(x);
      BuiltOk(TheWorld(), caches, cacheSequence, blocks, hash, x, tab, chain);
      blocks := blocks + [tab];
      caches := caches[x := Cache(cacheSequence, |blocks| - 1, |tab|)];
    }

    /**
      The cached lookup: in every state reached by finding, declaring, activating and deactivating it
      returns what the walk up the chain would, from classes and from overrides.
     */
    method LookupEntry(x: nat, name: CString) returns (r: Option<nat>)
      requires Valid() && x < |spaces|
      modifies this`caches, this`blocks
      ensures Valid() && HasChain(TheWorld(), x)
      ensures r == Named(entries, Flat(TheWorld(), ChainOf(TheWorld(), x)), name)
    {
      hide IsBase, Ready, Stacked, Wf, CacheOk, Serves, Flat, Named;
      WaysUp();
      GroundedAt(TheWorld(), x);
      hide Grounded;
      ghost var chain := ChainOf(TheWorld(), x);
      SequencesBound(TheWorld(), caches, cacheSequence, blocks, hash);
      if caches[x].sequence != cacheSequence {
        BuildHashTable(x);
        SequencesBound(TheWorld(), caches, cacheSequence, blocks, hash);
      }
      CurrentServes(TheWorld(), caches, cacheSequence, blocks, hash, x, chain, name);
      if caches[x].size == 0 {
        return None;
      }
      var tab := blocks[caches[x].table];
      var index;
      ghost var j;
      index, j := Probe(tab, name);
      ProbesOnce(entries, tab, hash, name, j, Named(entries, Flat(TheWorld(), chain), name));
      r := tab[index];
    }

    /**
      A method call on an object of class `x`: with any packages active, the entry of the latest
      activated one that declares the method, else the class's own, else its parent's.
     */
    method ResolveMethod(x: nat, name: CString) returns (r: Option<nat>)
      requires Valid() && x < |base.spaces| && base.spaces[x].package == None
      modifies this`caches, this`blocks
      ensures Valid() && HasChain(base, x) && r == Resolve(base, Active(), ChainOf(base, x), name)
    {
      hide Ready, Stacked, Wf, CacheOk, FullChain, Resolve, Flat, Named, Loose;
      GroundedAt(base, x);
      hide IsBase, Grounded;
      ghost var classes := ChainOf(base, x);
      WalkResolves(base, Active(), classes, name);
      ChainIs(TheWorld(), FullChain(base, Active(), classes));
      r := LookupEntry(x, name);
    }

    /**
      A `Parent::` call out of entry `e`, a declaration of layer `n` of class `b`, in the scope of the
      namespace whose list `e` is on: the next layer down, else the parent class.
     */
    method LookupParent(e: nat, name: CString, ghost b: nat, ghost n: nat) returns (r: Option<nat>)
      requires Valid() && e < |entries|
      requires b < |base.spaces| && base.spaces[b].package == None
      requires HasLayer(base, Active(), b, n) && e in LayerOf(base, Active(), b, n)
      modifies this`caches, this`blocks
      ensures Valid() && HasChain(base, b)
      ensures r == Or(if n == 0 then None else LayerHit(base, Active()[..n - 1], b, name),
                      Resolve(base, Active(), ChainOf(base, b)[1..], name))
    {
      hide Ready, Stacked, Wf, CacheOk, FullChain, Resolve, LayerHit, Named, LayerOf, HasLayer, Overriding, Flat, Loose;
      GroundedAt(base, b);
      hide IsBase, Grounded;
      ghost var classes := ChainOf(base, b);
      ghost var full, j := FullChain(base, Active(), classes), Overriding(base, Active(), b, n);
      FullChainLinked(base, Active(), classes);
      ParentReachesNextLayer(base, Active(), classes, n, e, name);
      var scope := entries[e].owner;
      ChainFrom(TheWorld(), full, j, name);
      if spaces[scope].parent.None? {
        return None;
      }
      ChainIs(TheWorld(), full[j + 1..]);
      r := LookupEntry(spaces[scope].parent.value, name);
    }

    /** Walks from a class down its layers: what comes behind the lowest has another name. */
    method LowestLayer(x: nat) returns (walk: nat)
      requires Layered() && x < |spaces| && spaces[x].package == None
      ensures walk == Lowest(base, Active(), x) < |spaces| && spaces[walk].parent == base.spaces[x].parent
    {
      hide Stacked, Wf, Grounded, Ready;
      ghost var blk := Block(base, Active(), x);
      BlockIsLinked(base, Active(), x);
      BlockNames(base, Active(), x);
      if base.spaces[x].parent.Some? {
        ParentHasOtherName(base, x);
      }
      ghost var s := Stacked(base, Active());
      assert s.spaces == spaces;
      assert forall k :: 0 <= k < |spaces| ==> spaces[k].name == base.spaces[k].name;
      walk := x;
      ghost var i := 0;
      while spaces[walk].parent.Some? && spaces[spaces[walk].parent.value].name == spaces[x].name
        invariant i < |blk| && walk == blk[i] < |spaces|
        invariant spaces[walk].parent == if i < |blk| - 1 then Some(blk[i + 1]) else base.spaces[x].parent
        decreases |blk| - i
      {
        walk := spaces[walk].parent.value;
        i := i + 1;
      }
    }

    function RefCount(x: nat): nat
      reads this
    {
      if x in refCounts then refCounts[x] else 0
    }

    /**
      Gives a class a parent, or confirms the one it has, whatever packages are active. The lookup cache is
      not told, nor is it checked that the parent does not derive from the class: then every walk up from
      there would run in a circle.
     */
    method ClassLinkTo(x: nat, parent: nat) returns (ok: bool)
      requires Valid() && x < |spaces| && parent < |spaces|
      requires spaces[x].package == None && spaces[parent].package == None
      modifies this`spaces, this`base, this`refCounts
      ensures ok == (old(base.spaces[x].parent) in {None, Some(parent)})
      ensures base == (if ok then Linked(old(base), x, parent) else old(base)) && Loose(base)
      ensures refCounts == if ok then old(refCounts)[x := CountUp(old(RefCount(x)))] else old(refCounts)
      ensures TheWorld() == Stacked(base, Active()) && Active() == old(Active())
      ensures HasChain(old(base), parent)
      ensures Layered() <==> !ok || x !in ChainOf(old(base), parent)
      ensures Layered() && NoneCurrent(caches, cacheSequence) && cacheSequence > 0 ==> Valid()
      ensures !ok ==> Valid()
    {
      hide CacheOk, Grounded, Wf, Stacked, Ready;
      GroundedAt(base, parent);
      SequencesBound(TheWorld(), caches, cacheSequence, blocks, hash);
      var walk := LowestLayer(x);
      if spaces[walk].parent.Some? && spaces[walk].parent != Some(parent) {
        return false;
      }
      refCounts := refCounts[x := (RefCount(x) + 1) % TWO_32];
      spaces := spaces[walk := spaces[walk].(parent := Some(parent))];
      LinkedStacked(base, Active(), x, Some(parent));
      LinkedBase(base, x, Some(parent));
      LinkGrounds(base, x, parent);
      LinkedReady(base, Active(), x, Some(parent));
      base := Linked(base, x, parent);
      if NoneCurrent(caches, cacheSequence) && cacheSequence > 0 {
        NoneCurrentOk(TheWorld(), caches, cacheSequence, blocks, hash);
      }
      ok := true;
    }

    /** Takes one link back; with the last one the parent goes. The lookup cache is not told. */
    method UnlinkClass(x: nat, parent: nat) returns (ok: bool)
      requires Valid() && x < |spaces| && spaces[x].package == None
      modifies this`spaces, this`base, this`refCounts
      ensures ok == (old(base.spaces[x].parent) in {None, Some(parent)})
      ensures Layered() && Active() == old(Active())
      ensures var u := UnlinkedOnce(old(base), x, old(RefCount(x)));
        if ok then base == u.0 && refCounts == old(refCounts)[x := u.1]
        else base == old(base) && refCounts == old(refCounts)
      ensures base == old(base) || (NoneCurrent(caches, cacheSequence) && cacheSequence > 0) ==> Valid()
    {
      hide CacheOk, Grounded, Wf, Stacked, Ready;
      SequencesBound(TheWorld(), caches, cacheSequence, blocks, hash);
      var walk := LowestLayer(x);
      if spaces[walk].parent.Some? && spaces[walk].parent != Some(parent) {
        return false;
      }
      ghost var w := base;
      refCounts := refCounts[x := (RefCount(x) + TWO_32 - 1) % TWO_32];
      if refCounts[x] == 0 {
        spaces := spaces[walk := spaces[walk].(parent := None)];
        LinkedStacked(base, Active(), x, None);
        LinkedBase(base, x, None);
        UnlinkGrounds(base, x);
        LinkedReady(base, Active(), x, None);
        base := Unlinked(base, x);
        if base == w {
          assert spaces == old(spaces);
        }
        if NoneCurrent(caches, cacheSequence) && cacheSequence > 0 {
          NoneCurrentOk(TheWorld(), caches, cacheSequence, blocks, hash);
        }
      }
      ok := true;
    }
  }
}
