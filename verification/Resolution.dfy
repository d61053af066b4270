/** What a function name resolves to while packages are active, and where a `Parent::` call goes from there. */
module Resolution {
  import opened Values
  import opened Namespaces

  /** All entry lists along a chain, one after the other. */
  function Flat(w: World, c: seq<nat>): seq<nat> {
    if c == [] then []
    else (if c[0] < |w.spaces| then w.spaces[c[0]].entries else []) + Flat(w, c[1..])
  }

  /** The first entry of that name on a list. */
  function Named(entries: seq<Entry>, list: seq<nat>, f: CString): (r: Option<nat>)
    ensures r.Some? ==> r.value in list && r.value < |entries| && entries[r.value].name == f
    ensures r.None? ==> forall e :: e in list && e < |entries| ==> entries[e].name != f
  {
    if list == [] then None
    else if list[0] < |entries| && entries[list[0]].name == f then Some(list[0])
    else Named(entries, list[1..], f)
  }

  function Or(a: Option<nat>, b: Option<nat>): Option<nat> {
    if a.Some? then a else b
  }

  // ----- the simple model -----

  function Over(base: World, b: nat, p: CString): (r: Option<nat>)
    ensures r.Some? ==> r.value < |base.spaces| && base.spaces[r.value].package == Some(p)
  {
    if b < |base.spaces| then Lookup(base, base.spaces[b].name, Some(p)) else None
  }

  function Declared(base: World, x: nat): seq<nat> {
    if x < |base.spaces| then base.spaces[x].entries else []
  }

  /** The entry of the most recently activated package that declares `f` for this namespace, else its own. */
  function LayerHit(base: World, ps: seq<CString>, b: nat, f: CString): Option<nat>
    decreases |ps|
  {
    if ps == [] then Named(base.entries, Declared(base, b), f)
    else
      var over := Over(base, b, ps[|ps| - 1]);
      var hit := if over.Some? then Named(base.entries, Declared(base, over.value), f) else None;
      Or(hit, LayerHit(base, ps[..|ps| - 1], b, f))
  }

  /** `f` in the namespace `classes[0]`: by its layers, else as its parent resolves it. */
  function Resolve(base: World, ps: seq<CString>, classes: seq<nat>, f: CString): Option<nat> {
    if classes == [] then None
    else Or(LayerHit(base, ps, classes[0], f), Resolve(base, ps, classes[1..], f))
  }

  // ----- where the layers of one namespace lie -----

  /** The namespaces its layers occupy, topmost layer first. */
  function Block(base: World, ps: seq<CString>, b: nat): (r: seq<nat>)
    ensures r != [] && r[0] == b
    decreases |ps|
  {
    if ps == [] then [b]
    else
      var below := Block(base, ps[..|ps| - 1], b);
      var over := Over(base, b, ps[|ps| - 1]);
      if over.Some? then [b, over.value] + below[1..] else below
  }

  /** The declarations of its layers, topmost first. */
  function Layers(base: World, ps: seq<CString>, b: nat): seq<nat>
    decreases |ps|
  {
    if ps == [] then Declared(base, b)
    else
      var over := Over(base, b, ps[|ps| - 1]);
      (if over.Some? then Declared(base, over.value) else []) + Layers(base, ps[..|ps| - 1], b)
  }

  /** How many packages from place `n` on override `b`. */
  function Overriding(base: World, ps: seq<CString>, b: nat, n: nat): nat
    decreases |ps|
  {
    if |ps| <= n then 0
    else Overriding(base, ps[..|ps| - 1], b, n) + (if Over(base, b, ps[|ps| - 1]).Some? then 1 else 0)
  }

  lemma {:induction false} FlatSplit(w: World, a: seq<nat>, b: seq<nat>)
    ensures Flat(w, a + b) == Flat(w, a) + Flat(w, b)
  {
    if a == [] {
      assert a + b == b;
    } else {
      assert (a + b)[1..] == a[1..] + b;
      FlatSplit(w, a[1..], b);
    }
  }

  lemma {:induction false} FlatSame(v: World, w: World, c: seq<nat>)
    requires |v.spaces| == |w.spaces|
    requires forall i :: 0 <= i < |c| && c[i] < |w.spaces| ==> v.spaces[c[i]].entries == w.spaces[c[i]].entries
    ensures Flat(v, c) == Flat(w, c)
  {
    if c != [] {
      FlatSame(v, w, c[1..]);
    }
  }

  lemma {:induction false} NamedSplit(entries: seq<Entry>, a: seq<nat>, b: seq<nat>, f: CString)
    ensures Named(entries, a + b, f) == Or(Named(entries, a, f), Named(entries, b, f))
  {
    if a == [] {
      assert a + b == b;
    } else {
      assert (a + b)[1..] == a[1..] + b;
      NamedSplit(entries, a[1..], b, f);
    }
  }

  lemma {:induction false} NamedSame(v: seq<Entry>, w: seq<Entry>, list: seq<nat>, f: CString)
    requires |v| == |w| && forall e :: 0 <= e < |v| ==> v[e].name == w[e].name
    ensures Named(v, list, f) == Named(w, list, f)
  {
    if list != [] {
      NamedSame(v, w, list[1..], f);
    }
  }

  lemma {:induction false} StackedNames(base: World, ps: seq<CString>)
    ensures forall e :: 0 <= e < |base.entries| ==> Stacked(base, ps).entries[e].name == base.entries[e].name
    decreases |ps|
  {
    if ps != [] {
      StackedNames(base, ps[..|ps| - 1]);
    }
  }

  /** The other namespaces of a block belong to active packages. */
  lemma {:induction false} BlockPackages(base: World, ps: seq<CString>, b: nat)
    requires b < |base.spaces|
    ensures forall i :: 1 <= i < |Block(base, ps, b)| ==>
      var x := Block(base, ps, b)[i];
      x < |base.spaces| && base.spaces[x].package.Some? && base.spaces[x].package.value in ps
    decreases |ps|
  {
    if ps != [] {
      BlockPackages(base, ps[..|ps| - 1], b);
      assert forall q :: q in ps[..|ps| - 1] ==> q in ps;
      assert ps[|ps| - 1] in ps;
    }
  }

  /** One more active package: what it does to the base namespace, its override and the rest of the block. */
  lemma OneMore(base: World, ps: seq<CString>, b: nat)
    requires IsBase(base) && Distinct(ps) && ps != [] && b < |base.spaces| && base.spaces[b].package == None
    ensures var below, p := ps[..|ps| - 1], ps[|ps| - 1];
      var s', s, over := Stacked(base, below), Stacked(base, ps), Over(base, b, p);
      && (over.None? ==> s.spaces[b] == s'.spaces[b])
      && (over.Some? ==>
            && s.spaces[b].parent == over && s.spaces[b].entries == Declared(base, over.value)
            && s.spaces[over.value].parent == s'.spaces[b].parent
            && s.spaces[over.value].entries == s'.spaces[b].entries)
      && (forall x ::
          0 <= x < |base.spaces| && base.spaces[x].package.Some? && base.spaces[x].package.value in below ==>
            s.spaces[x] == s'.spaces[x])
  {
    hide IndexOf, Stacked;
    var below, p := ps[..|ps| - 1], ps[|ps| - 1];
    var s' := Stacked(base, below);
    assert Stacked(base, ps) == Hooked(s', p, 0) by { StackedTop(base, ps); }
    PartnersSame(s', base, p, 0);
    TopIsNew(ps);
    StackedIdle(base, below, p);
    StackedWf(base, below);
    if Over(base, b, p).Some? {
      TradesBack(s', p, 0, b);
    }
  }

  lemma TopIsNew(ps: seq<CString>)
    requires Distinct(ps) && ps != []
    ensures ps[|ps| - 1] !in ps[..|ps| - 1] && Distinct(ps[..|ps| - 1])
  {
  }

  lemma StackedTop(base: World, ps: seq<CString>)
    requires ps != []
    ensures Stacked(base, ps) == Hooked(Stacked(base, ps[..|ps| - 1]), ps[|ps| - 1], 0)
  {
  }

  /** The links of a block run through it and on to the parent the namespace has in the table. */
  ghost predicate BlockLinked(base: World, ps: seq<CString>, b: nat)
    requires b < |base.spaces|
  {
    var s, blk := Stacked(base, ps), Block(base, ps, b);
    && (forall i :: 0 <= i < |blk| ==> blk[i] < |s.spaces|)
    && (forall i :: 0 <= i < |blk| - 1 ==> s.spaces[blk[i]].parent == Some(blk[i + 1]))
    && s.spaces[blk[|blk| - 1]].parent == base.spaces[b].parent
  }

  lemma {:induction false} BlockIsLinked(base: World, ps: seq<CString>, b: nat)
    requires IsBase(base) && Distinct(ps) && b < |base.spaces| && base.spaces[b].package == None
    ensures BlockLinked(base, ps, b)
    decreases |ps|
  {
    hide Stacked, IsBase;
    if ps == [] {
      assert Stacked(base, ps) == base by { EmptyStack(base); }
    } else {
      var below := ps[..|ps| - 1];
      BlockIsLinked(base, below, b);
      OneMore(base, ps, b);
      BlockPackages(base, below, b);
    }
  }

  lemma EmptyStack(base: World)
    ensures Stacked(base, []) == base
  {
  }

  /** The lists along a block are the layers' declarations. */
  lemma {:induction false} BlockFlat(base: World, ps: seq<CString>, b: nat)
    requires IsBase(base) && Distinct(ps) && b < |base.spaces| && base.spaces[b].package == None
    ensures Flat(Stacked(base, ps), Block(base, ps, b)) == Layers(base, ps, b)
    decreases |ps|
  {
    hide Stacked, IsBase;
    if ps == [] {
      EmptyStack(base);
      assert Flat(base, [b]) == Declared(base, b) + Flat(base, []);
    } else {
      var below := ps[..|ps| - 1];
      BlockFlat(base, below, b);
      BlockRest(base, ps, b, 1);
      var over := Over(base, b, ps[|ps| - 1]);
      OneMore(base, ps, b);
      var s, s', old_ := Stacked(base, ps), Stacked(base, below), Block(base, below, b);
      assert Flat(s', old_) == s'.spaces[b].entries + Flat(s', old_[1..]);
      if over.Some? {
        var blk := Block(base, ps, b);
        assert blk[1..][1..] == old_[1..];
        assert Flat(s, blk) == s.spaces[b].entries + (s.spaces[over.value].entries + Flat(s, old_[1..]));
      }
    }
  }

  /** Below the base namespace the lists of the old block stay. */
  lemma BlockRest(base: World, ps: seq<CString>, b: nat, j: nat)
    requires IsBase(base) && Distinct(ps) && ps != [] && b < |base.spaces| && base.spaces[b].package == None
    requires 1 <= j <= |Block(base, ps[..|ps| - 1], b)|
    ensures var old_ := Block(base, ps[..|ps| - 1], b);
      Flat(Stacked(base, ps), old_[j..]) == Flat(Stacked(base, ps[..|ps| - 1]), old_[j..])
  {
    hide Stacked, IsBase, Flat, Block;
    var below := ps[..|ps| - 1];
    var old_ := Block(base, below, b);
    OneMore(base, ps, b);
    BlockPackages(base, below, b);
    assert forall i :: 0 <= i < |old_[j..]| ==> old_[j..][i] == old_[j + i];
    FlatSame(Stacked(base, ps), Stacked(base, below), old_[j..]);
  }

  /** The declarations layer `n` brings: the namespace's own (0), or those of package `ps[n - 1]`. */
  function LayerOf(base: World, ps: seq<CString>, b: nat, n: nat): seq<nat>
    requires n <= |ps|
  {
    if n == 0 then Declared(base, b)
    else match Over(base, b, ps[n - 1]) case None => [] case Some(x) => Declared(base, x)
  }

  function LayersBelow(base: World, ps: seq<CString>, b: nat, n: nat): seq<nat>
    requires n <= |ps|
  {
    if n == 0 then [] else Layers(base, ps[..n - 1], b)
  }

  predicate HasLayer(base: World, ps: seq<CString>, b: nat, n: nat) {
    n <= |ps| && (n > 0 ==> Over(base, b, ps[n - 1]).Some?)
  }

  /** Layer `n` lies where the packages above it put it, and the layers below follow it there. */
  ghost predicate LayerPlaced(base: World, ps: seq<CString>, b: nat, n: nat)
    requires n <= |ps|
  {
    var j, s, blk := Overriding(base, ps, b, n), Stacked(base, ps), Block(base, ps, b);
    && j < |blk| && blk[j] < |s.spaces|
    && s.spaces[blk[j]].entries == LayerOf(base, ps, b, n)
    && Flat(s, blk[j + 1..]) == LayersBelow(base, ps, b, n)
  }

  lemma TopLayerPlaced(base: World, ps: seq<CString>, b: nat)
    requires IsBase(base) && Distinct(ps) && b < |base.spaces| && base.spaces[b].package == None
    requires HasLayer(base, ps, b, |ps|) && ps != []
    ensures LayerPlaced(base, ps, b, |ps|)
  {
    hide Stacked, IsBase, Layers;
    var below := ps[..|ps| - 1];
    var s, s', old_, blk := Stacked(base, ps), Stacked(base, below), Block(base, below, b), Block(base, ps, b);
    OneMore(base, ps, b);
    BlockRest(base, ps, b, 1);
    BlockFlat(base, below, b);
    assert Flat(s', old_) == s'.spaces[b].entries + Flat(s', old_[1..]);
    assert blk[1..][1..] == old_[1..] && blk[1..][0] == Over(base, b, ps[|ps| - 1]).value;
    assert Flat(s, blk[1..]) == s.spaces[blk[1]].entries + Flat(s, old_[1..]);
  }

  lemma SameLayer(base: World, ps: seq<CString>, b: nat, n: nat)
    requires n < |ps|
    ensures LayersBelow(base, ps, b, n) == LayersBelow(base, ps[..|ps| - 1], b, n)
    ensures LayerOf(base, ps, b, n) == LayerOf(base, ps[..|ps| - 1], b, n)
  {
    hide Layers, Over;
    var below := ps[..|ps| - 1];
    assert n > 0 ==> below[n - 1] == ps[n - 1] && below[..n - 1] == ps[..n - 1];
  }

  lemma LayerMoves(base: World, ps: seq<CString>, b: nat, n: nat)
    requires IsBase(base) && Distinct(ps) && b < |base.spaces| && base.spaces[b].package == None
    requires HasLayer(base, ps, b, n) && n < |ps| && LayerPlaced(base, ps[..|ps| - 1], b, n)
    ensures LayerPlaced(base, ps, b, n)
  {
    hide Stacked, IsBase, Layers, Flat, Over, LayerOf, LayersBelow, HasLayer;
    var below := ps[..|ps| - 1];
    var old_, blk := Block(base, below, b), Block(base, ps, b);
    var over := Over(base, b, ps[|ps| - 1]);
    OneMore(base, ps, b);
    BlockRest(base, ps, b, Overriding(base, below, b, n) + 1);
    BlockPackages(base, below, b);
    SameLayer(base, ps, b, n);
    var j, s, s' := Overriding(base, below, b, n), Stacked(base, ps), Stacked(base, below);
    assert j > 0 ==> s.spaces[old_[j]] == s'.spaces[old_[j]];
    if over.Some? {
      assert blk[j + 2..] == old_[j + 1..];
      assert blk[j + 1] == if j == 0 then over.value else old_[j];
    } else {
      assert blk == old_ && Overriding(base, ps, b, n) == j;
      assert s.spaces[blk[j]] == s'.spaces[blk[j]];
    }
  }

  lemma {:induction false} LayerPlace(base: World, ps: seq<CString>, b: nat, n: nat)
    requires IsBase(base) && Distinct(ps) && b < |base.spaces| && base.spaces[b].package == None
    requires HasLayer(base, ps, b, n)
    ensures LayerPlaced(base, ps, b, n)
    decreases |ps|
  {
    hide Stacked, IsBase, LayerPlaced, Over;
    if ps == [] {
      OwnLayerPlaced(base, b);
    } else if n == |ps| {
      TopLayerPlaced(base, ps, b);
    } else {
      assert n > 0 ==> ps[..|ps| - 1][n - 1] == ps[n - 1];
      LayerPlace(base, ps[..|ps| - 1], b, n);
      LayerMoves(base, ps, b, n);
    }
  }

  lemma OwnLayerPlaced(base: World, b: nat)
    requires b < |base.spaces|
    ensures LayerPlaced(base, [], b, 0)
  {
  }

  // ----- whole chains -----

  /** The physical chain for a chain of classes: their blocks, one after the other. */
  function FullChain(base: World, ps: seq<CString>, classes: seq<nat>): seq<nat> {
    if classes == [] then [] else Block(base, ps, classes[0]) + FullChain(base, ps, classes[1..])
  }

  lemma {:induction false} LayersHit(base: World, ps: seq<CString>, b: nat, f: CString)
    ensures Named(base.entries, Layers(base, ps, b), f) == LayerHit(base, ps, b, f)
    decreases |ps|
  {
    if ps != [] {
      var over := Over(base, b, ps[|ps| - 1]);
      LayersHit(base, ps[..|ps| - 1], b, f);
      NamedSplit(base.entries, if over.Some? then Declared(base, over.value) else [],
          Layers(base, ps[..|ps| - 1], b), f);
    }
  }

  lemma {:induction false} FullChainFlat(base: World, ps: seq<CString>, classes: seq<nat>, f: CString)
    requires IsBase(base) && Distinct(ps)
    requires forall i :: 0 <= i < |classes| ==> classes[i] < |base.spaces| && base.spaces[classes[i]].package == None
    ensures Named(base.entries, Flat(Stacked(base, ps), FullChain(base, ps, classes)), f)
        == Resolve(base, ps, classes, f)
  {
    hide Stacked, IsBase, Layers, LayerHit, Block;
    if classes != [] {
      FullChainFlat(base, ps, classes[1..], f);
      var s := Stacked(base, ps);
      var blk, rest := Block(base, ps, classes[0]), FullChain(base, ps, classes[1..]);
      BlockFlat(base, ps, classes[0]);
      FlatSplit(s, blk, rest);
      LayersHit(base, ps, classes[0], f);
      NamedSplit(base.entries, Flat(s, blk), Flat(s, rest), f);
    }
  }

  lemma {:induction false} FullChainLinked(base: World, ps: seq<CString>, classes: seq<nat>)
    requires IsBase(base) && Distinct(ps) && Chain(base, classes) && base.spaces[classes[0]].package == None
    ensures Chain(Stacked(base, ps), FullChain(base, ps, classes))
    ensures FullChain(base, ps, classes)[0] == classes[0]
    ensures forall i :: 0 <= i < |classes| ==> base.spaces[classes[i]].package == None
  {
    hide Stacked, Block;
    var blk := Block(base, ps, classes[0]);
    BlockIsLinked(base, ps, classes[0]);
    if |classes| == 1 {
      assert FullChain(base, ps, classes[1..]) == [];
      assert FullChain(base, ps, classes) == blk;
    } else {
      var up := base.spaces[classes[0]].parent;
      assert up == Some(classes[1]);
      assert Chain(base, classes[1..]);
      FullChainLinked(base, ps, classes[1..]);
      assert forall i :: 1 <= i < |classes| ==> classes[i] == classes[1..][i - 1];
    }
  }

  /**
    With any packages active, walking the parent chain of a namespace finds the entry of the most recently
    activated package that declares the function for it, else its own, else what its parent resolves.
   */
  lemma WalkResolves(base: World, ps: seq<CString>, classes: seq<nat>, f: CString)
    requires IsBase(base) && Distinct(ps) && Chain(base, classes) && base.spaces[classes[0]].package == None
    ensures Chain(Stacked(base, ps), FullChain(base, ps, classes))
    ensures FullChain(base, ps, classes)[0] == classes[0]
    ensures Named(Stacked(base, ps).entries, Flat(Stacked(base, ps), FullChain(base, ps, classes)), f)
         == Resolve(base, ps, classes, f)
  {
    hide Stacked, FullChain, Named, Flat;
    FullChainLinked(base, ps, classes);
    FullChainFlat(base, ps, classes, f);
    StackedNames(base, ps);
    NamedSame(Stacked(base, ps).entries, base.entries, Flat(Stacked(base, ps), FullChain(base, ps, classes)), f);
  }

  /**
    A function of layer `n` of a namespace runs in the scope of the entry's owner. The walk that a
    `Parent::` call starts at that owner's parent finds exactly what the layers below `n` declare, else
    what the parent class resolves: the next layer down, whatever is active above.
   */
  lemma ParentReachesNextLayer(base: World, ps: seq<CString>, classes: seq<nat>, n: nat, e: nat, f: CString)
    requires IsBase(base) && Distinct(ps) && Chain(base, classes) && base.spaces[classes[0]].package == None
    requires HasLayer(base, ps, classes[0], n) && e in LayerOf(base, ps, classes[0], n)
    ensures e < |base.entries|
    ensures var s, j, full := Stacked(base, ps), Overriding(base, ps, classes[0], n), FullChain(base, ps, classes);
      && j < |full| && s.entries[e].owner == full[j]
      && Named(s.entries, Flat(s, full[j + 1..]), f)
         == Or(if n == 0 then None else LayerHit(base, ps[..n - 1], classes[0], f), Resolve(base, ps, classes[1..], f))
  {
    hide Stacked, Named, Flat, Layers, LayerHit, Block, Resolve, Overriding, LayerOf, IsBase;
    var b, s := classes[0], Stacked(base, ps);
    var blk, rest, j := Block(base, ps, b), FullChain(base, ps, classes[1..]), Overriding(base, ps, b, n);
    LayerPlace(base, ps, b, n);
    StackedListed(base, ps, blk[j], e);
    FullChainLinked(base, ps, classes);
    assert FullChain(base, ps, classes)[j + 1..] == blk[j + 1..] + rest;
    FlatSplit(s, blk[j + 1..], rest);
    FullChainFlat(base, ps, classes[1..], f);
    NamedSplit(base.entries, Flat(s, blk[j + 1..]), Flat(s, rest), f);
    if n > 0 {
      LayersHit(base, ps[..n - 1], b, f);
    } else {
      NothingNamed(base.entries, f);
    }
    StackedNames(base, ps);
    NamedSame(s.entries, base.entries, Flat(s, blk[j + 1..] + rest), f);
  }

  lemma NothingNamed(entries: seq<Entry>, f: CString)
    ensures Named(entries, [], f) == None
  {
  }

  lemma StackedListed(base: World, ps: seq<CString>, x: nat, e: nat)
    requires IsBase(base) && x < |base.spaces| && e in Stacked(base, ps).spaces[x].entries
    ensures e < |base.entries| && Stacked(base, ps).entries[e].owner == x
  {
    StackedWf(base, ps);
    hide Stacked;
    Listed(Stacked(base, ps), x, e);
  }
}
