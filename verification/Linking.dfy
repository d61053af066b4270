/** Giving a class a parent while packages are active. */
module Linking {
  import opened Values
  import opened Namespaces
  import opened Chains
  import opened Resolution
  import opened PackageSteps
  import opened PackageRounds

  /** The lowest layer of a class: the one whose parent is the class's own. */
  function Lowest(base: World, ps: seq<CString>, x: nat): nat {
    Block(base, ps, x)[|Block(base, ps, x)| - 1]
  }

  /** Linking below an activation is linking, above it, the override the parent went to. */
  lemma LinkedUnderHook(w: World, p: CString, z: nat, parent: Option<nat>)
    requires Wf(w) && z < |w.spaces| && w.spaces[z].package != Some(p)
    ensures NewOwner(w, p, 0, z) < |w.spaces|
    ensures Hooked(WithParent(w, z, parent), p, 0) == WithParent(Hooked(w, p, 0), NewOwner(w, p, 0, z), parent)
  {
    hide Wf, IndexOf;
    var l, h, y := WithParent(w, z, parent), Hooked(w, p, 0), NewOwner(w, p, 0, z);
    var a, b := Hooked(l, p, 0), WithParent(h, y, parent);
    PartnersSame(l, w, p, 0);
    if Trades(w, p, 0, z) {
      TradesBack(w, p, 0, z);
    }
    forall v: nat | v < |w.spaces| ensures a.spaces[v] == b.spaces[v] {
      assert a.spaces[v] == HookedSpace(l, p, 0, v) && h.spaces[v] == HookedSpace(w, p, 0, v);
      if Trades(w, p, 0, v) {
        TradesBack(w, p, 0, v);
      }
    }
    assert a.spaces == b.spaces;
    assert forall v :: 0 <= v < |w.spaces| ==> NewOwner(l, p, 0, v) == NewOwner(w, p, 0, v);
    assert a.entries == b.entries;
  }

  /** One more package moves the lowest layer only if it is the first to override the class. */
  lemma LowestMoves(base: World, ps: seq<CString>, x: nat)
    requires IsBase(base) && Distinct(ps) && ps != [] && x < |base.spaces| && base.spaces[x].package == None
    ensures var below := ps[..|ps| - 1];
      var s, z := Stacked(base, below), Lowest(base, below, x);
      z < |base.spaces| && s.spaces[z].package != Some(ps[|ps| - 1])
      && Lowest(base, ps, x) == NewOwner(s, ps[|ps| - 1], 0, z)
  {
    hide Wf, IndexOf, Stacked, Grounded;
    var below, p := ps[..|ps| - 1], ps[|ps| - 1];
    var s, blk := Stacked(base, below), Block(base, below, x);
    TopIsNew(ps);
    BlockPackages(base, below, x);
    PartnersSame(s, base, p, 0);
  }

  /** Linking or unlinking a class's lowest layer is linking or unlinking the class in the table. */
  lemma {:induction false} LinkedStacked(base: World, ps: seq<CString>, x: nat, parent: Option<nat>)
    requires IsBase(base) && Distinct(ps) && x < |base.spaces| && base.spaces[x].package == None
    ensures Lowest(base, ps, x) < |base.spaces|
    ensures WithParent(Stacked(base, ps), Lowest(base, ps, x), parent) == Stacked(WithParent(base, x, parent), ps)
    decreases |ps|
  {
    hide Wf, Stacked, Hooked, NewOwner, Block, Grounded;
    if ps == [] {
      StackedNone(base);
      StackedNone(WithParent(base, x, parent));
      assert Block(base, ps, x) == [x] by { BlockAlone(base, x); }
    } else {
      var below, p := ps[..|ps| - 1], ps[|ps| - 1];
      TopIsNew(ps);
      LinkedStacked(base, below, x, parent);
      LowestMoves(base, ps, x);
      StackedWf(base, below);
      LinkedUnderHook(Stacked(base, below), p, Lowest(base, below, x), parent);
      StackedUnfolds(base, ps);
      StackedUnfolds(WithParent(base, x, parent), ps);
    }
  }

  lemma BlockAlone(base: World, x: nat)
    ensures Block(base, [], x) == [x]
  {
  }

  /** All layers of a class have its name; the parent of the class has another. */
  lemma {:induction false} BlockNames(base: World, ps: seq<CString>, x: nat)
    requires x < |base.spaces|
    ensures forall i :: 0 <= i < |Block(base, ps, x)| ==>
        var y := Block(base, ps, x)[i]; y < |base.spaces| && base.spaces[y].name == base.spaces[x].name
    decreases |ps|
  {
    if ps != [] {
      BlockNames(base, ps[..|ps| - 1], x);
    }
  }

  lemma ParentHasOtherName(base: World, x: nat)
    requires IsBase(base) && x < |base.spaces| && base.spaces[x].package == None && base.spaces[x].parent.Some?
    ensures var y := base.spaces[x].parent.value; y < |base.spaces| && base.spaces[y].name != base.spaces[x].name
  {
    hide Grounded;
    var y := base.spaces[x].parent.value;
    if base.spaces[y].name == base.spaces[x].name {
      assert y == x;
      GroundedAt(base, x);
      var c := ChainOf(base, x);
      ChainTail(base, c, 1);
      ChainsAgree(base, c, c[1..]);
    }
  }

  lemma LinkedReady(base: World, ps: seq<CString>, x: nat, parent: Option<nat>)
    requires x < |base.spaces| && Ready(base, ps)
    ensures Ready(WithParent(base, x, parent), ps)
  {
    hide IndexOf;
    PartnersSame(WithParent(base, x, parent), base, "", 0);
    forall i | 0 <= i < |ps| ensures Based(WithParent(base, x, parent), ps[i]) {
      assert Based(base, ps[i]);
    }
  }
}
