/** One namespace at a time: what the loops of package activation and deactivation do between two rounds. */
module PackageSteps {
  import opened Values
  import opened Namespaces
  import opened Chains

  /** Every entry on the list gets a new owner. */
  function Reowned(entries: seq<Entry>, list: seq<nat>, x: nat): (r: seq<Entry>)
    ensures |r| == |entries|
    ensures forall e :: 0 <= e < |r| ==> r[e] == if e in list then entries[e].(owner := x) else entries[e]
  {
    seq(|entries|, e requires 0 <= e < |entries| => if e in list then entries[e].(owner := x) else entries[e])
  }

  /** `walk` goes between `parent` and its parent, and the two swap their entries. */
  function HookOne(w: World, walk: nat, parent: nat): World
    requires walk < |w.spaces| && parent < |w.spaces| && walk != parent
  {
    var a, b := w.spaces[walk], w.spaces[parent];
    World(w.spaces[walk := a.(parent := b.parent, entries := b.entries)]
                  [parent := b.(parent := Some(walk), entries := a.entries)],
          Reowned(Reowned(w.entries, b.entries, walk), a.entries, parent))
  }

  /** `walk` leaves the chain, and the two swap their entries. */
  function UnhookOne(w: World, walk: nat, parent: nat): World
    requires walk < |w.spaces| && parent < |w.spaces| && walk != parent
  {
    var a, b := w.spaces[walk], w.spaces[parent];
    World(w.spaces[walk := a.(parent := None, entries := b.entries)]
                  [parent := b.(parent := a.parent, entries := a.entries)],
          Reowned(Reowned(w.entries, b.entries, walk), a.entries, parent))
  }

  /** The places that trade from `i` on but not from `i + 1` on: `i` and what it overrides. */
  lemma TradesFrom(w: World, p: CString, i: nat, b: nat)
    requires Wf(w) && i < |w.spaces| && w.spaces[i].package == Some(p) && Lookup(w, w.spaces[i].name, None) == Some(b)
    ensures b < |w.spaces| && w.spaces[b].package == None && b != i
    ensures Partner(w, p, i) == Some(b) && Partner(w, p, b) == Some(i)
    ensures forall x :: 0 <= x < |w.spaces| ==>
      && (x == i || x == b ==> Trades(w, p, i, x) && !Trades(w, p, i + 1, x))
      && (x != i && x != b ==> Trades(w, p, i, x) == Trades(w, p, i + 1, x))
  {
    TradesBack(w, p, i, i);
    forall x | 0 <= x < |w.spaces| ensures Partner(w, p, x) == Some(i) ==> x == b {
      if Partner(w, p, x) == Some(i) {
        TradesBack(w, p, 0, x);
      }
    }
  }

  /** A namespace of another package, or of none, starts no trade. */
  lemma NoTradeFrom(w: World, p: CString, i: nat)
    requires i < |w.spaces| && w.spaces[i].package != Some(p)
    ensures forall x :: 0 <= x < |w.spaces| ==> Trades(w, p, i, x) == Trades(w, p, i + 1, x)
    ensures Hooked(w, p, i) == Hooked(w, p, i + 1) && Unhooked(w, p, i) == Unhooked(w, p, i + 1)
  {
    assert Hooked(w, p, i).spaces == Hooked(w, p, i + 1).spaces;
    assert Unhooked(w, p, i).spaces == Unhooked(w, p, i + 1).spaces;
    assert Owned(w, p, i) == Owned(w, p, i + 1);
  }

  /** Past the last namespace nothing trades. */
  lemma NothingTrades(w: World, p: CString)
    ensures Hooked(w, p, |w.spaces|) == w && Unhooked(w, p, |w.spaces|) == w
  {
    assert Hooked(w, p, |w.spaces|).spaces == w.spaces;
    assert Unhooked(w, p, |w.spaces|).spaces == w.spaces;
    assert Owned(w, p, |w.spaces|) == w.entries;
  }

  /** The owners after the two lists changed hands. */
  lemma OwnersStep(w: World, p: CString, i: nat, b: nat)
    requires Wf(w) && i < |w.spaces| && w.spaces[i].package == Some(p) && Lookup(w, w.spaces[i].name, None) == Some(b)
    ensures b < |w.spaces|
    ensures Reowned(Reowned(Owned(w, p, i + 1), w.spaces[b].entries, i), w.spaces[i].entries, b) == Owned(w, p, i)
  {
    TradesFrom(w, p, i, b);
    var r := Reowned(Reowned(Owned(w, p, i + 1), w.spaces[b].entries, i), w.spaces[i].entries, b);
    forall e: nat | e < |w.entries| ensures r[e] == Owned(w, p, i)[e] {
      var o := w.entries[e].owner;
      assert e in w.spaces[o].entries;
      assert e in w.spaces[b].entries ==> o == b;
      assert e in w.spaces[i].entries ==> o == i;
      assert Owned(w, p, i)[e] == w.entries[e].(owner := NewOwner(w, p, i, o));
      assert Owned(w, p, i + 1)[e] == w.entries[e].(owner := NewOwner(w, p, i + 1, o));
    }
  }

  lemma HookStep(w: World, p: CString, i: nat, b: nat)
    requires Wf(w) && i < |w.spaces| && w.spaces[i].package == Some(p) && Lookup(w, w.spaces[i].name, None) == Some(b)
    ensures b < |w.spaces| && b != i
    ensures HookOne(Hooked(w, p, i + 1), i, b) == Hooked(w, p, i)
    ensures var h := Hooked(w, p, i + 1);
      Lookup(h, w.spaces[i].name, None) == Some(b) && h.spaces[i] == w.spaces[i] && h.spaces[b] == w.spaces[b]
  {
    TradesFrom(w, p, i, b);
    OwnersStep(w, p, i, b);
    var h, k := Hooked(w, p, i + 1), Hooked(w, p, i);
    PartnersSame(h, w, p, i);
    var o := HookOne(h, i, b);
    assert h.spaces[i] == w.spaces[i] && h.spaces[b] == w.spaces[b];
    forall x | 0 <= x < |w.spaces| ensures o.spaces[x] == k.spaces[x] {
      assert k.spaces[x] == HookedSpace(w, p, i, x) && h.spaces[x] == HookedSpace(w, p, i + 1, x);
    }
    assert o.spaces == k.spaces;
  }

  lemma UnhookStep(w: World, p: CString, i: nat, b: nat)
    requires Wf(w) && i < |w.spaces| && w.spaces[i].package == Some(p) && Lookup(w, w.spaces[i].name, None) == Some(b)
    ensures b < |w.spaces| && b != i
    ensures UnhookOne(Unhooked(w, p, i + 1), i, b) == Unhooked(w, p, i)
    ensures var h := Unhooked(w, p, i + 1);
      Lookup(h, w.spaces[i].name, None) == Some(b) && h.spaces[i] == w.spaces[i] && h.spaces[b] == w.spaces[b]
  {
    TradesFrom(w, p, i, b);
    OwnersStep(w, p, i, b);
    var h, k := Unhooked(w, p, i + 1), Unhooked(w, p, i);
    PartnersSame(h, w, p, i);
    var o := UnhookOne(h, i, b);
    assert h.spaces[i] == w.spaces[i] && h.spaces[b] == w.spaces[b];
    forall x | 0 <= x < |w.spaces| ensures o.spaces[x] == k.spaces[x] {
      assert k.spaces[x] == UnhookedSpace(w, p, i, x) && h.spaces[x] == UnhookedSpace(w, p, i + 1, x);
    }
    assert o.spaces == k.spaces;
  }

  // ----- namespaces made on the way -----

  lemma {:induction false} IndexOfPrefix(s: seq<Space>, t: Space, name: Name, package: Name, n: nat)
    requires n <= |s|
    ensures IndexOf(s + [t], name, package, n) == IndexOf(s, name, package, n)
  {
    if n > 0 {
      IndexOfPrefix(s, t, name, package, n - 1);
    }
  }

  /** A new namespace is found under its own name and package and changes no other lookup. */
  lemma LookupFound(w: World, n: Name, q: Name, name: Name, package: Name)
    ensures name != n || package != q ==> Lookup(Found(w, n, q), name, package) == Lookup(w, name, package)
    ensures Lookup(w, n, q).None? ==> Lookup(Found(w, n, q), n, q) == Some(|w.spaces|)
  {
    if Lookup(w, n, q).None? {
      IndexOfPrefix(w.spaces, Space(n, q, None, []), name, package, |w.spaces|);
    }
  }

  lemma FoundWf(w: World, name: Name, package: Name)
    requires Wf(w)
    ensures Wf(Found(w, name, package))
    ensures IsBase(w) ==> IsBase(Found(w, name, package))
  {
    hide Grounded;
    var f := Found(w, name, package);
    if IsBase(w) {
      FoundGrounded(w, name, package);
    }
    forall x: nat, e: nat {:trigger e in f.spaces[x].entries} | x < |f.spaces| && e in f.spaces[x].entries
      ensures e < |f.entries| && f.entries[e].owner == x
    {
      if x < |w.spaces| {
        Listed(w, x, e);
      }
    }
  }

  /** The trades of a world do not change when a namespace nobody there trades with is added. */
  lemma FoundTrades(w: World, p: CString, from: nat, n: Name)
    requires Wf(w) && Lookup(w, n, None).None?
    requires forall x :: from <= x < |w.spaces| && w.spaces[x].package == Some(p) ==> w.spaces[x].name != n
    ensures var f := Found(w, n, None);
      && |f.spaces| == |w.spaces| + 1 && !Trades(f, p, from, |w.spaces|)
      && forall x :: 0 <= x < |w.spaces| ==>
        && Trades(f, p, from, x) == Trades(w, p, from, x)
        && (Trades(w, p, from, x) ==> Partner(w, p, x).Some? && Partner(f, p, x) == Partner(w, p, x))
  {
    var f := Found(w, n, None);
    forall x | 0 <= x < |w.spaces|
      ensures Trades(f, p, from, x) == Trades(w, p, from, x)
      ensures Trades(w, p, from, x) ==> Partner(f, p, x) == Partner(w, p, x)
    {
      LookupFound(w, n, None, w.spaces[x].name, Some(p));
      LookupFound(w, n, None, w.spaces[x].name, None);
    }
    LookupFound(w, n, None, n, Some(p));
  }

  /** Making the base of namespace `i`, which has not been treated yet, before or after treating the others. */
  lemma FoundHooked(w: World, p: CString, from: nat, n: Name)
    requires Wf(w)
    requires forall x :: from <= x < |w.spaces| && w.spaces[x].package == Some(p) ==> w.spaces[x].name != n
    ensures Found(Hooked(w, p, from), n, None) == Hooked(Found(w, n, None), p, from)
  {
    hide Trades, Partner, IndexOf, Wf;
    var h, f := Hooked(w, p, from), Found(w, n, None);
    PartnersSame(h, w, p, from);
    if Lookup(w, n, None).None? {
      var g := Hooked(f, p, from);
      FoundTrades(w, p, from, n);
      assert f.spaces == w.spaces + [Space(n, None, None, [])];
      assert Found(h, n, None).spaces == h.spaces + [Space(n, None, None, [])];
      forall x | 0 <= x < |w.spaces| ensures g.spaces[x] == h.spaces[x] {
        assert g.spaces[x] == HookedSpace(f, p, from, x) && h.spaces[x] == HookedSpace(w, p, from, x);
      }
      assert g.spaces == h.spaces + [Space(n, None, None, [])];
      OwnersInside(w);
      assert g.entries == h.entries;
    }
  }

  lemma OwnersInside(w: World)
    requires Wf(w)
    ensures forall e :: 0 <= e < |w.entries| ==> w.entries[e].owner < |w.spaces|
  {
  }

  ghost predicate Ready(w: World, ps: seq<CString>) {
    forall i :: 0 <= i < |ps| ==> Based(w, ps[i])
  }

  /** Making a namespace under active packages is making it in the table. */
  lemma {:induction false} FoundStacked(w: World, ps: seq<CString>, n: Name)
    requires Wf(w) && Ready(w, ps)
    ensures Found(Stacked(w, ps), n, None) == Stacked(Found(w, n, None), ps)
    decreases |ps|
  {
    hide Stacked, Hooked, Partner, Trades, IndexOf, Wf, Found, Lookup, Based;
    if ps == [] {
      StackedNone(w);
      StackedNone(Found(w, n, None));
    } else {
      var below, q := ps[..|ps| - 1], ps[|ps| - 1];
      assert Based(w, q) && Ready(w, below);
      FoundStacked(w, below, n);
      StackedWf(w, below);
      StackedUnfolds(w, ps);
      StackedUnfolds(Found(w, n, None), ps);
      FoundUnderHook(w, below, q, n);
    }
  }

  lemma StackedNone(w: World)
    ensures Stacked(w, []) == w
  {
  }

  lemma FoundUnderHook(w: World, below: seq<CString>, q: CString, n: Name)
    requires Wf(Stacked(w, below)) && Based(w, q)
    ensures Found(Hooked(Stacked(w, below), q, 0), n, None) == Hooked(Found(Stacked(w, below), n, None), q, 0)
  {
    hide Stacked, IndexOf, Wf, Trades, Partner, Hooked;
    var s := Stacked(w, below);
    PartnersSame(s, w, q, 0);
    PartnersSame(Hooked(s, q, 0), s, q, 0) by {
      assert forall x :: 0 <= x < |s.spaces| ==> Hooked(s, q, 0).spaces[x] == HookedSpace(s, q, 0, x);
    }
    if Lookup(w, n, None).None? {
      FoundHooked(s, q, 0, n);
    }
  }

  lemma StackedUnfolds(w: World, ps: seq<CString>)
    requires ps != []
    ensures Stacked(w, ps) == Hooked(Stacked(w, ps[..|ps| - 1]), ps[|ps| - 1], 0)
  {
  }

  /** The table after an activation has made the namespaces its package overrides but nobody declared. */
  function WithBases(w: World, p: CString, i: nat): (r: World)
    requires i <= |w.spaces|
    ensures |w.spaces| <= |r.spaces| && r.spaces[..|w.spaces|] == w.spaces && r.entries == w.entries
    decreases |w.spaces| - i
  {
    if i == |w.spaces| then w
    else
      var above := WithBases(w, p, i + 1);
      if w.spaces[i].package == Some(p) then Found(above, w.spaces[i].name, None) else above
  }

  /** Those namespaces are empty, and only namespaces without a package are made. */
  lemma {:induction false} BasesAreEmpty(w: World, p: CString, i: nat)
    requires i <= |w.spaces|
    ensures forall x :: |w.spaces| <= x < |WithBases(w, p, i).spaces| ==>
      var s := WithBases(w, p, i).spaces[x]; s.package == None && s.entries == [] && s.parent == None
    ensures forall name: Name, q: CString :: Lookup(WithBases(w, p, i), name, Some(q)) == Lookup(w, name, Some(q))
    ensures forall name: Name :: Lookup(w, name, None).Some? ==>
        Lookup(WithBases(w, p, i), name, None) == Lookup(w, name, None)
    decreases |w.spaces| - i
  {
    hide IndexOf;
    if i < |w.spaces| {
      BasesAreEmpty(w, p, i + 1);
      var above, n := WithBases(w, p, i + 1), w.spaces[i].name;
      forall name: Name, q: CString
        ensures Lookup(Found(above, n, None), name, Some(q)) == Lookup(above, name, Some(q)) {
        LookupFound(above, n, None, name, Some(q));
      }
      forall name: Name
        ensures Lookup(above, name, None).Some? ==>
          Lookup(Found(above, n, None), name, None) == Lookup(above, name, None)
      {
        LookupFound(above, n, None, name, None);
      }
    }
  }

  lemma {:induction false} BasesMade(w: World, p: CString, i: nat)
    requires i <= |w.spaces|
    ensures forall x :: i <= x < |w.spaces| && w.spaces[x].package == Some(p) ==>
      Lookup(WithBases(w, p, i), w.spaces[x].name, None).Some?
    ensures IsBase(w) ==> IsBase(WithBases(w, p, i))
    decreases |w.spaces| - i
  {
    hide IndexOf, IsBase;
    if i < |w.spaces| {
      BasesMade(w, p, i + 1);
      var above, n := WithBases(w, p, i + 1), w.spaces[i].name;
      forall name: Name ensures Lookup(above, name, None).Some? ==> Lookup(Found(above, n, None), name, None).Some? {
        LookupFound(above, n, None, name, None);
      }
      if IsBase(w) {
        IsBaseWf(above);
        FoundWf(above, n, None);
      }
    }
  }

  lemma IsBaseWf(w: World)
    ensures IsBase(w) ==> Wf(w)
  {
  }

  /** The table is ready for the active packages and for the one whose bases have been made. */
  lemma BasesReady(w: World, ps: seq<CString>, p: CString)
    requires Ready(w, ps)
    ensures Ready(WithBases(w, p, 0), ps + [p])
  {
    hide Lookup, WithBases;
    var r := WithBases(w, p, 0);
    BasesAreEmpty(w, p, 0);
    BasesMade(w, p, 0);
    forall i | 0 <= i <= |ps| ensures Based(r, (ps + [p])[i]) {
      var q := (ps + [p])[i];
      assert i < |ps| ==> Based(w, q);
      forall x | 0 <= x < |r.spaces| && r.spaces[x].package == Some(q) ensures Lookup(r, r.spaces[x].name, None).Some? {
        assert r.spaces[x] == r.spaces[..|w.spaces|][x] == w.spaces[x];
      }
    }
  }

  lemma {:induction false} ReadyFrom(w: World, ps: seq<CString>, p: CString, i: nat)
    requires Ready(w, ps) && i <= |w.spaces|
    ensures Ready(WithBases(w, p, i), ps)
  {
    hide Lookup, WithBases;
    var r := WithBases(w, p, i);
    BasesAreEmpty(w, p, i);
    forall k | 0 <= k < |ps| ensures Based(r, ps[k]) {
      assert Based(w, ps[k]);
      forall x | 0 <= x < |r.spaces| && r.spaces[x].package == Some(ps[k])
        ensures Lookup(r, r.spaces[x].name, None).Some? {
        assert r.spaces[x] == r.spaces[..|w.spaces|][x] == w.spaces[x];
      }
    }
  }
}
