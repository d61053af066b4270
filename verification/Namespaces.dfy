/**
  Namespaces and packages. Activating a package splices its namespaces into the parent chains and swaps
  their entry lists with those of the namespaces they override.
 */
module Namespaces {
  import opened Values

  /** A name from the string table; none for the global namespace and for "no package". */
  type Name = Option<CString>

  /** A namespace record. Others refer to it by its place; the source's list runs from the last to the first. */
  datatype Space = Space(name: Name, package: Name, parent: Option<nat>, entries: seq<nat>)

  datatype Body = NoBody | Script(block: nat, offset: nat)

  /** A function entry; `owner` is the namespace whose list it is on, `package` the one it was declared in. */
  datatype Entry = Entry(name: CString, owner: nat, package: Name, body: Body)

  datatype World = World(spaces: seq<Space>, entries: seq<Entry>)

  // ----- finding -----

  /** The namespace of that name and package among the first `n`. */
  function IndexOf(spaces: seq<Space>, name: Name, package: Name, n: nat): (r: Option<nat>)
    requires n <= |spaces|
    ensures r.Some? ==> r.value < n && spaces[r.value].name == name && spaces[r.value].package == package
    ensures r.None? ==> forall i :: 0 <= i < n ==> spaces[i].name != name || spaces[i].package != package
  {
    if n == 0 then None
    else if spaces[n - 1].name == name && spaces[n - 1].package == package then Some(n - 1)
    else IndexOf(spaces, name, package, n - 1)
  }

  function Lookup(w: World, name: Name, package: Name): (r: Option<nat>)
    ensures r.Some? ==> r.value < |w.spaces| && w.spaces[r.value].name == name && w.spaces[r.value].package == package
    ensures r.None? ==> forall i :: 0 <= i < |w.spaces| ==> w.spaces[i].name != name || w.spaces[i].package != package
  {
    IndexOf(w.spaces, name, package, |w.spaces|)
  }

  /** `find`: a namespace that does not exist yet is made, empty. */
  function Found(w: World, name: Name, package: Name): (r: World)
    ensures Lookup(r, name, package).Some?
    ensures |w.spaces| <= |r.spaces| && r.spaces[..|w.spaces|] == w.spaces && r.entries == w.entries
  {
    if Lookup(w, name, package).Some? then w
    else
      var s := w.spaces + [Space(name, package, None, [])];
      assert IndexOf(s, name, package, |s|) == Some(|w.spaces|);
      World(s, w.entries)
  }

  ghost predicate LinksInside(w: World) {
    && (forall x :: 0 <= x < |w.spaces| && w.spaces[x].parent.Some? ==> w.spaces[x].parent.value < |w.spaces|)
    && (forall e :: 0 <= e < |w.entries| ==> w.entries[e].owner < |w.spaces|)
  }

  ghost predicate Unambiguous(w: World) {
    forall x, y :: 0 <= x < y < |w.spaces| ==>
      w.spaces[x].name != w.spaces[y].name || w.spaces[x].package != w.spaces[y].package
  }

  ghost predicate ListedByOwner(w: World) {
    forall x: nat, e: nat :: x < |w.spaces| && e in w.spaces[x].entries ==> e < |w.entries| && w.entries[e].owner == x
  }

  ghost predicate OwnerLists(w: World) {
    forall e: nat :: e < |w.entries| ==> w.entries[e].owner < |w.spaces| && e in w.spaces[w.entries[e].owner].entries
  }

  /**
    Links lead somewhere, no two namespaces share name and package, and every entry is on its owner's
    list and on no other.
   */
  ghost predicate Wf(w: World) {
    LinksInside(w) && Unambiguous(w) && ListedByOwner(w) && OwnerLists(w)
  }

  // ----- packages -----

  /** The namespace `x` trades with when package `p` is activated: its override, or what it overrides. */
  function Partner(w: World, p: CString, x: nat): (r: Option<nat>)
    requires x < |w.spaces|
    ensures r.Some? ==> r.value < |w.spaces| && w.spaces[r.value].name == w.spaces[x].name && r.value != x
    ensures r.Some? && w.spaces[x].package == None ==> w.spaces[r.value].package == Some(p)
    ensures r.Some? && w.spaces[x].package != None ==>
              w.spaces[x].package == Some(p) && w.spaces[r.value].package == None
  {
    if w.spaces[x].package == None then Lookup(w, w.spaces[x].name, Some(p))
    else if w.spaces[x].package == Some(p) then Lookup(w, w.spaces[x].name, None)
    else None
  }

  /** Whether `x` trades when the package's namespaces from place `from` on are treated. */
  predicate Trades(w: World, p: CString, from: nat, x: nat)
    requires x < |w.spaces|
  {
    var y := Partner(w, p, x);
    y.Some? && (if w.spaces[x].package == Some(p) then x else y.value) >= from
  }

  function NewOwner(w: World, p: CString, from: nat, x: nat): nat {
    if x < |w.spaces| && Trades(w, p, from, x) then Partner(w, p, x).value else x
  }

  function Owned(w: World, p: CString, from: nat): (r: seq<Entry>)
    ensures |r| == |w.entries|
    ensures forall e :: 0 <= e < |r| ==> r[e] == w.entries[e].(owner := NewOwner(w, p, from, w.entries[e].owner))
  {
    seq(|w.entries|, e requires 0 <= e < |w.entries| =>
      w.entries[e].(owner := NewOwner(w, p, from, w.entries[e].owner)))
  }

  function HookedSpace(w: World, p: CString, from: nat, x: nat): Space
    requires x < |w.spaces|
  {
    var s := w.spaces[x];
    if !Trades(w, p, from, x) then s
    else
      var y := Partner(w, p, x).value;
      s.(parent := if s.package == None then Some(y) else w.spaces[y].parent, entries := w.spaces[y].entries)
  }

  /** Package `p` active on top of everything in `w`, as far as its namespaces from `from` on go. */
  function Hooked(w: World, p: CString, from: nat): (r: World)
    ensures |r.spaces| == |w.spaces| && |r.entries| == |w.entries|
    ensures forall x :: 0 <= x < |r.spaces| ==> r.spaces[x] == HookedSpace(w, p, from, x)
    ensures r.entries == Owned(w, p, from)
  {
    World(seq(|w.spaces|, x requires 0 <= x < |w.spaces| => HookedSpace(w, p, from, x)), Owned(w, p, from))
  }

  function UnhookedSpace(w: World, p: CString, from: nat, x: nat): Space
    requires x < |w.spaces|
  {
    var s := w.spaces[x];
    if !Trades(w, p, from, x) then s
    else
      var y := Partner(w, p, x).value;
      s.(parent := if s.package == None then w.spaces[y].parent else None, entries := w.spaces[y].entries)
  }

  /** `w` with package `p`, the topmost active one, taken off again. */
  function Unhooked(w: World, p: CString, from: nat): (r: World)
    ensures |r.spaces| == |w.spaces| && |r.entries| == |w.entries|
    ensures forall x :: 0 <= x < |r.spaces| ==> r.spaces[x] == UnhookedSpace(w, p, from, x)
    ensures r.entries == Owned(w, p, from)
  {
    World(seq(|w.spaces|, x requires 0 <= x < |w.spaces| => UnhookedSpace(w, p, from, x)), Owned(w, p, from))
  }

  /** The logical table `base` with the packages `ps` active, the last one on top. */
  function Stacked(base: World, ps: seq<CString>): (r: World)
    ensures |r.spaces| == |base.spaces| && |r.entries| == |base.entries|
    ensures forall x :: 0 <= x < |r.spaces| ==>
      r.spaces[x].name == base.spaces[x].name && r.spaces[x].package == base.spaces[x].package
    decreases |ps|
  {
    if ps == [] then base else Hooked(Stacked(base, ps[..|ps| - 1]), ps[|ps| - 1], 0)
  }

  /** The namespaces from `c[0]` up, each the parent of the one before, to the one without a parent. */
  ghost predicate Chain(w: World, c: seq<nat>) {
    && c != []
    && (forall i :: 0 <= i < |c| ==> c[i] < |w.spaces|)
    && (forall i :: 0 <= i < |c| - 1 ==> w.spaces[c[i]].parent == Some(c[i + 1]))
    && w.spaces[c[|c| - 1]].parent == None
  }

  ghost predicate HasChain(w: World, x: nat) {
    exists c :: Chain(w, c) && c[0] == x
  }

  /** Parents never run in a circle: from every namespace the way up ends. */
  ghost predicate Grounded(w: World) {
    forall x: nat :: x < |w.spaces| ==> HasChain(w, x)
  }

  /** The way up from a namespace. */
  ghost function ChainOf(w: World, x: nat): (c: seq<nat>)
    requires HasChain(w, x)
    ensures Chain(w, c) && c[0] == x
  {
    var c :| Chain(w, c) && c[0] == x;
    c
  }

  /** A table nothing is active in: overrides hang loose, classes derive from classes, and none from itself. */
  ghost predicate IsBase(w: World) {
    Loose(w) && Grounded(w)
  }

  ghost predicate Loose(w: World) {
    && Wf(w)
    && (forall x :: 0 <= x < |w.spaces| && w.spaces[x].package.Some? ==> w.spaces[x].parent == None)
    && (forall x :: 0 <= x < |w.spaces| && w.spaces[x].parent.Some? ==>
          w.spaces[x].parent.value < |w.spaces| && w.spaces[w.spaces[x].parent.value].package == None)
  }

  ghost predicate Distinct(ps: seq<CString>) {
    forall i, j :: 0 <= i < j < |ps| ==> ps[i] != ps[j]
  }

  /** Every namespace of package `p` has the one it overrides. */
  ghost predicate Based(w: World, p: CString) {
    forall x :: 0 <= x < |w.spaces| && w.spaces[x].package == Some(p) ==> Lookup(w, w.spaces[x].name, None).Some?
  }

  // ----- activation and deactivation undo each other -----

  lemma {:induction false} IndexOfSame(a: seq<Space>, b: seq<Space>, name: Name, package: Name, n: nat)
    requires n <= |a| == |b|
    requires forall x :: 0 <= x < |a| ==> a[x].name == b[x].name && a[x].package == b[x].package
    ensures IndexOf(a, name, package, n) == IndexOf(b, name, package, n)
  {
    if n > 0 {
      IndexOfSame(a, b, name, package, n - 1);
    }
  }

  /** Who trades with whom depends on names and packages alone. */
  lemma PartnersSame(v: World, w: World, p: CString, from: nat)
    requires |v.spaces| == |w.spaces|
    requires forall x :: 0 <= x < |v.spaces| ==>
      v.spaces[x].name == w.spaces[x].name && v.spaces[x].package == w.spaces[x].package
    ensures forall x :: 0 <= x < |v.spaces| ==>
      Partner(v, p, x) == Partner(w, p, x) && Trades(v, p, from, x) == Trades(w, p, from, x)
    ensures forall name: Name, package: Name :: Lookup(v, name, package) == Lookup(w, name, package)
  {
    forall name: Name, package: Name ensures Lookup(v, name, package) == Lookup(w, name, package) {
      IndexOfSame(v.spaces, w.spaces, name, package, |v.spaces|);
    }
  }

  /** Trading is mutual. */
  lemma TradesBack(w: World, p: CString, from: nat, x: nat)
    requires Wf(w) && x < |w.spaces| && Trades(w, p, from, x)
    ensures var y := Partner(w, p, x).value; Partner(w, p, y) == Some(x) && Trades(w, p, from, y)
  {
  }

  /** Package `p` is not active: its namespaces have no parent. */
  ghost predicate Idle(w: World, p: CString) {
    forall x :: 0 <= x < |w.spaces| && w.spaces[x].package == Some(p) ==> w.spaces[x].parent == None
  }

  lemma UnhookInverts(w: World, p: CString)
    requires Wf(w) && Idle(w, p)
    ensures Unhooked(Hooked(w, p, 0), p, 0) == w
  {
    var h := Hooked(w, p, 0);
    PartnersSame(h, w, p, 0);
    var u := Unhooked(h, p, 0);
    forall x | 0 <= x < |w.spaces| ensures u.spaces[x] == w.spaces[x] {
      if Trades(w, p, 0, x) {
        TradesBack(w, p, 0, x);
      }
    }
    forall e | 0 <= e < |w.entries| ensures u.entries[e] == w.entries[e] {
      var x := w.entries[e].owner;
      if Trades(w, p, 0, x) {
        TradesBack(w, p, 0, x);
      }
    }
    assert u.spaces == w.spaces && u.entries == w.entries;
  }

  lemma Listed(w: World, x: nat, e: nat)
    requires Wf(w) && x < |w.spaces| && e in w.spaces[x].entries
    ensures e < |w.entries| && w.entries[e].owner == x
  {
  }

  lemma HookedListed(w: World, p: CString, from: nat, x: nat, e: nat)
    requires Wf(w) && x < |w.spaces| && e in Hooked(w, p, from).spaces[x].entries
    ensures e < |w.entries| && Hooked(w, p, from).entries[e].owner == x
  {
    if Trades(w, p, from, x) {
      TradesBack(w, p, from, x);
      Listed(w, Partner(w, p, x).value, e);
    } else {
      Listed(w, x, e);
    }
  }

  lemma HookedLinks(w: World, p: CString, from: nat)
    requires LinksInside(w)
    ensures LinksInside(Hooked(w, p, from))
  {
  }

  lemma HookedOwners(w: World, p: CString, from: nat)
    requires Wf(w)
    ensures OwnerLists(Hooked(w, p, from))
  {
    var h := Hooked(w, p, from);
    forall e: nat | e < |h.entries|
      ensures h.entries[e].owner < |h.spaces| && e in h.spaces[h.entries[e].owner].entries {
      var o := w.entries[e].owner;
      assert h.entries[e].owner == NewOwner(w, p, from, o) && e in w.spaces[o].entries;
      if Trades(w, p, from, o) {
        TradesBack(w, p, from, o);
      }
    }
  }

  lemma HookedWf(w: World, p: CString, from: nat)
    requires Wf(w)
    ensures Wf(Hooked(w, p, from))
  {
    var h := Hooked(w, p, from);
    HookedLinks(w, p, from);
    HookedOwners(w, p, from);
    forall x: nat, e: nat {:trigger e in h.spaces[x].entries} | x < |h.spaces| && e in h.spaces[x].entries
      ensures e < |h.entries| && h.entries[e].owner == x
    {
      HookedListed(w, p, from, x, e);
    }
    assert ListedByOwner(h);
    forall x, y | 0 <= x < y < |h.spaces|
      ensures h.spaces[x].name != h.spaces[y].name || h.spaces[x].package != h.spaces[y].package
    {
      assert h.spaces[x] == HookedSpace(w, p, from, x) && h.spaces[y] == HookedSpace(w, p, from, y);
    }
  }

  lemma {:induction false} StackedWf(base: World, ps: seq<CString>)
    requires Wf(base)
    ensures Wf(Stacked(base, ps))
    decreases |ps|
  {
    if ps != [] {
      StackedWf(base, ps[..|ps| - 1]);
      HookedWf(Stacked(base, ps[..|ps| - 1]), ps[|ps| - 1], 0);
    }
  }

  /** A package not among the active ones is as in the table. */
  lemma {:induction false} StackedIdle(base: World, ps: seq<CString>, p: CString)
    requires IsBase(base) && p !in ps
    ensures Idle(Stacked(base, ps), p)
    ensures forall x :: 0 <= x < |base.spaces| && base.spaces[x].package == Some(p) ==>
      Stacked(base, ps).spaces[x] == base.spaces[x]
    decreases |ps|
  {
    if ps != [] {
      assert p !in ps[..|ps| - 1] && p != ps[|ps| - 1];
      StackedIdle(base, ps[..|ps| - 1], p);
    }
  }

  /** Taking off the topmost package leaves exactly the world of the packages before it. */
  lemma TopComesOff(base: World, ps: seq<CString>)
    requires IsBase(base) && Distinct(ps) && ps != []
    ensures Unhooked(Stacked(base, ps), ps[|ps| - 1], 0) == Stacked(base, ps[..|ps| - 1])
  {
    hide Unhooked, Hooked;
    var below := ps[..|ps| - 1];
    StackedWf(base, below);
    StackedIdle(base, below, ps[|ps| - 1]);
    UnhookInverts(Stacked(base, below), ps[|ps| - 1]);
  }
}
