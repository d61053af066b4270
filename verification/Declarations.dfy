/** Declaring a function in a namespace, with or without packages active. */
module Declarations {
  import opened Values
  import opened Namespaces
  import opened Chains
  import opened Resolution
  import opened PackageSteps

  /** A function declared in namespace `x`: its entry there is reused, or one is put in front. */
  function Added(w: World, x: nat, package: Name, name: CString, body: Body): World
    requires x < |w.spaces|
  {
    match Named(w.entries, w.spaces[x].entries, name)
    case Some(e) => World(w.spaces, w.entries[e := w.entries[e].(body := body)])
    case None =>
      World(w.spaces[x := w.spaces[x].(entries := [|w.entries|] + w.spaces[x].entries)],
            w.entries + [Entry(name, x, package, body)])
  }

  lemma AddedWf(w: World, x: nat, package: Name, name: CString, body: Body)
    requires Wf(w) && x < |w.spaces|
    ensures Wf(Added(w, x, package, name, body))
    ensures IsBase(w) ==> IsBase(Added(w, x, package, name, body))
  {
    hide Grounded;
    var a := Added(w, x, package, name, body);
    SameParents(a, w);
    forall y: nat, e: nat {:trigger e in a.spaces[y].entries} | y < |a.spaces| && e in a.spaces[y].entries
      ensures e < |a.entries| && a.entries[e].owner == y
    {
      if e < |w.entries| {
        assert e in w.spaces[y].entries;
        Listed(w, y, e);
      } else {
        assert e in w.spaces[y].entries ==> e < |w.entries| by { if e in w.spaces[y].entries { Listed(w, y, e); } }
      }
    }
    forall e: nat | e < |a.entries|
      ensures a.entries[e].owner < |a.spaces| && e in a.spaces[a.entries[e].owner].entries {
      if e < |w.entries| {
        assert e in w.spaces[w.entries[e].owner].entries;
      }
    }
  }

  lemma AddedNames(w: World, x: nat, package: Name, name: CString, body: Body)
    requires x < |w.spaces|
    ensures var a := Added(w, x, package, name, body);
      |a.spaces| == |w.spaces| &&
      forall y :: 0 <= y < |w.spaces| ==>
        a.spaces[y].name == w.spaces[y].name && a.spaces[y].package == w.spaces[y].package
            && a.spaces[y].parent == w.spaces[y].parent
  {
  }

  /** Declaring below an activation is declaring, above it, where the list went. */
  lemma AddedUnderHook(w: World, p: CString, y: nat, package: Name, name: CString, body: Body)
    requires Wf(w) && y < |w.spaces|
    ensures NewOwner(w, p, 0, y) < |w.spaces|
    ensures Hooked(Added(w, y, package, name, body), p, 0)
         == Added(Hooked(w, p, 0), NewOwner(w, p, 0, y), package, name, body)
  {
    hide Partner, Trades;
    OwnerThere(w, p, y);
    var x, h, a := NewOwner(w, p, 0, y), Hooked(w, p, 0), Added(w, y, package, name, body);
    var g, b := Hooked(a, p, 0), Added(h, x, package, name, body);
    AddedNames(w, y, package, name, body);
    PartnersSame(a, w, p, 0);
    assert h.spaces[x].entries == w.spaces[y].entries;
    NamedSame(h.entries, w.entries, w.spaces[y].entries, name);
    forall z | 0 <= z < |w.spaces| ensures g.spaces[z] == b.spaces[z] {
      assert g.spaces[z] == HookedSpace(a, p, 0, z) && h.spaces[z] == HookedSpace(w, p, 0, z);
      OwnerThere(w, p, z);
    }
    assert g.spaces == b.spaces;
    assert forall z :: 0 <= z < |w.spaces| ==> NewOwner(a, p, 0, z) == NewOwner(w, p, 0, z);
    OwnersInRange(w);
    assert g.entries == b.entries;
  }

  lemma OwnersInRange(w: World)
    requires Wf(w)
    ensures forall e :: 0 <= e < |w.entries| ==> w.entries[e].owner < |w.spaces|
  {
  }

  /** Lists go where owners go, and trading twice comes back. */
  lemma OwnerThere(w: World, p: CString, y: nat)
    requires Wf(w) && y < |w.spaces|
    ensures var x := NewOwner(w, p, 0, y);
      x < |w.spaces| && HookedSpace(w, p, 0, x).entries == w.spaces[y].entries && NewOwner(w, p, 0, x) == y
    ensures Trades(w, p, 0, y) ==>
      var x := NewOwner(w, p, 0, y); Partner(w, p, y) == Some(x) && Trades(w, p, 0, x) && Partner(w, p, x) == Some(y)
    ensures !Trades(w, p, 0, y) ==> NewOwner(w, p, 0, y) == y
  {
    if Trades(w, p, 0, y) {
      TradesBack(w, p, 0, y);
    }
  }

  /** The namespace of the table whose declarations `x` carries while `ps` are active. */
  ghost function Content(base: World, ps: seq<CString>, x: nat): nat
    decreases |ps|
  {
    if ps == [] then x
    else Content(base, ps[..|ps| - 1], NewOwner(Stacked(base, ps[..|ps| - 1]), ps[|ps| - 1], 0, x))
  }

  /**
    A declaration into a namespace while packages are active goes to the layer whose list lies there,
    not to the namespace of that name: which is why declaring takes the packages off first.
   */
  lemma {:induction false} AddedStacked(base: World, ps: seq<CString>, x: nat, package: Name, name: CString, body: Body)
    requires Wf(base) && x < |base.spaces|
    ensures Content(base, ps, x) < |base.spaces|
    ensures Added(Stacked(base, ps), x, package, name, body)
         == Stacked(Added(base, Content(base, ps, x), package, name, body), ps)
    decreases |ps|
  {
    hide Stacked, Hooked, Added, NewOwner, Wf;
    if ps == [] {
      StackedNone(base);
      StackedNone(Added(base, x, package, name, body));
    } else {
      var below, p := ps[..|ps| - 1], ps[|ps| - 1];
      StackedWf(base, below);
      var s := Stacked(base, below);
      StackedUnfolds(base, ps);
      OwnerThere(s, p, x);
      var y := NewOwner(s, p, 0, x);
      AddedUnderHook(s, p, y, package, name, body);
      AddedStacked(base, below, y, package, name, body);
      StackedUnfolds(Added(base, Content(base, below, y), package, name, body), ps);
    }
  }

  /** The table after the packages have been put back on, one after the other. */
  function Relinked(w: World, ps: seq<CString>): World
    decreases |ps|
  {
    if ps == [] then w else WithBases(Relinked(w, ps[..|ps| - 1]), ps[|ps| - 1], 0)
  }

  /** The table after declaring a function in the namespace of that name and package. */
  function Declaring(w: World, ns: Name, package: Name, name: CString, body: Body): World {
    var f := Found(w, ns, package);
    Added(f, Lookup(f, ns, package).value, package, name, body)
  }

  // ----- what a declaration changes in the table, and what it does not -----

  /** The namespace then answers the name with the new body; all else it and the others answer stays. */
  lemma AddedAnswers(w: World, x: nat, package: Name, name: CString, body: Body, y: nat, f: CString)
    requires Wf(w) && x < |w.spaces| && y < |w.spaces|
    ensures var a := Added(w, x, package, name, body);
      var r := Named(a.entries, a.spaces[y].entries, f);
      if y == x && f == name then r.Some? && a.entries[r.value].body == body
      else
        && r == Named(w.entries, w.spaces[y].entries, f)
        && (r.Some? && r.value < |w.entries| ==> a.entries[r.value] == w.entries[r.value])
  {
    var a := Added(w, x, package, name, body);
    var n := Named(w.entries, w.spaces[x].entries, name);
    assert forall e :: e in w.spaces[y].entries ==> e < |w.entries| by {
      forall e: nat | e in w.spaces[y].entries ensures e < |w.entries| { Listed(w, y, e); }
    }
    NamedInPrefix(w.entries, a.entries, w.spaces[y].entries, f);
    if n.Some? && Named(w.entries, w.spaces[y].entries, f) == n {
      Listed(w, x, n.value);
      Listed(w, y, n.value);
    }
    if n.None? && y == x {
      assert a.spaces[x].entries[1..] == w.spaces[x].entries;
    }
  }

  lemma {:induction false} NamedInPrefix(v: seq<Entry>, w: seq<Entry>, list: seq<nat>, f: CString)
    requires |v| <= |w| && forall e :: 0 <= e < |v| ==> v[e].name == w[e].name
    requires forall e: nat :: e in list ==> e < |v|
    ensures Named(v, list, f) == Named(w, list, f)
  {
    if list != [] {
      assert list[0] in list && forall e: nat :: e in list[1..] ==> e in list;
      NamedInPrefix(v, w, list[1..], f);
    }
  }

  /** Putting the packages on again resolves every name as before: the namespaces it makes are empty. */
  lemma {:induction false} RelinkedResolves(w: World, qs: seq<CString>, ps: seq<CString>, classes: seq<nat>, f: CString)
    requires forall i :: 0 <= i < |classes| ==> classes[i] < |w.spaces|
    ensures |w.spaces| <= |Relinked(w, qs).spaces|
    ensures Resolve(Relinked(w, qs), ps, classes, f) == Resolve(w, ps, classes, f)
    decreases |qs|
  {
    hide WithBases, Resolve;
    if qs != [] {
      var v := Relinked(w, qs[..|qs| - 1]);
      RelinkedResolves(w, qs[..|qs| - 1], ps, classes, f);
      BasesResolve(v, qs[|qs| - 1], ps, classes, f);
    }
  }

  lemma {:induction false} BasesResolve(w: World, p: CString, ps: seq<CString>, classes: seq<nat>, f: CString)
    requires forall i :: 0 <= i < |classes| ==> classes[i] < |w.spaces|
    ensures Resolve(WithBases(w, p, 0), ps, classes, f) == Resolve(w, ps, classes, f)
  {
    hide WithBases, LayerHit;
    if classes != [] {
      BasesHit(w, p, ps, classes[0], f);
      BasesResolve(w, p, ps, classes[1..], f);
    }
  }

  lemma {:induction false} BasesHit(w: World, p: CString, ps: seq<CString>, b: nat, f: CString)
    requires b < |w.spaces|
    ensures LayerHit(WithBases(w, p, 0), ps, b, f) == LayerHit(w, ps, b, f)
    decreases |ps|
  {
    hide WithBases, Named;
    var v := WithBases(w, p, 0);
    assert forall x :: 0 <= x < |w.spaces| ==> v.spaces[x] == v.spaces[..|w.spaces|][x] == w.spaces[x];
    if ps != [] {
      BasesAreEmpty(w, p, 0);
      BasesHit(w, p, ps[..|ps| - 1], b, f);
      assert Over(v, b, ps[|ps| - 1]) == Over(w, b, ps[|ps| - 1]);
    }
  }

  // ----- what a declaration changes of every answer -----

  /** The layers of one namespace, topmost first, the namespace itself last. */
  function LayerPath(w: World, ps: seq<CString>, b: nat): seq<nat>
    decreases |ps|
  {
    if ps == [] then [b]
    else
      var over := Over(w, b, ps[|ps| - 1]);
      (if over.Some? then [over.value] else []) + LayerPath(w, ps[..|ps| - 1], b)
  }

  /** Where a name is looked for, in that order, on the way up the classes. */
  function Path(w: World, ps: seq<CString>, classes: seq<nat>): seq<nat> {
    if classes == [] then [] else LayerPath(w, ps, classes[0]) + Path(w, ps, classes[1..])
  }

  function FirstHit(w: World, path: seq<nat>, f: CString): Option<nat> {
    if path == [] then None else Or(Named(w.entries, Declared(w, path[0]), f), FirstHit(w, path[1..], f))
  }

  /** The way comes to `x` before any other namespace that declares the name. */
  predicate Reaches(w: World, path: seq<nat>, x: nat, name: CString) {
    path != [] && (path[0] == x
        || (Named(w.entries, Declared(w, path[0]), name).None? && Reaches(w, path[1..], x, name)))
  }

  lemma {:induction false} FirstHitOf(w: World, a: seq<nat>, b: seq<nat>, f: CString)
    ensures FirstHit(w, a + b, f) == Or(FirstHit(w, a, f), FirstHit(w, b, f))
  {
    hide Named;
    if a == [] {
      assert a + b == b;
    } else {
      assert (a + b)[1..] == a[1..] + b;
      FirstHitOf(w, a[1..], b, f);
    }
  }

  lemma {:induction false} LayerHitFirst(w: World, ps: seq<CString>, b: nat, f: CString)
    ensures LayerHit(w, ps, b, f) == FirstHit(w, LayerPath(w, ps, b), f)
    decreases |ps|
  {
    hide Named, Over;
    if ps == [] {
      assert [b][1..] == [];
    } else {
      LayerHitFirst(w, ps[..|ps| - 1], b, f);
      var over := Over(w, b, ps[|ps| - 1]);
      var top := if over.Some? then [over.value] else [];
      FirstHitOf(w, top, LayerPath(w, ps[..|ps| - 1], b), f);
      assert over.Some? ==> top[1..] == [];
    }
  }

  lemma {:induction false} ResolveFirst(w: World, ps: seq<CString>, classes: seq<nat>, f: CString)
    ensures Resolve(w, ps, classes, f) == FirstHit(w, Path(w, ps, classes), f)
  {
    hide Named, LayerHit, LayerPath;
    if classes != [] {
      LayerHitFirst(w, ps, classes[0], f);
      ResolveFirst(w, ps, classes[1..], f);
      FirstHitOf(w, LayerPath(w, ps, classes[0]), Path(w, ps, classes[1..]), f);
    }
  }

  lemma {:induction false} LayersInside(w: World, ps: seq<CString>, b: nat)
    requires b < |w.spaces|
    ensures forall x :: x in LayerPath(w, ps, b) ==> x < |w.spaces|
    decreases |ps|
  {
    if ps != [] {
      LayersInside(w, ps[..|ps| - 1], b);
    }
  }

  lemma {:induction false} PathInside(w: World, ps: seq<CString>, classes: seq<nat>)
    requires forall i :: 0 <= i < |classes| ==> classes[i] < |w.spaces|
    ensures forall x :: x in Path(w, ps, classes) ==> x < |w.spaces|
  {
    hide LayerPath;
    if classes != [] {
      LayersInside(w, ps, classes[0]);
      PathInside(w, ps, classes[1..]);
    }
  }

  lemma {:induction false} AddedLayers(w: World, x: nat, package: Name, name: CString, body: Body, ps: seq<CString>,
      b: nat)
    requires x < |w.spaces|
    ensures LayerPath(Added(w, x, package, name, body), ps, b) == LayerPath(w, ps, b)
    decreases |ps|
  {
    hide Added;
    AddedNames(w, x, package, name, body);
    if ps != [] {
      AddedLayers(w, x, package, name, body, ps[..|ps| - 1], b);
      var a := Added(w, x, package, name, body);
      if b < |w.spaces| {
        IndexOfSame(a.spaces, w.spaces, w.spaces[b].name, Some(ps[|ps| - 1]), |w.spaces|);
      }
    }
  }

  lemma {:induction false} AddedPath(w: World, x: nat, package: Name, name: CString, body: Body, ps: seq<CString>,
      classes: seq<nat>)
    requires x < |w.spaces|
    ensures Path(Added(w, x, package, name, body), ps, classes) == Path(w, ps, classes)
  {
    hide Added, LayerPath;
    if classes != [] {
      AddedLayers(w, x, package, name, body, ps, classes[0]);
      AddedPath(w, x, package, name, body, ps, classes[1..]);
    }
  }

  lemma {:induction false} AddedFirst(w: World, x: nat, package: Name, name: CString, body: Body, path: seq<nat>,
      f: CString)
    requires Wf(w) && x < |w.spaces| && forall y :: y in path ==> y < |w.spaces|
    ensures var a := Added(w, x, package, name, body);
      var r := FirstHit(a, path, f);
      if f == name && Reaches(w, path, x, name) then r.Some? && r.value < |a.entries| && a.entries[r.value].body == body
      else
        && r == FirstHit(w, path, f)
        && (r.Some? ==> r.value < |w.entries| <= |a.entries| && a.entries[r.value] == w.entries[r.value])
  {
    hide Wf, Named;
    if path != [] {
      assert path[0] in path && forall y :: y in path[1..] ==> y in path;
      AddedAnswers(w, x, package, name, body, path[0], f);
      AddedFirst(w, x, package, name, body, path[1..], f);
      AddedNames(w, x, package, name, body);
    }
  }

  lemma {:induction false} FoundLayer(w: World, n: Name, q: Name, ps: seq<CString>, b: nat, f: CString)
    requires b < |w.spaces|
    ensures LayerHit(Found(w, n, q), ps, b, f) == LayerHit(w, ps, b, f)
    decreases |ps|
  {
    hide Named, Lookup, Found;
    var v := Found(w, n, q);
    assert forall x :: 0 <= x < |w.spaces| ==> v.spaces[x] == v.spaces[..|w.spaces|][x] == w.spaces[x];
    if ps != [] {
      var p := ps[|ps| - 1];
      FoundLayer(w, n, q, ps[..|ps| - 1], b, f);
      LookupFound(w, n, q, w.spaces[b].name, Some(p));
      FoundEmpty(w, n, q, f);
    }
  }

  lemma FoundEmpty(w: World, n: Name, q: Name, f: CString)
    ensures Lookup(w, n, q).None? ==> Declared(Found(w, n, q), |w.spaces|) == [] && Named(w.entries, [], f) == None
    ensures Lookup(w, n, q).Some? ==> Found(w, n, q) == w
  {
    hide IndexOf;
  }

  lemma {:induction false} FoundResolves(w: World, n: Name, q: Name, ps: seq<CString>, classes: seq<nat>, f: CString)
    requires forall i :: 0 <= i < |classes| ==> classes[i] < |w.spaces|
    ensures Resolve(Found(w, n, q), ps, classes, f) == Resolve(w, ps, classes, f)
  {
    hide Found, LayerHit;
    if classes != [] {
      FoundLayer(w, n, q, ps, classes[0], f);
      FoundResolves(w, n, q, ps, classes[1..], f);
    }
  }

  lemma {:induction false} RelinkedEntries(w: World, qs: seq<CString>)
    ensures Relinked(w, qs).entries == w.entries
    decreases |qs|
  {
    hide WithBases;
    if qs != [] {
      RelinkedEntries(w, qs[..|qs| - 1]);
    }
  }

  /**
    What declaring a function changes, for every class, every list of active packages and every name: the
    declared name answers with the new body where the way up comes to the namespace declared in before
    another that has the name; every other question has the answer it had.
   */
  lemma DeclaredResolves(w: World, ns: Name, package: Name, name: CString, body: Body,
                         qs: seq<CString>, ps: seq<CString>, classes: seq<nat>, f: CString)
    requires Wf(w) && forall i :: 0 <= i < |classes| ==> classes[i] < |w.spaces|
    ensures var g := Found(w, ns, package);
      var a := Relinked(Declaring(w, ns, package, name, body), qs);
      var r := Resolve(a, ps, classes, f);
      if f == name && Reaches(g, Path(g, ps, classes), Lookup(g, ns, package).value, name)
      then r.Some? && r.value < |a.entries| && a.entries[r.value].body == body
      else
        && r == Resolve(w, ps, classes, f)
        && (r.Some? ==> r.value < |w.entries| <= |a.entries| && a.entries[r.value] == w.entries[r.value])
  {
    hide Wf, Found, Relinked, Resolve, Path, Reaches, FirstHit, Added;
    var g := Found(w, ns, package);
    var x := Lookup(g, ns, package).value;
    var d := Added(g, x, package, name, body);
    FoundWf(w, ns, package);
    AddedNames(g, x, package, name, body);
    RelinkedResolves(d, qs, ps, classes, f);
    RelinkedEntries(d, qs);
    ResolveFirst(d, ps, classes, f);
    AddedPath(g, x, package, name, body, ps, classes);
    PathInside(g, ps, classes);
    AddedFirst(g, x, package, name, body, Path(g, ps, classes), f);
    ResolveFirst(g, ps, classes, f);
    FoundResolves(w, ns, package, ps, classes, f);
  }
}
