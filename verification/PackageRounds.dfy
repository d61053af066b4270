/** What the methods that activate, deactivate and declare need between their rounds. */
module PackageRounds {
  import opened Values
  import opened Namespaces
  import opened Chains
  import opened Resolution
  import opened PackageSteps
  import opened Declarations

  lemma ListInside(w: World, x: nat)
    requires Wf(w) && x < |w.spaces|
    ensures forall e :: e in w.spaces[x].entries ==> e < |w.entries|
  {
    forall e: nat | e in w.spaces[x].entries ensures e < |w.entries| {
      Listed(w, x, e);
    }
  }

  lemma ActivateBegins(table: World, ps: seq<CString>, p: CString)
    ensures WithBases(table, p, |table.spaces|) == table
    ensures Hooked(Stacked(table, ps), p, |table.spaces|) == Stacked(table, ps)
  {
    hide Stacked;
    NothingTrades(Stacked(table, ps), p);
  }

  /** One round of activation: a namespace of the package is hooked in, its base made if need be. */
  lemma ActivateStep(table: World, ps: seq<CString>, p: CString, i: nat)
    requires IsBase(table) && Ready(table, ps) && i < |table.spaces|
    ensures var g, g' := WithBases(table, p, i + 1), WithBases(table, p, i);
      var w, s := Hooked(Stacked(g, ps), p, i + 1), table.spaces[i];
      && i < |w.spaces| && w.spaces[i].package == s.package && w.spaces[i].name == s.name
      && (s.package != Some(p) ==> g' == g && w == Hooked(Stacked(g', ps), p, i))
      && (s.package == Some(p) ==>
            var f := Found(w, s.name, None);
            var b := Lookup(f, s.name, None).value;
            && b != i && i < |f.spaces| && b < |f.spaces|
            && (forall e :: e in f.spaces[i].entries || e in f.spaces[b].entries ==> e < |f.entries|)
            && HookOne(f, i, b) == Hooked(Stacked(g', ps), p, i))
  {
    hide Stacked, Hooked, Found, IndexOf, HookOne, IsBase, Wf, Ready, Trades, Owned;
    var g, s := WithBases(table, p, i + 1), table.spaces[i];
    BasesMade(table, p, i + 1);
    IsBaseWf(g);
    ReadyFrom(table, ps, p, i + 1);
    assert g.spaces[i] == g.spaces[..|table.spaces|][i] == s;
    var k := Stacked(g, ps);
    StackedWf(g, ps);
    if s.package != Some(p) {
      NoTradeFrom(k, p, i);
    } else {
      UniqueInPackage(k, p, i);
      FoundRound(g, ps, p, i);
    }
  }

  /** The round for a namespace of the package, in a table that has the bases of those before. */
  lemma FoundRound(g: World, ps: seq<CString>, p: CString, i: nat)
    requires Wf(g) && Ready(g, ps) && i < |g.spaces| && g.spaces[i].package == Some(p)
    requires forall x :: i < x < |g.spaces| && g.spaces[x].package == Some(p) ==> g.spaces[x].name != g.spaces[i].name
    ensures var s, w := g.spaces[i], Hooked(Stacked(g, ps), p, i + 1);
      var f := Found(w, s.name, None);
      var b := Lookup(f, s.name, None).value;
      && b != i && i < |f.spaces| && b < |f.spaces|
      && (forall e :: e in f.spaces[i].entries || e in f.spaces[b].entries ==> e < |f.entries|)
      && HookOne(f, i, b) == Hooked(Stacked(Found(g, s.name, None), ps), p, i)
  {
    hide Stacked, Hooked, Found, IndexOf, HookOne, Wf, Ready;
    var s, k := g.spaces[i], Stacked(g, ps);
    StackedWf(g, ps);
    FoundStacked(g, ps, s.name);
    FoundHooked(k, p, i + 1, s.name);
    var g' := Found(g, s.name, None);
    var k' := Stacked(g', ps);
    FoundWf(g, s.name, None);
    StackedWf(g', ps);
    assert g'.spaces[i] == g'.spaces[..|g.spaces|][i] == s;
    assert k'.spaces[i].name == s.name && k'.spaces[i].package == s.package;
    SameLookup(g', ps, s.name);
    var b := Lookup(k', s.name, None).value;
    HookStep(k', p, i, b);
    ListInside(k', i);
    ListInside(k', b);
  }

  lemma SameLookup(w: World, ps: seq<CString>, n: Name)
    ensures Lookup(Stacked(w, ps), n, None) == Lookup(w, n, None)
  {
    hide Stacked;
    PartnersSame(Stacked(w, ps), w, "", 0);
  }

  lemma UniqueInPackage(w: World, p: CString, i: nat)
    requires Wf(w) && i < |w.spaces| && w.spaces[i].package == Some(p)
    ensures forall x :: i < x < |w.spaces| && w.spaces[x].package == Some(p) ==> w.spaces[x].name != w.spaces[i].name
  {
  }

  lemma ActivateEnds(table: World, ps: seq<CString>, p: CString)
    requires IsBase(table) && Ready(table, ps) && Distinct(ps) && p !in ps
    ensures var g := WithBases(table, p, 0);
      IsBase(g) && Ready(g, ps + [p]) && Distinct(ps + [p]) && Hooked(Stacked(g, ps), p, 0) == Stacked(g, ps + [p])
  {
    hide Stacked, Hooked, IsBase, Ready, WithBases;
    BasesMade(table, p, 0);
    BasesReady(table, ps, p);
    StackedUnfolds(WithBases(table, p, 0), ps + [p]);
    assert (ps + [p])[..|ps|] == ps;
  }

  lemma UnhookBegins(base: World, ps: seq<CString>, j: nat)
    requires j < |ps|
    ensures var w := Stacked(base, ps[..j + 1]); Unhooked(w, ps[j], |w.spaces|) == w
  {
    hide Stacked;
    NothingTrades(Stacked(base, ps[..j + 1]), ps[j]);
  }

  lemma DeactivateStep(base: World, ps: seq<CString>, j: nat, i: nat)
    requires IsBase(base) && Ready(base, ps) && j < |ps| && i < |base.spaces|
    ensures var w, p := Stacked(base, ps[..j + 1]), ps[j];
      var u, s := Unhooked(w, p, i + 1), base.spaces[i];
      && i < |u.spaces| && u.spaces[i].package == s.package && u.spaces[i].name == s.name
      && (s.package != Some(p) ==> u == Unhooked(w, p, i))
      && (s.package == Some(p) ==>
            && Lookup(u, s.name, None).Some? && Found(u, s.name, None) == u
            && var b := Lookup(u, s.name, None).value;
            && b != i && b < |u.spaces|
            && (forall e :: e in u.spaces[i].entries || e in u.spaces[b].entries ==> e < |u.entries|)
            && UnhookOne(u, i, b) == Unhooked(w, p, i))
  {
    hide Stacked, Unhooked, IndexOf, UnhookOne;
    var w, p, s := Stacked(base, ps[..j + 1]), ps[j], base.spaces[i];
    StackedWf(base, ps[..j + 1]);
    assert w.spaces[i].name == s.name && w.spaces[i].package == s.package;
    if s.package != Some(p) {
      NoTradeFrom(w, p, i);
    } else {
      assert Based(base, p);
      SameLookup(base, ps[..j + 1], s.name);
      var b := Lookup(w, s.name, None).value;
      UnhookStep(w, p, i, b);
      ListInside(w, i);
      ListInside(w, b);
    }
  }

  lemma UnhookEnds(base: World, ps: seq<CString>, j: nat)
    requires IsBase(base) && Distinct(ps) && j < |ps|
    ensures Unhooked(Stacked(base, ps[..j + 1]), ps[j], 0) == Stacked(base, ps[..j])
  {
    hide Stacked, Unhooked, IsBase;
    assert ps[..j + 1][..j] == ps[..j];
    TopComesOff(base, ps[..j + 1]);
  }

  lemma FewerActive(base: World, ps: seq<CString>, i: nat)
    requires Ready(base, ps) && Distinct(ps) && i <= |ps|
    ensures Ready(base, ps[..i]) && Distinct(ps[..i])
  {
  }

  lemma LayeredWf(base: World, ps: seq<CString>)
    requires IsBase(base)
    ensures Wf(base) && Wf(Stacked(base, ps))
  {
    StackedWf(base, ps);
  }

  lemma FoundReady(base: World, ps: seq<CString>, name: Name, package: Name)
    requires Ready(base, ps) && (package.None? || ps == [])
    ensures Ready(Found(base, name, package), ps)
  {
  }

  /** The body may be filled in after the entry was made. */
  lemma BodySet(w: World, x: nat, package: Name, name: CString, body: Body, e: nat)
    requires Wf(w) && x < |w.spaces|
    requires var a := Added(w, x, package, name, NoBody);
      e < |a.entries| && Named(a.entries, a.spaces[x].entries, name) == Some(e)
    ensures var a := Added(w, x, package, name, NoBody);
      World(a.spaces, a.entries[e := a.entries[e].(body := body)]) == Added(w, x, package, name, body)
  {
    hide Wf;
    ListInside(w, x);
    var list := w.spaces[x].entries;
    var n := Named(w.entries, list, name);
    if n.Some? {
      NamedSame(w.entries, w.entries[n.value := w.entries[n.value].(body := NoBody)], list, name);
    }
  }

  lemma AddKeeps(base: World, ps: seq<CString>, x: nat, package: Name, name: CString, body: Body)
    requires IsBase(base) && Ready(base, ps) && x < |base.spaces|
    ensures IsBase(Added(base, x, package, name, body)) && Ready(Added(base, x, package, name, body), ps)
  {
    hide Added, Lookup;
    var a := Added(base, x, package, name, body);
    AddedWf(base, x, package, name, body);
    AddedNames(base, x, package, name, body);
    PartnersSame(a, base, "", 0);
    forall k | 0 <= k < |ps| ensures Based(a, ps[k]) {
      assert Based(base, ps[k]);
    }
  }

  lemma FirstTakesAll(ps: seq<CString>, rest: seq<CString>)
    requires Distinct(ps) && ps != []
    requires exists i :: 0 <= i < |ps| && ps[i] == ps[0] && rest == ps[..i]
    ensures rest == []
  {
  }

  lemma NotYet(ps: seq<CString>, i: nat)
    requires Distinct(ps) && i < |ps|
    ensures ps[i] !in ps[..i]
  {
  }

  lemma SlotsKept(before: seq<CString>, after: seq<CString>, ps: seq<CString>, i: nat)
    requires |ps| <= |before| == |after| && i < |ps| && before[..|ps|] == ps
    requires after[..i + 1] == ps[..i + 1] && after[i + 1..] == before[i + 1..]
    ensures after[..|ps|] == ps
  {
  }

  lemma LinkedBase(w: World, x: nat, parent: Option<nat>)
    requires Loose(w) && x < |w.spaces| && w.spaces[x].package == None
    requires parent.Some? ==> parent.value < |w.spaces| && w.spaces[parent.value].package == None
    ensures Loose(WithParent(w, x, parent))
  {
    var l := WithParent(w, x, parent);
    forall y: nat, e: nat {:trigger e in l.spaces[y].entries} | y < |l.spaces| && e in l.spaces[y].entries
      ensures e < |l.entries| && l.entries[e].owner == y
    {
      Listed(w, y, e);
    }
  }

  /** From the namespace after place `j` the rest of a chain is a chain, or there is none. */
  lemma ChainFrom(w: World, chain: seq<nat>, j: nat, f: CString)
    requires Chain(w, chain) && j < |chain|
    ensures w.spaces[chain[j]].parent.None? ==> Named(w.entries, Flat(w, chain[j + 1..]), f) == None
    ensures w.spaces[chain[j]].parent.Some? ==>
      Chain(w, chain[j + 1..]) && w.spaces[chain[j]].parent == Some(chain[j + 1..][0])
  {
  }
}
