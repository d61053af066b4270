/** Parent chains: there is one up from every namespace, whatever is declared and activated. */
module Chains {
  import opened Values
  import opened Namespaces

  /** The way up is the only one. */
  lemma {:induction false} ChainsAgree(w: World, a: seq<nat>, b: seq<nat>)
    requires Chain(w, a) && Chain(w, b) && a[0] == b[0]
    ensures a == b
    decreases |a|
  {
    assert |a| > 1 ==> w.spaces[a[0]].parent == Some(a[1]);
    assert |b| > 1 ==> w.spaces[b[0]].parent == Some(b[1]);
    if |a| > 1 {
      assert Chain(w, a[1..]) && Chain(w, b[1..]);
      ChainsAgree(w, a[1..], b[1..]);
      assert a == [a[0]] + a[1..] && b == [b[0]] + b[1..];
    }
  }

  lemma ChainIs(w: World, c: seq<nat>)
    requires Chain(w, c)
    ensures HasChain(w, c[0]) && ChainOf(w, c[0]) == c
  {
    ChainsAgree(w, ChainOf(w, c[0]), c);
  }

  lemma HasOne(w: World, c: seq<nat>, x: nat)
    requires Chain(w, c) && c[0] == x
    ensures HasChain(w, x)
  {
  }

  lemma ChainTail(w: World, c: seq<nat>, i: nat)
    requires Chain(w, c) && i < |c|
    ensures Chain(w, c[i..]) && c[i..][0] == c[i]
  {
  }

  lemma ChainOn(w: World, x: nat, up: seq<nat>)
    requires x < |w.spaces| && Chain(w, up) && w.spaces[x].parent == Some(up[0])
    ensures Chain(w, [x] + up)
  {
    var c := [x] + up;
    assert forall i :: 1 <= i < |c| ==> c[i] == up[i - 1];
  }

  /** Worlds with the same parents have the same chains. */
  lemma SameParents(v: World, w: World)
    requires |v.spaces| == |w.spaces| && forall x :: 0 <= x < |v.spaces| ==> v.spaces[x].parent == w.spaces[x].parent
    ensures Grounded(w) ==> Grounded(v)
  {
    if Grounded(w) {
      forall x: nat | x < |v.spaces| ensures HasChain(v, x) {
        assert HasChain(w, x);
        assert Chain(v, ChainOf(w, x));
      }
    }
  }

  lemma FoundGrounded(w: World, name: Name, package: Name)
    requires Grounded(w)
    ensures Grounded(Found(w, name, package))
  {
    var f := Found(w, name, package);
    forall x: nat | x < |f.spaces| ensures HasChain(f, x) {
      if x < |w.spaces| {
        assert HasChain(w, x);
        assert forall y :: 0 <= y < |w.spaces| ==> f.spaces[y] == f.spaces[..|w.spaces|][y] == w.spaces[y];
        assert Chain(f, ChainOf(w, x));
      } else {
        assert Chain(f, [x]);
      }
    }
  }

  // ----- activation -----

  /** No namespace derives from one of package `p`. */
  ghost predicate Unparented(w: World, p: CString) {
    forall x :: 0 <= x < |w.spaces| && w.spaces[x].parent.Some? ==>
      w.spaces[x].parent.value < |w.spaces| && w.spaces[w.spaces[x].parent.value].package != Some(p)
  }

  /** With the package hooked in, each namespace it overrides is followed by the override. */
  lemma {:induction false} HookedChain(w: World, p: CString, c: seq<nat>)
    requires Wf(w) && Idle(w, p) && Unparented(w, p) && Chain(w, c) && w.spaces[c[0]].package != Some(p)
    ensures HasChain(Hooked(w, p, 0), c[0])
    decreases |c|
  {
    hide Wf, IndexOf;
    var h, b := Hooked(w, p, 0), c[0];
    if |c| > 1 {
      assert w.spaces[b].parent == Some(c[1]);
      ChainTail(w, c, 1);
      HookedChain(w, p, c[1..]);
    }
    assert h.spaces[b] == HookedSpace(w, p, 0, b);
    if Trades(w, p, 0, b) {
      OverrideChain(w, p, c);
      var o := Partner(w, p, b).value;
      ChainOn(h, b, ChainOf(h, o));
      HasOne(h, [b] + ChainOf(h, o), b);
    } else if |c| > 1 {
      ChainOn(h, b, ChainOf(h, c[1]));
      HasOne(h, [b] + ChainOf(h, c[1]), b);
    } else {
      assert Chain(h, [b]);
    }
  }

  /** The override goes on where the namespace it overrides did. */
  lemma OverrideChain(w: World, p: CString, c: seq<nat>)
    requires Wf(w) && Idle(w, p) && Chain(w, c) && w.spaces[c[0]].package != Some(p) && Trades(w, p, 0, c[0])
    requires |c| > 1 ==> HasChain(Hooked(w, p, 0), c[1])
    ensures var h, o := Hooked(w, p, 0), Partner(w, p, c[0]).value;
      HasChain(h, o) && h.spaces[c[0]].parent == Some(o)
  {
    var h, b := Hooked(w, p, 0), c[0];
    var o := Partner(w, p, b).value;
    TradesBack(w, p, 0, b);
    assert h.spaces[o] == HookedSpace(w, p, 0, o) && h.spaces[b] == HookedSpace(w, p, 0, b);
    if |c| > 1 {
      assert w.spaces[b].parent == Some(c[1]);
      ChainOn(h, o, ChainOf(h, c[1]));
      HasOne(h, [o] + ChainOf(h, c[1]), o);
    } else {
      assert Chain(h, [o]);
    }
  }

  lemma HookedGrounded(w: World, p: CString)
    requires Wf(w) && Grounded(w) && Idle(w, p) && Unparented(w, p)
    ensures Grounded(Hooked(w, p, 0))
  {
    hide Wf, IndexOf, Hooked;
    var h := Hooked(w, p, 0);
    forall x: nat | x < |h.spaces| ensures HasChain(h, x) {
      assert HasChain(w, x);
      if w.spaces[x].package != Some(p) {
        HookedChain(w, p, ChainOf(w, x));
      } else if Trades(w, p, 0, x) {
        TradesBack(w, p, 0, x);
        var b := Partner(w, p, x).value;
        assert HasChain(w, b);
        var c := ChainOf(w, b);
        if |c| > 1 {
          ChainTail(w, c, 1);
          assert w.spaces[c[0]].parent == Some(c[1]);
          HookedChain(w, p, c[1..]);
        }
        OverrideChain(w, p, c);
      } else {
        assert h.spaces[x] == HookedSpace(w, p, 0, x) && w.spaces[x].parent == None;
        assert Chain(h, [x]);
      }
    }
  }

  /** Parents are classes, or namespaces of active packages. */
  lemma {:induction false} StackedParents(base: World, ps: seq<CString>)
    requires IsBase(base) && Distinct(ps)
    ensures forall x :: 0 <= x < |base.spaces| && Stacked(base, ps).spaces[x].parent.Some? ==>
      var y := Stacked(base, ps).spaces[x].parent.value;
      y < |base.spaces| && (base.spaces[y].package.None? || base.spaces[y].package.value in ps)
    decreases |ps|
  {
    hide Grounded, Wf, IndexOf;
    if ps != [] {
      var below, p := ps[..|ps| - 1], ps[|ps| - 1];
      StackedParents(base, below);
      var s := Stacked(base, below);
      assert Stacked(base, ps) == Hooked(s, p, 0);
      assert p in ps && forall q :: q in below ==> q in ps;
      forall x | 0 <= x < |base.spaces| && Hooked(s, p, 0).spaces[x].parent.Some?
        ensures var y := Hooked(s, p, 0).spaces[x].parent.value;
          y < |base.spaces| && (base.spaces[y].package.None? || base.spaces[y].package.value in ps)
      {
        assert Hooked(s, p, 0).spaces[x] == HookedSpace(s, p, 0, x);
      }
    }
  }

  /** With any packages active the way up ends, from classes and from overrides. */
  lemma {:induction false} StackedGrounded(base: World, ps: seq<CString>)
    requires IsBase(base) && Distinct(ps)
    ensures Grounded(Stacked(base, ps))
    decreases |ps|
  {
    hide Grounded, Wf, Hooked;
    if ps == [] {
      assert Stacked(base, ps) == base;
    } else {
      var below, p := ps[..|ps| - 1], ps[|ps| - 1];
      assert p !in below && Distinct(below);
      StackedGrounded(base, below);
      StackedIdle(base, below, p);
      StackedWf(base, below);
      StackedParents(base, below);
      HookedGrounded(Stacked(base, below), p);
    }
  }

  // ----- linking -----

  function WithParent(w: World, x: nat, parent: Option<nat>): World
    requires x < |w.spaces|
  {
    World(w.spaces[x := w.spaces[x].(parent := parent)], w.entries)
  }

  function Linked(w: World, x: nat, parent: nat): World
    requires x < |w.spaces|
  {
    WithParent(w, x, Some(parent))
  }

  function Unlinked(w: World, x: nat): World
    requires x < |w.spaces|
  {
    WithParent(w, x, None)
  }

  /** Without its parent a class ends every way up that comes to it. */
  lemma UnlinkGrounds(w: World, x: nat)
    requires Grounded(w) && x < |w.spaces|
    ensures Grounded(Unlinked(w, x))
  {
    var u := Unlinked(w, x);
    forall y: nat | y < |u.spaces| ensures HasChain(u, y) {
      assert HasChain(w, y);
      UnlinkedChain(w, x, ChainOf(w, y));
    }
  }

  lemma {:induction false} UnlinkedChain(w: World, x: nat, c: seq<nat>)
    requires x < |w.spaces| && Chain(w, c)
    ensures HasChain(Unlinked(w, x), c[0])
    decreases |c|
  {
    var u := Unlinked(w, x);
    if c[0] == x || |c| == 1 {
      assert Chain(u, [c[0]]);
    } else {
      assert w.spaces[c[0]].parent == Some(c[1]);
      ChainTail(w, c, 1);
      UnlinkedChain(w, x, c[1..]);
      ChainOn(u, c[0], ChainOf(u, c[1]));
      HasOne(u, [c[0]] + ChainOf(u, c[1]), c[0]);
    }
  }

  // ----- counting links -----

  /** The count of links to the parent, in 32 bits. */
  function CountUp(n: nat): nat {
    (n + 1) % TWO_32
  }

  function CountDown(n: nat): nat {
    (n + TWO_32 - 1) % TWO_32
  }

  /** The world and the count after unlinking: the parent goes with the last link. */
  function UnlinkedOnce(w: World, x: nat, n: nat): (World, nat)
    requires x < |w.spaces|
  {
    (if CountDown(n) == 0 then Unlinked(w, x) else w, CountDown(n))
  }

  /** A class has a parent as long as links to it are counted. */
  predicate Counted(w: World, x: nat, n: nat)
    requires x < |w.spaces|
  {
    n < TWO_32 && (n == 0 <==> w.spaces[x].parent == None)
  }

  /** Linking and unlinking again gives back the count, and the parent exactly if the count was right. */
  lemma UnlinkUndoesLink(w: World, x: nat, parent: nat, n: nat)
    requires x < |w.spaces| && w.spaces[x].parent in {None, Some(parent)} && n < TWO_32
    ensures UnlinkedOnce(Linked(w, x, parent), x, CountUp(n)).1 == n
    ensures UnlinkedOnce(Linked(w, x, parent), x, CountUp(n)).0 == w <==> Counted(w, x, n)
  {
    var l := Linked(w, x, parent);
    assert CountDown(CountUp(n)) == n;
    if n == 0 {
      assert Unlinked(l, x).spaces[x].parent == None;
      assert w.spaces[x].parent == None ==> Unlinked(l, x).spaces == w.spaces;
    } else {
      assert l.spaces[x].parent == Some(parent);
      assert w.spaces[x].parent == Some(parent) ==> l.spaces == w.spaces;
    }
  }

  /**
    The count stays right when a class is linked, short of its 32 bits, and when one that is linked is
    unlinked. Unlinking a class that is not leaves it with a count that no parent stands for.
   */
  lemma CountStaysRight(w: World, x: nat, parent: nat, n: nat)
    requires x < |w.spaces| && Counted(w, x, n)
    ensures Counted(Linked(w, x, parent), x, CountUp(n)) <==> n < TWO_32 - 1
    ensures var u := UnlinkedOnce(w, x, n); |u.0.spaces| == |w.spaces| && (Counted(u.0, x, u.1) <==> n > 0)
  {
  }

  /** Linking keeps the chains ending exactly if the new parent does not derive from the class itself. */
  lemma LinkGrounds(w: World, x: nat, parent: nat)
    requires Grounded(w) && x < |w.spaces| && parent < |w.spaces| && HasChain(w, parent)
    ensures Grounded(Linked(w, x, parent)) <==> x !in ChainOf(w, parent)
  {
    hide Grounded;
    var up := ChainOf(w, parent);
    if x in up {
      var i: nat :| i < |up| && up[i] == x;
      LinkCircles(w, x, up, i);
      GroundedAt(Linked(w, x, parent), x);
    } else {
      LinkEnds(w, x, up);
    }
  }

  lemma GroundedAt(w: World, x: nat)
    requires x < |w.spaces|
    ensures Grounded(w) ==> HasChain(w, x)
  {
  }

  lemma LinkEnds(w: World, x: nat, up: seq<nat>)
    requires Grounded(w) && x < |w.spaces| && Chain(w, up) && x !in up
    ensures Grounded(Linked(w, x, up[0]))
  {
    var l := Linked(w, x, up[0]);
    assert Chain(l, up);
    ChainOn(l, x, up);
    forall y: nat | y < |l.spaces| ensures HasChain(l, y) {
      assert HasChain(w, y);
      LinkedChain(w, x, up, ChainOf(w, y));
    }
  }

  lemma {:induction false} LinkedChain(w: World, x: nat, up: seq<nat>, c: seq<nat>)
    requires x < |w.spaces| && Chain(w, up) && x !in up && Chain(w, c) && Chain(Linked(w, x, up[0]), [x] + up)
    ensures HasChain(Linked(w, x, up[0]), c[0])
    decreases |c|
  {
    var l := Linked(w, x, up[0]);
    if c[0] == x {
      HasOne(l, [x] + up, x);
    } else if |c| == 1 {
      assert Chain(l, c);
    } else {
      assert w.spaces[c[0]].parent == Some(c[1]);
      ChainTail(w, c, 1);
      LinkedChain(w, x, up, c[1..]);
      ChainOn(l, c[0], ChainOf(l, c[1]));
      HasOne(l, [c[0]] + ChainOf(l, c[1]), c[0]);
    }
  }

  /** From `x` up to its new parent and on to `x` again: no chain ends. */
  lemma LinkCircles(w: World, x: nat, up: seq<nat>, i: nat)
    requires Chain(w, up) && i < |up| && up[i] == x && x < |w.spaces|
    ensures !HasChain(Linked(w, x, up[0]), x)
  {
    var l := Linked(w, x, up[0]);
    if HasChain(l, x) {
      var c := ChainOf(l, x);
      var k: nat :| k <= i && up[k] == x && forall j :: 0 <= j < k ==> up[j] != x by { FirstAt(up, x, i); }
      FollowsUp(w, x, up, k, c, k);
      ChainTail(l, c, k + 1);
      ChainsAgree(l, c, c[k + 1..]);
    }
  }

  lemma {:induction false} FirstAt(up: seq<nat>, x: nat, i: nat)
    requires i < |up| && up[i] == x
    ensures exists k: nat :: k <= i && up[k] == x && forall j :: 0 <= j < k ==> up[j] != x
    decreases i
  {
    if j: nat :| j < i && up[j] == x {
      FirstAt(up, x, j);
    }
  }

  /** A chain from `x` in the linked world follows the parent's old chain as far as the first `x`. */
  lemma {:induction false} FollowsUp(w: World, x: nat, up: seq<nat>, k: nat, c: seq<nat>, j: nat)
    requires Chain(w, up) && k < |up| && up[k] == x && x < |w.spaces| && (forall i :: 0 <= i < k ==> up[i] != x)
    requires Chain(Linked(w, x, up[0]), c) && c[0] == x && j <= k
    ensures j + 1 < |c| && c[j + 1] == up[j]
    decreases j
  {
    var l := Linked(w, x, up[0]);
    if j == 0 {
      assert l.spaces[c[0]].parent == Some(up[0]);
    } else {
      FollowsUp(w, x, up, k, c, j - 1);
      assert w.spaces[up[j - 1]].parent == Some(up[j]);
      assert l.spaces[c[j]].parent == Some(up[j]);
    }
  }
}
