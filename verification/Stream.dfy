/**
  Code under construction, as a value: words with placeholders, the patches recorded so far, and the
  jumps of open loops that still wait for their targets.
 */
module Streams {
  import opened CodeGen

  datatype Patch = Patch(addr: nat, value: nat)
  datatype FixKind = FixLoopStart | FixBreak | FixContinue
  datatype Fix = Fix(addr: nat, kind: FixKind)

  /** The addresses a loop's fixes resolve to. */
  datatype Targets = Targets(start: nat, breakAt: nat, continueAt: nat)

  function TargetOf(kind: FixKind, t: Targets): nat {
    match kind
    case FixLoopStart => t.start
    case FixBreak => t.breakAt
    case FixContinue => t.continueAt
  }

  /** The words after the patches are written over them, in order. */
  function Patched(w: Code, ps: seq<Patch>): (r: Code)
    ensures |r| == |w|
  {
    if ps == [] then w else
    var last := ps[|ps| - 1];
    var before := Patched(w, ps[..|ps| - 1]);
    if last.addr < |w| then before[last.addr := Num(last.value)] else before
  }

  /** The patches that resolve `fixes`. */
  function Resolving(fixes: seq<Fix>, t: Targets): (ps: seq<Patch>)
    ensures |ps| == |fixes|
    ensures forall i :: 0 <= i < |fixes| ==> ps[i] == Patch(fixes[i].addr, TargetOf(fixes[i].kind, t))
  {
    seq(|fixes|, i requires 0 <= i < |fixes| => Patch(fixes[i].addr, TargetOf(fixes[i].kind, t)))
  }

  datatype Stream = Stream(words: Code, patches: seq<Patch>, fixes: seq<Fix>, scopes: seq<nat>) {

    /** The code that would be written out now. */
    function Final(): (c: Code)
      ensures |c| == |words|
    {
      Patched(words, patches)
    }

    /** Where the fixes of the innermost open loop begin. */
    function ScopeStart(): nat {
      if scopes == [] then |fixes| else scopes[|scopes| - 1]
    }

    function InnerFixes(): seq<Fix> {
      if ScopeStart() <= |fixes| then fixes[ScopeStart()..] else []
    }

    /** The code with the innermost loop's fixes resolved as `t` says. */
    function View(t: Targets): (c: Code)
      ensures |c| == |words|
    {
      Patched(Final(), Resolving(InnerFixes(), t))
    }

    /** Every waiting or patched address exists and is patched at most once. */
    ghost predicate Valid() {
      && (forall i :: 0 <= i < |scopes| ==> scopes[i] <= |fixes|)
      && (forall i, j :: 0 <= i < j < |scopes| ==> scopes[i] <= scopes[j])
      && (forall i :: 0 <= i < |patches| ==> patches[i].addr < |words|)
      && (forall i :: 0 <= i < |fixes| ==> fixes[i].addr < |words|)
      && (forall i, j :: 0 <= i < j < |patches| ==> patches[i].addr != patches[j].addr)
      && (forall i, j :: 0 <= i < j < |fixes| ==> fixes[i].addr != fixes[j].addr)
      && (forall i, j :: 0 <= i < |patches| && 0 <= j < |fixes| ==> patches[i].addr != fixes[j].addr)
    }

    function Emit(w: Word): Stream {
      this.(words := words + [w])
    }

    function AddPatch(addr: nat, value: nat): Stream {
      this.(patches := patches + [Patch(addr, value)])
    }

    function EmitFix(kind: FixKind): Stream {
      this.(words := words + [Num(0)], fixes := fixes + [Fix(|words|, kind)])
    }

    function PushScope(): Stream {
      this.(scopes := scopes + [|fixes|])
    }

    function FixLoop(t: Targets): Stream {
      this.(patches := patches + Resolving(InnerFixes(), t))
    }

    function PopScope(): Stream
      requires scopes != [] && ScopeStart() <= |fixes|
    {
      this.(fixes := fixes[..ScopeStart()], scopes := scopes[..|scopes| - 1])
    }
  }

  lemma {:induction false} PatchedTwice(w: Code, a: seq<Patch>, b: seq<Patch>)
    ensures Patched(w, a + b) == Patched(Patched(w, a), b)
    decreases |b|
  {
    if b == [] {
      assert a + b == a;
    } else {
      var init := b[..|b| - 1];
      assert (a + b)[..|a + b| - 1] == a + init;
      PatchedTwice(w, a, init);
    }
  }

  /** Patches below its start do not reach appended code. */
  lemma {:induction false} PatchedPrefix(w: Code, c: Code, ps: seq<Patch>)
    requires forall i :: 0 <= i < |ps| ==> ps[i].addr < |w|
    ensures Patched(w + c, ps) == Patched(w, ps) + c
    decreases |ps|
  {
    if ps != [] {
      PatchedPrefix(w, c, ps[..|ps| - 1]);
    }
  }

  /** A patched address keeps its value under patches elsewhere. */
  lemma {:induction false} PatchedElsewhere(w: Code, k: nat, x: Word, ps: seq<Patch>)
    requires k < |w| && forall i :: 0 <= i < |ps| ==> ps[i].addr != k
    ensures Patched(w[k := x], ps) == Patched(w, ps)[k := x]
    decreases |ps|
  {
    if ps != [] {
      PatchedElsewhere(w, k, x, ps[..|ps| - 1]);
    }
  }

  /** Every patch and fix added from `s` to `s'` is above the end of `s`. */
  ghost predicate Grows(s: Stream, s': Stream) {
    && s.Valid() && s'.Valid() && s'.scopes == s.scopes && |s.words| <= |s'.words|
    && s.patches <= s'.patches && s.fixes <= s'.fixes
    && (forall i :: |s.patches| <= i < |s'.patches| ==> s'.patches[i].addr >= |s.words|)
    && (forall i :: |s.fixes| <= i < |s'.fixes| ==> s'.fixes[i].addr >= |s.words|)
  }

  lemma GrowsBoth(s0: Stream, s1: Stream, s2: Stream)
    requires Grows(s0, s1) && Grows(s1, s2)
    ensures Grows(s0, s2)
  {
    hide Stream.Valid;
    forall i | |s0.patches| <= i < |s2.patches| ensures s2.patches[i].addr >= |s0.words| {
      if i < |s1.patches| {
        assert s2.patches[i] == s1.patches[i];
      }
    }
    forall i | |s0.fixes| <= i < |s2.fixes| ensures s2.fixes[i].addr >= |s0.words| {
      if i < |s1.fixes| {
        assert s2.fixes[i] == s1.fixes[i];
      }
    }
  }

  /** From `s` to `s'`, `code` was appended, seen with the innermost loop's jumps resolved. */
  ghost predicate Emits(s: Stream, s': Stream, code: Code, t: Targets) {
    Grows(s, s') && s'.View(t) == s.View(t) + code
  }

  lemma EmitsLength(s: Stream, s': Stream, code: Code, t: Targets)
    requires Emits(s, s', code, t)
    ensures |s'.words| == |s.words| + |code|
  {
  }

  lemma EmitsNothing(s: Stream, t: Targets)
    requires s.Valid()
    ensures Emits(s, s, [], t)
  {
  }

  lemma EmitsBoth(s0: Stream, s1: Stream, s2: Stream, a: Code, b: Code, t: Targets)
    requires Emits(s0, s1, a, t) && Emits(s1, s2, b, t)
    ensures Emits(s0, s2, a + b, t)
  {
    hide Grows, Patched, Stream.View;
    GrowsBoth(s0, s1, s2);
    assert s2.View(t) == s0.View(t) + (a + b);
  }

  lemma EmitsWord(s: Stream, w: Word, t: Targets)
    requires s.Valid()
    ensures Emits(s, s.Emit(w), [w], t)
  {
    PatchedPrefix(s.words, [w], s.patches);
    PatchedPrefix(s.Final(), [w], Resolving(s.InnerFixes(), t));
  }

  /** A placeholder of an open loop already shows its target. */
  lemma EmitsFix(s: Stream, kind: FixKind, t: Targets)
    requires s.Valid() && s.scopes != []
    ensures Emits(s, s.EmitFix(kind), [Num(TargetOf(kind, t))], t)
  {
    var s' := s.EmitFix(kind);
    FixGrows(s, kind);
    hide Grows, Stream.Valid;
    var addr := |s.words|;
    PatchedPrefix(s.words, [Num(0)], s.patches);
    assert s'.InnerFixes() == s.InnerFixes() + [Fix(addr, kind)];
    var ps := Resolving(s.InnerFixes(), t);
    assert Resolving(s'.InnerFixes(), t) == ps + [Patch(addr, TargetOf(kind, t))];
    PatchedTwice(s'.Final(), ps, [Patch(addr, TargetOf(kind, t))]);
    OnePatch(Patched(s'.Final(), ps), addr, TargetOf(kind, t));
    PatchedPrefix(s.Final(), [Num(0)], ps);
  }

  lemma FixGrows(s: Stream, kind: FixKind)
    requires s.Valid() && s.scopes != []
    ensures Grows(s, s.EmitFix(kind)) && s.ScopeStart() <= |s.fixes|
    ensures forall i :: 0 <= i < |s.patches| ==> s.patches[i].addr < |s.words|
    ensures forall i :: 0 <= i < |s.InnerFixes()| ==> s.InnerFixes()[i].addr < |s.words|
  {
    hide Patched;
  }

  /**
    Back-patching: a placeholder emitted after `a`, filled in after `b`, shows the patched value as
    if it had been known from the start.
   */
  lemma EmitsPatched(s0: Stream, s1: Stream, s2: Stream, a: Code, hole: Word, b: Code, value: nat, t: Targets)
    requires Emits(s0, s1, a, t) && Emits(s1.Emit(hole), s2, b, t)
    ensures Emits(s0, s2.AddPatch(|s1.words|, value), a + [Num(value)] + b, t)
  {
    hide Grows, Stream.Valid, Emits, Patched;
    var k := |s1.words|;
    EmitsHole(s0, s1, s2, a, hole, b, t);
    PatchGrows(s0, s1, hole, s2, value);
    var s3 := s2.AddPatch(k, value);
    PatchedTwice(s2.words, s2.patches, [Patch(k, value)]);
    OnePatch(s2.Final(), k, value);
    assert s3.Final() == s2.Final()[k := Num(value)];
    assert s3.InnerFixes() == s2.InnerFixes();
    PatchedElsewhere(s2.Final(), k, Num(value), Resolving(s2.InnerFixes(), t));
    assert s3.View(t) == s2.View(t)[k := Num(value)];
    var v := s0.View(t);
    assert (v + (a + [hole] + b))[k := Num(value)] == v + (a + [Num(value)] + b);
    EmitsSpelled(s0, s3, a + [Num(value)] + b, t);
  }

  lemma EmitsSpelled(s: Stream, s': Stream, code: Code, t: Targets)
    requires Grows(s, s') && s'.View(t) == s.View(t) + code
    ensures Emits(s, s', code, t)
  {
  }

  lemma EmitsHole(s0: Stream, s1: Stream, s2: Stream, a: Code, hole: Word, b: Code, t: Targets)
    requires Emits(s0, s1, a, t) && Emits(s1.Emit(hole), s2, b, t)
    ensures s2.View(t) == s0.View(t) + (a + [hole] + b) && |s0.View(t)| + |a| == |s1.words|
        && |s2.words| == |s1.words| + 1 + |b|
    ensures Grows(s0, s1) && Grows(s1.Emit(hole), s2) && s1.Valid()
  {
    EmitsWord(s1, hole, t);
    hide Patched, Grows, Stream.View, Stream.Valid;
    EmitsBoth(s0, s1, s1.Emit(hole), a, [hole], t);
    EmitsBoth(s0, s1.Emit(hole), s2, a + [hole], b, t);
  }

  lemma OnePatch(w: Code, k: nat, value: nat)
    requires k < |w|
    ensures Patched(w, [Patch(k, value)]) == w[k := Num(value)]
  {
  }

  lemma HoleIsFresh(s1: Stream, hole: Word, s2: Stream)
    requires s1.Valid() && Grows(s1.Emit(hole), s2)
    ensures forall i :: 0 <= i < |s2.patches| ==> s2.patches[i].addr != |s1.words|
    ensures forall i :: 0 <= i < |s2.fixes| ==> s2.fixes[i].addr != |s1.words|
  {
  }

  /** A hole is patched once, and no loop claims it. */
  lemma PatchGrows(s0: Stream, s1: Stream, hole: Word, s2: Stream, value: nat)
    requires Grows(s0, s1) && Grows(s1.Emit(hole), s2) && |s1.words| < |s2.words|
    ensures Grows(s0, s2.AddPatch(|s1.words|, value))
    ensures forall i :: 0 <= i < |s2.InnerFixes()| ==> s2.InnerFixes()[i].addr != |s1.words|
  {
    HoleIsFresh(s1, hole, s2);
    GrowsBoth(s0, s1, s1.Emit(hole));
    GrowsBoth(s0, s1.Emit(hole), s2);
  }

  /**
    Closing a loop: its fixes become patches, each once, and the code it emitted inside its own scope
    is what the enclosing scope sees.
   */
  lemma EmitsLoop(s0: Stream, s1: Stream, code: Code, inner: Targets, outer: Targets)
    requires s0.Valid() && Emits(s0.PushScope(), s1, code, inner)
    ensures s1.scopes != [] && s1.ScopeStart() == |s0.fixes| <= |s1.fixes|
    ensures Emits(s0, s1.FixLoop(inner).PopScope(), code, outer)
  {
    var s2 := s1.FixLoop(inner).PopScope();
    LoopGrows(s0, s1, inner);
    assert s0.PushScope().InnerFixes() == [];
    assert s1.View(inner) == s0.Final() + code;
    hide Grows, Stream.Valid, Emits, Patched;
    assert s2.Final() == s0.Final() + code by {
      PatchedTwice(s1.words, s1.patches, Resolving(s1.InnerFixes(), inner));
    }
    PatchedPrefix(s0.Final(), code, Resolving(s0.InnerFixes(), outer));
    EmitsSpelled(s0, s2, code, outer);
  }

  lemma LoopGrows(s0: Stream, s1: Stream, t: Targets)
    requires s0.Valid() && Grows(s0.PushScope(), s1)
    ensures s1.scopes != [] && s1.ScopeStart() == |s0.fixes| <= |s1.fixes|
    ensures var s2 := s1.FixLoop(t).PopScope();
            Grows(s0, s2) && s2.fixes == s0.fixes && s2.scopes == s0.scopes && s2.InnerFixes() == s0.InnerFixes()
    ensures forall i :: 0 <= i < |s0.InnerFixes()| ==> s0.InnerFixes()[i].addr < |s0.words|
  {
    hide Patched;
    assert s1.ScopeStart() == |s0.fixes|;
    LoopPatchesApart(s0, s1, t);
    var s2 := s1.FixLoop(t).PopScope();
    assert s2.fixes == s0.fixes && s2.scopes == s0.scopes;
    assert forall i :: 0 <= i < |s0.fixes| ==> s0.fixes[i] == s1.fixes[i];
  }

  /** The patches a loop's fixes become are new, above its start, and apart from everything else. */
  lemma LoopPatchesApart(s0: Stream, s1: Stream, t: Targets)
    requires s0.Valid() && Grows(s0.PushScope(), s1) && s1.scopes != [] && s1.ScopeStart() == |s0.fixes| <= |s1.fixes|
    ensures var ps := s1.FixLoop(t).patches;
            && s1.patches <= ps
            && (forall i :: 0 <= i < |ps| ==> ps[i].addr < |s1.words|)
            && (forall i, j :: 0 <= i < j < |ps| ==> ps[i].addr != ps[j].addr)
            && (forall i, j :: 0 <= i < |ps| && 0 <= j < |s0.fixes| ==> ps[i].addr != s1.fixes[j].addr)
            && (forall i :: |s0.patches| <= i < |ps| ==> ps[i].addr >= |s0.words|)
  {
    hide Patched;
    var ps := s1.FixLoop(t).patches;
    var n := |s1.patches|;
    assert forall i :: n <= i < |ps| ==> ps[i].addr == s1.fixes[|s0.fixes| + i - n].addr;
    assert forall i :: 0 <= i < n ==> ps[i] == s1.patches[i];
  }
}
