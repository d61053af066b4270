/** The emitter: code grows in fixed-size blocks, and patches are laid over it when it is written out. */
module CodeStreams {
  import opened Values
  import opened CodeGen
  import opened Streams

  const BLOCK_SIZE: nat := 16384
  const WORD_SIZE: nat := 4
  /** Writing out more function call slots than this is refused. */
  const CALL_LIMIT: nat := 1000

  /** The blocks end to end. */
  function Flat(blocks: seq<Code>): Code {
    if blocks == [] then [] else Flat(blocks[..|blocks| - 1]) + blocks[|blocks| - 1]
  }

  lemma FlatAppend(blocks: seq<Code>, b: Code)
    ensures Flat(blocks + [b]) == Flat(blocks) + b
  {
  }

  lemma FlatExtend(init: seq<Code>, last: Code, w: Code)
    ensures Flat(init + [last + w]) == Flat(init + [last]) + w
  {
  }

  lemma {:induction false} FlatPrefix(blocks: seq<Code>, n: nat)
    requires n <= |blocks|
    ensures |Flat(blocks[..n])| <= |Flat(blocks)|
    ensures Flat(blocks)[..|Flat(blocks[..n])|] == Flat(blocks[..n])
    decreases |blocks|
  {
    if n < |blocks| {
      var init := blocks[..|blocks| - 1];
      FlatPrefix(init, n);
      assert init[..n] == blocks[..n];
    } else {
      assert blocks[..n] == blocks;
    }
  }

  lemma FlatStep(blocks: seq<Code>, k: nat)
    requires k < |blocks|
    ensures Flat(blocks[..k + 1]) == Flat(blocks[..k]) + blocks[k]
        && |Flat(blocks[..k])| + |blocks[k]| <= |Flat(blocks)|
  {
    assert blocks[..k + 1] == blocks[..k] + [blocks[k]];
    FlatAppend(blocks[..k], blocks[k]);
    FlatPrefix(blocks, k + 1);
  }

  class CodeStream {
    var blocks: seq<Code>
    var codePos: nat
    var fixList: seq<Fix>
    var fixStack: seq<nat>
    var fixLoopStack: seq<bool>
    var patchList: seq<Patch>
    var numFuncCalls: nat

    ghost function Contents(): Stream
      reads this
    {
      Stream(Flat(blocks), patchList, fixList, fixStack)
    }

    ghost predicate Valid()
      reads this
    {
      && codePos == |Flat(blocks)|
      && (forall i :: 0 <= i < |blocks| ==> WORD_SIZE * |blocks[i]| <= BLOCK_SIZE)
      && |fixLoopStack| == |fixStack|
      && Contents().Valid()
    }

    constructor ()
      ensures Valid() && Contents() == Stream([], [], [], []) && fixLoopStack == [] && numFuncCalls == 0
    {
      blocks, codePos, fixList, fixStack, fixLoopStack, patchList, numFuncCalls := [], 0, [], [], [], [], 0;
    }

    /** Stores words in the last block when they fit with room to spare, otherwise in a new one. */
    method Put(w: Code)
      requires codePos == |Flat(blocks)| && (w == [] || WORD_SIZE * |w| <= BLOCK_SIZE)
      requires forall i :: 0 <= i < |blocks| ==> WORD_SIZE * |blocks[i]| <= BLOCK_SIZE
      modifies this`blocks, this`codePos
      ensures Flat(blocks) == old(Flat(blocks)) + w && codePos == old(codePos) + |w|
      ensures forall i :: 0 <= i < |blocks| ==> WORD_SIZE * |blocks[i]| <= BLOCK_SIZE
    {
      hide Flat;
      codePos := codePos + |w|;
      if blocks != [] {
        var n := |blocks| - 1;
        var bytesLeft := BLOCK_SIZE - WORD_SIZE * |blocks[n]|;
        if bytesLeft > WORD_SIZE * |w| {
          var init, last := blocks[..n], blocks[n];
          assert blocks == init + [last];
          FlatExtend(init, last, w);
          blocks := init + [last + w];
          return;
        }
      }
      FlatAppend(blocks, w);
      blocks := blocks + [w];
    }

    method Emit(w: Word) returns (addr: nat)
      requires Valid()
      modifies this
      ensures Valid() && addr == old(codePos) && fixLoopStack == old(fixLoopStack) && numFuncCalls == old(numFuncCalls)
      ensures Contents() == old(Contents()).Emit(w)
    {
      addr := codePos;
      Put([w]);
    }

    /** An identifier takes two words. */
    method EmitIdent(name: CString)
      requires Valid()
      modifies this
      ensures Valid() && fixLoopStack == old(fixLoopStack) && numFuncCalls == old(numFuncCalls)
      ensures Contents() == old(Contents()).Emit(Ident(name)).Emit(Num(0))
    {
      Put([Ident(name), Num(0)]);
      assert Flat(blocks) == old(Flat(blocks)) + [Ident(name)] + [Num(0)];
    }

    method AddPatch(addr: nat, value: nat)
      requires Valid() && Contents().AddPatch(addr, value).Valid()
      modifies this`patchList
      ensures Valid() && Contents() == old(Contents()).AddPatch(addr, value)
    {
      patchList := patchList + [Patch(addr, value)];
    }

    method EmitFix(kind: FixKind)
      requires Valid() && Contents().EmitFix(kind).Valid()
      modifies this
      ensures Valid() && fixLoopStack == old(fixLoopStack) && numFuncCalls == old(numFuncCalls)
      ensures Contents() == old(Contents()).EmitFix(kind)
    {
      fixList := fixList + [Fix(codePos, kind)];
      Put([Num(0)]);
    }

    method PushFixScope(isLoop: bool)
      requires Valid()
      modifies this`fixStack, this`fixLoopStack
      ensures Valid() && Contents() == old(Contents()).PushScope() && fixLoopStack == old(fixLoopStack) + [isLoop]
    {
      fixStack := fixStack + [|fixList|];
      fixLoopStack := fixLoopStack + [isLoop];
    }

    /** Whether some enclosing scope is a loop's. */
    method InLoop() returns (r: bool)
      ensures r <==> true in fixLoopStack
    {
      for i := 0 to |fixLoopStack|
        invariant true !in fixLoopStack[..i]
      {
        if fixLoopStack[i] {
          return true;
        }
      }
      return false;
    }

    /** Patches every fix of the innermost scope. */
    method FixLoop(start: nat, breakAt: nat, continueAt: nat)
      requires Valid() && fixStack != []
      modifies this`patchList
      ensures Contents() == old(Contents()).FixLoop(Targets(start, breakAt, continueAt))
    {
      var fixStart := fixStack[|fixStack| - 1];
      ghost var resolved := Resolving(fixList[fixStart..], Targets(start, breakAt, continueAt));
      var i := fixStart;
      while i < |fixList|
        invariant fixStart <= i <= |fixList|
        invariant patchList == old(patchList) + resolved[..i - fixStart]
      {
        var fixedIp := match fixList[i].kind
          case FixLoopStart => start
          case FixBreak => breakAt
          case FixContinue => continueAt;
        patchList := patchList + [Patch(fixList[i].addr, fixedIp)];
        i := i + 1;
      }
    }

    method PopFixScope()
      requires codePos == |Flat(blocks)| && fixStack != [] && |fixLoopStack| == |fixStack|
      requires forall i :: 0 <= i < |blocks| ==> WORD_SIZE * |blocks[i]| <= BLOCK_SIZE
      requires Contents().ScopeStart() <= |fixList| && Contents().PopScope().Valid()
      modifies this`fixList, this`fixStack, this`fixLoopStack
      ensures Valid() && Contents() == old(Contents()).PopScope()
      ensures fixLoopStack == old(fixLoopStack)[..|old(fixLoopStack)| - 1]
    {
      var newSize := fixStack[|fixStack| - 1];
      while |fixList| > newSize
        invariant newSize <= |fixList| <= |old(fixList)| && fixList == old(fixList)[..|fixList|]
        invariant fixStack == old(fixStack) && fixLoopStack == old(fixLoopStack)
      {
        fixList := fixList[..|fixList| - 1];
      }
      fixStack := fixStack[..|fixStack| - 1];
      fixLoopStack := fixLoopStack[..|fixLoopStack| - 1];
    }

    /**
      Writes the code out: the blocks end to end, then the patches over them. With too many call
      slots it stops before patching.
     */
    method EmitCodeStream() returns (stream: array<Word>)
      requires Valid()
      modifies this`numFuncCalls
      ensures fresh(stream) && numFuncCalls == old(numFuncCalls) + 1
      ensures numFuncCalls <= 1000 ==> stream[..] == Contents().Final()
      ensures numFuncCalls > 1000 ==> stream[..] == Contents().words
    {
      stream := new Word[codePos](_ => Num(0));
      var out, left := 0, codePos;
      for k := 0 to |blocks|
        invariant out == |Flat(blocks[..k])| && out + left == codePos && out <= codePos
        invariant stream[..out] == Flat(blocks[..k]) && numFuncCalls == old(numFuncCalls)
      {
        FlatStep(blocks, k);
        var n := if |blocks[k]| > left then left else |blocks[k]|;
        ghost var copied := stream[..out];
        forall i | 0 <= i < n {
          stream[out + i] := blocks[k][i];
        }
        assert stream[..out + n] == copied + blocks[k];
        out, left := out + n, left - n;
      }
      assert blocks[..|blocks|] == blocks;
      assert stream[..] == stream[..out];

      numFuncCalls := numFuncCalls + 1;
      if numFuncCalls > CALL_LIMIT {
        return;
      }
      for i := 0 to |patchList|
        invariant stream[..] == Patched(Contents().words, patchList[..i]) && numFuncCalls == old(numFuncCalls) + 1
      {
        assert patchList[..i + 1][..i] == patchList[..i];
        stream[patchList[i].addr] := Num(patchList[i].value);
      }
      assert patchList[..|patchList|] == patchList;
    }
  }
}
