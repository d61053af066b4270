/** A script from source to result: compiled into the code stream, then run in place. */
module Interpreter {
  import opened Values
  import opened Ast
  import opened CodeGen
  import opened Machine
  import opened Semantics
  import opened StmtSemantics
  import opened ProgramCorrect
  import opened StmtCompiler
  import opened VmLoop

  /**
    Compiles and runs a script for at most `budget` opcodes. It gives a result exactly if the compiled
    script ends within them; then the store and the value returned are those of the big-step meaning.
    Otherwise the store is that of the machine after `budget` opcodes, and a script without an end never
    gives a result.
   */
  method RunScript(ar: Arith, b: Block, store: Store, budget: nat) returns (result: Option<Value>, after: Store)
    requires Served(b)
    ensures result.None? <==> Run(Compiled(ar, b), budget, Running(Start(store))).Running?
    ensures result.None? ==> after == Run(Compiled(ar, b), budget, Running(Start(store))).s.vars
    ensures result.Some? ==>
      exists fuel :: var o := ExecBlock(ar, b, store, false, fuel);
        !o.OutOfFuel? && after == FinalStore(o) && (o.Gave? ==> result == Some(o.result))
    ensures (forall fuel :: ExecBlock(ar, b, store, false, fuel).OutOfFuel?) ==> result.None?
  {
    hide Run, ExecBlock, Step;
    var code := CompileScript(ar, b);
    var vm := new Vm(Program(ar, code[..]), store);
    assert Program(vm.ar, vm.code) == Compiled(ar, b) && vm.Snapshot() == Start(store);
    forall n: nat ensures !Run(Compiled(ar, b), n, Running(Start(store))).Stuck? {
      NeverStuck(ar, b, store, n);
    }
    ghost var steps;
    result, steps := vm.RunVM(budget);
    after := vm.vars;
    if result.Some? {
      RunsOnward(Compiled(ar, b), steps, budget, Running(Start(store)));
      var fuel := Finishes(ar, b, store, steps);
      SameResult(ar, b, store, steps, fuel);
    }
  }

  lemma Finishes(ar: Arith, b: Block, store: Store, n: nat) returns (fuel: nat)
    requires Served(b) && !Run(Compiled(ar, b), n, Running(Start(store))).Running?
    ensures !ExecBlock(ar, b, store, false, fuel).OutOfFuel?
  {
    hide Run;
    HaltsTogether(ar, b, store);
    fuel :| !ExecBlock(ar, b, store, false, fuel).OutOfFuel?;
  }
}
