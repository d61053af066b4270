# korkscript: a verified model

korkscript is a TorqueScript front end: a Pratt parser builds syntax trees, a one-pass compiler
turns them into bytecode with back-patched jumps, and a stack machine runs the bytecode on an int
stack, a float stack and a byte-level string stack, looking functions up in namespaces that
packages can override. This project models that pipeline and the structures it relies on in Dafny,
and proves what they are for:

* **From script to result.** `Pratt`/`Parser` build `Ast` trees; `Compiler`/`StmtCompiler` emit
  words, placeholders and patches into `CodeStreams` and are proved to leave exactly the code
  `CodeGen` describes; `ExprCorrect`, `StmtCorrect` and `ProgramCorrect` prove that this code does
  what the big-step meaning in `Semantics`/`StmtSemantics` says, on every program of the fragment
  and every terminating or diverging run, within the twelve-slot operand stacks; `VmLoop` is the
  interpreter loop over its arrays; `Interpreter` puts compiler and machine together. `Switch` adds
  the rewriting of switch statements. `CodeShapes`, `ShapedExprs`, `ShapedStmts` and `InsideRuns`
  find from the code alone how many operands lie on each stack in front of every instruction, and
  show that runs keep to it and never leave a node's own code before its end.
* **What a script may rely on.** `Uses` and `Variables` say in values alone how what an expression computes is
  tested, negated, returned, stored, copied and read back; `Precedence` says of texts alone which operator
  binds tighter.
* **Where the compiler goes wrong.** `Limits` (a float-preferring `!`), `ShortCircuits` (right
  operands that return a stale address) and `VarWanted` (a variable wanted from a node that leaves
  none) say what the three kinds of trees the fragment excludes do, and exactly when they still come
  out right, with inputs where they do not; `Overflows` says that code without jumps needs all the room asked for it.
* **String stack.** `StringStacks`, `StringFrames` and `StringMemory` treat the one growing buffer
  that strings, arguments and call frames share; `StringText` and `StringCode` show that its bytes
  say what the machine's string stack says, through every run of every served script.
* **Namespaces.** `Namespaces` to `NamespaceStates` treat packages, declarations, resolution,
  parent chains and the open-addressing lookup cache. A table of what was declared for which namespace and package,
  with the active packages stacked on it, is the simple model everything refines.
* **The parser's grammar.** `PrattRoundTrip` and `Parentheses` relate the parser to a printer: text
  comes back as the tree it was printed from, and has no parentheses to spare.
* **The rest of the runtime.** `Frames` (script calls, native calls, nested executions),
  `Dictionaries` (the variable table), `FindMatch` (wildcards), `Escape`, `EscapeInPlace` and
  `LexString` (escapes in and out), `Dso`, `DsoFile` and `CompilerTables` (the bytecode file).

Code that updates objects is modelled by classes whose methods are proved to take one abstract
value to the next (`Snapshot`, `Contents`, `TheWorld`, `entries`); the theorems are about those
values. Floats are bit patterns, and what the host does with them (arithmetic, text conversion,
case folding) is a parameter (`Values.Arith`): every theorem holds for all of it.

`dafny verify dfyconfig.toml` checks the whole project.

## Model

| member | source | states |
|---|---|---|
| `ExprCorrect.ExprRuns` | engine/console/astNodes.cc:429-536 | for every expression, every requested type and every machine state with room, the emitted code ends at its end address having left exactly the expression's value in that type (nothing for None), the meaning's store, and everything below on all three stacks |
| `ExprCorrect.ShortCircuitRuns` | engine/console/astNodes.cc:624-647 | a short-circuit operator keeps the deciding operand as its value and runs the right operand only when the left does not decide |
| `ExprCorrect.StrictRuns` | engine/console/astNodes.cc:648-679 | comparisons and bit operators evaluate the right operand first, hold it, and leave one int |
| `ExprCorrect.FloatBinaryRuns` | engine/console/astNodes.cc:466-536 | float arithmetic evaluates right before left and leaves the result of left operator right, converted as asked |
| `ExprCorrect.ConditionalRuns` | engine/console/astNodes.cc:429-457 | a conditional runs its test and exactly one branch, whose code leaves the value in the requested type |
| `ExprCorrect.StrEqRuns` | engine/console/astNodes.cc:708-725 | `$=` and `!$=` leave the case-folded comparison of the two operand strings on the int stack and the pending strings as they were |
| `ExprCorrect.CatRuns` | engine/console/astNodes.cc:734-779 | concatenations leave left, glue and right as one string, whatever their operands left and took off meanwhile |
| `ExprCorrect.AssignNumberRuns` | engine/console/astNodes.cc:1148-1301 | an assignment moved as a number stores it, rounded as variables are, under the name and index, and leaves it converted |
| `ExprCorrect.AssignStringRuns` | engine/console/astNodes.cc:1218-1237 | `%a[i] = str` keeps str aside while the index is built, stores exactly str under the name followed by the index, and leaves it |
| `ExprCorrect.AssignVarRuns` | engine/console/astNodes.cc:1148-1301 | an assignment between variables copies what the source holds after the target exists |
| `ExprCorrect.AssignOpRuns` | engine/console/astNodes.cc:1369-1454 | a compound assignment evaluates the right side, then reads, combines and stores the variable, and leaves the new value |
| `InsideRuns.ExprArrives` | engine/console/astNodes.cc:429-536 | the same as `ExprRuns`, with the run inside the expression's own words until it comes to their end for the first time, and with the variable the meaning says left as the current one |
| `ShapedExprs.ExprShaped` | engine/console/astNodes.cc:429-1454 | in front of every instruction of any served expression's code the heights of the three stacks are fixed, by whatever path it is reached; the code leaves its value and nothing else, and a byte is free behind the head wherever one is appended to it |
| `ShapedStmts.BlockShaped` | engine/console/astNodes.cc:52-382 | the same for statements: break, continue and falling through meet with the same stacks |
| `Runs.ConversionRuns` | engine/console/astNodes.cc:2403-2539 | a stack conversion takes the delivered value off its stack and leaves the converted one, for every pair of types |
| `StmtCorrect.StmtRuns` | engine/console/astNodes.cc:152-382 | every statement that ends in the meaning ends in the code: at its end address, at the innermost loop's break or continue address, or by returning the meaning's value; with the meaning's store and unchanged stack heights |
| `StmtCorrect.BlockRuns` | engine/console/astNodes.cc:52-82 | the same for blocks; a statement that leaves skips the rest |
| `StmtCorrect.IfRuns` | engine/console/astNodes.cc:261-309 | the branch the test selects runs, and control meets behind both |
| `StmtCorrect.LoopRuns` | engine/console/astNodes.cc:311-382 | `while`, `for` and `do` loops run initialiser, test, body and step as the meaning does, for any number of rounds, with break and continue going to their own loop's addresses |
| `StmtSemantics.MoreFuel` | engine/console/astNodes.cc:311-382 | the meaning of a block that ends does not depend on how much fuel it was given |
| `ProgramCorrect.ScriptRuns` | engine/console/codeBlock.cc:752-768 | a compiled script either returns with the meaning's store, result and empty stacks, or is still running after as many steps as the meaning has fuel |
| `ProgramCorrect.NeverStuck` | engine/console/consoleInternal.h:67-78 | at no step of any run does a served script index an operand array outside its twelve slots, read past its code or take from an empty stack |
| `ProgramCorrect.HaltsTogether` | engine/console/compiledEval.cc:1116-1217 | the compiled script halts if and only if the script does |
| `ProgramCorrect.SameResult` | engine/console/compiledEval.cc:1171-1217 | whatever the compiled script ends with is what the script ends with |
| `Uses.UsedAsComputed` | engine/console/astNodes.cc:205-320 | whatever computes an int, a float or a string is tested by `if`, `?:` and loops, negated, returned and stored as that value, wherever it stands; strings are tested and negated as the float they read as |
| `Uses.UntypedUsed` | engine/console/astNodes.cc:788-821 | what passes on a variable is tested as a float but negated as an int, so `!x` of 0.5 is 1; it is returned as a string, and a conditional of variables is stored as one |
| `Uses.OperatesConverts` | engine/console/astNodes.cc:2403-2539 | asking an operator for another type gives the conversion of what it computes, with the same effects |
| `Uses.ConditionalCuts` | engine/console/astNodes.cc:459-462 | a conditional is of the type of its first branch, so the second loses what that type cannot hold |
| `Uses.ComparesToOne` | engine/console/compiledEval.cc:1219-1248 | comparisons give 1 or 0, the right operand having been evaluated first |
| `Uses.AgreesToOne` | engine/console/astNodes.cc:708-725 | `$=` gives 1 exactly where the strings agree but for case, `!$=` exactly where they do not |
| `Variables.EvalCanonical` | engine/console/compiledEval.cc:1432-1448 | from variables that hold strings, 32 bits and single-precision floats evaluation leaves such variables, and loses none |
| `Variables.BlockCanonical` | engine/console/compiledEval.cc:1432-1448 | so does running a script, however it ends |
| `Variables.CopiesExactly` | engine/console/compiledEval.cc:395-416 | assigning a variable or element to another leaves exactly what the source holds if and only if that is such a value; without a source, the empty string |
| `Variables.ReadsBack` | engine/console/compiledEval.cc:1412-1448 | after `x = e`, or an element of x, reading it in any type gives what e computed: strings as they are, ints as signed 32 bits, floats in single precision, and their conversions |
| `Variables.MissingReads` | engine/console/compiledEval.cc:342-355 | a variable never assigned reads as zero or the empty string, and reading does not make it |
| `Variables.CompoundStores` | engine/console/astNodes.cc:1369-1454 | `x += e` stores what `x = x + e` does, for every operator, if x is there once e is evaluated |
| `Variables.CompoundMakes` | engine/console/astNodes.cc:1369-1454 | of a variable or element that is not there it stores what the operator makes of the empty string read as a number |
| `Variables.ScriptCopies` | engine/console/compiledEval.cc:1427-1448 | the script `b = e; a = b; return a;` returns what e computes, as variables keep it: a string exactly |
| `ShortCircuits.ShortCircuitRight` | engine/console/astNodes.cc:624-647 | for every right operand, every requested type but a variable, and every left operand: the operator delivers its value and store exactly if the left operand does not decide, or the returned address is one where only the right operand's int is missing and storing the deciding int there changes nothing |
| `ShortCircuits.ShortCircuitConstant` | engine/console/astNodes.cc:1107-1139 | before a bare name, which returns the address handed down, the operator works exactly if the left operand does not decide |
| `ShortCircuits.ConstantHangs` | engine/console/astNodes.cc:1107-1139 | where it does decide, behind a left operand that returns its own end, the machine stays at the jump for ever |
| `ShortCircuits.ShortCircuitAssign` | engine/console/astNodes.cc:1148-1301 | before an assignment - int, float or string, plain or element, nested or not - it works exactly if the left operand does not decide, or all that is assigned is assigned as an int, no index is entered and no store changes anything |
| `ShortCircuits.ShortCircuitPlain` | engine/console/astNodes.cc:1148-1301 | before assignments of variables, not elements: exactly if the left operand does not decide, or each of them is assigned as an int and holds the deciding int already |
| `ShortCircuits.AssignStores` | engine/console/astNodes.cc:1295-1301 | where it lands among assignments of an int, the deciding int is stored in all of them, although they are skipped in the meaning; the operator's own value is right |
| `ShortCircuitUses.ShortCircuitOpens` | engine/console/astNodes.cc:52-82 | anywhere in a block, behind statements of the fragment, an operator that opens a statement - as its expression, its test or what it returns - works exactly under that condition, with the address the compiler itself hands down |
| `ShortCircuitUses.NameHangs` | engine/console/astNodes.cc:1107-1139 | a script of a true literal, a logical or and a bare name never ends |
| `ShortCircuitUses.OneStored` | engine/console/astNodes.cc:1295-1301 | a script of the literal 1, a logical or and `(x = 5)` puts 1 into `x`, and is right exactly if that is there already |
| `VarWanted.VariableWanted` | engine/console/astNodes.cc:1148-1237 | an assignment that moves its right-hand side as a variable does what it means exactly if the tests select a node that leaves a variable, or one whose code leaves nothing while the variable current anyway holds the value meant; a node that leaves an operand spoils the stacks |
| `VarWanted.CurrentCopied` | engine/console/compiledEval.cc:1427-1448 | wherever the selected node leaves no operand, what is assigned is the variable current then, whatever it is |
| `VarWanted.LiteralMissed` | engine/console/astNodes.cc:429-457 | `a = b = c ? x : 1` with a zero in `c` puts that zero into `b` |
| `VarWanted.SumLeft` | engine/console/astNodes.cc:2403-2539 | `a = b = c ? x : y + 1` with a zero in `c` leaves the sum on the float stack |
| `Limits.NegatedFloat` | engine/console/astNodes.cc:788-821 | the conversion behind a float-preferring `!` wanted as anything but an int leaves that int behind and takes or stores a float that is not its own, sticks for want of one, or ends the call |
| `Limits.NegatedFloatRight` | engine/console/astNodes.cc:788-821 | for every requested type: such a `!` delivers its value and store if and only if its result is wanted as an int |
| `Limits.NotZeroSticks` | engine/console/astNodes.cc:788-821 | the script `!0.0;` takes from an empty float stack |
| `Overflows.RoomIsExact` | engine/console/consoleInternal.h:67-78 | a served expression without jumps - numbers, strings, variables, elements and assignments alike - comes to its end exactly if all three stacks have room for its computed peak, and runs off one of them on the way exactly if they have not |
| `Overflows.ExprMeasured` | engine/console/astNodes.cc:429-1454 | the most that such code has on each stack at once, added up instruction by instruction, is that peak |
| `CodeGen.LengthIgnoresTargets` | engine/console/compiler.h:426-455 | code does not change its length with the addresses its jumps are patched to |
| `CodeStreams.CodeStream.Emit` | engine/console/compiler.h:392-400 | a word goes to the end of the stream, across chunk boundaries too |
| `CodeStreams.CodeStream.EmitFix` | engine/console/compiler.h:443-455 | a placeholder is emitted and noted, with its kind, in the innermost scope |
| `CodeStreams.CodeStream.FixLoop` | engine/console/compiler.cc:508-544 | every placeholder of the innermost loop is patched to that loop's own start, break or continue address, and no other |
| `CodeStreams.CodeStream.PopFixScope` | engine/console/compiler.h:468-477 | the placeholders of the scope, and only those, are forgotten |
| `CodeStreams.CodeStream.EmitCodeStream` | engine/console/compiler.cc:546-591 | the chunks come out as one array holding the words emitted with all patches applied; with more than 1000 calls nothing is patched |
| `Streams.EmitsLoop` | engine/console/compiler.cc:508-544 | fixing a loop's scope resolves exactly the placeholders its body left, so nested loops compose and each address is patched at most once |
| `Streams.LoopPatchesApart` | engine/console/compiler.cc:508-544 | the patches of one loop never meet an address that is patched already |
| `Compiler.Compile` | engine/console/astNodes.cc:429-1454 | compiling any expression node emits, once all patches are applied, the code the theorems are about, and returns the address the source returns - for constants and assignments the stale one |
| `Compiler.CompileShortCircuit` | engine/console/astNodes.cc:624-647 | the jump is emitted with a hole that is patched to the address the right operand returned |
| `Compiler.CompileConditional` | engine/console/astNodes.cc:429-457 | the two jumps of a conditional are patched over what was emitted between them |
| `StmtCompiler.CompileStmt` | engine/console/astNodes.cc:152-382 | the same for statements, with break and continue left as placeholders of the enclosing loop |
| `StmtCompiler.CompileLoop` | engine/console/astNodes.cc:311-382 | a loop opens a scope, emits its parts, fixes and closes the scope, and leaves no placeholder of its own |
| `StmtCompiler.CompileScript` | engine/console/codeBlock.cc:748-768 | compiling a script writes out exactly the program the correctness theorems are about |
| `VmLoop.Vm.Jumps` | engine/console/compiledEval.cc:1116-1168 | the jump opcodes, in place, take and pop what the machine's steps take and pop |
| `VmLoop.Vm.BinaryOperators` | engine/console/compiledEval.cc:1219-1342 | comparisons and operators combine the top two slots in place, top first |
| `VmLoop.Vm.Selections` | engine/console/compiledEval.cc:1350-1410 | selecting a variable, by name or by the string on top, makes it exist if asked |
| `VmLoop.Vm.Saves` | engine/console/compiledEval.cc:1432-1448 | saving stores the top, converted, in the current variable and pops nothing |
| `VmLoop.Vm.Rewinds` | engine/console/compiledEval.cc:2054-2064 | the rewinds and the comparison take one pending string off |
| `VmLoop.Vm.RunVM` | engine/console/compiledEval.cc:796-2582 | the loop over arrays and tops goes through exactly the machine's configurations; where the machine never sticks, no array access leaves its bounds |
| `Interpreter.RunScript` | engine/console/codeBlock.cc:888-948 | compiling a script and running the result gives a value exactly if the compiled script ends within the budget; value and store are then those of its big-step meaning, else the store is the machine's after the budget, and a meaning without an end gives nothing |
| `Switch.SwitchMeans` | engine/console/astNodes.cc:241-259 | the rewritten switch runs the body of the first case whose list holds the selector's value, else the default, for any number of cases, when evaluating the selector has no effect and the case values leave it what it is |
| `Switch.EffectFreeSwitch` | engine/console/astNodes.cc:241-259 | that holds in every store when neither the selector nor a case value contains an assignment |
| `Switch.SwitchFits` | engine/console/astNodes.cc:241-259 | a switch over served parts is served: the or-chains it makes never have a stale right operand |
| `Switch.CaseNode.PropagateSwitchExpr` | engine/console/astNodes.cc:254-259 | rewriting the tests node after node, in place, leaves the statement for the cases as parsed |
| `StringStacks.StaysSound` | engine/console/stringStack.h:136-427 | after any operation every string scan ends inside the buffer, frames point at their slots, offsets rise, and the head's length is the length of its string |
| `StringStacks.AdvanceSettles` | engine/console/stringStack.h:294-304 | advancing is safe over any head; the new head's length is right exactly over a string, or where the byte behind a number is a NUL |
| `StringFrames.FrameRestored` | engine/console/stringStack.h:400-427 | from a frame's push through any well-nested activity to its pop, start, length, kind, value, slots and frames are those of before, and so is every byte up to the end of the return space; a head shorter than that reads the same |
| `StringFrames.LongHeadAfterFrame` | engine/console/stringStack.h:400-427 | a string head that reaches over the return space reads, after the pop, as its first 512 bytes followed by the string the frame left where it began; its length is that of before, which is right exactly if what was left there is as long as what it replaced |
| `StringFrames.CallKeeps` | engine/console/stringStack.cc:35-63 | at the call the argument list is exactly the values the evaluations left, in order, strings intact though arguments made calls themselves, and of one that ends by setting or returning a value that value, for fewer than 19 (the first 19 of more); when the callee is done the caller's stack is back, under whatever it returns |
| `StringFrames.SetReads` | engine/console/stringStack.h:136-200 | a value set on any stack - unsigned, float bits or string - is what the head reads as |
| `StringFrames.StaysAbove` | engine/console/stringStack.h:294-427 | no operation above a stack touches its slots, frames or lower bytes |
| `StringText.ExecuteShows` | engine/console/compiledEval.cc:2039-2064 | each string opcode does to the bytes what the machine's step does to its strings, and the comparison finds the same |
| `StringText.RunShows` | engine/console/stringStack.h:294-397 | after any run that the byte-level stack follows the bytes show the machine's pending strings and head, and everything below is as it was; `ScriptOnBytes` shows that it always follows |
| `StringCode.CodeOnBytes` | engine/console/astNodes.cc:708-779 | with as many slots left as the expression may need, no assertion of the string stack fails, and the code of a string expression leaves the concatenation as the head's bytes; of `$=`, the comparison on the int stack; of `%a[i] = str`, exactly str under the joined name; with slots, frames and lower bytes untouched |
| `StringCode.ScriptOnBytes` | engine/console/compiledEval.cc:2039-2064 | at every step of every run of a served script no assertion of the string stack fails, the bytes show the machine's strings, and what lay below is untouched, given as many slots as the script may need |
| `StringCode.ScriptOnEmptyStack` | engine/console/stringStack.h:294-330 | on a string stack with nothing set aside every served script finds the slots it needs at every step |
| `StringMemory.StringStack.AdvanceChar` | engine/console/stringStack.h:311-330 | the head is set aside with its length, the character and a NUL follow it |
| `StringMemory.StringStack.Rewind` | engine/console/stringStack.h:339-350 | the slot on top is the head again, running on into what followed it; a number's place is terminated first |
| `StringMemory.StringStack.RewindTerminate` | engine/console/stringStack.h:353-360 | the same, ending where the present head starts |
| `StringMemory.StringStack.Compare` | engine/console/stringStack.h:380-397 | whether the two topmost strings match; both go and an empty one is left |
| `StringMemory.StringStack.PushFrame` | engine/console/stringStack.h:400-416 | the frame starts a return space behind the old head, with an empty string |
| `StringMemory.StringStack.PopFrame` | engine/console/stringStack.h:418-427 | everything about the head is what the frame's slot saved |
| `StringMemory.StringStack.GetArgcArgv` | engine/console/stringStack.cc:35-63 | the array holds the name, then the arguments of the topmost frame, at most nineteen |
| `Namespaces.UnhookInverts` | engine/console/consoleNamespace.cc:122-186 | taking a package off undoes its activation exactly: parents, entry lists and entry owners |
| `Namespaces.TopComesOff` | engine/console/consoleNamespace.cc:153-191 | the world with the last activated package taken off is the world of the packages before it |
| `Resolution.WalkResolves` | engine/console/consoleNamespace.cc:109-151 | with any packages active, walking up from a namespace finds the entry of the most recently activated package that declares the function for it, else its own, else what its parent resolves |
| `Resolution.ParentReachesNextLayer` | engine/console/compiledEval.cc:1850-1865 | a `Parent::` call out of an override reaches exactly the next layer down, whatever is active above |
| `Chains.StackedGrounded` | engine/console/consoleNamespace.cc:109-151 | with any packages active every way up through the parents ends, from classes and from overrides |
| `Chains.LinkGrounds` | engine/console/consoleNamespace.cc:315-330 | linking a class to a parent keeps that exactly if the parent does not derive from the class |
| `Linking.LinkedStacked` | engine/console/consoleNamespace.cc:292-330 | linking or unlinking the lowest layer of a class under active packages is doing so to the class in the table of declarations |
| `Chains.UnlinkUndoesLink` | engine/console/consoleNamespace.cc:292-330 | unlinking after linking gives back the count of links, and the parent exactly if the count stood for it |
| `Chains.CountStaysRight` | engine/console/consoleNamespace.cc:292-330 | the count of links stays right with every link short of its 32 bits and with every unlinking of a linked class; unlinking one that is not linked makes it wrong |
| `PackageSteps.HookStep` | engine/console/consoleNamespace.cc:129-148 | one round of activation adds one namespace and what it overrides to those that have traded |
| `PackageSteps.FoundStacked` | engine/console/consoleNamespace.cc:265-279 | making a namespace while packages are active is making it in the table of declarations |
| `Declarations.AddedStacked` | engine/console/consoleNamespace.cc:439-471 | declaring straight into a namespace while packages are active lands in the layer whose list lies there |
| `Declarations.AddedAnswers` | engine/console/consoleNamespace.cc:439-471 | a declaration changes what one name resolves to in one namespace of the table, and nothing else |
| `Declarations.DeclaredResolves` | engine/console/compiledEval.cc:811-828 | after a declaration, for every class, every list of active packages and every name: the declared name resolves to the new body where the way up comes to the namespace declared in before another that has the name, and every other question has the answer and the entry it had |
| `Declarations.RelinkedResolves` | engine/console/consoleNamespace.cc:206-212 | putting packages on again, though it may make namespaces, resolves every name as the table did |
| `HashTables.FilledServes` | engine/console/consoleNamespace.cc:352-386 | a filled table with a free slot answers every name as the list does, and probing ends |
| `HashTables.FillPuts` | engine/console/consoleNamespace.cc:369-384 | putting an entry where its probing ended keeps every other name findable |
| `HashTables.ProbingEnds` | engine/console/consoleNamespace.cc:356-359 | fewer entries than slots leave a free slot within one round of any name |
| `HashTables.StaleServes` | engine/console/consoleNamespace.cc:315-330 | a table that was not told of a longer chain answers for it exactly if the addition brings no new name |
| `NamespaceCache.LinkedBehindCache` | engine/console/consoleNamespace.cc:315-330 | after a class is linked to a parent its current table is right exactly if each new ancestor's function has a namesake on the class |
| `NamespaceStates.NamespaceState.Find` | engine/console/consoleNamespace.cc:265-279 | the namespace of that name and package, made, empty, if there is none |
| `NamespaceStates.NamespaceState.ActivatePackage` | engine/console/consoleNamespace.cc:109-151 | the world becomes the declarations with one more package on top, unless the package is active, nameless or one too many |
| `NamespaceStates.NamespaceState.DeactivatePackage` | engine/console/consoleNamespace.cc:153-191 | the package and all activated after it come off; the world is that of the packages before |
| `NamespaceStates.NamespaceState.UnlinkPackages` | engine/console/consoleNamespace.cc:193-204 | nothing is active, and the declarations are as they were |
| `NamespaceStates.NamespaceState.RelinkPackages` | engine/console/consoleNamespace.cc:206-212 | the packages that were active are active again, in their order |
| `NamespaceStates.NamespaceState.AddFunction` | engine/console/consoleNamespace.cc:439-471 | an entry is reused or put in front, in the layer the namespace's list belongs to, and the cache is dropped |
| `NamespaceStates.NamespaceState.DeclareFunction` | engine/console/compiledEval.cc:811-828 | a declaration keeps the active packages and adds to the (namespace, package) table only, also when it makes a namespace for an active package |
| `NamespaceStates.NamespaceState.LookupRecursive` | engine/console/consoleNamespace.cc:394-402 | the first entry of that name on the way up, which is the only one |
| `NamespaceStates.NamespaceState.CountFirsts` | engine/console/consoleNamespace.cc:345-349 | the count the table is sized by is at least the number of distinct names |
| `NamespaceStates.NamespaceState.BuildHashTable` | engine/console/consoleNamespace.cc:332-387 | the namespace has an up-to-date table, its own or its parent's, and every other namespace's cache stays good |
| `NamespaceStates.NamespaceState.LookupEntry` | engine/console/consoleNamespace.cc:404-420 | the cached lookup returns what the walk up the parents would, which ends, in every state reached by finding, declaring, activating, deactivating and linking without a circle behind no current cache; no freed table is read |
| `NamespaceStates.NamespaceState.ResolveMethod` | engine/console/compiledEval.cc:1843-1848 | a method call resolves as the simple model says, along the classes the table gives |
| `NamespaceStates.NamespaceState.LookupParent` | engine/console/compiledEval.cc:1850-1865 | a `Parent::` call resolves to the next layer, else as the parent class does |
| `NamespaceStates.NamespaceState.ClassLinkTo` | engine/console/consoleNamespace.cc:315-330 | whatever packages are active, a class gets a parent in the table of declarations, and one more link counted, unless it has another parent; the ways up still end exactly if the parent does not derive from it, and lookups stay right if no cache was current |
| `NamespaceStates.NamespaceState.UnlinkClass` | engine/console/consoleNamespace.cc:292-312 | whatever packages are active, one link less is counted unless the class has another parent, and with the last one the parent goes from the table of declarations |
| `PrattRoundTrip.RoundTrip` | engine/console/simpleParser.h:1501-1531 | for every printable tree anywhere among tokens and every binding power it may stand under, parsing its text gives that tree and stops right behind it |
| `PrattRoundTrip.EndsAtWeaker` | engine/console/simpleParser.h:1518-1531 | on any tokens, where an expression ends the next token binds no tighter than was asked |
| `PrattRoundTrip.PrintInjective` | engine/console/simpleParser.h:1437-1499 | two trees with the same text are the same |
| `Parentheses.FewestParentheses` | engine/console/simpleParser.h:1501-1531 | any tokens that parse to a tree have at least as many parentheses as its printed text, under any binding power, but for at most one that each `++` or `--` spares |
| `Parentheses.NoPairToSpare` | engine/console/simpleParser.h:1501-1531 | with any one pair of parentheses left out the printed text parses to another tree or to none |
| `Parentheses.SuffixSpares` | engine/console/simpleParser.h:1447-1448 | a `++`, which binds tighter than any operator though it assigns, does spare one |
| `Precedence.TwoOperators` | engine/console/simpleParser.h:1437-1486 | between any operands: of the eleven tiers of operators, from `||` to `*`, a tighter second one takes the operand in the middle, and otherwise, in the same tier too, the first comes first |
| `Precedence.ThreeVariables` | engine/console/simpleParser.h:1437-1486 | so with three variables, for every pair of operators |
| `Precedence.UnaryOperand` | engine/console/simpleParser.h:1501-1531 | `-`, `!` and `~` take one operand, whatever operator follows |
| `Precedence.GroupOperand` | engine/console/simpleParser.h:1501-1531 | whatever stands in parentheses is one operand |
| `Precedence.ElementOperand` | engine/console/simpleParser.h:1583-1606 | an index belongs to its variable before anything else |
| `Precedence.SuffixOperand` | engine/console/simpleParser.h:1447-1448 | so do `++` and `--`, which add and subtract one |
| `Precedence.ConditionalBelow` | engine/console/simpleParser.h:1607-1613 | a conditional takes whole operators as its test and its last branch, and anything in the middle |
| `Precedence.ConditionalsNest` | engine/console/simpleParser.h:1607-1613 | conditionals group to the right |
| `Precedence.AssignBelow` | engine/console/simpleParser.h:1548-1580 | an assignment takes all that follows: operators, conditionals and further assignments |
| `Precedence.OnlyVariablesAssigned` | engine/console/simpleParser.h:1548-1580 | assigning to anything but a variable or element is an error, unless what is assigned is one already |
| `Precedence.ConditionalNotAssigned` | engine/console/simpleParser.h:1607-1613 | assigning behind the last branch of a conditional is an error |
| `Precedence.OnlyVariablesStepped` | engine/console/simpleParser.h:1447-1448 | a suffix on anything but a variable or element is an error |
| `Precedence.AccessBeyond` | engine/console/simpleParser.h:1437-1499 | `.` and `->` bind tighter than anything the model covers, and lead out of it |
| `PrattRoundTrip.BinaryRoundTrip` | engine/console/simpleParser.h:1672-1725 | left-associative operators group to the left at equal power and by power otherwise |
| `PrattRoundTrip.ConditionalRoundTrip` | engine/console/simpleParser.h:1607-1613 | the conditional groups to the right, its middle standing free |
| `PrattRoundTrip.AssignRoundTrip` | engine/console/simpleParser.h:1548-1580 | assignments group to the right and take a variable on the left |
| `Parser.ASTGen.ParseExpression` | engine/console/simpleParser.h:1501-1531 | the loop over the token position builds the tree of the recursive definition and ends on every token list |
| `Parser.ASTGen.LedStep` | engine/console/simpleParser.h:1583-1751 | the infix step, with its errors |
| `FindMatch.IsMatch` | engine/core/findMatch.cc:95-137 | true exactly if the pattern matches the whole string by the recursive definition of `*`, `?` and folded literals, for every pattern and string; it ends |
| `FindMatch.NextStar` | engine/core/findMatch.cc:112-132 | at a further star only the attempt under way counts, so one backtrack point is enough |
| `FindMatch.QuestionTakesOne` | engine/core/findMatch.cc:95-98 | `?` takes any one character |
| `FindMatch.LiteralTakesAlike` | engine/core/findMatch.cc:95-98 | any other character takes exactly those that fold alike |
| `FindMatch.StarTakesAny` | engine/core/findMatch.cc:95-137 | `*` takes any run of characters |
| `FindMatch.CaseNeverCounts` | engine/core/findMatch.cc:95-98 | asking for case to count changes no match, since folded letters are compared all the same |
| `Escape.LexRoundTrip` | engine/core/escape.cc:51-139 | printing and lexing a NUL-free string is the identity exactly if it does not start with the byte 1 |
| `Escape.DecodesPrinted` | engine/console/simpleLexer.h:998-1119 | the lexer reads exactly to the closing quote of a printed string and gives it back, with a guard byte before a leading 1 |
| `Escape.CollapseRoundTrip` | engine/core/escape.cc:141-215 | the escape reader undoes the printer exactly where the lexer does |
| `Escape.HexReads` | engine/console/simpleLexer.h:956-963 | a backslash, `x` and two hex digits, lower or upper case, stand for their byte, whatever follows |
| `Escape.HexOnly` | engine/console/simpleLexer.h:956-963 | and nothing else behind `\x` is an escape |
| `Escape.ControlReads` | engine/core/escape.cc:141-215 | each of the thirteen codes after `\c` stands for its own control byte, and no other character is a code |
| `Escape.LetterReads` | engine/core/escape.cc:26-38 | `\n`, `\r` and `\t` are control bytes, and any other character stands for itself |
| `Escape.PrintedVisibly` | engine/core/escape.cc:51-139 | what is printed is visible, and exactly quotes, backslashes and control bytes are escaped |
| `Escape.PrintedShortly` | engine/core/escape.cc:51-139 | no visible escape of a control byte is shorter than the printed one, but for those of the bytes 16 and 17, which only the readers know |
| `Escape.ExpandEscape` | engine/core/escape.cc:51-139 | the cursor writes the escapes of the string and a NUL and nothing behind them |
| `EscapeInPlace.CollapseEscape` | engine/core/escape.cc:141-215 | the buffer ends up holding the collapsed string, or the reader gives up on exactly the malformed ones; behind the terminator it asks for no byte if there is no escape, and else for those the first escape's move reads |
| `LexString.DecodeStringInPlace` | engine/console/simpleLexer.h:977-1150 | the token's bytes are what decoding the text gives, the rest up to the closing quote is NUL, and nothing outside changes |
| `LexString.Compact` | engine/console/simpleLexer.h:1126-1144 | closing up keeps the bytes other than NUL in order; the writer never passes the reader |
| `Dictionaries.Dictionary.Lookup` | engine/console/consoleInternal.cc:109-121 | finds exactly the names added and not removed |
| `Dictionaries.Dictionary.Add` | engine/console/consoleInternal.cc:123-170 | the one entry of that name; entries that were there keep identity and value, also when the table grows into fresh buckets; each is in its hash bucket, once, and the count is right |
| `Dictionaries.Dictionary.Grow` | engine/console/consoleInternal.cc:137-163 | relinking into four times the buckets, less one, loses and repeats no entry |
| `Dictionaries.Dictionary.Remove` | engine/console/consoleInternal.cc:173-183 | exactly that entry is gone, from its place in its bucket, and the others keep their order |
| `Dictionaries.Dictionary.DeleteVariables` | engine/console/consoleInternal.cc:88-104 | removing while walking along the buckets removes exactly the variables whose names match the pattern |
| `DsoFile.FileRoundTrip` | engine/console/codeBlock.cc:399-573 | reading the file written for any block gives the same code words, strings, floats, line breaks, identifiers in the same places, call count and type offsets; it starts with the version |
| `DsoFile.VersionGiven` | engine/console/codeBlock.cc:399-573 | so does reading on behind a version the caller names, if it is one of the two served; as the older one, without calls and types |
| `DsoFile.WriteFile` | engine/console/codeBlock.cc:772-829 | the loops write that file |
| `DsoFile.Reader.ReadBlock` | engine/console/codeBlock.cc:399-573 | the loops read as the file is defined, from in front of the version or behind one the caller names, and refuse other versions |
| `Dso.CodeBack` | engine/console/codeBlock.cc:797-806 | a code word comes back from its one-byte or escaped form, for every word |
| `CompilerTables.EntryReads` | engine/console/compiler.cc:214-282 | every string's offset finds exactly that string in the written table |
| `CompilerTables.StringTable.Add` | engine/console/compiler.cc:214-249 | read at the offset, the written strings give the text, letter by letter or, if case does not count, but for case; it is the first such string of that kind, tag or not, so an identifier comes back as its first spelling; there is a new one, at the end, exactly if there was none, and a tag has room for its number |
| `CompilerTables.OffsetsTell` | engine/console/compiler.cc:214-249 | whatever was added between, two strings of one kind get the same offset if and only if they are the same: letter by letter when case counts, and else but for case |
| `CompilerTables.TagsApart` | engine/console/compiler.cc:214-249 | a tag and another string never share an offset |
| `CompilerTables.AddKeepsPlaces` | engine/console/compiler.cc:374-422 | an identifier keeps its place from its first use on; its newest use is noted in front of the others, and no other identifier changes |
| `CompilerTables.TypesBehind` | engine/console/compiler.cc:455-475 | the type names stand behind the identifiers, from the place append returns |
| `CompilerTables.AddAfterAppend` | engine/console/compiler.cc:455-475 | adding to an appended table keeps it exactly if the first table had entries or the second had none, because append forgets the tail |
| `Frames.StaysSound` | engine/console/consoleInternal.h:325-343 | at every step vmStack tells exactly where executions started, and string frames less those owed by frames stay as many |
| `Frames.ReturnsRight` | engine/console/compiledEval.cc:2664-2699 | a return ends the execution exactly if its frame began it; it never finds frames missing |
| `Frames.ExecRestores` | engine/console/compiledEval.cc:2751-2849 | an execution, whatever it calls and nests, ends with exactly the frames, depths and string frames it was entered with |
| `Frames.EmptyCallRestores` | engine/console/compiledEval.cc:1882-1920 | a call that finds nothing to run leaves everything as before its frame was pushed |
| `Frames.NativeCallRestores` | engine/console/compiledEval.cc:1921-2038 | so does a call of a native function, whatever executions it starts and ends; until it returns its caller runs nothing |
| `Frames.NativeReturnRuns` | engine/console/compiledEval.cc:1921-2038 | however a native function left the pushed frames of its caller, the caller runs again, with one less owed |
| `Frames.ScriptCallRestores` | engine/console/compiledEval.cc:1890-1917 | so does a call of a script function, whatever it calls and leaves pushed |
| `Frames.ExprEvalState.BeginScriptCall` | engine/console/compiledEval.cc:1890-1917 | the caller's pushed string frame becomes the callee's |
| `Frames.ExprEvalState.FinishFrame` | engine/console/compiledEval.cc:2651-2699 | the frame pops what it owes and goes, and the frames left say whether the execution is over |

## Left out

- Compiler.Compile: float, string and identifier operands are shown as the table entries they denote, not as indices; typed variables, tuples, fields, objects, calls, tagged and documentation strings are not in the fragment.
- ExprCorrect.ExprRuns: asks that the tree meets none of the slips `Limits`, `ShortCircuits` and `VarWanted` describe; local and global variables share one map, since their names differ in the first character.
- VmLoop.Vm.RunVM: is given a step budget, since scripts may run for ever; string opcodes act on whole strings here, and `StringText` shows the bytes agree.
- StringCode.CodeOnBytes: starts over a string head, as the interpreter does; a number there is covered by `AdvanceSettles` alone.
- StringStacks.StaysSound: typed values on the string stack are not modelled.
- EscapeInPlace.CollapseEscape: what the first escape's move reads behind the terminator has to be part of the buffer; the original reads it wherever the buffer ends.
- NamespaceStates.NamespaceState.ClassLinkTo: namespaces of packages, which only the interface by id could link, are left out; the caller's namespaces exist.
- NamespaceStates.NamespaceState.FindNamespace: a namespace for an active package is made only between unlinking and relinking, as declarations do.
- NamespaceStates.NamespaceState.LookupEntry: the cache sequence does not wrap around.
- PrattRoundTrip.RoundTrip: calls, fields, object declarations, tags and string interpolation are outside the parser's model (`Beyond`); int literals are those of 31 bits.
- Overflows.RoomIsExact: expressions with jumps are left out, since the peak is that of their worst path.
- VarWanted.VariableWanted: the parts of the right-hand side, taken by themselves, are of the fragment.
- DsoFile.Reader.ReadBlock: a stream that ends early gives nothing, where the original goes on with what its variables held; linking type names to types and rebasing line breaks come after and are not modelled.
- Frames.ExecRestores: without throws, suspension or fibers; at most twelve executions nest, which the original does not check.
- try/catch and throw: the handler expects a value on the int stack that nothing pushes.
- foreach and foreach$: returning clears the caller's iterators as well.
- OP_BREAK: it dispatches the same instruction again.
- The call-site entry cache, telnet, fibers' serialization, documentation dumps and logging: plumbing around what is modelled.
