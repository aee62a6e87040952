# A verified model of the ECPPS back end

ECPPS compiles C++. This project models what happens between its typed expressions and the bytes of
an executable or object file, and proves that meaning is preserved on the way.

- **Lowering** (`Expressions`, `ExpressionLowering`, `ExpressionShapes`, `Statements`, `StatementShapes`,
  `ExpressionParts`, `StatementDiagnostics`, `LabelShapes`, `StatementLabels`, `StatementSimulation`,
  `ControlSimulation`, `Functions`, `FunctionShapes`, `FunctionSimulation`, `Lowering`, `ContinueInFor`): expressions and structured statements become SSA nodes,
  labels and branches. The class `Lowering.IR` appends nodes, draws registers and labels and keeps the stack of
  jump targets in place; each method is tied to a function, and the functions are proved against a big-step
  meaning of the statements.
- **Translation** (`Ssa`, `AllocationMap`, `PseudoAssembly`, `ReferenceCounts`, `BodyTranslation`,
  `CodeSimulation`, `BodyLayout`, `FunctionTable`, `RegisterWidths`, `OperandWidths`, `StatementWidths`,
  `Routines`): SSA nodes become virtual instructions, with reference counts taken in advance and registers
  released at zero. Every register is described with its width, and every call names its function in a table.
- **Clean-up** (`VirtualCode`, `ControlFlowRewrites`, `ControlFlowCleanup`): jump threading and the removal of
  useless jumps, unnamed labels and unreachable code, in passes over a list.
- **The whole way** (`Compilation`): `CompileFunction` composes all of it.
- **Files** (`Bytes`, `ImportData`, `ImportBuilder`, `ExecutableFile`, `PEImage`, `ObjectFile`, `CoffLinker`):
  the import section, the layout of an executable, and object files, each with a reader that is written
  independently of the writer. The formats are those of the Microsoft PE/COFF specification, sections
  "The .idata Section", "Section Table", "COFF Symbol Table" and "COFF String Table".
- **Pieces of the front end** (`AggregateInitialisation`, `IntegerConstants`, `EditDistance`, `StringPool`,
  `TypeTable`): brace elision, narrowing and constant conversion, pointer offsets, spelling suggestions, pooled
  data and the table of types.

`dafny verify dfyconfig.toml` checks the whole project.

## How behaviour is stated

SSA bodies and virtual code are run by small-step functions over states of registers and memory, with fuel; a
statement means a big-step function with fuel for loop iterations. What the operators do to words is a parameter
(`Ssa.Interpretation`), so every theorem holds for all widths and all operator meanings, as long as both sides
use the same. Two codes behave the same when, on every machine and from every state, each reaches every
observation (the trace of instructions, and whether and how the run has ended) that the other reaches. A run that
never ends is one for which no amount of fuel gives an ending.

A jump to a label that is not placed falls through; the clean-up deletes such jumps and reports them.

## Model

| member | source | states |
|---|---|---|
| `Compilation.CompileFunction` | compiler/ecpps/src/CodeGeneration/PseudoAssembly.cpp:1180-1250 | A whole function, lowered, counted, translated and cleaned up: no error is reported, and for every meaning of the operators, every placement of the variables and every start state, the code returns a value and leaves a memory if and only if the function does (so it also diverges exactly when the function does). With `continue` as in C++ when no `continue` belongs to a `for` loop. |
| `Routines.CompileRoutine` | compiler/ecpps/src/CodeGeneration/PseudoAssembly.cpp:1180-1228 | Any well-formed body of SSA nodes: the final code behaves as the renamed body, has unique labels and no jump to nowhere; without calls it ends exactly as the body does, and nothing is reported. The table of the functions that the body names is handed out with it, and every virtual register is described with the width and class it was laid out with. |
| `FunctionTable.CallsFindTheirFunctions` | compiler/ecpps/src/CodeGeneration/PseudoAssembly.cpp:821-862 | Every call is translated to its arguments, each with its register and its number, and the call; all of them name a place in the final table where the callee stands. |
| `FunctionTable.ParametersFindTheirFunction` | compiler/ecpps/src/CodeGeneration/PseudoAssembly.cpp:868-883 | A parameter is copied from the function it belongs to: that function stands in the table at the place the instruction names. |
| `FunctionTable.TableHolds` | compiler/ecpps/src/CodeGeneration/PseudoAssembly.cpp:57-67 | The table holds exactly the functions that are called or have parameters, each once. |
| `PseudoAssembly.ParsingContext.CallFunctionIndex` | compiler/ecpps/src/CodeGeneration/PseudoAssembly.cpp:57-67 | The callee stands in the table at the index that is returned, and earlier entries stay where they are. |
| `RegisterWidths.WidthsAreDescribed` | compiler/ecpps/src/CodeGeneration/PseudoAssembly.cpp:1165-1171 | At every point of a translation, every virtual register has the width and class of its layout, in the descriptors and in the target's map. |
| `RegisterWidths.LaidOutAs` | compiler/ecpps/src/CodeGeneration/PseudoAssembly.cpp:416-819 | Cells are laid out as allocations and everything else as temporaries; a register has its own width, or that of the first operand for an operator. |
| `StatementWidths.WidthAssertionsHold` | compiler/ecpps/src/CodeGeneration/PseudoAssembly.cpp:428-429 | The assertions that the operands of an operator and of a comparison have one width never fail for a function whose operands have the widths of their operators. |
| `PseudoAssembly.ParsingContext.FinaliseControlFlow` | compiler/ecpps/src/CodeGeneration/PseudoAssembly.cpp:1049-1164 | For every code with unique labels: same behaviour on every machine from every state (trace of instructions, ending, divergence), jump cycles included, never longer, closed under jumps; errors are the jumps to labels never placed; each pass of the trail found something and changed the code, there are at most eight, and after fewer nothing is left to do. |
| `ControlFlowCleanup.Pass` | compiler/ecpps/src/CodeGeneration/PseudoAssembly.cpp:1079-1163 | One pass keeps behaviour, uniqueness and closedness, never lengthens, and reports a change if and only if the code was not tidy: a jump that can be threaded, goes to the next label or to nowhere, an unnamed label, or an instruction behind a return or jump. |
| `ControlFlowCleanup.ThreadJumps` | compiler/ecpps/src/CodeGeneration/PseudoAssembly.cpp:1087-1115 | Every jump whose chain of jumps ends within 32 hops is moved to that end; the result is a rewriting that keeps behaviour, and the flag says whether some jump could be threaded. |
| `ControlFlowCleanup.MarkJumpsToNextLabel` | compiler/ecpps/src/CodeGeneration/PseudoAssembly.cpp:1117-1127 | Exactly the jumps to nowhere and those whose label is among the labels directly behind them are marked. |
| `ControlFlowCleanup.MarkUnreachable` | compiler/ecpps/src/CodeGeneration/PseudoAssembly.cpp:1133-1147 | Exactly the unnamed labels, the useless jumps, and what follows a return or unconditional jump without a surviving label between, are marked. |
| `ControlFlowCleanup.Compact` | compiler/ecpps/src/CodeGeneration/PseudoAssembly.cpp:1149-1161 | In-place compaction leaves the unmarked instructions in order and reports whether something was deleted. |
| `ControlFlowRewrites.RetargetPreserves` | compiler/ecpps/src/CodeGeneration/PseudoAssembly.cpp:1095-1115 | A jump may name any label that control reaches from its own through labels and jumps only, or any label on the same cycle: every run has the same trace and ending. |
| `ControlFlowRewrites.DeletePreserves` | compiler/ecpps/src/CodeGeneration/PseudoAssembly.cpp:1117-1161 | Deleting marked instructions keeps every run: a stuttering simulation both ways, between the code and what remains. |
| `ControlFlowCleanup.ThreadableJumpsDiverge` | compiler/ecpps/src/CodeGeneration/PseudoAssembly.cpp:1095-1115 | In code with nothing left to do, if labels only and then a jump to another placed label stand behind the label of a jump, that label is on a circle of labels and jumps: a run that arrives there does nothing visible and never ends. |
| `ControlFlowCleanup.HopsWhereJumpsLead` | compiler/ecpps/src/CodeGeneration/PseudoAssembly.cpp:1095-1107 | A hop leads to a label if and only if labels only, and then a jump to that other, placed label, stand behind the first one, before or after it in the code. |
| `ControlFlowCleanup.ChainIsReached` | compiler/ecpps/src/CodeGeneration/PseudoAssembly.cpp:1095-1115 | Along any chain of labels that jump on, of at most 32 jumps, a jump to the first is moved to the last. |
| `ControlFlowCleanup.TidyCode` | compiler/ecpps/src/CodeGeneration/PseudoAssembly.cpp:1079-1163 | What is true when nothing is left to do: jumps name placed labels and pass other instructions than labels, every label is named, and nothing but a label stands behind a return or jump. |
| `CodeSimulation.InvertedCodeNegates` | compiler/ecpps/src/CodeGeneration/AbstractNodes.h:81-97 | For all ten predicates and however words are read as signed or unsigned numbers: the condition code is the predicate's, and its inversion holds exactly when the predicate fails. |
| `PseudoAssembly.ParsingContext.ParseBranchNode` | compiler/ecpps/src/CodeGeneration/PseudoAssembly.cpp:1274-1296 | A comparison that waits for this branch gives a jump on the opposite condition to the false label and a jump to the true label, and ends its two uses; any other branch is reported. |
| `CodeSimulation.StepsBranch` | compiler/ecpps/src/CodeGeneration/PseudoAssembly.cpp:1254-1296 | On the emitted pair, control goes to the true label exactly when the comparison holds. |
| `Routines.LoneComparisonIsReported` | compiler/ecpps/src/CodeGeneration/PseudoAssembly.cpp:69-78 | A comparison that its own branch does not follow directly is reported, whatever follows. |
| `Routines.ComparisonIsReported` | compiler/ecpps/src/CodeGeneration/PseudoAssembly.cpp:69-78 | So is any comparison of a body that the next node is no branch on, at the end of the whole translation. |
| `Routines.ModuloIsReported` | compiler/ecpps/src/CodeGeneration/PseudoAssembly.cpp:293-296 | A modulo anywhere in a body is reported. |
| `BodyTranslation.TranslatesWhole` | compiler/ecpps/src/CodeGeneration/PseudoAssembly.cpp:69-303 | A well-formed body is translated without any error into itself, renamed. |
| `BodyLayout.TranslationSimulates` | compiler/ecpps/src/CodeGeneration/PseudoAssembly.cpp:69-303 | The translation of a body ends with a value and a memory if and only if the body does. |
| `BodyLayout.TranslationLabels` | compiler/ecpps/src/CodeGeneration/PseudoAssembly.cpp:988-1022 | Names are numbered apart: every label is placed once in the translation. |
| `PseudoAssembly.CountReferences` | compiler/ecpps/src/Execution/IR.Lowering.cpp:690-1001 | The counts are the occurrences of every register among the operands of all nodes. |
| `PseudoAssembly.ParsingContext.Parse` | compiler/ecpps/src/CodeGeneration/PseudoAssembly.cpp:69-303 | The in-place translation of one node is the pure one, on instructions, registers, labels, counts and errors; a comparison that waits when another node comes is reported and dropped. |
| `BodyTranslation.NeverLooksUpReleased` | compiler/ecpps/src/Execution/IR.Lowering.cpp:690-1001 | Counting in advance, decrementing and releasing at zero: no node of a well-formed body ever looks up a released register. |
| `BodyTranslation.CountsStayNonNegative` | compiler/ecpps/src/CodeGeneration/PseudoAssembly.cpp:1173-1178 | No count ever drops below zero. |
| `BodyTranslation.ReleasedMeansUnused` | compiler/ecpps/src/CodeGeneration/PseudoAssembly.cpp:1173-1178 | A register is released only when no later node is counted as using it. |
| `BodyTranslation.AddressTakenStaysLive` | compiler/ecpps/src/CodeGeneration/PseudoAssembly.cpp:969-986 | A register whose address is taken anywhere in the body is never released. |
| `BodyTranslation.LiveAtTheEnd` | compiler/ecpps/src/CodeGeneration/PseudoAssembly.cpp:1173-1178 | A register of the body is live at its end if and only if it is used by an address-of, a dereference, an integer store or a call, or not at all. |
| `PseudoAssembly.ParsingContext.DereferenceSSA` | compiler/ecpps/src/CodeGeneration/PseudoAssembly.cpp:1173-1178 | One use ends; the register is released exactly when that was the last. |
| `Routines.AlwaysAllocatable` | compiler/ecpps/src/CodeGeneration/PseudoAssembly.h:94-110 | The assertions before an allocation never fail on a well-formed body. |
| `AllocationMaps.AllocationMap.EmplaceAllocate` | compiler/ecpps/src/CodeGeneration/PseudoAssembly.h:94-110 | Both index arrays and the descriptors become those of the map extended by a new virtual register, and stay mutually inverse. |
| `AllocationMaps.AllocationMap.FindVirtualBySSA` | compiler/ecpps/src/CodeGeneration/PseudoAssembly.h:112-124 | Finds a register if and only if it is live, with its virtual register. |
| `AllocationMaps.AllocationMap.FindSSAByVirtual` | compiler/ecpps/src/CodeGeneration/PseudoAssembly.h:126-133 | Finds an owner if and only if some live register has this virtual register. |
| `AllocationMaps.AllocationMap.ReleaseSSA` | compiler/ecpps/src/CodeGeneration/PseudoAssembly.h:161-172 | Removes one register and nothing else. |
| `AllocationMaps.AllocationMap.GetDescriptorFromSSA` | compiler/ecpps/src/CodeGeneration/PseudoAssembly.h:135-143 | The descriptor of a live register, by way of its virtual register. |
| `AllocationMaps.AllocationMap.GetDescriptorFromVirtual` | compiler/ecpps/src/CodeGeneration/PseudoAssembly.h:145-159 | The descriptor that a virtual register was handed out with. |
| `AllocationMaps.VirtualNeverReused` | compiler/ecpps/src/CodeGeneration/PseudoAssembly.h:89-178 | In every run a virtual register is handed out once, and its descriptor never changes afterwards. |
| `AllocationMaps.LiveIsInjective` | compiler/ecpps/src/CodeGeneration/PseudoAssembly.h:89-178 | In every legal run two live registers have different virtual registers. |
| `AllocationMaps.LiveIsLastHanded` | compiler/ecpps/src/CodeGeneration/PseudoAssembly.h:89-178 | A live register has what its last allocation handed out. |
| `ExpressionLowering.LoweredComputes` | compiler/ecpps/src/Execution/IR.Lowering.cpp:35-655 | For every sound expression, every meaning of the operators and every state: the nodes compute its value from left to right, leave its memory, and touch no earlier register. |
| `ExpressionLowering.LoweredMeans` | compiler/ecpps/src/Execution/IR.Lowering.cpp:63-655 | The lowering that is not loaded: an object in a register is that register, everything else its value. |
| `ExpressionLowering.LoweredLocates` | compiler/ecpps/src/Execution/IR.Lowering.cpp:444-532 | A place to store to is the object that the left side evaluates to, after its side effects. |
| `ExpressionLowering.SteppedVariable` | compiler/ecpps/src/Execution/IR.Lowering.cpp:541-588 | A post-increment of a variable gives its old value and leaves old value plus step, a post-decrement old value minus step. |
| `ExpressionLowering.SteppedDereference` | compiler/ecpps/src/Execution/IR.Lowering.cpp:541-588 | The same behind a pointer. |
| `ExpressionLowering.LowersIfResolved` | compiler/ecpps/src/Execution/IR.Lowering.cpp:63-655 | Lowering succeeds if and only if all names are known and all parts supported; what succeeds reports nothing. |
| `ExpressionLowering.FailuresAreReported` | compiler/ecpps/src/Execution/IR.Lowering.cpp:63-655 | An unknown name or an unsupported part is reported, wherever it stands, unless a part is missing or a conversion is not between integers. |
| `ExpressionParts.ResolvedIff` | compiler/ecpps/src/Execution/IR.Lowering.cpp:63-655 | Known and supported means so of every part: no missing or unsupported part, no unknown name, conversions between integers, addresses of variables and dereferences. |
| `ExpressionParts.SoundIff` | compiler/ecpps/src/Execution/IR.Lowering.cpp:444-532 | An expression is sound if and only if everything in it that is assigned or stepped is a variable, a dereference, or an assignment to such a variable. |
| `ExpressionParts.TranslatableIff` | compiler/ecpps/src/CodeGeneration/PseudoAssembly.cpp:69-303 | It can be translated if and only if no part is a comparison or a modulo. |
| `ExpressionLowering.AssignsRightIffAssignable` | compiler/ecpps/src/Execution/IR.Lowering.cpp:523-532 | An assignment stores to its object if and only if its left side is a variable, a dereference, or an assignment to such a variable. |
| `ExpressionShapes.LoadedShape` | compiler/ecpps/src/Execution/IR.Lowering.cpp:35-61 | Registers of a lowered expression are drawn once, in order, and introduced before use. |
| `Lowering.IR.LowerExpression` | compiler/ecpps/src/Execution/IR.Lowering.cpp:63-655 | Appends the nodes of the pure lowering, draws its registers and reports its errors. |
| `Lowering.IR.LowerExpressionLoaded` | compiler/ecpps/src/Execution/IR.Lowering.cpp:35-61 | The same, with a load behind an object. |
| `ControlSimulation.StatementRuns` | compiler/ecpps/src/Execution/IR.Statements.cpp:27-132 | For every nesting of statements and every fuel: running the emitted labels, jumps and branches ends as the statement does: behind it, at the label of the innermost loop's `break` or `continue`, at a return, or not yet. |
| `ControlSimulation.IfRuns` | compiler/ecpps/src/Execution/IR.Statements.cpp:27-52 | If and else, each with or without statements. |
| `ControlSimulation.WhileRuns` | compiler/ecpps/src/Execution/IR.Statements.cpp:73-91 | A loop entered through its test. |
| `ControlSimulation.ForRuns` | compiler/ecpps/src/Execution/IR.Statements.cpp:93-114 | Initialisation, test, body, then the iteration expression before the continue label. |
| `ControlSimulation.DoWhileRuns` | compiler/ecpps/src/Execution/IR.Statements.cpp:116-132 | A loop entered at its body. |
| `StatementSimulation.TestRuns` | compiler/ecpps/src/Execution/IR.Statements.cpp:54-70 | A condition, compared with zero if it is no comparison, leads to the true label exactly when it is not zero. |
| `StatementSimulation.TestIsTruth` | compiler/ecpps/src/Execution/IR.Statements.cpp:54-70 | The test of a condition other than a comparison is one or zero as the condition is not zero or zero. |
| `StatementSimulation.DeclarationRuns` | compiler/ecpps/src/Execution/IR.Initialisation.cpp:282-447 | A declaration of a scalar reserves its object and stores the initialiser. |
| `StatementSimulation.ReturnRuns` | compiler/ecpps/src/Execution/IR.cpp:396-436 | A return ends the run with its value. |
| `StatementShapes.WellStatement` | compiler/ecpps/src/Execution/IR.Statements.cpp:27-132 | Every accepted statement is lowered without a diagnostic into nodes whose registers flow forward and whose branches directly follow their comparisons. |
| `StatementDiagnostics.ReportedUnlessAccepted` | compiler/ecpps/src/Execution/IR.Statements.cpp:27-176 | A statement, however nested, is lowered without a diagnostic if and only if names are declared once and before use, `break` and `continue` are in loops, and only void functions return nothing. |
| `StatementDiagnostics.FunctionReportedUnlessAccepted` | compiler/ecpps/src/Execution/IR.cpp:231-395 | The same for a function, whose body is behind its parameters. |
| `StatementLabels.LabelledStatement` | compiler/ecpps/src/Execution/IR.Statements.cpp:198-206 | Labels placed are new and different, and jumps go to them or to those of the loops around. |
| `LabelShapes.LabelNamesDiffer` | compiler/ecpps/src/Execution/IR.Statements.cpp:198-206 | Names drawn at different counts differ, whatever function and hint they hold. |
| `LabelShapes.LabelNameHolds` | compiler/ecpps/src/Execution/IR.Statements.cpp:198-206 | A name holds the function, the hint and a number. |
| `ContinueInFor.RegularMeansSame` | compiler/ecpps/src/Execution/IR.Statements.cpp:93-114 | Where no `continue` belongs to a `for` loop, the emitted order means what C++ means. |
| `ContinueInFor.SameTestsIffIdle` | compiler/ecpps/src/Execution/IR.Statements.cpp:106-110 | A `for` loop whose body holds no other `for` with a `continue` of its own shows its test the memories of the C++ loop, iteration by iteration, if and only if the iteration expression would have changed nothing wherever a `continue` was reached. |
| `ContinueInFor.IdleMeansSame` | compiler/ecpps/src/Execution/IR.Statements.cpp:106-110 | Such a loop also ends as in C++. |
| `ContinueInFor.ContinueSkipsTheStep` | compiler/ecpps/src/Execution/IR.Statements.cpp:106-110 | Counting down from one with `continue` as body: C++ ends with zero, the emitted code never ends. |
| `Lowering.IR.ParseIf` | compiler/ecpps/src/Execution/IR.Statements.cpp:27-52 | Appends what the pure lowering of an `if` emits. |
| `Lowering.IR.ParseWhile` | compiler/ecpps/src/Execution/IR.Statements.cpp:73-91 | The same for `while`, with the jump targets pushed for the body and popped. |
| `Lowering.IR.ParseFor` | compiler/ecpps/src/Execution/IR.Statements.cpp:93-114 | The same for `for`. |
| `Lowering.IR.ParseDoWhile` | compiler/ecpps/src/Execution/IR.Statements.cpp:116-132 | The same for `do`. |
| `Lowering.IR.ParseBreak` | compiler/ecpps/src/Execution/IR.Statements.cpp:150-161 | Jumps to the end of the innermost loop, or reports that there is none. |
| `Lowering.IR.ParseContinue` | compiler/ecpps/src/Execution/IR.Statements.cpp:163-176 | Jumps to the continue label of the innermost loop that has one, or reports. |
| `Lowering.IR.ParseVariableDeclaration` | compiler/ecpps/src/Execution/IR.Initialisation.cpp:282-447 | For a scalar: appends reservation and store, and enters the name, or reports. |
| `Lowering.IR.ParseNode` | compiler/ecpps/src/Execution/IR.cpp:46-150 | Every kind of statement of the model: expressions, declarations, `if`, the loops, `break`, `continue` and `return`. |
| `FunctionSimulation.FunctionSimulated` | compiler/ecpps/src/Execution/IR.cpp:231-395 | Running a lowered function gives a value and a memory if and only if its meaning does, parameters, `main`'s zero and the void return included. |
| `Functions.ParametersInOrder` | compiler/ecpps/src/Execution/IR.cpp:350-372 | Each parameter gets a cell of its width, in order, filled from the argument of its own number of this function. |
| `Functions.ParametersAreFound` | compiler/ecpps/src/Execution/IR.cpp:350-372 | A parameter's name leads to the cell of the first parameter so called. |
| `Functions.ArgumentsAreParameters` | compiler/ecpps/src/Execution/IR.cpp:350-372 | When the body starts, each parameter holds its own argument and nothing else is touched. |
| `Functions.EndOfMain` | compiler/ecpps/src/Execution/IR.cpp:376-392 | Leaving the body at its end returns zero from `main` and nothing from any other function. |
| `FunctionShapes.LowersToRunnable` | compiler/ecpps/src/Execution/IR.cpp:231-395 | Every accepted function is lowered, without a diagnostic, to a well-formed body whose labels are all placed. |
| `Lowering.IR.ParseFunctionDefinition` | compiler/ecpps/src/Execution/IR.cpp:231-395 | Appends parameters, body and end. |
| `ImportBuilder.BuildIdataBuffer` | compiler/ecpps/src/Linker/PE.cpp:318-411 | The buffer that grows and is overwritten at three advancing offsets is the section as specified, byte for byte; a loader that walks it finds the DLLs in order, each under its given name and with its functions under theirs in both tables (empty names are replaced by literal ones). |
| `ImportData.ImageLoads` | compiler/ecpps/src/Linker/PE.cpp:318-411 | For every list of DLLs with names free of zero bytes, within 32 bits: walking descriptors, thunks and hint/name records recovers the DLLs and their functions in order, from the lookup table and from the address table. |
| `ImportData.HintRecordBytes` | compiler/ecpps/src/Linker/PE.cpp:369-386 | The record of a function byte for byte: no hint, the name or "Unknown", zeros up to an even size. |
| `ImportData.DllRecordBytes` | compiler/ecpps/src/Linker/PE.cpp:395-399 | The name of a DLL byte for byte, or "dummy.dll", and zeros up to an even size. |
| `ImportData.DescriptorBytes` | compiler/ecpps/src/Linker/PE.cpp:362-403 | Where the five fields of a descriptor are, with no time stamp and no forwarder. |
| `ImportData.ThunkBytesAre` | compiler/ecpps/src/Linker/PE.cpp:371-376 | A thunk holds the low 32 bits of an address, and zeros above. |
| `ImportData.PiecesFit` | compiler/ecpps/src/Linker/PE.cpp:318-333 | The offsets computed beforehand are the sizes of what is written: no region reaches into the next. |
| `ImportBuilder.HoldsThunk` | compiler/ecpps/src/Linker/PE.cpp:371-376 | Writing one thunk at both table offsets extends both tables and leaves the rest of the buffer. |
| `ImportBuilder.HoldsName` | compiler/ecpps/src/Linker/PE.cpp:378-383 | Writing a name at the end keeps it rounded to an even offset, even before the padding byte exists. |
| `ExecutableImages.PEImage.ToBytes` | compiler/ecpps/src/Linker/PE.cpp:503-625 | Three sections are added, all are placed, and the zeroed file that is filled is the specified one; a loader sees every section with its bytes, address and flags, and reads the import directory and the size of the image from it. |
| `ExecutableFile.PlacesAreInOrder` | compiler/ecpps/src/Linker/PE.cpp:557-583 | For every list of sections: addresses and offsets are aligned, ranges in memory and in the file are disjoint and in order, behind the headers. |
| `ExecutableFile.PlacesAreLeast` | compiler/ecpps/src/Linker/PE.cpp:557-583 | Every section has the least aligned address and the least aligned offset behind the bytes of the one before it. |
| `ExecutableFile.ImageFileIsSeen` | compiler/ecpps/src/Linker/PE.cpp:587-625 | Reading a file by its own headers gives every section at its recorded address with its bytes unchanged. |
| `ExecutableFile.SeenAsTheyAre` | compiler/ecpps/src/Linker/PE.cpp:557-585 | A section is seen with its name, bytes, address and flags, and with its size rounded up to the file alignment. |
| `ExecutableFile.HeadersAre` | compiler/ecpps/src/Linker/PE.cpp:547-552 | Headers and section table end before the first offset, and the file is as long as the offsets say. |
| `ExecutableImages.ImportsAreWhereTheDirectorySays` | compiler/ecpps/src/Linker/PE.cpp:507-524 | The import directory is the address of the import section if and only if the sections before it, each rounded up, end there; then a loader finds all imports at it. |
| `ExecutableImages.ImportsNeedOnePageOfCode` | compiler/ecpps/src/Linker/PE.cpp:507-524 | With code as the only other section, that is if and only if the code fills one page or part of it. |
| `ExecutableFile.ImageSizeReachesTheEnd` | compiler/ecpps/src/Linker/PE.cpp:571-583 | The size of the image is never beyond the end of the last section; it is that end, and a multiple of the alignment, if and only if the headers fill whole pages. |
| `ExecutableImages.ImportsFollowExports` | compiler/ecpps/src/Linker/PE.cpp:507-513 | The imports are built for the first page behind the exports, which start at 0x2000. |
| `ObjectFile.FileReads` | compiler/ecpps/src/Linker/CoffLinker.cpp:165-327 | Reading a file by its own offsets recovers every section's bytes and relocations, and every symbol with its name, inline or in the string table, unless a section with relocations is empty. |
| `ObjectFile.SectionHeaderRest` | compiler/ecpps/src/Linker/CoffLinker.cpp:225-249 | What no reader needs of a section header: the size in memory is that in the file, the rest is zero. |
| `ObjectFile.FileHeaderRest` | compiler/ecpps/src/Linker/CoffLinker.cpp:251-255 | No time stamp, no optional header, no characteristics. |
| `ObjectFile.SymbolsWhereTheHeaderSays` | compiler/ecpps/src/Linker/CoffLinker.cpp:225-254 | The symbols are where the file header says if and only if no section with relocations is empty. |
| `ObjectFile.SkippedRelocationsLoseTheFile` | compiler/ecpps/src/Linker/CoffLinker.cpp:294-312 | When the skipped relocations would take more room than the string table, reading fails. |
| `ObjectFile.SectionsBeforeSkippedRead` | compiler/ecpps/src/Linker/CoffLinker.cpp:294-312 | Whatever is skipped behind them, the sections before it are read as they are. |
| `CoffLinking.CoffLinker.ToBytes` | compiler/ecpps/src/Linker/CoffLinker.cpp:165-327 | From every state that the linker can be in: no relocation is unresolved, the bytes are the specified file, and, if the numbers fit their fields, it can be read back if and only if no section with relocations is empty. |
| `ObjectFile.ReadsBackIff` | compiler/ecpps/src/Linker/CoffLinker.cpp:165-327 | A file whose last symbol has a long name and a section, as the symbol of the string data has, is read back as it was if and only if no section with relocations is empty. |
| `CoffLinking.CoffLinker.SetStringRelocations` | compiler/ecpps/src/Linker/CoffLinker.h:53-57 | Sets the slots that the next code section turns into relocations, and nothing else. |
| `CoffLinking.CoffLinker.CodeSection` | compiler/ecpps/src/Linker/CoffLinker.cpp:91-132 | Calls are patched, their relocations recorded under the name of the symbol, those of string slots behind them; an unknown name stops it with the relocations before it recorded. |
| `CoffLinking.CallsAreRelocated` | compiler/ecpps/src/Linker/CoffLinker.cpp:109-116 | Every call gets a relocation of kind 4 for its symbol that covers just the last four bytes of a call of five or six. |
| `CoffLinking.PatchedCall` | compiler/ecpps/src/Linker/CoffLinker.cpp:101-107 | A patched call keeps its first two bytes, is zero behind them, and leaves the code around it. |
| `CoffLinking.PatchedApart` | compiler/ecpps/src/Linker/CoffLinker.cpp:97-107 | With patches that do not meet, every byte is that of its patch, or as it was. |
| `CoffLinking.SlotsAreRelocated` | compiler/ecpps/src/Linker/CoffLinker.cpp:119-128 | The slots of strings whose four bytes lie within the code are relocated against the symbol of the string data, and no others. |
| `CoffLinking.CoffLinker.ExportFunction` | compiler/ecpps/src/Linker/CoffLinker.cpp:135-145 | Adds a symbol under its name, and names keep leading to symbols so called. |
| `CoffLinking.CoffLinker.ImportFunction` | compiler/ecpps/src/Linker/CoffLinker.cpp:147-163 | Adds a symbol under two names unless the second is known; names keep leading to symbols so called if and only if the first is not the name of another symbol. |
| `CoffLinking.CoffLinker.RelocationsLeadToTheirSymbols` | compiler/ecpps/src/Linker/CoffLinker.cpp:209-223 | Every relocation of the file leads to a symbol of the name it was recorded for. |
| `CoffLinking.RdataSymbolLeadsToItsData` | compiler/ecpps/src/Linker/CoffLinker.cpp:172-205 | The symbol of the string data names the section that holds it, called .rdata and read-only; other sections stay. |
| `CoffLinking.LayOut` | compiler/ecpps/src/Linker/CoffLinker.cpp:225-249 | The section headers, while the offset runs ahead over what is to be written. |
| `CoffLinking.WriteSymbols` | compiler/ecpps/src/Linker/CoffLinker.cpp:257-281 | Symbol records and string table, with the size that counts itself. |
| `CoffLinking.GroupRelocations` | compiler/ecpps/src/Linker/CoffLinker.cpp:207-223 | Every relocation goes to its section in order; fails if and only if a symbol is unknown. |
| `AggregateInitialisation.BracesMakeNoDifference` | compiler/ecpps/src/Execution/ClassInitialisation.cpp:1233-1325 | A list for a class stores what the fully braced list stores, in the same order; that list consists of the clauses that were taken, each once and in order, and the rest is reported. |
| `AggregateInitialisation.SameMeaning` | compiler/ecpps/src/Execution/ClassInitialisation.cpp:1251-1320 | The same for every part, array or class, at every cursor. |
| `AggregateInitialisation.PositionalCovers` | compiler/ecpps/src/Execution/ClassInitialisation.cpp:1233-1325 | Unless something is reported, every scalar is stored to once, in order. |
| `AggregateInitialisation.FlatListStores` | compiler/ecpps/src/Execution/ClassInitialisation.cpp:1233-1325 | In a flat list of values for a class, value k is stored to scalar k if that can hold it and reported if not; scalars without a value get their default or zero. |
| `AggregateInitialisation.ArrayListStores` | compiler/ecpps/src/Execution/ClassInitialisation.cpp:523-589 | The same for the list of an array of scalars, element by element. |
| `AggregateInitialisation.ScalarInBraces` | compiler/ecpps/src/Execution/ClassInitialisation.cpp:465-515 | A scalar in braces: nothing for zero, one value that it can hold, or an error. |
| `AggregateInitialisation.OmittedFieldTakesItsDefault` | compiler/ecpps/src/Execution/ClassInitialisation.cpp:1198-1231 | A field without a clause is initialised from its default, whatever that is. |
| `AggregateInitialisation.LeavesAreOrdered` | compiler/ecpps/src/Execution/ClassInitialisation.cpp:1240-1248 | If fields do not overlap, no two scalars are at the same place, and all lie within the object. |
| `AggregateInitialisation.ExcessIsCounted` | compiler/ecpps/src/Execution/ClassInitialisation.cpp:1322-1325 | A flat list is reported as too long if and only if it has more values than the class has scalars. |
| `AggregateInitialisation.OwnListMeansElidedIff` | compiler/ecpps/src/Execution/ClassInitialisation.cpp:523-589 | Where the parts of an array could take all of its own list without an error, the list means this if and only if its elements are scalars or every clause is in braces. |
| `AggregateInitialisation.OwnListsNeedBraces` | compiler/ecpps/src/Execution/ClassInitialisation.cpp:523-589 | A bare value for an element that is no scalar is reported. |
| `AggregateInitialisation.FlatOwnListIsReported` | compiler/ecpps/src/Execution/ClassInitialisation.cpp:523-589 | Two arrays of two take two values from a list around them, and report both in a list of their own. |
| `AggregateInitialisation.IR.InitialisePositionalAggregate` | compiler/ecpps/src/Execution/ClassInitialisation.cpp:1233-1325 | The cursor that advances and the stores that are appended are those of the pure description. |
| `AggregateInitialisation.IR.InitialiseSubobject` | compiler/ecpps/src/Execution/ClassInitialisation.cpp:1251-1318 | The same for one part. |
| `AggregateInitialisation.IR.InitialiseArrayAtAddress` | compiler/ecpps/src/Execution/ClassInitialisation.cpp:523-589 | The same for an array with an initialiser of its own. |
| `AggregateInitialisation.IR.InitialiseEmptyClassList` | compiler/ecpps/src/Execution/ClassInitialisation.cpp:1198-1231 | Default member initialisers, or empty braces, field by field. |
| `IntegerConstants.NarrowingConstantExact` | compiler/ecpps/src/Execution/ClassInitialisation.cpp:1434-1506 | On a constant that fits its type, narrowing is found if and only if the target cannot hold the value. |
| `IntegerConstants.TypesHold` | compiler/ecpps/src/Execution/ClassInitialisation.cpp:1434-1506 | The ranges of the types of 8, 32 and 64 bits in numbers. |
| `IntegerConstants.NarrowingTypeExact` | compiler/ecpps/src/Execution/ClassInitialisation.cpp:1434-1506 | On any other value, if and only if some value of the type cannot be held. |
| `IntegerConstants.NarrowingLosesValue` | compiler/ecpps/src/Execution/ClassInitialisation.cpp:1434-1506 | Narrowing is found exactly when converting the constant and reading it at the target type gives another value. |
| `IntegerConstants.ConvertedIsValue` | compiler/ecpps/src/Execution/IR.Internal.cpp:183-197 | Converting a constant gives the low bits of its mathematical value, at every width and sign. |
| `IntegerConstants.ConvertsUnlessMixedWidening` | compiler/ecpps/src/Execution/IR.Lowering.cpp:319-358 | The chosen conversions give the low bits of the value if and only if they do not widen between signs. |
| `IntegerConstants.ChosenSuits` | compiler/ecpps/src/Execution/IR.Lowering.cpp:330-347 | A conversion is chosen if and only if it suits the sizes and signs of the two types. |
| `IntegerConstants.FoldedIsExact` | compiler/ecpps/src/Execution/IR.Expressions.cpp:66-221 | The folded pointer offset is index times element size modulo 2^64, for every index type. |
| `IntegerConstants.FoldedIsComputed` | compiler/ecpps/src/Execution/IR.Expressions.cpp:66-221 | Folding and emitted code agree if and only if the index is signed, fills a word, leaves the top bit of its type clear, or is scaled so far that the range of its type vanishes modulo 2^64. |
| `IntegerConstants.PointerDifference` | compiler/ecpps/src/Execution/IR.Expressions.cpp:66-221 | Moving a pointer by n elements and subtracting gives n if and only if the scaled offset fits a signed word. |
| `IntegerConstants.QuotientTowardsZero` | compiler/ecpps/src/Execution/IR.Expressions.cpp:66-221 | Dividing the difference rounds towards zero. |
| `EditDistance.LevenshteinDistance` | compiler/ecpps/src/Execution/IR.Internal.cpp:144-181 | The three rows that are filled and swapped give half the distance, rounded down, for all pairs of strings. |
| `EditDistance.NoScriptIsCheaper` | compiler/ecpps/src/Execution/IR.Internal.cpp:144-181 | No script of insertions, deletions, substitutions and exchanges costs less than the distance. |
| `EditDistance.CheapestScript` | compiler/ecpps/src/Execution/IR.Internal.cpp:144-181 | Some script costs just the distance. |
| `EditDistance.DistanceSymmetric` | compiler/ecpps/src/Execution/IR.Internal.cpp:144-181 | Distance does not depend on the direction. |
| `EditDistance.DistanceCountsLengths` | compiler/ecpps/src/Execution/IR.Internal.cpp:144-181 | It is at least twice the difference in length. |
| `EditDistance.DistanceZero` | compiler/ecpps/src/Execution/IR.Internal.cpp:144-181 | It is zero only for equal strings. |
| `EditDistance.OneCharacter` | compiler/ecpps/src/Execution/IR.Internal.cpp:144-181 | One character for another costs two, and one for its other case; half of it is the unit. |
| `EditDistance.TwoCharacters` | compiler/ecpps/src/Execution/IR.Internal.cpp:144-181 | Two neighbours exchanged cost two, in whatever case. |
| `EditDistance.CaseCostsHalf` | compiler/ecpps/src/Execution/IR.Internal.cpp:144-181 | Strings that differ in case only are at most one apart for every character that differs. |
| `StringPool.AssemblyContext.ParseArrayStore` | compiler/ecpps/src/CodeGeneration/PseudoAssembly.cpp:369-415 | Either nothing, zeros or pooled data: the instruction puts the little-endian elements in memory. |
| `StringPool.AssemblyContext.MeansTheSameLater` | compiler/ecpps/src/CodeGeneration/PseudoAssembly.h:340-355 | It goes on doing so whatever is added to the pool later. |
| `StringPool.AssemblyContext.AddString` | compiler/ecpps/src/CodeGeneration/PseudoAssembly.h:340-355 | Without pooling, a string gets an entry of its own and no earlier string changes. |
| `StringPool.AssemblyContext.GetString` | compiler/ecpps/src/CodeGeneration/PseudoAssembly.h:321-325 | Reads back the string that was added under an index. |
| `StringPool.ElementBytes` | compiler/ecpps/src/CodeGeneration/PseudoAssembly.cpp:400-406 | The bytes shifted out of a 32-bit value are its little-endian encoding at every element size. |
| `StringPool.ElementsInOrder` | compiler/ecpps/src/CodeGeneration/PseudoAssembly.cpp:396-408 | Byte k of element i stands at i times the element size plus k, lowest byte first. |
| `StringPool.WideElementsAreCut` | compiler/ecpps/src/Execution/IR.Initialisation.cpp:620-640 | In eight-byte elements a constant survives if and only if it is not negative and fits 32 bits. |
| `TypeTable.SameTypeForEqualRequests` | compiler/ecpps/src/Execution/Context.h:296-316 | Over any run, two requests get the same type if and only if they are equal, and what was made stays. |
| `TypeTable.EqualRequestsAreTheSame` | compiler/ecpps/src/Execution/Context.h:108-270 | On requests for types, the field-by-field comparison is equality, and implies equal hashes. |
| `TypeTable.MeansItself` | compiler/ecpps/src/Execution/Context.h:296-303 | A request for a type stands for itself, and a failed one for what its suggestions come to. |
| `TypeTable.MadeForOne` | compiler/ecpps/src/Execution/Context.h:296-316 | What any two calls answered is the same type if and only if they stand for the same request. |
| `TypeTable.HitsCountRequests` | compiler/ecpps/src/Execution/Context.h:305-316 | Over any run, the hit count of a type grows by one for each request for it, the first included. |
| `TypeTable.TypeContext.Get` | compiler/ecpps/src/Execution/Context.h:296-316 | Answers from the table or makes a type; a failed request is answered like its suggestion, or not at all. The answer was made for the request itself, and nothing made is forgotten. |

## Findings

Where the code does not do what C++ or its own layout asks for, the model follows the code. Each case is stated
with its exact condition, or with the family of inputs that fails.

- `continue` in `for` (compiler/ecpps/src/Execution/IR.Statements.cpp:106-110): the iteration expression is
  emitted before the continue label and is skipped. `ContinueInFor.SameTestsIffIdle` says exactly when that makes
  no difference, `ContinueInFor.ContinueSkipsTheStep` gives a loop that never ends.
- Assignment to results (compiler/ecpps/src/Execution/IR.Lowering.cpp:523-532): an assignment to a compound
  assignment, to a pre-increment or to an assignment through a pointer does not reach the object.
  `ExpressionLowering.AssignsRightIffAssignable`.
- Mixed-sign widening (compiler/ecpps/src/Execution/IR.Lowering.cpp:339-347): the extension follows the sign of
  the target, against compiler/ecpps/src/Execution/Operations.h:756-757.
  `IntegerConstants.ConvertsUnlessMixedWidening`.
- Comparisons as values (compiler/ecpps/src/CodeGeneration/PseudoAssembly.cpp:69-78): a comparison whose result is
  not branched on at once is reported as an error. `Routines.LoneComparisonIsReported`.
- Unsigned constant indices (compiler/ecpps/src/Execution/IR.Expressions.cpp:66-221) are folded to another offset than the
  emitted code computes when the top bit of their type is set. `IntegerConstants.FoldedIsComputed`.
- An array's own list (compiler/ecpps/src/Execution/ClassInitialisation.cpp:523-589) does not look for left out
  braces. `AggregateInitialisation.OwnListMeansElidedIff`, `AggregateInitialisation.FlatOwnListIsReported`.
- Wide array elements (compiler/ecpps/src/Execution/IR.Initialisation.cpp:635) keep 32 bits only.
  `StringPool.WideElementsAreCut`.
- Relocations of empty sections (compiler/ecpps/src/Linker/CoffLinker.cpp:225-249 and 294-312) are counted but not
  written. `ObjectFile.ReadsBackIff`, `ObjectFile.SymbolsWhereTheHeaderSays`,
  `ObjectFile.SkippedRelocationsLoseTheFile`, `ObjectFile.SectionsBeforeSkippedRead`.
- An import whose first name is the name of another symbol (compiler/ecpps/src/Linker/CoffLinker.cpp:147-163)
  takes that symbol's place. `CoffLinking.CoffLinker.ImportFunction` states exactly when.
- The import address (compiler/ecpps/src/Linker/PE.cpp:507-524) is chosen before sections are placed.
  `ExecutableImages.ImportsAreWhereTheDirectorySays`; more than one page of code moves the imports away from it,
  `ExecutableImages.ImportsNeedOnePageOfCode`.
- The size of the image (compiler/ecpps/src/Linker/PE.cpp:571-583) counts the headers without rounding them up to a
  page, while the first section starts on the page behind them: it falls short of the end of the last section and is
  no multiple of the alignment. `ExecutableFile.ImageSizeReachesTheEnd` says exactly when it does not.

## Left out

- Compilation.CompileFunction: functions without calls, with integers, pointers, variables, arithmetic, comparisons as conditions, assignments and increments; names do not shadow one another, and register numbers stay below the mark for unused entries.
- Routines.CompileRoutine: with calls in the body, it is proved that the code behaves as the renamed body, not what a call does, because what the callee does is not part of the model.
- PseudoAssembly.ParsingContext.Parse: the assertions that the operands of a binary node and of a comparison have equal widths are not statements of the method; `StatementWidths.WidthAssertionsHold` proves that they never fail where the operands of the source operators have the widths of their operators, which the front end's conversions provide.
- ControlSimulation.ForRuns: proved for `continue` as emitted; with `continue` as in C++ only where the findings say.
- StatementSimulation.DeclarationRuns: scalars only; arrays, class objects and references are not declared in the model.
- Lowering.IR.ParseVariableDeclaration: scalars only.
- Lowering.IR.ParseNode: `goto`, labels, classes, namespaces and aliases are not modelled.
- AggregateInitialisation.IR.InitialiseEmptyClassList: aggregates; the branches for constructors and for reference members are not modelled.
- BodyLayout.TranslationSimulates: bodies without calls.
- IntegerConstants.NarrowingConstantExact: integer types other than bool; the branch for a bool target is not modelled.
- IntegerConstants.ConvertsUnlessMixedWidening: integer to integer; other conversions are lowered as failures.
- IntegerConstants.FoldedIsExact: the offsets of the additive expression, not the tree it is put into.
- StringPool.AssemblyContext.AddString: pooling switched off; exact and substring pooling look into another buffer and are not modelled.
- TypeTable.TypeContext.Get: a type is a number that grows with every type made, in place of the address of an object.
- ExecutableImages.PEImage.ToBytes: offsets are computed without wrapping, so it is the file written as long as all of it stays below 2^32; of the headers, the number of sections, the size of the optional header, the size of the image, the section table and the import directory are modelled, the other fields are given; writing the number of sections and the import directory is one step.
- ImportBuilder.BuildIdataBuffer: imports come in the order in which the map is walked, which is a parameter.
- CoffLinking.CoffLinker.CodeSection: what a call is patched with is a parameter.
- ControlFlowCleanup.Pass: the list is rebuilt where the original overwrites it in place; positions and order are the same.
- AggregateInitialisation.BracesMakeNoDifference: aggregates and arrays of integers, with default member initialisers; references, designated initialisers, constructors and string literals are not modelled.
- Structured loops run with fuel; that no amount of fuel suffices is how divergence is stated.
- Modulo is reported as unsupported by the translation and excluded from well-formed bodies.
- `goto` statements, `this`, references, classes and calls as expressions, and parameters that are references.
- The export directory, the directory of the address table and relocation of images.
- Function overload ranking, unions, virtual functions and inlined constructors.
- The text of diagnostics: only whether something is reported.
- x86-64 encoding, ABI layout and the parser are not part of this model; sizes, offsets and alignments are given.
