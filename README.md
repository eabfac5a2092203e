# A verified model of a small C compiler

This project models the core of a small compiler for a subset of C, written in C++. The compiler runs in these stages:

1. The **lexer** turns the source text into tokens.
2. The **parser** builds a syntax tree by recursive descent with precedence climbing.
3. The **IR generator** walks the tree. Scopes come from a **resolver**. The output is three-address code in basic blocks: binary, unary, copy, return, label, jump, jump-if-zero, jump-if-not-zero and call.
4. The **optimizer** works block by block in a loop of at most 25 rounds, which repeats while a round reports a change. Each round:
   - rebuilds a **flow graph** from the block's original instructions;
   - runs **constant folding** on a copy of those instructions;
   - runs **copy propagation**, a forward data-flow analysis over a worklist, on the graph.

   Three consequences of the loop as written are proved:
   - the folded instructions are dropped, and only the graph's instructions are emitted;
   - every round restarts from the original block, so no round builds on the one before;
   - copy propagation reports a change whenever an instruction survives it, so the loop never stops early for a block that keeps an instruction.

   The **unreachable-code** pass is part of the source but the optimizer never calls it. It is modelled on its own.
5. The **code generator** lowers the IR to x86 instructions over stack slots and pseudo registers.

One module models each source file:

| file | module | models |
|---|---|---|
| `wrappers.dfy` | `Wrappers` | `Option` and `Result` |
| `machine_int.dfy` | `MachineInt` | the 32-bit `int` and C++ truncating `/` and `%` |
| `decimal.dfy` | `Decimal` | `std::to_string` on integers and its inverse |
| `tokens.dfy` | `Tokens` | token kinds and tokens |
| `lexer.dfy` | `Lexing` | the lexer, as a scanning function and as a class with two cursors |
| `ast.dfy` | `Ast` | the syntax tree |
| `parser.dfy` | `Parsing` | the parser, as functions over a token cursor and as a class |
| `resolver.dfy` | `Scopes` | the scope resolver |
| `ir.dfy` | `IR` | IR values, instructions and basic blocks |
| `ir_generator.dfy` | `IrGeneration` | the generator: a state-passing specification and a class proved against it |
| `ir_generator_facts.dfy` | `IrGenerationFacts` | naming, growth and scope facts about the generator |
| `ir_generator_layout.dfy` | `IrGenerationLayout` | the code layouts of `if`, `while`, `&&`, `\|\|` and declarations |
| `flow_graph.dfy` | `FlowGraphs` | the flow graph: partition into blocks, label cache, edges, removal of nodes and edges |
| `constant_folding.dfy` | `ConstantFoldingPass` | constant folding |
| `copy_propagation.dfy` | `CopyPropagationPass` | reaching copies (meet, transfer, worklist), the rewrite, and its soundness |
| `unreachable_code.dfy` | `UnreachableCodePass` | removal of dead blocks, redundant jumps and redundant labels |
| `optimizer.dfy` | `OptimizerDriver` | the optimizer loop |
| `stale_entry_edge.dfy` | `StaleEntryEdge` | the hard-coded edge from ENTRY to id 1 and what it does to copy propagation; see Findings |
| `x86.dfy` | `X86` | x86 operands, condition codes and instructions |
| `code_generator.dfy` | `CodeGeneration` | the lowering, as a specification and as a class |
| `x86_semantics.dfy` | `X86Semantics` | a small interpreter for the emitted instructions, and what the lowering computes on it |

Each operation is written in the form the source gives it:
- Objects whose methods update fields are classes with `modifies` clauses: the lexer, parser, resolver, basic block, flow graph, passes, optimizer and both generators.
- Each such method is proved against a pure function that specifies it. For example, every `Parser` method agrees with a `...At` function over the token list, and every `IrGenerator` method with a function over a `GenState` value.
- The properties of the compiler are proved about those functions.

Exceptions thrown by the source become `Err` results that carry the source's message. Where the source has undefined behaviour there are two treatments:
- where a caller can reach it, it is an explicit error, for example reading past the last token;
- where the source's callers never reach it, it is a precondition;
- constant folding that overflows `int` or divides by zero is reachable from a program, but the source gives it no meaning. It is a precondition as well, listed under Left out.

Three behaviours of the source are kept as written and exhibited by lemmas:
- The lexer leaves a string's closing quote unconsumed. `Lexing.ClosingQuoteExample` shows the result: `"a"` fails as an unterminated string.
- The code generator takes every name that starts with `t` for a temporary. `CodeGeneration.VariableNamedLikeTemporary` shows a variable named `total_1` treated this way.
- The division case of `assemble(ir_binary)` falls through into the `>` case. This is listed under Findings.


## Model

| member | source | states |
|---|---|---|
| `IR.Value.ValueToString` | src/ir/ir.h:31-36 | a constant's text reads back as that constant; a name is its own text |
| `IR.CopyNotEqual` | src/ir/ir.h:74-81 | two copies differ exactly when their destinations or their sources differ |
| `IR.BasicBlock.constructor` | src/ir/ir.h:114-115 | a new block has the given name and no instructions |
| `IR.BasicBlock.AddInstruction` | src/ir/ir.h:117-119 | the instruction is appended at the end; the name is unchanged |
| `IR.BasicBlock.Assign` | src/ir/ir_generator.cpp:6 | assigning a fresh block (`current_block = ir_basic_block(...)`): the given name and an empty list |
| `IR.BasicBlock.IsEmpty` | src/ir/ir.h:129-131 | true exactly when the block has no instructions |
| `Decimal.IntToDecimalRoundTrip` | src/ir/ir.h:33 | `std::to_string` text of any integer reads back as that integer |
| `Decimal.IntToDecimalInjective` | src/ir/ir_generator.cpp:18-25 | distinct integers have distinct decimal texts, so counters give distinct names |
| `MachineInt.TruncDivLaws` | src/optimizations/passes/constant_folding.cpp:84-85 | C++ `/` truncates: quotient times divisor plus remainder is the dividend, the remainder is smaller than the divisor and has the dividend's sign |
| `MachineInt.TruncDivExamples` | src/optimizations/passes/constant_folding.cpp:84-85 | `10/3 == 3`, `-7/2 == -3`, `7/-2 == -3` |
| `ConstantFoldingPass.EvaluateUnaryLaws` | src/optimizations/passes/constant_folding.cpp:62-73 | a result exists exactly for `-`, `~` and `!`; `-` and `~` are involutions; `!` yields 1 exactly for 0 and 0 otherwise |
| `ConstantFoldingPass.EvaluateBinaryLaws` | src/optimizations/passes/constant_folding.cpp:75-101 | a result exists exactly for the four arithmetic operators and the six comparisons; every comparison yields 0 or 1 |
| `ConstantFoldingPass.ComparisonLaws` | src/optimizations/passes/constant_folding.cpp:86-97 | `==` is the complement of `!=`, `<=` of `>`, `>=` of `<`, and `l < r` is `r > l` |
| `ConstantFoldingPass.EvaluateArithmetic` | src/optimizations/passes/constant_folding.cpp:78-85 | `+`, `-`, `*` are the exact sums and products on defined inputs; `/` leaves a remainder smaller than the divisor with the dividend's sign |
| `ConstantFoldingPass.DivisionExamples` | src/optimizations/passes/constant_folding.cpp:84-85 | folding `10/3` gives 3 and `-7/2` gives -3 (truncation, not flooring) |
| `ConstantFoldingPass.FoldInstructionIff` | src/optimizations/passes/constant_folding.cpp:18-60 | an instruction folds exactly when it is a binary with two constant operands and a foldable operator or a unary with a constant operand and a foldable operator; it then becomes a copy of the evaluated constant into its result |
| `ConstantFoldingPass.FoldedUpToEmpty` | src/optimizations/passes/constant_folding.cpp:5-16 | the list of folded instructions is empty exactly when no instruction folds |
| `ConstantFoldingPass.FoldedUpToCopies` | src/optimizations/passes/constant_folding.cpp:25-34 | the folded list is no longer than the input and holds only copies of constants |
| `ConstantFoldingPass.FoldingDropsTheRest` | src/optimizations/passes/constant_folding.cpp:12-13 | on a change the block is replaced by the folded instructions alone: `t0 = 1 + 2; return t0` becomes `t0 = 3` |
| `ConstantFoldingPass.ConstantFolding.constructor` | src/optimizations/passes/constant_folding.hpp:12 | a new pass holds no pending instructions |
| `ConstantFoldingPass.ConstantFolding.ProcessInstruction` | src/optimizations/passes/constant_folding.cpp:25-34 | returns whether the instruction folds and appends its folded copy, if any, to the pending list |
| `ConstantFoldingPass.ConstantFolding.Apply` | src/optimizations/passes/constant_folding.cpp:5-16 | reports a change exactly when some instruction folds; then the result is the pending list plus the folded copies and the pending list is moved out; otherwise the instructions are kept |
| `OptimizerDriver.Optimizer.constructor` | src/optimizations/optimizer.hpp:10-17 | fresh passes and an empty graph |
| `OptimizerDriver.Optimizer.Round` | src/optimizations/optimizer.hpp:26-33 | the id counter advances by one per basic block and the label index is extended from the new layout; on success the round reports a change exactly when something folds or some instruction is left in the graph, and the graph then holds the block's instructions rewritten by copy propagation on a graph built from the original block |
| `OptimizerDriver.Optimizer.Passes` | src/optimizations/optimizer.hpp:30-32 | on a graph just built from the block, the folding result is dropped; a change is reported exactly when something folds or an instruction survives copy propagation, and the graph holds the rewritten block |
| `OptimizerDriver.Optimizer.Step` | src/optimizations/optimizer.hpp:25-36 | one more round, started while the loop continues, moves the counter past one more layout, leaves the index of that layout alone and extends the loop's record by the round's flag |
| `OptimizerDriver.Optimizer.RunRounds` | src/optimizations/optimizer.hpp:23-36 | between 1 and 25 rounds ran, each numbering its blocks past the one before; when none failed, every round but the last reported a change and the last one stops the loop |
| `OptimizerDriver.Optimizer.OptimizeBlock` | src/optimizations/optimizer.hpp:22-41 | every round but the last reported a change, and the last reported none unless it was round 25; the output is what the last round emitted from the original block; a block where something folds or that holds anything but copies runs all 25 rounds |
| `OptimizerDriver.Optimizer.NewBlock` | src/optimizations/optimizer.hpp:39-40 | a fresh block with the input block's name and the emitted instructions |
| `OptimizerDriver.Optimizer.NewBlocks` | src/optimizations/optimizer.hpp:39-41 | one fresh block per input block, in order, with its name and its emitted instructions |
| `OptimizerDriver.Optimizer.Optimize` | src/optimizations/optimizer.hpp:19-45 | one fresh block per input block, in order and with the same name; each block's instructions are what its loop emits, starting from the id counter and label index the blocks before it left |
| `OptimizerDriver.BuiltFromShape` | src/flow_graph/flow_graph.hpp:164-176 | a built graph emits exactly the block's instructions, has distinct ids, empty ENTRY and EXIT nodes, and symmetric edges |
| `OptimizerDriver.LastRoundRewrites` | src/optimizations/optimizer.hpp:27-38 | after a round every real node of the graph built from the block holds its instructions rewritten with the copies reaching its start; ENTRY and EXIT stay empty |
| `OptimizerDriver.RoundEstablishes` | src/optimizations/optimizer.hpp:27-32 | copy propagation's results on a graph built from the block are the greatest fixed point of the data-flow equations, because a built graph is well linked |
| `OptimizerDriver.OptimizedFromUnique` | src/optimizations/optimizer.hpp:27-38 | a block's round, for a given id counter and label index, has exactly one possible output |
| `OptimizerDriver.LastRoundsAgree` | src/optimizations/optimizer.hpp:27-38 | two rounds built from the same block, counter and label index emit the same instructions |
| `OptimizerDriver.WitnessOptimized` | src/optimizations/optimizer.hpp:27-38 | what a round leaves is an output of some round on the original block |
| `OptimizerDriver.KeepsSomeInstructions` | src/optimizations/passes/copy_propagation.cpp:13-32 | copy propagation's change flag, set when some node keeps an instruction, holds exactly when the emitted instructions are non-empty |
| `OptimizerDriver.RewriteWithKeepsNonCopy` | src/optimizations/passes/copy_propagation.cpp:197-226 | copy propagation only ever drops copies: a block with any other instruction is never rewritten to nothing |
| `OptimizerDriver.RewritesKeepNonCopy` | src/optimizations/passes/copy_propagation.cpp:13-31 | rewriting every real node of a graph that holds a non-copy instruction leaves some instruction |
| `OptimizerDriver.NonCopySurvives` | src/optimizations/optimizer.hpp:26-38 | a round on a block holding anything but copies never emits an empty block |
| `OptimizerDriver.OptimizedNonCopy` | src/optimizations/optimizer.hpp:26-38 | no output of any round on a block holding anything but copies is empty |
| `OptimizerDriver.AllRoundsRun` | src/optimizations/optimizer.hpp:31-36 | a block where something folds or a non-copy instruction sits reports a change in every round, so only the limit stops it |
| `OptimizerDriver.RoundStartSpent` | src/flow_graph/flow_graph.hpp:170-171 | round `k` starts numbering `k` times the block count past the first round's start |
| `OptimizerDriver.RoundCache` | src/flow_graph/flow_graph.hpp:228-238 | a rebuilt graph of the same block re-indexes every label the previous round indexed, so the index depends only on the last layout |
| `OptimizerDriver.RoundDone` | src/optimizations/optimizer.hpp:25-36 | one more successful round extends the loop's record: the counter moves one layout on and the flag is the new round's |
| `OptimizerDriver.RoundFailed` | src/optimizations/optimizer.hpp:25-36 | a round that fails still used its ids and its layout's labels, and counts as the last round |
| `OptimizerDriver.RoundsStop` | src/optimizations/optimizer.hpp:36 | a successful round whose flag is false, or that is round 25, ends the loop with the record intact |
| `OptimizerDriver.RoundsFinished` | src/optimizations/optimizer.hpp:36-38 | when the loop ends, the last flag is false unless 25 rounds ran, and a block where something folds or a non-copy instruction sits ran all 25 |
| `OptimizerDriver.BlocksOptimizedSnoc` | src/optimizations/optimizer.hpp:22-42 | one more optimized block, taking the counter and index where the previous one left them, extends the record of the outer loop |
| `CopyPropagationPass.BuiltGraphWellLinked` | src/flow_graph/flow_graph.hpp:277-331 | a graph `generate_flowgraph` builds has distinct ids, every predecessor is ENTRY or a real node, and its edges are symmetric: a node lists another as successor exactly when the other lists it as predecessor |
| `FlowGraphs.LabelCacheOverwrite` | src/flow_graph/flow_graph.hpp:228-238 | indexing a second layout of the same blocks overwrites every entry the first layout made |
| `FlowGraphs.LayoutPastOne` | src/flow_graph/flow_graph.hpp:166-173 | a layout numbered from a counter past 0 has no node 1, and no edges yet |
| `FlowGraphs.EntryEdgeAsWritten` | src/flow_graph/flow_graph.hpp:287-293 | when no node is numbered 1, no node gets ENTRY as a predecessor |
| `FlowGraphs.CorrectedEntryEdge` | src/flow_graph/flow_graph.hpp:287-293 | wiring ENTRY to the first laid-out block changes only that edge, and then the first block's first predecessor is ENTRY |
| `StaleEntryEdge.ProgramBlocks` | src/flow_graph/flow_graph.hpp:247-275 | `a = 1; a = 2; t = -a; return t` is split into the three assignments and the return |
| `StaleEntryEdge.ProgramGraph` | src/flow_graph/flow_graph.hpp:164-176 | the graph of that block: the second block's only predecessor is the first, and the first has ENTRY as predecessor exactly when the counter was 0 (or with the corrected edge) |
| `StaleEntryEdge.ProgramEntries` | src/optimizations/passes/copy_propagation.cpp:35-69 | at a fixed point, the first block starts with the meet of its predecessors and the second with the facts leaving the first |
| `StaleEntryEdge.ProgramEmitted` | src/optimizations/passes/copy_propagation.cpp:9-33 | the emitted instructions are the two blocks rewritten with the facts reaching their starts |
| `StaleEntryEdge.AllCopiesRewrite` | src/optimizations/passes/copy_propagation.cpp:197-226 | handed both copies, the first block drops both and `-a` reads 1 |
| `StaleEntryEdge.NoCopiesRewrite` | src/optimizations/passes/copy_propagation.cpp:197-226 | handed no facts, the first block keeps both copies and `-a` reads 2 |
| `StaleEntryEdge.AsWrittenNegatesOne` | src/flow_graph/flow_graph.hpp:287-293 | as written, with the counter past 0, every fixed point rewrites the block to `t = -1; return t` |
| `StaleEntryEdge.AsWrittenSolution` | src/optimizations/passes/copy_propagation.cpp:87-106 | on that graph with no predecessor for the first block, the meet hands it both copies and the result negates 1 |
| `StaleEntryEdge.CorrectedNegatesTwo` | src/flow_graph/flow_graph.hpp:287-293 | with ENTRY wired to the first block, every fixed point keeps both copies and negates 2, the value the block returns |
| `StaleEntryEdge.CorrectedSolution` | src/optimizations/passes/copy_propagation.cpp:87-106 | on that graph with ENTRY as the first block's predecessor, the meet is empty and the result negates 2 |
| `StaleEntryEdge.AsWrittenFirstBlockNoEntry` | src/flow_graph/flow_graph.hpp:287-293 | as written, with the counter past 0, the first block of any built graph never has ENTRY as predecessor |
| `StaleEntryEdge.AsWrittenFirstBlockUnanchored` | src/optimizations/passes/copy_propagation.cpp:87-106 | so, when nothing jumps back to it, every fixed point hands the first block all copies of the graph |
| `StaleEntryEdge.CorrectedFirstBlockEntry` | src/flow_graph/flow_graph.hpp:287-293 | with the corrected edge, ENTRY is the first predecessor of the first block |
| `StaleEntryEdge.CorrectedFirstBlockStartsEmpty` | src/optimizations/passes/copy_propagation.cpp:87-106 | with the corrected edge, every fixed point starts the first block with no facts |
| `Scopes.LookupSpec` | src/scope/resolver.hpp:33-40 | a name resolves exactly when some scope binds it, and then to the innermost binding |
| `Scopes.DeclaredLookup` | src/scope/resolver.hpp:25-31 | after a declaration the name resolves to its new id and every other name resolves as before |
| `Scopes.DeclaredBound` | src/scope/resolver.hpp:29 | the new id exceeds every id already bound, so no two declarations share an id |
| `Scopes.ScopeRestored` | src/scope/resolver.hpp:17-23 | a scope pushed and popped leaves the outer scopes as they were; inside, its own bindings shadow the outer ones |
| `Scopes.Resolver.constructor` | src/scope/resolver.hpp:10-15 | count 0 and one empty scope |
| `Scopes.Resolver.BeginScope` | src/scope/resolver.hpp:17-19 | pushes an empty scope |
| `Scopes.Resolver.EndScope` | src/scope/resolver.hpp:21-23 | pops the innermost scope |
| `Scopes.Resolver.Declare` | src/scope/resolver.hpp:25-31 | with no scope, nothing; otherwise the next count, bound in the innermost scope |
| `Scopes.Resolver.Resolve` | src/scope/resolver.hpp:33-40 | the innermost binding of the name, if any |
| `FlowGraphs.LabelName` | src/flow_graph/flow_graph.hpp:65-70 | the name exactly for a label; the error "Instruction is not label" for anything else |
| `FlowGraphs.JumpLabel` | src/flow_graph/flow_graph.hpp:81-92 | the target exactly for the three jumps; an error for anything else |
| `FlowGraphs.AdapterKindsDisjoint` | src/flow_graph/flow_graph.hpp:94-102 | no instruction both starts and ends a block, and `jump_if_not_zero` does neither |
| `FlowGraphs.StepInvariant` | src/flow_graph/flow_graph.hpp:251-269 | one loop iteration keeps the block shape and keeps the finished blocks plus the pending one equal to the instructions seen |
| `FlowGraphs.PartitionPrefixInvariant` | src/flow_graph/flow_graph.hpp:247-269 | after any prefix, the finished blocks and the pending block are well shaped and concatenate to that prefix |
| `FlowGraphs.PartitionCorrect` | src/flow_graph/flow_graph.hpp:247-275 | the blocks concatenate back to the instructions; each is non-empty with a starter only first and a label only last; each cut follows a label or precedes a starter |
| `FlowGraphs.LabelHeadsOnlySingletons` | src/flow_graph/flow_graph.hpp:261-266 | every block is non-empty, and a block that starts with a label is that label alone |
| `FlowGraphs.Layout` | src/flow_graph/flow_graph.hpp:166-173 | ENTRY first, EXIT last, and the k-th block under id `start + k + 1` |
| `FlowGraphs.LayoutNonEmpty` | src/flow_graph/flow_graph.hpp:166-173 | every real node of a laid-out partition has instructions |
| `FlowGraphs.LayoutFlattens` | src/flow_graph/flow_graph.hpp:213-221 | the nodes of a layout emit exactly the blocks' instructions in order |
| `FlowGraphs.LayoutDistinct` | src/flow_graph/flow_graph.hpp:168-173 | a layout numbered from a non-negative counter has distinct ids |
| `FlowGraphs.LastDefining` | src/flow_graph/flow_graph.hpp:228-238 | the last node whose first instruction defines the label, or -1 when none does |
| `FlowGraphs.LabelCacheLookup` | src/flow_graph/flow_graph.hpp:228-238 | the index maps a label to the last node that starts with it; a label no node starts with keeps its old entry, or stays absent |
| `FlowGraphs.LookupLabel` | src/flow_graph/flow_graph.hpp:240-245 | the stored id exactly for an indexed label; "Label not found" otherwise |
| `FlowGraphs.WithEdge` | src/flow_graph/flow_graph.hpp:277-285 | every node with the start id gains the end as successor, every node with the end id gains the start as predecessor |
| `FlowGraphs.WithEdgesLists` | src/flow_graph/flow_graph.hpp:277-285 | after several edges a node keeps its id and instructions and gains the targets and sources of exactly the edges at it, in order |
| `FlowGraphs.EdgesSymmetric` | src/flow_graph/flow_graph.hpp:277-285 | on an edgeless graph, j is a successor of i exactly when i is a predecessor of j |
| `FlowGraphs.IndexOf` | src/flow_graph/flow_graph.hpp:178-184 | the first node with that id, or -1 when no node has it |
| `FlowGraphs.RemoveId` | src/flow_graph/flow_graph.hpp:202-205 | `std::erase` by id: exactly the nodes whose id differs remain |
| `FlowGraphs.AllEdgesOk` | src/flow_graph/flow_graph.hpp:287-331 | wiring fails exactly when some real node ends in a jump to a label not in the index |
| `FlowGraphs.UnindexedLabelFails` | src/flow_graph/flow_graph.hpp:228-245 | a jump to a label that no node starts with and that no earlier graph indexed makes the build fail |
| `FlowGraphs.EntryExitEdges` | src/flow_graph/flow_graph.hpp:287-293 | ENTRY's only successor is id 1, whatever the first block's id, and EXIT has none |
| `FlowGraphs.EdgeRules` | src/flow_graph/flow_graph.hpp:294-329 | a real node's successors are EXIT after a return, the label's node after a jump, the label's node then the next id after a conditional jump, otherwise the next id |
| `FlowGraphs.NodeEdgesFailure` | src/flow_graph/flow_graph.hpp:313-326 | one node whose jump target is unknown makes the whole wiring fail |
| `FlowGraphs.FlowGraph.constructor` | src/flow_graph/flow_graph.hpp:162-226 | no nodes, counter 0, empty label index |
| `FlowGraphs.FlowGraph.GenerateFlowgraph` | src/flow_graph/flow_graph.hpp:164-176 | the counter advances by the number of blocks and the index is extended from the new layout; success exactly when every jump target is indexed, and then the nodes are the layout of the partition with the edges the rules give; on failure the nodes are the unwired layout, which still emits the input |
| `FlowGraphs.FlowGraph.LayOutNodes` | src/flow_graph/flow_graph.hpp:166-173 | the nodes become ENTRY, the blocks under fresh ids, EXIT |
| `FlowGraphs.FlowGraph.PartitionToBasicBlocks` | src/flow_graph/flow_graph.hpp:247-275 | the loop returns the partition |
| `FlowGraphs.FlowGraph.BuildLabelCache` | src/flow_graph/flow_graph.hpp:228-238 | the index is extended from the current nodes |
| `FlowGraphs.FlowGraph.LabelToBlockId` | src/flow_graph/flow_graph.hpp:240-245 | the stored id exactly for an indexed label |
| `FlowGraphs.FlowGraph.AddEdge` | src/flow_graph/flow_graph.hpp:277-285 | the nodes become those with the edge added |
| `FlowGraphs.FlowGraph.AddEdgesFrom` | src/flow_graph/flow_graph.hpp:316-328 | the edges from one source to each target, in order |
| `FlowGraphs.FlowGraph.AddEdgesOfNode` | src/flow_graph/flow_graph.hpp:295-328 | succeeds exactly when the node's targets resolve, then adds those edges; on failure nothing changes |
| `FlowGraphs.FlowGraph.AddAllEdges` | src/flow_graph/flow_graph.hpp:287-331 | the nodes keep ids and instructions; success exactly when all edges resolve, and then the nodes carry ENTRY-to-1 and every node's edges |
| `FlowGraphs.FlowGraph.AddEdgesOfNodes` | src/flow_graph/flow_graph.hpp:294-329 | the loop over the nodes adds, in order, the edges of each, and fails exactly when some node's do not resolve |
| `FlowGraphs.FlowGraph.GetNodeFromId` | src/flow_graph/flow_graph.hpp:178-184 | the first node with the id, or "Node not found" exactly when none has it |
| `FlowGraphs.FlowGraph.RemoveEdge` | src/flow_graph/flow_graph.hpp:186-196 | fails exactly when some neighbour id is missing; the graph is not changed, since each neighbour is edited as a copy |
| `FlowGraphs.FlowGraph.AddNode` | src/flow_graph/flow_graph.hpp:198-200 | the node is appended |
| `FlowGraphs.FlowGraph.RemoveNode` | src/flow_graph/flow_graph.hpp:202-205 | after the neighbour lookups succeed, every node with that id is erased; otherwise nothing changes |
| `FlowGraphs.FlowGraph.RemoveNodeById` | src/flow_graph/flow_graph.hpp:207-210 | an error and no change for an unknown id; for a known id, success exactly when every neighbour of the first node with that id is in the graph, and then every node with that id is erased; no change on an error |
| `FlowGraphs.FlowGraph.EmitInstructions` | src/flow_graph/flow_graph.hpp:213-221 | the nodes' instructions concatenated in node order |
| `CopyPropagationPass.ContainsCopy` | src/optimizations/passes/copy_propagation.cpp:108-112 | true exactly when the copy, compared by destination and source, is in the list |
| `CopyPropagationPass.FilterBy` | src/optimizations/passes/copy_propagation.cpp:99-101 | keeps, in order, exactly the elements in the kept set |
| `CopyPropagationPass.FilterByTwice` | src/optimizations/passes/copy_propagation.cpp:90-104 | filtering by one predecessor's facts and then another's is filtering by their intersection |
| `CopyPropagationPass.FiltersEqual` | src/optimizations/passes/copy_propagation.cpp:87-106 | two order-preserving filters of the same list with the same elements are equal, so an unchanged set of facts is an unchanged annotation |
| `CopyPropagationPass.MeetFrom` | src/optimizations/passes/copy_propagation.cpp:87-106 | fails exactly when EXIT or an unannotated block is met before any ENTRY; the result is a filter of all copies; with no ENTRY among the predecessors it is exactly the copies every predecessor's annotation holds |
| `CopyPropagationPass.MeetExamples` | src/optimizations/passes/copy_propagation.cpp:87-96 | no predecessors give all copies; ENTRY first gives none; EXIT before ENTRY fails |
| `CopyPropagationPass.MeetMonotone` | src/optimizations/passes/copy_propagation.cpp:87-106 | larger predecessor annotations and a larger start give a larger meet, failing exactly as often; the annotations of ENTRY play no part |
| `CopyPropagationPass.MeetWithEntry` | src/optimizations/passes/copy_propagation.cpp:91-92 | an ENTRY predecessor, when the meet succeeds, empties its result |
| `CopyPropagationPass.KillCopies` | src/optimizations/passes/copy_propagation.cpp:140-144 | exactly the copies that mention the value neither as source nor as destination remain |
| `CopyPropagationPass.KillCopiesOrder` | src/optimizations/passes/copy_propagation.cpp:140-144 | killing keeps the order of the survivors |
| `CopyPropagationPass.TransferStepEffect` | src/optimizations/passes/copy_propagation.cpp:150-178 | a copy already reaching changes nothing; a new copy kills those mentioning its destination and is appended; a unary, binary or call kills the copies mentioning its result; other instructions change nothing |
| `CopyPropagationPass.TransferStepMonotone` | src/optimizations/passes/copy_propagation.cpp:147-182 | more facts in give more facts out |
| `CopyPropagationPass.ReachingBeforeBounded` | src/optimizations/passes/copy_propagation.cpp:147-182 | every fact reaching inside a block was in the block's input or is a copy of the block |
| `CopyPropagationPass.CopiesInElems` | src/optimizations/passes/copy_propagation.cpp:72-84 | the copies collected are exactly the copy instructions |
| `CopyPropagationPass.TransferStepSound` | src/optimizations/passes/copy_propagation.cpp:140-178 | on a state where every fact holds, executing the instruction leaves every transferred fact holding |
| `CopyPropagationPass.ReplaceOperand` | src/optimizations/passes/copy_propagation.cpp:184-194 | a constant is kept; a name becomes the source of the first fact whose destination it is, or stays when there is none |
| `CopyPropagationPass.ReplaceOperandSound` | src/optimizations/passes/copy_propagation.cpp:184-194 | where the facts hold, the replacement has the operand's value |
| `CopyPropagationPass.ReplaceAll` | src/optimizations/passes/copy_propagation.cpp:220-226 | every argument replaced, the length kept |
| `CopyPropagationPass.RewriteInstructionEffect` | src/optimizations/passes/copy_propagation.cpp:197-226 | an instruction is dropped exactly when it is a copy that already reaches or whose reverse reaches; otherwise it keeps its kind, operator and written value and only its operands are replaced |
| `CopyPropagationPass.RewriteSound` | src/optimizations/passes/copy_propagation.cpp:197-226 | where the facts hold, a rewritten instruction reads the same values as the original, and a dropped copy already holds |
| `CopyPropagationPass.RewritePreservesRun` | src/optimizations/passes/copy_propagation.cpp:13-31 | running a block rewritten with its reaching facts ends in the same state as running the original, whatever each instruction computes |
| `CopyPropagationPass.AnnotateNext` | src/optimizations/passes/copy_propagation.cpp:150-152 | each instruction is annotated with the facts reaching it, and the facts then advance by its transfer |
| `CopyPropagationPass.Enqueue` | src/optimizations/passes/copy_propagation.cpp:57-66 | fails exactly when ENTRY is a successor; keeps the worklist as a prefix and adds exactly the successors other than EXIT |
| `CopyPropagationPass.EnqueueNoDuplicates` | src/optimizations/passes/copy_propagation.cpp:64-65 | pushing successors onto a worklist without repeated ids leaves it without repeated ids |
| `CopyPropagationPass.NoDuplicatesIndices` | src/optimizations/passes/copy_propagation.cpp:64-65 | no repeated ids means the ids at any two positions differ, and conversely |
| `CopyPropagationPass.NoDuplicatesSnoc` | src/optimizations/passes/copy_propagation.cpp:64-65 | appending an id not yet listed keeps the list without repeats |
| `CopyPropagationPass.RealIds` | src/optimizations/passes/copy_propagation.cpp:39-45 | holds exactly the ids of the nodes other than ENTRY and EXIT |
| `CopyPropagationPass.RealIdsNoDuplicates` | src/optimizations/passes/copy_propagation.cpp:39-45 | with distinct node ids, the seeded worklist lists no id twice |
| `CopyPropagationPass.NodeOf` | src/optimizations/passes/copy_propagation.cpp:51 | a node of the graph with the requested id |
| `CopyPropagationPass.PotentialDecreases` | src/optimizations/passes/copy_propagation.cpp:47-68 | processing a block never raises the worklist loop's termination measure, and lowers it when the block's own term drops |
| `CopyPropagationPass.StepOutShrinks` | src/optimizations/passes/copy_propagation.cpp:51-54 | after a block's first visit its annotation only shrinks |
| `CopyPropagationPass.WorklistStep` | src/optimizations/passes/copy_propagation.cpp:47-68 | one worklist step keeps the loop invariant |
| `CopyPropagationPass.WorklistDone` | src/optimizations/passes/copy_propagation.cpp:47-68 | an empty worklist means every real block is annotated with the transfer of its meet, a fixpoint when edges are symmetric |
| `CopyPropagationPass.AnnotationsBounded` | src/optimizations/passes/copy_propagation.cpp:35-69 | every annotation of a solution, at a block's entry, at its end or before any instruction, holds only copies of the graph |
| `CopyPropagationPass.AnnotationBounded` | src/optimizations/passes/copy_propagation.cpp:147-182 | the same bound for one processed block |
| `CopyPropagationPass.MeetWithin` | src/optimizations/passes/copy_propagation.cpp:87-106 | on a well-linked graph, larger annotations of the real blocks give a larger meet at every node, failing exactly as often |
| `CopyPropagationPass.SeedAboveFixpoints` | src/optimizations/passes/copy_propagation.cpp:39-45 | the seed annotation, all copies on every real block, contains the annotations of every fixed point |
| `CopyPropagationPass.StepAboveFixpoints` | src/optimizations/passes/copy_propagation.cpp:47-68 | processing a block keeps the annotations above those of every fixed point |
| `CopyPropagationPass.FixpointIsGreatest` | src/optimizations/passes/copy_propagation.cpp:35-69 | a fixed point whose annotations contain those of every fixed point also has the largest entry facts: it is the greatest fixed point |
| `CopyPropagationPass.GreatestFixpointUnique` | src/optimizations/passes/copy_propagation.cpp:35-69 | two greatest fixed points agree on the entry facts, block annotations and instruction annotations of every real block |
| `CopyPropagationPass.FixpointFlows` | src/optimizations/passes/copy_propagation.cpp:87-106 | at the fixpoint a fact reaching a block reaches it from every predecessor and no predecessor is ENTRY |
| `CopyPropagationPass.RewriteFromOk` | src/optimizations/passes/copy_propagation.cpp:16-29 | rewriting a block fails exactly when some instruction has no annotation |
| `CopyPropagationPass.RewriteFromAnnotated` | src/optimizations/passes/copy_propagation.cpp:16-29 | a fully annotated block is rewritten instruction by instruction with the reaching facts |
| `CopyPropagationPass.SolvedRewrite` | src/optimizations/passes/copy_propagation.cpp:9-33 | after the analysis, every real block's rewriting succeeds and uses the facts reaching each instruction |
| `CopyPropagationPass.ApplyRewrites` | src/optimizations/passes/copy_propagation.cpp:13-31 | the rewritten graph keeps ids, and each real node holds its rewritten instructions |
| `CopyPropagationPass.CopyPropagation.constructor` | src/optimizations/passes/copy_propagation.hpp:21-22 | no annotations |
| `CopyPropagationPass.CopyPropagation.FindAllCopyInstr` | src/optimizations/passes/copy_propagation.cpp:72-84 | all copies of all nodes, in order |
| `CopyPropagationPass.CopyPropagation.MeetNode` | src/optimizations/passes/copy_propagation.cpp:87-106 | the meet of the node's predecessors' annotations |
| `CopyPropagationPass.CopyPropagation.Transfer` | src/optimizations/passes/copy_propagation.cpp:147-182 | the node's annotation becomes the facts leaving it, and each instruction is annotated with the facts before it |
| `CopyPropagationPass.CopyPropagation.TransferLoop` | src/optimizations/passes/copy_propagation.cpp:150-179 | the loop computes the facts leaving the block and the per-instruction annotations |
| `CopyPropagationPass.CopyPropagation.ProcessBlock` | src/optimizations/passes/copy_propagation.cpp:48-56 | succeeds exactly when the block exists, is annotated and its meet succeeds; then re-annotates it from its meet and reports whether its annotation changed |
| `CopyPropagationPass.CopyPropagation.PushSuccessors` | src/optimizations/passes/copy_propagation.cpp:57-66 | the worklist with the successors enqueued |
| `CopyPropagationPass.CopyPropagation.SeedWorklist` | src/optimizations/passes/copy_propagation.cpp:39-45 | the worklist is the ids of the real blocks in node order, with no id twice when ids are distinct, and each real block is annotated with all copies |
| `CopyPropagationPass.CopyPropagation.FindReachingCopies` | src/optimizations/passes/copy_propagation.cpp:35-69 | on success every real block and instruction carries its reaching facts; on a well-linked graph they are the greatest fixed point, containing the facts of every other fixed point |
| `CopyPropagationPass.CopyPropagation.RewriteNode` | src/optimizations/passes/copy_propagation.cpp:16-29 | the node's instructions rewritten with their annotations |
| `CopyPropagationPass.CopyPropagation.RewriteNodes` | src/optimizations/passes/copy_propagation.cpp:13-31 | every node rewritten; a change is reported exactly when some node keeps an instruction, rewritten or not; fails exactly when some node's rewriting fails |
| `CopyPropagationPass.CopyPropagation.Apply` | src/optimizations/passes/copy_propagation.cpp:9-33 | on success the analysis is solved (the greatest fixed point on a well-linked graph), each real node holds its instructions rewritten with the facts reaching them, and a change is reported exactly when some node keeps an instruction |
| `UnreachableCodePass.HoldsAnyJumpKinds` | src/optimizations/passes/unreachable_code_elem.cpp:17-21 | a jump is exactly an unconditional or a conditional jump of the flow-graph adapter; a return is not a jump |
| `UnreachableCodePass.FilterOutMembers` | src/optimizations/passes/unreachable_code_elem.cpp:23-37 | a node survives filtering by a set of dead ids exactly when it was there and its id is not dead |
| `UnreachableCodePass.RemoveOrphansFilter` | src/optimizations/passes/unreachable_code_elem.cpp:26-34 | removing the orphans one by one leaves exactly the original nodes minus the orphans' ids, in order |
| `UnreachableCodePass.RemoveOrphansFails` | src/optimizations/passes/unreachable_code_elem.cpp:31 | once a `remove_node` fails, the rest of the loop cannot recover |
| `UnreachableCodePass.OrphanIdsAreOrphans` | src/optimizations/passes/unreachable_code_elem.cpp:27-30 | an id is collected exactly when some visited node with that id is real and has no predecessors |
| `UnreachableCodePass.DeadBlocksRemoved` | src/optimizations/passes/unreachable_code_elem.cpp:23-37 | after the loop a node is present iff it was present and is not an orphan; ENTRY and EXIT are never removed; every orphan is gone |
| `UnreachableCodePass.RemoveUnreachableBlocks` | src/optimizations/passes/unreachable_code_elem.cpp:23-37 | the graph's node list becomes the orphan-free list, the call fails iff a removal fails, and it reports a change iff some orphan existed |
| `UnreachableCodePass.ScanEnd` | src/optimizations/passes/unreachable_code_elem.cpp:43-44 | the scan covers exactly the nodes before the first EXIT node |
| `UnreachableCodePass.RemoveRedundantJumps` | src/optimizations/passes/unreachable_code_elem.cpp:39-67 | every node before EXIT that ends in a jump whose successors are all the next node loses that jump, no other node changes, and a change is reported iff such a node existed |
| `UnreachableCodePass.JumpPassEffect` | src/optimizations/passes/unreachable_code_elem.cpp:49-62 | the jump clean-up keeps each node's id and edges and either keeps its instructions or removes only a final jump that leads nowhere but the next node |
| `UnreachableCodePass.RemoveRedundantLabels` | src/optimizations/passes/unreachable_code_elem.cpp:70-91 | every node before EXIT that starts with a label and whose only predecessor is the node before it loses that label, no other node changes, and a change is reported iff such a node existed |
| `UnreachableCodePass.LabelPassEffect` | src/optimizations/passes/unreachable_code_elem.cpp:79-87 | the label clean-up keeps each node's id and edges and either keeps its instructions or removes only a leading label of a node entered solely from the previous node |
| `UnreachableCodePass.RemovalKeepsShape` | src/optimizations/passes/unreachable_code_elem.cpp:27-28 | removing orphans keeps ENTRY first and keeps the EXIT node, so the later scans stop where the source's do |
| `UnreachableCodePass.JumpPassKeepsFirst` | src/optimizations/passes/unreachable_code_elem.cpp:82 | the jump clean-up keeps the first node and does not make it start with a label, so the label scan never looks before the first node |
| `UnreachableCodePass.Apply` | src/optimizations/passes/unreachable_code_elem.cpp:7-15 | the three clean-ups run in order; the graph ends as label-pass of jump-pass of the orphan-free list, and a change is reported iff any of the three changed something |
| `Lexing.DigitsEndSpec` | src/lexer/lexer.cpp:181-183 | the digit loop stops at the first non-digit (or the end) and everything it passed is a digit |
| `Lexing.WordEndSpec` | src/lexer/lexer.cpp:208-210 | the identifier loop passes only letters, digits and underscores and stops at the first other character or the end |
| `Lexing.UpToSpec` | src/lexer/lexer.cpp:159-165 | a loop that advances until a stop character passes no stop character and halts at one or at the end; the string loop stops on a quote, and `skip_line` (lines 223-227) is the same loop stopping on a newline |
| `Lexing.CommentEndSpec` | src/lexer/lexer.cpp:229-241 | the block-comment loop stops just after the first `*/` or at the end, and passes no earlier `*/` |
| `Lexing.KeywordExamples` | src/lexer/lexer.cpp:243-277 | keywords map to their kinds, other words (including `double` and `main`) are identifiers, and a word is an identifier exactly when it is not a keyword |
| `Lexing.SecondOf` | src/lexer/lexer.cpp:71-94 | every operator start looks for a real second character, never the terminating NUL |
| `Lexing.ScanStep` | src/lexer/lexer.cpp:30-115 | one `lex` call that does not throw always moves the cursor forward and stays within the input |
| `Lexing.AppendToAssociative` | src/lexer/lexer.cpp:10-14 | appending the tokens of successive lexing steps is associative, with the empty prefix as unit |
| `Lexing.TokenizeUnfold` | src/lexer/lexer.cpp:10-13 | lexing from a cursor is one step followed by lexing from where it stops; an error of the step is the error of the whole |
| `Lexing.ScanStepLexeme` | src/lexer/lexer.cpp:148-154 | every token's lexeme is exactly the input between the start cursor and where the step stops |
| `Lexing.SingleCharacterTokens` | src/lexer/lexer.cpp:35-61 | each single-character symbol becomes a one-character token of its kind |
| `Lexing.OperatorTokens` | src/lexer/lexer.cpp:71-94 | an operator start followed by its second character becomes the two-character operator, otherwise the one-character one |
| `Lexing.OperatorTable` | src/lexer/lexer.cpp:71-94 | the pairs `!=`, `==`, `<=`, `>=`, `++`, `--`, `&&`, `\|\|` and their one-character kinds, as in the switch |
| `Lexing.SkippedText` | src/lexer/lexer.cpp:62-70 | blanks produce no token; `//` skips to the newline; `/*` skips past the closing `*/`; a lone `/` is the division token |
| `Lexing.NumberToken` | src/lexer/lexer.cpp:178-205 | a digit run is an integer literal carrying its decimal value when it fits in `int`; a following `.` is the unsupported-float error |
| `Lexing.WordToken` | src/lexer/lexer.cpp:207-221 | a word becomes its keyword or an identifier; a word that runs to the end of the input is the unterminated-identifier error |
| `Lexing.StringToken` | src/lexer/lexer.cpp:158-175 | a string token runs from the opening quote up to, not including, the closing quote; with no closing quote it is the unterminated-string error |
| `Lexing.UnknownSymbol` | src/lexer/lexer.cpp:106-113 | any other character is the unknown-symbol error |
| `Lexing.ClosingQuoteExample` | src/lexer/lexer.cpp:158-175 | because the closing quote stays unconsumed, the input `"a"` starts a second string there and fails as unterminated |
| `Lexing.Lexer.constructor` | src/lexer/lexer.h:15-19 | a new lexer has no source, no tokens and both cursors at zero |
| `Lexing.Lexer.Advance` | src/lexer/lexer.cpp:144-146 | the cursor moves by one |
| `Lexing.Lexer.MatchNext` | src/lexer/lexer.cpp:136-142 | matches exactly when the character at the cursor is the one asked for, and then consumes it |
| `Lexing.Lexer.AddToken` | src/lexer/lexer.cpp:148-154 | appends one token whose lexeme is the text between the two cursors |
| `Lexing.Lexer.SkipLine` | src/lexer/lexer.cpp:223-227 | the cursor ends where the line-comment scan stops |
| `Lexing.Lexer.SkipMultilineComment` | src/lexer/lexer.cpp:229-241 | the cursor ends where the block-comment scan stops |
| `Lexing.Lexer.ConsumeString` | src/lexer/lexer.cpp:158-175 | agrees with the string scan: the same error, or the same cursor and one more token |
| `Lexing.Lexer.SkipDigits` | src/lexer/lexer.cpp:181-183 | the cursor ends where the digit scan stops |
| `Lexing.Lexer.ConsumeDigit` | src/lexer/lexer.cpp:178-205 | agrees with the number scan: the same error, or the same cursor and one more token |
| `Lexing.Lexer.ConsumeIdentifier` | src/lexer/lexer.cpp:207-221 | agrees with the word scan: the same error, or the same cursor and one more token |
| `Lexing.Lexer.AddMunched` | src/lexer/lexer.cpp:71-94 | agrees with the one-or-two-character operator scan |
| `Lexing.Lexer.LexSlash` | src/lexer/lexer.cpp:62-70 | agrees with the slash scan: a skipped comment or a division token |
| `Lexing.Lexer.Lex` | src/lexer/lexer.cpp:30-115 | agrees with one scanning step: the same error, or the same cursor and the same appended token |
| `Lexing.Lexer.ParseTokens` | src/lexer/lexer.cpp:7-15 | returns the tokens already held followed by the tokens of the whole input, or the first error |
| `Lexing.LexSource` | src/lexer/lexer.cpp:7-15 | a fresh lexer's result is exactly the token list of the input from position zero |
| `Parsing.ConsumeAt` | src/parser/parser.cpp:45-50 | succeeds exactly when the current token has the expected kind, then moves one token on; otherwise fails with the caller's message |
| `Parsing.OperatorsOfLevel` | src/parser/parser.cpp:69-128 | each binary operator belongs to exactly one of the six precedence levels, as the six loops list them |
| `Parsing.AssignmentAt` | src/parser/parser.cpp:52-67 | a parsed expression consumes at least one token and stays within the list |
| `Parsing.OperandAt` | src/parser/parser.cpp:69-128 | an operand of a level consumes at least one token and stays within the list |
| `Parsing.LevelAt` | src/parser/parser.cpp:69-128 | a level's expression consumes at least one token and stays within the list |
| `Parsing.RestAt` | src/parser/parser.cpp:71-75 | the operator loop of a level never moves the cursor back or past the end |
| `Parsing.UnaryAt` | src/parser/parser.cpp:130-137 | a unary expression consumes at least one token |
| `Parsing.PrimaryAt` | src/parser/parser.cpp:139-158 | a primary expression consumes at least one token |
| `Parsing.CallAt` | src/parser/parser.cpp:160-171 | a call's argument list consumes at least its closing parenthesis |
| `Parsing.ArgumentsAt` | src/parser/parser.cpp:164-166 | the argument loop consumes at least one token per turn and the closing parenthesis |
| `Parsing.CloseCallAt` | src/parser/parser.cpp:169-170 | the closing parenthesis of a call is consumed |
| `Parsing.AssignmentNested` | src/parser/parser.cpp:56-67 | every expression the parser builds respects precedence and left associativity of the binary operators |
| `Parsing.OperandNested` | src/parser/parser.cpp:69-128 | an operand of a level binds strictly tighter than that level |
| `Parsing.LevelNested` | src/parser/parser.cpp:69-128 | the tree of a level binds at least as tightly as the level and is well nested |
| `Parsing.RestNested` | src/parser/parser.cpp:71-75 | the loop folds operators to the left: each new node's left operand is the earlier tree, its right operand strictly tighter |
| `Parsing.UnaryNested` | src/parser/parser.cpp:130-137 | a unary operator applies to a unary or primary operand |
| `Parsing.PrimaryNested` | src/parser/parser.cpp:139-158 | a primary is a literal, a group, a variable or a call |
| `Parsing.CallNested` | src/parser/parser.cpp:160-171 | every argument of a call is well nested |
| `Parsing.ArgumentsNested` | src/parser/parser.cpp:164-166 | the arguments collected so far stay well nested |
| `Parsing.StatementAt` | src/parser/parser.cpp:173-191 | a statement consumes at least one token and stays within the list |
| `Parsing.DeclarationAt` | src/parser/parser.cpp:193-209 | a declaration consumes at least one token and stays within the list |
| `Parsing.VariableDeclarationAt` | src/parser/parser.cpp:212-222 | a variable declaration consumes at least its name and semicolon |
| `Parsing.FunctionDeclarationAt` | src/parser/parser.cpp:224-245 | a function declaration consumes at least its name, parameter list and body |
| `Parsing.ParameterListAt` | src/parser/parser.cpp:229-237 | the parameter list never moves the cursor back or past the end |
| `Parsing.ParamsAt` | src/parser/parser.cpp:231-236 | each turn of the parameter loop consumes a type and a name |
| `Parsing.FunctionBodyAt` | src/parser/parser.cpp:239-244 | the body consumes at least the braces |
| `Parsing.ConditionAt` | src/parser/parser.cpp:248-250 | a parenthesised condition consumes at least its parentheses |
| `Parsing.IfAt` | src/parser/parser.cpp:247-259 | an if statement consumes at least its condition and then-branch |
| `Parsing.BranchesAt` | src/parser/parser.cpp:251-258 | the then-branch and optional else-branch consume at least one token |
| `Parsing.WhileAt` | src/parser/parser.cpp:272-278 | a while statement consumes at least its condition and body |
| `Parsing.BlockAt` | src/parser/parser.cpp:261-270 | a block consumes at least its closing brace and is a block statement |
| `Parsing.BlockItemsAt` | src/parser/parser.cpp:264-269 | the statement loop of a block ends with the closing brace and builds a block |
| `Parsing.ExpressionStatementAt` | src/parser/parser.cpp:280-284 | an expression statement consumes at least its expression and semicolon |
| `Parsing.ReturnAt` | src/parser/parser.cpp:286-291 | a return statement consumes at least its expression and semicolon |
| `Parsing.AppendedStep` | src/parser/parser.cpp:8-10 | one turn of the top-level loop appends exactly the declaration just parsed |
| `Parsing.Parser.constructor` | src/parser/parser.h:15-17 | a new parser has no tokens, no statements and the cursor at zero |
| `Parsing.Parser.Match` | src/parser/parser.h:21-32 | agrees with the match specification: one token consumed exactly on a match, none otherwise |
| `Parsing.Parser.Consume` | src/parser/parser.cpp:45-50 | returns the expected token and moves on, or fails with the message and stays |
| `Parsing.Parser.ParseAssignmentExpr` | src/parser/parser.cpp:52-67 | agrees with the assignment specification: the same tree and cursor, or the same error |
| `Parsing.Parser.ParseOperand` | src/parser/parser.cpp:69-128 | agrees with the operand specification: the next tighter level, or a unary expression at the tightest one |
| `Parsing.Parser.ParseBinaryLevel` | src/parser/parser.cpp:69-128 | agrees with the level specification, the six precedence loops written once over a level number |
| `Parsing.Parser.ParseUnaryExpr` | src/parser/parser.cpp:130-137 | agrees with the unary specification |
| `Parsing.Parser.ParsePrimaryExpr` | src/parser/parser.cpp:139-158 | agrees with the primary specification, including the literal-less and unknown-expression errors |
| `Parsing.Parser.ParseCallExpr` | src/parser/parser.cpp:160-171 | agrees with the call specification |
| `Parsing.Parser.ParseStatement` | src/parser/parser.cpp:173-191 | agrees with the statement specification |
| `Parsing.Parser.ParseDeclarationStatement` | src/parser/parser.cpp:193-209 | agrees with the declaration specification |
| `Parsing.Parser.ParseVariableDeclarationStatement` | src/parser/parser.cpp:212-222 | agrees with the variable-declaration specification |
| `Parsing.Parser.ParseFunctionDeclarationStatement` | src/parser/parser.cpp:224-245 | agrees with the function-declaration specification |
| `Parsing.Parser.ParseParameterList` | src/parser/parser.cpp:229-237 | agrees with the parameter-list specification |
| `Parsing.Parser.ParseIfStatement` | src/parser/parser.cpp:247-259 | agrees with the if specification |
| `Parsing.Parser.ParseBlockStatement` | src/parser/parser.cpp:261-270 | agrees with the block specification |
| `Parsing.Parser.ParseWhileStatement` | src/parser/parser.cpp:272-278 | agrees with the while specification |
| `Parsing.Parser.ParseExpressionStatement` | src/parser/parser.cpp:280-284 | agrees with the expression-statement specification |
| `Parsing.Parser.ParseReturnStatement` | src/parser/parser.cpp:286-291 | agrees with the return specification |
| `Parsing.Parser.ParseAst` | src/parser/parser.cpp:6-12 | keeps the given tokens and returns the statements already held followed by every declaration of the list, or the first error |
| `IrGeneration.GenExpr` | src/ir/ir_generator.cpp:34-39 | evaluating any expression leaves the resolver's scopes and its declaration counter unchanged |
| `IrGeneration.GenBinary` | src/ir/ir_generator.cpp:120-127 | a binary expression does not touch the scopes |
| `IrGeneration.GenUnary` | src/ir/ir_generator.cpp:129-135 | a unary expression does not touch the scopes |
| `IrGeneration.GenAssignment` | src/ir/ir_generator.cpp:141-150 | an assignment resolves but never declares: the scopes are unchanged |
| `IrGeneration.GenLogical` | src/ir/ir_generator.cpp:152-191 | a logical expression does not touch the scopes |
| `IrGeneration.LogicalRight` | src/ir/ir_generator.cpp:159-188 | the right operand and the short-circuit blocks do not touch the scopes |
| `IrGeneration.GenCall` | src/ir/ir_generator.cpp:193-204 | a call does not touch the scopes |
| `IrGeneration.GenArguments` | src/ir/ir_generator.cpp:195-197 | evaluating the arguments does not touch the scopes |
| `IrGeneration.GenStmt` | src/ir/ir_generator.cpp:27-32 | every statement leaves as many scopes open as it found |
| `IrGeneration.GenBlock` | src/ir/ir_generator.cpp:51-64 | a block closes the scope it opens |
| `IrGeneration.GenStatements` | src/ir/ir_generator.cpp:59-61 | the statements of a block keep the scope depth |
| `IrGeneration.GenIf` | src/ir/ir_generator.cpp:66-82 | an if statement keeps the scope depth |
| `IrGeneration.GenWhile` | src/ir/ir_generator.cpp:84-104 | a while statement keeps the scope depth |
| `IrGeneration.DeclareParams` | src/ir/ir_generator.cpp:213-215 | declaring the parameters keeps the scope depth |
| `IrGeneration.GenFunction` | src/ir/ir_generator.cpp:210-227 | a function declaration closes the scope it opens |
| `IrGeneration.GenVariableStmt` | src/ir/ir_generator.cpp:229-240 | a variable declaration keeps the scope depth |
| `IrGeneration.LabelCounter.constructor` | src/ir/ir_generator.cpp:23 | the function-static label counter starts at zero |
| `IrGeneration.IrGenerator.constructor` | src/ir/ir_generator.h:14-17 | a generator starts with no blocks, an empty "entry" block, a resolver with one empty scope and no temporaries |
| `IrGeneration.IrGenerator.GenerateTemp` | src/ir/ir_generator.cpp:18-20 | returns "t" followed by the counter in decimal and advances the counter |
| `IrGeneration.IrGenerator.GetLabel` | src/ir/ir_generator.cpp:22-25 | returns the base, "_" and the shared counter in decimal, and advances the shared counter |
| `IrGeneration.IrGenerator.PushCurrent` | src/ir/ir_generator.cpp:90 | appends a copy of the current block to the block list |
| `IrGeneration.IrGenerator.ProcessExpr` | src/ir/ir_generator.cpp:34-39 | agrees with the expression specification: the same value and state, or the same error |
| `IrGeneration.IrGenerator.ProcessVariable` | src/ir/ir_generator.cpp:110-118 | a resolved variable is named after its declaration id; an unresolved one is the resolution error |
| `IrGeneration.IrGenerator.ProcessBinary` | src/ir/ir_generator.cpp:120-127 | agrees with the binary specification |
| `IrGeneration.IrGenerator.ProcessUnary` | src/ir/ir_generator.cpp:129-135 | agrees with the unary specification |
| `IrGeneration.IrGenerator.ProcessAssignment` | src/ir/ir_generator.cpp:141-150 | agrees with the assignment specification |
| `IrGeneration.IrGenerator.FinishShortCircuit` | src/ir/ir_generator.cpp:163-172 | the copy, the jump to the end, the short-circuit block and the new end block, as the specification lays them out |
| `IrGeneration.IrGenerator.ProcessLogical` | src/ir/ir_generator.cpp:152-191 | agrees with the logical specification |
| `IrGeneration.IrGenerator.ProcessLogicalRight` | src/ir/ir_generator.cpp:159-188 | agrees with the specification of the right-operand half |
| `IrGeneration.IrGenerator.ProcessCall` | src/ir/ir_generator.cpp:193-204 | agrees with the call specification |
| `IrGeneration.IrGenerator.ProcessStmt` | src/ir/ir_generator.cpp:27-32 | agrees with the statement specification |
| `IrGeneration.IrGenerator.ProcessReturn` | src/ir/ir_generator.cpp:41-45 | agrees with the statement specification for a return |
| `IrGeneration.IrGenerator.ProcessExpressionStmt` | src/ir/ir_generator.cpp:47-49 | agrees with the statement specification for an expression statement |
| `IrGeneration.IrGenerator.ProcessBlock` | src/ir/ir_generator.cpp:51-64 | agrees with the block specification, including the empty-block error |
| `IrGeneration.IrGenerator.ProcessIf` | src/ir/ir_generator.cpp:66-82 | agrees with the if specification |
| `IrGeneration.IrGenerator.ProcessWhile` | src/ir/ir_generator.cpp:84-104 | agrees with the while specification |
| `IrGeneration.IrGenerator.ProcessFunctionDecl` | src/ir/ir_generator.cpp:210-227 | agrees with the function specification |
| `IrGeneration.IrGenerator.ProcessVariableStmt` | src/ir/ir_generator.cpp:229-240 | agrees with the variable-declaration specification |
| `IrGeneration.IrGenerator.Generate` | src/ir/ir_generator.cpp:5-16 | returns the blocks and reaches the state of the program specification, or its first error |
| `IrGenerationFacts.NatDecimalDigits` | src/ir/ir_generator.cpp:19 | the decimal text of a counter is a non-empty run of digits |
| `IrGenerationFacts.TempNamesDistinct` | src/ir/ir_generator.cpp:18-20 | different counters give different temporary names |
| `IrGenerationFacts.LabelNamesDistinct` | src/ir/ir_generator.cpp:22-25 | labels made at different counts differ, whatever their bases |
| `IrGenerationFacts.TempIsNotVariable` | src/ir/ir_generator.cpp:116 | a temporary's name never equals a variable's IR name |
| `IrGenerationFacts.ExtendsTransitive` | src/ir/ir_generator.cpp:44 | generation that only pushes blocks, appends instructions and advances counters composes |
| `IrGenerationFacts.EmitStream` | src/ir/ir.h:117-119 | adding an instruction extends the emitted stream by exactly that instruction and stays in the block |
| `IrGenerationFacts.StartBlockStream` | src/ir/ir_generator.cpp:90-92 | pushing the current block and starting a new one keeps the emitted stream |
| `IrGenerationFacts.ExprStepTransitive` | src/ir/ir_generator.cpp:121-122 | expression steps compose |
| `IrGenerationFacts.ExprExtends` | src/ir/ir_generator.cpp:34-39 | evaluating an expression only extends the state and continues the block it started in |
| `IrGenerationFacts.BinaryExtends` | src/ir/ir_generator.cpp:120-127 | a binary expression ends its code with a binary instruction of its operator into a fresh temporary, which is its value |
| `IrGenerationFacts.UnaryExtends` | src/ir/ir_generator.cpp:129-135 | a unary expression ends its code with a unary instruction of its operator into a fresh temporary, which is its value |
| `IrGenerationFacts.AssignmentExtends` | src/ir/ir_generator.cpp:141-150 | an assignment needs its variable resolved, ends with a copy into the variable, and yields it |
| `IrGenerationFacts.LogicalExtends` | src/ir/ir_generator.cpp:152-191 | a logical expression only extends the state |
| `IrGenerationFacts.ShortCircuitExtends` | src/ir/ir_generator.cpp:163-172 | the short-circuit tail emits the copy of the right value, the jump to the end and the copy of the constant, in that order |
| `IrGenerationFacts.LogicalRightExtends` | src/ir/ir_generator.cpp:159-188 | the right-operand half only extends the state |
| `IrGenerationFacts.CallExtends` | src/ir/ir_generator.cpp:193-204 | a call ends with a call instruction of the callee, one value per argument, into a fresh temporary |
| `IrGenerationFacts.ArgumentsExtends` | src/ir/ir_generator.cpp:195-197 | the argument loop yields one value per argument |
| `IrGenerationFacts.StmtStepTransitive` | src/ir/ir_generator.cpp:59-61 | statement steps compose |
| `IrGenerationFacts.ExprStmtStep` | src/ir/ir_generator.cpp:47-49 | an expression statement is a statement step that stays in its block |
| `IrGenerationFacts.FlushStream` | src/ir/ir_generator.cpp:217-221 | pushing a non-empty block and starting another keeps the emitted stream |
| `IrGenerationFacts.DeclareInStep` | src/scope/resolver.hpp:25-31 | a declaration succeeds iff a scope is open, then binds the name to the next id in the innermost scope and leaves every other name's lookup alone |
| `IrGenerationFacts.DeclareParamsStep` | src/ir/ir_generator.cpp:213-215 | declaring the parameters spends one id per parameter and emits nothing |
| `IrGenerationFacts.StmtExtends` | src/ir/ir_generator.cpp:27-32 | every statement only extends the state and changes at most the innermost scope |
| `IrGenerationFacts.BlockRestoresScopes` | src/ir/ir_generator.cpp:51-64 | after a block the scope stack is exactly what it was before |
| `IrGenerationFacts.StatementsExtends` | src/ir/ir_generator.cpp:59-61 | the statements of a block only extend the state |
| `IrGenerationFacts.IfExtends` | src/ir/ir_generator.cpp:66-82 | an if statement only extends the state |
| `IrGenerationFacts.WhileExtends` | src/ir/ir_generator.cpp:84-104 | a while statement only extends the state |
| `IrGenerationFacts.FunctionRestoresScopes` | src/ir/ir_generator.cpp:210-227 | after a function declaration the scope stack is exactly what it was before |
| `IrGenerationFacts.VariableStmtExtends` | src/ir/ir_generator.cpp:229-240 | a variable declaration is a statement step |
| `IrGenerationLayout.Appended` | src/ir/ir_generator.cpp:44 | the code a step appended, so that the later stream is the earlier one followed by it |
| `IrGenerationLayout.IfHead` | src/ir/ir_generator.cpp:67-72 | an if statement takes two labels, evaluates its condition, jumps on zero to the else label and generates the then-branch |
| `IrGenerationLayout.IfElseLayout` | src/ir/ir_generator.cpp:66-78 | with an else-branch: condition code, jump-if-zero to else, then-code, jump to end, else label, else-code, end label |
| `IrGenerationLayout.IfThenLayout` | src/ir/ir_generator.cpp:79-81 | without an else-branch: condition code, jump-if-zero to else, then-code, else label |
| `IrGenerationLayout.WhileParts` | src/ir/ir_generator.cpp:85-103 | the while statement's stages: the jump to the condition, the pushed condition block that ends in its two jumps |
| `IrGenerationLayout.WhileLayout` | src/ir/ir_generator.cpp:84-104 | three distinct labels; the old block ends with a jump to the condition; a block named for the condition follows; some block ends by jumping to the end on zero and to the body otherwise; the last block jumps back to the condition |
| `IrGenerationLayout.LogicalParts` | src/ir/ir_generator.cpp:152-191 | a logical expression's stages: a fresh temporary and a conditional jump to the short-circuit label before the tail |
| `IrGenerationLayout.LogicalLayout` | src/ir/ir_generator.cpp:152-191 | `&&` jumps on zero and `\|\|` on non-zero to the short-circuit label; the result is a fresh temporary; the short-circuit block copies 0 for `&&` and 1 for `\|\|` |
| `IrGenerationLayout.VariableStmtBinds` | src/ir/ir_generator.cpp:229-240 | a declaration without an initializer is the not-implemented error; with no scope it is the bad-optional-access error; otherwise the name is bound to a new id and the initial value is copied into it |
| `IrGenerationLayout.InitializerSeesNewBinding` | src/ir/ir_generator.cpp:230-235 | the name is declared before its initializer is evaluated, so `int x = x;` copies the new variable into itself |
| `IrGenerationLayout.ReturnSumExample` | src/ir/ir_generator.cpp:5-16 | `return 1 + 2;` becomes one "entry" block holding `t0 = 1 + 2` and `return t0` |
| `CodeGeneration.TempLocationSpec` | src/codegen/code_generator.cpp:40-50 | a known name keeps its slot and changes nothing; a new name gets the current offset, which then drops by 4; slots stay below the frame, 4-aligned and distinct |
| `CodeGeneration.LocationsDistinct` | src/codegen/code_generator.cpp:26-50 | two different names never share an operand: temporaries get their own pseudo register and other names distinct stack slots |
| `CodeGeneration.ConvertSpec` | src/codegen/code_generator.cpp:26-38 | a constant becomes an immediate and touches nothing; a name becomes its pseudo register or its stack slot; no instruction is emitted |
| `CodeGeneration.AssembledGrows` | src/codegen/code_generator.cpp:52-176 | lowering one IR instruction keeps the slot invariant and only appends instructions and slots |
| `CodeGeneration.AssembledFromGrows` | src/codegen/code_generator.cpp:9-14 | lowering a whole instruction list keeps the slot invariant and only appends |
| `CodeGeneration.ConversionOrderExample` | src/codegen/code_generator.cpp:53-55 | the result is converted before the operands, so in `x = y + z` the variable `x` gets the first slot, -4, then `y` -8 and `z` -12 |
| `CodeGeneration.VariableNamedLikeTemporary` | src/codegen/code_generator.cpp:31-33 | any name that starts with `t`, such as a variable `total_1`, is taken for a temporary and becomes a pseudo register |
| `CodeGeneration.CodeGenerator.constructor` | src/codegen/code_generator.hpp:9-11 | a new generator has no instructions, no slots and the offset at -4 |
| `CodeGeneration.CodeGenerator.AddInstruction` | src/codegen/code_generator.hpp:16-18 | appends the instruction and changes nothing else |
| `CodeGeneration.CodeGenerator.GetTempLocation` | src/codegen/code_generator.cpp:40-50 | returns the slot and reaches the state the slot specification gives, keeping the slot invariant |
| `CodeGeneration.CodeGenerator.ConvertValue` | src/codegen/code_generator.cpp:26-38 | returns the operand and reaches the state the conversion specification gives |
| `CodeGeneration.CodeGenerator.AssembleBinary` | src/codegen/code_generator.cpp:52-109 | agrees with the lowering specification for a binary instruction, fall-through of the division case included |
| `CodeGeneration.CodeGenerator.EmitBinary` | src/codegen/code_generator.cpp:57-108 | appends exactly the code of the operator's case, or fails with the unsupported-operator error |
| `CodeGeneration.CodeGenerator.EmitDivision` | src/codegen/code_generator.cpp:72-75 | appends the four division instructions |
| `CodeGeneration.CodeGenerator.EmitCompare` | src/codegen/code_generator.cpp:77-79 | appends the compare, the zeroing move and the set of the condition code |
| `CodeGeneration.CodeGenerator.AssembleReturn` | src/codegen/code_generator.cpp:111-115 | agrees with the lowering specification for a return |
| `CodeGeneration.CodeGenerator.AssembleUnary` | src/codegen/code_generator.cpp:117-141 | agrees with the lowering specification for a unary instruction |
| `CodeGeneration.CodeGenerator.AssembleCopy` | src/codegen/code_generator.cpp:143-147 | agrees with the lowering specification for a copy |
| `CodeGeneration.CodeGenerator.AssembleConditionalJump` | src/codegen/code_generator.cpp:158-172 | agrees with the lowering specification for both conditional jumps |
| `CodeGeneration.CodeGenerator.Assemble` | src/codegen/code_generator.cpp:111-176 | agrees with the lowering specification for every kind of IR instruction, labels and jumps included, and fails on calls |
| `CodeGeneration.CodeGenerator.Generate` | src/codegen/code_generator.cpp:9-14 | lowers the instructions in order and agrees with the list specification: the instructions and slots it gives, or its first error |
| `X86Semantics.WriteSpec` | src/codegen/x86_instructions.hpp:9-116 | writing a register, slot or pseudo register sets that operand and leaves every other operand and the flags alone |
| `X86Semantics.RunAppend` | src/codegen/code_generator.cpp:9-14 | running two instruction lists one after the other is running their concatenation |
| `X86Semantics.MovSpec` | src/codegen/x86_instructions.hpp:187-319 | a move copies the source's value to the destination and changes nothing else |
| `X86Semantics.IdivSpec` | src/codegen/x86_instructions.hpp:187-319 | a signed division leaves the quotient truncated toward zero in RAX and the remainder in RDX and changes nothing else |
| `X86Semantics.ArithStep` | src/codegen/x86_instructions.hpp:187-319 | add, sub and imul combine destination and source into the destination and change nothing else |
| `X86Semantics.ArithmeticLowering` | src/codegen/code_generator.cpp:59-70 | the code for `+`, `-` and `*` leaves in the result operand the value constant folding computes for those operands, and changes nothing else |
| `X86Semantics.ComparisonLowering` | src/codegen/code_generator.cpp:81-105 | the code for each comparison leaves 1 or 0 in the result operand exactly as constant folding evaluates it, and changes nothing else |
| `X86Semantics.CompareSpec` | src/codegen/code_generator.cpp:77-79 | compare, zero and set leave 1 in the result exactly when the condition holds of left against right |
| `X86Semantics.SetCCSpec` | src/codegen/x86_instructions.hpp:128-145 | setting a zeroed operand from the flags leaves 1 when the condition holds and 0 otherwise |
| `X86Semantics.ComparisonCCAgrees` | src/codegen/code_generator.cpp:76-105 | each comparison operator's condition code holds exactly when its evaluation gives 1 |
| `X86Semantics.DivisionSpec` | src/codegen/code_generator.cpp:72-75 | the four division instructions leave the truncated quotient in the result, touching only RAX, RDX and the result |
| `X86Semantics.DivisionHead` | src/codegen/code_generator.cpp:72-74 | after the move, sign extension and division, RAX holds the truncated quotient |
| `X86Semantics.DivisionAsWritten` | src/codegen/code_generator.cpp:71-80 | with the missing break the division code ends up holding the comparison `left > right`, not the quotient |
| `X86Semantics.DivisionFallThroughExample` | src/codegen/code_generator.cpp:71-80 | for `t1 = t0 / t2` with `t0` = 7 and `t2` = 2 the code leaves 1 in `t1`, while the quotient is 3 |
| `X86Semantics.CorrectedBinaryLowering` | src/codegen/code_generator.cpp:57-108 | with the break restored the lowering is defined exactly for the foldable operators and leaves the folded value in the result, touching only RAX, RDX and the result |
| `X86Semantics.CorrectionOnlyDivision` | src/codegen/code_generator.cpp:71-80 | the corrected table differs from the written one only at the division operator |
| `X86Semantics.UnaryLowering` | src/codegen/code_generator.cpp:117-141 | the code for `~`, `-` and `!` leaves the folded value in the result and changes nothing else; other operators are the unsupported-operator error |
| `X86Semantics.CopyLowering` | src/codegen/code_generator.cpp:143-147 | a copy's move leaves the source value in the destination and changes nothing else |
| `X86Semantics.ReturnLowering` | src/codegen/code_generator.cpp:111-115 | a return leaves its value in RAX and changes nothing else |
| `X86Semantics.ConditionalJumpLowering` | src/codegen/code_generator.cpp:158-172 | before the final jump the flags say "equal" exactly when the condition is zero (and "not equal" when it is not), and only RAX was written |
| `X86Semantics.ConvertedOperand` | src/codegen/code_generator.cpp:26-38 | a converted value is never a register or a label: a constant is its immediate and a name is writable, so no lowered code clobbers RAX or RDX through an operand |

## Left out

- Printing is left out because it is output only: `lexer::print_tokens`, the IR printer, the listing that `CodeGenerator::generate` prints after lowering, and `emit()` of the x86 instructions.
- `main.cpp` and `compiler.cpp` are left out: they only chain the stages and read files.
- Exceptions are modelled as `Err` results carrying the thrown message. The state an object is left in after an error is not specified: the lexer's, parser's and generators' methods say nothing about their fields on `Err`.
- Undefined behaviour that a caller can reach is modelled as an explicit error:
  - reading a token past the end becomes `PAST_END`; this covers `peek` at the end inside `match` and `peek_next` on the last token;
  - dereferencing the missing literal of a string token becomes `NO_LITERAL`;
  - `scope_id.value()` on an empty optional becomes "bad optional access".
- Undefined behaviour that the callers never reach is a precondition: `end_scope` on an empty stack.
- Folding that overflows `int` or divides by zero is undefined behaviour in the source, and a program does reach it: `return 1 / 0;` and `return 2147483647 + 1;` each hand the folding pass a binary instruction on two constants. The model gives such programs no meaning. These members require that no instruction they fold overflows or divides by zero (`FoldDefined`, `AllFoldDefined`), so they state nothing for such programs:
  - `ConstantFoldingPass.ConstantFolding.ProcessInstruction` and `ConstantFoldingPass.ConstantFolding.Apply`;
  - `OptimizerDriver.Optimizer.Passes`, `OptimizerDriver.Optimizer.Round`, `OptimizerDriver.Optimizer.RunRounds` and `OptimizerDriver.Optimizer.OptimizeBlock`, on the block's instructions;
  - `OptimizerDriver.Optimizer.Optimize`, on the instructions of every block.
- `remove_unreachable_blocks` erases from the vector its range-for is walking, which is undefined behaviour. The model visits the nodes as they were when the loop began.
- The lexer's `line` field is left out because it is never updated.
- The lexer's character classes (`isalpha`, `isdigit`) are ASCII only. Locales are not modelled.
- Cursors and counters are unbounded naturals. The source's `int` counters, stack offsets and label counter would overflow only after 2^31 steps, and that is not modelled.
- `TokenType` is a numbered type with named constants, not an enumeration. The constant names are the source's.
- The six binary-precedence functions of the parser are one function over a level number, `Parsing.LevelAt` / `Parsing.Parser.ParseBinaryLevel`. Each level's operator list is the source's, and `Parsing.OperatorsOfLevel` ties the two together.
- `parse_expression` is `parse_assignment_expr`, which is all it does.
- `Parsing.Parser.ParseOperand` and `Parsing.Parser.ParseParameterList` are helpers split out of the source's loops. Their contracts agree with the specification functions `OperandAt` and `ParameterListAt`.
- `CopyPropagationPass.CopyPropagation.FindReachingCopies`: its errors are not characterised. On success every real block carries the annotations of its entry facts, and on a well-linked graph those facts are the greatest fixed point. When it returns `Err`, nothing is stated about which block failed or why.
- `OptimizerDriver.Optimizer.Optimize`: when a round fails, the error is returned and nothing is stated about the blocks already optimized. The source throws, so no output exists then. `OptimizerDriver.Optimizer.OptimizeBlock`, `OptimizerDriver.Optimizer.RunRounds` and `OptimizerDriver.Optimizer.Round` likewise state only the counter and the label index on failure.
- `UnreachableCodePass.Apply` requires the shape a built graph has: ENTRY first, an EXIT node, and a first node that does not start with a label. With that shape the label scan's `nodes[index - 1]` and the jump scan's `nodes[index + 1]` stay in range. Graphs of other shapes are not covered.
- `X86Semantics.ArithmeticLowering` requires the result operand to differ from the right operand. So does `X86Semantics.CorrectedBinaryLowering`. When the two are the same slot, the source's `mov` overwrites the right operand before it is read; that aliased case is not described.
- The x86 interpreter of `X86Semantics` has these limits:
  - values are unbounded integers, not 32-bit registers;
  - it runs straight-line code only, so jump targets are not followed and `JmpCC` is a no-op;
  - operand legality is not checked, such as `idiv` with an immediate or a memory-to-memory `mov`;
  - the condition codes of unsigned, overflow, sign and parity comparisons have no semantics;
  - `push` and `pop` have no semantics.
- `src/codegen/register.hpp` is not part of this model. The two registers the lowering names are constants.
- Semantic preservation of the IR generator as a whole is not proved: there is no IR interpreter. What is proved is its layout, naming, growth and scope discipline.
- `IrGenerationLayout.WhileLayout` does not state the body block's name or its position among the blocks. It does state the body label's distinctness and the branch that targets it.

## Findings

| source | as written | input that shows it | evidently intended | confidence | as-written member | corrected member |
|---|---|---|---|---|---|---|
| src/codegen/code_generator.cpp:71-80 | the division case has no `break`, so after storing the quotient it falls into the `>` case. That case overwrites the result with `left > right` as 1 or 0 | `t1 = t0 / t2` with `t0` = 7 and `t2` = 2 leaves 1 in `t1` | `t1` holds the quotient truncated toward zero, 3 | not executed | `X86Semantics.DivisionAsWritten` | `X86Semantics.CorrectedBinaryLowering` |
| src/flow_graph/flow_graph.hpp:293 | `add_all_edges` always adds the edge from ENTRY to id 1. Blocks are numbered from the id counter, which is never reset (line 171), so once it is past 0 ENTRY's edge leads to no node. The first block then has no predecessor, and the meet hands it every copy of the graph as already holding | the block `a = 1; a = 2; t = -a; return t` built with the counter past 0, as in any round after the first: copy propagation rewrites it to `t = -1; return t` | ENTRY leads to the first laid-out block, which then starts with no facts; the block keeps both copies and `t = -a` becomes `t = -2` | not executed | `StaleEntryEdge.AsWrittenNegatesOne` | `StaleEntryEdge.CorrectedNegatesTwo` |

`X86Semantics.DivisionFallThroughExample` gives the concrete input for the first row. `X86Semantics.CorrectionOnlyDivision` shows that the corrected table `CorrectedBinaryCode` differs from the written one only at `/`. The `CodeGenerator` class itself keeps the source as written.

For the second row, `StaleEntryEdge.AsWrittenFirstBlockUnanchored` states the general case and `StaleEntryEdge.CorrectedFirstBlockStartsEmpty` the corrected one. The corrected wiring is `FlowGraphs.CorrectedAllEdges`. The `FlowGraph` class and the optimizer keep the source as written, so `OptimizerDriver.Optimizer.Round` is stated for the graph with the hard-coded ENTRY-to-1 edge.
