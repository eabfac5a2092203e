/** The edge from ENTRY (src/flow_graph/flow_graph.hpp:293). `add_all_edges` always links ENTRY
    to the id 1, but the id counter is never reset, so from the second build on the first block
    carries another id and ENTRY's edge leads to no node. Copy propagation then finds no ENTRY
    predecessor on the first block, and a block with no predecessor at all is handed every copy of
    the graph as reaching its start. The lemmas below show the consequence on one block and prove
    that wiring ENTRY to the first laid-out block restores the empty start facts. */
module StaleEntryEdge {
  import opened Wrappers
  import opened Tokens
  import opened IR
  import opened FlowGraphs
  import opened CopyPropagationPass

  const A: Value := Named("a")
  const T: Value := Named("t")
  const SetOne: IrCopy := IrCopy(A, Constant(1))
  const SetTwo: IrCopy := IrCopy(A, Constant(2))

  /** `a = 1; a = 2; t = -a`, then `return t` in a block of its own. */
  const FirstBlock: seq<Instruction> := [Copy(SetOne), Copy(SetTwo), Unary(Minus, A, T)]
  const SecondBlock: seq<Instruction> := [Return(T)]

  /** `a = 1; a = 2; t = -a; return t`, which returns -2. */
  function Program(): seq<Instruction> {
    FirstBlock + SecondBlock
  }

  /** The return starts a block of its own. */
  lemma ProgramBlocks()
    ensures Partition(Program()) == [FirstBlock, SecondBlock]
  {
    var xs := Program();
    assert PartitionPrefix(xs, 1) == PartitionState([], xs[..1]);
    assert PartitionPrefix(xs, 2) == PartitionState([], xs[..2]);
    assert PartitionPrefix(xs, 3) == PartitionState([], xs[..3]);
    assert PartitionPrefix(xs, 4) == PartitionState([xs[..3]], [xs[3]]);
    assert xs[..3] == FirstBlock;
  }

  /** The layout of `Program()` with the id counter at `start`: two blocks numbered `start + 1`
      and `start + 2`; the first falls through to the second, and the second returns. */
  lemma ProgramEdges(start: nat, cache: map<string, int>)
    ensures Partition(Program()) == [FirstBlock, SecondBlock]
    ensures var layout := Layout(start, Partition(Program()));
            RealNodesNonEmpty(layout) &&
            layout[1] == NewNode(start + 1, FirstBlock) &&
            layout[2] == NewNode(start + 2, SecondBlock) &&
            NodeEdges(layout, start + 2, cache) == Ok([(start + 1, start + 2), (start + 2, EXIT)])
  {
    ProgramBlocks();
    var blocks := Partition(Program());
    var layout := Layout(start, blocks);
        var idCounter := start + 2;
    var x: int, y: int := start + 1, start + 2;
    var e1: seq<(int, int)> := [(x, y)];
    var e2: seq<(int, int)> := [(y, EXIT)];
    assert layout[1] == NewNode(x, blocks[0]);
    assert layout[2] == NewNode(y, blocks[1]);
    assert RealNodesNonEmpty(layout);
    assert NodeTargets(layout[1], idCounter, cache) == Ok([y]);
    assert Pairs(x, [y]) == e1;
    assert NodeTargets(layout[2], idCounter, cache) == Ok([EXIT]);
    assert Pairs(y, [EXIT]) == e2;
    var none: seq<(int, int)> := [];
    assert EdgesOfNode(layout[0], idCounter, cache) == Ok(none);
    assert EdgesOfNode(layout[1], idCounter, cache) == Ok(e1);
    assert EdgesOfNode(layout[2], idCounter, cache) == Ok(e2);
    assert EdgesOfNode(layout[3], idCounter, cache) == Ok(none);
    assert NodeEdgesUpTo(layout, 0, idCounter, cache) == Ok(none);
    assert none + none == none && none + e1 == e1 && (e1 + e2) + none == e1 + e2;
    assert NodeEdgesUpTo(layout, 1, idCounter, cache) == Ok(none);
    assert NodeEdgesUpTo(layout, 2, idCounter, cache) == Ok(e1);
    assert NodeEdgesUpTo(layout, 3, idCounter, cache) == Ok(e1 + e2);
    assert NodeEdgesUpTo(layout, 4, idCounter, cache) == Ok(e1 + e2);
    assert e1 + e2 == [(x, y), (y, EXIT)];
  }

  /** Who enters the two blocks, when ENTRY's edge leads to `first`. */
  lemma ProgramSources(first: int, x: int, y: int)
    requires x != y && x != EXIT && y != EXIT
    ensures SourcesOf([(ENTRY, first), (x, y), (y, EXIT)], x) == (if first == x then [ENTRY] else [])
    ensures SourcesOf([(ENTRY, first), (x, y), (y, EXIT)], y) == (if first == y then [ENTRY, x] else [x])
  {
    var all := [(ENTRY, first), (x, y), (y, EXIT)];
    assert all[..2][..1] == all[..1] && all[..1][..0] == [];
    assert all[..2] == [(ENTRY, first), (x, y)];
    forall z | z == x || z == y
      ensures SourcesOf(all, z) == SourcesOf(all[..1], z) + (if z == y then [x] else [])
    {
      assert SourcesOf(all, z) == SourcesOf(all[..2], z) + [];
      assert SourcesOf(all[..2], z) == SourcesOf(all[..1], z) + (if z == y then [x] else []);
    }
    assert SourcesOf(all[..1], x) == SourcesOf([], x) + (if first == x then [ENTRY] else []);
    assert SourcesOf(all[..1], y) == SourcesOf([], y) + (if first == y then [ENTRY] else []);
  }

  /** The layout of `Program()` wired with ENTRY's edge leading to `first`: its nodes. */
  lemma ProgramWiredNodes(start: nat, first: int, g: seq<Node>)
    requires g == WithEdges(Layout(start, [FirstBlock, SecondBlock]),
                            [(ENTRY, first), (start + 1, start + 2), (start + 2, EXIT)])
    ensures |g| == 4 && DistinctIds(g)
    ensures g[0].id == ENTRY && g[1].id == start + 1 && g[2].id == start + 2 && g[3].id == EXIT
    ensures g[0].instructions == [] && g[3].instructions == []
    ensures g[1].instructions == FirstBlock && g[2].instructions == SecondBlock
  {
    var blocks := [FirstBlock, SecondBlock];
    var layout := Layout(start, blocks);
    assert layout[1] == NewNode(start + 1, blocks[0]);
    assert layout[2] == NewNode(start + 2, blocks[1]);
    LayoutDistinct(start, blocks);
    WithEdgesKeepNodes(layout, [(ENTRY, first), (start + 1, start + 2), (start + 2, EXIT)]);
  }

  /** The layout of `Program()` wired with ENTRY's edge leading to `first`: who enters its two
      blocks. */
  lemma ProgramWiredPredecessors(start: nat, first: int, g: seq<Node>)
    requires first != start + 2
    requires g == WithEdges(Layout(start, [FirstBlock, SecondBlock]),
                            [(ENTRY, first), (start + 1, start + 2), (start + 2, EXIT)])
    ensures |g| == 4
    ensures g[1].predecessors == (if first == start + 1 then [ENTRY] else [])
    ensures g[2].predecessors == [start + 1]
  {
    var blocks := [FirstBlock, SecondBlock];
    var layout := Layout(start, blocks);
    var all := [(ENTRY, first), (start + 1, start + 2), (start + 2, EXIT)];
    assert layout[1] == NewNode(start + 1, blocks[0]);
    assert layout[2] == NewNode(start + 2, blocks[1]);
    WithEdgesLists(layout, all, 1);
    WithEdgesLists(layout, all, 2);
    ProgramSources(first, start + 1, start + 2);
  }

  /** The graph of `Program()` built with the id counter at `start`: the second block has the
      first as its only predecessor, and the first has ENTRY as predecessor exactly when ENTRY's
      edge reaches it, which as written happens only for `start == 0`. */
  lemma ProgramGraph(start: nat, cache: map<string, int>, g: seq<Node>, corrected: bool)
    requires if corrected then CorrectedBuiltFrom(Program(), start, cache, g) else BuiltFrom(Program(), start, cache, g)
    ensures |g| == 4 && DistinctIds(g)
    ensures g[0].id == ENTRY && g[1].id == start + 1 && g[2].id == start + 2 && g[3].id == EXIT
    ensures g[0].instructions == [] && g[3].instructions == []
    ensures g[1].instructions == FirstBlock && g[2].instructions == SecondBlock
    ensures g[1].predecessors == (if corrected || start == 0 then [ENTRY] else [])
    ensures g[2].predecessors == [start + 1]
  {
    ProgramEdges(start, cache);
    var layout := Layout(start, Partition(Program()));
    var es: seq<(int, int)> := [(start + 1, start + 2), (start + 2, EXIT)];
    var first: int := if corrected then start + 1 else 1;
    assert FirstId(layout) == start + 1;
    assert [(ENTRY, first)] + es == [(ENTRY, first), (start + 1, start + 2), (start + 2, EXIT)];
    ProgramWiredNodes(start, first, g);
    ProgramWiredPredecessors(start, first, g);
  }

  /** The copies of the graph of `Program()`, in order. */
  lemma ProgramCopies(g: seq<Node>)
    requires |g| == 4 && g[0].instructions == [] && g[3].instructions == []
    requires g[1].instructions == FirstBlock && g[2].instructions == SecondBlock
    ensures CopiesOfNodes(g) == [SetOne, SetTwo]
  {
    var c := FirstBlock;
    assert c[..3][..2] == c[..2] && c[..2][..1] == c[..1] && c[..1][..0] == [];
    assert CopiesIn(c[..1]) == [SetOne];
    assert CopiesIn(c[..2]) == [SetOne, SetTwo];
    assert CopiesIn(c) == CopiesIn(c[..3]) + [];
    assert CopiesIn(SecondBlock) == CopiesIn([]);
    assert g[..4][..3] == g[..3] && g[..3][..2] == g[..2] && g[..2][..1] == g[..1] && g[..1][..0] == [];
    assert CopiesOfNodes(g[..1]) == [];
    assert CopiesOfNodes(g[..2]) == [SetOne, SetTwo];
    assert CopiesOfNodes(g[..3]) == [SetOne, SetTwo];
    assert g[..4] == g;
  }

  lemma InstructionsOfFour(r: seq<Node>)
    requires |r| == 4
    ensures Instructions(r) == r[0].instructions + r[1].instructions + r[2].instructions + r[3].instructions
  {
    assert r[..4][..3] == r[..3] && r[..3][..2] == r[..2];
    assert r[..2][..1] == r[..1] && r[..1][..0] == [];
    assert Instructions(r[..1]) == r[0].instructions;
    assert Instructions(r[..2]) == Instructions(r[..1]) + r[1].instructions;
    assert Instructions(r[..3]) == Instructions(r[..2]) + r[2].instructions;
    assert r[..4] == r;
  }

  /** The facts at the start of the two blocks of `Program()` in a solution of the data-flow
      equations: the first block starts with the meet of its predecessors, the second with the
      facts leaving the first. */
  lemma ProgramEntries(start: nat, g: seq<Node>, blocks: map<int, seq<IrCopy>>,
                       instrAnn: map<(int, int), seq<IrCopy>>, entry: map<int, seq<IrCopy>>)
    requires |g| == 4 && DistinctIds(g)
    requires g[0].id == ENTRY && g[1].id == start + 1 && g[2].id == start + 2 && g[3].id == EXIT
    requires g[2].predecessors == [start + 1]
    requires Fixpoint(g, [SetOne, SetTwo], blocks, instrAnn, entry)
    ensures start + 1 in entry && start + 2 in entry
    ensures Meet(g[1].predecessors, blocks, [SetOne, SetTwo]) == Ok(entry[start + 1])
    ensures entry[start + 2] == FilterBy([SetOne, SetTwo], Elems(BlockOut(g[1].instructions, entry[start + 1])))
  {
    var all := [SetOne, SetTwo];
    var x, y := start + 1, start + 2;
    assert g[1].id == x && g[2].id == y;
    assert IsRealId(g, x) && IsRealId(g, y);
    assert NodeOf(g, x) == g[1] && NodeOf(g, y) == g[2];
    assert Processed(g, all, blocks, instrAnn, x, entry);
    assert MeetOf(g, blocks, all, y) == Ok(entry[y]);
    assert blocks[x] == BlockOut(g[1].instructions, entry[x]);
    assert MeetFrom([x], blocks, all) == MeetFrom([], blocks, FilterBy(all, Elems(blocks[x])));
  }

  /** What a solution of the data-flow equations leaves on a graph of two blocks between empty
      ENTRY and EXIT nodes: the emitted instructions are the two blocks rewritten with the facts
      reaching their starts. */
  lemma ProgramEmitted(g: seq<Node>, all: seq<IrCopy>, blocks: map<int, seq<IrCopy>>,
                       instrAnn: map<(int, int), seq<IrCopy>>, entry: map<int, seq<IrCopy>>, rewritten: seq<Node>)
    requires |g| == 4 && DistinctIds(g)
    requires g[0].id == ENTRY && g[1].id != ENTRY && g[1].id != EXIT && g[2].id != ENTRY && g[2].id != EXIT
    requires g[0].instructions == [] && g[3].instructions == []
    requires Solved(g, all, blocks, instrAnn, entry)
    requires |rewritten| == |g| && RewrittenNodes(instrAnn, g, rewritten, |g|)
    ensures g[1].id in entry && g[2].id in entry
    ensures Instructions(rewritten) ==
              RewriteWith(g[1].instructions, entry[g[1].id], |g[1].instructions|) +
              RewriteWith(g[2].instructions, entry[g[2].id], |g[2].instructions|)
  {
    assert IsRealId(g, g[1].id) && IsRealId(g, g[2].id);
    ApplyRewrites(g, all, blocks, instrAnn, entry, rewritten);
    var first := RewriteWith(g[1].instructions, entry[g[1].id], |g[1].instructions|);
    var second := RewriteWith(g[2].instructions, entry[g[2].id], |g[2].instructions|);
    assert rewritten[1].instructions == first && rewritten[2].instructions == second;
    assert rewritten[0].instructions == [] && rewritten[3].instructions == [];
    InstructionsOfFour(rewritten);
    EmptyEnds(first, second);
  }

  lemma EmptyEnds<T>(a: seq<T>, b: seq<T>)
    ensures [] + a + b + [] == a + b
  {
  }

  /** As written, the first block is handed both copies: both are dropped as already known and
      the negation reads the first fact about `a`. */
  lemma AllCopiesRewrite()
    ensures BlockOut(FirstBlock, [SetOne, SetTwo]) == [SetOne, SetTwo]
    ensures RewriteWith(FirstBlock, [SetOne, SetTwo], 3) == [Unary(Minus, Constant(1), T)]
    ensures RewriteWith(SecondBlock, [SetOne, SetTwo], 1) == SecondBlock
  {
    var all := [SetOne, SetTwo];
    var c := FirstBlock;
    assert ReachingBefore(c, all, 1) == all;
    assert ReachingBefore(c, all, 2) == all;
    assert KillCopies(all, T) == all;
    assert RewriteWith(c, all, 1) == [];
    assert RewriteWith(c, all, 2) == [];
    assert ReplaceOperand(A, all) == Constant(1);
  }

  /** From empty start facts both copies are kept and the negation reads the second. */
  lemma NoCopiesRewrite()
    ensures BlockOut(FirstBlock, []) == [SetTwo]
    ensures RewriteWith(FirstBlock, [], 3) == [Copy(SetOne), Copy(SetTwo), Unary(Minus, Constant(2), T)]
    ensures RewriteWith(SecondBlock, [SetTwo], 1) == SecondBlock
  {
    var c := FirstBlock;
    assert ReachingBefore(c, [], 1) == [SetOne];
    assert KillCopies([SetOne], A) == [];
    assert ReachingBefore(c, [], 2) == [SetTwo];
    assert KillCopies([SetTwo], T) == [SetTwo];
    assert RewriteWith(c, [], 1) == [Copy(SetOne)];
    assert RewriteWith(c, [], 2) == [Copy(SetOne), Copy(SetTwo)];
    assert ReplaceOperand(A, [SetTwo]) == Constant(2);
  }

  /** As written, with the id counter past 0, every solution of the data-flow equations rewrites
      `Program()` to `t = -1; return t`: the first block has no predecessor, so it is handed both
      copies, both are dropped as already known, and `-a` takes the first fact about `a`. */
  lemma AsWrittenNegatesOne(start: nat, cache: map<string, int>, g: seq<Node>, blocks: map<int, seq<IrCopy>>,
                            instrAnn: map<(int, int), seq<IrCopy>>, entry: map<int, seq<IrCopy>>, rewritten: seq<Node>)
    requires 0 < start && BuiltFrom(Program(), start, cache, g)
    requires Fixpoint(g, CopiesOfNodes(g), blocks, instrAnn, entry)
    requires |rewritten| == |g| && RewrittenNodes(instrAnn, g, rewritten, |g|)
    ensures Instructions(rewritten) == [Unary(Minus, Constant(1), T), Return(T)]
  {
    ProgramGraph(start, cache, g, false);
    ProgramCopies(g);
    AsWrittenSolution(start, g, blocks, instrAnn, entry, rewritten);
  }

  /** On the graph of `Program()` whose first block has no predecessor, a solution of the
      data-flow equations drops both copies and negates 1. */
  lemma AsWrittenSolution(start: nat, g: seq<Node>, blocks: map<int, seq<IrCopy>>,
                          instrAnn: map<(int, int), seq<IrCopy>>, entry: map<int, seq<IrCopy>>, rewritten: seq<Node>)
    requires |g| == 4 && DistinctIds(g)
    requires g[0].id == ENTRY && g[1].id == start + 1 && g[2].id == start + 2 && g[3].id == EXIT
    requires g[0].instructions == [] && g[3].instructions == []
    requires g[1].instructions == FirstBlock && g[2].instructions == SecondBlock
    requires g[1].predecessors == [] && g[2].predecessors == [start + 1]
    requires Fixpoint(g, [SetOne, SetTwo], blocks, instrAnn, entry)
    requires |rewritten| == |g| && RewrittenNodes(instrAnn, g, rewritten, |g|)
    ensures Instructions(rewritten) == [Unary(Minus, Constant(1), T), Return(T)]
  {
    var all := [SetOne, SetTwo];
    ProgramEntries(start, g, blocks, instrAnn, entry);
    ProgramEmitted(g, all, blocks, instrAnn, entry, rewritten);
    FilterByAll(all);
    AllCopiesRewrite();
  }

  /** With ENTRY wired to the first block, every solution keeps both copies and negates 2. */
  lemma CorrectedNegatesTwo(start: nat, cache: map<string, int>, g: seq<Node>, blocks: map<int, seq<IrCopy>>,
                            instrAnn: map<(int, int), seq<IrCopy>>, entry: map<int, seq<IrCopy>>, rewritten: seq<Node>)
    requires CorrectedBuiltFrom(Program(), start, cache, g)
    requires Fixpoint(g, CopiesOfNodes(g), blocks, instrAnn, entry)
    requires |rewritten| == |g| && RewrittenNodes(instrAnn, g, rewritten, |g|)
    ensures Instructions(rewritten) == [Copy(SetOne), Copy(SetTwo), Unary(Minus, Constant(2), T), Return(T)]
  {
    ProgramGraph(start, cache, g, true);
    ProgramCopies(g);
    CorrectedSolution(start, g, blocks, instrAnn, entry, rewritten);
  }

  /** On the graph of `Program()` whose first block is entered from ENTRY, a solution of the
      data-flow equations keeps both copies and negates 2. */
  lemma CorrectedSolution(start: nat, g: seq<Node>, blocks: map<int, seq<IrCopy>>,
                          instrAnn: map<(int, int), seq<IrCopy>>, entry: map<int, seq<IrCopy>>, rewritten: seq<Node>)
    requires |g| == 4 && DistinctIds(g)
    requires g[0].id == ENTRY && g[1].id == start + 1 && g[2].id == start + 2 && g[3].id == EXIT
    requires g[0].instructions == [] && g[3].instructions == []
    requires g[1].instructions == FirstBlock && g[2].instructions == SecondBlock
    requires g[1].predecessors == [ENTRY] && g[2].predecessors == [start + 1]
    requires Fixpoint(g, [SetOne, SetTwo], blocks, instrAnn, entry)
    requires |rewritten| == |g| && RewrittenNodes(instrAnn, g, rewritten, |g|)
    ensures Instructions(rewritten) == [Copy(SetOne), Copy(SetTwo), Unary(Minus, Constant(2), T), Return(T)]
  {
    ProgramEntries(start, g, blocks, instrAnn, entry);
    ProgramEmitted(g, [SetOne, SetTwo], blocks, instrAnn, entry, rewritten);
    assert Meet([ENTRY], blocks, [SetOne, SetTwo]) == Ok([]);
    assert entry[start + 1] == [];
    NoCopiesRewrite();
    FilterBySingle();
    assert entry[start + 2] == [SetTwo];
  }

  lemma FilterBySingle()
    ensures FilterBy([SetOne, SetTwo], Elems([SetTwo])) == [SetTwo]
  {
    assert Elems([SetTwo]) == {SetTwo};
  }

  /** The first block of a built graph: its id and where its node sits. */
  lemma FirstBlockNode(xs: seq<Instruction>, start: nat, es: seq<(int, int)>, g: seq<Node>)
    requires Partition(xs) != [] && g == WithEdges(Layout(start, Partition(xs)), es)
    ensures |g| > 2 && DistinctIds(g) && g[1].id == start + 1 && IsRealId(g, start + 1)
    ensures NodeOf(g, start + 1) == g[1]
  {
    var layout := Layout(start, Partition(xs));
    LayoutDistinct(start, Partition(xs));
    WithEdgesKeepNodes(layout, es);
    assert layout[1] == NewNode(start + 1, Partition(xs)[0]);
    assert g[1].id == start + 1;
  }

  /** A fixed point gives a real block the meet of its predecessors. */
  lemma FixpointAtNode(g: seq<Node>, all: seq<IrCopy>, blocks: map<int, seq<IrCopy>>,
                       instrAnn: map<(int, int), seq<IrCopy>>, entry: map<int, seq<IrCopy>>, x: int, n: Node)
    requires Fixpoint(g, all, blocks, instrAnn, entry) && IsRealId(g, x) && NodeOf(g, x) == n
    ensures x in entry && Meet(n.predecessors, blocks, all) == Ok(entry[x])
  {
    assert Processed(g, all, blocks, instrAnn, x, entry);
    assert MeetOf(g, blocks, all, x) == Ok(entry[x]);
  }

  /** As written, once the id counter is past 0 the first block of a built graph never has ENTRY
      as predecessor. */
  lemma AsWrittenFirstBlockNoEntry(xs: seq<Instruction>, start: nat, cache: map<string, int>, g: seq<Node>)
    requires 0 < start && Partition(xs) != [] && BuiltFrom(xs, start, cache, g)
    ensures |g| > 2 && g[1].id == start + 1 && IsRealId(g, start + 1) && NodeOf(g, start + 1) == g[1]
    ensures ENTRY !in g[1].predecessors
  {
    var layout := Layout(start, Partition(xs));
    var es := AllEdges(layout, start + |Partition(xs)|, cache).value;
    FirstBlockNode(xs, start, es, g);
    LayoutPastOne(start, Partition(xs));
    EntryEdgeAsWritten(layout, start + |Partition(xs)|, cache);
  }

  /** With the corrected edge, ENTRY is the first predecessor of the first block. */
  lemma CorrectedFirstBlockEntry(xs: seq<Instruction>, start: nat, cache: map<string, int>, g: seq<Node>)
    requires Partition(xs) != [] && CorrectedBuiltFrom(xs, start, cache, g)
    ensures |g| > 2 && g[1].id == start + 1 && IsRealId(g, start + 1) && NodeOf(g, start + 1) == g[1]
    ensures g[1].predecessors != [] && g[1].predecessors[0] == ENTRY
  {
    var layout := Layout(start, Partition(xs));
    var es := CorrectedAllEdges(layout, start + |Partition(xs)|, cache).value;
    FirstBlockNode(xs, start, es, g);
    forall j | 0 <= j < |layout|
      ensures layout[j].successors == [] && layout[j].predecessors == []
    {
      if 0 < j < |layout| - 1 {
        assert layout[j] == NewNode(start + (j - 1) + 1, Partition(xs)[j - 1]);
      }
    }
    CorrectedEntryEdge(layout, start + |Partition(xs)|, cache);
  }

  /** As written, once the id counter is past 0 the first block never has ENTRY as predecessor;
      when nothing jumps back to it, every solution hands it all copies of the graph. */
  lemma AsWrittenFirstBlockUnanchored(xs: seq<Instruction>, start: nat, cache: map<string, int>, g: seq<Node>,
                                      blocks: map<int, seq<IrCopy>>, instrAnn: map<(int, int), seq<IrCopy>>,
                                      entry: map<int, seq<IrCopy>>)
    requires 0 < start && Partition(xs) != [] && BuiltFrom(xs, start, cache, g)
    requires Fixpoint(g, CopiesOfNodes(g), blocks, instrAnn, entry)
    ensures |g| > 2 && g[1].id == start + 1 && start + 1 in entry
    ensures ENTRY !in g[1].predecessors
    ensures g[1].predecessors == [] ==> entry[start + 1] == CopiesOfNodes(g)
  {
    AsWrittenFirstBlockNoEntry(xs, start, cache, g);
    FixpointAtNode(g, CopiesOfNodes(g), blocks, instrAnn, entry, start + 1, g[1]);
    if g[1].predecessors == [] {
      FilterByAll(CopiesOfNodes(g));
    }
  }

  /** With ENTRY wired to the first block, every solution starts the first block with no facts:
      nothing is known to hold on entry to the function. */
  lemma CorrectedFirstBlockStartsEmpty(xs: seq<Instruction>, start: nat, cache: map<string, int>, g: seq<Node>,
                                       blocks: map<int, seq<IrCopy>>, instrAnn: map<(int, int), seq<IrCopy>>,
                                       entry: map<int, seq<IrCopy>>)
    requires Partition(xs) != [] && CorrectedBuiltFrom(xs, start, cache, g)
    requires Fixpoint(g, CopiesOfNodes(g), blocks, instrAnn, entry)
    ensures |g| > 2 && g[1].id == start + 1 && start + 1 in entry
    ensures entry[start + 1] == []
  {
    CorrectedFirstBlockEntry(xs, start, cache, g);
    FilterByNone(CopiesOfNodes(g));
    assert Meet(g[1].predecessors, blocks, CopiesOfNodes(g)) == Ok([]);
    FixpointAtNode(g, CopiesOfNodes(g), blocks, instrAnn, entry, start + 1, g[1]);
  }
}
