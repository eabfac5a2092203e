/** The optimizer driver (src/optimizations/optimizer.hpp): per block, a bounded fixed-point loop
    over constant folding and copy propagation on a freshly built flow graph. */
module OptimizerDriver {
  import opened Wrappers
  import opened IR
  import opened FlowGraphs
  import opened ConstantFoldingPass
  import opened CopyPropagationPass

  /** The most rounds a block gets. */
  const ROUND_LIMIT: nat := 25

  /** Whether the do-while loop runs another round after `rounds` rounds. */
  predicate Continues(changed: bool, rounds: nat) {
    changed && rounds < ROUND_LIMIT
  }

  /** What one round leaves: `built` is the graph `generate_flowgraph` builds from the block's own
      instructions with the id counter at `start`, leaving the label index `cache`; `entry`,
      `blocks` and `instrAnn` are the greatest fixed point of the copy-propagation equations on it; and
      `rewritten` is every node rewritten with the annotations, whose instructions are `emitted`. */
  ghost predicate LastRound(original: seq<Instruction>, start: nat, cache: map<string, int>, built: seq<Node>,
                            blocks: map<int, seq<IrCopy>>, instrAnn: map<(int, int), seq<IrCopy>>,
                            entry: map<int, seq<IrCopy>>, rewritten: seq<Node>, emitted: seq<Instruction>)
  {
    BuiltFrom(original, start, cache, built) &&
    GreatestFixpoint(built, CopiesOfNodes(built), blocks, instrAnn, entry) &&
    |rewritten| == |built| && RewrittenNodes(instrAnn, built, rewritten, |built|) &&
    emitted == Instructions(rewritten)
  }

  /** A layout's ENTRY and EXIT nodes are empty and its other nodes real. */
  lemma LayoutRealNodes(start: nat, blocks: seq<seq<Instruction>>, g: seq<Node>)
    requires SameNodes(g, Layout(start, blocks))
    ensures forall j :: 0 <= j < |g| && !IsReal(g[j]) ==> g[j].instructions == []
  {
    var layout := Layout(start, blocks);
    forall j | 0 < j < |g| - 1
      ensures IsReal(g[j])
    {
      assert layout[j] == NewNode(start + (j - 1) + 1, blocks[j - 1]);
    }
  }

  /** A graph built from `xs` holds exactly `xs`. */
  lemma BuiltFromInstructions(xs: seq<Instruction>, start: nat, cache: map<string, int>, g: seq<Node>)
    requires BuiltFrom(xs, start, cache, g)
    ensures Instructions(g) == xs
  {
    var blocks := Partition(xs);
    var layout := Layout(start, blocks);
    var es := AllEdges(layout, start + |blocks|, cache).value;
    WithEdgesKeepNodes(layout, es);
    SameNodesInstructions(g, layout);
    LayoutFlattens(start, blocks);
    PartitionCorrect(xs);
  }

  /** A graph built from `xs` is well linked, with empty ENTRY and EXIT nodes. */
  lemma BuiltFromLinked(xs: seq<Instruction>, start: nat, cache: map<string, int>, g: seq<Node>)
    requires BuiltFrom(xs, start, cache, g)
    ensures DistinctIds(g) && WellLinked(g)
    ensures forall j :: 0 <= j < |g| && !IsReal(g[j]) ==> g[j].instructions == []
  {
    var blocks := Partition(xs);
    var layout := Layout(start, blocks);
    var es := AllEdges(layout, start + |blocks|, cache).value;
    BuiltGraphWellLinked(layout, start, blocks, start + |blocks|, cache, g);
    WithEdgesKeepNodes(layout, es);
    LayoutRealNodes(start, blocks, g);
  }

  /** A graph built from `xs` holds exactly `xs`, has distinct ids, empty ENTRY and EXIT nodes,
      and is well linked. */
  lemma BuiltFromShape(xs: seq<Instruction>, start: nat, cache: map<string, int>, g: seq<Node>)
    requires BuiltFrom(xs, start, cache, g)
    ensures Instructions(g) == xs && DistinctIds(g) && WellLinked(g)
    ensures forall j :: 0 <= j < |g| && !IsReal(g[j]) ==> g[j].instructions == []
  {
    BuiltFromInstructions(xs, start, cache, g);
    BuiltFromLinked(xs, start, cache, g);
  }

  /** The round's output: every real node of the built graph rewritten with the copies reaching
      its start, ENTRY and EXIT left as they were. */
  lemma LastRoundRewrites(original: seq<Instruction>, start: nat, cache: map<string, int>, built: seq<Node>,
                          blocks: map<int, seq<IrCopy>>, instrAnn: map<(int, int), seq<IrCopy>>,
                          entry: map<int, seq<IrCopy>>, rewritten: seq<Node>, emitted: seq<Instruction>)
    requires LastRound(original, start, cache, built, blocks, instrAnn, entry, rewritten, emitted)
    ensures Instructions(built) == original
    ensures forall j :: 0 <= j < |built| ==> rewritten[j].id == built[j].id
    ensures forall j :: 0 <= j < |built| && !IsReal(built[j]) ==> rewritten[j].instructions == []
    ensures forall j :: 0 <= j < |built| && IsReal(built[j]) ==>
              built[j].id in entry &&
              rewritten[j].instructions == RewriteWith(built[j].instructions, entry[built[j].id], |built[j].instructions|)
  {
    BuiltFromShape(original, start, cache, built);
    ApplyRewrites(built, CopiesOfNodes(built), blocks, instrAnn, entry, rewritten);
    forall j | 0 <= j < |built|
      ensures rewritten[j] == built[j].(instructions := rewritten[j].instructions)
      ensures IsReal(built[j]) ==> IsRealId(built, built[j].id)
      ensures !IsReal(built[j]) ==> rewritten[j].instructions == []
    {
      if !IsReal(built[j]) {
        assert RewriteFrom(instrAnn, built[j].id, [], 0) == Ok([]);
      }
    }
  }

  /** Copy propagation's postconditions on a graph built from `original` give `LastRound`. */
  lemma RoundEstablishes(original: seq<Instruction>, start: nat, cache: map<string, int>, built: seq<Node>,
                         blocks: map<int, seq<IrCopy>>, instrAnn: map<(int, int), seq<IrCopy>>,
                         entry: map<int, seq<IrCopy>>, rewritten: seq<Node>)
    requires BuiltFrom(original, start, cache, built)
    requires WellLinked(built) ==> GreatestFixpoint(built, CopiesOfNodes(built), blocks, instrAnn, entry)
    requires |rewritten| == |built| && RewrittenNodes(instrAnn, built, rewritten, |rewritten|)
    ensures LastRound(original, start, cache, built, blocks, instrAnn, entry, rewritten, Instructions(rewritten))
  {
    BuiltFromLinked(original, start, cache, built);
  }

  /** Some round of one block's loop, numbering from `start` and leaving the label index `cache`,
      emits `emitted`. */
  ghost predicate OptimizedFrom(original: seq<Instruction>, start: nat, cache: map<string, int>,
                                emitted: seq<Instruction>)
  {
    exists built, blocks, instrAnn, entry, rewritten ::
      LastRound(original, start, cache, built, blocks, instrAnn, entry, rewritten, emitted)
  }

  /** A block's round emits one output only: the graph is built deterministically, and copy
      propagation settles on its greatest fixed point, of which there is one. */
  lemma OptimizedFromUnique(original: seq<Instruction>, start: nat, cache: map<string, int>,
                            emitted1: seq<Instruction>, emitted2: seq<Instruction>)
    requires OptimizedFrom(original, start, cache, emitted1) && OptimizedFrom(original, start, cache, emitted2)
    ensures emitted1 == emitted2
  {
    var g1, b1, i1, n1, r1 :| LastRound(original, start, cache, g1, b1, i1, n1, r1, emitted1);
    var g2, b2, i2, n2, r2 :| LastRound(original, start, cache, g2, b2, i2, n2, r2, emitted2);
    LastRoundsAgree(original, start, cache, g1, b1, i1, n1, r1, emitted1, g2, b2, i2, n2, r2, emitted2);
  }

  lemma LastRoundsAgree(original: seq<Instruction>, start: nat, cache: map<string, int>,
                        g1: seq<Node>, b1: map<int, seq<IrCopy>>, i1: map<(int, int), seq<IrCopy>>,
                        n1: map<int, seq<IrCopy>>, r1: seq<Node>, emitted1: seq<Instruction>,
                        g2: seq<Node>, b2: map<int, seq<IrCopy>>, i2: map<(int, int), seq<IrCopy>>,
                        n2: map<int, seq<IrCopy>>, r2: seq<Node>, emitted2: seq<Instruction>)
    requires LastRound(original, start, cache, g1, b1, i1, n1, r1, emitted1)
    requires LastRound(original, start, cache, g2, b2, i2, n2, r2, emitted2)
    ensures emitted1 == emitted2
  {
    assert g1 == g2;
    LastRoundRewrites(original, start, cache, g1, b1, i1, n1, r1, emitted1);
    LastRoundRewrites(original, start, cache, g2, b2, i2, n2, r2, emitted2);
    GreatestFixpointUnique(g1, CopiesOfNodes(g1), b1, i1, n1, b2, i2, n2);
    assert |r1| == |r2|;
    forall j | 0 <= j < |r1|
      ensures r1[j] == r2[j]
    {
      assert r1[j] == g1[j].(instructions := r1[j].instructions);
      assert r2[j] == g1[j].(instructions := r2[j].instructions);
      if IsReal(g1[j]) {
        assert IsRealId(g1, g1[j].id);
      }
    }
    assert r1 == r2;
  }

  lemma WitnessOptimized(original: seq<Instruction>, start: nat, cache: map<string, int>, built: seq<Node>,
                         blocks: map<int, seq<IrCopy>>, instrAnn: map<(int, int), seq<IrCopy>>,
                         entry: map<int, seq<IrCopy>>, rewritten: seq<Node>, emitted: seq<Instruction>)
    requires LastRound(original, start, cache, built, blocks, instrAnn, entry, rewritten, emitted)
    ensures OptimizedFrom(original, start, cache, emitted)
  {
  }

  /** Whether some node keeps an instruction is whether the emitted instructions are non-empty. */
  lemma {:induction false} KeepsSomeInstructions(ns: seq<Node>)
    ensures KeepsSome(ns, |ns|) <==> Instructions(ns) != []
    decreases |ns|
  {
    if ns != [] {
      var init := ns[..|ns| - 1];
      KeepsSomeInstructions(init);
      if KeepsSome(init, |init|) {
        var j :| 0 <= j < |init| && init[j].instructions != [];
        assert ns[j].instructions != [];
      }
      if KeepsSome(ns, |ns|) && ns[|ns| - 1].instructions == [] {
        var j :| 0 <= j < |ns| && ns[j].instructions != [];
        assert init[j].instructions != [];
      }
    }
  }

  /** An instruction of the emitted sequence comes from some node. */
  lemma {:induction false} InstructionsMember(ns: seq<Node>, x: Instruction)
    requires x in Instructions(ns)
    ensures exists j :: 0 <= j < |ns| && x in ns[j].instructions
    decreases |ns|
  {
    var init := ns[..|ns| - 1];
    if x !in ns[|ns| - 1].instructions {
      InstructionsMember(init, x);
      var j :| 0 <= j < |init| && x in init[j].instructions;
      assert ns[j] == init[j];
    }
  }

  /** Copy propagation only ever drops copies: any other instruction leaves something behind. */
  lemma {:induction false} RewriteWithKeepsNonCopy(instrs: seq<Instruction>, entry: seq<IrCopy>, k: nat, i: nat)
    requires i < k <= |instrs| && !instrs[i].Copy?
    ensures RewriteWith(instrs, entry, k) != []
  {
    if i < k - 1 {
      RewriteWithKeepsNonCopy(instrs, entry, k - 1, i);
    } else {
      assert RewriteInstruction(instrs[i], ReachingBefore(instrs, entry, i)).Some?;
    }
  }

  /** The block holds an instruction other than a copy. */
  predicate HasNonCopy(xs: seq<Instruction>) {
    exists i :: 0 <= i < |xs| && !xs[i].Copy?
  }

  /** What makes every round report a change whatever copy propagation does: something folds, or
      something other than a copy survives it. */
  predicate RunsAllRounds(xs: seq<Instruction>)
    requires AllFoldDefined(xs)
  {
    SomeFolds(xs, |xs|) || HasNonCopy(xs)
  }

  /** Rewriting every real node of a graph holding a non-copy instruction keeps some
      instruction. */
  lemma RewritesKeepNonCopy(original: seq<Instruction>, built: seq<Node>, entry: map<int, seq<IrCopy>>,
                            rewritten: seq<Node>)
    requires Instructions(built) == original && HasNonCopy(original) && |rewritten| == |built|
    requires forall j :: 0 <= j < |built| && !IsReal(built[j]) ==> built[j].instructions == []
    requires forall j :: 0 <= j < |built| && IsReal(built[j]) ==>
               built[j].id in entry &&
               rewritten[j].instructions == RewriteWith(built[j].instructions, entry[built[j].id], |built[j].instructions|)
    ensures Instructions(rewritten) != []
  {
    var i :| 0 <= i < |original| && !original[i].Copy?;
    InstructionsMember(built, original[i]);
    var j :| 0 <= j < |built| && original[i] in built[j].instructions;
    var instrs := built[j].instructions;
    var p :| 0 <= p < |instrs| && instrs[p] == original[i];
    RewriteWithKeepsNonCopy(instrs, entry[built[j].id], |instrs|, p);
    assert rewritten[j].instructions != [];
    KeepsSomeInstructions(rewritten);
  }

  /** A block holding anything but copies never emits an empty block. */
  lemma NonCopySurvives(original: seq<Instruction>, start: nat, cache: map<string, int>, built: seq<Node>,
                        blocks: map<int, seq<IrCopy>>, instrAnn: map<(int, int), seq<IrCopy>>,
                        entry: map<int, seq<IrCopy>>, rewritten: seq<Node>, emitted: seq<Instruction>)
    requires LastRound(original, start, cache, built, blocks, instrAnn, entry, rewritten, emitted)
    requires HasNonCopy(original)
    ensures emitted != []
  {
    BuiltFromShape(original, start, cache, built);
    LastRoundRewrites(original, start, cache, built, blocks, instrAnn, entry, rewritten, emitted);
    RewritesKeepNonCopy(original, built, entry, rewritten);
  }

  /** No round emits an empty block from a block holding anything but copies. */
  lemma OptimizedNonCopy(original: seq<Instruction>, start: nat, cache: map<string, int>, emitted: seq<Instruction>)
    requires OptimizedFrom(original, start, cache, emitted) && HasNonCopy(original)
    ensures emitted != []
  {
    var built, blocks, instrAnn, entry, rewritten :|
      LastRound(original, start, cache, built, blocks, instrAnn, entry, rewritten, emitted);
    NonCopySurvives(original, start, cache, built, blocks, instrAnn, entry, rewritten, emitted);
  }

  /** The rounds a block runs, read off its last round: when that round reported a change only the
      round limit stopped the loop, and a block where something folds or a non-copy instruction sits
      always reports one. */
  lemma AllRoundsRun(original: seq<Instruction>, start: nat, cache: map<string, int>,
                     emitted: seq<Instruction>, last: bool, rounds: nat)
    requires AllFoldDefined(original) && OptimizedFrom(original, start, cache, emitted)
    requires last <==> SomeFolds(original, |original|) || emitted != []
    requires !last || rounds == ROUND_LIMIT
    ensures RunsAllRounds(original) ==> rounds == ROUND_LIMIT
  {
    if HasNonCopy(original) {
      OptimizedNonCopy(original, start, cache, emitted);
    }
  }

  /** Where round `k` (counting from 0) of a block starts numbering: each round before it used one
      id per basic block. */
  function RoundStart(start: nat, blockCount: nat, k: nat): nat {
    if k == 0 then start else RoundStart(start, blockCount, k - 1) + blockCount
  }

  lemma {:induction false} RoundStartSpent(start: nat, blockCount: nat, k: nat)
    ensures RoundStart(start, blockCount, k) == start + k * blockCount
  {
    if k > 0 {
      RoundStartSpent(start, blockCount, k - 1);
    }
  }

  /** What a block's loop knows after `rounds` successful rounds of the block `original`, split
      into `blocks`, with the id counter first at `start0` and the label index first `labels0`:
      the id counter stands at `counter`; every round but the last reported a change, and the last
      one started numbering at `lastStart`, left the index `cache` and reported a change exactly
      when something folds or it emitted something (`emitted`). */
  ghost predicate RoundsDone(original: seq<Instruction>, blocks: seq<seq<Instruction>>, start0: nat,
                             labels0: map<string, int>, flags: seq<bool>, counter: nat, lastStart: nat,
                             cache: map<string, int>, emitted: seq<Instruction>)
  {
    AllFoldDefined(original) && blocks == Partition(original) && |flags| <= ROUND_LIMIT &&
    counter == RoundStart(start0, |blocks|, |flags|) &&
    (flags == [] ==> lastStart == start0 && cache == labels0) &&
    (flags != [] ==>
       lastStart == RoundStart(start0, |blocks|, |flags| - 1) &&
       cache == LabelCache(Layout(lastStart, blocks), labels0) &&
       (forall k :: 0 <= k < |flags| - 1 ==> flags[k]) &&
       (flags[|flags| - 1] <==> SomeFolds(original, |original|) || emitted != []))
  }

  /** The next round, started where the previous one left the counter, leaves the counter one id
      per block further and the label index that its layout alone gives: the previous round's
      entries are all overwritten. */
  lemma RoundCache(original: seq<Instruction>, blocks: seq<seq<Instruction>>, start0: nat,
                   labels0: map<string, int>, flags: seq<bool>, counter: nat, lastStart: nat,
                   cache: map<string, int>, emitted: seq<Instruction>)
    requires RoundsDone(original, blocks, start0, labels0, flags, counter, lastStart, cache, emitted)
    ensures RoundStart(start0, |blocks|, |flags| + 1) == counter + |Partition(original)|
    ensures LabelCache(Layout(counter, blocks), cache) == LabelCache(Layout(counter, blocks), labels0)
  {
    if flags != [] {
      LabelCacheOverwrite(lastStart, counter, blocks, labels0);
    }
  }

  /** One more successful round, started while the loop still continues, extends the bookkeeping
      by the flag that round reported. */
  lemma RoundDone(original: seq<Instruction>, blocks: seq<seq<Instruction>>, start0: nat,
                  labels0: map<string, int>, flags: seq<bool>, counter: nat, lastStart: nat,
                  cache: map<string, int>, emitted: seq<Instruction>,
                  newCache: map<string, int>, newEmitted: seq<Instruction>, reported: bool)
    requires RoundsDone(original, blocks, start0, labels0, flags, counter, lastStart, cache, emitted)
    requires |flags| < ROUND_LIMIT && (flags == [] || flags[|flags| - 1])
    requires newCache == LabelCache(Layout(counter, blocks), cache)
    requires reported <==> SomeFolds(original, |original|) || newEmitted != []
    ensures RoundsDone(original, blocks, start0, labels0, flags + [reported], counter + |blocks|, counter,
                       newCache, newEmitted)
  {
    RoundCache(original, blocks, start0, labels0, flags, counter, lastStart, cache, emitted);
    var next := flags + [reported];
    assert forall k :: 0 <= k < |flags| ==> next[k] == flags[k];
  }

  /** The rounds a block's loop ran, however it stopped: between 1 and `ROUND_LIMIT` rounds,
      each using one id per basic block, the last one starting to number at `lastStart` and
      leaving the label index `cache`. */
  ghost predicate RoundsSpent(original: seq<Instruction>, start0: nat, labels0: map<string, int>,
                              flags: seq<bool>, counter: nat, lastStart: nat, cache: map<string, int>)
  {
    var blocks := Partition(original);
    1 <= |flags| <= ROUND_LIMIT &&
    counter == RoundStart(start0, |blocks|, |flags|) &&
    lastStart == RoundStart(start0, |blocks|, |flags| - 1) &&
    cache == LabelCache(Layout(lastStart, blocks), labels0)
  }

  /** What a block's loop leaves when no round failed, with `last` what it returns: the loop
      stopped because the last flag does not continue it, the bookkeeping of `RoundsDone` holds,
      and the last round emitted `emitted`. */
  ghost predicate RoundsStopped(original: seq<Instruction>, start0: nat, labels0: map<string, int>,
                                last: bool, flags: seq<bool>, counter: nat, lastStart: nat,
                                cache: map<string, int>, emitted: seq<Instruction>)
  {
    RoundsSpent(original, start0, labels0, flags, counter, lastStart, cache) &&
    last == flags[|flags| - 1] && !Continues(last, |flags|) &&
    RoundsDone(original, Partition(original), start0, labels0, flags, counter, lastStart, cache, emitted) &&
    OptimizedFrom(original, lastStart, cache, emitted)
  }

  /** A round that fails stops the loop, its flag counting as no change. */
  lemma RoundFailed(original: seq<Instruction>, blocks: seq<seq<Instruction>>, start0: nat,
                    labels0: map<string, int>, flags: seq<bool>, counter: nat, newCounter: nat,
                    newCache: map<string, int>)
    requires blocks == Partition(original) && counter == RoundStart(start0, |blocks|, |flags|)
    requires |flags| < ROUND_LIMIT
    requires newCounter == RoundStart(start0, |blocks|, |flags| + 1)
    requires newCache == LabelCache(Layout(counter, blocks), labels0)
    ensures RoundsSpent(original, start0, labels0, flags + [false], newCounter, counter, newCache)
  {
    var next := flags + [false];
    assert |next| == |flags| + 1;
  }

  /** A successful round whose flag does not continue the loop stops it. */
  lemma RoundsStop(original: seq<Instruction>, blocks: seq<seq<Instruction>>, start0: nat,
                   labels0: map<string, int>, flags: seq<bool>, counter: nat, lastStart: nat,
                   cache: map<string, int>, emitted: seq<Instruction>)
    requires RoundsDone(original, blocks, start0, labels0, flags, counter, lastStart, cache, emitted)
    requires OptimizedFrom(original, lastStart, cache, emitted)
    requires flags != [] && !Continues(flags[|flags| - 1], |flags|)
    ensures RoundsStopped(original, start0, labels0, flags[|flags| - 1], flags, counter, lastStart, cache,
                          emitted)
  {
  }

  /** Once the loop stops after a successful round, the bookkeeping gives what `OptimizeBlock`
      promises: the last flag is false unless the round limit was reached, and so a block where
      something folds or a non-copy instruction sits ran every round. */
  lemma RoundsFinished(original: seq<Instruction>, blocks: seq<seq<Instruction>>, start0: nat,
                       labels0: map<string, int>, last: bool, flags: seq<bool>, counter: nat,
                       lastStart: nat, cache: map<string, int>, emitted: seq<Instruction>)
    requires RoundsStopped(original, start0, labels0, last, flags, counter, lastStart, cache, emitted)
    requires blocks == Partition(original)
    ensures counter == RoundStart(start0, |blocks|, |flags|)
    ensures lastStart == RoundStart(start0, |blocks|, |flags| - 1)
    ensures cache == LabelCache(Layout(lastStart, blocks), labels0)
    ensures forall k :: 0 <= k < |flags| - 1 ==> flags[k]
    ensures flags[|flags| - 1] <==> SomeFolds(original, |original|) || emitted != []
    ensures flags[|flags| - 1] ==> |flags| == ROUND_LIMIT
    ensures OptimizedFrom(original, lastStart, cache, emitted)
    ensures RunsAllRounds(original) ==> |flags| == ROUND_LIMIT
  {
    AllRoundsRun(original, lastStart, cache, emitted, flags[|flags| - 1], |flags|);
  }

  /** What `optimize` promises for one block `original`: it ran `rounds` rounds, taking the id
      counter from `counter` to `nextCounter` and the label index from `cache` to `nextCache`, and
      its output `emitted` is what its last round emitted; a block where something folds or a
      non-copy instruction sits ran every round. */
  ghost predicate BlockOptimized(original: seq<Instruction>, counter: nat, nextCounter: nat,
                                 cache: map<string, int>, nextCache: map<string, int>, rounds: nat,
                                 emitted: seq<Instruction>)
  {
    var blocks := Partition(original);
    AllFoldDefined(original) && 1 <= rounds <= ROUND_LIMIT &&
    nextCounter == RoundStart(counter, |blocks|, rounds) &&
    (var lastStart := RoundStart(counter, |blocks|, rounds - 1);
     nextCache == LabelCache(Layout(lastStart, blocks), cache) &&
     OptimizedFrom(original, lastStart, nextCache, emitted)) &&
    (RunsAllRounds(original) ==> rounds == ROUND_LIMIT)
  }

  /** `BlockOptimized` for each of the first `k` blocks of `inputs`, each block finding the id
      counter and the label index where the one before it left them. */
  ghost predicate BlocksOptimized(inputs: seq<seq<Instruction>>, counters: seq<nat>,
                                  caches: seq<map<string, int>>, rounds: seq<nat>,
                                  outputs: seq<seq<Instruction>>, k: nat)
  {
    k <= |inputs| && |counters| == |caches| == k + 1 && |rounds| == |outputs| == k &&
    forall j :: 0 <= j < k ==>
      BlockOptimized(inputs[j], counters[j], counters[j + 1], caches[j], caches[j + 1], rounds[j], outputs[j])
  }

  /** One more optimized block extends the run. */
  lemma BlocksOptimizedSnoc(inputs: seq<seq<Instruction>>, counters: seq<nat>, caches: seq<map<string, int>>,
                            rounds: seq<nat>, outputs: seq<seq<Instruction>>, k: nat,
                            nextCounter: nat, nextCache: map<string, int>, round: nat, output: seq<Instruction>)
    requires BlocksOptimized(inputs, counters, caches, rounds, outputs, k) && k < |inputs|
    requires BlockOptimized(inputs[k], counters[k], nextCounter, caches[k], nextCache, round, output)
    ensures BlocksOptimized(inputs, counters + [nextCounter], caches + [nextCache], rounds + [round],
                            outputs + [output], k + 1)
  {
    var counters', caches' := counters + [nextCounter], caches + [nextCache];
    var rounds', outputs' := rounds + [round], outputs + [output];
    forall j | 0 <= j < k + 1
      ensures BlockOptimized(inputs[j], counters'[j], counters'[j + 1], caches'[j], caches'[j + 1], rounds'[j],
                             outputs'[j])
    {
      if j < k {
        assert counters'[j] == counters[j] && counters'[j + 1] == counters[j + 1];
        assert caches'[j] == caches[j] && caches'[j + 1] == caches[j + 1];
        assert rounds'[j] == rounds[j] && outputs'[j] == outputs[j];
      }
    }
  }

  class Optimizer {
    const folding: ConstantFolding
    const copyPropagation: CopyPropagation
    const graph: FlowGraph

    constructor()
      ensures fresh(folding) && fresh(copyPropagation) && fresh(graph)
      ensures graph.nodes == [] && graph.idCounter == 0 && graph.labelsToBlockId == map[]
      ensures folding.newInstructions == []
      ensures copyPropagation.annotatedBlocks == map[] && copyPropagation.annotatedInstructions == map[]
    {
      folding := new ConstantFolding();
      copyPropagation := new CopyPropagation();
      graph := new FlowGraph();
    }

    /** One round: the graph is rebuilt from the block's own instructions, advancing the id
        counter by one per basic block and recording the block's labels in the label index;
        folding runs on a copy of the instructions whose result is dropped; copy propagation runs
        on the graph. The round reports a change when something folds or any instruction survives
        propagation. */
    method Round(original: seq<Instruction>) returns (r: Result<bool>)
      requires AllFoldDefined(original)
      modifies graph, folding, copyPropagation
      ensures graph.idCounter == old(graph.idCounter) + |Partition(original)|
      ensures graph.labelsToBlockId ==
              LabelCache(Layout(old(graph.idCounter), Partition(original)), old(graph.labelsToBlockId))
      ensures r.Ok? ==> (r.value <==> SomeFolds(original, |original|) || Instructions(graph.nodes) != [])
      ensures r.Ok? ==> OptimizedFrom(original, old(graph.idCounter), graph.labelsToBlockId, Instructions(graph.nodes))
    {
      var blockInstructions := original;
      ghost var start := graph.idCounter;
      var generated := graph.GenerateFlowgraph(blockInstructions);
      if generated.Err? {
        return Err(generated.msg);
      }
      r := Passes(blockInstructions, start, graph.labelsToBlockId);
    }

    /** The passes of a round, on the graph `generate_flowgraph` has just built from `original`
        numbering from `start` and leaving the label index `cache`: folding on a copy of the
        instructions, whose result is dropped, then copy propagation on the graph. */
    method Passes(original: seq<Instruction>, ghost start: nat, ghost cache: map<string, int>)
      returns (r: Result<bool>)
      requires AllFoldDefined(original) && BuiltFrom(original, start, cache, graph.nodes)
      modifies graph`nodes, folding, copyPropagation
      ensures r.Ok? ==> (r.value <==> SomeFolds(original, |original|) || Instructions(graph.nodes) != [])
      ensures r.Ok? ==> OptimizedFrom(original, start, cache, Instructions(graph.nodes))
    {
      ghost var built := graph.nodes;
      var folded, discarded := folding.Apply(original);
      var propagated, entry := copyPropagation.Apply(graph);
      if propagated.Err? {
        return Err(propagated.msg);
      }
      RoundEstablishes(original, start, cache, built, copyPropagation.annotatedBlocks,
                       copyPropagation.annotatedInstructions, entry, graph.nodes);
      WitnessOptimized(original, start, cache, built, copyPropagation.annotatedBlocks,
                       copyPropagation.annotatedInstructions, entry, graph.nodes, Instructions(graph.nodes));
      KeepsSomeInstructions(graph.nodes);
      return Ok(folded || propagated.value);
    }

    /** One iteration of the do-while loop: a round, started while the loop still continues, with
        the loop's bookkeeping carried over to it. */
    method Step(original: seq<Instruction>, ghost blocks: seq<seq<Instruction>>, ghost start0: nat,
                ghost labels0: map<string, int>, ghost flags: seq<bool>, ghost lastStart: nat,
                ghost emitted: seq<Instruction>)
      returns (r: Result<bool>)
      requires RoundsDone(original, blocks, start0, labels0, flags, graph.idCounter, lastStart,
                          graph.labelsToBlockId, emitted)
      requires |flags| < ROUND_LIMIT && (flags == [] || flags[|flags| - 1])
      modifies graph, folding, copyPropagation
      ensures graph.idCounter == RoundStart(start0, |blocks|, |flags| + 1)
      ensures graph.labelsToBlockId == LabelCache(Layout(old(graph.idCounter), blocks), labels0)
      ensures r.Ok? ==> RoundsDone(original, blocks, start0, labels0, flags + [r.value], graph.idCounter,
                                   old(graph.idCounter), graph.labelsToBlockId, Instructions(graph.nodes))
      ensures r.Ok? ==> OptimizedFrom(original, old(graph.idCounter), graph.labelsToBlockId, Instructions(graph.nodes))
    {
      ghost var counter, cache := graph.idCounter, graph.labelsToBlockId;
      RoundCache(original, blocks, start0, labels0, flags, counter, lastStart, cache, emitted);
      r := Round(original);
      if r.Ok? {
        RoundDone(original, blocks, start0, labels0, flags, counter, lastStart, cache, emitted,
                  graph.labelsToBlockId, Instructions(graph.nodes), r.value);
      }
    }

    /** The do-while loop of `optimize` for one block: rounds run while the last one reported a
        change and fewer than `ROUND_LIMIT` have run. `flags` holds what each round reported and
        `r` what the last one did; each round numbers the blocks afresh past the previous one. */
    method RunRounds(original: seq<Instruction>)
      returns (r: Result<bool>, ghost flags: seq<bool>, ghost lastStart: nat)
      requires AllFoldDefined(original)
      modifies graph, folding, copyPropagation
      ensures RoundsSpent(original, old(graph.idCounter), old(graph.labelsToBlockId), flags, graph.idCounter,
                          lastStart, graph.labelsToBlockId)
      ensures r.Ok? ==> RoundsStopped(original, old(graph.idCounter), old(graph.labelsToBlockId), r.value, flags,
                                      graph.idCounter, lastStart, graph.labelsToBlockId, Instructions(graph.nodes))
    {
      ghost var start0, labels0, blocks := graph.idCounter, graph.labelsToBlockId, Partition(original);
      ghost var emitted := [];
      lastStart := start0;
      var changed := true;
      var limit := 0;
      flags := [];
      while true
        invariant RoundsDone(original, blocks, start0, labels0, flags, graph.idCounter, lastStart,
                             graph.labelsToBlockId, emitted)
        invariant |flags| == limit < ROUND_LIMIT && (limit > 0 ==> changed && flags[limit - 1])
        decreases ROUND_LIMIT - limit
      {
        changed := false;
        ghost var counter, cache := graph.idCounter, graph.labelsToBlockId;
        var res := Step(original, blocks, start0, labels0, flags, lastStart, emitted);
        if res.Err? {
          RoundFailed(original, blocks, start0, labels0, flags, counter, graph.idCounter, graph.labelsToBlockId);
          flags := flags + [false];
          return Err(res.msg), flags, counter;
        }
        changed := changed || res.value;
        lastStart, emitted := counter, Instructions(graph.nodes);
        flags := flags + [changed];
        limit := limit + 1;
        if !Continues(changed, limit) {
          RoundsStop(original, blocks, start0, labels0, flags, graph.idCounter, lastStart,
                     graph.labelsToBlockId, emitted);
          return Ok(changed), flags, lastStart;
        }
      }
    }

    /** One block through `optimize`: its rounds, then the instructions the last round left in the
        graph. Every round but the last reported a change, and the last reported none unless it was
        round `ROUND_LIMIT`; the result is what the last round emitted. Since every round restarts
        from the block's own instructions, a block where something folds or that holds anything but
        copies runs all `ROUND_LIMIT` rounds. */
    method OptimizeBlock(original: seq<Instruction>)
      returns (r: Result<seq<Instruction>>, ghost flags: seq<bool>, ghost lastStart: nat)
      requires AllFoldDefined(original)
      modifies graph, folding, copyPropagation
      ensures 1 <= |flags| <= ROUND_LIMIT
      ensures graph.idCounter == RoundStart(old(graph.idCounter), |Partition(original)|, |flags|)
      ensures lastStart == RoundStart(old(graph.idCounter), |Partition(original)|, |flags| - 1)
      ensures graph.labelsToBlockId == LabelCache(Layout(lastStart, Partition(original)), old(graph.labelsToBlockId))
      ensures r.Ok? ==> forall k :: 0 <= k < |flags| - 1 ==> flags[k]
      ensures r.Ok? ==> (flags[|flags| - 1] <==> SomeFolds(original, |original|) || r.value != [])
      ensures r.Ok? && flags[|flags| - 1] ==> |flags| == ROUND_LIMIT
      ensures r.Ok? ==> OptimizedFrom(original, lastStart, graph.labelsToBlockId, r.value)
      ensures r.Ok? && RunsAllRounds(original) ==> |flags| == ROUND_LIMIT
      ensures r.Ok? ==> BlockOptimized(original, old(graph.idCounter), graph.idCounter, old(graph.labelsToBlockId),
                                       graph.labelsToBlockId, |flags|, r.value)
    {
      ghost var start0, labels0, blocks := graph.idCounter, graph.labelsToBlockId, Partition(original);
      var last;
      last, flags, lastStart := RunRounds(original);
      if last.Err? {
        return Err(last.msg), flags, lastStart;
      }
      var optimizedInstructions := graph.EmitInstructions();
      RoundsFinished(original, blocks, start0, labels0, last.value, flags, graph.idCounter, lastStart,
                     graph.labelsToBlockId, optimizedInstructions);
      return Ok(optimizedInstructions), flags, lastStart;
    }

    /** The output block: a fresh block with the input block's name and the emitted instructions. */
    static method NewBlock(name: string, instructions: seq<Instruction>) returns (b: BasicBlock)
      ensures fresh(b) && b.name == name && b.instructions == instructions
    {
      b := new BasicBlock(name);
      b.instructions := instructions;
    }

    /** The output blocks of `optimize`: one fresh block per input block, in order, with that
        block's name and the instructions emitted for it. */
    static method NewBlocks(blocks: seq<BasicBlock>, outputs: seq<seq<Instruction>>) returns (r: seq<BasicBlock>)
      requires |outputs| == |blocks|
      ensures |r| == |blocks|
      ensures forall k :: 0 <= k < |blocks| ==>
                fresh(r[k]) && r[k].name == blocks[k].name && r[k].instructions == outputs[k]
    {
      r := [];
      var k := 0;
      while k < |blocks|
        invariant 0 <= k <= |blocks| && |r| == k
        invariant forall j :: 0 <= j < k ==>
                    fresh(r[j]) && r[j].name == blocks[j].name && r[j].instructions == outputs[j]
      {
        var optimizedBlock := NewBlock(blocks[k].name, outputs[k]);
        r := r + [optimizedBlock];
        k := k + 1;
      }
    }

    /** `optimize`: one output block per input block, in order, with the same name and the
        instructions the block's loop emits. The graph, the folding pass and the copy propagation
        state are shared by all blocks: block `k` runs `rounds[k]` rounds, finding the id counter
        at `counters[k]` and the label index `caches[k]` that the blocks before it left. */
    method Optimize(blocks: seq<BasicBlock>)
      returns (r: Result<seq<BasicBlock>>, ghost rounds: seq<nat>, ghost counters: seq<nat>,
               ghost caches: seq<map<string, int>>)
      requires forall k :: 0 <= k < |blocks| ==> AllFoldDefined(blocks[k].instructions)
      modifies graph, folding, copyPropagation
      ensures r.Ok? ==> |r.value| == |blocks| && |rounds| == |blocks| && |counters| == |caches| == |blocks| + 1
      ensures r.Ok? ==> counters[0] == old(graph.idCounter) && caches[0] == old(graph.labelsToBlockId)
      ensures r.Ok? ==> graph.idCounter == counters[|blocks|] && graph.labelsToBlockId == caches[|blocks|]
      ensures r.Ok? ==> forall k :: 0 <= k < |blocks| ==> fresh(r.value[k]) && r.value[k].name == blocks[k].name
      ensures r.Ok? ==> forall k :: 0 <= k < |blocks| ==>
                BlockOptimized(blocks[k].instructions, counters[k], counters[k + 1], caches[k], caches[k + 1],
                               rounds[k], r.value[k].instructions)
    {
      var outputs: seq<seq<Instruction>> := [];
      ghost var inputs := seq(|blocks|, j requires 0 <= j < |blocks| reads blocks => blocks[j].instructions);
      rounds, counters, caches := [], [graph.idCounter], [graph.labelsToBlockId];
      var k := 0;
      while k < |blocks|
        invariant 0 <= k <= |blocks|
        invariant BlocksOptimized(inputs, counters, caches, rounds, outputs, k)
        invariant counters[0] == old(graph.idCounter) && caches[0] == old(graph.labelsToBlockId)
        invariant graph.idCounter == counters[k] && graph.labelsToBlockId == caches[k]
      {
        var block := blocks[k];
        var optimized, flags, lastStart := OptimizeBlock(block.instructions);
        if optimized.Err? {
          return Err(optimized.msg), rounds, counters, caches;
        }
        BlocksOptimizedSnoc(inputs, counters, caches, rounds, outputs, k, graph.idCounter, graph.labelsToBlockId,
                            |flags|, optimized.value);
        outputs := outputs + [optimized.value];
        rounds := rounds + [|flags|];
        counters := counters + [graph.idCounter];
        caches := caches + [graph.labelsToBlockId];
        k := k + 1;
      }
      var optimizedBlocks := NewBlocks(blocks, outputs);
      return Ok(optimizedBlocks), rounds, counters, caches;
    }
  }
}
