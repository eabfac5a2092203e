/** Control-flow graph over IR instructions (src/flow_graph/flow_graph.hpp): partition into basic
    blocks, numbering between ENTRY and EXIT, the label index and the successor/predecessor edges. */
module FlowGraphs {
  import opened Wrappers
  import opened IR
  import Decimal

  const ENTRY: int := 0
  const EXIT: int := -1

  /** A graph node: its id, its instructions and the ids of its neighbours, in insertion order. */
  datatype Node = Node(id: int, instructions: seq<Instruction>, predecessors: seq<int>, successors: seq<int>)

  function NewNode(id: int, instructions: seq<Instruction>): Node {
    Node(id, instructions, [], [])
  }

  // ---------------------------------------------------------------------------------------------
  // The instruction adapter (`InstructionAdapter<ir_instruction>`)

  predicate IsLabel(i: Instruction) { i.Label? }

  function LabelName(i: Instruction): (r: Result<string>)
    ensures r.Ok? <==> IsLabel(i)
    ensures r.Ok? ==> r.value == i.name
  {
    if i.Label? then Ok(i.name) else Err("Instruction is not label")
  }

  predicate IsConditionalJump(i: Instruction) { i.JumpIfZero? || i.JumpIfNotZero? }

  predicate IsUnconditionalJump(i: Instruction) { i.Jump? }

  function JumpLabel(i: Instruction): (r: Result<string>)
    ensures r.Ok? <==> IsConditionalJump(i) || IsUnconditionalJump(i)
    ensures r.Ok? ==> r.value == i.target
  {
    if i.Jump? || i.JumpIfZero? || i.JumpIfNotZero? then Ok(i.target) else Err("Instruction is not jump")
  }

  /** jump, jump_if_zero and return open a new block; jump_if_not_zero does not. */
  predicate IsBlockStarter(i: Instruction) { i.Jump? || i.JumpIfZero? || i.Return? }

  /** A label closes the block it is appended to. */
  predicate IsBlockTerminator(i: Instruction) { IsLabel(i) }

  predicate IsRet(i: Instruction) { i.Return? }

  lemma AdapterKindsDisjoint(i: Instruction)
    ensures !(IsBlockStarter(i) && IsBlockTerminator(i))
    ensures i.JumpIfNotZero? ==> !IsBlockStarter(i) && !IsBlockTerminator(i)
  {
  }

  // ---------------------------------------------------------------------------------------------
  // Partition into basic blocks (`partition_to_bb`)

  function Flatten(blocks: seq<seq<Instruction>>): seq<Instruction> {
    if blocks == [] then [] else Flatten(blocks[..|blocks| - 1]) + blocks[|blocks| - 1]
  }

  /** The partition's state after some prefix: the finished blocks and the pending block. */
  datatype PartitionState = PartitionState(finished: seq<seq<Instruction>>, current: seq<Instruction>)

  /** One iteration of the partition loop. */
  function PartitionStep(st: PartitionState, x: Instruction): PartitionState {
    if IsBlockStarter(x) then
      PartitionState(if st.current != [] then st.finished + [st.current] else st.finished, [x])
    else if IsBlockTerminator(x) then
      PartitionState(st.finished + [st.current + [x]], [])
    else
      PartitionState(st.finished, st.current + [x])
  }

  function PartitionPrefix(xs: seq<Instruction>, k: nat): PartitionState
    requires k <= |xs|
  {
    if k == 0 then PartitionState([], []) else PartitionStep(PartitionPrefix(xs, k - 1), xs[k - 1])
  }

  /** The blocks `partition_to_bb` returns: the finished blocks and a non-empty pending one. */
  function Partition(xs: seq<Instruction>): seq<seq<Instruction>> {
    var st := PartitionPrefix(xs, |xs|);
    if st.current != [] then st.finished + [st.current] else st.finished
  }

  /** Inside a block, a starter may only come first and a label only last. */
  predicate BlockShaped(b: seq<Instruction>) {
    b != [] &&
    (forall k :: 0 < k < |b| ==> !IsBlockStarter(b[k])) &&
    (forall k :: 0 <= k < |b| - 1 ==> !IsLabel(b[k]))
  }

  /** Between two consecutive blocks there is a reason to cut: the first ends in a label or the
      second starts with a starter. */
  predicate CutJustified(before: seq<Instruction>, after: seq<Instruction>)
    requires before != [] && after != []
  {
    IsLabel(before[|before| - 1]) || IsBlockStarter(after[0])
  }

  /** The block structure the partition promises. */
  predicate WellPartitioned(blocks: seq<seq<Instruction>>) {
    (forall j :: 0 <= j < |blocks| ==> BlockShaped(blocks[j])) &&
    (forall j :: 0 < j < |blocks| ==> CutJustified(blocks[j - 1], blocks[j]))
  }

  predicate EndsInLabel(b: seq<Instruction>) { b != [] && IsLabel(b[|b| - 1]) }

  /** The shape of the partition's state between iterations. */
  predicate StateShaped(st: PartitionState) {
    WellPartitioned(st.finished) &&
    (forall m :: 0 < m < |st.current| ==> !IsBlockStarter(st.current[m])) &&
    (forall m :: 0 <= m < |st.current| ==> !IsLabel(st.current[m])) &&
    (st.current != [] && st.finished != [] ==> CutJustified(st.finished[|st.finished| - 1], st.current)) &&
    (st.current == [] && st.finished != [] ==> EndsInLabel(st.finished[|st.finished| - 1]))
  }

  lemma FlattenAppend(blocks: seq<seq<Instruction>>, b: seq<Instruction>)
    ensures Flatten(blocks + [b]) == Flatten(blocks) + b
  {
    assert (blocks + [b])[..|blocks|] == blocks;
  }

  lemma StepStarterShaped(st: PartitionState, x: Instruction)
    requires StateShaped(st) && IsBlockStarter(x)
    ensures StateShaped(PartitionStep(st, x))
  {
    if st.current != [] {
      var f := st.finished + [st.current];
      assert BlockShaped(st.current);
      forall j | 0 < j < |f| ensures CutJustified(f[j - 1], f[j]) {
        if j < |st.finished| {
          assert f[j - 1] == st.finished[j - 1] && f[j] == st.finished[j];
        }
      }
    }
  }

  lemma StepTerminatorShaped(st: PartitionState, x: Instruction)
    requires StateShaped(st) && IsBlockTerminator(x)
    ensures StateShaped(PartitionStep(st, x))
  {
    var nb := st.current + [x];
    var f := st.finished + [nb];
    assert BlockShaped(nb);
    forall j | 0 < j < |f| ensures CutJustified(f[j - 1], f[j]) {
      if j < |st.finished| {
        assert f[j - 1] == st.finished[j - 1] && f[j] == st.finished[j];
      } else if st.current != [] {
        assert nb[0] == st.current[0];
      }
    }
    assert EndsInLabel(f[|f| - 1]);
  }

  lemma StepPlainShaped(st: PartitionState, x: Instruction)
    requires StateShaped(st) && !IsBlockStarter(x) && !IsBlockTerminator(x)
    ensures StateShaped(PartitionStep(st, x))
  {
    var c := st.current + [x];
    if st.finished != [] && st.current != [] {
      assert c[0] == st.current[0];
    }
  }

  lemma StepFlatten(st: PartitionState, x: Instruction)
    ensures Flatten(PartitionStep(st, x).finished) + PartitionStep(st, x).current == Flatten(st.finished) + st.current + [x]
  {
    if IsBlockStarter(x) {
      if st.current != [] {
        FlattenAppend(st.finished, st.current);
      }
    } else if IsBlockTerminator(x) {
      FlattenAppend(st.finished, st.current + [x]);
    }
  }

  /** One iteration keeps the state shaped and loses no instruction. */
  lemma StepInvariant(st: PartitionState, x: Instruction)
    requires StateShaped(st)
    ensures StateShaped(PartitionStep(st, x))
    ensures Flatten(PartitionStep(st, x).finished) + PartitionStep(st, x).current == Flatten(st.finished) + st.current + [x]
  {
    StepFlatten(st, x);
    if IsBlockStarter(x) {
      StepStarterShaped(st, x);
    } else if IsBlockTerminator(x) {
      StepTerminatorShaped(st, x);
    } else {
      StepPlainShaped(st, x);
    }
  }

  lemma {:induction false} PartitionPrefixInvariant(xs: seq<Instruction>, k: nat)
    requires k <= |xs|
    ensures StateShaped(PartitionPrefix(xs, k))
    ensures Flatten(PartitionPrefix(xs, k).finished) + PartitionPrefix(xs, k).current == xs[..k]
  {
    if k > 0 {
      PartitionPrefixInvariant(xs, k - 1);
      assert xs[..k] == xs[..k - 1] + [xs[k - 1]];
      StepInvariant(PartitionPrefix(xs, k - 1), xs[k - 1]);
    }
  }

  /** `partition_to_bb` loses and invents nothing: its blocks concatenate to the input; every
      block is non-empty; a starter only opens a block, a label only closes one, and every cut is
      made by a label before it or a starter after it. */
  lemma PartitionCorrect(xs: seq<Instruction>)
    ensures Flatten(Partition(xs)) == xs
    ensures WellPartitioned(Partition(xs))
  {
    PartitionPrefixInvariant(xs, |xs|);
    var st := PartitionPrefix(xs, |xs|);
    assert xs[..|xs|] == xs;
    if st.current != [] {
      FlattenAppend(st.finished, st.current);
      var bs := Partition(xs);
      assert bs == st.finished + [st.current];
      assert BlockShaped(st.current);
      forall j | 0 < j < |bs| ensures CutJustified(bs[j - 1], bs[j]) {
        if j < |st.finished| {
          assert bs[j - 1] == st.finished[j - 1] && bs[j] == st.finished[j];
        }
      }
    }
  }

  /** A label heads a block only when it is the whole block, so a label that follows other
      instructions never starts a node. */
  lemma LabelHeadsOnlySingletons(xs: seq<Instruction>, j: nat)
    requires j < |Partition(xs)|
    ensures Partition(xs)[j] != []
    ensures IsLabel(Partition(xs)[j][0]) ==> |Partition(xs)[j]| == 1
  {
    PartitionCorrect(xs);
    assert BlockShaped(Partition(xs)[j]);
  }

  // ---------------------------------------------------------------------------------------------
  // Layout, label index and edges, as functions of the graph's state

  /** ENTRY, then one node per block numbered `start + 1, start + 2, ...`, then EXIT. */
  function Layout(start: int, blocks: seq<seq<Instruction>>): (ns: seq<Node>)
    ensures |ns| == |blocks| + 2
    ensures ns[0] == NewNode(ENTRY, []) && ns[|ns| - 1] == NewNode(EXIT, [])
    ensures forall k :: 0 <= k < |blocks| ==> ns[k + 1] == NewNode(start + k + 1, blocks[k])
  {
    [NewNode(ENTRY, [])] + seq(|blocks|, k requires 0 <= k < |blocks| => NewNode(start + k + 1, blocks[k])) + [NewNode(EXIT, [])]
  }

  lemma LayoutNonEmpty(start: int, xs: seq<Instruction>)
    ensures RealNodesNonEmpty(Layout(start, Partition(xs)))
  {
    var blocks := Partition(xs);
    var ns := Layout(start, blocks);
    PartitionCorrect(xs);
    forall j | 0 <= j < |ns| && IsReal(ns[j]) ensures ns[j].instructions != [] {
      assert BlockShaped(blocks[j - 1]);
    }
  }

  function Instructions(ns: seq<Node>): seq<Instruction> {
    if ns == [] then [] else Instructions(ns[..|ns| - 1]) + ns[|ns| - 1].instructions
  }

  lemma {:induction false} LayoutInstructions(start: int, blocks: seq<seq<Instruction>>, j: nat)
    requires j <= |blocks|
    ensures Instructions(Layout(start, blocks)[..j + 1]) == Flatten(blocks[..j])
  {
    var ns := Layout(start, blocks);
    if j == 0 {
      assert ns[..1] == [ns[0]];
      assert Instructions(ns[..1]) == Instructions([]) + ns[0].instructions;
    } else {
      LayoutInstructions(start, blocks, j - 1);
      assert ns[..j + 1][..j] == ns[..j];
      assert blocks[..j][..j - 1] == blocks[..j - 1];
    }
  }

  /** Concatenating the nodes of a layout gives back the concatenated blocks. */
  lemma LayoutFlattens(start: int, blocks: seq<seq<Instruction>>)
    ensures Instructions(Layout(start, blocks)) == Flatten(blocks)
  {
    var ns := Layout(start, blocks);
    LayoutInstructions(start, blocks, |blocks|);
    assert blocks[..|blocks|] == blocks;
    assert ns[..|ns|] == ns;
    assert ns[..|blocks| + 2][..|blocks| + 1] == ns[..|blocks| + 1];
  }

  /** The label a node's first instruction defines, if any (`build_label_cache` looks at no other). */
  function HeadLabel(n: Node): Option<string> {
    if n.instructions != [] && IsLabel(n.instructions[0]) then Some(n.instructions[0].name) else None
  }

  /** The label index after `build_label_cache` over `ns`, starting from the index `m`. */
  function LabelCache(ns: seq<Node>, m: map<string, int>): map<string, int> {
    if ns == [] then m
    else
      var m' := LabelCache(ns[..|ns| - 1], m);
      var n := ns[|ns| - 1];
      if HeadLabel(n).Some? then m'[HeadLabel(n).value := n.id] else m'
  }

  /** The index of the last node defining `name` by its first instruction, or -1. */
  function LastDefining(ns: seq<Node>, name: string): (r: int)
    ensures -1 <= r < |ns|
    ensures r >= 0 ==> HeadLabel(ns[r]) == Some(name)
    ensures forall k :: r < k < |ns| ==> HeadLabel(ns[k]) != Some(name)
  {
    if ns == [] then -1
    else if HeadLabel(ns[|ns| - 1]) == Some(name) then |ns| - 1
    else LastDefining(ns[..|ns| - 1], name)
  }

  /** The label index maps a name to the last node that starts with that label, and keeps the
      entries of earlier graphs for every other name. */
  lemma {:induction false} LabelCacheLookup(ns: seq<Node>, m: map<string, int>, name: string)
    ensures LastDefining(ns, name) >= 0 ==>
              name in LabelCache(ns, m) && LabelCache(ns, m)[name] == ns[LastDefining(ns, name)].id
    ensures LastDefining(ns, name) < 0 ==>
              (name in LabelCache(ns, m) <==> name in m) &&
              (name in m ==> LabelCache(ns, m)[name] == m[name])
  {
    if ns != [] {
      LabelCacheLookup(ns[..|ns| - 1], m, name);
      if HeadLabel(ns[|ns| - 1]) != Some(name) {
        var r := LastDefining(ns[..|ns| - 1], name);
        assert r >= 0 ==> ns[..|ns| - 1][r] == ns[r];
      }
    }
  }

  /** The fall-through successor: the next id, or EXIT after the block numbered `idCounter`. */
  function NextId(id: int, idCounter: int): int {
    if id == idCounter then EXIT else id + 1
  }

  function LookupLabel(labels: map<string, int>, name: string): (r: Result<int>)
    ensures r.Ok? <==> name in labels
    ensures r.Ok? ==> r.value == labels[name]
  {
    if name in labels then Ok(labels[name]) else Err("Label not found: " + name)
  }

  /** The successors `add_all_edges` gives a real node, decided by its last instruction. */
  function NodeTargets(n: Node, idCounter: int, labels: map<string, int>): Result<seq<int>>
    requires n.instructions != []
  {
    var last := n.instructions[|n.instructions| - 1];
    var next := NextId(n.id, idCounter);
    if IsRet(last) then Ok([EXIT])
    else if IsUnconditionalJump(last) then
      var t :- LookupLabel(labels, last.target); Ok([t])
    else if IsConditionalJump(last) then
      var t :- LookupLabel(labels, last.target); Ok([t, next])
    else Ok([next])
  }

  predicate IsReal(n: Node) { n.id != ENTRY && n.id != EXIT }

  predicate RealNodesNonEmpty(ns: seq<Node>) {
    forall k :: 0 <= k < |ns| && IsReal(ns[k]) ==> ns[k].instructions != []
  }

  function Pairs(src: int, targets: seq<int>): (es: seq<(int, int)>)
    ensures |es| == |targets|
    ensures forall k :: 0 <= k < |es| ==> es[k] == (src, targets[k])
  {
    seq(|targets|, k requires 0 <= k < |targets| => (src, targets[k]))
  }

  /** The edges of the real nodes among `ns`, in the order `add_all_edges` adds them. */
  /** The edges `add_all_edges` adds for one node: none for ENTRY and EXIT. */
  function EdgesOfNode(n: Node, idCounter: int, labels: map<string, int>): Result<seq<(int, int)>>
    requires IsReal(n) ==> n.instructions != []
  {
    if !IsReal(n) then Ok([])
    else
      var ts :- NodeTargets(n, idCounter, labels);
      Ok(Pairs(n.id, ts))
  }

  lemma EdgesIgnoreNeighbours(a: Node, b: Node, idCounter: int, labels: map<string, int>)
    requires a.id == b.id && a.instructions == b.instructions
    requires IsReal(a) ==> a.instructions != []
    ensures EdgesOfNode(a, idCounter, labels) == EdgesOfNode(b, idCounter, labels)
  {
  }

  /** The edges of the first `k` nodes, in the order `add_all_edges` adds them. */
  function NodeEdgesUpTo(ns: seq<Node>, k: nat, idCounter: int, labels: map<string, int>): Result<seq<(int, int)>>
    requires k <= |ns| && RealNodesNonEmpty(ns)
  {
    if k == 0 then Ok([])
    else
      var init :- NodeEdgesUpTo(ns, k - 1, idCounter, labels);
      var e :- EdgesOfNode(ns[k - 1], idCounter, labels);
      Ok(init + e)
  }

  /** One turn of the edge loop: the node's edges join those of the nodes before it, and adding
      them to the graph is adding the longer list. */
  lemma NodeEdgesStep(ns: seq<Node>, es0: seq<(int, int)>, es: seq<(int, int)>, k: nat, idCounter: int,
                      labels: map<string, int>)
    requires k < |ns| && RealNodesNonEmpty(ns)
    requires NodeEdgesUpTo(ns, k, idCounter, labels).Ok? && EdgesOfNode(ns[k], idCounter, labels).Ok?
    requires es == es0 + NodeEdgesUpTo(ns, k, idCounter, labels).value
    ensures NodeEdgesUpTo(ns, k + 1, idCounter, labels).Ok?
    ensures es + EdgesOfNode(ns[k], idCounter, labels).value == es0 + NodeEdgesUpTo(ns, k + 1, idCounter, labels).value
    ensures WithEdges(WithEdges(ns, es), EdgesOfNode(ns[k], idCounter, labels).value) ==
            WithEdges(ns, es + EdgesOfNode(ns[k], idCounter, labels).value)
  {
    var before := NodeEdgesUpTo(ns, k, idCounter, labels).value;
    var added := EdgesOfNode(ns[k], idCounter, labels).value;
    assert NodeEdgesUpTo(ns, k + 1, idCounter, labels) == Ok(before + added);
    ConcatAssoc(es0, before, added);
    WithEdgesConcat(ns, es, added);
  }

  function NodeEdges(ns: seq<Node>, idCounter: int, labels: map<string, int>): Result<seq<(int, int)>>
    requires RealNodesNonEmpty(ns)
  {
    NodeEdgesUpTo(ns, |ns|, idCounter, labels)
  }

  /** All edges: ENTRY to the id 1 first (whatever the first block's id), then the nodes' edges. */
  function AllEdges(ns: seq<Node>, idCounter: int, labels: map<string, int>): Result<seq<(int, int)>>
    requires RealNodesNonEmpty(ns)
  {
    var es :- NodeEdges(ns, idCounter, labels);
    Ok([(ENTRY, 1)] + es)
  }

  /** `add_edge` on one node: it gains `end` as successor if it is the start, and `start` as
      predecessor if it is the end. */
  function NodeWithEdge(n: Node, start: int, end: int): Node {
    n.(successors := if n.id == start then n.successors + [end] else n.successors,
       predecessors := if n.id == end then n.predecessors + [start] else n.predecessors)
  }

  function WithEdge(ns: seq<Node>, start: int, end: int): (r: seq<Node>)
    ensures |r| == |ns|
    ensures forall k :: 0 <= k < |ns| ==> r[k] == NodeWithEdge(ns[k], start, end)
  {
    seq(|ns|, k requires 0 <= k < |ns| => NodeWithEdge(ns[k], start, end))
  }

  function WithEdges(ns: seq<Node>, es: seq<(int, int)>): (r: seq<Node>)
    ensures |r| == |ns|
  {
    if es == [] then ns else var last := es[|es| - 1]; WithEdge(WithEdges(ns, es[..|es| - 1]), last.0, last.1)
  }

  lemma ConcatAssoc<T>(a: seq<T>, b: seq<T>, c: seq<T>)
    ensures (a + b) + c == a + (b + c)
  {
  }

  lemma {:induction false} WithEdgesConcat(ns: seq<Node>, a: seq<(int, int)>, b: seq<(int, int)>)
    ensures WithEdges(WithEdges(ns, a), b) == WithEdges(ns, a + b)
  {
    if b == [] {
      assert a + b == a;
    } else {
      WithEdgesConcat(ns, a, b[..|b| - 1]);
      assert (a + b)[..|a + b| - 1] == a + b[..|b| - 1];
    }
  }

  /** The ends of the edges leaving `id`, in order. */
  function TargetsOf(es: seq<(int, int)>, id: int): seq<int> {
    if es == [] then []
    else TargetsOf(es[..|es| - 1], id) + (if es[|es| - 1].0 == id then [es[|es| - 1].1] else [])
  }

  /** The starts of the edges entering `id`, in order. */
  function SourcesOf(es: seq<(int, int)>, id: int): seq<int> {
    if es == [] then []
    else SourcesOf(es[..|es| - 1], id) + (if es[|es| - 1].1 == id then [es[|es| - 1].0] else [])
  }

  /** Adding a list of edges appends to each node exactly the ends of the edges leaving it and the
      starts of the edges entering it; ids and instructions stay. */
  lemma {:induction false} WithEdgesLists(ns: seq<Node>, es: seq<(int, int)>, k: nat)
    requires k < |ns|
    ensures |WithEdges(ns, es)| == |ns|
    ensures WithEdges(ns, es)[k].id == ns[k].id
    ensures WithEdges(ns, es)[k].instructions == ns[k].instructions
    ensures WithEdges(ns, es)[k].successors == ns[k].successors + TargetsOf(es, ns[k].id)
    ensures WithEdges(ns, es)[k].predecessors == ns[k].predecessors + SourcesOf(es, ns[k].id)
  {
    if es != [] {
      WithEdgesLists(ns, es[..|es| - 1], k);
    }
  }

  /** The same nodes, up to their neighbour lists. */
  predicate SameNodes(a: seq<Node>, b: seq<Node>) {
    |a| == |b| && forall k :: 0 <= k < |a| ==> a[k].id == b[k].id && a[k].instructions == b[k].instructions
  }

  lemma WithEdgesKeepNodes(ns: seq<Node>, es: seq<(int, int)>)
    ensures SameNodes(WithEdges(ns, es), ns)
  {
    forall k | 0 <= k < |ns|
      ensures WithEdges(ns, es)[k].id == ns[k].id && WithEdges(ns, es)[k].instructions == ns[k].instructions
    {
      WithEdgesLists(ns, es, k);
    }
  }

  lemma {:induction false} TargetsSources(es: seq<(int, int)>, a: int, b: int)
    ensures b in TargetsOf(es, a) <==> (a, b) in es
    ensures a in SourcesOf(es, b) <==> (a, b) in es
  {
    if es != [] {
      TargetsSources(es[..|es| - 1], a, b);
      assert es == es[..|es| - 1] + [es[|es| - 1]];
    }
  }

  /** Edges added to nodes that had none are symmetric between nodes that exist: `b` is a
      successor of `a` exactly when `a` is a predecessor of `b`. */
  lemma EdgesSymmetric(ns: seq<Node>, es: seq<(int, int)>, i: nat, j: nat)
    requires i < |ns| && j < |ns|
    requires forall k :: 0 <= k < |ns| ==> ns[k].successors == [] && ns[k].predecessors == []
    ensures ns[j].id in WithEdges(ns, es)[i].successors <==> ns[i].id in WithEdges(ns, es)[j].predecessors
  {
    WithEdgesLists(ns, es, i);
    WithEdgesLists(ns, es, j);
    TargetsSources(es, ns[i].id, ns[j].id);
  }

  /** Ids are pairwise distinct. */
  predicate DistinctIds(ns: seq<Node>) {
    forall a, b :: 0 <= a < b < |ns| ==> ns[a].id != ns[b].id
  }

  /** The index of the first node with the given id, or -1 when there is none. */
  function IndexOf(ns: seq<Node>, id: int): (r: int)
    ensures -1 <= r < |ns|
    ensures r >= 0 ==> ns[r].id == id && forall k :: 0 <= k < r ==> ns[k].id != id
    ensures r < 0 ==> forall k :: 0 <= k < |ns| ==> ns[k].id != id
  {
    if ns == [] then -1
    else if ns[0].id == id then 0
    else var r := IndexOf(ns[1..], id); if r < 0 then -1 else r + 1
  }

  predicate HasId(ns: seq<Node>, id: int) { exists k :: 0 <= k < |ns| && ns[k].id == id }

  /** The nodes left after `std::erase` of every node equal (by id) to one with `id`. */
  function RemoveId(ns: seq<Node>, id: int): (r: seq<Node>)
    ensures forall n :: n in r <==> n in ns && n.id != id
    ensures |r| <= |ns|
  {
    if ns == [] then []
    else (if ns[0].id == id then [] else [ns[0]]) + RemoveId(ns[1..], id)
  }

  // ---------------------------------------------------------------------------------------------
  // Properties of the edges

  function LastInstruction(n: Node): Instruction
    requires n.instructions != []
  {
    n.instructions[|n.instructions| - 1]
  }

  predicate EndsInJump(n: Node) {
    n.instructions != [] && (IsUnconditionalJump(LastInstruction(n)) || IsConditionalJump(LastInstruction(n)))
  }

  /** Every jump that ends a real node among the first `m` targets an indexed label. */
  predicate JumpTargetsIndexed(ns: seq<Node>, m: nat, labels: map<string, int>)
    requires m <= |ns|
  {
    forall k :: 0 <= k < m && IsReal(ns[k]) && EndsInJump(ns[k]) ==> LastInstruction(ns[k]).target in labels
  }

  lemma EdgesOfNodeOk(n: Node, idCounter: int, labels: map<string, int>)
    requires IsReal(n) ==> n.instructions != []
    ensures EdgesOfNode(n, idCounter, labels).Ok? <==>
              !(IsReal(n) && EndsInJump(n) && LastInstruction(n).target !in labels)
  {
  }

  lemma {:induction false} NodeEdgesUpToOk(ns: seq<Node>, m: nat, idCounter: int, labels: map<string, int>)
    requires m <= |ns| && RealNodesNonEmpty(ns)
    ensures NodeEdgesUpTo(ns, m, idCounter, labels).Ok? <==> JumpTargetsIndexed(ns, m, labels)
  {
    if m > 0 {
      NodeEdgesUpToOk(ns, m - 1, idCounter, labels);
      EdgesOfNodeOk(ns[m - 1], idCounter, labels);
    }
  }

  /** Wiring the edges fails exactly when some real node ends in a jump to a label that is not
      indexed. */
  lemma AllEdgesOk(ns: seq<Node>, idCounter: int, labels: map<string, int>)
    requires RealNodesNonEmpty(ns)
    ensures AllEdges(ns, idCounter, labels).Ok? <==> JumpTargetsIndexed(ns, |ns|, labels)
  {
    NodeEdgesUpToOk(ns, |ns|, idCounter, labels);
  }

  /** A jump to a label that no earlier graph indexed and that starts no node of the new layout
      makes `generate_flowgraph` fail with "Label not found". */
  lemma UnindexedLabelFails(start: int, xs: seq<Instruction>, previous: map<string, int>, idCounter: int, k: nat)
    requires k < |Layout(start, Partition(xs))|
    requires var n := Layout(start, Partition(xs))[k];
             IsReal(n) && EndsInJump(n) && LastInstruction(n).target !in previous &&
             forall j :: 0 <= j < |Layout(start, Partition(xs))| ==> HeadLabel(Layout(start, Partition(xs))[j]) != Some(LastInstruction(n).target)
    ensures RealNodesNonEmpty(Layout(start, Partition(xs)))
    ensures AllEdges(Layout(start, Partition(xs)), idCounter, LabelCache(Layout(start, Partition(xs)), previous)).Err?
  {
    var ns := Layout(start, Partition(xs));
    var name := LastInstruction(ns[k]).target;
    LayoutNonEmpty(start, xs);
    LabelCacheLookup(ns, previous, name);
    AllEdgesOk(ns, idCounter, LabelCache(ns, previous));
  }

  /** Every edge added for the nodes starts at a real node. */
  lemma {:induction false} NodeEdgesSources(ns: seq<Node>, m: nat, idCounter: int, labels: map<string, int>)
    requires m <= |ns| && RealNodesNonEmpty(ns) && NodeEdgesUpTo(ns, m, idCounter, labels).Ok?
    ensures forall e :: e in NodeEdgesUpTo(ns, m, idCounter, labels).value ==> e.0 != ENTRY && e.0 != EXIT
  {
    if m > 0 {
      NodeEdgesSources(ns, m - 1, idCounter, labels);
    }
  }

  lemma {:induction false} TargetsOfNone(es: seq<(int, int)>, id: int)
    requires forall e :: e in es ==> e.0 != id
    ensures TargetsOf(es, id) == []
  {
    if es != [] {
      TargetsOfNone(es[..|es| - 1], id);
    }
  }

  lemma {:induction false} TargetsOfConcat(a: seq<(int, int)>, b: seq<(int, int)>, id: int)
    ensures TargetsOf(a + b, id) == TargetsOf(a, id) + TargetsOf(b, id)
  {
    if b == [] {
      assert a + b == a;
    } else {
      TargetsOfConcat(a, b[..|b| - 1], id);
      assert (a + b)[..|a + b| - 1] == a + b[..|b| - 1];
    }
  }

  /** ENTRY's only out-edge goes to the id 1 and EXIT has none. */
  lemma EntryExitEdges(ns: seq<Node>, idCounter: int, labels: map<string, int>)
    requires RealNodesNonEmpty(ns) && AllEdges(ns, idCounter, labels).Ok?
    ensures TargetsOf(AllEdges(ns, idCounter, labels).value, ENTRY) == [1]
    ensures TargetsOf(AllEdges(ns, idCounter, labels).value, EXIT) == []
  {
    var es := NodeEdges(ns, idCounter, labels).value;
    NodeEdgesSources(ns, |ns|, idCounter, labels);
    TargetsOfNone(es, ENTRY);
    TargetsOfNone(es, EXIT);
    TargetsOfConcat([(ENTRY, 1)], es, ENTRY);
    TargetsOfConcat([(ENTRY, 1)], es, EXIT);
    assert TargetsOf([(ENTRY, 1)], ENTRY) == TargetsOf([], ENTRY) + [1];
  }

  lemma PairsTargets(src: int, ts: seq<int>, id: int)
    ensures TargetsOf(Pairs(src, ts), id) == if src == id then ts else []
    decreases |ts|
  {
    var ps := Pairs(src, ts);
    if ts != [] {
      assert ps[..|ps| - 1] == Pairs(src, ts[..|ts| - 1]);
      PairsTargets(src, ts[..|ts| - 1], id);
      if src == id {
        assert ts == ts[..|ts| - 1] + [ts[|ts| - 1]];
      }
    }
  }

  /** With distinct ids, the edges leaving the id of the node at `k` are exactly that node's
      targets, once the first `m > k` nodes are wired. */
  lemma {:induction false} NodeEdgesTargets(ns: seq<Node>, m: nat, k: nat, idCounter: int, labels: map<string, int>)
    requires k < m <= |ns| && RealNodesNonEmpty(ns) && DistinctIds(ns) && IsReal(ns[k])
    requires NodeEdgesUpTo(ns, m, idCounter, labels).Ok?
    ensures NodeTargets(ns[k], idCounter, labels).Ok?
    ensures TargetsOf(NodeEdgesUpTo(ns, m, idCounter, labels).value, ns[k].id) == NodeTargets(ns[k], idCounter, labels).value
  {
    var init := NodeEdgesUpTo(ns, m - 1, idCounter, labels).value;
    var e := EdgesOfNode(ns[m - 1], idCounter, labels).value;
    TargetsOfConcat(init, e, ns[k].id);
    if IsReal(ns[m - 1]) {
      PairsTargets(ns[m - 1].id, NodeTargets(ns[m - 1], idCounter, labels).value, ns[k].id);
    }
    if k == m - 1 {
      NodeEdgesSources(ns, m - 1, idCounter, labels);
      NodeEdgesFromOthers(ns, m - 1, k, idCounter, labels);
      TargetsOfNone(init, ns[k].id);
    } else {
      NodeEdgesTargets(ns, m - 1, k, idCounter, labels);
    }
  }

  /** The edges of the first `m` nodes start at one of those nodes. */
  lemma {:induction false} NodeEdgesFromOthers(ns: seq<Node>, m: nat, k: nat, idCounter: int, labels: map<string, int>)
    requires m <= k < |ns| && RealNodesNonEmpty(ns) && DistinctIds(ns)
    requires NodeEdgesUpTo(ns, m, idCounter, labels).Ok?
    ensures forall e :: e in NodeEdgesUpTo(ns, m, idCounter, labels).value ==> e.0 != ns[k].id
  {
    if m > 0 {
      NodeEdgesFromOthers(ns, m - 1, k, idCounter, labels);
    }
  }

  /** The edge rules: with distinct ids, a real node's successors after wiring are exactly the
      targets its last instruction selects (EXIT after a return; the label's node after a jump;
      the label's node and then the next id after a conditional jump; otherwise the next id). */
  lemma EdgeRules(ns: seq<Node>, k: nat, idCounter: int, labels: map<string, int>)
    requires k < |ns| && RealNodesNonEmpty(ns) && DistinctIds(ns) && IsReal(ns[k])
    requires forall j :: 0 <= j < |ns| ==> ns[j].successors == [] && ns[j].predecessors == []
    requires AllEdges(ns, idCounter, labels).Ok?
    ensures NodeTargets(ns[k], idCounter, labels).Ok?
    ensures WithEdges(ns, AllEdges(ns, idCounter, labels).value)[k].successors == NodeTargets(ns[k], idCounter, labels).value
  {
    var es := NodeEdges(ns, idCounter, labels).value;
    NodeEdgesTargets(ns, |ns|, k, idCounter, labels);
    TargetsOfConcat([(ENTRY, 1)], es, ns[k].id);
    assert TargetsOf([(ENTRY, 1)], ns[k].id) == TargetsOf([], ns[k].id) + [];
    WithEdgesLists(ns, AllEdges(ns, idCounter, labels).value, k);
  }

  /** A layout numbered from a non-negative counter has distinct ids. */
  lemma LayoutDistinct(start: nat, blocks: seq<seq<Instruction>>)
    ensures DistinctIds(Layout(start, blocks))
  {
  }

  /** Every edge added for the first `m` nodes starts at one of those nodes, and a real one. */
  lemma {:induction false} NodeEdgesFromNodes(ns: seq<Node>, m: nat, idCounter: int, labels: map<string, int>)
    requires m <= |ns| && RealNodesNonEmpty(ns) && NodeEdgesUpTo(ns, m, idCounter, labels).Ok?
    ensures forall e :: e in NodeEdgesUpTo(ns, m, idCounter, labels).value ==>
              exists i :: 0 <= i < m && IsReal(ns[i]) && ns[i].id == e.0
  {
    if m > 0 {
      NodeEdgesFromNodes(ns, m - 1, idCounter, labels);
      var init := NodeEdgesUpTo(ns, m - 1, idCounter, labels).value;
      var added := EdgesOfNode(ns[m - 1], idCounter, labels).value;
      forall e: (int, int) | e in init + added
        ensures exists i :: 0 <= i < m && IsReal(ns[i]) && ns[i].id == e.0
      {
        if e !in init {
          var k :| 0 <= k < |added| && added[k] == e;
          assert IsReal(ns[m - 1]) && ns[m - 1].id == e.0;
        }
      }
    }
  }

  /** Two layouts of the same blocks index the same labels at the same positions. */
  lemma {:induction false} LastDefiningSameBlocks(a: seq<Node>, b: seq<Node>, name: string)
    requires |a| == |b| && forall k :: 0 <= k < |a| ==> a[k].instructions == b[k].instructions
    ensures LastDefining(a, name) == LastDefining(b, name)
  {
    if a != [] {
      LastDefiningSameBlocks(a[..|a| - 1], b[..|b| - 1], name);
    }
  }

  /** Rebuilding the graph of the same instructions re-indexes every label it defines, so the
      index left by an earlier build of those instructions is entirely overwritten: the index
      after the second build is the one the second build makes from the index before the first. */
  lemma LabelCacheOverwrite(first: int, second: int, blocks: seq<seq<Instruction>>, m: map<string, int>)
    ensures LabelCache(Layout(second, blocks), LabelCache(Layout(first, blocks), m)) ==
            LabelCache(Layout(second, blocks), m)
  {
    var a := Layout(first, blocks);
    var b := Layout(second, blocks);
    var lhs := LabelCache(b, LabelCache(a, m));
    var rhs := LabelCache(b, m);
    forall name
      ensures (name in lhs <==> name in rhs) && (name in lhs ==> lhs[name] == rhs[name])
    {
      LastDefiningSameBlocks(a, b, name);
      LabelCacheLookup(b, LabelCache(a, m), name);
      LabelCacheLookup(b, m, name);
      LabelCacheLookup(a, m, name);
    }
  }

  // ---------------------------------------------------------------------------------------------
  // The edge from ENTRY

  /** The id of the first laid-out block, or EXIT when there is none. */
  function FirstId(ns: seq<Node>): int {
    if |ns| > 2 then ns[1].id else EXIT
  }

  /** `add_all_edges` with ENTRY wired to the first laid-out block (or to EXIT when there are no
      blocks) instead of the fixed id 1. */
  function CorrectedAllEdges(ns: seq<Node>, idCounter: int, labels: map<string, int>): Result<seq<(int, int)>>
    requires RealNodesNonEmpty(ns)
  {
    var es :- NodeEdges(ns, idCounter, labels);
    Ok([(ENTRY, FirstId(ns))] + es)
  }

  /** `nodes` is the graph `generate_flowgraph` builds from `xs` when the id counter stands at
      `start`: the laid-out blocks with every edge added, jumps resolved against the label index
      `cache` the build leaves behind. */
  predicate BuiltFrom(xs: seq<Instruction>, start: nat, cache: map<string, int>, nodes: seq<Node>) {
    var blocks := Partition(xs);
    var layout := Layout(start, blocks);
    RealNodesNonEmpty(layout) && AllEdges(layout, start + |blocks|, cache).Ok? &&
    nodes == WithEdges(layout, AllEdges(layout, start + |blocks|, cache).value)
  }

  /** The graph built with the id counter ending at `counter` is the one `BuiltFrom` describes. */
  lemma BuiltWithCounter(xs: seq<Instruction>, start: nat, cache: map<string, int>, nodes: seq<Node>, counter: nat)
    requires counter == start + |Partition(xs)|
    requires var layout := Layout(start, Partition(xs));
             RealNodesNonEmpty(layout) && AllEdges(layout, counter, cache).Ok? &&
             nodes == WithEdges(layout, AllEdges(layout, counter, cache).value)
    ensures BuiltFrom(xs, start, cache, nodes)
  {
  }

  /** The same graph wired with the corrected edge from ENTRY. */
  predicate CorrectedBuiltFrom(xs: seq<Instruction>, start: nat, cache: map<string, int>, nodes: seq<Node>) {
    var blocks := Partition(xs);
    var layout := Layout(start, blocks);
    RealNodesNonEmpty(layout) && CorrectedAllEdges(layout, start + |blocks|, cache).Ok? &&
    nodes == WithEdges(layout, CorrectedAllEdges(layout, start + |blocks|, cache).value)
  }

  /** A layout numbered from a counter past 0 has no node numbered 1, and its nodes have no
      edges yet. */
  lemma LayoutPastOne(start: nat, blocks: seq<seq<Instruction>>)
    requires 0 < start
    ensures forall j :: 0 <= j < |Layout(start, blocks)| ==> Layout(start, blocks)[j].id != 1
    ensures forall j :: 0 <= j < |Layout(start, blocks)| ==>
              Layout(start, blocks)[j].successors == [] && Layout(start, blocks)[j].predecessors == []
  {
    var ns := Layout(start, blocks);
    forall j | 0 < j < |ns| - 1
      ensures ns[j] == NewNode(start + (j - 1) + 1, blocks[j - 1])
    {
    }
  }

  /** As written, when no node is numbered 1 the only edge from ENTRY leads nowhere, so no block
      has ENTRY as a predecessor. */
  lemma EntryEdgeAsWritten(ns: seq<Node>, idCounter: int, labels: map<string, int>)
    requires RealNodesNonEmpty(ns) && AllEdges(ns, idCounter, labels).Ok?
    requires forall j :: 0 <= j < |ns| ==> ns[j].id != 1 && ns[j].predecessors == []
    ensures TargetsOf(AllEdges(ns, idCounter, labels).value, ENTRY) == [1]
    ensures forall j :: 0 <= j < |ns| ==> ENTRY !in WithEdges(ns, AllEdges(ns, idCounter, labels).value)[j].predecessors
  {
    var all := AllEdges(ns, idCounter, labels).value;
    EntryExitEdges(ns, idCounter, labels);
    NodeEdgesSources(ns, |ns|, idCounter, labels);
    forall j | 0 <= j < |ns|
      ensures ENTRY !in WithEdges(ns, all)[j].predecessors
    {
      WithEdgesLists(ns, all, j);
      TargetsSources(all, ENTRY, ns[j].id);
      assert (ENTRY, ns[j].id) !in all[1..];
    }
  }

  /** With the corrected edge, ENTRY's only successor is the first block, whose predecessor
      list starts with ENTRY; every other edge is one `add_all_edges` adds. */
  lemma CorrectedEntryEdge(ns: seq<Node>, idCounter: int, labels: map<string, int>)
    requires RealNodesNonEmpty(ns) && CorrectedAllEdges(ns, idCounter, labels).Ok? && |ns| > 2
    requires forall j :: 0 <= j < |ns| ==> ns[j].successors == [] && ns[j].predecessors == []
    requires ns[0].id == ENTRY && ns[1].id != ENTRY
    ensures AllEdges(ns, idCounter, labels).Ok?
    ensures CorrectedAllEdges(ns, idCounter, labels).value[1..] == AllEdges(ns, idCounter, labels).value[1..]
    ensures WithEdges(ns, CorrectedAllEdges(ns, idCounter, labels).value)[0].successors == [ns[1].id]
    ensures var preds := WithEdges(ns, CorrectedAllEdges(ns, idCounter, labels).value)[1].predecessors;
            preds != [] && preds[0] == ENTRY
  {
    var es := NodeEdges(ns, idCounter, labels).value;
    var first := ns[1].id;
    var all := [(ENTRY, first)] + es;
    NodeEdgesSources(ns, |ns|, idCounter, labels);
    TargetsOfNone(es, ENTRY);
    TargetsOfConcat([(ENTRY, first)], es, ENTRY);
    assert TargetsOf([(ENTRY, first)], ENTRY) == TargetsOf([], ENTRY) + [first];
    SourcesOfConcat([(ENTRY, first)], es, first);
    assert SourcesOf([(ENTRY, first)], first) == SourcesOf([], first) + [ENTRY];
    WithEdgesLists(ns, all, 0);
    WithEdgesLists(ns, all, 1);
  }

  lemma {:induction false} SourcesOfConcat(a: seq<(int, int)>, b: seq<(int, int)>, id: int)
    ensures SourcesOf(a + b, id) == SourcesOf(a, id) + SourcesOf(b, id)
  {
    if b == [] {
      assert a + b == a;
    } else {
      SourcesOfConcat(a, b[..|b| - 1], id);
      assert (a + b)[..|a + b| - 1] == a + b[..|b| - 1];
    }
  }

  lemma SameNodesInstructions(a: seq<Node>, b: seq<Node>)
    requires SameNodes(a, b)
    ensures Instructions(a) == Instructions(b)
    decreases |a|
  {
    if a != [] {
      assert SameNodes(a[..|a| - 1], b[..|b| - 1]);
      SameNodesInstructions(a[..|a| - 1], b[..|b| - 1]);
    }
  }

  // ---------------------------------------------------------------------------------------------
  // The graph object

  class FlowGraph {
    var nodes: seq<Node>
    var idCounter: nat
    var labelsToBlockId: map<string, int>

    constructor ()
      ensures nodes == [] && idCounter == 0 && labelsToBlockId == map[]
    {
      nodes := [];
      idCounter := 0;
      labelsToBlockId := map[];
    }

    /** `generate_flowgraph`. The id counter and the label index are not reset; the graph is rebuilt.
        A failed label lookup leaves the nodes laid out with only some of their edges. */
    method GenerateFlowgraph(instructions: seq<Instruction>) returns (r: Result<()>)
      modifies this
      ensures idCounter == old(idCounter) + |Partition(instructions)|
      ensures var layout := Layout(old(idCounter), Partition(instructions));
              labelsToBlockId == LabelCache(layout, old(labelsToBlockId)) &&
              RealNodesNonEmpty(layout) &&
              (r.Ok? <==> AllEdges(layout, idCounter, labelsToBlockId).Ok?) &&
              (r.Ok? ==> nodes == WithEdges(layout, AllEdges(layout, idCounter, labelsToBlockId).value)) &&
              (r.Err? ==> SameNodes(nodes, layout) && Instructions(nodes) == instructions)
      ensures r.Ok? ==> BuiltFrom(instructions, old(idCounter), labelsToBlockId, nodes)
    {
      var blocks := PartitionToBasicBlocks(instructions);
      ghost var start := idCounter;
      LayoutNonEmpty(start, instructions);
      LayOutNodes(blocks);
      BuildLabelCache();
      r := AddAllEdges();
      SameNodesInstructions(nodes, Layout(start, blocks));
      LayoutFlattens(start, blocks);
      PartitionCorrect(instructions);
      if r.Ok? {
        BuiltWithCounter(instructions, start, labelsToBlockId, nodes, idCounter);
      }
    }

    /** The numbering loop of `generate_flowgraph`: ENTRY, one node per block with the next id,
        then EXIT. */
    method LayOutNodes(blocks: seq<seq<Instruction>>)
      modifies this`nodes, this`idCounter
      ensures idCounter == old(idCounter) + |blocks|
      ensures nodes == Layout(old(idCounter), blocks)
    {
      ghost var layout := Layout(idCounter, blocks);
      nodes := [NewNode(ENTRY, [])];
      var k := 0;
      while k < |blocks|
        invariant 0 <= k <= |blocks|
        invariant idCounter == old(idCounter) + k
        invariant |nodes| == k + 1
        invariant forall j :: 0 <= j <= k ==> nodes[j] == layout[j]
      {
        idCounter := idCounter + 1;
        nodes := nodes + [NewNode(idCounter, blocks[k])];
        k := k + 1;
      }
      nodes := nodes + [NewNode(EXIT, [])];
      assert nodes == layout;
    }

    /** `partition_to_bb`. */
    method PartitionToBasicBlocks(instructions: seq<Instruction>) returns (blocks: seq<seq<Instruction>>)
      ensures blocks == Partition(instructions)
    {
      var finished: seq<seq<Instruction>> := [];
      var current: seq<Instruction> := [];
      var k := 0;
      while k < |instructions|
        invariant 0 <= k <= |instructions|
        invariant PartitionPrefix(instructions, k) == PartitionState(finished, current)
      {
        var x := instructions[k];
        if IsBlockStarter(x) {
          if current != [] {
            finished := finished + [current];
          }
          current := [x];
        } else if IsBlockTerminator(x) {
          current := current + [x];
          finished := finished + [current];
          current := [];
        } else {
          current := current + [x];
        }
        k := k + 1;
      }
      if current != [] {
        finished := finished + [current];
      }
      blocks := finished;
    }

    /** `build_label_cache`: every node whose first instruction is a label indexes that label. */
    method BuildLabelCache()
      modifies this`labelsToBlockId
      ensures labelsToBlockId == LabelCache(nodes, old(labelsToBlockId))
    {
      var k := 0;
      while k < |nodes|
        invariant 0 <= k <= |nodes|
        invariant labelsToBlockId == LabelCache(nodes[..k], old(labelsToBlockId))
      {
        assert nodes[..k + 1][..k] == nodes[..k];
        var n := nodes[k];
        if n.instructions != [] {
          var first := n.instructions[0];
          if IsLabel(first) {
            var name :- assert LabelName(first);
            labelsToBlockId := labelsToBlockId[name := n.id];
          }
        }
        k := k + 1;
      }
      assert nodes[..k] == nodes;
    }

    /** `label_to_block_id`. */
    function LabelToBlockId(name: string): (r: Result<int>)
      reads this
      ensures r.Ok? <==> name in labelsToBlockId
      ensures r.Ok? ==> r.value == labelsToBlockId[name]
    {
      LookupLabel(labelsToBlockId, name)
    }

    /** `add_edge`: every node with id `start` gains successor `end`, every node with id `end`
        gains predecessor `start`. */
    method AddEdge(start: int, end: int)
      modifies this`nodes
      ensures nodes == WithEdge(old(nodes), start, end)
    {
      var k := 0;
      while k < |nodes|
        invariant 0 <= k <= |nodes| == |old(nodes)|
        invariant forall j :: 0 <= j < k ==> nodes[j] == NodeWithEdge(old(nodes)[j], start, end)
        invariant forall j :: k <= j < |nodes| ==> nodes[j] == old(nodes)[j]
      {
        var n := nodes[k];
        if n.id == start {
          n := n.(successors := n.successors + [end]);
        }
        if n.id == end {
          n := n.(predecessors := n.predecessors + [start]);
        }
        nodes := nodes[k := n];
        k := k + 1;
      }
    }

    /** The inner loop of `add_all_edges`: one `add_edge` per target, in order. */
    method AddEdgesFrom(source: int, targets: seq<int>)
      modifies this`nodes
      ensures nodes == WithEdges(old(nodes), Pairs(source, targets))
    {
      var t := 0;
      while t < |targets|
        invariant 0 <= t <= |targets|
        invariant nodes == WithEdges(old(nodes), Pairs(source, targets[..t]))
      {
        assert Pairs(source, targets[..t + 1]) == Pairs(source, targets[..t]) + [(source, targets[t])];
        AddEdge(source, targets[t]);
        t := t + 1;
      }
      assert targets[..t] == targets;
    }

    /** The body of the loop of `add_all_edges`: a real node's edges, from its last instruction. */
    method AddEdgesOfNode(node: Node) returns (r: Result<()>)
      requires IsReal(node) ==> node.instructions != []
      modifies this`nodes
      ensures r.Ok? <==> EdgesOfNode(node, idCounter, labelsToBlockId).Ok?
      ensures r.Ok? ==> nodes == WithEdges(old(nodes), EdgesOfNode(node, idCounter, labelsToBlockId).value)
      ensures r.Err? ==> nodes == old(nodes)
    {
      if node.id == ENTRY || node.id == EXIT {
        return Ok(());
      }
      var nextId := if node.id == idCounter then EXIT else node.id + 1;
      var last := node.instructions[|node.instructions| - 1];
      var targets: seq<int>;
      if IsRet(last) {
        targets := [EXIT];
      } else if IsUnconditionalJump(last) {
        var name :- assert JumpLabel(last);
        var targetId :- LabelToBlockId(name);
        targets := [targetId];
      } else if IsConditionalJump(last) {
        var name :- assert JumpLabel(last);
        var targetId :- LabelToBlockId(name);
        targets := [targetId, nextId];
      } else {
        targets := [nextId];
      }
      assert NodeTargets(node, idCounter, labelsToBlockId) == Ok(targets);
      AddEdgesFrom(node.id, targets);
      return Ok(());
    }

    /** `add_all_edges`. */
    method AddAllEdges() returns (r: Result<()>)
      requires RealNodesNonEmpty(nodes)
      modifies this`nodes
      ensures SameNodes(nodes, old(nodes))
      ensures r.Ok? <==> AllEdges(old(nodes), idCounter, labelsToBlockId).Ok?
      ensures r.Ok? ==> nodes == WithEdges(old(nodes), AllEdges(old(nodes), idCounter, labelsToBlockId).value)
    {
      ghost var orig := nodes;
      AddEdge(ENTRY, 1);
      assert WithEdges(orig, [(ENTRY, 1)]) == WithEdge(WithEdges(orig, []), ENTRY, 1);
      ghost var es;
      r, es := AddEdgesOfNodes(orig, [(ENTRY, 1)]);
      WithEdgesKeepNodes(orig, es);
    }

    /** The loop of `add_all_edges` over the nodes, after the ENTRY edge `es0`. */
    method AddEdgesOfNodes(ghost orig: seq<Node>, ghost es0: seq<(int, int)>) returns (r: Result<()>, ghost es: seq<(int, int)>)
      requires RealNodesNonEmpty(orig) && nodes == WithEdges(orig, es0)
      modifies this`nodes
      ensures nodes == WithEdges(orig, es)
      ensures r.Ok? <==> NodeEdges(orig, idCounter, labelsToBlockId).Ok?
      ensures r.Ok? ==> es == es0 + NodeEdges(orig, idCounter, labelsToBlockId).value
    {
      es := es0;
      var k := 0;
      while k < |nodes|
        invariant 0 <= k <= |nodes| == |orig|
        invariant NodeEdgesUpTo(orig, k, idCounter, labelsToBlockId).Ok?
        invariant es == es0 + NodeEdgesUpTo(orig, k, idCounter, labelsToBlockId).value
        invariant nodes == WithEdges(orig, es)
        decreases |nodes| - k
      {
        WithEdgesLists(orig, es, k);
        ghost var added := EdgesOfNode(orig[k], idCounter, labelsToBlockId);
        EdgesIgnoreNeighbours(nodes[k], orig[k], idCounter, labelsToBlockId);
        var step := AddEdgesOfNode(nodes[k]);
        if step.Err? {
          r := Err(step.msg);
          NodeEdgesFailure(orig, k, idCounter, labelsToBlockId);
          return;
        }
        NodeEdgesStep(orig, es0, es, k, idCounter, labelsToBlockId);
        es := es + added.value;
        k := k + 1;
      }
      r := Ok(());
    }

    /** `get_node_from_id`: the first node with the id, or an error when there is none. */
    method GetNodeFromId(nodeId: int) returns (r: Result<Node>)
      ensures r.Ok? <==> HasId(nodes, nodeId)
      ensures r.Ok? ==> r.value == nodes[IndexOf(nodes, nodeId)]
    {
      var k := 0;
      while k < |nodes|
        invariant 0 <= k <= |nodes|
        invariant forall j :: 0 <= j < k ==> nodes[j].id != nodeId
      {
        if nodes[k].id == nodeId {
          return Ok(nodes[k]);
        }
        k := k + 1;
      }
      return Err("Node not found with id: " + Decimal.IntToDecimal(nodeId));
    }

    /** `remove_edge`. Each neighbour is looked up and edited as a copy, so no list in the graph
        changes; the only effect is the error when a neighbour id is missing. */
    method RemoveEdge(node: Node) returns (r: Result<()>)
      ensures r.Ok? <==> (forall s :: s in node.successors ==> HasId(nodes, s)) &&
                         (forall p :: p in node.predecessors ==> HasId(nodes, p))
    {
      var k := 0;
      while k < |node.successors|
        invariant 0 <= k <= |node.successors|
        invariant forall j :: 0 <= j < k ==> HasId(nodes, node.successors[j])
      {
        var n :- GetNodeFromId(node.successors[k]);
        var cleaned := n.(predecessors := RemoveAll(n.predecessors, node.id));
        k := k + 1;
      }
      k := 0;
      while k < |node.predecessors|
        invariant 0 <= k <= |node.predecessors|
        invariant forall j :: 0 <= j < k ==> HasId(nodes, node.predecessors[j])
      {
        var n :- GetNodeFromId(node.predecessors[k]);
        var cleaned := n.(successors := RemoveAll(n.successors, node.id));
        k := k + 1;
      }
      return Ok(());
    }

    method AddNode(node: Node)
      modifies this`nodes
      ensures nodes == old(nodes) + [node]
    {
      nodes := nodes + [node];
    }

    /** `remove_node(node)`: after `remove_edge`, erases every node with the same id. */
    method RemoveNode(node: Node) returns (r: Result<()>)
      modifies this`nodes
      ensures r.Ok? <==> (forall s :: s in node.successors ==> HasId(old(nodes), s)) &&
                         (forall p :: p in node.predecessors ==> HasId(old(nodes), p))
      ensures nodes == if r.Ok? then RemoveId(old(nodes), node.id) else old(nodes)
    {
      r := RemoveEdge(node);
      if r.Ok? {
        nodes := RemoveId(nodes, node.id);
      }
    }

    /** `remove_node(id)`: `remove_node` of the first node with the id, which succeeds exactly
        when every neighbour of that node is in the graph. */
    method RemoveNodeById(id: int) returns (r: Result<()>)
      modifies this`nodes
      ensures !HasId(old(nodes), id) ==> r.Err? && nodes == old(nodes)
      ensures HasId(old(nodes), id) ==>
                var n := old(nodes)[IndexOf(old(nodes), id)];
                (r.Ok? <==> (forall s :: s in n.successors ==> HasId(old(nodes), s)) &&
                            (forall p :: p in n.predecessors ==> HasId(old(nodes), p)))
      ensures r.Ok? ==> nodes == RemoveId(old(nodes), id)
      ensures r.Err? ==> nodes == old(nodes)
    {
      var node :- GetNodeFromId(id);
      r := RemoveNode(node);
    }

    /** `emit_instructions`: the instructions of all nodes, in node order. */
    method EmitInstructions() returns (instructions: seq<Instruction>)
      ensures instructions == Instructions(nodes)
    {
      instructions := [];
      var k := 0;
      while k < |nodes|
        invariant 0 <= k <= |nodes|
        invariant instructions == Instructions(nodes[..k])
      {
        assert nodes[..k + 1][..k] == nodes[..k];
        var j := 0;
        while j < |nodes[k].instructions|
          invariant 0 <= j <= |nodes[k].instructions|
          invariant instructions == Instructions(nodes[..k]) + nodes[k].instructions[..j]
        {
          instructions := instructions + [nodes[k].instructions[j]];
          j := j + 1;
        }
        assert nodes[k].instructions[..j] == nodes[k].instructions;
        k := k + 1;
      }
      assert nodes[..k] == nodes;
    }
  }

  function RemoveAll(xs: seq<int>, x: int): (r: seq<int>)
    ensures forall y :: y in r <==> y in xs && y != x
  {
    if xs == [] then [] else (if xs[0] == x then [] else [xs[0]]) + RemoveAll(xs[1..], x)
  }

  lemma NodeEdgesFailure(ns: seq<Node>, k: nat, idCounter: int, labels: map<string, int>)
    requires k < |ns| && RealNodesNonEmpty(ns)
    requires EdgesOfNode(ns[k], idCounter, labels).Err?
    ensures NodeEdges(ns, idCounter, labels).Err?
  {
    NodeEdgesErrPersists(ns, k + 1, |ns|, idCounter, labels);
  }

  /** Once a node's edges fail, the edges of every longer prefix fail too. */
  lemma {:induction false} NodeEdgesErrPersists(ns: seq<Node>, k: nat, m: nat, idCounter: int, labels: map<string, int>)
    requires k <= m <= |ns| && RealNodesNonEmpty(ns)
    requires NodeEdgesUpTo(ns, k, idCounter, labels).Err?
    ensures NodeEdgesUpTo(ns, m, idCounter, labels).Err?
  {
    if m > k {
      NodeEdgesErrPersists(ns, k, m - 1, idCounter, labels);
    }
  }
}
