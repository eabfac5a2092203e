/** Unreachable-code elimination (src/optimizations/passes/unreachable_code_elem.cpp): three
    clean-ups of a flow graph, in place. */
module UnreachableCodePass {
  import opened Wrappers
  import opened IR
  import opened FlowGraphs

  /** `holds_any_jump`. */
  predicate HoldsAnyJump(i: Instruction) {
    i.Jump? || i.JumpIfZero? || i.JumpIfNotZero?
  }

  /** The jumps are the conditional and unconditional jumps of the adapter; a return is not one. */
  lemma HoldsAnyJumpKinds(i: Instruction)
    ensures HoldsAnyJump(i) <==> IsUnconditionalJump(i) || IsConditionalJump(i)
    ensures i.Return? ==> !HoldsAnyJump(i)
  {
  }

  // ---------------------------------------------------------------------------------------------
  // Dead blocks

  /** A real node nothing jumps or falls into. */
  predicate Orphan(n: Node) {
    IsReal(n) && n.predecessors == []
  }

  /** What `remove_node` needs to succeed: every neighbour id names a node. */
  predicate CanRemove(ns: seq<Node>, n: Node) {
    (forall s :: s in n.successors ==> HasId(ns, s)) && (forall p :: p in n.predecessors ==> HasId(ns, p))
  }

  /** The nodes after `remove_node` of each orphan among the first `k` of `orig`, in order, or
      None when one of those removals fails. The source erases from the vector it iterates over;
      the model visits the nodes as they were when the loop began. */
  function RemoveOrphans(orig: seq<Node>, k: nat): Option<seq<Node>>
    requires k <= |orig|
  {
    if k == 0 then Some(orig)
    else
      var prev := RemoveOrphans(orig, k - 1);
      if prev.None? then None
      else if !Orphan(orig[k - 1]) then prev
      else if CanRemove(prev.value, orig[k - 1]) then Some(RemoveId(prev.value, orig[k - 1].id))
      else None
  }

  /** The ids of the orphans among the first `k` nodes. */
  function OrphanIds(orig: seq<Node>, k: nat): set<int>
    requires k <= |orig|
  {
    if k == 0 then {}
    else OrphanIds(orig, k - 1) + (if Orphan(orig[k - 1]) then {orig[k - 1].id} else {})
  }

  /** The nodes of `ns` whose id is not in `dead`, in order. */
  function FilterOut(ns: seq<Node>, dead: set<int>): seq<Node> {
    if ns == [] then [] else (if ns[0].id in dead then [] else [ns[0]]) + FilterOut(ns[1..], dead)
  }

  lemma {:induction false} FilterOutMembers(ns: seq<Node>, dead: set<int>, n: Node)
    ensures n in FilterOut(ns, dead) <==> n in ns && n.id !in dead
  {
    if ns != [] {
      FilterOutMembers(ns[1..], dead, n);
      assert ns == [ns[0]] + ns[1..];
    }
  }

  lemma {:induction false} RemoveIdFilterOut(ns: seq<Node>, dead: set<int>, id: int)
    ensures RemoveId(FilterOut(ns, dead), id) == FilterOut(ns, dead + {id})
  {
    if ns != [] {
      RemoveIdFilterOut(ns[1..], dead, id);
      var head := if ns[0].id in dead then [] else [ns[0]];
      RemoveIdConcat(head, FilterOut(ns[1..], dead), id);
    }
  }

  lemma {:induction false} RemoveIdConcat(a: seq<Node>, b: seq<Node>, id: int)
    ensures RemoveId(a + b, id) == RemoveId(a, id) + RemoveId(b, id)
  {
    if a == [] {
      assert a + b == b;
    } else {
      assert (a + b)[0] == a[0];
      assert (a + b)[1..] == a[1..] + b;
      RemoveIdConcat(a[1..], b, id);
    }
  }

  lemma FilterOutNothing(ns: seq<Node>)
    ensures FilterOut(ns, {}) == ns
  {
  }

  /** A successful removal leaves exactly the nodes whose id is not an orphan's, in order. */
  lemma {:induction false} RemoveOrphansFilter(orig: seq<Node>, k: nat)
    requires k <= |orig| && RemoveOrphans(orig, k).Some?
    ensures RemoveOrphans(orig, k).value == FilterOut(orig, OrphanIds(orig, k))
  {
    if k == 0 {
      FilterOutNothing(orig);
    } else {
      RemoveOrphansFilter(orig, k - 1);
      if Orphan(orig[k - 1]) {
        RemoveIdFilterOut(orig, OrphanIds(orig, k - 1), orig[k - 1].id);
        assert OrphanIds(orig, k) == OrphanIds(orig, k - 1) + {orig[k - 1].id};
      } else {
        assert OrphanIds(orig, k) == OrphanIds(orig, k - 1);
      }
    }
  }

  /** Once a removal fails, the pass fails. */
  lemma {:induction false} RemoveOrphansFails(orig: seq<Node>, k: nat, k': nat)
    requires k <= k' <= |orig| && RemoveOrphans(orig, k).None?
    ensures RemoveOrphans(orig, k').None?
    decreases k' - k
  {
    if k < k' {
      RemoveOrphansFails(orig, k, k' - 1);
    }
  }

  /** The orphan ids are the ids of orphans: never ENTRY or EXIT. */
  lemma {:induction false} OrphanIdsAreOrphans(orig: seq<Node>, k: nat, id: int)
    requires k <= |orig|
    ensures id in OrphanIds(orig, k) <==> exists j :: 0 <= j < k && Orphan(orig[j]) && orig[j].id == id
  {
    if k > 0 {
      OrphanIdsAreOrphans(orig, k - 1, id);
    }
  }

  /** After a successful pass a node remains exactly when it was there and no orphan had its id:
      ENTRY and EXIT always remain, and no orphan does. */
  lemma DeadBlocksRemoved(orig: seq<Node>, n: Node)
    requires RemoveOrphans(orig, |orig|).Some?
    ensures n in RemoveOrphans(orig, |orig|).value <==> n in orig && n.id !in OrphanIds(orig, |orig|)
    ensures n in orig && !IsReal(n) ==> n in RemoveOrphans(orig, |orig|).value
    ensures n in orig && Orphan(n) ==> n !in RemoveOrphans(orig, |orig|).value
  {
    RemoveOrphansFilter(orig, |orig|);
    FilterOutMembers(orig, OrphanIds(orig, |orig|), n);
    OrphanIdsAreOrphans(orig, |orig|, n.id);
    if n in orig && Orphan(n) {
      var j :| 0 <= j < |orig| && orig[j] == n;
      assert n.id in OrphanIds(orig, |orig|);
    }
  }

  /** `remove_unreachable_blocks`: removes every real node without predecessors; the result says
      whether there was one. */
  method RemoveUnreachableBlocks(graph: FlowGraph) returns (r: Result<bool>)
    modifies graph`nodes
    ensures r.Ok? <==> RemoveOrphans(old(graph.nodes), |old(graph.nodes)|).Some?
    ensures r.Ok? ==> graph.nodes == RemoveOrphans(old(graph.nodes), |old(graph.nodes)|).value
    ensures r.Ok? ==> (r.value <==> OrphanIds(old(graph.nodes), |old(graph.nodes)|) != {})
  {
    var orig := graph.nodes;
    var changed := false;
    var k := 0;
    while k < |orig|
      invariant 0 <= k <= |orig|
      invariant RemoveOrphans(orig, k) == Some(graph.nodes)
      invariant changed <==> OrphanIds(orig, k) != {}
    {
      var node := orig[k];
      if node.id != ENTRY && node.id != EXIT && node.predecessors == [] {
        var removed := graph.RemoveNode(node);
        if removed.Err? {
          RemoveOrphansFails(orig, k + 1, |orig|);
          return Err(removed.msg);
        }
        changed := true;
      }
      k := k + 1;
    }
    return Ok(changed);
  }

  // ---------------------------------------------------------------------------------------------
  // Redundant jumps and labels

  /** The loops of the last two clean-ups stop at the first EXIT node. */
  function ScanEnd(ns: seq<Node>): (e: nat)
    ensures e <= |ns|
    ensures forall j :: 0 <= j < e ==> ns[j].id != EXIT
    ensures e < |ns| ==> ns[e].id == EXIT
  {
    if HasId(ns, EXIT) then IndexOf(ns, EXIT) else |ns|
  }

  /** Node `k` ends in a jump and every successor it has is the next node. */
  predicate RedundantJump(ns: seq<Node>, k: nat)
    requires k < |ns|
  {
    ns[k].instructions != [] && HoldsAnyJump(LastInstruction(ns[k])) &&
    k + 1 < |ns| && forall s :: s in ns[k].successors ==> s == ns[k + 1].id
  }

  /** The jump clean-up reads the node after each one that ends in a jump; with an EXIT node
      (or no jump at the very end) that node exists. */
  predicate JumpPassDefined(ns: seq<Node>) {
    HasId(ns, EXIT) || ns == [] || ns[|ns| - 1].instructions == [] || !HoldsAnyJump(LastInstruction(ns[|ns| - 1]))
  }

  function DropLast(n: Node): Node
    requires n.instructions != []
  {
    n.(instructions := n.instructions[..|n.instructions| - 1])
  }

  /** Node `j` after `remove_redundant_jumps`. */
  function AfterJumpPass(ns: seq<Node>, j: nat): Node
    requires j < |ns|
  {
    if j < ScanEnd(ns) && RedundantJump(ns, j) then DropLast(ns[j]) else ns[j]
  }

  /** The node list after `remove_redundant_jumps`. */
  function JumpPass(ns: seq<Node>): seq<Node> {
    seq(|ns|, j requires 0 <= j < |ns| => AfterJumpPass(ns, j))
  }

  predicate SomeRedundantJump(ns: seq<Node>) {
    exists j :: 0 <= j < ScanEnd(ns) && RedundantJump(ns, j)
  }

  /** `remove_redundant_jumps`, on the node list: every node before EXIT that ends in a jump to
      nowhere but the next node loses that jump. */
  method RemoveRedundantJumps(ns: seq<Node>) returns (changed: bool, ns': seq<Node>)
    requires JumpPassDefined(ns)
    ensures |ns'| == |ns| && forall j :: 0 <= j < |ns| ==> ns'[j] == AfterJumpPass(ns, j)
    ensures ns' == JumpPass(ns)
    ensures changed <==> SomeRedundantJump(ns)
  {
    ns' := ns;
    changed := false;
    var index := 0;
    while index < |ns'|
      invariant 0 <= index <= ScanEnd(ns) && |ns'| == |ns|
      invariant forall j :: 0 <= j < index ==> ns'[j] == AfterJumpPass(ns, j)
      invariant forall j :: index <= j < |ns| ==> ns'[j] == ns[j]
      invariant changed <==> exists j :: 0 <= j < index && RedundantJump(ns, j)
    {
      var node := ns'[index];
      if node.id == EXIT {
        break;
      }
      ghost var before := changed;
      if node.instructions != [] {
        var lastInstruction := node.instructions[|node.instructions| - 1];
        if HoldsAnyJump(lastInstruction) {
          var defaultSuccessor := ns'[index + 1];
          var hasNonDefaultSuccessor := exists s :: s in node.successors && s != defaultSuccessor.id;
          if !hasNonDefaultSuccessor {
            ns' := ns'[index := DropLast(node)];
            changed := true;
          }
        }
      }
      assert changed <==> before || RedundantJump(ns, index);
      index := index + 1;
    }
  }

  predicate StartsWithLabel(n: Node) {
    n.instructions != [] && n.instructions[0].Label?
  }

  /** Node `k` starts with a label and its only predecessor is the node before it. */
  predicate RedundantLabel(ns: seq<Node>, k: nat)
    requires k < |ns|
  {
    StartsWithLabel(ns[k]) && 0 < k && ns[k].predecessors == [ns[k - 1].id]
  }

  /** The label clean-up reads the node before each one that starts with a label; the first node
      must not start with one, unless it is EXIT. */
  predicate LabelPassDefined(ns: seq<Node>) {
    ns == [] || ns[0].id == EXIT || !StartsWithLabel(ns[0])
  }

  function DropFirst(n: Node): Node
    requires n.instructions != []
  {
    n.(instructions := n.instructions[1..])
  }

  /** Node `j` after `remove_redundant_labels`. */
  function AfterLabelPass(ns: seq<Node>, j: nat): Node
    requires j < |ns|
  {
    if j < ScanEnd(ns) && RedundantLabel(ns, j) then DropFirst(ns[j]) else ns[j]
  }

  /** The node list after `remove_redundant_labels`. */
  function LabelPass(ns: seq<Node>): seq<Node> {
    seq(|ns|, j requires 0 <= j < |ns| => AfterLabelPass(ns, j))
  }

  predicate SomeRedundantLabel(ns: seq<Node>) {
    exists j :: 0 <= j < ScanEnd(ns) && RedundantLabel(ns, j)
  }

  /** `remove_redundant_labels`, on the node list: every node before EXIT that starts with a
      label and is entered only from the node before it loses that label. */
  method RemoveRedundantLabels(ns: seq<Node>) returns (changed: bool, ns': seq<Node>)
    requires LabelPassDefined(ns)
    ensures |ns'| == |ns| && forall j :: 0 <= j < |ns| ==> ns'[j] == AfterLabelPass(ns, j)
    ensures ns' == LabelPass(ns)
    ensures changed <==> SomeRedundantLabel(ns)
  {
    ns' := ns;
    changed := false;
    var index := 0;
    while index < |ns'|
      invariant 0 <= index <= ScanEnd(ns) && |ns'| == |ns|
      invariant forall j :: 0 <= j < index ==> ns'[j] == AfterLabelPass(ns, j)
      invariant forall j :: index <= j < |ns| ==> ns'[j] == ns[j]
      invariant changed <==> exists j :: 0 <= j < index && RedundantLabel(ns, j)
    {
      var node := ns'[index];
      if node.id == EXIT {
        break;
      }
      ghost var before := changed;
      if node.instructions != [] {
        var firstInstruction := node.instructions[0];
        if firstInstruction.Label? {
          var predecessor := ns'[index - 1];
          assert predecessor.id == ns[index - 1].id by {
            assert ns'[index - 1] == AfterLabelPass(ns, index - 1);
          }
          if |node.predecessors| == 1 && node.predecessors[0] == predecessor.id {
            assert node.predecessors == [predecessor.id];
            ns' := ns'[index := DropFirst(node)];
            changed := true;
          }
        }
      }
      assert changed <==> before || RedundantLabel(ns, index);
      index := index + 1;
    }
  }

  /** The jump clean-up changes no id and no edge list, and changes a node only by taking off
      its last instruction: a jump none of whose successors is other than the next node (which
      holds vacuously for a node without successors). */
  lemma JumpPassEffect(ns: seq<Node>, j: nat)
    requires j < |ns|
    ensures var n := JumpPass(ns)[j];
            n.id == ns[j].id && n.predecessors == ns[j].predecessors && n.successors == ns[j].successors
    ensures JumpPass(ns)[j].instructions == ns[j].instructions ||
              (j < ScanEnd(ns) && j + 1 < |ns| &&
               JumpPass(ns)[j].instructions + [LastInstruction(ns[j])] == ns[j].instructions &&
               HoldsAnyJump(LastInstruction(ns[j])) &&
               forall s :: s in ns[j].successors ==> s == ns[j + 1].id)
  {
    var n := JumpPass(ns)[j];
    assert n == AfterJumpPass(ns, j);
    if j < ScanEnd(ns) && RedundantJump(ns, j) {
      assert n.instructions + [LastInstruction(ns[j])] == ns[j].instructions;
    }
  }

  /** The label clean-up changes no id and no edge list, and changes a node only by taking off its
      first instruction: a label, when the node's only predecessor is the node before it. */
  lemma LabelPassEffect(ns: seq<Node>, j: nat)
    requires j < |ns|
    ensures var n := LabelPass(ns)[j];
            n.id == ns[j].id && n.predecessors == ns[j].predecessors && n.successors == ns[j].successors
    ensures LabelPass(ns)[j].instructions == ns[j].instructions ||
              (j < ScanEnd(ns) && 0 < j && ns[j].instructions != [] &&
               [ns[j].instructions[0]] + LabelPass(ns)[j].instructions == ns[j].instructions &&
               ns[j].instructions[0].Label? && ns[j].predecessors == [ns[j - 1].id])
  {
    var n := LabelPass(ns)[j];
    assert n == AfterLabelPass(ns, j);
    if j < ScanEnd(ns) && RedundantLabel(ns, j) {
      assert [ns[j].instructions[0]] + n.instructions == ns[j].instructions;
    }
  }

  // ---------------------------------------------------------------------------------------------
  // The pass

  /** The shape of a built graph: ENTRY first and an EXIT node somewhere. */
  predicate BuiltShape(ns: seq<Node>) {
    ns != [] && ns[0].id == ENTRY && HasId(ns, EXIT) && !StartsWithLabel(ns[0])
  }

  /** Removing the orphans keeps the first node and the EXIT node. */
  lemma RemovalKeepsShape(orig: seq<Node>)
    requires BuiltShape(orig) && RemoveOrphans(orig, |orig|).Some?
    ensures BuiltShape(RemoveOrphans(orig, |orig|).value)
    ensures RemoveOrphans(orig, |orig|).value[0] == orig[0]
  {
    var dead := OrphanIds(orig, |orig|);
    RemoveOrphansFilter(orig, |orig|);
    OrphanIdsAreOrphans(orig, |orig|, ENTRY);
    OrphanIdsAreOrphans(orig, |orig|, EXIT);
    assert FilterOut(orig, dead) == [orig[0]] + FilterOut(orig[1..], dead);
    var e := IndexOf(orig, EXIT);
    FilterOutMembers(orig, dead, orig[e]);
    var a := FilterOut(orig, dead);
    var i :| 0 <= i < |a| && a[i] == orig[e];
    assert HasId(a, EXIT);
  }

  /** Dropping trailing jumps keeps a first node that does not start with a label that way. */
  lemma JumpPassKeepsFirst(ns: seq<Node>)
    requires ns != [] && !StartsWithLabel(ns[0])
    ensures JumpPass(ns) != [] && JumpPass(ns)[0].id == ns[0].id && !StartsWithLabel(JumpPass(ns)[0])
  {
    var n := AfterJumpPass(ns, 0);
    assert JumpPass(ns)[0] == n;
    if n != ns[0] {
      if |ns[0].instructions| > 1 {
        assert n.instructions[0] == ns[0].instructions[0];
      }
    }
  }

  /** `apply`: dead blocks, then redundant jumps, then redundant labels; the result says whether
      any of the three changed the graph. Only the dead-block removal can fail. */
  method Apply(graph: FlowGraph) returns (r: Result<bool>)
    requires BuiltShape(graph.nodes)
    modifies graph`nodes
    ensures r.Ok? <==> RemoveOrphans(old(graph.nodes), |old(graph.nodes)|).Some?
    ensures r.Ok? ==>
              var reachable := RemoveOrphans(old(graph.nodes), |old(graph.nodes)|).value;
              graph.nodes == LabelPass(JumpPass(reachable)) &&
              (r.value <==> OrphanIds(old(graph.nodes), |old(graph.nodes)|) != {} ||
                            SomeRedundantJump(reachable) || SomeRedundantLabel(JumpPass(reachable)))
  {
    ghost var orig := graph.nodes;
    var removed := RemoveUnreachableBlocks(graph);
    if removed.Err? {
      return Err(removed.msg);
    }
    RemovalKeepsShape(orig);
    JumpPassKeepsFirst(graph.nodes);
    var jumps, afterJumps := RemoveRedundantJumps(graph.nodes);
    graph.nodes := afterJumps;
    var labels, afterLabels := RemoveRedundantLabels(graph.nodes);
    graph.nodes := afterLabels;
    return Ok(removed.value || jumps || labels);
  }
}
