/** Copy propagation (src/optimizations/passes/copy_propagation.cpp): a forward reaching-copies
    analysis over the flow graph, then a rewrite of every instruction with the copies that reach it. */
module CopyPropagationPass {
  import opened Wrappers
  import opened IR
  import opened FlowGraphs

  function Elems(s: seq<IrCopy>): (r: set<IrCopy>)
    ensures forall c :: c in r <==> c in s
  {
    set c | c in s
  }

  // ---------------------------------------------------------------------------------------------
  // Membership, filtering and meet

  /** `contains_instruction`: a copy with the same source and destination is in the list. */
  function ContainsCopy(copies: seq<IrCopy>, c: IrCopy): (r: bool)
    ensures r <==> c in copies
  {
    if copies == [] then false else copies[0] == c || ContainsCopy(copies[1..], c)
  }

  /** The entries of `xs` that are in `keep`, in the order of `xs`. */
  function FilterBy(xs: seq<IrCopy>, keep: set<IrCopy>): (r: seq<IrCopy>)
    ensures forall c :: c in r <==> c in xs && c in keep
    ensures |r| <= |xs|
  {
    if xs == [] then [] else (if xs[0] in keep then [xs[0]] else []) + FilterBy(xs[1..], keep)
  }

  lemma {:induction false} FilterByAll(xs: seq<IrCopy>)
    ensures FilterBy(xs, Elems(xs)) == xs
  {
    if xs != [] {
      FilterBySameOn(xs[1..], Elems(xs), Elems(xs[1..]));
      FilterByAll(xs[1..]);
    }
  }

  lemma {:induction false} FilterBySameOn(xs: seq<IrCopy>, a: set<IrCopy>, b: set<IrCopy>)
    requires forall c :: c in xs ==> (c in a <==> c in b)
    ensures FilterBy(xs, a) == FilterBy(xs, b)
  {
    if xs != [] {
      FilterBySameOn(xs[1..], a, b);
    }
  }

  lemma {:induction false} FilterByTwice(xs: seq<IrCopy>, a: set<IrCopy>, b: set<IrCopy>)
    ensures FilterBy(FilterBy(xs, a), b) == FilterBy(xs, a * b)
  {
    if xs != [] {
      FilterByTwice(xs[1..], a, b);
      var head := if xs[0] in a then [xs[0]] else [];
      assert FilterBy(xs, a) == head + FilterBy(xs[1..], a);
      FilterByConcat(head, FilterBy(xs[1..], a), b);
    }
  }

  lemma {:induction false} FilterByConcat(xs: seq<IrCopy>, ys: seq<IrCopy>, keep: set<IrCopy>)
    ensures FilterBy(xs + ys, keep) == FilterBy(xs, keep) + FilterBy(ys, keep)
  {
    if xs != [] {
      assert (xs + ys)[1..] == xs[1..] + ys;
      FilterByConcat(xs[1..], ys, keep);
    } else {
      assert xs + ys == ys;
    }
  }

  lemma {:induction false} FilterByNone(xs: seq<IrCopy>)
    ensures FilterBy(xs, {}) == []
  {
    if xs != [] {
      FilterByNone(xs[1..]);
    }
  }

  /** A filter of `xs` is the filter of `xs` by its own entries. */
  predicate IsFilterOf(r: seq<IrCopy>, xs: seq<IrCopy>) {
    r == FilterBy(xs, Elems(r))
  }

  /** Two filters of the same list with the same entries are the same list. */
  lemma FiltersEqual(r1: seq<IrCopy>, r2: seq<IrCopy>, xs: seq<IrCopy>)
    requires IsFilterOf(r1, xs) && IsFilterOf(r2, xs) && Elems(r1) == Elems(r2)
    ensures r1 == r2
  {
  }

  /** Predecessor `k` stands in the way of `meet`: it is EXIT or another block with no annotation. */
  predicate BadPredecessor(preds: seq<int>, blocks: map<int, seq<IrCopy>>, k: nat)
    requires k < |preds|
  {
    preds[k] != ENTRY && (preds[k] == EXIT || preds[k] !in blocks)
  }

  /** `meet` from the running intersection `incoming` over the remaining predecessors. */
  function MeetFrom(preds: seq<int>, blocks: map<int, seq<IrCopy>>, incoming: seq<IrCopy>): (r: Result<seq<IrCopy>>)
    ensures r.Ok? <==> forall k :: 0 <= k < |preds| && BadPredecessor(preds, blocks, k) ==>
                         exists j :: 0 <= j < k && preds[j] == ENTRY
    ensures r.Ok? ==> IsFilterOf(r.value, incoming)
    ensures r.Ok? && ENTRY !in preds ==>
              forall c :: c in r.value <==> c in incoming && forall p :: p in preds ==> p in blocks && c in blocks[p]
  {
    if preds == [] then
      FilterByAll(incoming);
      Ok(incoming)
    else if preds[0] == ENTRY then
      FilterByNone(incoming);
      assert Elems([]) == {};
      Ok([])
    else if preds[0] == EXIT then
      assert BadPredecessor(preds, blocks, 0);
      Err("Malformed control flow")
    else if preds[0] !in blocks then
      assert BadPredecessor(preds, blocks, 0);
      Err("Trying to get not annotated block")
    else
      var next := FilterBy(incoming, Elems(blocks[preds[0]]));
      var r := MeetFrom(preds[1..], blocks, next);
      MeetFromShift(preds, blocks, r.Ok?);
      if r.Ok? then
        FilterByTwice(incoming, Elems(blocks[preds[0]]), Elems(r.value));
        FilterBySameOn(incoming, Elems(blocks[preds[0]]) * Elems(r.value), Elems(r.value));
        r
      else r
  }

  /** The failure condition of `meet` seen from the second predecessor on, when the first is an
      annotated real block. */
  lemma MeetFromShift(preds: seq<int>, blocks: map<int, seq<IrCopy>>, ok: bool)
    requires preds != [] && preds[0] != ENTRY && !BadPredecessor(preds, blocks, 0)
    ensures (forall k :: 0 <= k < |preds| - 1 && BadPredecessor(preds[1..], blocks, k) ==>
               exists j :: 0 <= j < k && preds[1..][j] == ENTRY) <==>
            (forall k :: 0 <= k < |preds| && BadPredecessor(preds, blocks, k) ==>
               exists j :: 0 <= j < k && preds[j] == ENTRY)
  {
    var tail := preds[1..];
    if forall k :: 0 <= k < |tail| && BadPredecessor(tail, blocks, k) ==> exists j :: 0 <= j < k && tail[j] == ENTRY {
      forall k | 0 <= k < |preds| && BadPredecessor(preds, blocks, k)
        ensures exists j :: 0 <= j < k && preds[j] == ENTRY
      {
        assert k > 0 && BadPredecessor(tail, blocks, k - 1);
        var j :| 0 <= j < k - 1 && tail[j] == ENTRY;
        assert preds[j + 1] == ENTRY;
      }
    }
    if forall k :: 0 <= k < |preds| && BadPredecessor(preds, blocks, k) ==> exists j :: 0 <= j < k && preds[j] == ENTRY {
      forall k | 0 <= k < |tail| && BadPredecessor(tail, blocks, k)
        ensures exists j :: 0 <= j < k && tail[j] == ENTRY
      {
        assert BadPredecessor(preds, blocks, k + 1);
        var j :| 0 <= j < k + 1 && preds[j] == ENTRY;
        assert j > 0;
        assert tail[j - 1] == ENTRY;
      }
    }
  }

  /** `meet` of a node: all copies when it has no predecessors, none as soon as ENTRY is a
      predecessor, an error on an EXIT or unannotated predecessor met first, and otherwise the
      copies of `allCopies` that every predecessor's annotation holds, in `allCopies` order. */
  function Meet(preds: seq<int>, blocks: map<int, seq<IrCopy>>, allCopies: seq<IrCopy>): Result<seq<IrCopy>> {
    MeetFrom(preds, blocks, allCopies)
  }

  lemma MeetExamples(blocks: map<int, seq<IrCopy>>, allCopies: seq<IrCopy>, p: int)
    ensures Meet([], blocks, allCopies) == Ok(allCopies)
    ensures Meet([ENTRY, EXIT], blocks, allCopies) == Ok([])
    ensures Meet([EXIT, ENTRY], blocks, allCopies).Err?
  {
    FilterByAll(allCopies);
    assert BadPredecessor([EXIT, ENTRY], blocks, 0);
  }

  /** Shrinking the predecessors' annotations and the incoming list can only shrink the meet;
      whether it fails depends only on which blocks are annotated. */
  lemma {:induction false} MeetMonotone(preds: seq<int>, b1: map<int, seq<IrCopy>>, b2: map<int, seq<IrCopy>>,
                                        in1: seq<IrCopy>, in2: seq<IrCopy>)
    requires forall p :: p in preds && p != ENTRY ==> (p in b1 <==> p in b2)
    requires forall p :: p in preds && p != ENTRY && p in b1 ==> Elems(b1[p]) <= Elems(b2[p])
    requires Elems(in1) <= Elems(in2)
    ensures MeetFrom(preds, b1, in1).Ok? <==> MeetFrom(preds, b2, in2).Ok?
    ensures MeetFrom(preds, b1, in1).Ok? ==> Elems(MeetFrom(preds, b1, in1).value) <= Elems(MeetFrom(preds, b2, in2).value)
  {
    if preds != [] && preds[0] != ENTRY && preds[0] != EXIT && preds[0] in b1 {
      assert forall p :: p in preds[1..] ==> p in preds;
      assert Elems(FilterBy(in1, Elems(b1[preds[0]]))) <= Elems(FilterBy(in2, Elems(b2[preds[0]])));
      MeetMonotone(preds[1..], b1, b2, FilterBy(in1, Elems(b1[preds[0]])), FilterBy(in2, Elems(b2[preds[0]])));
    }
  }

  /** `meet` reads only the annotations of the node's predecessors. */
  lemma {:induction false} MeetFrame(preds: seq<int>, b1: map<int, seq<IrCopy>>, b2: map<int, seq<IrCopy>>, incoming: seq<IrCopy>)
    requires forall p :: p in preds ==> (p in b1 <==> p in b2) && (p in b1 ==> b1[p] == b2[p])
    ensures MeetFrom(preds, b1, incoming) == MeetFrom(preds, b2, incoming)
  {
    if preds != [] && preds[0] != ENTRY && preds[0] != EXIT && preds[0] in b1 {
      assert forall p :: p in preds[1..] ==> p in preds;
      MeetFrame(preds[1..], b1, b2, FilterBy(incoming, Elems(b1[preds[0]])));
    }
  }

  // ---------------------------------------------------------------------------------------------
  // Kill and transfer

  predicate Mentions(c: IrCopy, v: Value) {
    c.source == v || c.destination == v
  }

  /** `kill_copies`: drops exactly the facts whose source or destination is `v`. */
  function KillCopies(copies: seq<IrCopy>, v: Value): (r: seq<IrCopy>)
    ensures forall c :: c in r <==> c in copies && !Mentions(c, v)
    ensures |r| <= |copies|
  {
    if copies == [] then [] else (if Mentions(copies[0], v) then [] else [copies[0]]) + KillCopies(copies[1..], v)
  }

  /** Killing keeps the surviving facts in their order: it distributes over concatenation, and it
      changes nothing when no fact mentions the value. */
  lemma {:induction false} KillCopiesOrder(a: seq<IrCopy>, b: seq<IrCopy>, v: Value)
    ensures KillCopies(a + b, v) == KillCopies(a, v) + KillCopies(b, v)
  {
    if a == [] {
      assert a + b == b;
    } else {
      assert (a + b)[1..] == a[1..] + b;
      KillCopiesOrder(a[1..], b, v);
    }
  }

  lemma {:induction false} KillCopiesNothing(copies: seq<IrCopy>, v: Value)
    requires forall c :: c in copies ==> !Mentions(c, v)
    ensures KillCopies(copies, v) == copies
  {
    if copies != [] {
      KillCopiesNothing(copies[1..], v);
    }
  }

  /** One iteration of `transfer`'s loop: the facts after the instruction, given those before. */
  function TransferStep(current: seq<IrCopy>, i: Instruction): seq<IrCopy>
  {
    match i
    case Copy(c) => if ContainsCopy(current, c) then current else KillCopies(current, c.destination) + [c]
    case Unary(_, _, result) => KillCopies(current, result)
    case Binary(_, _, _, result) => KillCopies(current, result)
    case Call(_, _, destination) => KillCopies(current, destination)
    case _ => current
  }

  /** What `transfer` does to the reaching copies at one instruction: a copy already known
      changes nothing, a new copy kills the copies mentioning its destination and is appended,
      an instruction that writes a value kills the copies mentioning it, and the rest leave the
      facts as they were. */
  lemma TransferStepEffect(current: seq<IrCopy>, i: Instruction)
    ensures i.Copy? && i.copy in current ==> TransferStep(current, i) == current
    ensures i.Copy? && i.copy !in current ==>
              TransferStep(current, i) != [] && TransferStep(current, i)[|TransferStep(current, i)| - 1] == i.copy &&
              forall c :: c in TransferStep(current, i) <==> c == i.copy || (c in current && !Mentions(c, i.copy.destination))
    ensures (i.Unary? || i.Binary? || i.Call?) ==> forall c :: c in TransferStep(current, i) <==> c in current && !Mentions(c, Written(i))
    ensures !(i.Copy? || i.Unary? || i.Binary? || i.Call?) ==> TransferStep(current, i) == current
  {
  }

  /** The value an instruction writes, for the kinds that write one. */
  function Written(i: Instruction): Value
    requires i.Copy? || i.Unary? || i.Binary? || i.Call?
  {
    match i
    case Copy(c) => c.destination
    case Unary(_, _, result) => result
    case Binary(_, _, _, result) => result
    case Call(_, _, destination) => destination
  }

  /** The facts reaching instruction `k` of a block entered with `initial`. */
  function ReachingBefore(instrs: seq<Instruction>, initial: seq<IrCopy>, k: nat): seq<IrCopy>
    requires k <= |instrs|
  {
    if k == 0 then initial else TransferStep(ReachingBefore(instrs, initial, k - 1), instrs[k - 1])
  }

  /** The facts at the end of the block: its annotation after `transfer`. */
  function BlockOut(instrs: seq<Instruction>, initial: seq<IrCopy>): seq<IrCopy> {
    ReachingBefore(instrs, initial, |instrs|)
  }

  /** The copies of a list of instructions, in order. */
  function CopiesIn(instrs: seq<Instruction>): seq<IrCopy> {
    if instrs == [] then []
    else CopiesIn(instrs[..|instrs| - 1]) + (if instrs[|instrs| - 1].Copy? then [instrs[|instrs| - 1].copy] else [])
  }

  lemma {:induction false} CopiesInElems(instrs: seq<Instruction>)
    ensures forall c :: c in CopiesIn(instrs) <==> Copy(c) in instrs
  {
    if instrs != [] {
      CopiesInElems(instrs[..|instrs| - 1]);
      assert instrs == instrs[..|instrs| - 1] + [instrs[|instrs| - 1]];
    }
  }

  /** `find_all_copy_instr`: the copies of all nodes, in node and instruction order. */
  function CopiesOfNodes(ns: seq<Node>): seq<IrCopy> {
    if ns == [] then [] else CopiesOfNodes(ns[..|ns| - 1]) + CopiesIn(ns[|ns| - 1].instructions)
  }

  lemma {:induction false} CopiesOfNodesContains(ns: seq<Node>, k: nat)
    requires k < |ns|
    ensures Elems(CopiesIn(ns[k].instructions)) <= Elems(CopiesOfNodes(ns))
  {
    if k < |ns| - 1 {
      CopiesOfNodesContains(ns[..|ns| - 1], k);
    }
  }

  /** `transfer` is monotone: fewer facts in, fewer facts out. */
  lemma TransferStepMonotone(s1: seq<IrCopy>, s2: seq<IrCopy>, i: Instruction)
    requires Elems(s1) <= Elems(s2)
    ensures Elems(TransferStep(s1, i)) <= Elems(TransferStep(s2, i))
  {
    var t1, t2 := TransferStep(s1, i), TransferStep(s2, i);
    forall c | c in t1 ensures c in t2 {
      if i.Copy? {
        if i.copy in s1 {
          assert i.copy in s2;
          if i.copy != c && Mentions(c, i.copy.destination) {
          }
        }
      }
    }
  }

  lemma {:induction false} ReachingBeforeMonotone(instrs: seq<Instruction>, s1: seq<IrCopy>, s2: seq<IrCopy>, k: nat)
    requires k <= |instrs| && Elems(s1) <= Elems(s2)
    ensures Elems(ReachingBefore(instrs, s1, k)) <= Elems(ReachingBefore(instrs, s2, k))
  {
    if k > 0 {
      ReachingBeforeMonotone(instrs, s1, s2, k - 1);
      TransferStepMonotone(ReachingBefore(instrs, s1, k - 1), ReachingBefore(instrs, s2, k - 1), instrs[k - 1]);
    }
  }

  /** The facts inside a block come from its entry facts or from its own copies. */
  lemma {:induction false} ReachingBeforeBounded(instrs: seq<Instruction>, initial: seq<IrCopy>, k: nat)
    requires k <= |instrs|
    ensures Elems(ReachingBefore(instrs, initial, k)) <= Elems(initial) + Elems(CopiesIn(instrs))
  {
    if k > 0 {
      ReachingBeforeBounded(instrs, initial, k - 1);
      CopiesInElems(instrs);
      assert instrs[k - 1] in instrs;
    }
  }

  // ---------------------------------------------------------------------------------------------
  // What the facts mean: a fact d := s holds in a state where d and s have the same value

  /** A state: the value of each variable, 0 for one not yet written. */
  type State = map<string, int>

  function Lookup(env: State, x: string): int {
    if x in env then env[x] else 0
  }

  function Eval(env: State, v: Value): int {
    match v
    case Constant(n) => n
    case Named(x) => Lookup(env, x)
  }

  predicate Holds(env: State, facts: seq<IrCopy>) {
    forall c :: c in facts ==> Eval(env, c.destination) == Eval(env, c.source)
  }

  /** The state after writing `w` to `target`. */
  function Assign(env: State, target: Value, w: int): State {
    match target
    case Constant(_) => env
    case Named(x) => env[x := w]
  }

  /** The state after an instruction; `w` is the value a unary, binary or call produces. */
  function Execute(env: State, i: Instruction, w: int): State {
    match i
    case Copy(c) => Assign(env, c.destination, Eval(env, c.source))
    case Unary(_, _, result) => Assign(env, result, w)
    case Binary(_, _, _, result) => Assign(env, result, w)
    case Call(_, _, destination) => Assign(env, destination, w)
    case _ => env
  }

  lemma AssignOthers(env: State, target: Value, w: int, v: Value)
    requires v != target
    ensures Eval(Assign(env, target, w), v) == Eval(env, v)
  {
  }

  /** The analysis is sound for one instruction: facts that held before it hold after executing
      it, whatever value it computes (copies into a constant are not considered). */
  lemma TransferStepSound(env: State, facts: seq<IrCopy>, i: Instruction, w: int)
    requires Holds(env, facts)
    requires (i.Copy? || i.Unary? || i.Binary? || i.Call?) ==> Written(i).Named?
    ensures Holds(Execute(env, i, w), TransferStep(facts, i))
  {
    var env' := Execute(env, i, w);
    var out := TransferStep(facts, i);
    if i.Copy? {
      var d := i.copy.destination;
      var s := i.copy.source;
      forall c | c in out ensures Eval(env', c.destination) == Eval(env', c.source) {
        if i.copy in facts {
          assert Eval(env, d) == Eval(env, s);
          forall v ensures Eval(env', v) == Eval(env, v) {
            if v == d {
            } else {
              AssignOthers(env, d, Eval(env, s), v);
            }
          }
        } else if c == i.copy {
          if s != d {
            AssignOthers(env, d, Eval(env, s), s);
          }
        } else {
          AssignOthers(env, d, Eval(env, s), c.destination);
          AssignOthers(env, d, Eval(env, s), c.source);
        }
      }
    } else if i.Unary? || i.Binary? || i.Call? {
      forall c | c in out ensures Eval(env', c.destination) == Eval(env', c.source) {
        AssignOthers(env, Written(i), w, c.destination);
        AssignOthers(env, Written(i), w, c.source);
      }
    }
  }

  // ---------------------------------------------------------------------------------------------
  // Rewriting

  /** `replace_operand`: a constant stays; a name becomes the source of the first fact whose
      destination it is, or stays when there is none. */
  function ReplaceOperand(operand: Value, reaching: seq<IrCopy>): (r: Value)
    ensures operand.Constant? ==> r == operand
    ensures operand.Named? ==>
              forall k :: (0 <= k < |reaching| && reaching[k].destination == operand &&
                           forall j :: 0 <= j < k ==> reaching[j].destination != operand) ==> r == reaching[k].source
    ensures (forall k :: 0 <= k < |reaching| ==> reaching[k].destination != operand) ==> r == operand
    ensures r == operand || IrCopy(operand, r) in reaching
  {
    if operand.Constant? || reaching == [] then operand
    else if reaching[0].destination == operand then reaching[0].source
    else
      var r := ReplaceOperand(operand, reaching[1..]);
      assert forall k :: 1 <= k < |reaching| ==> reaching[1..][k - 1] == reaching[k];
      r
  }

  /** Replacing an operand does not change its value in a state where the facts hold. */
  lemma ReplaceOperandSound(env: State, reaching: seq<IrCopy>, operand: Value)
    requires Holds(env, reaching)
    ensures Eval(env, ReplaceOperand(operand, reaching)) == Eval(env, operand)
  {
  }

  function ReplaceAll(args: seq<Value>, reaching: seq<IrCopy>): (r: seq<Value>)
    ensures |r| == |args|
    ensures forall k :: 0 <= k < |args| ==> r[k] == ReplaceOperand(args[k], reaching)
  {
    if args == [] then [] else [ReplaceOperand(args[0], reaching)] + ReplaceAll(args[1..], reaching)
  }

  /** `rewrite_instruction`: a copy whose fact, or its reverse, already reaches it is dropped;
      otherwise operands are replaced, never the written value; other kinds are kept as they are. */
  function RewriteInstruction(i: Instruction, reaching: seq<IrCopy>): Option<Instruction>
  {
    match i
    case Copy(c) =>
      if ContainsCopy(reaching, c) || ContainsCopy(reaching, IrCopy(c.source, c.destination)) then None
      else Some(Copy(IrCopy(c.destination, ReplaceOperand(c.source, reaching))))
    case Unary(op, value, result) => Some(Unary(op, ReplaceOperand(value, reaching), result))
    case Binary(op, left, right, result) =>
      Some(Binary(op, ReplaceOperand(left, reaching), ReplaceOperand(right, reaching), result))
    case Call(name, args, destination) => Some(Call(name, ReplaceAll(args, reaching), destination))
    case _ => Some(i)
  }
  /** What `rewrite_instruction` promises: exactly the copies already known (or known reversed)
      are dropped, a kept instruction has the kind and the written value of the original, and
      the other kinds are kept as they are. */
  lemma RewriteInstructionEffect(i: Instruction, reaching: seq<IrCopy>)
    ensures RewriteInstruction(i, reaching).None? <==> i.Copy? && (i.copy in reaching || IrCopy(i.copy.source, i.copy.destination) in reaching)
    ensures RewriteInstruction(i, reaching).Some? && (i.Copy? || i.Unary? || i.Binary? || i.Call?) ==>
              SameShape(RewriteInstruction(i, reaching).value, i) && Written(RewriteInstruction(i, reaching).value) == Written(i)
    ensures !(i.Copy? || i.Unary? || i.Binary? || i.Call?) ==> RewriteInstruction(i, reaching) == Some(i)
  {
  }

  /** The same kind, operator and callee. */
  predicate SameShape(a: Instruction, b: Instruction) {
    match (a, b)
    case (Copy(_), Copy(_)) => true
    case (Unary(op1, _, _), Unary(op2, _, _)) => op1 == op2
    case (Binary(op1, _, _, _), Binary(op2, _, _, _)) => op1 == op2
    case (Call(f1, args1, _), Call(f2, args2, _)) => f1 == f2 && |args1| == |args2|
    case _ => false
  }

  /** The values an instruction reads, in order. */
  function Reads(i: Instruction): seq<Value> {
    match i
    case Return(v) => [v]
    case Binary(_, l, r, _) => [l, r]
    case Unary(_, v, _) => [v]
    case Copy(c) => [c.source]
    case JumpIfZero(c, _) => [c]
    case JumpIfNotZero(c, _) => [c]
    case Call(_, args, _) => args
    case _ => []
  }

  /** Rewriting is sound where the reaching facts hold: a kept instruction reads the same values
      as the original, and a dropped copy would not have changed the state. */
  lemma RewriteSound(env: State, i: Instruction, reaching: seq<IrCopy>)
    requires Holds(env, reaching)
    ensures RewriteInstruction(i, reaching).Some? ==>
              var j := RewriteInstruction(i, reaching).value;
              |Reads(j)| == |Reads(i)| && forall k :: 0 <= k < |Reads(i)| ==> Eval(env, Reads(j)[k]) == Eval(env, Reads(i)[k])
    ensures RewriteInstruction(i, reaching).None? ==> Eval(env, i.copy.destination) == Eval(env, i.copy.source)
  {
    forall v ensures Eval(env, ReplaceOperand(v, reaching)) == Eval(env, v) {
      ReplaceOperandSound(env, reaching, v);
    }
    if RewriteInstruction(i, reaching).None? {
      assert i.copy in reaching || IrCopy(i.copy.source, i.copy.destination) in reaching;
    }
  }

  // ---------------------------------------------------------------------------------------------
  // Executing a block: the rewritten block computes the same state as the original

  /** An instruction with its read operands blanked: what, besides the values it reads, decides
      the value it computes. */
  function ShapeOf(i: Instruction): Instruction {
    match i
    case Return(_) => Return(Constant(0))
    case Binary(op, _, _, result) => Binary(op, Constant(0), Constant(0), result)
    case Unary(op, _, result) => Unary(op, Constant(0), result)
    case Copy(c) => Copy(IrCopy(c.destination, Constant(0)))
    case JumpIfZero(_, t) => JumpIfZero(Constant(0), t)
    case JumpIfNotZero(_, t) => JumpIfNotZero(Constant(0), t)
    case Call(f, args, d) => Call(f, seq(|args|, _ => Constant(0)), d)
    case _ => i
  }

  function ReadValues(env: State, i: Instruction): (vs: seq<int>)
    ensures |vs| == |Reads(i)| && forall k :: 0 <= k < |vs| ==> vs[k] == Eval(env, Reads(i)[k])
  {
    seq(|Reads(i)|, k requires 0 <= k < |Reads(i)| => Eval(env, Reads(i)[k]))
  }

  /** One instruction run in `env`; `compute` gives the value a unary, binary or call produces
      from the instruction's shape and the values it reads. */
  function Step(env: State, i: Instruction, compute: (Instruction, seq<int>) -> int): State {
    Execute(env, i, compute(ShapeOf(i), ReadValues(env, i)))
  }

  function Run(env: State, instrs: seq<Instruction>, compute: (Instruction, seq<int>) -> int): State
    decreases |instrs|
  {
    if instrs == [] then env else Step(Run(env, instrs[..|instrs| - 1], compute), instrs[|instrs| - 1], compute)
  }

  ghost predicate SameState(e1: State, e2: State) {
    forall x :: Lookup(e1, x) == Lookup(e2, x)
  }

  predicate NamedDestinations(instrs: seq<Instruction>) {
    forall k :: 0 <= k < |instrs| && (instrs[k].Copy? || instrs[k].Unary? || instrs[k].Binary? || instrs[k].Call?) ==>
      Written(instrs[k]).Named?
  }

  function Kept(r: Option<Instruction>): seq<Instruction> {
    if r.Some? then [r.value] else []
  }

  /** The block as `apply` leaves it when `entry` reaches its start: every instruction rewritten
      with the facts reaching it, dropped copies left out. */
  function RewriteWith(instrs: seq<Instruction>, entry: seq<IrCopy>, k: nat): seq<Instruction>
    requires k <= |instrs|
  {
    if k == 0 then []
    else RewriteWith(instrs, entry, k - 1) + Kept(RewriteInstruction(instrs[k - 1], ReachingBefore(instrs, entry, k - 1)))
  }

  lemma EvalSameState(e1: State, e2: State, v: Value)
    requires SameState(e1, e2)
    ensures Eval(e1, v) == Eval(e2, v)
  {
  }

  lemma ExecuteSameState(e1: State, e2: State, i: Instruction, w: int)
    requires SameState(e1, e2)
    ensures SameState(Execute(e1, i, w), Execute(e2, i, w))
  {
    var w' := if i.Copy? then Eval(e1, i.copy.source) else w;
    if i.Copy? {
      EvalSameState(e1, e2, i.copy.source);
    }
    if i.Copy? || i.Unary? || i.Binary? || i.Call? {
      assert Execute(e1, i, w) == Assign(e1, Written(i), w');
      assert Execute(e2, i, w) == Assign(e2, Written(i), w');
      AssignSameState(e1, e2, Written(i), w');
    }
  }

  lemma AssignSameState(e1: State, e2: State, target: Value, w: int)
    requires SameState(e1, e2)
    ensures SameState(Assign(e1, target, w), Assign(e2, target, w))
  {
    forall x ensures Lookup(Assign(e1, target, w), x) == Lookup(Assign(e2, target, w), x) {
      assert Lookup(e1, x) == Lookup(e2, x);
    }
  }

  lemma ShapeOfSameShape(a: Instruction, b: Instruction)
    requires SameShape(a, b) && Written(a) == Written(b)
    ensures ShapeOf(a) == ShapeOf(b)
  {
  }

  /** One instruction against its rewrite: where the reaching facts hold, the kept rewrite moves
      the state exactly as the original does, and a dropped copy leaves it as it was. */
  lemma StepRewriteSame(env: State, i: Instruction, facts: seq<IrCopy>, compute: (Instruction, seq<int>) -> int)
    requires Holds(env, facts)
    ensures RewriteInstruction(i, facts).Some? ==> SameState(Step(env, i, compute), Step(env, RewriteInstruction(i, facts).value, compute))
    ensures RewriteInstruction(i, facts).None? ==> SameState(Step(env, i, compute), env)
  {
    RewriteSound(env, i, facts);
    var r := RewriteInstruction(i, facts);
    if r.Some? {
      var j := r.value;
      assert ReadValues(env, i) == ReadValues(env, j);
      if i.Copy? || i.Unary? || i.Binary? || i.Call? {
        ShapeOfSameShape(j, i);
      }
    } else {
      var d := i.copy.destination;
      forall x ensures Lookup(Step(env, i, compute), x) == Lookup(env, x) {
        if d.Named? && d.name == x {
        }
      }
    }
  }

  lemma {:induction false} RunSplit(env: State, a: seq<Instruction>, b: seq<Instruction>, compute: (Instruction, seq<int>) -> int)
    requires b != []
    ensures Run(env, a + b, compute) == Step(Run(env, a + b[..|b| - 1], compute), b[|b| - 1], compute)
  {
    assert (a + b)[..|a + b| - 1] == a + b[..|b| - 1];
  }

  /** The state after the first `k` instructions. */
  function RunUpTo(env: State, instrs: seq<Instruction>, k: nat, compute: (Instruction, seq<int>) -> int): State
    requires k <= |instrs|
  {
    if k == 0 then env else Step(RunUpTo(env, instrs, k - 1, compute), instrs[k - 1], compute)
  }

  /** After the first `k` instructions the facts reaching instruction `k` hold, and the rewritten
      prefix has led to the same state. */
  ghost predicate Agrees(env: State, instrs: seq<Instruction>, entry: seq<IrCopy>, k: nat, compute: (Instruction, seq<int>) -> int)
    requires k <= |instrs|
  {
    Holds(RunUpTo(env, instrs, k, compute), ReachingBefore(instrs, entry, k)) &&
    SameState(RunUpTo(env, instrs, k, compute), Run(env, RewriteWith(instrs, entry, k), compute))
  }

  lemma AgreesStep(env: State, instrs: seq<Instruction>, entry: seq<IrCopy>, k: nat, compute: (Instruction, seq<int>) -> int)
    requires 0 < k <= |instrs| && NamedDestinations(instrs) && Agrees(env, instrs, entry, k - 1, compute)
    ensures Agrees(env, instrs, entry, k, compute)
  {
    FactsStep(env, instrs, entry, k, compute);
    RewriteStep(env, instrs, entry, k, compute);
  }

  /** The facts before instruction `k - 1` hold; then those after it hold once it has run. */
  lemma FactsStep(env: State, instrs: seq<Instruction>, entry: seq<IrCopy>, k: nat,
                  compute: (Instruction, seq<int>) -> int)
    requires 0 < k <= |instrs| && NamedDestinations(instrs)
    requires Holds(RunUpTo(env, instrs, k - 1, compute), ReachingBefore(instrs, entry, k - 1))
    ensures Holds(RunUpTo(env, instrs, k, compute), ReachingBefore(instrs, entry, k))
  {
    var orig := RunUpTo(env, instrs, k - 1, compute);
    TransferStepSound(orig, ReachingBefore(instrs, entry, k - 1), instrs[k - 1],
                      compute(ShapeOf(instrs[k - 1]), ReadValues(orig, instrs[k - 1])));
  }

  /** The facts before instruction `k - 1` hold and the rewritten prefix agrees with the original;
      then the two agree one instruction later. */
  lemma RewriteStep(env: State, instrs: seq<Instruction>, entry: seq<IrCopy>, k: nat,
                    compute: (Instruction, seq<int>) -> int)
    requires 0 < k <= |instrs|
    requires Holds(RunUpTo(env, instrs, k - 1, compute), ReachingBefore(instrs, entry, k - 1))
    requires SameState(RunUpTo(env, instrs, k - 1, compute), Run(env, RewriteWith(instrs, entry, k - 1), compute))
    ensures SameState(RunUpTo(env, instrs, k, compute), Run(env, RewriteWith(instrs, entry, k), compute))
  {
    var i := instrs[k - 1];
    var facts := ReachingBefore(instrs, entry, k - 1);
    var orig := RunUpTo(env, instrs, k - 1, compute);
    var rewritten := RewriteWith(instrs, entry, k - 1);
    StepRewriteSame(orig, i, facts, compute);
    var kept := Kept(RewriteInstruction(i, facts));
    if kept == [] {
      assert rewritten + kept == rewritten;
    } else {
      RunSplit(env, rewritten, kept, compute);
      assert rewritten + kept[..0] == rewritten;
      StepSameState(orig, Run(env, rewritten, compute), kept[0], compute);
    }
  }

  lemma StepSameState(e1: State, e2: State, i: Instruction, compute: (Instruction, seq<int>) -> int)
    requires SameState(e1, e2)
    ensures SameState(Step(e1, i, compute), Step(e2, i, compute))
  {
    assert ReadValues(e1, i) == ReadValues(e2, i);
    ExecuteSameState(e1, e2, i, compute(ShapeOf(i), ReadValues(e1, i)));
  }

  /** Copy propagation preserves the meaning of a block: started in a state where the entry facts
      hold, the rewritten prefix of each length leads to the same state as the original prefix,
      and the facts the analysis computes hold along the way. */
  lemma {:induction false} RewritePreservesRun(env: State, instrs: seq<Instruction>, entry: seq<IrCopy>, k: nat,
                                               compute: (Instruction, seq<int>) -> int)
    requires k <= |instrs| && Holds(env, entry) && NamedDestinations(instrs)
    ensures Agrees(env, instrs, entry, k, compute)
  {
    if k == 0 {
      AgreesStart(env, instrs, entry, compute);
    } else {
      RewritePreservesRun(env, instrs, entry, k - 1, compute);
      AgreesStep(env, instrs, entry, k, compute);
    }
  }

  lemma AgreesStart(env: State, instrs: seq<Instruction>, entry: seq<IrCopy>, compute: (Instruction, seq<int>) -> int)
    requires Holds(env, entry)
    ensures Agrees(env, instrs, entry, 0, compute)
  {
    assert RewriteWith(instrs, entry, 0) == [];
    assert Run(env, [], compute) == env;
  }

  // ---------------------------------------------------------------------------------------------
  // The worklist algorithm: its state and its invariant

  /** The instruction annotations `transfer` writes for block `id` entered with `initial`, up to
      instruction `k`. */
  function AnnotateInstructions(m: map<(int, int), seq<IrCopy>>, id: int, instrs: seq<Instruction>,
                                initial: seq<IrCopy>, k: nat): map<(int, int), seq<IrCopy>>
    requires k <= |instrs|
  {
    if k == 0 then m
    else AnnotateInstructions(m, id, instrs, initial, k - 1)[(id, k - 1) := ReachingBefore(instrs, initial, k - 1)]
  }

  /** What `transfer` leaves in the instruction annotations: the facts reaching instruction `i`
      of block `id` for every `i` below `k`, and every other entry as it was. */
  lemma {:induction false} AnnotateInstructionsAt(m: map<(int, int), seq<IrCopy>>, id: int, instrs: seq<Instruction>,
                                                  initial: seq<IrCopy>, k: nat, key: (int, int))
    requires k <= |instrs|
    ensures key in AnnotateInstructions(m, id, instrs, initial, k) <==> key in m || (key.0 == id && 0 <= key.1 < k)
    ensures key in AnnotateInstructions(m, id, instrs, initial, k) ==>
              AnnotateInstructions(m, id, instrs, initial, k)[key] ==
                if key.0 == id && 0 <= key.1 < k then ReachingBefore(instrs, initial, key.1) else m[key]
  {
    if k > 0 {
      AnnotateInstructionsAt(m, id, instrs, initial, k - 1, key);
    }
  }

  /** After `transfer` of block `x` with entry facts `m`, block `x` is annotated for `m` and every
      other block keeps its annotations. */
  lemma AnnotatedAfterTransfer(ns: seq<Node>, blocks: map<int, seq<IrCopy>>, instrAnn: map<(int, int), seq<IrCopy>>,
                               x: int, m: seq<IrCopy>, y: int, e: seq<IrCopy>)
    requires HasId(ns, x) && HasId(ns, y)
    requires y == x ==> e == m
    requires y != x ==> Annotated(ns, blocks, instrAnn, y, e)
    ensures var n := NodeOf(ns, x);
            Annotated(ns, blocks[x := BlockOut(n.instructions, m)],
                      AnnotateInstructions(instrAnn, x, n.instructions, m, |n.instructions|), y, e)
  {
    var n := NodeOf(ns, x);
    var instrs := NodeOf(ns, y).instructions;
    forall i | 0 <= i < |instrs|
      ensures (y, i) in AnnotateInstructions(instrAnn, x, n.instructions, m, |n.instructions|) &&
              AnnotateInstructions(instrAnn, x, n.instructions, m, |n.instructions|)[(y, i)] == ReachingBefore(instrs, e, i)
    {
      AnnotateInstructionsAt(instrAnn, x, n.instructions, m, |n.instructions|, (y, i));
    }
  }

  lemma AnnotateNext(m: map<(int, int), seq<IrCopy>>, id: int, instrs: seq<Instruction>, initial: seq<IrCopy>, k: nat)
    requires k < |instrs|
    ensures AnnotateInstructions(m, id, instrs, initial, k + 1) ==
              AnnotateInstructions(m, id, instrs, initial, k)[(id, k) := ReachingBefore(instrs, initial, k)]
    ensures ReachingBefore(instrs, initial, k + 1) == TransferStep(ReachingBefore(instrs, initial, k), instrs[k])
  {
  }

  /** Pushing the successors of a changed block: EXIT is skipped, ENTRY is an error, and an id
      already waiting is not pushed again. */
  function Enqueue(wl: seq<int>, successors: seq<int>): (r: Result<seq<int>>)
    ensures r.Ok? <==> ENTRY !in successors
    ensures r.Ok? ==> forall y :: y in r.value <==> y in wl || (y in successors && y != EXIT)
    ensures r.Ok? ==> |r.value| >= |wl| && r.value[..|wl|] == wl
    decreases |successors|
  {
    if successors == [] then Ok(wl)
    else if successors[0] == EXIT then Enqueue(wl, successors[1..])
    else if successors[0] == ENTRY then Err("Malformed control graph")
    else
      var r := Enqueue(if successors[0] in wl then wl else wl + [successors[0]], successors[1..]);
      if r.Ok? then
        assert forall y :: y in successors <==> y == successors[0] || y in successors[1..];
        if successors[0] !in wl then
          assert r.value[..|wl|] == r.value[..|wl| + 1][..|wl|];
          r
        else r
      else r
  }

  /** No id is listed twice. */
  predicate NoDuplicates(wl: seq<int>) {
    wl == [] || (wl[0] !in wl[1..] && NoDuplicates(wl[1..]))
  }

  /** `NoDuplicates` says that the entries at two different positions differ. */
  lemma {:induction false} NoDuplicatesIndices(wl: seq<int>)
    ensures NoDuplicates(wl) <==> forall a, b :: 0 <= a < b < |wl| ==> wl[a] != wl[b]
  {
    if wl != [] {
      NoDuplicatesIndices(wl[1..]);
      if forall a, b :: 0 <= a < b < |wl| ==> wl[a] != wl[b] {
        assert forall a, b :: 0 <= a < b < |wl[1..]| ==> wl[1..][a] == wl[a + 1] && wl[1..][b] == wl[b + 1];
        forall b | 0 <= b < |wl[1..]|
          ensures wl[1..][b] != wl[0]
        {
          assert wl[1..][b] == wl[b + 1];
        }
      }
      if NoDuplicates(wl) {
        forall a, b | 0 <= a < b < |wl| ensures wl[a] != wl[b] {
          assert wl[b] == wl[1..][b - 1];
          if a > 0 {
            assert wl[a] == wl[1..][a - 1];
          }
        }
      }
    }
  }

  lemma {:induction false} NoDuplicatesSnoc(wl: seq<int>, y: int)
    requires NoDuplicates(wl) && y !in wl
    ensures NoDuplicates(wl + [y])
  {
    if wl != [] {
      assert (wl + [y])[1..] == wl[1..] + [y];
      NoDuplicatesSnoc(wl[1..], y);
    }
  }

  /** The worklist never holds an id twice once it starts without duplicates. */
  lemma {:induction false} EnqueueNoDuplicates(wl: seq<int>, successors: seq<int>)
    requires NoDuplicates(wl) && Enqueue(wl, successors).Ok?
    ensures NoDuplicates(Enqueue(wl, successors).value)
    decreases |successors|
  {
    if successors != [] && successors[0] != EXIT {
      if successors[0] in wl {
        EnqueueNoDuplicates(wl, successors[1..]);
      } else {
        NoDuplicatesSnoc(wl, successors[0]);
        EnqueueNoDuplicates(wl + [successors[0]], successors[1..]);
      }
    } else if successors != [] {
      EnqueueNoDuplicates(wl, successors[1..]);
    }
  }

  predicate IsRealId(ns: seq<Node>, x: int) {
    x != ENTRY && x != EXIT && HasId(ns, x)
  }

  /** The ids of the nodes other than ENTRY and EXIT, in node order. */
  function RealIds(ns: seq<Node>): (r: seq<int>)
    ensures forall x :: x in r <==> IsRealId(ns, x)
  {
    if ns == [] then []
    else
      var init := ns[..|ns| - 1];
      var last := ns[|ns| - 1];
      assert forall x :: HasId(ns, x) <==> HasId(init, x) || x == last.id by {
        forall x | HasId(ns, x) && x != last.id ensures HasId(init, x) {
          var k :| 0 <= k < |ns| && ns[k].id == x;
          assert init[k].id == x;
        }
        forall x | HasId(init, x) ensures HasId(ns, x) {
          var k :| 0 <= k < |init| && init[k].id == x;
          assert ns[k].id == x;
        }
      }
      RealIds(init) + (if last.id != ENTRY && last.id != EXIT then [last.id] else [])
  }

  /** On nodes with distinct ids no id is listed twice. */
  lemma {:induction false} RealIdsNoDuplicates(ns: seq<Node>)
    requires DistinctIds(ns)
    ensures NoDuplicates(RealIds(ns))
  {
    if ns != [] {
      var init := ns[..|ns| - 1];
      var last := ns[|ns| - 1];
      assert DistinctIds(init);
      RealIdsNoDuplicates(init);
      if last.id != ENTRY && last.id != EXIT {
        assert !HasId(init, last.id);
        assert RealIds(ns) == RealIds(init) + [last.id];
        NoDuplicatesSnoc(RealIds(init), last.id);
      } else {
        assert RealIds(init) + [] == RealIds(init);
        assert RealIds(ns) == RealIds(init);
      }
    }
  }

  /** The node `get_node_from_id` finds. */
  function NodeOf(ns: seq<Node>, x: int): (n: Node)
    requires HasId(ns, x)
    ensures n in ns && n.id == x
  {
    ns[IndexOf(ns, x)]
  }

  function MeetOf(ns: seq<Node>, blocks: map<int, seq<IrCopy>>, allCopies: seq<IrCopy>, x: int): Result<seq<IrCopy>>
    requires HasId(ns, x)
  {
    Meet(NodeOf(ns, x).predecessors, blocks, allCopies)
  }

  /** The shape of the graphs the builder produces: distinct ids, every predecessor is ENTRY or a
      real node, and whoever a node lists as predecessor lists the node as successor. */
  predicate WellLinked(ns: seq<Node>) {
    DistinctIds(ns) &&
    (forall j, p :: 0 <= j < |ns| && p in ns[j].predecessors ==> p == ENTRY || IsRealId(ns, p)) &&
    (forall i, j :: 0 <= i < |ns| && 0 <= j < |ns| && ns[i].id in ns[j].predecessors ==> ns[j].id in ns[i].successors)
  }

  /** The converse of the last clause of `WellLinked`: whoever a node lists as successor lists
      the node as predecessor. */
  predicate SuccessorsLinked(ns: seq<Node>) {
    forall i, j :: 0 <= i < |ns| && 0 <= j < |ns| && ns[j].id in ns[i].successors ==> ns[i].id in ns[j].predecessors
  }

  /** Nodes with distinct ids and no edges yet, wired by edges that each start at ENTRY or at a
      real node, make a well-linked graph whose edges are symmetric. */
  lemma WiredWellLinked(ns: seq<Node>, es: seq<(int, int)>, g: seq<Node>)
    requires DistinctIds(ns)
    requires forall j :: 0 <= j < |ns| ==> ns[j].successors == [] && ns[j].predecessors == []
    requires forall e :: e in es ==> e.0 == ENTRY || IsRealId(ns, e.0)
    requires g == WithEdges(ns, es)
    ensures WellLinked(g) && SuccessorsLinked(g)
  {
    forall k | 0 <= k < |ns|
      ensures g[k].id == ns[k].id
    {
      WithEdgesLists(ns, es, k);
    }
    forall j, p | 0 <= j < |g| && p in g[j].predecessors
      ensures p == ENTRY || IsRealId(g, p)
    {
      WithEdgesLists(ns, es, j);
      TargetsSources(es, p, ns[j].id);
      if p != ENTRY {
        var i :| 0 <= i < |ns| && ns[i].id == p;
        assert g[i].id == p;
      }
    }
    forall i, j | 0 <= i < |g| && 0 <= j < |g|
      ensures g[i].id in g[j].predecessors <==> g[j].id in g[i].successors
    {
      EdgesSymmetric(ns, es, i, j);
    }
  }

  /** The edges `add_all_edges` adds each start at ENTRY or at a real node. */
  lemma AllEdgesStartInGraph(ns: seq<Node>, idCounter: int, labels: map<string, int>)
    requires RealNodesNonEmpty(ns) && NodeEdges(ns, idCounter, labels).Ok?
    ensures forall e :: e in NodeEdges(ns, idCounter, labels).value ==> IsRealId(ns, e.0)
  {
    NodeEdgesFromNodes(ns, |ns|, idCounter, labels);
  }

  /** A graph `generate_flowgraph` lays out and wires is well linked, and its edges are
      symmetric: a node lists another as successor exactly when the other lists it as predecessor. */
  lemma BuiltGraphWellLinked(ns: seq<Node>, start: nat, blocks: seq<seq<Instruction>>, idCounter: int,
                             labels: map<string, int>, g: seq<Node>)
    requires ns == Layout(start, blocks) && RealNodesNonEmpty(ns)
    requires AllEdges(ns, idCounter, labels).Ok? && g == WithEdges(ns, AllEdges(ns, idCounter, labels).value)
    ensures WellLinked(g) && SuccessorsLinked(g)
  {
    LayoutUnwired(start, blocks);
    EdgesWellLinked(ns, idCounter, labels, g);
  }

  /** A fresh layout has distinct ids and no edges yet. */
  lemma LayoutUnwired(start: nat, blocks: seq<seq<Instruction>>)
    ensures DistinctIds(Layout(start, blocks))
    ensures forall j :: 0 <= j < |Layout(start, blocks)| ==>
              Layout(start, blocks)[j].successors == [] && Layout(start, blocks)[j].predecessors == []
  {
    LayoutDistinct(start, blocks);
  }

  /** Wiring the edges `add_all_edges` computes into distinct, unwired nodes gives a well-linked graph. */
  lemma EdgesWellLinked(ns: seq<Node>, idCounter: int, labels: map<string, int>, g: seq<Node>)
    requires DistinctIds(ns) && RealNodesNonEmpty(ns)
    requires forall j :: 0 <= j < |ns| ==> ns[j].successors == [] && ns[j].predecessors == []
    requires AllEdges(ns, idCounter, labels).Ok? && g == WithEdges(ns, AllEdges(ns, idCounter, labels).value)
    ensures WellLinked(g) && SuccessorsLinked(g)
  {
    var rest := NodeEdges(ns, idCounter, labels);
    assert rest.Ok?;
    AllEdgesStartInGraph(ns, idCounter, labels);
    var es := [(ENTRY, 1)] + rest.value;
    assert AllEdges(ns, idCounter, labels).value == es;
    assert forall e :: e in es ==> e.0 == ENTRY || IsRealId(ns, e.0);
    WiredWellLinked(ns, es, g);
  }

  /** Block `x` was processed with entry facts `entry`: its annotation and the annotations of its
      instructions are the ones `transfer` computes from them. */
  predicate Annotated(ns: seq<Node>, blocks: map<int, seq<IrCopy>>, instrAnn: map<(int, int), seq<IrCopy>>,
                      x: int, entry: seq<IrCopy>)
    requires HasId(ns, x)
  {
    var instrs := NodeOf(ns, x).instructions;
    x in blocks && blocks[x] == BlockOut(instrs, entry) &&
    forall i :: 0 <= i < |instrs| ==> (x, i) in instrAnn && instrAnn[(x, i)] == ReachingBefore(instrs, entry, i)
  }

  /** What the worklist loop keeps. `processed` and `lastMeet` are ghost: the blocks processed so
      far and the meet each was last processed with. */
  ghost predicate WorklistInv(ns: seq<Node>, allCopies: seq<IrCopy>, blocks: map<int, seq<IrCopy>>,
                              instrAnn: map<(int, int), seq<IrCopy>>, wl: seq<int>,
                              processed: set<int>, lastMeet: map<int, seq<IrCopy>>)
  {
    OnlyRealIds(wl) && Covered(ns, blocks, wl, processed) && Fresh(ns, allCopies, blocks, processed) &&
    AllProcessed(ns, allCopies, blocks, instrAnn, processed, lastMeet) && Stable(ns, allCopies, blocks, wl, lastMeet)
  }

  ghost predicate OnlyRealIds(wl: seq<int>) {
    forall k :: 0 <= k < |wl| ==> wl[k] != ENTRY && wl[k] != EXIT
  }

  /** Every real block is annotated, and waiting or processed. */
  ghost predicate Covered(ns: seq<Node>, blocks: map<int, seq<IrCopy>>, wl: seq<int>, processed: set<int>) {
    forall x :: IsRealId(ns, x) ==> x in blocks && (x in wl || x in processed)
  }

  /** A block not processed yet still has its seed annotation. */
  ghost predicate Fresh(ns: seq<Node>, allCopies: seq<IrCopy>, blocks: map<int, seq<IrCopy>>, processed: set<int>) {
    forall x :: IsRealId(ns, x) && x !in processed ==> x in blocks && blocks[x] == allCopies
  }

  ghost predicate AllProcessed(ns: seq<Node>, allCopies: seq<IrCopy>, blocks: map<int, seq<IrCopy>>,
                               instrAnn: map<(int, int), seq<IrCopy>>, processed: set<int>, lastMeet: map<int, seq<IrCopy>>)
  {
    forall x :: x in processed ==> Processed(ns, allCopies, blocks, instrAnn, x, lastMeet)
  }

  /** On graphs of the builder's shape, a real block off the worklist sees the meet it was last
      processed with. */
  ghost predicate Stable(ns: seq<Node>, allCopies: seq<IrCopy>, blocks: map<int, seq<IrCopy>>, wl: seq<int>,
                         lastMeet: map<int, seq<IrCopy>>)
  {
    WellLinked(ns) ==>
      forall x :: IsRealId(ns, x) && x !in wl ==> x in lastMeet && MeetOf(ns, blocks, allCopies, x) == Ok(lastMeet[x])
  }

  ghost predicate Processed(ns: seq<Node>, allCopies: seq<IrCopy>, blocks: map<int, seq<IrCopy>>,
                            instrAnn: map<(int, int), seq<IrCopy>>, x: int, lastMeet: map<int, seq<IrCopy>>)
  {
    IsRealId(ns, x) && x in lastMeet && IsFilterOf(lastMeet[x], allCopies) &&
    Annotated(ns, blocks, instrAnn, x, lastMeet[x]) &&
    MeetOf(ns, blocks, allCopies, x).Ok? && Elems(MeetOf(ns, blocks, allCopies, x).value) <= Elems(lastMeet[x])
  }

  /** The termination measure: a block not yet processed counts one more than all copies, a
      processed one the length of the meet it was last processed with. */
  function Term(x: int, processed: set<int>, lastMeet: map<int, seq<IrCopy>>, top: nat): nat {
    if x in processed && x in lastMeet then |lastMeet[x]| else top + 1
  }

  function Potential(ns: seq<Node>, processed: set<int>, lastMeet: map<int, seq<IrCopy>>, top: nat): nat {
    if ns == [] then 0 else Potential(ns[..|ns| - 1], processed, lastMeet, top) + Term(ns[|ns| - 1].id, processed, lastMeet, top)
  }

  lemma {:induction false} PotentialDecreases(ns: seq<Node>, processed: set<int>, lastMeet: map<int, seq<IrCopy>>,
                                              x: int, m: seq<IrCopy>, top: nat)
    requires Term(x, processed + {x}, lastMeet[x := m], top) <= Term(x, processed, lastMeet, top)
    ensures Potential(ns, processed + {x}, lastMeet[x := m], top) <= Potential(ns, processed, lastMeet, top)
    ensures Term(x, processed + {x}, lastMeet[x := m], top) < Term(x, processed, lastMeet, top) && HasId(ns, x) ==>
              Potential(ns, processed + {x}, lastMeet[x := m], top) < Potential(ns, processed, lastMeet, top)
  {
    if ns != [] {
      var init := ns[..|ns| - 1];
      PotentialDecreases(init, processed, lastMeet, x, m, top);
      if HasId(ns, x) && !HasId(init, x) {
        assert ns[|ns| - 1].id == x;
      }
    }
  }

  /** Filters of one list: fewer entries kept, a shorter list. */
  lemma {:induction false} FilterByShorter(xs: seq<IrCopy>, a: set<IrCopy>, b: set<IrCopy>)
    requires a <= b
    ensures |FilterBy(xs, a)| <= |FilterBy(xs, b)|
    ensures (exists c :: c in xs && c in b && c !in a) ==> |FilterBy(xs, a)| < |FilterBy(xs, b)|
  {
    if xs != [] {
      FilterByShorter(xs[1..], a, b);
      if exists c :: c in xs && c in b && c !in a {
        var c :| c in xs && c in b && c !in a;
        if c != xs[0] {
          assert c in xs[1..];
        }
      }
    }
  }

  /** The solution the worklist loop reaches: every real block was processed with entry facts
      `entry[x]`, a filter of all copies, and carries the annotations `transfer` computes from them. */
  ghost predicate Solved(ns: seq<Node>, allCopies: seq<IrCopy>, blocks: map<int, seq<IrCopy>>,
                         instrAnn: map<(int, int), seq<IrCopy>>, entry: map<int, seq<IrCopy>>)
  {
    forall x :: IsRealId(ns, x) ==> Processed(ns, allCopies, blocks, instrAnn, x, entry)
  }

  /** A fixed point of the data-flow equations: each block's entry facts are the meet of its
      predecessors' annotations, and each annotation is the transfer of the entry facts. */
  ghost predicate Fixpoint(ns: seq<Node>, allCopies: seq<IrCopy>, blocks: map<int, seq<IrCopy>>,
                           instrAnn: map<(int, int), seq<IrCopy>>, entry: map<int, seq<IrCopy>>)
  {
    Solved(ns, allCopies, blocks, instrAnn, entry) && EntriesAreMeets(ns, allCopies, blocks, entry)
  }

  /** Each real block's entry facts are the meet of its predecessors' annotations. */
  ghost predicate EntriesAreMeets(ns: seq<Node>, allCopies: seq<IrCopy>, blocks: map<int, seq<IrCopy>>,
                                  entry: map<int, seq<IrCopy>>)
  {
    forall x :: IsRealId(ns, x) ==> x in entry && MeetOf(ns, blocks, allCopies, x) == Ok(entry[x])
  }

  /** At a fixed point a fact reaches the start of a block only when the block has no ENTRY
      predecessor and the fact leaves every predecessor. */
  lemma FixpointFlows(ns: seq<Node>, allCopies: seq<IrCopy>, blocks: map<int, seq<IrCopy>>,
                      instrAnn: map<(int, int), seq<IrCopy>>, entry: map<int, seq<IrCopy>>, x: int, c: IrCopy)
    requires WellLinked(ns) && Fixpoint(ns, allCopies, blocks, instrAnn, entry) && IsRealId(ns, x)
    requires c in entry[x]
    ensures ENTRY !in NodeOf(ns, x).predecessors
    ensures forall p :: p in NodeOf(ns, x).predecessors ==>
              IsRealId(ns, p) && c in BlockOut(NodeOf(ns, p).instructions, entry[p])
  {
    var preds := NodeOf(ns, x).predecessors;
    var m := MeetFrom(preds, blocks, allCopies);
    assert m == Ok(entry[x]);
    if ENTRY in preds {
      var k :| 0 <= k < |preds| && preds[k] == ENTRY;
      MeetWithEntry(preds, blocks, allCopies, k);
      assert false;
    }
    forall p | p in preds
      ensures IsRealId(ns, p) && c in BlockOut(NodeOf(ns, p).instructions, entry[p])
    {
      var j := IndexOf(ns, x);
      assert p in ns[j].predecessors;
      assert IsRealId(ns, p);
      assert Processed(ns, allCopies, blocks, instrAnn, p, entry);
    }
  }

  /** A meet that reaches an ENTRY predecessor is empty. */
  lemma {:induction false} MeetWithEntry(preds: seq<int>, blocks: map<int, seq<IrCopy>>, incoming: seq<IrCopy>, k: nat)
    requires k < |preds| && preds[k] == ENTRY && MeetFrom(preds, blocks, incoming).Ok?
    ensures MeetFrom(preds, blocks, incoming).value == []
  {
    if preds[0] != ENTRY {
      assert k > 0 && preds[1..][k - 1] == ENTRY;
      MeetWithEntry(preds[1..], blocks, FilterBy(incoming, Elems(blocks[preds[0]])), k - 1);
    }
  }

  /** Every annotation of a solution holds only copies of the graph: the entry facts, the facts
      at the end of each block and the facts before each of its instructions. */
  lemma AnnotationsBounded(ns: seq<Node>, blocks: map<int, seq<IrCopy>>, instrAnn: map<(int, int), seq<IrCopy>>,
                           entry: map<int, seq<IrCopy>>)
    requires Solved(ns, CopiesOfNodes(ns), blocks, instrAnn, entry)
    ensures forall x :: IsRealId(ns, x) ==>
              x in entry && Elems(entry[x]) <= Elems(CopiesOfNodes(ns)) &&
              x in blocks && Elems(blocks[x]) <= Elems(CopiesOfNodes(ns))
    ensures forall x, i :: IsRealId(ns, x) && 0 <= i < |NodeOf(ns, x).instructions| ==>
              (x, i) in instrAnn && Elems(instrAnn[(x, i)]) <= Elems(CopiesOfNodes(ns))
  {
    forall x | IsRealId(ns, x)
      ensures x in entry && Elems(entry[x]) <= Elems(CopiesOfNodes(ns))
      ensures x in blocks && Elems(blocks[x]) <= Elems(CopiesOfNodes(ns))
      ensures forall i :: 0 <= i < |NodeOf(ns, x).instructions| ==>
                (x, i) in instrAnn && Elems(instrAnn[(x, i)]) <= Elems(CopiesOfNodes(ns))
    {
      AnnotationBounded(ns, blocks, instrAnn, entry, x);
    }
  }

  lemma AnnotationBounded(ns: seq<Node>, blocks: map<int, seq<IrCopy>>, instrAnn: map<(int, int), seq<IrCopy>>,
                          entry: map<int, seq<IrCopy>>, x: int)
    requires IsRealId(ns, x) && Processed(ns, CopiesOfNodes(ns), blocks, instrAnn, x, entry)
    ensures x in entry && Elems(entry[x]) <= Elems(CopiesOfNodes(ns))
    ensures x in blocks && Elems(blocks[x]) <= Elems(CopiesOfNodes(ns))
    ensures forall i :: 0 <= i < |NodeOf(ns, x).instructions| ==>
              (x, i) in instrAnn && Elems(instrAnn[(x, i)]) <= Elems(CopiesOfNodes(ns))
  {
    var all := CopiesOfNodes(ns);
    var instrs := NodeOf(ns, x).instructions;
    assert Elems(entry[x]) <= Elems(all);
    CopiesOfNodesContains(ns, IndexOf(ns, x));
    ReachingBeforeBounded(instrs, entry[x], |instrs|);
    forall i | 0 <= i < |instrs|
      ensures (x, i) in instrAnn && Elems(instrAnn[(x, i)]) <= Elems(all)
    {
      ReachingBeforeBounded(instrs, entry[x], i);
    }
  }

  // ---------------------------------------------------------------------------------------------
  // The greatest fixed point

  /** Every real block of `small` holds no more copies than the same block of `large`. */
  ghost predicate Within(ns: seq<Node>, small: map<int, seq<IrCopy>>, large: map<int, seq<IrCopy>>) {
    forall x :: IsRealId(ns, x) ==> x in small && x in large && Elems(small[x]) <= Elems(large[x])
  }

  /** On a well-linked graph the annotations `blocks` contain those of every fixed point. */
  ghost predicate AboveFixpoints(ns: seq<Node>, allCopies: seq<IrCopy>, blocks: map<int, seq<IrCopy>>) {
    WellLinked(ns) ==>
      forall b, i, e :: Fixpoint(ns, allCopies, b, i, e) ==> Within(ns, b, blocks)
  }

  /** The greatest fixed point: a fixed point whose entry facts and annotations contain those of
      every fixed point. (`Fixpoint` is written out as its two parts here, so that the
      quantifier does not match the predicate's own fixed point.) */
  ghost predicate GreatestFixpoint(ns: seq<Node>, allCopies: seq<IrCopy>, blocks: map<int, seq<IrCopy>>,
                                   instrAnn: map<(int, int), seq<IrCopy>>, entry: map<int, seq<IrCopy>>)
  {
    Solved(ns, allCopies, blocks, instrAnn, entry) && EntriesAreMeets(ns, allCopies, blocks, entry) &&
    forall b, i, e :: Fixpoint(ns, allCopies, b, i, e) ==> Within(ns, b, blocks) && Within(ns, e, entry)
  }

  /** On a well-linked graph, larger annotations give a larger meet at every node, failing exactly
      as often. */
  lemma MeetWithin(ns: seq<Node>, allCopies: seq<IrCopy>, small: map<int, seq<IrCopy>>, large: map<int, seq<IrCopy>>,
                   y: int)
    requires WellLinked(ns) && Within(ns, small, large) && HasId(ns, y)
    ensures MeetOf(ns, small, allCopies, y).Ok? <==> MeetOf(ns, large, allCopies, y).Ok?
    ensures MeetOf(ns, small, allCopies, y).Ok? ==>
              Elems(MeetOf(ns, small, allCopies, y).value) <= Elems(MeetOf(ns, large, allCopies, y).value)
  {
    var preds := NodeOf(ns, y).predecessors;
    assert forall p :: p in preds && p != ENTRY ==> IsRealId(ns, p) by {
      assert preds == ns[IndexOf(ns, y)].predecessors;
    }
    MeetMonotone(preds, small, large, allCopies, allCopies);
  }

  /** The seed annotations, all copies on every real block, contain those of every fixed point. */
  lemma SeedAboveFixpoints(ns: seq<Node>, blocks: map<int, seq<IrCopy>>)
    requires forall x :: IsRealId(ns, x) ==> x in blocks && blocks[x] == CopiesOfNodes(ns)
    ensures AboveFixpoints(ns, CopiesOfNodes(ns), blocks)
  {
    forall b, i, e | Fixpoint(ns, CopiesOfNodes(ns), b, i, e)
      ensures Within(ns, b, blocks)
    {
      AnnotationsBounded(ns, b, i, e);
    }
  }

  /** Processing a block keeps the annotations above every fixed point: its new annotation is
      the transfer of a meet that contains the fixed point's entry facts. */
  lemma StepAboveFixpoints(ns: seq<Node>, allCopies: seq<IrCopy>, blocks: map<int, seq<IrCopy>>, x: int)
    requires AboveFixpoints(ns, allCopies, blocks)
    requires IsRealId(ns, x) && MeetOf(ns, blocks, allCopies, x).Ok?
    ensures var m := MeetOf(ns, blocks, allCopies, x).value;
            AboveFixpoints(ns, allCopies, blocks[x := BlockOut(NodeOf(ns, x).instructions, m)])
  {
    var instrs := NodeOf(ns, x).instructions;
    var m := MeetOf(ns, blocks, allCopies, x).value;
    var blocks' := blocks[x := BlockOut(instrs, m)];
    forall b, i, e | WellLinked(ns) && Fixpoint(ns, allCopies, b, i, e)
      ensures Within(ns, b, blocks')
    {
      assert Within(ns, b, blocks);
      assert Processed(ns, allCopies, b, i, x, e);
      MeetWithin(ns, allCopies, b, blocks, x);
      ReachingBeforeMonotone(instrs, e[x], m, |instrs|);
    }
  }

  /** A fixed point above every fixed point is the greatest one. */
  lemma FixpointIsGreatest(ns: seq<Node>, allCopies: seq<IrCopy>, blocks: map<int, seq<IrCopy>>,
                           instrAnn: map<(int, int), seq<IrCopy>>, entry: map<int, seq<IrCopy>>)
    requires WellLinked(ns) && Fixpoint(ns, allCopies, blocks, instrAnn, entry)
    requires AboveFixpoints(ns, allCopies, blocks)
    ensures GreatestFixpoint(ns, allCopies, blocks, instrAnn, entry)
  {
    forall b, i, e | Fixpoint(ns, allCopies, b, i, e)
      ensures Within(ns, e, entry)
    {
      forall x | IsRealId(ns, x)
        ensures x in e && x in entry && Elems(e[x]) <= Elems(entry[x])
      {
        assert Processed(ns, allCopies, b, i, x, e);
        assert Processed(ns, allCopies, blocks, instrAnn, x, entry);
        MeetWithin(ns, allCopies, b, blocks, x);
      }
    }
  }

  /** There is at most one greatest fixed point: any two agree on the entry facts and on every
      annotation of every real block. */
  lemma GreatestFixpointUnique(ns: seq<Node>, allCopies: seq<IrCopy>,
                               b1: map<int, seq<IrCopy>>, i1: map<(int, int), seq<IrCopy>>, e1: map<int, seq<IrCopy>>,
                               b2: map<int, seq<IrCopy>>, i2: map<(int, int), seq<IrCopy>>, e2: map<int, seq<IrCopy>>)
    requires GreatestFixpoint(ns, allCopies, b1, i1, e1) && GreatestFixpoint(ns, allCopies, b2, i2, e2)
    ensures forall x :: IsRealId(ns, x) ==> x in e1 && x in e2 && e1[x] == e2[x] && x in b1 && x in b2 && b1[x] == b2[x]
    ensures forall x, k :: IsRealId(ns, x) && 0 <= k < |NodeOf(ns, x).instructions| ==>
              (x, k) in i1 && (x, k) in i2 && i1[(x, k)] == i2[(x, k)]
  {
    assert Fixpoint(ns, allCopies, b1, i1, e1) && Fixpoint(ns, allCopies, b2, i2, e2);
    assert Within(ns, e1, e2) && Within(ns, e2, e1);
    forall x | IsRealId(ns, x)
      ensures x in e1 && x in e2 && e1[x] == e2[x]
    {
      assert Processed(ns, allCopies, b1, i1, x, e1) && Processed(ns, allCopies, b2, i2, x, e2);
      FiltersEqual(e1[x], e2[x], allCopies);
    }
    forall x | IsRealId(ns, x)
      ensures x in b1 && x in b2 && b1[x] == b2[x]
      ensures forall k :: 0 <= k < |NodeOf(ns, x).instructions| ==> (x, k) in i1 && (x, k) in i2 && i1[(x, k)] == i2[(x, k)]
    {
      assert Processed(ns, allCopies, b1, i1, x, e1) && Processed(ns, allCopies, b2, i2, x, e2);
    }
  }

  // ---------------------------------------------------------------------------------------------
  // One round of the worklist loop

  /** The annotation of a processed block only shrinks. */
  lemma StepOutShrinks(ns: seq<Node>, allCopies: seq<IrCopy>, blocks: map<int, seq<IrCopy>>,
                       instrAnn: map<(int, int), seq<IrCopy>>, wl: seq<int>, processed: set<int>,
                       lastMeet: map<int, seq<IrCopy>>, x: int)
    requires allCopies == CopiesOfNodes(ns)
    requires WorklistInv(ns, allCopies, blocks, instrAnn, wl, processed, lastMeet)
    requires IsRealId(ns, x) && MeetOf(ns, blocks, allCopies, x).Ok?
    ensures Elems(BlockOut(NodeOf(ns, x).instructions, MeetOf(ns, blocks, allCopies, x).value)) <= Elems(blocks[x])
  {
    var instrs := NodeOf(ns, x).instructions;
    var m := MeetOf(ns, blocks, allCopies, x).value;
    if x in processed {
      assert Processed(ns, allCopies, blocks, instrAnn, x, lastMeet);
      ReachingBeforeMonotone(instrs, m, lastMeet[x], |instrs|);
    } else {
      ReachingBeforeBounded(instrs, m, |instrs|);
      CopiesOfNodesContains(ns, IndexOf(ns, x));
    }
  }

  /** Shrinking one annotation shrinks every meet and keeps whether it fails. */
  lemma StepMeetsShrink(ns: seq<Node>, allCopies: seq<IrCopy>, blocks: map<int, seq<IrCopy>>, x: int, out: seq<IrCopy>, y: int)
    requires x in blocks && Elems(out) <= Elems(blocks[x]) && HasId(ns, y)
    ensures MeetOf(ns, blocks[x := out], allCopies, y).Ok? <==> MeetOf(ns, blocks, allCopies, y).Ok?
    ensures MeetOf(ns, blocks, allCopies, y).Ok? ==>
              Elems(MeetOf(ns, blocks[x := out], allCopies, y).value) <= Elems(MeetOf(ns, blocks, allCopies, y).value)
  {
    MeetMonotone(NodeOf(ns, y).predecessors, blocks[x := out], blocks, allCopies, allCopies);
  }

  lemma StepProcessed(ns: seq<Node>, allCopies: seq<IrCopy>, blocks: map<int, seq<IrCopy>>,
                      instrAnn: map<(int, int), seq<IrCopy>>, wl: seq<int>, processed: set<int>,
                      lastMeet: map<int, seq<IrCopy>>, x: int)
    requires allCopies == CopiesOfNodes(ns)
    requires WorklistInv(ns, allCopies, blocks, instrAnn, wl, processed, lastMeet)
    requires IsRealId(ns, x) && MeetOf(ns, blocks, allCopies, x).Ok?
    ensures var n := NodeOf(ns, x);
            var m := MeetOf(ns, blocks, allCopies, x).value;
            AllProcessed(ns, allCopies, blocks[x := BlockOut(n.instructions, m)],
                         AnnotateInstructions(instrAnn, x, n.instructions, m, |n.instructions|), processed + {x}, lastMeet[x := m])
  {
    var n := NodeOf(ns, x);
    var m := MeetOf(ns, blocks, allCopies, x).value;
    var out := BlockOut(n.instructions, m);
    var blocks' := blocks[x := out];
    var instrAnn' := AnnotateInstructions(instrAnn, x, n.instructions, m, |n.instructions|);
    StepOutShrinks(ns, allCopies, blocks, instrAnn, wl, processed, lastMeet, x);
    forall y | y in processed + {x}
      ensures Processed(ns, allCopies, blocks', instrAnn', y, lastMeet[x := m])
    {
      StepMeetsShrink(ns, allCopies, blocks, x, out, y);
      if y != x {
        assert Processed(ns, allCopies, blocks, instrAnn, y, lastMeet);
      }
      AnnotatedAfterTransfer(ns, blocks, instrAnn, x, m, y, lastMeet[x := m][y]);
    }
  }

  /** Under the builder's graph shape, a block left off the worklist still sees the meet it was
      last processed with: every block whose meet a change can affect was pushed. */
  lemma StepFixpoint(ns: seq<Node>, allCopies: seq<IrCopy>, blocks: map<int, seq<IrCopy>>,
                     instrAnn: map<(int, int), seq<IrCopy>>, wl: seq<int>, processed: set<int>,
                     lastMeet: map<int, seq<IrCopy>>, x: int, wl': seq<int>)
    requires WorklistInv(ns, allCopies, blocks, instrAnn, wl, processed, lastMeet)
    requires wl != [] && x == wl[0] && IsRealId(ns, x) && MeetOf(ns, blocks, allCopies, x).Ok?
    requires var out := BlockOut(NodeOf(ns, x).instructions, MeetOf(ns, blocks, allCopies, x).value);
             (out == blocks[x] ==> wl' == wl[1..]) &&
             (out != blocks[x] ==> Enqueue(wl[1..], NodeOf(ns, x).successors) == Ok(wl'))
    ensures var m := MeetOf(ns, blocks, allCopies, x).value;
            Stable(ns, allCopies, blocks[x := BlockOut(NodeOf(ns, x).instructions, m)], wl', lastMeet[x := m])
  {
    var m := MeetOf(ns, blocks, allCopies, x).value;
    var out := BlockOut(NodeOf(ns, x).instructions, m);
    var blocks' := blocks[x := out];
    forall y | WellLinked(ns) && IsRealId(ns, y) && y !in wl'
      ensures y in lastMeet[x := m] && MeetOf(ns, blocks', allCopies, y) == Ok(lastMeet[x := m][y])
    {
      if out == blocks[x] {
        assert blocks' == blocks;
      } else {
        var preds := NodeOf(ns, y).predecessors;
        assert y !in NodeOf(ns, x).successors;
        assert x !in preds;
        MeetFrame(preds, blocks', blocks, allCopies);
      }
      if y != x {
        assert y !in wl;
      }
    }
  }

  lemma StepPotential(ns: seq<Node>, allCopies: seq<IrCopy>, blocks: map<int, seq<IrCopy>>,
                      instrAnn: map<(int, int), seq<IrCopy>>, wl: seq<int>, processed: set<int>,
                      lastMeet: map<int, seq<IrCopy>>, x: int)
    requires WorklistInv(ns, allCopies, blocks, instrAnn, wl, processed, lastMeet)
    requires IsRealId(ns, x) && MeetOf(ns, blocks, allCopies, x).Ok?
    ensures var m := MeetOf(ns, blocks, allCopies, x).value;
            var top := |allCopies|;
            Potential(ns, processed + {x}, lastMeet[x := m], top) <= Potential(ns, processed, lastMeet, top) &&
            (BlockOut(NodeOf(ns, x).instructions, m) != blocks[x] ==>
               Potential(ns, processed + {x}, lastMeet[x := m], top) < Potential(ns, processed, lastMeet, top))
  {
    var m := MeetOf(ns, blocks, allCopies, x).value;
    var top := |allCopies|;
    var before := Term(x, processed, lastMeet, top);
    var after := Term(x, processed + {x}, lastMeet[x := m], top);
    assert IsFilterOf(m, allCopies);
    if x in processed {
      assert Processed(ns, allCopies, blocks, instrAnn, x, lastMeet);
      var last := lastMeet[x];
      FilterByShorter(allCopies, Elems(m), Elems(last));
      if BlockOut(NodeOf(ns, x).instructions, m) != blocks[x] {
        if Elems(m) == Elems(last) {
          FiltersEqual(m, last, allCopies);
          assert false;
        }
        var c :| c in last && c !in m;
        assert c in allCopies;
      }
    } else {
      assert after <= top;
    }
    PotentialDecreases(ns, processed, lastMeet, x, m, top);
  }

  /** The loop's invariant holds once every real block is on the worklist with all copies. */
  lemma SeedEstablishes(ns: seq<Node>, allCopies: seq<IrCopy>, blocks: map<int, seq<IrCopy>>,
                        instrAnn: map<(int, int), seq<IrCopy>>, wl: seq<int>)
    requires forall k :: 0 <= k < |wl| ==> wl[k] != ENTRY && wl[k] != EXIT
    requires forall x :: IsRealId(ns, x) ==> x in wl && x in blocks && blocks[x] == allCopies
    ensures WorklistInv(ns, allCopies, blocks, instrAnn, wl, {}, map[])
  {
  }

  /** An empty worklist leaves a solution, and a fixed point on graphs of the builder's shape. */
  lemma WorklistDone(ns: seq<Node>, allCopies: seq<IrCopy>, blocks: map<int, seq<IrCopy>>,
                     instrAnn: map<(int, int), seq<IrCopy>>, processed: set<int>, lastMeet: map<int, seq<IrCopy>>)
    requires WorklistInv(ns, allCopies, blocks, instrAnn, [], processed, lastMeet)
    ensures Solved(ns, allCopies, blocks, instrAnn, lastMeet)
    ensures WellLinked(ns) ==> Fixpoint(ns, allCopies, blocks, instrAnn, lastMeet)
  {
  }

  /** One round keeps the invariant and lowers the measure. */
  lemma WorklistStep(ns: seq<Node>, allCopies: seq<IrCopy>, blocks: map<int, seq<IrCopy>>,
                     instrAnn: map<(int, int), seq<IrCopy>>, wl: seq<int>, processed: set<int>,
                     lastMeet: map<int, seq<IrCopy>>, x: int, wl': seq<int>)
    requires allCopies == CopiesOfNodes(ns)
    requires WorklistInv(ns, allCopies, blocks, instrAnn, wl, processed, lastMeet)
    requires wl != [] && x == wl[0] && HasId(ns, x) && MeetOf(ns, blocks, allCopies, x).Ok?
    requires var out := BlockOut(NodeOf(ns, x).instructions, MeetOf(ns, blocks, allCopies, x).value);
             (out == blocks[x] ==> wl' == wl[1..]) &&
             (out != blocks[x] ==> Enqueue(wl[1..], NodeOf(ns, x).successors) == Ok(wl'))
    ensures var n := NodeOf(ns, x);
            var m := MeetOf(ns, blocks, allCopies, x).value;
            var blocks' := blocks[x := BlockOut(n.instructions, m)];
            var instrAnn' := AnnotateInstructions(instrAnn, x, n.instructions, m, |n.instructions|);
            var before := Potential(ns, processed, lastMeet, |allCopies|);
            var after := Potential(ns, processed + {x}, lastMeet[x := m], |allCopies|);
            WorklistInv(ns, allCopies, blocks', instrAnn', wl', processed + {x}, lastMeet[x := m]) &&
            (after < before || (after == before && |wl'| < |wl|))
  {
    var n := NodeOf(ns, x);
    var m := MeetOf(ns, blocks, allCopies, x).value;
    var out := BlockOut(n.instructions, m);
    var blocks' := blocks[x := out];
    var instrAnn' := AnnotateInstructions(instrAnn, x, n.instructions, m, |n.instructions|);
    StepProcessed(ns, allCopies, blocks, instrAnn, wl, processed, lastMeet, x);
    StepPotential(ns, allCopies, blocks, instrAnn, wl, processed, lastMeet, x);
    StepFixpoint(ns, allCopies, blocks, instrAnn, wl, processed, lastMeet, x, wl');
    StepQueue(ns, allCopies, blocks, wl, processed, x, out, n.successors, wl');
  }

  /** The worklist and the seed annotations after one round. */
  lemma StepQueue(ns: seq<Node>, allCopies: seq<IrCopy>, blocks: map<int, seq<IrCopy>>, wl: seq<int>, processed: set<int>,
                  x: int, out: seq<IrCopy>, successors: seq<int>, wl': seq<int>)
    requires OnlyRealIds(wl) && Covered(ns, blocks, wl, processed) && Fresh(ns, allCopies, blocks, processed)
    requires wl != [] && x == wl[0] && x in blocks
    requires out == blocks[x] ==> wl' == wl[1..]
    requires out != blocks[x] ==> Enqueue(wl[1..], successors) == Ok(wl')
    ensures OnlyRealIds(wl') && Covered(ns, blocks[x := out], wl', processed + {x}) &&
            Fresh(ns, allCopies, blocks[x := out], processed + {x})
  {
    assert forall y :: y in wl' <==> y in wl[1..] || (out != blocks[x] && y in successors && y != EXIT);
    assert forall y :: y in wl ==> y == x || y in wl[1..];
    forall k | 0 <= k < |wl'| ensures wl'[k] != ENTRY && wl'[k] != EXIT {
      assert wl'[k] in wl';
    }
  }

  // ---------------------------------------------------------------------------------------------
  // Rewriting the graph with the annotations

  /** `apply` on the first `k` instructions of block `id`: each rewritten with its annotation and
      the dropped copies left out; the first instruction without an annotation is an error. */
  function RewriteFrom(instrAnn: map<(int, int), seq<IrCopy>>, id: int, instrs: seq<Instruction>, k: nat)
    : Result<seq<Instruction>>
    requires k <= |instrs|
  {
    if k == 0 then Ok([])
    else
      var prefix :- RewriteFrom(instrAnn, id, instrs, k - 1);
      if (id, k - 1) in instrAnn then Ok(prefix + Kept(RewriteInstruction(instrs[k - 1], instrAnn[(id, k - 1)])))
      else Err("get_instruction_annotation on unknown instruction")
  }

  /** The rewrite fails exactly when an instruction has no annotation. */
  lemma {:induction false} RewriteFromOk(instrAnn: map<(int, int), seq<IrCopy>>, id: int, instrs: seq<Instruction>, k: nat)
    requires k <= |instrs|
    ensures RewriteFrom(instrAnn, id, instrs, k).Ok? <==> forall i :: 0 <= i < k ==> (id, i) in instrAnn
  {
    if k > 0 {
      RewriteFromOk(instrAnn, id, instrs, k - 1);
    }
  }

  lemma RewriteFromNext(instrAnn: map<(int, int), seq<IrCopy>>, id: int, instrs: seq<Instruction>, k: nat,
                        prefix: seq<Instruction>)
    requires k < |instrs| && RewriteFrom(instrAnn, id, instrs, k) == Ok(prefix)
    ensures (id, k) in instrAnn ==>
              RewriteFrom(instrAnn, id, instrs, k + 1) ==
                Ok(prefix + Kept(RewriteInstruction(instrs[k], instrAnn[(id, k)])))
    ensures (id, k) !in instrAnn ==>
              RewriteFrom(instrAnn, id, instrs, k + 1) == Err("get_instruction_annotation on unknown instruction")
  {
  }

  /** Once the rewrite of a prefix fails, the rewrite of every longer prefix fails the same way. */
  lemma {:induction false} RewriteFromErr(instrAnn: map<(int, int), seq<IrCopy>>, id: int, instrs: seq<Instruction>,
                                          k: nat, k': nat)
    requires k <= k' <= |instrs| && RewriteFrom(instrAnn, id, instrs, k).Err?
    ensures RewriteFrom(instrAnn, id, instrs, k') == RewriteFrom(instrAnn, id, instrs, k)
    decreases k' - k
  {
    if k < k' {
      RewriteFromErr(instrAnn, id, instrs, k, k' - 1);
    }
  }

  /** The first `k` instructions of block `id` are annotated with the facts reaching them from `entry`. */
  ghost predicate AnnotatedUpTo(instrAnn: map<(int, int), seq<IrCopy>>, id: int, instrs: seq<Instruction>,
                                entry: seq<IrCopy>, k: nat)
    requires k <= |instrs|
  {
    forall i :: 0 <= i < k ==> (id, i) in instrAnn && instrAnn[(id, i)] == ReachingBefore(instrs, entry, i)
  }

  /** With the annotations `transfer` writes for entry facts `entry`, the rewrite is the one whose
      meaning `RewritePreservesRun` states. */
  lemma {:induction false} RewriteFromAnnotated(instrAnn: map<(int, int), seq<IrCopy>>, id: int, instrs: seq<Instruction>,
                                                entry: seq<IrCopy>, k: nat)
    requires k <= |instrs|
    requires AnnotatedUpTo(instrAnn, id, instrs, entry, k)
    ensures RewriteFrom(instrAnn, id, instrs, k) == Ok(RewriteWith(instrs, entry, k))
  {
    if k > 0 {
      RewriteFromAnnotated(instrAnn, id, instrs, entry, k - 1);
      RewriteFromNext(instrAnn, id, instrs, k - 1, RewriteWith(instrs, entry, k - 1));
      assert instrAnn[(id, k - 1)] == ReachingBefore(instrs, entry, k - 1);
    }
  }

  /** After a successful analysis every real block of a graph with distinct ids is rewritten with
      the facts reaching each of its instructions. */
  lemma SolvedRewrite(ns: seq<Node>, allCopies: seq<IrCopy>, blocks: map<int, seq<IrCopy>>,
                      instrAnn: map<(int, int), seq<IrCopy>>, entry: map<int, seq<IrCopy>>, j: int)
    requires Solved(ns, allCopies, blocks, instrAnn, entry) && DistinctIds(ns)
    requires 0 <= j < |ns| && IsRealId(ns, ns[j].id)
    ensures ns[j].id in entry
    ensures RewriteFrom(instrAnn, ns[j].id, ns[j].instructions, |ns[j].instructions|) ==
              Ok(RewriteWith(ns[j].instructions, entry[ns[j].id], |ns[j].instructions|))
  {
    var x := ns[j].id;
    assert Processed(ns, allCopies, blocks, instrAnn, x, entry);
    assert NodeOf(ns, x) == ns[j];
    RewriteFromAnnotated(instrAnn, x, ns[j].instructions, entry[x], |ns[j].instructions|);
  }

  /** The nodes after `apply`: the same nodes, each holding `out[j]` in place of its instructions. */
  ghost predicate RewrittenNodes(instrAnn: map<(int, int), seq<IrCopy>>, ns: seq<Node>, ns': seq<Node>, k: int)
    requires 0 <= k <= |ns| == |ns'|
  {
    forall j :: 0 <= j < k ==>
      RewriteFrom(instrAnn, ns[j].id, ns[j].instructions, |ns[j].instructions|) == Ok(ns'[j].instructions) &&
      ns'[j] == ns[j].(instructions := ns'[j].instructions)
  }

  /** Whether some node keeps an instruction: what `apply` reports as a change. */
  predicate KeepsSome(ns: seq<Node>, k: int)
    requires 0 <= k <= |ns|
  {
    exists j :: 0 <= j < k && ns[j].instructions != []
  }

  /** The rewritten real blocks of a solved graph with distinct ids. */
  lemma ApplyRewrites(ns: seq<Node>, allCopies: seq<IrCopy>, blocks: map<int, seq<IrCopy>>,
                      instrAnn: map<(int, int), seq<IrCopy>>, entry: map<int, seq<IrCopy>>, ns': seq<Node>)
    requires |ns'| == |ns| && RewrittenNodes(instrAnn, ns, ns', |ns|)
    requires Solved(ns, allCopies, blocks, instrAnn, entry)
    ensures DistinctIds(ns) ==>
              forall j :: 0 <= j < |ns'| && IsRealId(ns, ns[j].id) ==>
                ns[j].id in entry &&
                ns'[j].instructions == RewriteWith(ns[j].instructions, entry[ns[j].id], |ns[j].instructions|)
  {
    if DistinctIds(ns) {
      forall j | 0 <= j < |ns'| && IsRealId(ns, ns[j].id)
        ensures ns[j].id in entry &&
                ns'[j].instructions == RewriteWith(ns[j].instructions, entry[ns[j].id], |ns[j].instructions|)
      {
        SolvedRewrite(ns, allCopies, blocks, instrAnn, entry, j);
      }
    }
  }

  class CopyPropagation {
    var annotatedInstructions: map<(int, int), seq<IrCopy>>
    var annotatedBlocks: map<int, seq<IrCopy>>

    constructor()
      ensures annotatedInstructions == map[] && annotatedBlocks == map[]
    {
      annotatedInstructions := map[];
      annotatedBlocks := map[];
    }

    /** `get_block_annotation`. */
    function BlockAnnotation(id: int): Result<seq<IrCopy>>
      reads this
    {
      if id in annotatedBlocks then Ok(annotatedBlocks[id]) else Err("Trying to get not annotated block")
    }

    /** `get_instruction_annotations`. */
    function InstructionAnnotation(id: int, i: int): Result<seq<IrCopy>>
      reads this
    {
      if (id, i) in annotatedInstructions then Ok(annotatedInstructions[(id, i)])
      else Err("get_instruction_annotation on unknown instruction")
    }

    /** `find_all_copy_instr`. */
    method FindAllCopyInstr(graph: FlowGraph) returns (r: seq<IrCopy>)
      ensures r == CopiesOfNodes(graph.nodes)
    {
      r := [];
      var k := 0;
      while k < |graph.nodes|
        invariant 0 <= k <= |graph.nodes|
        invariant r == CopiesOfNodes(graph.nodes[..k])
      {
        var instrs := graph.nodes[k].instructions;
        var j := 0;
        while j < |instrs|
          invariant 0 <= j <= |instrs|
          invariant r == CopiesOfNodes(graph.nodes[..k]) + CopiesIn(instrs[..j])
        {
          if instrs[j].Copy? {
            r := r + [instrs[j].copy];
          }
          assert instrs[..j + 1][..j] == instrs[..j];
          j := j + 1;
        }
        assert instrs[..j] == instrs;
        assert graph.nodes[..k + 1][..k] == graph.nodes[..k];
        k := k + 1;
      }
      assert graph.nodes[..k] == graph.nodes;
    }

    /** `meet`: the incoming facts of a node from its predecessors' annotations. */
    method MeetNode(node: Node, allCopies: seq<IrCopy>) returns (r: Result<seq<IrCopy>>)
      ensures r == Meet(node.predecessors, annotatedBlocks, allCopies)
    {
      var preds := node.predecessors;
      var incoming := allCopies;
      var k := 0;
      while k < |preds|
        invariant 0 <= k <= |preds|
        invariant MeetFrom(preds[k..], annotatedBlocks, incoming) == MeetFrom(preds, annotatedBlocks, allCopies)
      {
        assert preds[k..][1..] == preds[k + 1..];
        if preds[k] == ENTRY {
          return Ok([]);
        }
        if preds[k] == EXIT {
          return Err("Malformed control flow");
        }
        var predecessorCopies :- BlockAnnotation(preds[k]);
        incoming := FilterBy(incoming, Elems(predecessorCopies));
        k := k + 1;
      }
      return Ok(incoming);
    }

    /** `transfer`: annotates each instruction with the facts reaching it and the block with the
        facts at its end. */
    method Transfer(node: Node, initial: seq<IrCopy>)
      modifies this
      ensures annotatedBlocks == old(annotatedBlocks)[node.id := BlockOut(node.instructions, initial)]
      ensures annotatedInstructions ==
                AnnotateInstructions(old(annotatedInstructions), node.id, node.instructions, initial, |node.instructions|)
    {
      var current, annotations := TransferLoop(node, initial, annotatedInstructions);
      annotatedInstructions := annotations;
      annotatedBlocks := annotatedBlocks[node.id := current];
    }

    /** The loop of `transfer`, on the instruction annotations it starts from. */
    method TransferLoop(node: Node, initial: seq<IrCopy>, start: map<(int, int), seq<IrCopy>>)
      returns (current: seq<IrCopy>, annotations: map<(int, int), seq<IrCopy>>)
      ensures current == BlockOut(node.instructions, initial)
      ensures annotations == AnnotateInstructions(start, node.id, node.instructions, initial, |node.instructions|)
    {
      current := initial;
      annotations := start;
      var i := 0;
      while i < |node.instructions|
        invariant 0 <= i <= |node.instructions|
        invariant current == ReachingBefore(node.instructions, initial, i)
        invariant annotations == AnnotateInstructions(start, node.id, node.instructions, initial, i)
      {
        AnnotateNext(start, node.id, node.instructions, initial, i);
        annotations := annotations[(node.id, i) := current];
        current := TransferStep(current, node.instructions[i]);
        i := i + 1;
      }
    }

    /** The body of the worklist loop for block `x`: find it, take its annotation, meet and
        transfer; the result says whether the annotation changed. */
    method ProcessBlock(graph: FlowGraph, x: int, allCopies: seq<IrCopy>) returns (r: Result<bool>, successors: seq<int>)
      modifies this
      ensures r.Ok? <==> HasId(graph.nodes, x) && x in old(annotatedBlocks) &&
                         MeetOf(graph.nodes, old(annotatedBlocks), allCopies, x).Ok?
      ensures r.Ok? ==>
                var n := NodeOf(graph.nodes, x);
                var m := MeetOf(graph.nodes, old(annotatedBlocks), allCopies, x).value;
                annotatedBlocks == old(annotatedBlocks)[x := BlockOut(n.instructions, m)] &&
                annotatedInstructions == AnnotateInstructions(old(annotatedInstructions), x, n.instructions, m, |n.instructions|) &&
                successors == n.successors &&
                (r.value <==> annotatedBlocks[x] != old(annotatedBlocks)[x])
      ensures r.Err? ==> annotatedBlocks == old(annotatedBlocks) && annotatedInstructions == old(annotatedInstructions)
    {
      successors := [];
      var found := graph.GetNodeFromId(x);
      if found.Err? {
        return Err(found.msg), successors;
      }
      var block := found.value;
      var oldAnnotation := BlockAnnotation(block.id);
      if oldAnnotation.Err? {
        return Err(oldAnnotation.msg), successors;
      }
      var incoming := MeetNode(block, allCopies);
      if incoming.Err? {
        return Err(incoming.msg), successors;
      }
      Transfer(block, incoming.value);
      successors := block.successors;
      r := Ok(oldAnnotation.value != annotatedBlocks[block.id]);
    }

    /** The successor loop of a changed block. */
    method PushSuccessors(wl: seq<int>, successors: seq<int>) returns (r: Result<seq<int>>)
      ensures r == Enqueue(wl, successors)
    {
      var worklist := wl;
      var k := 0;
      while k < |successors|
        invariant 0 <= k <= |successors|
        invariant Enqueue(worklist, successors[k..]) == Enqueue(wl, successors)
      {
        assert successors[k..][1..] == successors[k + 1..];
        var successorId := successors[k];
        if successorId != EXIT {
          if successorId == ENTRY {
            return Err("Malformed control graph");
          }
          if successorId !in worklist {
            worklist := worklist + [successorId];
          }
        }
        k := k + 1;
      }
      return Ok(worklist);
    }

    /** The seeding loop: every real node on the worklist in node order, annotated with all
        copies. */
    method SeedWorklist(graph: FlowGraph, allCopies: seq<IrCopy>) returns (wl: seq<int>)
      modifies this`annotatedBlocks
      ensures wl == RealIds(graph.nodes)
      ensures DistinctIds(graph.nodes) ==> NoDuplicates(wl)
      ensures forall k :: 0 <= k < |wl| ==> wl[k] != ENTRY && wl[k] != EXIT
      ensures forall x :: x in wl <==> IsRealId(graph.nodes, x)
      ensures forall x :: IsRealId(graph.nodes, x) ==> x in annotatedBlocks && annotatedBlocks[x] == allCopies
      ensures forall x :: x !in wl ==> (x in annotatedBlocks <==> x in old(annotatedBlocks)) &&
                                       (x in annotatedBlocks ==> annotatedBlocks[x] == old(annotatedBlocks)[x])
    {
      wl := [];
      var k := 0;
      while k < |graph.nodes|
        invariant 0 <= k <= |graph.nodes|
        invariant wl == RealIds(graph.nodes[..k])
        invariant forall x :: x in wl ==> x in annotatedBlocks && annotatedBlocks[x] == allCopies
        invariant forall x :: x !in wl ==> (x in annotatedBlocks <==> x in old(annotatedBlocks)) &&
                                           (x in annotatedBlocks ==> annotatedBlocks[x] == old(annotatedBlocks)[x])
      {
        var node := graph.nodes[k];
        if node.id != ENTRY && node.id != EXIT {
          wl := wl + [node.id];
          annotatedBlocks := annotatedBlocks[node.id := allCopies];
        }
        assert graph.nodes[..k + 1][..k] == graph.nodes[..k];
        k := k + 1;
      }
      assert graph.nodes[..k] == graph.nodes;
      forall j | 0 <= j < |wl| ensures wl[j] != ENTRY && wl[j] != EXIT {
        assert wl[j] in wl;
      }
      if DistinctIds(graph.nodes) {
        RealIdsNoDuplicates(graph.nodes);
      }
    }

    /** `find_reaching_copies`: the worklist iteration. It always terminates; when it succeeds
        every real block carries the annotations of its entry facts `entry`, and on a graph of
        the builder's shape those are the greatest fixed point of the data-flow equations. */
    method FindReachingCopies(graph: FlowGraph) returns (r: Result<()>, ghost entry: map<int, seq<IrCopy>>)
      modifies this
      ensures r.Ok? ==> Solved(graph.nodes, CopiesOfNodes(graph.nodes), annotatedBlocks, annotatedInstructions, entry)
      ensures r.Ok? && WellLinked(graph.nodes) ==>
                GreatestFixpoint(graph.nodes, CopiesOfNodes(graph.nodes), annotatedBlocks, annotatedInstructions, entry)
    {
      var allCopies := FindAllCopyInstr(graph);
      var wl := SeedWorklist(graph, allCopies);
      ghost var processed: set<int> := {};
      ghost var lastMeet: map<int, seq<IrCopy>> := map[];
      SeedEstablishes(graph.nodes, allCopies, annotatedBlocks, annotatedInstructions, wl);
      SeedAboveFixpoints(graph.nodes, annotatedBlocks);
      while wl != []
        invariant WorklistInv(graph.nodes, allCopies, annotatedBlocks, annotatedInstructions, wl, processed, lastMeet)
        invariant AboveFixpoints(graph.nodes, allCopies, annotatedBlocks)
        invariant DistinctIds(graph.nodes) ==> NoDuplicates(wl)
        decreases Potential(graph.nodes, processed, lastMeet, |allCopies|), |wl|
      {
        var x := wl[0];
        ghost var blocks := annotatedBlocks;
        ghost var instrAnn := annotatedInstructions;
        var res, successors := ProcessBlock(graph, x, allCopies);
        if res.Err? {
          return Err(res.msg), lastMeet;
        }
        ghost var m := MeetOf(graph.nodes, blocks, allCopies, x).value;
        var next := wl[1..];
        if res.value {
          var pushed := PushSuccessors(next, successors);
          if pushed.Err? {
            return Err(pushed.msg), lastMeet;
          }
          if DistinctIds(graph.nodes) {
            EnqueueNoDuplicates(next, successors);
          }
          next := pushed.value;
        }
        WorklistStep(graph.nodes, allCopies, blocks, instrAnn, wl, processed, lastMeet, x, next);
        StepAboveFixpoints(graph.nodes, allCopies, blocks, x);
        wl := next;
        processed := processed + {x};
        lastMeet := lastMeet[x := m];
      }
      WorklistDone(graph.nodes, allCopies, annotatedBlocks, annotatedInstructions, processed, lastMeet);
      if WellLinked(graph.nodes) {
        FixpointIsGreatest(graph.nodes, allCopies, annotatedBlocks, annotatedInstructions, lastMeet);
      }
      return Ok(()), lastMeet;
    }

    /** The instruction loop of `apply` for one node. */
    method RewriteNode(node: Node) returns (r: Result<seq<Instruction>>)
      ensures r == RewriteFrom(annotatedInstructions, node.id, node.instructions, |node.instructions|)
    {
      var kept: seq<Instruction> := [];
      var i := 0;
      while i < |node.instructions|
        invariant 0 <= i <= |node.instructions|
        invariant RewriteFrom(annotatedInstructions, node.id, node.instructions, i) == Ok(kept)
      {
        RewriteFromNext(annotatedInstructions, node.id, node.instructions, i, kept);
        var reaching := InstructionAnnotation(node.id, i);
        if reaching.Err? {
          RewriteFromErr(annotatedInstructions, node.id, node.instructions, i + 1, |node.instructions|);
          return Err(reaching.msg);
        }
        var rewritten := RewriteInstruction(node.instructions[i], reaching.value);
        ghost var next := kept + Kept(rewritten);
        assert RewriteFrom(annotatedInstructions, node.id, node.instructions, i + 1) == Ok(next);
        if rewritten.Some? {
          kept := kept + [rewritten.value];
        }
        assert kept == next;
        i := i + 1;
      }
      return Ok(kept);
    }

    /** The node loop of `apply`: every node's instructions replaced by their rewrite. */
    method RewriteNodes(ns: seq<Node>) returns (r: Result<bool>, ns': seq<Node>)
      ensures r.Ok? ==> |ns'| == |ns| && RewrittenNodes(annotatedInstructions, ns, ns', |ns|)
      ensures r.Ok? ==> (r.value <==> KeepsSome(ns', |ns'|))
      ensures r.Err? <==> exists j :: 0 <= j < |ns| &&
                            RewriteFrom(annotatedInstructions, ns[j].id, ns[j].instructions, |ns[j].instructions|).Err?
    {
      ns' := ns;
      var changed := false;
      var k := 0;
      while k < |ns|
        invariant 0 <= k <= |ns| == |ns'|
        invariant ns'[k..] == ns[k..]
        invariant RewrittenNodes(annotatedInstructions, ns, ns', k)
        invariant changed <==> KeepsSome(ns', k)
        invariant forall j :: 0 <= j < k ==>
                    RewriteFrom(annotatedInstructions, ns[j].id, ns[j].instructions, |ns[j].instructions|).Ok?
      {
        var kept := RewriteNode(ns[k]);
        if kept.Err? {
          return Err(kept.msg), ns';
        }
        assert ns'[k] == ns[k];
        ns' := ns'[k := ns[k].(instructions := kept.value)];
        assert ns'[k + 1..] == ns[k + 1..];
        changed := changed || kept.value != [];
        k := k + 1;
      }
      return Ok(changed), ns';
    }

    /** `apply`: the analysis, then every node rewritten with the facts reaching its
        instructions. The result reports whether any node still holds an instruction. On graphs
        with distinct ids the real blocks become the rewrite whose meaning `RewritePreservesRun`
        states, for the entry facts `entry` that the analysis settles on. */
    method Apply(graph: FlowGraph) returns (r: Result<bool>, ghost entry: map<int, seq<IrCopy>>)
      modifies this, graph`nodes
      ensures r.Ok? ==> Solved(old(graph.nodes), CopiesOfNodes(old(graph.nodes)), annotatedBlocks, annotatedInstructions, entry)
      ensures r.Ok? && WellLinked(old(graph.nodes)) ==>
                GreatestFixpoint(old(graph.nodes), CopiesOfNodes(old(graph.nodes)), annotatedBlocks, annotatedInstructions, entry)
      ensures r.Ok? ==> |graph.nodes| == |old(graph.nodes)| &&
                        RewrittenNodes(annotatedInstructions, old(graph.nodes), graph.nodes, |graph.nodes|)
      ensures r.Ok? ==> (r.value <==> KeepsSome(graph.nodes, |graph.nodes|))
      ensures r.Ok? && DistinctIds(old(graph.nodes)) ==>
                forall j :: 0 <= j < |graph.nodes| && IsRealId(old(graph.nodes), old(graph.nodes)[j].id) ==>
                  old(graph.nodes)[j].id in entry &&
                  graph.nodes[j].instructions ==
                    RewriteWith(old(graph.nodes)[j].instructions, entry[old(graph.nodes)[j].id], |old(graph.nodes)[j].instructions|)
    {
      var reaching;
      reaching, entry := FindReachingCopies(graph);
      if reaching.Err? {
        return Err(reaching.msg), entry;
      }
      ghost var ns := graph.nodes;
      var changed, rewritten := RewriteNodes(graph.nodes);
      if changed.Err? {
        return Err(changed.msg), entry;
      }
      graph.nodes := rewritten;
      ApplyRewrites(ns, CopiesOfNodes(ns), annotatedBlocks, annotatedInstructions, entry, rewritten);
      return changed, entry;
    }
  }
}
