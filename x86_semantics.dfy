/** A small interpreter for the x86 subset the lowering emits, used as the reference the lowering
    tables of `CodeGeneration` are proved against: each IR instruction's sequence leaves the value
    `ConstantFoldingPass` computes for it in the result's location and touches nothing else. */
module X86Semantics {
  import opened Wrappers
  import opened MachineInt
  import Tokens
  import opened IR
  import opened X86
  import opened ConstantFoldingPass
  import opened CodeGeneration

  /** Registers by name, pseudo registers by name, stack slots by offset, and the two operands of
      the last `cmp` (destination, source), from which every condition code is read. Values are
      unbounded; the theorems below only reach values inside `int`. */
  datatype Machine = Machine(
    registers: map<string, int>,
    pseudo: map<string, int>,
    memory: map<int, int>,
    flagLeft: int,
    flagRight: int)

  /** The operands an instruction can write. */
  predicate Writable(o: Operand) {
    o.Register? || o.Mem? || o.PseudoRegister?
  }

  /** The value of an operand; nothing for a label or a location never written. */
  function Read(m: Machine, o: Operand): Option<int> {
    match o
    case Register(n) => if n in m.registers then Some(m.registers[n]) else None
    case Imm(v) => Some(v as int)
    case LabelOperand(_) => None
    case Mem(k) => if k in m.memory then Some(m.memory[k]) else None
    case PseudoRegister(n) => if n in m.pseudo then Some(m.pseudo[n]) else None
  }

  /** Storing into an operand; nothing for an immediate or a label. */
  function Write(m: Machine, o: Operand, v: int): Option<Machine> {
    match o
    case Register(n) => Some(m.(registers := m.registers[n := v]))
    case Imm(_) => None
    case LabelOperand(_) => None
    case Mem(k) => Some(m.(memory := m.memory[k := v]))
    case PseudoRegister(n) => Some(m.(pseudo := m.pseudo[n := v]))
  }

  /** Whether a condition code holds after `cmp right,left`; nothing for the codes the lowering
      never emits. */
  function Holds(cc: CC, left: int, right: int): Option<bool> {
    match cc
    case Equal => Some(left == right)
    case NotEqual => Some(left != right)
    case Less => Some(left < right)
    case LessOrEqual => Some(left <= right)
    case Greater => Some(left > right)
    case GreaterOrEqual => Some(left >= right)
    case _ => None
  }

  /** `destination := f(destination, source)` for the two-operand arithmetic instructions. */
  function Arith(m: Machine, source: Operand, destination: Operand, i: Instr): Option<Machine>
    requires i.Add? || i.Sub? || i.Imul?
  {
    var s := Read(m, source);
    var d := Read(m, destination);
    if s.None? || d.None? then None
    else Write(m, destination, if i.Add? then d.value + s.value else if i.Sub? then d.value - s.value else d.value * s.value)
  }

  /** One instruction on the data. Labels, jumps and `ret` transfer control and leave the data as
      it is; `push` and `pop` are never emitted and are not given a meaning; `idiv` by zero
      faults. */
  function Exec(m: Machine, i: Instr): Option<Machine> {
    match i
    case Mov(source, destination) =>
      var v := Read(m, source);
      if v.None? then None else Write(m, destination, v.value)
    case Add(source, destination) => Arith(m, source, destination, i)
    case Sub(source, destination) => Arith(m, source, destination, i)
    case Imul(source, destination) => Arith(m, source, destination, i)
    case Neg(o) =>
      var v := Read(m, o);
      if v.None? then None else Write(m, o, -v.value)
    case NotOp(o) =>
      var v := Read(m, o);
      if v.None? then None else Write(m, o, -1 - v.value)
    case Cdq =>
      var a := Read(m, RAX);
      if a.None? then None else Write(m, RDX, if a.value < 0 then -1 else 0)
    case Idiv(o) =>
      var a := Read(m, RAX);
      var b := Read(m, o);
      if a.None? || b.None? || b.value == 0 then None
      else
        var m1 := m.(registers := m.registers["rax" := TruncDiv(a.value, b.value)]);
        Some(m1.(registers := m1.registers["rdx" := TruncRem(a.value, b.value)]))
    case Cmp(source, destination) =>
      var s := Read(m, source);
      var d := Read(m, destination);
      if s.None? || d.None? then None else Some(m.(flagLeft := d.value, flagRight := s.value))
    case SetCC(cc, o) =>
      var h := Holds(cc, m.flagLeft, m.flagRight);
      var v := Read(m, o);
      if h.None? || v.None? then None
      else Write(m, o, v.value - v.value % 256 + (if h.value then 1 else 0))
    case Ret => Some(m)
    case LabelDef(_) => Some(m)
    case Jmp(_) => Some(m)
    case JmpCC(_, _) => Some(m)
    case Push(_) => None
    case Pop(_) => None
  }

  /** A straight-line sequence, stopping at the first instruction that has no meaning. */
  function Run(m: Machine, code: seq<Instr>): Option<Machine>
    decreases |code|
  {
    if code == [] then Some(m)
    else
      var m1 := Exec(m, code[0]);
      if m1.None? then None else Run(m1.value, code[1..])
  }

  /** Every writable location other than those in `written` reads as before. */
  ghost predicate Preserves(m: Machine, m': Machine, written: set<Operand>) {
    forall x :: Writable(x) && x !in written ==> Read(m', x) == Read(m, x)
  }

  // ---------------------------------------------------------------------------------------
  // Building blocks
  // ---------------------------------------------------------------------------------------

  /** Distinct writable operands are distinct storage: a write is seen at its operand only. */
  lemma WriteSpec(m: Machine, o: Operand, v: int)
    requires Writable(o)
    ensures Write(m, o, v).Some?
    ensures var m' := Write(m, o, v).value;
            Read(m', o) == Some(v) && m'.flagLeft == m.flagLeft && m'.flagRight == m.flagRight &&
            forall x :: x != o ==> Read(m', x) == Read(m, x)
  {
    var m' := Write(m, o, v).value;
    forall x | x != o
      ensures Read(m', x) == Read(m, x)
    {
      match x
      case Register(n) =>
      case Imm(_) =>
      case LabelOperand(_) =>
      case Mem(k) =>
      case PseudoRegister(n) =>
    }
  }

  /** Running a sequence that starts with `i`. */
  lemma RunCons(m: Machine, i: Instr, rest: seq<Instr>)
    ensures Run(m, [i] + rest) == if Exec(m, i).None? then None else Run(Exec(m, i).value, rest)
  {
    assert ([i] + rest)[0] == i;
    assert ([i] + rest)[1..] == rest;
  }

  /** Running two sequences one after the other. */
  lemma {:induction false} RunAppend(m: Machine, a: seq<Instr>, b: seq<Instr>)
    ensures Run(m, a + b) == if Run(m, a).None? then None else Run(Run(m, a).value, b)
    decreases |a|
  {
    if a == [] {
      assert a + b == b;
    } else {
      assert a + b == [a[0]] + (a[1..] + b);
      assert a == [a[0]] + a[1..];
      RunCons(m, a[0], a[1..] + b);
      RunCons(m, a[0], a[1..]);
      if Exec(m, a[0]).Some? {
        RunAppend(Exec(m, a[0]).value, a[1..], b);
      }
    }
  }

  /** A `mov` into a writable operand. */
  lemma MovSpec(m: Machine, s: Operand, d: Operand, x: int)
    requires Read(m, s) == Some(x) && Writable(d)
    ensures Exec(m, Mov(s, d)).Some?
    ensures var m' := Exec(m, Mov(s, d)).value;
            Read(m', d) == Some(x) && m'.flagLeft == m.flagLeft && m'.flagRight == m.flagRight &&
            forall y :: y != d ==> Read(m', y) == Read(m, y)
  {
    WriteSpec(m, d, x);
  }

  /** `cmp` changes the flags and nothing else. */
  lemma FlagsOnly(m: Machine, left: int, right: int)
    ensures forall y :: Read(m.(flagLeft := left, flagRight := right), y) == Read(m, y)
  {
    forall y ensures Read(m.(flagLeft := left, flagRight := right), y) == Read(m, y) {
      match y
      case Register(n) =>
      case Imm(_) =>
      case LabelOperand(_) =>
      case Mem(k) =>
      case PseudoRegister(n) =>
    }
  }

  /** `idiv`: the truncated quotient in RAX, the remainder in RDX, nothing else touched. */
  lemma IdivSpec(m: Machine, r: Operand, lv: int, rv: int)
    requires Read(m, RAX) == Some(lv) && Read(m, r) == Some(rv) && rv != 0
    ensures Exec(m, Idiv(r)).Some?
    ensures var m' := Exec(m, Idiv(r)).value;
            Read(m', RAX) == Some(TruncDiv(lv, rv)) && Read(m', RDX) == Some(TruncRem(lv, rv)) &&
            forall y :: y != RAX && y != RDX ==> Read(m', y) == Read(m, y)
  {
    var m' := Exec(m, Idiv(r)).value;
    forall y | y != RAX && y != RDX ensures Read(m', y) == Read(m, y) {
      match y
      case Register(n) =>
      case Imm(_) =>
      case LabelOperand(_) =>
      case Mem(k) =>
      case PseudoRegister(n) =>
    }
  }

  // ---------------------------------------------------------------------------------------
  // The lowering of each IR instruction
  // ---------------------------------------------------------------------------------------

  /** `+`, `-` and `*`: `mov left,result; op right,result` leaves the folded value in the result,
      provided the result is not the right operand's location (the `mov` would overwrite it). */
  lemma ArithmeticLowering(op: Tokens.TokenType, l: Operand, r: Operand, res: Operand, m: Machine, lv: int32, rv: int32)
    requires op == Tokens.Plus || op == Tokens.Minus || op == Tokens.Star
    requires Read(m, l) == Some(lv as int) && Read(m, r) == Some(rv as int) && Writable(res) && res != r
    requires BinaryDefined(op, lv, rv)
    ensures BinaryCode(op, l, r, res).Ok?
    ensures var m' := Run(m, BinaryCode(op, l, r, res).value);
            m'.Some? && Read(m'.value, res) == Some(EvaluateBinary(op, lv, rv).value as int) &&
            Preserves(m, m'.value, {res})
  {
    var second := if op == Tokens.Plus then Add(r, res) else if op == Tokens.Minus then Sub(r, res) else Imul(r, res);
    assert BinaryCode(op, l, r, res) == Ok([Mov(l, res), second]);
    MovSpec(m, l, res, lv as int);
    var m1 := Exec(m, Mov(l, res)).value;
    ArithStep(m1, second, lv as int, rv as int);
    RunCons(m, Mov(l, res), [second]);
    RunCons(m1, second, []);
  }

  /** `add`, `sub` and `imul` combine destination and source into the destination only. */
  lemma ArithStep(m: Machine, i: Instr, x: int, y: int)
    requires (i.Add? || i.Sub? || i.Imul?) && Writable(i.destination)
    requires Read(m, i.destination) == Some(x) && Read(m, i.source) == Some(y)
    ensures Exec(m, i).Some?
    ensures var m' := Exec(m, i).value;
            Read(m', i.destination) == Some(if i.Add? then x + y else if i.Sub? then x - y else x * y) &&
            forall z :: z != i.destination ==> Read(m', z) == Read(m, z)
  {
    WriteSpec(m, i.destination, if i.Add? then x + y else if i.Sub? then x - y else x * y);
  }

  /** `cmp right,left; mov 0,result; set<cc> result` leaves the truth value of
      `left <cc> right` in the result, whatever the operands' locations. */
  lemma ComparisonLowering(op: Tokens.TokenType, l: Operand, r: Operand, res: Operand, m: Machine, lv: int32, rv: int32)
    requires IsComparison(op)
    requires Read(m, l) == Some(lv as int) && Read(m, r) == Some(rv as int) && Writable(res)
    ensures BinaryCode(op, l, r, res).Ok?
    ensures var m' := Run(m, BinaryCode(op, l, r, res).value);
            m'.Some? && Read(m'.value, res) == Some(EvaluateBinary(op, lv, rv).value as int) &&
            Preserves(m, m'.value, {res})
  {
    var cc := ComparisonCC(op).value;
    assert BinaryCode(op, l, r, res) == Ok(CompareCode(l, r, res, cc));
    CompareSpec(l, r, res, cc, m, lv, rv);
  }

  /** The comparison tail on its own: the flags record `left` against `right`, the result holds
      the condition as 0 or 1. */
  lemma CompareSpec(l: Operand, r: Operand, res: Operand, cc: CC, m: Machine, lv: int, rv: int)
    requires cc in {Equal, NotEqual, Less, LessOrEqual, Greater, GreaterOrEqual}
    requires Read(m, l) == Some(lv) && Read(m, r) == Some(rv) && Writable(res)
    ensures var m' := Run(m, CompareCode(l, r, res, cc));
            m'.Some? && Read(m'.value, res) == Some(if Holds(cc, lv, rv).value then 1 else 0) &&
            Preserves(m, m'.value, {res})
  {
    var m1 := m.(flagLeft := lv, flagRight := rv);
    assert Exec(m, Cmp(r, l)) == Some(m1);
    FlagsOnly(m, lv, rv);
    MovSpec(m1, Imm(0), res, 0);
    var m2 := Exec(m1, Mov(Imm(0), res)).value;
    var bit := if Holds(cc, lv, rv).value then 1 else 0;
    SetCCSpec(m2, cc, res);
    var m3 := Exec(m2, SetCC(cc, res)).value;
    RunCons(m, Cmp(r, l), [Mov(Imm(0), res), SetCC(cc, res)]);
    RunCons(m1, Mov(Imm(0), res), [SetCC(cc, res)]);
    RunCons(m2, SetCC(cc, res), []);
    assert Run(m, CompareCode(l, r, res, cc)) == Some(m3);
  }

  /** `set<cc>` on a location holding 0 leaves the condition there as 0 or 1. */
  lemma SetCCSpec(m: Machine, cc: CC, res: Operand)
    requires Holds(cc, m.flagLeft, m.flagRight).Some? && Read(m, res) == Some(0) && Writable(res)
    ensures Exec(m, SetCC(cc, res)).Some?
    ensures var m' := Exec(m, SetCC(cc, res)).value;
            Read(m', res) == Some(if Holds(cc, m.flagLeft, m.flagRight).value then 1 else 0) &&
            forall y :: y != res ==> Read(m', y) == Read(m, y)
  {
    WriteSpec(m, res, if Holds(cc, m.flagLeft, m.flagRight).value then 1 else 0);
  }

  /** The truth value each comparison's condition code yields is the folded value. */
  lemma ComparisonCCAgrees(op: Tokens.TokenType, lv: int32, rv: int32)
    requires IsComparison(op)
    ensures ComparisonCC(op).Some?
    ensures var cc := ComparisonCC(op).value;
            cc in {Equal, NotEqual, Less, LessOrEqual, Greater, GreaterOrEqual} &&
            EvaluateBinary(op, lv, rv) == Some(if Holds(cc, lv as int, rv as int).value then 1 else 0)
  {
  }

  /** `mov left,rax; cdq; idiv right; mov rax,result` leaves the truncated quotient in the result;
      only RAX and RDX are clobbered besides. */
  lemma DivisionSpec(l: Operand, r: Operand, res: Operand, m: Machine, lv: int, rv: int)
    requires Read(m, l) == Some(lv) && Read(m, r) == Some(rv) && rv != 0
    requires !l.Register? && !r.Register? && Writable(res)
    ensures var m' := Run(m, [Mov(l, RAX), Cdq, Idiv(r), Mov(RAX, res)]);
            m'.Some? && Read(m'.value, res) == Some(TruncDiv(lv, rv)) &&
            Preserves(m, m'.value, {res, RAX, RDX})
  {
    var head := [Mov(l, RAX), Cdq, Idiv(r)];
    DivisionHead(l, r, m, lv, rv);
    var m3 := Run(m, head).value;
    MovSpec(m3, RAX, res, TruncDiv(lv, rv));
    RunCons(m3, Mov(RAX, res), []);
    RunAppend(m, head, [Mov(RAX, res)]);
    assert head + [Mov(RAX, res)] == [Mov(l, RAX), Cdq, Idiv(r), Mov(RAX, res)];
  }

  /** `mov left,rax; cdq; idiv right`: the quotient in RAX, nothing but RAX and RDX touched. */
  lemma DivisionHead(l: Operand, r: Operand, m: Machine, lv: int, rv: int)
    requires Read(m, l) == Some(lv) && Read(m, r) == Some(rv) && rv != 0
    requires !r.Register?
    ensures var m' := Run(m, [Mov(l, RAX), Cdq, Idiv(r)]);
            m'.Some? && Read(m'.value, RAX) == Some(TruncDiv(lv, rv)) &&
            forall y :: y != RAX && y != RDX ==> Read(m'.value, y) == Read(m, y)
  {
    MovSpec(m, l, RAX, lv);
    var m1 := Exec(m, Mov(l, RAX)).value;
    WriteSpec(m1, RDX, if lv < 0 then -1 else 0);
    var m2 := Exec(m1, Cdq).value;
    assert Read(m2, RAX) == Some(lv) && Read(m2, r) == Some(rv);
    IdivSpec(m2, r, lv, rv);
    RunCons(m, Mov(l, RAX), [Cdq, Idiv(r)]);
    RunCons(m1, Cdq, [Idiv(r)]);
    RunCons(m2, Idiv(r), []);
  }

  /** As written, `/` runs on into the `>` case, so the result ends up holding `left > right`
      instead of the quotient. */
  lemma DivisionAsWritten(l: Operand, r: Operand, res: Operand, m: Machine, lv: int32, rv: int32)
    requires Read(m, l) == Some(lv as int) && Read(m, r) == Some(rv as int) && rv != 0
    requires !l.Register? && !r.Register? && Writable(res) && res != l && res != r
    ensures BinaryCode(Tokens.Slash, l, r, res).Ok?
    ensures var m' := Run(m, BinaryCode(Tokens.Slash, l, r, res).value);
            m'.Some? && Read(m'.value, res) == Some(if lv > rv then 1 else 0)
  {
    var division := [Mov(l, RAX), Cdq, Idiv(r), Mov(RAX, res)];
    assert BinaryCode(Tokens.Slash, l, r, res) == Ok(division + CompareCode(l, r, res, Greater));
    DivisionSpec(l, r, res, m, lv as int, rv as int);
    var m1 := Run(m, division).value;
    CompareSpec(l, r, res, Greater, m1, lv as int, rv as int);
    RunAppend(m, division, CompareCode(l, r, res, Greater));
  }

  /** `t1 = t0 / t2` with `t0` holding 7 and `t2` holding 2 leaves 1 in `t1`, where the quotient
      is 3. */
  lemma DivisionFallThroughExample()
    ensures var m := Machine(map[], map["t0" := 7, "t2" := 2], map[], 0, 0);
            var code := BinaryCode(Tokens.Slash, PseudoRegister("t0"), PseudoRegister("t2"), PseudoRegister("t1"));
            code.Ok? && Run(m, code.value).Some? &&
            Read(Run(m, code.value).value, PseudoRegister("t1")) == Some(1) &&
            EvaluateBinary(Tokens.Slash, 7, 2) == Some(3)
  {
    var m := Machine(map[], map["t0" := 7, "t2" := 2], map[], 0, 0);
    DivisionAsWritten(PseudoRegister("t0"), PseudoRegister("t2"), PseudoRegister("t1"), m, 7, 2);
    assert TruncDiv(7, 2) == 3;
  }

  /** The table with the `Slash` case ended after the division sequence. */
  function CorrectedBinaryCode(op: Tokens.TokenType, l: Operand, r: Operand, res: Operand): Result<seq<Instr>> {
    if op == Tokens.Slash then Ok([Mov(l, RAX), Cdq, Idiv(r), Mov(RAX, res)])
    else BinaryCode(op, l, r, res)
  }

  /** Every supported operator's corrected sequence computes what folding computes; the
      arithmetic ones need the result apart from the right operand, division clobbers only RAX
      and RDX besides the result, and every other operator is refused. */
  lemma CorrectedBinaryLowering(op: Tokens.TokenType, l: Operand, r: Operand, res: Operand, m: Machine, lv: int32, rv: int32)
    requires Read(m, l) == Some(lv as int) && Read(m, r) == Some(rv as int)
    requires !l.Register? && !r.Register? && Writable(res) && res != r
    requires BinaryDefined(op, lv, rv)
    ensures CorrectedBinaryCode(op, l, r, res).Ok? <==> IsBinaryFoldable(op)
    ensures IsBinaryFoldable(op) ==>
              var m' := Run(m, CorrectedBinaryCode(op, l, r, res).value);
              m'.Some? && Read(m'.value, res) == Some(EvaluateBinary(op, lv, rv).value as int) &&
              Preserves(m, m'.value, {res, RAX, RDX})
  {
    if op == Tokens.Plus || op == Tokens.Minus || op == Tokens.Star {
      ArithmeticLowering(op, l, r, res, m, lv, rv);
    } else if op == Tokens.Slash {
      DivisionSpec(l, r, res, m, lv as int, rv as int);
    } else if IsComparison(op) {
      ComparisonLowering(op, l, r, res, m, lv, rv);
    } else {
      assert ComparisonCC(op) == None;
    }
  }

  /** The two tables differ only for `/`. */
  lemma CorrectionOnlyDivision(op: Tokens.TokenType, l: Operand, r: Operand, res: Operand)
    ensures op != Tokens.Slash <==> CorrectedBinaryCode(op, l, r, res) == BinaryCode(op, l, r, res)
  {
    if op == Tokens.Slash {
      assert |CorrectedBinaryCode(op, l, r, res).value| == 4 != |BinaryCode(op, l, r, res).value|;
    }
  }

  /** `-`, `~` and `!`: after the optional move the result holds the folded value. The move is
      skipped only when the IR value and result are one value, hence one location. */
  lemma UnaryLowering(op: Tokens.TokenType, sameValue: bool, v: Operand, res: Operand, m: Machine, x: int32)
    requires Read(m, v) == Some(x as int) && Writable(res) && (sameValue ==> v == res)
    requires UnaryDefined(op, x)
    ensures UnaryCode(op, sameValue, v, res).Ok? <==> IsUnaryFoldable(op)
    ensures IsUnaryFoldable(op) ==>
              var m' := Run(m, UnaryCode(op, sameValue, v, res).value);
              m'.Some? && Read(m'.value, res) == Some(EvaluateUnary(op, x).value as int) &&
              Preserves(m, m'.value, {res})
  {
    var prefix := if sameValue then [] else [Mov(v, res)];
    var m1 := m;
    if !sameValue {
      MovSpec(m, v, res, x as int);
      m1 := Exec(m, Mov(v, res)).value;
      RunCons(m, Mov(v, res), []);
    }
    assert Run(m, prefix) == Some(m1);
    assert Read(m1, res) == Some(x as int) && Read(m1, v) == Some(x as int);
    assert forall y :: y != res ==> Read(m1, y) == Read(m, y);
    if op == Tokens.Tilde || op == Tokens.Minus {
      var last := if op == Tokens.Tilde then NotOp(res) else Neg(res);
      var value := if op == Tokens.Tilde then -1 - x else -x;
      WriteSpec(m1, res, value);
      assert Exec(m1, last) == Write(m1, res, value);
      RunCons(m1, last, []);
      RunAppend(m, prefix, [last]);
      assert UnaryCode(op, sameValue, v, res) == Ok(prefix + [last]);
    } else if op == Tokens.Not {
      var rest := [Cmp(Imm(0), v), Mov(Imm(0), res), SetCC(Equal, res)];
      assert rest == CompareCode(v, Imm(0), res, Equal);
      CompareSpec(v, Imm(0), res, Equal, m1, x as int, 0);
      RunAppend(m, prefix, rest);
      assert UnaryCode(op, sameValue, v, res) == Ok(prefix + rest);
    }
  }

  /** `mov source,destination`. */
  lemma CopyLowering(s: Operand, d: Operand, m: Machine, x: int)
    requires Read(m, s) == Some(x) && Writable(d)
    ensures var m' := Run(m, [Mov(s, d)]);
            m'.Some? && Read(m'.value, d) == Some(x) && Preserves(m, m'.value, {d})
  {
    MovSpec(m, s, d, x);
    RunCons(m, Mov(s, d), []);
  }

  /** `mov value,rax; ret`: the value is in RAX when control leaves. */
  lemma ReturnLowering(v: Operand, m: Machine, x: int)
    requires Read(m, v) == Some(x)
    ensures var m' := Run(m, [Mov(v, RAX), Ret]);
            m'.Some? && Read(m'.value, RAX) == Some(x) && Preserves(m, m'.value, {RAX})
  {
    MovSpec(m, v, RAX, x);
    var m1 := Exec(m, Mov(v, RAX)).value;
    RunCons(m, Mov(v, RAX), [Ret]);
    RunCons(m1, Ret, []);
  }

  /** `mov c,rax; cmp 0,rax` before `je`/`jne`: the jump is taken exactly when the condition is
      zero (`je`) or non-zero (`jne`). */
  lemma ConditionalJumpLowering(c: Operand, cc: CC, target: string, m: Machine, x: int)
    requires Read(m, c) == Some(x) && (cc == Equal || cc == NotEqual)
    ensures var code := ConditionalJumpCode(c, cc, target);
            var m' := Run(m, code[..2]);
            code[2] == JmpCC(cc, target) && m'.Some? &&
            Holds(cc, m'.value.flagLeft, m'.value.flagRight) == Some(if cc == Equal then x == 0 else x != 0) &&
            Preserves(m, m'.value, {RAX})
  {
    var code := ConditionalJumpCode(c, cc, target);
    assert code[..2] == [Mov(c, RAX), Cmp(Imm(0), RAX)];
    MovSpec(m, c, RAX, x);
    var m1 := Exec(m, Mov(c, RAX)).value;
    var m2 := m1.(flagLeft := x, flagRight := 0);
    assert Exec(m1, Cmp(Imm(0), RAX)) == Some(m2);
    FlagsOnly(m1, x, 0);
    RunCons(m, Mov(c, RAX), [Cmp(Imm(0), RAX)]);
    RunCons(m1, Cmp(Imm(0), RAX), []);
  }

  /** What `convert_value` yields is never a register or a label: a constant is an immediate and a
      name a writable location, so the register conditions above always hold. */
  lemma ConvertedOperand(st: CGState, v: Value)
    ensures var o := Convert(st, v).0;
            !o.Register? && !o.LabelOperand? && (v.Constant? ==> o == Imm(v.n)) && (v.Named? ==> Writable(o))
  {
  }
}
