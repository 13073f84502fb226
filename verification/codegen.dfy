/** The back end: `GenerateFromIR` lowers IR blocks to per-block instruction
    lists, allocating a register to each variable the first time it is
    assigned, then lays the blocks out one after another and patches
    block-index jump and call operands into absolute instruction offsets. */
module CodeGen {
  import opened Common
  import opened Strings
  import opened Bytecode
  import opened IR
  import opened VirtualMachine

  // ---------------------------------------------------------------------------
  // Generator state
  // ---------------------------------------------------------------------------

  /** `InstructionBlock`: instructions with their origins, index-aligned. */
  datatype InstructionBlock = InstructionBlock(instructions: seq<Instruction>, origins: seq<Span>)

  /** The generator's `State` as lowering uses it: the variable-to-register
      map, the instruction blocks (the current block is the last), the state's
      own diagnostics (`state->diagnosticContainer`) and the IR's diagnostics
      (`ir->state->diagnosticContainer`), to which operand lookups report. */
  datatype GenState = GenState(
    varRegisterMap: map<string, int>,
    blocks: seq<InstructionBlock>,
    diagnostics: seq<Diagnostic>,
    irDiagnostics: seq<Diagnostic>)

  /** The opcodes whose first operand the patch pass treats as a block index. */
  predicate IsPatched(op: OpCode)
  {
    op in {JMP, JEQ, JNE, JGE, JGT, JLE, JLT, CALL}
  }

  /** What every instruction the generator emits satisfies: a patched
      instruction's operand is a non-negative integer constant. */
  predicate TargetOK(inst: Instruction)
  {
    IsPatched(inst.op) ==>
      inst.val0.Constant? && inst.val0.value.tag == IntTag && inst.val0.value.payload >= 0
  }

  predicate BlockOK(b: InstructionBlock)
  {
    && |b.instructions| == |b.origins|
    && forall k :: 0 <= k < |b.instructions| ==> TargetOK(b.instructions[k])
  }

  predicate BlocksOK(blocks: seq<InstructionBlock>)
  {
    forall i :: 0 <= i < |blocks| ==> BlockOK(blocks[i])
  }

  /** What every lowering step keeps: blocks are only ever added, diagnostics only appended, and well-formed blocks stay
      well-formed. */
  predicate Grows(g: GenState, r: GenState)
  {
    && |g.blocks| <= |r.blocks|
    && g.diagnostics <= r.diagnostics
    && g.irDiagnostics <= r.irDiagnostics
    && (BlocksOK(g.blocks) ==> BlocksOK(r.blocks))
  }

  lemma GrowsTransitive(g1: GenState, g2: GenState, g3: GenState)
    requires Grows(g1, g2) && Grows(g2, g3)
    ensures Grows(g1, g3)
  {
    assert g1.diagnostics == g2.diagnostics[..|g1.diagnostics|];
    assert g1.irDiagnostics == g2.irDiagnostics[..|g1.irDiagnostics|];
  }

  /** `CurrentInstructionBlock().PushBack(inst, origin)`. */
  function Emit(g: GenState, inst: Instruction, origin: Span): (r: GenState)
    requires |g.blocks| > 0
    ensures |r.blocks| == |g.blocks|
    ensures r.blocks[..|g.blocks| - 1] == g.blocks[..|g.blocks| - 1]
    ensures r.blocks[|g.blocks| - 1].instructions == g.blocks[|g.blocks| - 1].instructions + [inst]
    ensures r == g.(blocks := r.blocks)
    ensures TargetOK(inst) ==> Grows(g, r)
  {
    var n := |g.blocks|;
    var last := g.blocks[n - 1];
    var r := g.(blocks := g.blocks[n - 1 := InstructionBlock(last.instructions + [inst], last.origins + [origin])]);
    assert BlocksOK(g.blocks) && TargetOK(inst) ==> BlockOK(r.blocks[n - 1]);
    r
  }

  /** `PushInstructionBlock`: a new, empty current block. */
  function PushBlock(g: GenState): (r: GenState)
    ensures r == g.(blocks := g.blocks + [InstructionBlock([], [])])
    ensures |g.blocks| > 0 ==> Grows(g, r)
  {
    g.(blocks := g.blocks + [InstructionBlock([], [])])
  }

  // ---------------------------------------------------------------------------
  // Registers
  // ---------------------------------------------------------------------------

  /** Registers are numbered densely and without sharing: every mapped
      variable has its own register below the number of mapped variables. */
  predicate Dense(regs: map<string, int>)
  {
    && (forall x :: x in regs ==> 0 <= regs[x] < |regs|)
    && (forall x, y :: x in regs && y in regs && x != y ==> regs[x] != regs[y])
  }

  /** Every variable mapped in `regs` is mapped to the same register in `r`. */
  predicate KeepsRegisters(regs: map<string, int>, r: map<string, int>)
  {
    forall x :: x in regs ==> x in r && r[x] == regs[x]
  }

  lemma KeepsRegistersTransitive(a: map<string, int>, b: map<string, int>, c: map<string, int>)
    requires KeepsRegisters(a, b) && KeepsRegisters(b, c)
    ensures KeepsRegisters(a, c)
  {
  }

  /** First-come-first-served allocation: a variable seen for the first time
      gets the number of variables seen before it; a known variable keeps its
      register. */
  function Allocate(regs: map<string, int>, x: string): (r: map<string, int>)
    requires Dense(regs)
    ensures Dense(r)
    ensures x in r && r.Keys == regs.Keys + {x}
    ensures KeepsRegisters(regs, r)
    ensures x !in regs ==> r[x] == |regs| && |r| == |regs| + 1
  {
    if x in regs then regs
    else
      var r := regs[x := |regs|];
      assert |r| == |regs| + 1 by {
        assert r.Keys == regs.Keys + {x};
      }
      r
  }

  // ---------------------------------------------------------------------------
  // Operands and types
  // ---------------------------------------------------------------------------

  /** `GetValueWrapperFromIRValue`: a literal becomes a constant and a known
      variable its register; a binary value stands for its left operand and
      a cast for its target. An undeclared identifier is reported; it and
      every other kind of value give an absent operand. */
  function WrapperOf(regs: map<string, int>, v: IRValue): (r: (ValueWrapper, seq<Diagnostic>))
    ensures r.0.Register? ==> exists x :: x in regs && regs[x] == r.0.index
    ensures r.0.Constant? ==> exists lit: IRValue :: IsLiteral(lit) && r.0.value == LiteralValue(lit)
    ensures |r.1| <= 1
    ensures |r.1| == 1 ==> r.0 == Absent && r.1[0].message.UndeclaredIdentifier?
    ensures IsLiteral(v) ==> r == (Constant(LiteralValue(v)), [])
    ensures v.Identifier? ==>
      if v.variable in regs then r == (Register(regs[v.variable]), [])
      else r == (Absent, [Diagnostic(v.origin, UndeclaredIdentifier(v.variable))])
  {
    match v
    case IntLiteral(_, _) => (Constant(LiteralValue(v)), [])
    case FloatLiteral(_, _) => (Constant(LiteralValue(v)), [])
    case Identifier(x, origin) =>
      if x in regs then (Register(regs[x]), [])
      else (Absent, [Diagnostic(origin, UndeclaredIdentifier(x))])
    case Binary(_, left, _, _) => WrapperOf(regs, left)
    case Cast(_, target, _) => WrapperOf(regs, target)
    case _ => (Absent, [])
  }

  /** An operand, with its lookup's diagnostic appended to the IR's. */
  function Operand(g: GenState, v: IRValue): (r: (ValueWrapper, GenState))
    ensures r.0 == WrapperOf(g.varRegisterMap, v).0
    ensures r.1 == g.(irDiagnostics := g.irDiagnostics + WrapperOf(g.varRegisterMap, v).1)
  {
    var (w, ds) := WrapperOf(g.varRegisterMap, v);
    (w, g.(irDiagnostics := g.irDiagnostics + ds))
  }

  /** The type a value is known to have: a number literal's own, or the type
      recorded for a variable, first in the IR's table and then in the
      generator's temporaries. */
  function KnownType(variableTypes: map<string, IRType>, tmpVarTypes: map<string, IRType>, v: IRValue): Option<IRType>
  {
    match v
    case IntLiteral(_, _) => Some(IntType)
    case FloatLiteral(_, _) => Some(FloatType)
    case Identifier(x, _) =>
      if x in variableTypes then Some(variableTypes[x])
      else if x in tmpVarTypes then Some(tmpVarTypes[x])
      else None
    case _ => None
  }

  /** `FindIRType` as intended: the known type of the value, or `_NONE` with
      an "Unexpected type in cast statement" diagnostic at the value when no
      type is known. */
  function FindIRType(variableTypes: map<string, IRType>, tmpVarTypes: map<string, IRType>, v: IRValue): (r: (IRType, seq<Diagnostic>))
    ensures r.1 == [] <==> KnownType(variableTypes, tmpVarTypes, v).Some?
    ensures r.1 == [] ==> r.0 == KnownType(variableTypes, tmpVarTypes, v).value
    ensures r.1 != [] ==> r == (NoType, [Diagnostic(v.origin, UnexpectedCastType)])
  {
    match v
    case IntLiteral(_, _) => (IntType, [])
    case FloatLiteral(_, _) => (FloatType, [])
    case Identifier(x, origin) =>
      if x in variableTypes then (variableTypes[x], [])
      else if x in tmpVarTypes then (tmpVarTypes[x], [])
      else (NoType, [Diagnostic(origin, UnexpectedCastType)])
    case _ => (NoType, [Diagnostic(v.origin, UnexpectedCastType)])
  }

  /** `FindIRType` as written. The lookup in the temporaries is compared with
      the end iterator of the other map; comparing iterators of two different
      containers is undefined, so every identifier that is not a declared
      variable (`None`), whether or not it has a temporary type, reaches
      undefined behaviour instead of the temporary's type or the diagnostic. */
  function FindIRTypeAsWritten(variableTypes: map<string, IRType>, tmpVarTypes: map<string, IRType>, v: IRValue): (r: Option<(IRType, seq<Diagnostic>)>)
    ensures r.None? <==> v.Identifier? && v.variable !in variableTypes
    ensures r.Some? ==> r.value == FindIRType(variableTypes, tmpVarTypes, v)
  {
    match v
    case IntLiteral(_, _) => Some((IntType, []))
    case FloatLiteral(_, _) => Some((FloatType, []))
    case Identifier(x, _) =>
      if x in variableTypes then Some((variableTypes[x], []))
      else None
    case _ => Some((NoType, [Diagnostic(v.origin, UnexpectedCastType)]))
  }

  /** A cast of a variable with no recorded type: as written this compares
      iterators of two maps, where the intended lookup reports the cast. */
  lemma UntypedCastTargetIsUndefined()
    ensures var v := Identifier("t", Generated);
      && FindIRTypeAsWritten(map[], map[], v).None?
      && FindIRType(map[], map[], v) == (NoType, [Diagnostic(Generated, UnexpectedCastType)])
  {
  }

  /** A cast of a temporary: as written the lookup that finds it is still
      compared with the wrong end iterator, where the intended lookup gives the
      temporary's type. */
  lemma TemporaryCastTargetIsUndefined()
    ensures var v := Identifier("t", Generated);
      && FindIRTypeAsWritten(map[], map["t" := FloatType], v).None?
      && FindIRType(map[], map["t" := FloatType], v) == (FloatType, [])
  {
  }

  // ---------------------------------------------------------------------------
  // Branch lowering
  // ---------------------------------------------------------------------------

  /** The opcode table of the branch form of `HandleComparison`: a test maps to
      the jump taken when it holds, a bitwise operator to its instruction, and
      anything else to `NONE`. */
  function BranchOpCode(op: BinaryOperator): (r: OpCode)
    ensures IsTest(op) ==> r == BinaryOperatorTypeToOpCode(op)
    ensures IsTestJump(r) <==> IsTest(op)
    ensures !IsTest(op) ==> r in {AND, OR, XOR, NONE}
  {
    match op
    case EqualTest => JEQ
    case NotEqualTest => JNE
    case GreaterEqualTest => JGE
    case GreaterTest => JGT
    case LessEqualTest => JLE
    case LessTest => JLT
    case BinAnd => AND
    case BinOr => OR
    case BinXor => XOR
    case _ => NONE
  }

  /** A comparison `HandleComparison` emits code for itself (rather than
      recursing into its operands). */
  predicate IsLeafComparison(cond: IRValue)
  {
    cond.Binary? && cond.binaryOp !in {BooleanAnd, BooleanOr}
  }

  /** The jump a leaf comparison ends with: the plain opcode to the true block,
      or, when inverted, the inverse opcode to the false block. */
  function LeafJump(op: BinaryOperator, ifTrue: int, ifFalse: int, inv: bool): Instruction
  {
    if inv then Inst1(InverseOpCode(BranchOpCode(op)), IntConstant(ifFalse))
    else Inst1(BranchOpCode(op), IntConstant(ifTrue))
  }

  /** A leaf comparison: `CMP lhs, rhs`, then the jump, appended to the
      current block; no other block changes. */
  function LowerLeaf(g: GenState, cond: IRValue, ifTrue: int, ifFalse: int, inv: bool): (r: GenState)
    requires |g.blocks| > 0 && cond.Binary?
    ensures |r.blocks| == |g.blocks|
    ensures r.blocks[..|g.blocks| - 1] == g.blocks[..|g.blocks| - 1]
    ensures r.blocks[|g.blocks| - 1].instructions == g.blocks[|g.blocks| - 1].instructions
      + [Inst2(CMP, WrapperOf(g.varRegisterMap, cond.left).0, WrapperOf(g.varRegisterMap, cond.right).0),
         LeafJump(cond.binaryOp, ifTrue, ifFalse, inv)]
    ensures r.varRegisterMap == g.varRegisterMap && r.diagnostics == g.diagnostics
    ensures ifTrue >= 0 && ifFalse >= 0 ==> Grows(g, r)
  {
    var (lhs, g1) := Operand(g, cond.left);
    var (rhs, g2) := Operand(g1, cond.right);
    var g3 := Emit(g2, Inst2(CMP, lhs, rhs), cond.origin);
    var r := Emit(g3, LeafJump(cond.binaryOp, ifTrue, ifFalse, inv), cond.origin);
    assert Grows(g, g2);
    assert ifTrue >= 0 && ifFalse >= 0 ==> Grows(g, r) by {
      if ifTrue >= 0 && ifFalse >= 0 {
        GrowsTransitive(g, g2, g3);
        GrowsTransitive(g, g3, r);
      }
    }
    r
  }

  /** The branch form of `HandleComparison`. `&&` lowers both operands with
      the jumps inverted (to the false block), `||` both operands plain (to the
      true block); a leaf comparison emits `CMP lhs, rhs` and one jump. A
      condition that is not a binary value emits nothing. */
  function LowerCondition(g: GenState, cond: IRValue, ifTrue: int, ifFalse: int, inv: bool): (r: GenState)
    requires |g.blocks| > 0
    ensures |r.blocks| == |g.blocks|
    ensures r.blocks[..|g.blocks| - 1] == g.blocks[..|g.blocks| - 1]
    ensures r.varRegisterMap == g.varRegisterMap && r.diagnostics == g.diagnostics
    ensures ifTrue >= 0 && ifFalse >= 0 ==> Grows(g, r)
    decreases cond
  {
    match cond
    case Binary(op, left, right, origin) =>
      if op == BooleanAnd || op == BooleanOr then
        var inner := op == BooleanAnd;
        var g1 := LowerCondition(g, left, ifTrue, ifFalse, inner);
        var g2 := LowerCondition(g1, right, ifTrue, ifFalse, inner);
        assert ifTrue >= 0 && ifFalse >= 0 ==> Grows(g, g2) by {
          if ifTrue >= 0 && ifFalse >= 0 { GrowsTransitive(g, g1, g2); }
        }
        g2
      else
        LowerLeaf(g, cond, ifTrue, ifFalse, inv)
    case _ => g
  }

  /** For a leaf comparison, branch lowering appends exactly `CMP lhs, rhs`
      and one jump to the current block: the inverse opcode aimed at the false
      block when `inv` is set, the plain opcode aimed at the true block
      otherwise. */
  lemma LeafComparisonEmitsCmpAndJump(g: GenState, cond: IRValue, ifTrue: int, ifFalse: int, inv: bool)
    requires |g.blocks| > 0 && IsLeafComparison(cond)
    ensures var n := |g.blocks|;
      var lhs := WrapperOf(g.varRegisterMap, cond.left).0;
      var rhs := WrapperOf(g.varRegisterMap, cond.right).0;
      LowerCondition(g, cond, ifTrue, ifFalse, inv).blocks[n - 1].instructions ==
        g.blocks[n - 1].instructions + [Inst2(CMP, lhs, rhs), LeafJump(cond.binaryOp, ifTrue, ifFalse, inv)]
  {
  }

  /** When the leaf is a test on two integers, its jump is taken exactly when
      control should leave for the block it aims at: with `inv`, when the test
      fails (towards the false block); otherwise when it holds (towards the
      true block). */
  lemma LeafJumpDecides(op: BinaryOperator, a: int, b: int, ifTrue: int, ifFalse: int, inv: bool)
    requires IsTest(op)
    ensures var j := LeafJump(op, ifTrue, ifFalse, inv);
      IsTestJump(j.op) &&
      JumpTaken(j.op, FlagsOf(a, b).0, FlagsOf(a, b).1) == (if inv then !TestHolds(op, a, b) else TestHolds(op, a, b))
  {
    InverseTableIsInverseOfTable(op);
    assert TestHolds(op, a, b) == TestHolds(op, a, b);
  }

  // ---------------------------------------------------------------------------
  // Assignments
  // ---------------------------------------------------------------------------

  /** What the generator reads from the IR besides its blocks: the declared
      types, the generator's temporaries' types (`state->tmpVarTypes`) and the
      IR's type of an arbitrary value (`GetValueType`, not part of this
      model). */
  datatype TypeInfo = TypeInfo(
    variableTypes: map<string, IRType>,
    tmpVarTypes: map<string, IRType>,
    typeOf: IRValue -> IRType)

  const ZERO_INT: ValueWrapper := IntConstant(0)
  const ZERO_FLOAT: ValueWrapper := Constant(Value(FloatTag, 0))

  /** A unary assignment: negation subtracts from an integer or float zero
      (chosen by the operand's type), `!` is `XOR v, v`, `~` is `INV`. */
  function LowerUnary(g: GenState, regVal: ValueWrapper, v: IRValue, types: TypeInfo): (r: GenState)
    requires |g.blocks| > 0 && v.Unary?
    ensures Grows(g, r) && |r.blocks| == |g.blocks| && r.varRegisterMap == g.varRegisterMap
    ensures r.blocks[..|g.blocks| - 1] == g.blocks[..|g.blocks| - 1]
    ensures r.diagnostics == g.diagnostics
    ensures r.irDiagnostics == g.irDiagnostics + WrapperOf(g.varRegisterMap, v.operand).1
    ensures var w := WrapperOf(g.varRegisterMap, v.operand).0;
      var before := g.blocks[|g.blocks| - 1].instructions;
      var after := r.blocks[|g.blocks| - 1].instructions;
      && (v.unaryOp == Negate ==>
            after == before + [Instruction(SUB, regVal, if types.typeOf(v.operand) == IntType then ZERO_INT else ZERO_FLOAT, w)])
      && (v.unaryOp == Not ==> after == before + [Instruction(XOR, regVal, w, w)])
      && (v.unaryOp == BinInvert ==> after == before + [Inst2(INV, regVal, w)])
  {
    var (w, g1) := Operand(g, v.operand);
    match v.unaryOp
    case Negate =>
      var zero := if types.typeOf(v.operand) == IntType then ZERO_INT else ZERO_FLOAT;
      Emit(g1, Instruction(SUB, regVal, zero, w), v.origin)
    case Not => Emit(g1, Instruction(XOR, regVal, w, w), v.origin)
    case BinInvert => Emit(g1, Inst2(INV, regVal, w), v.origin)
  }

  /** A binary assignment. An arithmetic or bitwise operator is one
      instruction. A comparison or connective is branch-lowered (inverted,
      aimed at the next two block indices), then `CMP lhs, rhs` and a `MOV`
      into the destination with no source operand. */
  function LowerBinary(g: GenState, regVal: ValueWrapper, v: IRValue): (r: GenState)
    requires |g.blocks| > 0 && v.Binary?
    ensures Grows(g, r) && |r.blocks| == |g.blocks| && r.varRegisterMap == g.varRegisterMap
    ensures r.blocks[..|g.blocks| - 1] == g.blocks[..|g.blocks| - 1]
    ensures var lhs := WrapperOf(g.varRegisterMap, v.left).0;
      var rhs := WrapperOf(g.varRegisterMap, v.right).0;
      var n := |g.blocks|;
      var code := OpCodeFromBinaryOperatorType(v.binaryOp);
      && (code != CMP ==>
            r.blocks[n - 1].instructions == g.blocks[n - 1].instructions + [Instruction(code, regVal, lhs, rhs)])
      && (code == CMP ==>
            r.blocks[n - 1].instructions ==
              LowerCondition(g, v, n, n + 1, true).blocks[n - 1].instructions + [Inst2(CMP, lhs, rhs), Inst1(MOV, regVal)])
  {
    var code := OpCodeFromBinaryOperatorType(v.binaryOp);
    if code == CMP then ComparisonValue(g, regVal, v) else ArithmeticValue(g, regVal, v, code)
  }

  /** An arithmetic or bitwise binary value: one instruction, destination
      first, then the two operands. */
  function ArithmeticValue(g: GenState, regVal: ValueWrapper, v: IRValue, code: OpCode): (r: GenState)
    requires |g.blocks| > 0 && v.Binary? && !IsPatched(code)
    ensures Grows(g, r) && |r.blocks| == |g.blocks| && r.varRegisterMap == g.varRegisterMap
    ensures r.blocks[..|g.blocks| - 1] == g.blocks[..|g.blocks| - 1]
    ensures r.blocks[|g.blocks| - 1].instructions == g.blocks[|g.blocks| - 1].instructions
      + [Instruction(code, regVal, WrapperOf(g.varRegisterMap, v.left).0, WrapperOf(g.varRegisterMap, v.right).0)]
  {
    var (lhs, g1) := Operand(g, v.left);
    var (rhs, g2) := Operand(g1, v.right);
    Emit(g2, Instruction(code, regVal, lhs, rhs), v.origin)
  }

  /** A comparison or connective as a value: its branch lowering, then
      `CMP lhs, rhs` and a `MOV` into the destination with no source. */
  function ComparisonValue(g: GenState, regVal: ValueWrapper, v: IRValue): (r: GenState)
    requires |g.blocks| > 0 && v.Binary?
    ensures Grows(g, r) && |r.blocks| == |g.blocks| && r.varRegisterMap == g.varRegisterMap
    ensures r.blocks[..|g.blocks| - 1] == g.blocks[..|g.blocks| - 1]
    ensures var n := |g.blocks|;
      r.blocks[n - 1].instructions == LowerCondition(g, v, n, n + 1, true).blocks[n - 1].instructions
        + [Inst2(CMP, WrapperOf(g.varRegisterMap, v.left).0, WrapperOf(g.varRegisterMap, v.right).0), Inst1(MOV, regVal)]
  {
    var n := |g.blocks|;
    var g1 := LowerCondition(g, v, n, n + 1, true);
    var (lhs, g2) := Operand(g1, v.left);
    var (rhs, g3) := Operand(g2, v.right);
    var g4 := Emit(g3, Inst2(CMP, lhs, rhs), v.origin);
    var r := Emit(g4, Inst1(MOV, regVal), v.origin);
    assert g3.blocks == g1.blocks;
    assert r.blocks[..n - 1] == g1.blocks[..n - 1];
    GrowsTransitive(g, g1, g4);
    GrowsTransitive(g, g4, r);
    r
  }

  /** A test assigned as a value, `d = a < b` say, appends `CMP a, b`, the
      inverted jump to the block after next, `CMP a, b` again and a `MOV d`
      without a source: the destination is never given the test's result. */
  lemma TestValueEmits(g: GenState, regVal: ValueWrapper, v: IRValue)
    requires |g.blocks| > 0 && v.Binary? && IsTest(v.binaryOp)
    ensures var lhs := WrapperOf(g.varRegisterMap, v.left).0;
      var rhs := WrapperOf(g.varRegisterMap, v.right).0;
      var n := |g.blocks|;
      LowerBinary(g, regVal, v).blocks[n - 1].instructions == g.blocks[n - 1].instructions +
        [Inst2(CMP, lhs, rhs), LeafJump(v.binaryOp, n, n + 1, true), Inst2(CMP, lhs, rhs), Inst1(MOV, regVal)]
  {
    var n := |g.blocks|;
    LeafComparisonEmitsCmpAndJump(g, v, n, n + 1, true);
  }

  /** The true block of a ternary: `MOV dest, first value`, then a jump to the
      merge block. Only the current block changes. */
  function TernaryTrueArm(g: GenState, regVal: ValueWrapper, v: IRValue, merge: nat): (r: GenState)
    requires |g.blocks| > 0 && v.Ternary?
    ensures Grows(g, r) && |r.blocks| == |g.blocks| && r.varRegisterMap == g.varRegisterMap
    ensures r.blocks[..|g.blocks| - 1] == g.blocks[..|g.blocks| - 1]
    ensures r.blocks[|g.blocks| - 1].instructions == g.blocks[|g.blocks| - 1].instructions
      + [Inst2(MOV, regVal, WrapperOf(g.varRegisterMap, v.ifTrue).0), Inst1(JMP, IntConstant(merge))]
  {
    var (tw, g1) := Operand(g, v.ifTrue);
    var g2 := Emit(g1, Inst2(MOV, regVal, tw), v.origin);
    var r := Emit(g2, Inst1(JMP, IntConstant(merge)), v.origin);
    GrowsTransitive(g, g2, r);
    r
  }

  /** The false block of a ternary: `MOV dest, second value`, falling through
      to the merge block. Only the current block changes. */
  function TernaryFalseArm(g: GenState, regVal: ValueWrapper, v: IRValue): (r: GenState)
    requires |g.blocks| > 0 && v.Ternary?
    ensures Grows(g, r) && |r.blocks| == |g.blocks| && r.varRegisterMap == g.varRegisterMap
    ensures r.blocks[..|g.blocks| - 1] == g.blocks[..|g.blocks| - 1]
    ensures r.blocks[|g.blocks| - 1].instructions == g.blocks[|g.blocks| - 1].instructions
      + [Inst2(MOV, regVal, WrapperOf(g.varRegisterMap, v.ifFalse).0)]
  {
    var (fw, g1) := Operand(g, v.ifFalse);
    Emit(g1, Inst2(MOV, regVal, fw), v.origin)
  }

  /** A ternary assignment: the condition is branch-lowered (inverted) in the
      current block, aimed at two new blocks, the true block moving the first
      value and jumping to the merge block, the false block moving the second;
      the empty merge block becomes the current block. */
  function LowerTernary(g: GenState, regVal: ValueWrapper, v: IRValue): (r: GenState)
    requires |g.blocks| > 0 && v.Ternary?
    ensures Grows(g, r) && |r.blocks| == |g.blocks| + 3 && r.varRegisterMap == g.varRegisterMap
    ensures r.blocks[..|g.blocks| - 1] == g.blocks[..|g.blocks| - 1]
    ensures var n := |g.blocks|;
      r.blocks[n - 1] == LowerCondition(g, v.condition, n, n + 1, true).blocks[n - 1]
    ensures r.blocks[|g.blocks| + 2] == InstructionBlock([], [])
  {
    var n := |g.blocks|;
    var g1 := LowerCondition(g, v.condition, n, n + 1, true);
    var g2 := PushBlock(g1);
    var g3 := TernaryTrueArm(g2, regVal, v, n + 2);
    var g4 := PushBlock(g3);
    var g5 := TernaryFalseArm(g4, regVal, v);
    var r := PushBlock(g5);
    assert |g5.blocks| == n + 2;
    GrowsTransitive(g, g1, g2);
    GrowsTransitive(g, g2, g3);
    GrowsTransitive(g, g3, g4);
    GrowsTransitive(g, g4, g5);
    GrowsTransitive(g, g5, r);
    r
  }

  /** The ternary's blocks: the one at the first new index (the condition's
      true target) moves the first value and jumps two blocks on, to the merge
      block; the next (the false target) moves the second value and falls
      through into the merge block, which is left empty. */
  lemma TernaryArmsMeetAtMerge(g: GenState, regVal: ValueWrapper, v: IRValue)
    requires |g.blocks| > 0 && v.Ternary?
    ensures var n := |g.blocks|;
      var r := LowerTernary(g, regVal, v);
      && r.blocks[n].instructions == [Inst2(MOV, regVal, WrapperOf(g.varRegisterMap, v.ifTrue).0), Inst1(JMP, IntConstant(n + 2))]
      && r.blocks[n + 1].instructions == [Inst2(MOV, regVal, WrapperOf(g.varRegisterMap, v.ifFalse).0)]
      && r.blocks[n + 2].instructions == []
  {
  }

  /** A cast assignment. Casting to the type the target already has emits
      nothing; int to float is `ITF`, float to int is `FTI`; a target of any
      other type, or a cast to any other type, is reported. */
  function LowerCast(g: GenState, regVal: ValueWrapper, v: IRValue, types: TypeInfo): (r: GenState)
    requires |g.blocks| > 0 && v.Cast?
    ensures Grows(g, r) && |r.blocks| == |g.blocks| && r.varRegisterMap == g.varRegisterMap
    ensures r.blocks[..|g.blocks| - 1] == g.blocks[..|g.blocks| - 1]
    ensures var unexpected := Diagnostic(v.origin, UnexpectedCastType);
      v.castedType !in {IntType, FloatType} ==> r == g.(diagnostics := g.diagnostics + [unexpected])
    ensures var (t, ds) := FindIRType(types.variableTypes, types.tmpVarTypes, v.target);
      var unexpected := Diagnostic(v.origin, UnexpectedCastType);
      var before := g.blocks[|g.blocks| - 1].instructions;
      var after := r.blocks[|g.blocks| - 1].instructions;
      v.castedType in {IntType, FloatType} ==>
        && (t == v.castedType ==> r == g.(irDiagnostics := g.irDiagnostics + ds))
        && (t != v.castedType && t in {IntType, FloatType} ==>
              && after == before + [Inst2(if t == FloatType then FTI else ITF, regVal, WrapperOf(g.varRegisterMap, v.target).0)]
              && r.diagnostics == g.diagnostics
              && r.irDiagnostics == g.irDiagnostics + ds + WrapperOf(g.varRegisterMap, v.target).1)
        && (t !in {IntType, FloatType} ==>
              r == g.(irDiagnostics := g.irDiagnostics + ds, diagnostics := g.diagnostics + [unexpected]))
  {
    var unexpected := Diagnostic(v.origin, UnexpectedCastType);
    if v.castedType == IntType || v.castedType == FloatType then
      var (t, ds) := FindIRType(types.variableTypes, types.tmpVarTypes, v.target);
      var g1 := g.(irDiagnostics := g.irDiagnostics + ds);
      if t == v.castedType then
        g1
      else if t == IntType || t == FloatType then
        var (w, g2) := Operand(g1, v.target);
        Emit(g2, Inst2(if t == FloatType then FTI else ITF, regVal, w), v.origin)
      else
        g1.(diagnostics := g1.diagnostics + [unexpected])
    else
      g.(diagnostics := g.diagnostics + [unexpected])
  }

  /** One assignment: the variable's register is allocated (or found), then
      its value is lowered into the current block; any other kind of value is
      a `MOV` of its operand. */
  function LowerAssignment(g: GenState, a: Assignment, types: TypeInfo): (r: GenState)
    requires |g.blocks| > 0 && Dense(g.varRegisterMap)
    ensures Grows(g, r) && Dense(r.varRegisterMap)
    ensures r.varRegisterMap == Allocate(g.varRegisterMap, a.variable)
    ensures var regs := Allocate(g.varRegisterMap, a.variable);
      var g0 := g.(varRegisterMap := regs);
      var regVal := Register(regs[a.variable]);
      && (a.value.Unary? ==> r == LowerUnary(g0, regVal, a.value, types))
      && (a.value.Binary? ==> r == LowerBinary(g0, regVal, a.value))
      && (a.value.Ternary? ==> r == LowerTernary(g0, regVal, a.value))
      && (a.value.Cast? ==> r == LowerCast(g0, regVal, a.value, types))
    ensures var regs := Allocate(g.varRegisterMap, a.variable);
      var n := |g.blocks|;
      (a.value.IntLiteral? || a.value.FloatLiteral? || a.value.Identifier? || a.value.FuncCall?) ==>
        && |r.blocks| == n
        && r.blocks[..n - 1] == g.blocks[..n - 1]
        && r.blocks[n - 1].instructions == g.blocks[n - 1].instructions
             + [Inst2(MOV, Register(regs[a.variable]), WrapperOf(regs, a.value).0)]
        && r.irDiagnostics == g.irDiagnostics + WrapperOf(regs, a.value).1
        && r.diagnostics == g.diagnostics
  {
    var regs := Allocate(g.varRegisterMap, a.variable);
    var g0 := g.(varRegisterMap := regs);
    var regVal := Register(regs[a.variable]);
    match a.value
    case Unary(_, _, _) => LowerUnary(g0, regVal, a.value, types)
    case Binary(_, _, _, _) => LowerBinary(g0, regVal, a.value)
    case Ternary(_, _, _, _) => LowerTernary(g0, regVal, a.value)
    case Cast(_, _, _) => LowerCast(g0, regVal, a.value, types)
    case _ => MoveValue(g0, regVal, a.value, a.origin)
  }

  /** Any other value is copied: `MOV dest, operand` in the current block. */
  function MoveValue(g: GenState, regVal: ValueWrapper, v: IRValue, origin: Span): (r: GenState)
    requires |g.blocks| > 0
    ensures Grows(g, r) && |r.blocks| == |g.blocks| && r.varRegisterMap == g.varRegisterMap
    ensures r.blocks[..|g.blocks| - 1] == g.blocks[..|g.blocks| - 1]
    ensures r.blocks[|g.blocks| - 1].instructions == g.blocks[|g.blocks| - 1].instructions
      + [Inst2(MOV, regVal, WrapperOf(g.varRegisterMap, v).0)]
    ensures r.irDiagnostics == g.irDiagnostics + WrapperOf(g.varRegisterMap, v).1
    ensures r.diagnostics == g.diagnostics
  {
    var (w, g1) := Operand(g, v);
    Emit(g1, Inst2(MOV, regVal, w), origin)
  }

  // ---------------------------------------------------------------------------
  // Terminators and blocks
  // ---------------------------------------------------------------------------

  /** The block a false condition of a conditional branch names: the
      `otherwise` block, or the one after the `then` block. */
  function OtherwiseIndex(t: Terminator): nat
    requires t.ConditionalBranch?
  {
    if t.otherwiseBlock.Some? then t.otherwiseBlock.value else t.thenBlock + 1
  }

  /** A block's terminator: RETURN of its value (absent for a void return),
      a JMP to the branch target's IR index, a plain (not inverted) branch
      lowering of a conditional branch, or HALT with a generated origin. */
  function LowerTerminator(g: GenState, t: Terminator): (r: GenState)
    requires |g.blocks| > 0
    ensures Grows(g, r) && |r.blocks| == |g.blocks| && r.varRegisterMap == g.varRegisterMap
    ensures r.blocks[..|g.blocks| - 1] == g.blocks[..|g.blocks| - 1]
    ensures var n := |g.blocks|;
      var before := g.blocks[n - 1].instructions;
      var after := r.blocks[n - 1].instructions;
      && (t.Return? ==>
            var w := if t.returnValue.Some? then WrapperOf(g.varRegisterMap, t.returnValue.value).0 else Absent;
            after == before + [Inst1(RETURN, w)])
      && (t.Branch? ==> after == before + [Inst1(JMP, IntConstant(t.target))])
      && (t.Halt? ==> after == before + [Inst0(HALT)])
      && (t.ConditionalBranch? ==> r == LowerCondition(g, t.condition, t.thenBlock, OtherwiseIndex(t), false))
    ensures var n := |g.blocks|;
      t.ConditionalBranch? && IsLeafComparison(t.condition) ==>
        var cond := t.condition;
        r.blocks[n - 1].instructions == g.blocks[n - 1].instructions
          + [Inst2(CMP, WrapperOf(g.varRegisterMap, cond.left).0, WrapperOf(g.varRegisterMap, cond.right).0),
             LeafJump(cond.binaryOp, t.thenBlock, OtherwiseIndex(t), false)]
  {
    match t
    case Return(value, origin) =>
      var (w, g1) := if value.Some? then Operand(g, value.value) else (Absent, g);
      Emit(g1, Inst1(RETURN, w), origin)
    case Branch(target, origin) => Emit(g, Inst1(JMP, IntConstant(target)), origin)
    case ConditionalBranch(cond, thenBlock, _, _) =>
      LowerCondition(g, cond, thenBlock, OtherwiseIndex(t), false)
    case Halt => Emit(g, Inst0(HALT), Generated)
  }

  /** A condition whose lowering only recurses through `||`: no `&&` on the
      path from the root to any comparison. */
  predicate DisjunctionsOnly(cond: IRValue)
    decreases cond
  {
    match cond
    case Binary(op, left, right, _) =>
      && op != BooleanAnd
      && (op == BooleanOr ==> DisjunctionsOnly(left) && DisjunctionsOnly(right))
    case _ => true
  }

  /** A plain (not inverted) lowering of a condition without `&&` aims every
      jump at the true block: the false block does not occur in its code. */
  lemma {:induction false} PlainConditionIgnoresFalseBlock(g: GenState, cond: IRValue, ifTrue: int, f1: int, f2: int)
    requires |g.blocks| > 0 && DisjunctionsOnly(cond)
    ensures LowerCondition(g, cond, ifTrue, f1, false) == LowerCondition(g, cond, ifTrue, f2, false)
    decreases cond
  {
    match cond
    case Binary(op, left, right, origin) =>
      if op == BooleanOr {
        PlainConditionIgnoresFalseBlock(g, left, ifTrue, f1, f2);
        PlainConditionIgnoresFalseBlock(LowerCondition(g, left, ifTrue, f1, false), right, ifTrue, f1, f2);
      }
    case _ =>
  }

  /** A conditional branch on a condition without `&&` lowers to the same code
      whatever block `otherwise` names: a false condition falls through to the
      block laid out next. */
  lemma ConditionalBranchIgnoresOtherwise(g: GenState, cond: IRValue, thenBlock: nat, o1: Option<nat>, o2: Option<nat>, origin: Span)
    requires |g.blocks| > 0 && DisjunctionsOnly(cond)
    ensures LowerTerminator(g, ConditionalBranch(cond, thenBlock, o1, origin)) ==
            LowerTerminator(g, ConditionalBranch(cond, thenBlock, o2, origin))
  {
    PlainConditionIgnoresFalseBlock(g, cond, thenBlock,
      OtherwiseIndex(ConditionalBranch(cond, thenBlock, o1, origin)),
      OtherwiseIndex(ConditionalBranch(cond, thenBlock, o2, origin)));
  }

  /** With `&&` the otherwise block does matter: its operands are lowered
      inverted, and their jumps aim at it. */
  lemma ConjunctionJumpsToOtherwise()
    ensures var a := Identifier("a", Generated);
      var cond := Binary(BooleanAnd, Binary(EqualTest, a, a, Generated), a, Generated);
      var g := GenState(map["a" := 0], [InstructionBlock([], [])], [], []);
      var r := LowerTerminator(g, ConditionalBranch(cond, 1, Some(5), Generated));
      r.blocks[0].instructions == [Inst2(CMP, Register(0), Register(0)), Inst1(JNE, IntConstant(5))]
  {
    var a := Identifier("a", Generated);
    var eq := Binary(EqualTest, a, a, Generated);
    var g := GenState(map["a" := 0], [InstructionBlock([], [])], [], []);
    var g1 := LowerLeaf(g, eq, 1, 5, true);
    assert LeafJump(EqualTest, 1, 5, true) == Inst1(JNE, IntConstant(5));
    assert g1.blocks[0].instructions == [Inst2(CMP, Register(0), Register(0)), Inst1(JNE, IntConstant(5))];
    assert LowerCondition(g1, a, 1, 5, true) == g1;
  }

  // ---------------------------------------------------------------------------
  // Blocks
  // ---------------------------------------------------------------------------

  /** The variables a sequence of assignments writes. */
  function AssignedVariables(assignments: seq<Assignment>): set<string>
    decreases |assignments|
  {
    if |assignments| == 0 then {} else {assignments[0].variable} + AssignedVariables(assignments[1..])
  }

  /** The variables the assignments of a sequence of IR blocks write. */
  function BlockVariables(bs: seq<Block>): set<string>
    decreases |bs|
  {
    if |bs| == 0 then {} else AssignedVariables(bs[0].assignments) + BlockVariables(bs[1..])
  }

  function LowerAssignments(g: GenState, assignments: seq<Assignment>, types: TypeInfo): (r: GenState)
    requires |g.blocks| > 0 && Dense(g.varRegisterMap)
    ensures Grows(g, r) && Dense(r.varRegisterMap)
    ensures r.varRegisterMap.Keys == g.varRegisterMap.Keys + AssignedVariables(assignments)
    ensures KeepsRegisters(g.varRegisterMap, r.varRegisterMap)
    decreases |assignments|
  {
    if |assignments| == 0 then g
    else
      var g1 := LowerAssignment(g, assignments[0], types);
      assert g1.varRegisterMap.Keys == g.varRegisterMap.Keys + {assignments[0].variable};
      var r := LowerAssignments(g1, assignments[1..], types);
      GrowsTransitive(g, g1, r);
      KeepsRegistersTransitive(g.varRegisterMap, g1.varRegisterMap, r.varRegisterMap);
      r
  }

  /** One IR block: a new instruction block, its assignments, then its
      terminator, if it has one. */
  function LowerBlock(g: GenState, b: Block, types: TypeInfo): (r: GenState)
    requires Dense(g.varRegisterMap)
    ensures Grows(g, r) && |r.blocks| > |g.blocks| && Dense(r.varRegisterMap)
    ensures r.varRegisterMap.Keys == g.varRegisterMap.Keys + AssignedVariables(b.assignments)
    ensures KeepsRegisters(g.varRegisterMap, r.varRegisterMap)
  {
    var g1 := PushBlock(g);
    var g2 := LowerAssignments(g1, b.assignments, types);
    var r := if b.terminator.Some? then LowerTerminator(g2, b.terminator.value) else g2;
    GrowsTransitive(g, g1, g2);
    GrowsTransitive(g, g2, r);
    r
  }

  /** The IR blocks in order; at least one instruction block per IR block. */
  function LowerBlocks(g: GenState, bs: seq<Block>, types: TypeInfo): (r: GenState)
    requires Dense(g.varRegisterMap)
    ensures Grows(g, r) && |r.blocks| >= |g.blocks| + |bs| && Dense(r.varRegisterMap)
    ensures r.varRegisterMap.Keys == g.varRegisterMap.Keys + BlockVariables(bs)
    ensures KeepsRegisters(g.varRegisterMap, r.varRegisterMap)
    decreases |bs|
  {
    if |bs| == 0 then g
    else
      var g1 := LowerBlock(g, bs[0], types);
      var r := LowerBlocks(g1, bs[1..], types);
      GrowsTransitive(g, g1, r);
      KeepsRegistersTransitive(g.varRegisterMap, g1.varRegisterMap, r.varRegisterMap);
      r
  }

  // ---------------------------------------------------------------------------
  // Layout and patching
  // ---------------------------------------------------------------------------

  /** The blocks laid out one after another, instructions and origins alike. */
  function Flatten(blocks: seq<InstructionBlock>): (r: InstructionBlock)
    ensures BlocksOK(blocks) ==> |r.instructions| == |r.origins|
    ensures BlocksOK(blocks) ==> forall k :: 0 <= k < |r.instructions| ==> TargetOK(r.instructions[k])
    decreases |blocks|
  {
    if |blocks| == 0 then InstructionBlock([], [])
    else
      var f := Flatten(blocks[..|blocks| - 1]);
      var last := blocks[|blocks| - 1];
      var r := InstructionBlock(f.instructions + last.instructions, f.origins + last.origins);
      assert BlocksOK(blocks) ==> BlocksOK(blocks[..|blocks| - 1]) && BlockOK(last);
      assert BlocksOK(blocks) ==> forall k :: 0 <= k < |r.instructions| ==> TargetOK(r.instructions[k]) by {
        if BlocksOK(blocks) {
          forall k | 0 <= k < |r.instructions| ensures TargetOK(r.instructions[k]) {
            if k >= |f.instructions| {
              assert r.instructions[k] == last.instructions[k - |f.instructions|];
            }
          }
        }
      }
      r
  }

  /** `startOffset` of block `i`: the number of instructions laid out before it. */
  function StartOffset(blocks: seq<InstructionBlock>, i: nat): nat
    requires i <= |blocks|
  {
    |Flatten(blocks[..i]).instructions|
  }

  /** The layout of a prefix of the blocks is a prefix of the whole layout. */
  lemma {:induction false} FlattenPrefix(blocks: seq<InstructionBlock>, i: nat)
    requires i <= |blocks|
    ensures Flatten(blocks[..i]).instructions <= Flatten(blocks).instructions
    ensures Flatten(blocks[..i]).origins <= Flatten(blocks).origins
    decreases |blocks|
  {
    if i == |blocks| {
      assert blocks[..i] == blocks;
    } else {
      var front := blocks[..|blocks| - 1];
      assert front[..i] == blocks[..i];
      FlattenPrefix(front, i);
    }
  }

  /** Laying out one more block appends its code. */
  lemma FlattenStep(blocks: seq<InstructionBlock>, k: nat)
    requires k < |blocks|
    ensures Flatten(blocks[..k + 1]).instructions == Flatten(blocks[..k]).instructions + blocks[k].instructions
    ensures Flatten(blocks[..k + 1]).origins == Flatten(blocks[..k]).origins + blocks[k].origins
  {
    assert blocks[..k + 1][..k] == blocks[..k];
  }

  /** Block `i` is laid out at its start offset, instructions and origins
      alike. */
  lemma BlockAtStartOffset(blocks: seq<InstructionBlock>, i: nat)
    requires i < |blocks| && BlocksOK(blocks)
    ensures var s := StartOffset(blocks, i);
      var f := Flatten(blocks);
      var n := |blocks[i].instructions|;
      && s + n <= |f.instructions| && f.instructions[s..s + n] == blocks[i].instructions
      && s + n <= |f.origins| && f.origins[s..s + n] == blocks[i].origins
  {
    FlattenStep(blocks, i);
    assert BlocksOK(blocks[..i]);
    FlattenPrefix(blocks, i + 1);
    var p := Flatten(blocks[..i]);
    var q := Flatten(blocks[..i + 1]);
    assert q.instructions == p.instructions + blocks[i].instructions;
    assert q.origins == p.origins + blocks[i].origins;
    assert q.instructions[|p.instructions|..] == blocks[i].instructions;
    assert q.origins[|p.origins|..] == blocks[i].origins;
  }

  /** Where instruction `j` of block `i` lands in the layout. */
  function FlatIndex(blocks: seq<InstructionBlock>, i: nat, j: nat): nat
    requires i <= |blocks|
  {
    StartOffset(blocks, i) + j
  }

  /** Instruction `j` of block `i`, with its origin, sits at the block's start
      offset plus `j`. */
  lemma InstructionAt(blocks: seq<InstructionBlock>, i: nat, j: nat)
    requires BlocksOK(blocks) && i < |blocks| && j < |blocks[i].instructions|
    ensures FlatIndex(blocks, i, j) < |Flatten(blocks).instructions| == |Flatten(blocks).origins|
    ensures Flatten(blocks).instructions[FlatIndex(blocks, i, j)] == blocks[i].instructions[j]
    ensures Flatten(blocks).origins[FlatIndex(blocks, i, j)] == blocks[i].origins[j]
  {
    var f := Flatten(blocks);
    BlockAtStartOffset(blocks, i);
    var s := StartOffset(blocks, i);
    var n := |blocks[i].instructions|;
    SliceIndex(f.instructions, s, n, j, blocks[i].instructions);
    SliceIndex(f.origins, s, n, j, blocks[i].origins);
  }

  /** An element of a slice is the element of the whole at the shifted index. */
  lemma SliceIndex<T>(x: seq<T>, s: nat, n: nat, j: nat, y: seq<T>)
    requires s + n <= |x| && x[s..s + n] == y && j < n
    ensures x[s + j] == y[j]
  {
  }

  /** Every instruction of every block, with its origin, sits at its block's
      start offset plus its index in the block. */
  lemma LaidOut(blocks: seq<InstructionBlock>)
    requires BlocksOK(blocks)
    ensures forall i: int, j: int :: 0 <= i < |blocks| && 0 <= j < |blocks[i].instructions| ==>
      && FlatIndex(blocks, i, j) < |Flatten(blocks).instructions|
      && Flatten(blocks).instructions[FlatIndex(blocks, i, j)] == blocks[i].instructions[j]
      && Flatten(blocks).origins[FlatIndex(blocks, i, j)] == blocks[i].origins[j]
  {
    forall i: int, j: int | 0 <= i < |blocks| && 0 <= j < |blocks[i].instructions| {
      InstructionAt(blocks, i, j);
    }
  }

  /** After patching, each instruction of each block sits, patched, at its
      block's start offset plus its index in the block. */
  lemma LaidOutPatched(blocks: seq<InstructionBlock>)
    requires BlocksOK(blocks)
    ensures var f := Flatten(blocks);
      forall i: int, j: int :: 0 <= i < |blocks| && 0 <= j < |blocks[i].instructions| ==>
      && FlatIndex(blocks, i, j) < |f.instructions|
      && PatchAll(f.instructions, Offsets(blocks))[FlatIndex(blocks, i, j)]
        == PatchInstruction(blocks[i].instructions[j], Offsets(blocks))
      && f.origins[FlatIndex(blocks, i, j)] == blocks[i].origins[j]
  {
    var f := Flatten(blocks);
    var out := PatchAll(f.instructions, Offsets(blocks));
    forall i: int, j: int | 0 <= i < |blocks| && 0 <= j < |blocks[i].instructions|
      ensures && FlatIndex(blocks, i, j) < |f.instructions|
        && out[FlatIndex(blocks, i, j)] == PatchInstruction(blocks[i].instructions[j], Offsets(blocks))
        && f.origins[FlatIndex(blocks, i, j)] == blocks[i].origins[j]
    {
      InstructionAt(blocks, i, j);
    }
  }

  /** A patched jump or call whose block index names a block now holds that
      block's start offset, and the block's code is laid out from there. */
  lemma PatchedJumpLandsOnTargetBlock(blocks: seq<InstructionBlock>, i: nat, j: nat)
    requires BlocksOK(blocks) && i < |blocks| && j < |blocks[i].instructions|
    requires IsPatched(blocks[i].instructions[j].op)
    requires blocks[i].instructions[j].val0.Constant? && blocks[i].instructions[j].val0.value.payload < |blocks|
    ensures var out := PatchAll(Flatten(blocks).instructions, Offsets(blocks));
      var t := blocks[i].instructions[j].val0.value.payload;
      && FlatIndex(blocks, i, j) < |out|
      && out[FlatIndex(blocks, i, j)].val0
        == Constant(blocks[i].instructions[j].val0.value.(payload := StartOffset(blocks, t)))
      && StartOffset(blocks, t) + |blocks[t].instructions| <= |out|
      && forall k :: 0 <= k < |blocks[t].instructions| ==>
           FlatIndex(blocks, t, k) < |out|
           && out[FlatIndex(blocks, t, k)] == PatchInstruction(blocks[t].instructions[k], Offsets(blocks))
  {
    var f := Flatten(blocks);
    var out := PatchAll(f.instructions, Offsets(blocks));
    var t := blocks[i].instructions[j].val0.value.payload;
    InstructionAt(blocks, i, j);
    assert BlockOK(blocks[i]) && TargetOK(blocks[i].instructions[j]);
    assert out[FlatIndex(blocks, i, j)] == PatchInstruction(blocks[i].instructions[j], Offsets(blocks));
    BlockAtStartOffset(blocks, t);
    forall k | 0 <= k < |blocks[t].instructions|
      ensures FlatIndex(blocks, t, k) < |out|
      ensures out[FlatIndex(blocks, t, k)] == PatchInstruction(blocks[t].instructions[k], Offsets(blocks))
    {
      InstructionAt(blocks, t, k);
    }
  }

  /** The start offset of every block, as the layout pass records it. */
  function Offsets(blocks: seq<InstructionBlock>): (r: seq<nat>)
    ensures |r| == |blocks|
    ensures forall i :: 0 <= i < |blocks| ==> r[i] == StartOffset(blocks, i)
  {
    seq(|blocks|, i requires 0 <= i < |blocks| => StartOffset(blocks, i))
  }

  /** A patched instruction whose block index names no block. */
  predicate BadTarget(inst: Instruction, blockCount: nat)
  {
    IsPatched(inst.op) && inst.val0.Constant? && inst.val0.value.payload >= blockCount
  }

  /** The patch pass on one instruction: the block index of a jump or call
      becomes that block's start offset (the word is replaced, the tag kept);
      an index past the last block is left as it is, and every other
      instruction is unchanged. */
  function PatchInstruction(inst: Instruction, offsets: seq<nat>): (r: Instruction)
    requires TargetOK(inst)
    ensures r.op == inst.op && r.val1 == inst.val1 && r.val2 == inst.val2
    ensures IsPatched(inst.op) && !BadTarget(inst, |offsets|) ==>
      r.val0 == Constant(Value(inst.val0.value.tag, offsets[inst.val0.value.payload]))
    ensures !IsPatched(inst.op) || BadTarget(inst, |offsets|) ==> r == inst
  {
    if IsPatched(inst.op) && inst.val0.value.payload < |offsets| then
      inst.(val0 := Constant(inst.val0.value.(payload := offsets[inst.val0.value.payload])))
    else inst
  }

  function PatchAll(insts: seq<Instruction>, offsets: seq<nat>): (r: seq<Instruction>)
    requires forall k :: 0 <= k < |insts| ==> TargetOK(insts[k])
    ensures |r| == |insts|
    ensures forall k :: 0 <= k < |insts| ==> r[k] == PatchInstruction(insts[k], offsets)
  {
    seq(|insts|, k requires 0 <= k < |insts| => PatchInstruction(insts[k], offsets))
  }

  /** How many "Invalid block index" diagnostics the patch pass reports: one
      per instruction with a bad target; none exactly when every target names
      a block. */
  function BadTargetCount(insts: seq<Instruction>, blockCount: nat): (r: nat)
    ensures r <= |insts|
    ensures r == 0 <==> forall k :: 0 <= k < |insts| ==> !BadTarget(insts[k], blockCount)
    decreases |insts|
  {
    if |insts| == 0 then 0
    else
      var rest := BadTargetCount(insts[1..], blockCount);
      assert forall k :: 1 <= k < |insts| ==> insts[1..][k - 1] == insts[k];
      (if BadTarget(insts[0], blockCount) then 1 else 0) + rest
  }

  function InvalidBlockDiagnostics(n: nat): (r: seq<Diagnostic>)
    ensures |r| == n && forall k :: 0 <= k < n ==> r[k] == Diagnostic(Generated, InvalidBlockIndex)
  {
    seq(n, _ => Diagnostic(Generated, InvalidBlockIndex))
  }

  // ---------------------------------------------------------------------------
  // GenerateFromIR
  // ---------------------------------------------------------------------------

  /** The machine after code generation, and the generator state it was built
      from. */
  datatype CodeGenResult = CodeGenResult(machine: Machine, state: GenState)

  /** The machine holds the blocks laid out one after another: one origin per
      instruction, and instruction `j` of block `i`, patched, at the block's
      start offset plus `j`, with its origin. */
  predicate LaidOutIn(machine: Machine, blocks: seq<InstructionBlock>)
    requires BlocksOK(blocks)
  {
    && |machine.instructions| == |machine.origins| == |Flatten(blocks).instructions|
    && forall i, j :: 0 <= i < |blocks| && 0 <= j < |blocks[i].instructions| ==>
      && FlatIndex(blocks, i, j) < |machine.instructions|
      && machine.instructions[FlatIndex(blocks, i, j)]
        == PatchInstruction(blocks[i].instructions[j], Offsets(blocks))
      && machine.origins[FlatIndex(blocks, i, j)] == blocks[i].origins[j]
  }

  /** The patched flat list, with the flat origins, is the blocks laid out. */
  lemma PatchedFlatListIsLaidOut(machine: Machine, blocks: seq<InstructionBlock>)
    requires BlocksOK(blocks)
    requires machine.instructions == PatchAll(Flatten(blocks).instructions, Offsets(blocks))
    requires machine.origins == Flatten(blocks).origins
    ensures LaidOutIn(machine, blocks)
  {
    LaidOutPatched(blocks);
  }

  /** The second half of `GenerateFromIR`: the runtime state is cleared, the
      blocks are laid out one after another and their jumps and calls
      patched, and each bad block index adds a diagnostic to the machine's. */
  function Assemble(m: Machine, g: GenState): (r: Machine)
    requires BlocksOK(g.blocks)
    ensures LaidOutIn(r, g.blocks)
    ensures r.diagnostics ==
      m.diagnostics + InvalidBlockDiagnostics(BadTargetCount(Flatten(g.blocks).instructions, |g.blocks|))
    ensures r.running == CLEARED && r.stack == [] && r.externals == map[]
    ensures r.registers == ClearRuntimeState(m).registers && r.compiled == m.compiled
  {
    var flat := Flatten(g.blocks);
    var r := ClearRuntimeState(m).(
      instructions := PatchAll(flat.instructions, Offsets(g.blocks)),
      origins := flat.origins,
      diagnostics := m.diagnostics + InvalidBlockDiagnostics(BadTargetCount(flat.instructions, |g.blocks|)));
    PatchedFlatListIsLaidOut(r, g.blocks);
    r
  }

  /** `GenerateFromIR` with origins that follow the instructions. The runtime
      state is cleared and the generator state starts empty; every IR block is
      lowered; the blocks are laid out and their jumps and calls patched; each
      bad block index adds a diagnostic to the machine's. The compiled flag is
      left as it was. */
  function GenerateFromIR(m: Machine, p: Program, tmpVarTypes: map<string, IRType>, typeOf: IRValue -> IRType, irDiagnostics: seq<Diagnostic>): (r: CodeGenResult)
    ensures var g := r.state;
      && Dense(g.varRegisterMap) && g.varRegisterMap.Keys == BlockVariables(p.blocks)
      && |g.blocks| >= |p.blocks| && BlocksOK(g.blocks)
      && irDiagnostics <= g.irDiagnostics
    ensures LaidOutIn(r.machine, r.state.blocks)
    ensures r.machine.diagnostics ==
      m.diagnostics + InvalidBlockDiagnostics(BadTargetCount(Flatten(r.state.blocks).instructions, |r.state.blocks|))
    ensures r.machine.running == CLEARED && r.machine.stack == [] && r.machine.externals == map[]
    ensures r.machine.registers == ClearRuntimeState(m).registers && r.machine.compiled == m.compiled
  {
    var types := TypeInfo(p.variableTypes, tmpVarTypes, typeOf);
    var g := LowerBlocks(GenState(map[], [], [], irDiagnostics), p.blocks, types);
    CodeGenResult(Assemble(m, g), g)
  }

  /** `GenerateFromIR` as written. Two things differ from the intended pass:
      the source is split into lines with SplitNoStrip, which reads past the
      end of a source that does not end with a newline (`None`); and the
      machine's origins are appended to without being cleared first, so a
      second compilation keeps the first one's origins in front of its own. */
  function GenerateFromIRAsWritten(m: Machine, p: Program, tmpVarTypes: map<string, IRType>, typeOf: IRValue -> IRType, irDiagnostics: seq<Diagnostic>, source: string): (r: Option<CodeGenResult>)
    ensures r.None? <==> |source| > 0 && source[|source| - 1] != '\n'
    ensures r.Some? ==>
      var c := GenerateFromIR(m, p, tmpVarTypes, typeOf, irDiagnostics);
      r.value.state == c.state && r.value.machine.(origins := c.machine.origins) == c.machine
  {
    if SplitNoStripAsWritten(source, '\n').None? then None
    else
      var c := GenerateFromIR(m, p, tmpVarTypes, typeOf, irDiagnostics);
      Some(c.(machine := c.machine.(origins := m.origins + c.machine.origins)))
  }

  /** Compiling on a machine that already holds origins leaves the old ones in
      front: there are more origins than instructions, and the line reported
      for instruction `k` is the previous program's, where the intended pass
      reports the line of the instruction itself. */
  lemma RecompileKeepsStaleOrigins(m: Machine, p: Program, tmpVarTypes: map<string, IRType>, typeOf: IRValue -> IRType, irDiagnostics: seq<Diagnostic>, source: string, lineOf: Span -> int)
    requires |source| == 0 || source[|source| - 1] == '\n'
    requires |m.origins| > 0
    ensures var r := GenerateFromIRAsWritten(m, p, tmpVarTypes, typeOf, irDiagnostics, source);
      var c := GenerateFromIR(m, p, tmpVarTypes, typeOf, irDiagnostics);
      && r.Some?
      && |r.value.machine.origins| == |m.origins| + |r.value.machine.instructions| > |r.value.machine.instructions|
      && |c.machine.origins| == |c.machine.instructions|
      && forall k :: 0 <= k < |m.origins| && k < |c.machine.instructions| ==>
           && CurrentLineNumber(JumpTo(r.value.machine, k), lineOf) == lineOf(m.origins[k])
           && CurrentLineNumber(JumpTo(c.machine, k), lineOf) == lineOf(c.machine.origins[k])
  {
    var r := GenerateFromIRAsWritten(m, p, tmpVarTypes, typeOf, irDiagnostics, source);
    var c := GenerateFromIR(m, p, tmpVarTypes, typeOf, irDiagnostics);
    assert r.value.machine.origins == m.origins + c.machine.origins;
  }

  /** IR block indices and instruction-block indices part ways after a
      ternary: it adds three instruction blocks, but a branch still names the
      IR block's own index. Here IR block 0 assigns a ternary and branches to
      IR block 1 (a HALT, laid out at instruction 4); the branch is patched to
      instruction 0, the ternary's true arm, instead. */
  lemma TernaryShiftsBranchTargets(m: Machine, typeOf: IRValue -> IRType)
    ensures GenerateFromIR(m, TernaryThenBranch(), map[], typeOf, []).machine.instructions == [
        Inst2(MOV, Register(0), IntConstant(2)),
        Inst1(JMP, IntConstant(3)),
        Inst2(MOV, Register(0), IntConstant(3)),
        Inst1(JMP, IntConstant(0)),
        Inst0(HALT)]
  {
    var types := TypeInfo(map[], map[], typeOf);
    var blocks := LowerBlocks(GenState(map[], [], [], []), TernaryThenBranch().blocks, types).blocks;
    TernaryThenBranchLowering(typeOf);
    TernaryThenBranchLayout(blocks);
    PatchBranchExample(Flatten(blocks).instructions, Offsets(blocks));
  }

  /** IR block 0 assigns `x = 1 ? 2 : 3` and branches to IR block 1, which
      halts. */
  function TernaryThenBranch(): Program
  {
    var tern := Ternary(IntLiteral(1, Generated), IntLiteral(2, Generated), IntLiteral(3, Generated), Generated);
    Program([
      Block([Assignment("x", tern, Generated)], Some(Branch(1, Generated))),
      Block([], Some(Halt))], map[])
  }

  /** The lowering of the example: the empty entry block, the two arms, the
      merge block holding the branch, and the halting block. */
  lemma TernaryThenBranchLowering(typeOf: IRValue -> IRType)
    ensures var blocks := LowerBlocks(GenState(map[], [], [], []), TernaryThenBranch().blocks, TypeInfo(map[], map[], typeOf)).blocks;
      && |blocks| == 5
      && blocks[0].instructions == []
      && blocks[1].instructions == [Inst2(MOV, Register(0), IntConstant(2)), Inst1(JMP, IntConstant(3))]
      && blocks[2].instructions == [Inst2(MOV, Register(0), IntConstant(3))]
      && blocks[3].instructions == [Inst1(JMP, IntConstant(1))]
      && blocks[4].instructions == [Inst0(HALT)]
  {
    var p := TernaryThenBranch();
    var types := TypeInfo(map[], map[], typeOf);
    var g0 := GenState(map[], [], [], []);
    LowerBlocksCons(g0, p.blocks, types);
    var g1 := LowerBlock(g0, p.blocks[0], types);
    TernaryExampleFirstBlock(typeOf);
    assert p.blocks[1..] == [Block([], Some(Halt))];
    LowerBlocksCons(g1, [Block([], Some(Halt))], types);
    HaltOnlyBlock(g1, types);
    var g2 := LowerBlock(g1, Block([], Some(Halt)), types);
    assert [Block([], Some(Halt))][1..] == [];
    assert LowerBlocks(g2, [], types) == g2;
  }

  /** Lowering a list of blocks lowers the first, then the rest. */
  lemma LowerBlocksCons(g: GenState, bs: seq<Block>, types: TypeInfo)
    requires Dense(g.varRegisterMap) && |bs| > 0
    ensures LowerBlocks(g, bs, types) == LowerBlocks(LowerBlock(g, bs[0], types), bs[1..], types)
  {
  }

  /** A block holding only `halt` lowers to a new block holding only `HALT`. */
  lemma HaltOnlyBlock(g: GenState, types: TypeInfo)
    requires Dense(g.varRegisterMap)
    ensures var r := LowerBlock(g, Block([], Some(Halt)), types);
      && |r.blocks| == |g.blocks| + 1
      && r.blocks[..|g.blocks|] == g.blocks
      && r.blocks[|g.blocks|].instructions == [Inst0(HALT)]
  {
    var g1 := PushBlock(g);
    assert LowerAssignments(g1, [], types) == g1;
    assert LowerBlock(g, Block([], Some(Halt)), types) == Emit(g1, Inst0(HALT), Generated);
  }

  /** The first block of the example: the ternary's four blocks, the last one
      ending with the jump to block 1. */
  lemma TernaryExampleFirstBlock(typeOf: IRValue -> IRType)
    ensures var g1 := LowerBlock(GenState(map[], [], [], []), TernaryThenBranch().blocks[0], TypeInfo(map[], map[], typeOf));
      && |g1.blocks| == 4
      && g1.blocks[0].instructions == []
      && g1.blocks[1].instructions == [Inst2(MOV, Register(0), IntConstant(2)), Inst1(JMP, IntConstant(3))]
      && g1.blocks[2].instructions == [Inst2(MOV, Register(0), IntConstant(3))]
      && g1.blocks[3].instructions == [Inst1(JMP, IntConstant(1))]
  {
    var p := TernaryThenBranch();
    var b0 := p.blocks[0];
    var a := b0.assignments[0];
    var types := TypeInfo(map[], map[], typeOf);
    var h1 := PushBlock(GenState(map[], [], [], []));
    TernaryExampleAssignment(typeOf);
    var t := LowerAssignment(h1, a, types);
    assert LowerAssignments(h1, [a], types) == LowerAssignments(t, [], types);
    assert LowerBlock(GenState(map[], [], [], []), b0, types) == LowerTerminator(t, Branch(1, Generated));
  }

  /** The example's one assignment, `x = 1 ? 2 : 3`, into the entry block:
      `x` gets register 0 and the ternary adds its arms and the merge block. */
  lemma TernaryExampleAssignment(typeOf: IRValue -> IRType)
    ensures var t := LowerAssignment(PushBlock(GenState(map[], [], [], [])), TernaryThenBranch().blocks[0].assignments[0], TypeInfo(map[], map[], typeOf));
      && |t.blocks| == 4
      && t.blocks[0].instructions == []
      && t.blocks[1].instructions == [Inst2(MOV, Register(0), IntConstant(2)), Inst1(JMP, IntConstant(3))]
      && t.blocks[2].instructions == [Inst2(MOV, Register(0), IntConstant(3))]
      && t.blocks[3].instructions == []
  {
    var tern := TernaryThenBranch().blocks[0].assignments[0].value;
    var h1 := PushBlock(GenState(map[], [], [], []));
    assert Allocate(map[], "x") == map["x" := 0];
    TernaryExampleArms(h1.(varRegisterMap := map["x" := 0]));
  }

  /** The arms of `1 ? 2 : 3` moved into register 0, after one block. */
  lemma TernaryExampleArms(h: GenState)
    requires |h.blocks| == 1 && h.blocks[0].instructions == []
    ensures var t := LowerTernary(h, Register(0), TernaryThenBranch().blocks[0].assignments[0].value);
      && |t.blocks| == 4
      && t.blocks[0].instructions == []
      && t.blocks[1].instructions == [Inst2(MOV, Register(0), IntConstant(2)), Inst1(JMP, IntConstant(3))]
      && t.blocks[2].instructions == [Inst2(MOV, Register(0), IntConstant(3))]
      && t.blocks[3].instructions == []
  {
    var tern := TernaryThenBranch().blocks[0].assignments[0].value;
    TernaryArmsMeetAtMerge(h, Register(0), tern);
    assert LowerCondition(h, tern.condition, 1, 2, true) == h;
  }

  /** The layout of the example: block 1 starts at 0, block 3 at 3. */
  lemma TernaryThenBranchLayout(blocks: seq<InstructionBlock>)
    requires && |blocks| == 5
      && blocks[0].instructions == []
      && blocks[1].instructions == [Inst2(MOV, Register(0), IntConstant(2)), Inst1(JMP, IntConstant(3))]
      && blocks[2].instructions == [Inst2(MOV, Register(0), IntConstant(3))]
      && blocks[3].instructions == [Inst1(JMP, IntConstant(1))]
      && blocks[4].instructions == [Inst0(HALT)]
    ensures Flatten(blocks).instructions == [Inst2(MOV, Register(0), IntConstant(2)), Inst1(JMP, IntConstant(3)),
                      Inst2(MOV, Register(0), IntConstant(3)), Inst1(JMP, IntConstant(1)), Inst0(HALT)]
    ensures |Offsets(blocks)| == 5 && Offsets(blocks)[1] == 0 && Offsets(blocks)[3] == 3
  {
    var mov2 := Inst2(MOV, Register(0), IntConstant(2));
    var jmp3 := Inst1(JMP, IntConstant(3));
    var mov3 := Inst2(MOV, Register(0), IntConstant(3));
    var jmp1 := Inst1(JMP, IntConstant(1));
    assert blocks[..0] == [];
    assert Flatten(blocks[..0]).instructions == [];
    FlattenStep(blocks, 0);
    assert Flatten(blocks[..1]).instructions == [];
    FlattenStep(blocks, 1);
    assert Flatten(blocks[..2]).instructions == [mov2, jmp3];
    FlattenStep(blocks, 2);
    assert Flatten(blocks[..3]).instructions == [mov2, jmp3, mov3];
    FlattenStep(blocks, 3);
    assert Flatten(blocks[..4]).instructions == [mov2, jmp3, mov3, jmp1];
    FlattenStep(blocks, 4);
    assert blocks[..5] == blocks;
  }

  /** The patch step of the example above: block 3 starts at instruction 3,
      block 1 at instruction 0. */
  lemma PatchBranchExample(flat: seq<Instruction>, offsets: seq<nat>)
    requires flat == [Inst2(MOV, Register(0), IntConstant(2)), Inst1(JMP, IntConstant(3)),
                      Inst2(MOV, Register(0), IntConstant(3)), Inst1(JMP, IntConstant(1)), Inst0(HALT)]
    requires |offsets| == 5 && offsets[1] == 0 && offsets[3] == 3
    ensures PatchAll(flat, offsets) == [Inst2(MOV, Register(0), IntConstant(2)), Inst1(JMP, IntConstant(3)),
                      Inst2(MOV, Register(0), IntConstant(3)), Inst1(JMP, IntConstant(0)), Inst0(HALT)]
  {
    assert forall k :: 0 <= k < 5 ==> TargetOK(flat[k]);
    var out := PatchAll(flat, offsets);
    assert out[1] == PatchInstruction(flat[1], offsets);
    assert out[3] == PatchInstruction(flat[3], offsets);
  }
}
