/** The machine-level vocabulary shared by the code generator and the virtual
    machine: opcodes, runtime values, operands, instructions, diagnostics, and
    the opcode tables that relate comparisons to conditional jumps. */
module Bytecode {
  import opened Common

  /** `VM::OpCode`. `NONE` is `_NONE`, the "no opcode" answer of the tables. */
  datatype OpCode =
    | MOV | ADD | SUB | MUL | DIV | MOD | AND | OR | XOR | INV | ITF | FTI
    | CALL | PUSH | POP | CMP
    | JMP | JZ | JNZ | JLT | JLE | JGT | JGE | JEQ | JNE
    | YIELD | RETURN | HALT | NONE

  /** The type tag of a runtime scalar; `NoTag` is `_NONE`, the tag of a
      register after it has been zeroed. */
  datatype Tag = IntTag | FloatTag | NoTag

  /** A runtime scalar: its tag and the 32-bit word that `valInt` and
      `valFloat` share, kept as the signed integer `valInt` reads. A float is
      only ever this word; its arithmetic is not part of this model. */
  datatype Value = Value(tag: Tag, payload: int)

  /** `Value(i)`: an integer scalar. */
  function IntValue(i: int): Value
  {
    Value(IntTag, i)
  }

  /** `Value::valInt`: the integer view of the word, whatever the tag. */
  function ValInt(v: Value): int
  {
    v.payload
  }

  /** A machine operand: nothing (an invalid wrapper, as in a void `RETURN`),
      a constant, or a register index. */
  datatype ValueWrapper = Absent | Constant(value: Value) | Register(index: int)

  predicate Valid(w: ValueWrapper)
  {
    !w.Absent?
  }

  /** An opcode with up to three operands, destination first. */
  datatype Instruction = Instruction(op: OpCode, val0: ValueWrapper, val1: ValueWrapper, val2: ValueWrapper)

  function Inst0(op: OpCode): Instruction
  {
    Instruction(op, Absent, Absent, Absent)
  }

  function Inst1(op: OpCode, a: ValueWrapper): Instruction
  {
    Instruction(op, a, Absent, Absent)
  }

  function Inst2(op: OpCode, a: ValueWrapper, b: ValueWrapper): Instruction
  {
    Instruction(op, a, b, Absent)
  }

  function IntConstant(i: int): ValueWrapper
  {
    Constant(IntValue(i))
  }

  /** The messages the back end reports. */
  datatype Message =
    | UndeclaredIdentifier(name: string)
    | UnexpectedCastType
    | InvalidBlockIndex
    | UnhandledOpCode(op: OpCode)
    | LoopTooLong

  datatype Diagnostic = Diagnostic(span: Span, message: Message)

  // ---------------------------------------------------------------------------
  // Jumps and the opcode tables
  // ---------------------------------------------------------------------------

  /** The opcodes that may move the instruction index to their operand. */
  predicate IsJump(op: OpCode)
  {
    op in {JMP, JZ, JNZ, JLT, JLE, JGT, JGE, JEQ, JNE}
  }

  /** The six jumps that test the result of a comparison. */
  predicate IsTestJump(op: OpCode)
  {
    op in {JLT, JLE, JGT, JGE, JEQ, JNE}
  }

  /** Whether a jump is taken, given the zero flag (`a - b` was zero) and the
      sign flag (`a - b` was positive). */
  function JumpTaken(op: OpCode, zf: bool, sf: bool): bool
    requires IsJump(op)
  {
    match op
    case JMP => true
    case JZ => zf
    case JNZ => !zf
    case JLT => !sf && !zf
    case JLE => !sf || zf
    case JGT => sf && !zf
    case JGE => sf || zf
    case JEQ => zf
    case JNE => !zf
  }

  /** For every flag state exactly one jump of each pair JEQ/JNE, JLT/JGE and
      JLE/JGT is taken. */
  lemma JumpPairsExclusive(zf: bool, sf: bool)
    ensures JumpTaken(JEQ, zf, sf) != JumpTaken(JNE, zf, sf)
    ensures JumpTaken(JLT, zf, sf) != JumpTaken(JGE, zf, sf)
    ensures JumpTaken(JLE, zf, sf) != JumpTaken(JGT, zf, sf)
  {
  }

  /** After `CMP a, b` with a difference that does not overflow, each jump is
      taken exactly when its comparison of `a` with `b` holds. */
  lemma JumpTakenAfterCmp(op: OpCode, a: int, b: int)
    requires IsJump(op)
    ensures JumpTaken(op, FlagsOf(a, b).0, FlagsOf(a, b).1) <==>
      match op
      case JZ | JEQ => a == b
      case JNZ | JNE => a != b
      case JLT => a < b
      case JLE => a <= b
      case JGT => a > b
      case JGE => a >= b
      case _ => true
  {
  }

  /** The jump taken on the opposite outcome of the same comparison; every
      other opcode maps to `NONE`. */
  function InverseOpCode(op: OpCode): (r: OpCode)
    ensures IsTestJump(op) <==> IsTestJump(r)
    ensures !IsTestJump(op) ==> r == NONE
    ensures IsTestJump(op) ==>
      forall zf: bool, sf: bool {:trigger JumpTaken(op, zf, sf)} ::
        JumpTaken(r, zf, sf) == !JumpTaken(op, zf, sf)
  {
    match op
    case JEQ => JNE
    case JNE => JEQ
    case JGT => JLE
    case JGE => JLT
    case JLT => JGE
    case JLE => JGT
    case _ => NONE
  }

  /** On the six test jumps `InverseOpCode` is an involution. */
  lemma InverseOpCodeInvolution(op: OpCode)
    requires IsTestJump(op)
    ensures InverseOpCode(InverseOpCode(op)) == op
  {
  }

  /** `IR::BinaryOperatorType`, the operators the IR's binary values carry. */
  datatype BinaryOperator =
    | Add | Sub | Mul | Div | Mod
    | BinAnd | BinOr | BinXor
    | EqualTest | NotEqualTest | GreaterTest | GreaterEqualTest | LessTest | LessEqualTest
    | BooleanAnd | BooleanOr

  predicate IsTest(op: BinaryOperator)
  {
    op in {EqualTest, NotEqualTest, GreaterTest, GreaterEqualTest, LessTest, LessEqualTest}
  }

  /** Whether a comparison holds for two integers. */
  predicate TestHolds(op: BinaryOperator, a: int, b: int)
    requires IsTest(op)
  {
    match op
    case EqualTest => a == b
    case NotEqualTest => a != b
    case GreaterTest => a > b
    case GreaterEqualTest => a >= b
    case LessTest => a < b
    case LessEqualTest => a <= b
  }

  /** The flags `CMP a, b` leaves when `a - b` does not overflow. */
  function FlagsOf(a: int, b: int): (bool, bool)
  {
    (a - b == 0, a - b > 0)
  }

  /** `BinaryOperatorTypeToOpCode`: the jump taken when a comparison holds;
      `NONE` for any other operator. */
  function BinaryOperatorTypeToOpCode(op: BinaryOperator): (r: OpCode)
    ensures IsTest(op) <==> IsTestJump(r)
    ensures !IsTest(op) ==> r == NONE
    ensures IsTest(op) ==>
      forall a: int, b: int {:trigger TestHolds(op, a, b)} ::
        JumpTaken(r, FlagsOf(a, b).0, FlagsOf(a, b).1) == TestHolds(op, a, b)
  {
    match op
    case EqualTest => JEQ
    case NotEqualTest => JNE
    case GreaterTest => JGT
    case GreaterEqualTest => JGE
    case LessTest => JLT
    case LessEqualTest => JLE
    case _ => NONE
  }

  /** `BinaryOperatorTypeToInverseOpCode`: the jump taken when a comparison
      fails; `NONE` for any other operator. */
  function BinaryOperatorTypeToInverseOpCode(op: BinaryOperator): (r: OpCode)
    ensures IsTest(op) <==> IsTestJump(r)
    ensures !IsTest(op) ==> r == NONE
    ensures IsTest(op) ==>
      forall a: int, b: int {:trigger TestHolds(op, a, b)} ::
        JumpTaken(r, FlagsOf(a, b).0, FlagsOf(a, b).1) == !TestHolds(op, a, b)
  {
    match op
    case EqualTest => JNE
    case NotEqualTest => JEQ
    case GreaterTest => JLE
    case GreaterEqualTest => JLT
    case LessTest => JGE
    case LessEqualTest => JGT
    case _ => NONE
  }

  /** The three tables agree: the inverse table is the plain table followed by
      `InverseOpCode`, for every operator. */
  lemma InverseTableIsInverseOfTable(op: BinaryOperator)
    ensures BinaryOperatorTypeToInverseOpCode(op) == InverseOpCode(BinaryOperatorTypeToOpCode(op))
  {
  }

  /** `OpCodeFromBinaryOperatorType`, which the generator calls for binary
      assignments (VirtualMachine.cpp line 399). Its definition lies outside the
      model's sources; this one follows the disabled AST table
      `BinaryOperatorTypeToOpCode` kept inside a comment block (lines 1036-1058):
      arithmetic and bitwise operators map to their instruction, every comparison
      and boolean connective to `CMP`. That table's `_NONE` default covers no
      operator of the IR's sixteen. */
  function OpCodeFromBinaryOperatorType(op: BinaryOperator): (r: OpCode)
    ensures r == CMP <==> (IsTest(op) || op in {BooleanAnd, BooleanOr})
    ensures r != CMP ==> r in {ADD, SUB, MUL, DIV, MOD, AND, OR, XOR}
    ensures !IsJump(r)
  {
    match op
    case Add => ADD
    case Sub => SUB
    case Mul => MUL
    case Div => DIV
    case Mod => MOD
    case BinAnd => AND
    case BinOr => OR
    case BinXor => XOR
    case _ => CMP
  }
}
