/** The intermediate representation the code generator consumes. The IR
    builder that produces it is not part of this model: its values, blocks and
    type table are taken as input. */
module IR {
  import opened Common
  import opened Bytecode

  /** The IR's type tags as the generator inspects them (`IR::Value::Type` for
      the cases it distinguishes): `NoType` is `_NONE`, `OtherType` any tag
      that is neither a number type nor `_NONE`. */
  datatype IRType = IntType | FloatType | NoType | OtherType

  datatype UnaryOperator = Negate | Not | BinInvert

  /** An IR value. Literals carry their 32-bit word as `valInt` reads it. */
  datatype IRValue =
    | IntLiteral(i: int, origin: Span)
    | FloatLiteral(word: int, origin: Span)
    | Identifier(variable: string, origin: Span)
    | Unary(unaryOp: UnaryOperator, operand: IRValue, origin: Span)
    | Binary(binaryOp: BinaryOperator, left: IRValue, right: IRValue, origin: Span)
    | Ternary(condition: IRValue, ifTrue: IRValue, ifFalse: IRValue, origin: Span)
    | FuncCall(name: string, origin: Span)
    | Cast(castedType: IRType, target: IRValue, origin: Span)

  predicate IsLiteral(v: IRValue)
  {
    v.IntLiteral? || v.FloatLiteral?
  }

  /** `VM::Value(*literal)`: the runtime scalar a literal stands for. */
  function LiteralValue(v: IRValue): Value
    requires IsLiteral(v)
  {
    match v
    case IntLiteral(i, _) => IntValue(i)
    case FloatLiteral(w, _) => Value(FloatTag, w)
  }

  /** `variable = value`. */
  datatype Assignment = Assignment(variable: string, value: IRValue, origin: Span)

  /** How a block ends. Block references are the target block's `index`. */
  datatype Terminator =
    | Return(returnValue: Option<IRValue>, origin: Span)
    | Branch(target: nat, origin: Span)
    | ConditionalBranch(condition: IRValue, thenBlock: nat, otherwiseBlock: Option<nat>, origin: Span)
    | Halt

  datatype Block = Block(assignments: seq<Assignment>, terminator: Option<Terminator>)

  /** The IR as the generator reads it: its blocks and the declared type of
      every variable (`irState->variableTypes`). */
  datatype Program = Program(blocks: seq<Block>, variableTypes: map<string, IRType>)
}
