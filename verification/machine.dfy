/** The virtual machine: a register file, an operand stack, the running state
    (instruction index, zero and sign flags, terminated) and the flat
    instruction list, with `Execute` as a pure step function iterated under the
    source's own ceiling of ten million loop iterations.

    What the machine cannot see is a parameter: the `Value` operators for
    anything but integer addition, subtraction and multiplication, the float
    conversions, and what reading an absent operand yields (`ValueOps`); the
    host's external functions are a map from address to the value they return.
    Undefined behaviour in the source (an index outside the instruction list or
    the register file, `stack.top()` on an empty stack, a missing external
    function) is excluded by `CanStep`; `Execute` reports reaching such a state
    as `Undefined`. */
module VirtualMachine {
  import opened Common
  import opened Numbers
  import opened Bytecode

  /** The iteration ceiling of the execution loop. */
  const LOOP_LIMIT: nat := 10_000_000

  /** Addresses above this one name host functions. */
  const LAST_LOCAL_ADDRESS: int := 0xFFFF

  datatype RunningState = RunningState(instructionIdx: int, zf: bool, sf: bool, terminated: bool)

  /** The running state after `RunningState::Clear`: no current instruction,
      both flags and `terminated` cleared. */
  const CLEARED: RunningState := RunningState(-1, false, false, false)

  /** The machine. The top of the operand stack is the last element of
      `stack`; `origins` is `instructionOrigins`, parallel to `instructions`
      only when nothing went wrong (see the code generator). */
  datatype Machine = Machine(
    instructions: seq<Instruction>,
    origins: seq<Span>,
    registers: seq<Value>,
    stack: seq<Value>,
    running: RunningState,
    externals: map<int, Value>,
    diagnostics: seq<Diagnostic>,
    compiled: bool)

  /** The parts of `Value` and `ValueWrapper` whose definitions are not part of
      this model. `arith` is every arithmetic operator except integer `+`, `-`
      and `*`; `asFloat` yields the 32-bit word of the converted float. */
  datatype ValueOps = ValueOps(
    arith: (OpCode, Value, Value) -> Value,
    isZero: Value -> bool,
    isPositive: Value -> bool,
    asFloat: Value -> int,
    asInt: Value -> int,
    absent: Value)

  // ---------------------------------------------------------------------------
  // Values
  // ---------------------------------------------------------------------------

  const TWO_32: int := 0x1_0000_0000

  /** 32-bit two's complement wrap-around. The `Value` operators are defined
      in a header outside the model; the machine takes integer `+`, `-` and `*`
      (and so `CMP`'s difference) to wrap like this instead of being undefined
      on overflow. */
  function Wrap32(x: int): (r: int)
    ensures IsInt32(r)
    ensures (r - x) % TWO_32 == 0
    ensures IsInt32(x) ==> r == x
  {
    var q := (x + 0x8000_0000) / TWO_32;
    var r := (x + 0x8000_0000) % TWO_32 - 0x8000_0000;
    assert r - x == TWO_32 * (-q);
    MulMod(TWO_32, -q);
    assert IsInt32(x) ==> 0 <= x + 0x8000_0000 < TWO_32;
    r
  }

  /** `a op b` for the arithmetic opcodes: integer `+`, `-` and `*` give an
      integer congruent to the exact result modulo 2^32, and equal to it when
      it fits in 32 bits; every other combination is the unseen operator. */
  function Arith(op: OpCode, a: Value, b: Value, ops: ValueOps): (r: Value)
    ensures a.tag == IntTag && b.tag == IntTag && op in {ADD, SUB, MUL} ==>
      var exact := IntExact(op, a.payload, b.payload);
      && r.tag == IntTag
      && IsInt32(r.payload)
      && (r.payload - exact) % TWO_32 == 0
      && (IsInt32(exact) ==> r.payload == exact)
    ensures !(a.tag == IntTag && b.tag == IntTag && op in {ADD, SUB, MUL}) ==> r == ops.arith(op, a, b)
  {
    if a.tag == IntTag && b.tag == IntTag && op in {ADD, SUB, MUL} then
      IntValue(Wrap32(IntExact(op, a.payload, b.payload)))
    else
      ops.arith(op, a, b)
  }

  /** The exact integer result of `ADD`, `SUB` or `MUL`. */
  function IntExact(op: OpCode, a: int, b: int): int
    requires op in {ADD, SUB, MUL}
  {
    if op == ADD then a + b else if op == SUB then a - b else a * b
  }

  function IsZero(v: Value, ops: ValueOps): bool
  {
    if v.tag == IntTag then v.payload == 0 else ops.isZero(v)
  }

  function IsPositive(v: Value, ops: ValueOps): bool
  {
    if v.tag == IntTag then v.payload > 0 else ops.isPositive(v)
  }

  // ---------------------------------------------------------------------------
  // Operands and the stack
  // ---------------------------------------------------------------------------

  /** `Get` is defined: a register operand names a register. */
  predicate Readable(m: Machine, w: ValueWrapper)
  {
    !w.Register? || 0 <= w.index < |m.registers|
  }

  function Get(m: Machine, w: ValueWrapper, ops: ValueOps): Value
    requires Readable(m, w)
  {
    match w
    case Absent => ops.absent
    case Constant(v) => v
    case Register(r) => m.registers[r]
  }

  /** `GetW` is defined: the operand is a register. `GetW` itself lies
      outside the model, so a constant or absent destination is taken as
      undefined; the generator only writes to registers. */
  predicate Writable(m: Machine, w: ValueWrapper)
  {
    w.Register? && 0 <= w.index < |m.registers|
  }

  function Put(m: Machine, w: ValueWrapper, v: Value): Machine
    requires Writable(m, w)
  {
    m.(registers := m.registers[w.index := v])
  }

  /** A register whose tag is overwritten and whose word is kept. */
  function Retag(m: Machine, w: ValueWrapper, t: Tag): Machine
    requires Writable(m, w)
  {
    Put(m, w, m.registers[w.index].(tag := t))
  }

  function Push(m: Machine, v: Value): Machine
  {
    m.(stack := m.stack + [v])
  }

  function Top(m: Machine): Value
    requires |m.stack| > 0
  {
    m.stack[|m.stack| - 1]
  }

  function Pop(m: Machine): Machine
    requires |m.stack| > 0
  {
    m.(stack := m.stack[..|m.stack| - 1])
  }

  function JumpTo(m: Machine, target: int): Machine
  {
    m.(running := m.running.(instructionIdx := target))
  }

  /** Addresses above 0xFFFF name host functions; the rest are local. */
  predicate IsExternal(address: int)
  {
    address > LAST_LOCAL_ADDRESS
  }

  // ---------------------------------------------------------------------------
  // One instruction
  // ---------------------------------------------------------------------------

  function CurrentInstruction(m: Machine): Instruction
    requires 0 <= m.running.instructionIdx < |m.instructions|
  {
    m.instructions[m.running.instructionIdx]
  }

  /** The loop body is defined on `m`: the machine is running, the index names
      an instruction, and every operand the instruction reads or writes (and
      the stack top it reads, and the host function it calls) exists. */
  predicate CanStep(m: Machine, ops: ValueOps)
  {
    && !m.running.terminated
    && 0 <= m.running.instructionIdx < |m.instructions|
    && var inst := CurrentInstruction(m);
    match inst.op
    case MOV => Writable(m, inst.val0) && Readable(m, inst.val1)
    case ADD | SUB | MUL | DIV | MOD =>
      Writable(m, inst.val0) && Readable(m, inst.val1) && Readable(m, inst.val2)
    case ITF | FTI => Writable(m, inst.val0) && Readable(m, inst.val1)
    case CALL =>
      Readable(m, inst.val0) &&
      (IsExternal(ValInt(Get(m, inst.val0, ops))) ==> ValInt(Get(m, inst.val0, ops)) in m.externals)
    case PUSH => Readable(m, inst.val0)
    case POP => |m.stack| > 0 && (Valid(inst.val0) ==> Writable(m, inst.val0))
    case CMP => Readable(m, inst.val0) && Readable(m, inst.val1)
    case JMP | JZ | JNZ | JLT | JLE | JGT | JGE | JEQ | JNE =>
      JumpTaken(inst.op, m.running.zf, m.running.sf) ==> Readable(m, inst.val0)
    case RETURN => |m.stack| > 0 && Readable(m, inst.val0)
    case _ => true
  }

  /** What no instruction changes: the program, its origins, the number of
      registers, the host functions and the compiled flag; diagnostics are only
      ever appended, and only by the loop itself. */
  predicate Evolves(m: Machine, m': Machine)
  {
    && m'.instructions == m.instructions
    && m'.origins == m.origins
    && |m'.registers| == |m.registers|
    && m'.externals == m.externals
    && m'.compiled == m.compiled
    && |m.diagnostics| <= |m'.diagnostics|
    && m'.diagnostics[..|m.diagnostics|] == m.diagnostics
    && forall k :: |m.diagnostics| <= k < |m'.diagnostics| ==> IsRuntimeDiagnostic(m'.diagnostics[k])
  }

  /** The diagnostics the loop itself reports. */
  predicate IsRuntimeDiagnostic(d: Diagnostic)
  {
    d.message.UnhandledOpCode? || d.message.LoopTooLong?
  }

  lemma EvolvesTransitive(m1: Machine, m2: Machine, m3: Machine)
    requires Evolves(m1, m2) && Evolves(m2, m3)
    ensures Evolves(m1, m3)
  {
    assert m3.diagnostics[..|m1.diagnostics|] == m3.diagnostics[..|m2.diagnostics|][..|m1.diagnostics|];
    forall k | |m1.diagnostics| <= k < |m3.diagnostics|
      ensures IsRuntimeDiagnostic(m3.diagnostics[k])
    {
      if k < |m2.diagnostics| {
        assert m3.diagnostics[k] == m3.diagnostics[..|m2.diagnostics|][k];
      }
    }
  }

  /** A machine after one pass of the loop body, and whether the body asked the
      loop to stop (`bBreak`). */
  datatype StepResult = StepResult(machine: Machine, brk: bool)

  /** The data instructions: each writes one register and nothing else. ITF
      and FTI set the destination's tag before they read the source operand,
      as the source does, which matters when both are the same register. */
  function ExecData(m: Machine, ops: ValueOps): (r: Machine)
    requires CanStep(m, ops) && CurrentInstruction(m).op in {MOV, ADD, SUB, MUL, DIV, MOD, ITF, FTI}
    ensures r == m.(registers := r.registers) && |r.registers| == |m.registers|
    ensures var dst := CurrentInstruction(m).val0.index;
      forall k :: 0 <= k < |m.registers| && k != dst ==> r.registers[k] == m.registers[k]
    ensures var inst := CurrentInstruction(m);
      inst.op == MOV ==> r.registers[inst.val0.index] == Get(m, inst.val1, ops)
    ensures var inst := CurrentInstruction(m);
      inst.op in {ADD, SUB, MUL, DIV, MOD} ==>
        r.registers[inst.val0.index] == Arith(inst.op, Get(m, inst.val1, ops), Get(m, inst.val2, ops), ops)
    ensures var inst := CurrentInstruction(m);
      inst.op in {ITF, FTI} ==>
        var tag := if inst.op == ITF then FloatTag else IntTag;
        var retagged := m.(registers := m.registers[inst.val0.index := m.registers[inst.val0.index].(tag := tag)]);
        var source := Get(retagged, inst.val1, ops);
        r.registers[inst.val0.index] ==
          (if inst.op == ITF then Value(FloatTag, ops.asFloat(source)) else IntValue(ops.asInt(source)))
  {
    var inst := CurrentInstruction(m);
    match inst.op
    case MOV => Put(m, inst.val0, Get(m, inst.val1, ops))
    case ITF =>
      var m1 := Retag(m, inst.val0, FloatTag);
      Put(m1, inst.val0, Value(FloatTag, ops.asFloat(Get(m1, inst.val1, ops))))
    case FTI =>
      var m1 := Retag(m, inst.val0, IntTag);
      Put(m1, inst.val0, IntValue(ops.asInt(Get(m1, inst.val1, ops))))
    case ADD | SUB | MUL | DIV | MOD =>
      Put(m, inst.val0, Arith(inst.op, Get(m, inst.val1, ops), Get(m, inst.val2, ops), ops))
  }

  /** CALL, PUSH, POP and RETURN: the stack, the index and (for POP) one
      register change. */
  function ExecStack(m: Machine, ops: ValueOps): (r: Machine)
    requires CanStep(m, ops) && CurrentInstruction(m).op in {CALL, PUSH, POP, RETURN}
    ensures r == m.(registers := r.registers, stack := r.stack, running := r.running)
    ensures |r.registers| == |m.registers|
    ensures r.running == m.running.(instructionIdx := r.running.instructionIdx)
    ensures CurrentInstruction(m).op in {PUSH, POP} ==> r.running == m.running
  {
    var inst := CurrentInstruction(m);
    match inst.op
    case CALL =>
      var address := ValInt(Get(m, inst.val0, ops));
      if IsExternal(address) then Push(m, IntValue(ValInt(m.externals[address])))
      else JumpTo(m, address)
    case PUSH => Push(m, Get(m, inst.val0, ops))
    case POP =>
      var m1 := if Valid(inst.val0) then Put(m, inst.val0, Top(m)) else m;
      Pop(m1)
    case RETURN =>
      var returnValue := Get(m, inst.val0, ops);
      var m1 := Pop(JumpTo(m, ValInt(Top(m))));
      if Valid(inst.val0) then Push(m1, returnValue) else m1
  }

  /** CMP and the jumps: only the running state changes. */
  function ExecFlow(m: Machine, ops: ValueOps): (r: Machine)
    requires CanStep(m, ops) && (CurrentInstruction(m).op == CMP || IsJump(CurrentInstruction(m).op))
    ensures r == m.(running := r.running) && !r.running.terminated
    ensures IsJump(CurrentInstruction(m).op) ==> r.running == m.running.(instructionIdx := r.running.instructionIdx)
  {
    var inst := CurrentInstruction(m);
    if inst.op == CMP then
      var diff := Arith(SUB, Get(m, inst.val0, ops), Get(m, inst.val1, ops), ops);
      m.(running := m.running.(zf := IsZero(diff, ops), sf := IsPositive(diff, ops)))
    else if JumpTaken(inst.op, m.running.zf, m.running.sf) then
      JumpTo(m, ValInt(Get(m, inst.val0, ops)))
    else
      m
  }

  /** The `switch` of the loop body: the effect of the current instruction
      before the index is advanced. YIELD only asks the loop to stop; an
      opcode the switch does not handle (INV, AND, OR, XOR, `_NONE`) only adds
      a diagnostic. */
  function Exec(m: Machine, ops: ValueOps): (r: StepResult)
    requires CanStep(m, ops)
    ensures Evolves(m, r.machine)
    ensures r.brk <==> CurrentInstruction(m).op == YIELD
    ensures r.machine.running.terminated <==> CurrentInstruction(m).op == HALT
    ensures IsSequential(CurrentInstruction(m).op) ==>
      r.machine.running.instructionIdx == m.running.instructionIdx
    ensures CurrentInstruction(m).op in {INV, AND, OR, XOR, NONE} ==>
      r.machine.diagnostics == m.diagnostics + [Diagnostic(Located(0, 0), UnhandledOpCode(CurrentInstruction(m).op))]
    ensures CurrentInstruction(m).op !in {INV, AND, OR, XOR, NONE} ==>
      r.machine.diagnostics == m.diagnostics
  {
    var op := CurrentInstruction(m).op;
    if op in {MOV, ADD, SUB, MUL, DIV, MOD, ITF, FTI} then
      StepResult(ExecData(m, ops), false)
    else if op in {CALL, PUSH, POP, RETURN} then
      StepResult(ExecStack(m, ops), false)
    else if op == CMP || IsJump(op) then
      StepResult(ExecFlow(m, ops), false)
    else if op == YIELD then
      StepResult(m, true)
    else if op == HALT then
      StepResult(m.(running := m.running.(terminated := true)), false)
    else
      var d := Diagnostic(Located(0, 0), UnhandledOpCode(op));
      StepResult(m.(diagnostics := m.diagnostics + [d]), false)
  }

  /** The instructions that never move the index themselves. */
  predicate IsSequential(op: OpCode)
  {
    !IsJump(op) && op !in {CALL, RETURN, HALT}
  }

  /** One pass of the loop body: the instruction's effect, then the index
      moves on by one unless the machine terminated or the instruction moved
      the index to somewhere else. A jump to itself therefore falls through. */
  function Step(m: Machine, ops: ValueOps): (r: StepResult)
    requires CanStep(m, ops)
    ensures Evolves(m, r.machine)
    ensures r.brk <==> CurrentInstruction(m).op == YIELD
    ensures r.machine.running.terminated <==> CurrentInstruction(m).op == HALT
    ensures CurrentInstruction(m).op == HALT ==>
      r.machine.running.instructionIdx == m.running.instructionIdx
    ensures IsSequential(CurrentInstruction(m).op) ==>
      r.machine.running.instructionIdx == m.running.instructionIdx + 1
    ensures r.machine.diagnostics == Exec(m, ops).machine.diagnostics
  {
    var s := Exec(m, ops);
    var idx := m.running.instructionIdx;
    if !s.machine.running.terminated && s.machine.running.instructionIdx == idx then
      StepResult(JumpTo(s.machine, idx + 1), s.brk)
    else
      s
  }

  // ---------------------------------------------------------------------------
  // The loop and Execute
  // ---------------------------------------------------------------------------

  /** How a run ends: with the machine and the number of loop iterations, or
      in a state whose next step is undefined behaviour. */
  datatype Outcome = Finished(machine: Machine, iterations: nat) | Undefined

  /** The ceiling's effect: terminate and report the runaway loop. */
  function ForceTerminate(m: Machine): (r: Machine)
    ensures RanAway(r) && Evolves(m, r)
    ensures r.running == m.running.(terminated := true)
  {
    m.(running := m.running.(terminated := true),
       diagnostics := m.diagnostics + [Diagnostic(Located(0, 0), LoopTooLong)])
  }

  /** No machine the loop reaches within `n` iterations has an undefined
      next step: each one is terminated, or can step and then either leaves
      the loop (YIELD, or the single step) or is followed by `n - 1` more such
      iterations. */
  predicate StepsSafely(m: Machine, n: nat, singleStep: bool, ops: ValueOps)
    decreases n
  {
    || n == 0
    || m.running.terminated
    || (&& CanStep(m, ops)
        && var s := Step(m, ops);
        s.brk || singleStep || StepsSafely(s.machine, n - 1, singleStep, ops))
  }

  /** The `while (!terminated && !bBreak)` loop from the `loopCount`-th
      iteration on. */
  function Loop(m: Machine, loopCount: nat, singleStep: bool, ops: ValueOps): (r: Outcome)
    requires loopCount <= LOOP_LIMIT
    ensures m.running.terminated ==> r == Finished(m, 0)
    ensures r.Finished? ==> r.iterations <= LOOP_LIMIT + 1 - loopCount
    ensures r.Finished? && singleStep ==> r.iterations <= 1
    ensures r.Finished? && !r.machine.running.terminated ==> r.iterations >= 1
    ensures r.Finished? && loopCount + r.iterations == LOOP_LIMIT + 1 ==> RanAway(r.machine)
    ensures r.Finished? ==> Evolves(m, r.machine)
    ensures r.Finished? <==> StepsSafely(m, LOOP_LIMIT + 1 - loopCount, singleStep, ops)
    decreases LOOP_LIMIT - loopCount, 1
  {
    if m.running.terminated then Finished(m, 0)
    else if !CanStep(m, ops) then Undefined
    else AfterStep(m, Step(m, ops), loopCount, singleStep, ops)
  }

  /** The end of one iteration: the ceiling test, the single-step and YIELD
      exits, and otherwise the next iteration. */
  function AfterStep(m: Machine, s: StepResult, loopCount: nat, singleStep: bool, ops: ValueOps): (r: Outcome)
    requires loopCount <= LOOP_LIMIT && Evolves(m, s.machine)
    ensures r.Finished? ==> 1 <= r.iterations <= LOOP_LIMIT + 1 - loopCount
    ensures r.Finished? && singleStep ==> r.iterations == 1
    ensures r.Finished? && loopCount + r.iterations == LOOP_LIMIT + 1 ==> RanAway(r.machine)
    ensures r.Finished? ==> Evolves(m, r.machine)
    ensures r.Finished? <==>
      loopCount == LOOP_LIMIT || s.brk || singleStep || StepsSafely(s.machine, LOOP_LIMIT - loopCount, singleStep, ops)
    decreases LOOP_LIMIT - loopCount, 0
  {
    var count := loopCount + 1;
    if count > LOOP_LIMIT then
      var t := ForceTerminate(s.machine);
      EvolvesTransitive(m, s.machine, t);
      Finished(t, 1)
    else if s.brk || singleStep then
      Finished(s.machine, 1)
    else
      var rest := Loop(s.machine, count, singleStep, ops);
      assert rest.Finished? <==> StepsSafely(s.machine, LOOP_LIMIT - loopCount, singleStep, ops);
      match rest
      case Undefined => Undefined
      case Finished(m', n) =>
        EvolvesTransitive(m, s.machine, m');
        Finished(m', n + 1)
  }

  /** The machine was stopped by the iteration ceiling: it is terminated and
      the runaway-loop diagnostic is the last one. */
  predicate RanAway(m: Machine)
  {
    m.running.terminated && |m.diagnostics| > 0 &&
    m.diagnostics[|m.diagnostics| - 1] == Diagnostic(Located(0, 0), LoopTooLong)
  }

  /** The loop from its first iteration, then `if (terminated)
      instructionIdx = -1`. */
  function RunLoop(m: Machine, singleStep: bool, ops: ValueOps): (r: Outcome)
    ensures m.running.terminated ==> r == Finished(JumpTo(m, -1), 0)
    ensures r.Finished? ==> Evolves(m, r.machine)
    ensures r.Finished? && r.machine.running.terminated ==> r.machine.running.instructionIdx == -1
    ensures r.Finished? ==> r.iterations <= LOOP_LIMIT + 1
    ensures r.Finished? && singleStep ==> r.iterations <= 1
    ensures r.Finished? && !m.running.terminated ==> r.iterations >= 1
    ensures r.Finished? && r.iterations == LOOP_LIMIT + 1 ==> RanAway(r.machine)
    ensures r.Finished? <==> StepsSafely(m, LOOP_LIMIT + 1, singleStep, ops)
  {
    match Loop(m, 0, singleStep, ops)
    case Undefined => Undefined
    case Finished(m', n) =>
      EvolvesTransitive(m, m', ResetIndex(m'));
      Finished(ResetIndex(m'), n)
  }

  /** `if (terminated) instructionIdx = -1`. */
  function ResetIndex(m: Machine): (r: Machine)
    ensures Evolves(m, r) && r.diagnostics == m.diagnostics
    ensures r.running.terminated == m.running.terminated
    ensures m.running.terminated ==> r == JumpTo(m, -1)
    ensures !m.running.terminated ==> r == m
  {
    if m.running.terminated then JumpTo(m, -1) else m
  }

  /** `Execute(bSingleStep)`. A program that is not compiled or has no
      instructions is left as it is. A full run clears the running state and
      the diagnostics and starts at instruction 0; a single step from index -1
      only moves the index to 0. Apart from that early return, a run that
      leaves the machine terminated resets the index to -1. */
  function Execute(m: Machine, singleStep: bool, ops: ValueOps): (r: Outcome)
    ensures !m.compiled || |m.instructions| == 0 ==> r == Finished(m, 0)
    ensures singleStep && m.compiled && |m.instructions| > 0 && m.running.instructionIdx == -1 ==>
      r == Finished(JumpTo(m, 0), 0)
    ensures m.compiled && |m.instructions| > 0 && !(singleStep && m.running.instructionIdx == -1) ==>
      r.Finished? && r.machine.running.terminated ==> r.machine.running.instructionIdx == -1
    ensures r.Finished? ==> r.iterations <= LOOP_LIMIT + 1
    ensures r.Finished? && singleStep ==> r.iterations <= 1
    ensures r.Finished? && r.iterations == LOOP_LIMIT + 1 ==> RanAway(r.machine)
    ensures r.Finished? && !singleStep && m.compiled && |m.instructions| > 0 ==>
      && r.iterations >= 1
      && forall k :: 0 <= k < |r.machine.diagnostics| ==> IsRuntimeDiagnostic(r.machine.diagnostics[k])
    ensures r.Finished? ==> r.machine.instructions == m.instructions && r.machine.compiled == m.compiled
    ensures m.compiled && |m.instructions| > 0 && !singleStep ==>
      (r.Finished? <==> StepsSafely(FreshStart(m), LOOP_LIMIT + 1, false, ops))
    ensures m.compiled && |m.instructions| > 0 && singleStep && m.running.instructionIdx != -1 ==>
      (r.Finished? <==> m.running.terminated || CanStep(m, ops))
  {
    if !m.compiled || |m.instructions| == 0 then
      Finished(m, 0)
    else if singleStep then
      if m.running.instructionIdx == -1 then Finished(JumpTo(m, 0), 0)
      else RunLoop(m, true, ops)
    else
      RunLoop(FreshStart(m), false, ops)
  }

  /** Where a full run starts: cleared running state at instruction 0, no
      diagnostics. */
  function FreshStart(m: Machine): Machine
  {
    m.(running := CLEARED.(instructionIdx := 0), diagnostics := [])
  }

  /** A full run does not depend on the running state or the diagnostics it
      starts from: it always starts over at instruction 0. */
  lemma FullRunStartsOver(m: Machine, running: RunningState, diagnostics: seq<Diagnostic>, ops: ValueOps)
    requires m.compiled && |m.instructions| > 0
    ensures Execute(m, false, ops) == Execute(m.(running := running, diagnostics := diagnostics), false, ops)
  {
  }

  // ---------------------------------------------------------------------------
  // Properties of single instructions
  // ---------------------------------------------------------------------------

  /** The index after an instruction that moved it to `target`. */
  function Landed(m: Machine, target: int): int
  {
    if target == m.running.instructionIdx then m.running.instructionIdx + 1 else target
  }

  /** `CMP a, b` sets the zero flag to whether `a - b` is zero and the sign
      flag to whether it is positive; nothing else changes but the index,
      which moves on by one. */
  lemma StepCmp(m: Machine, ops: ValueOps)
    requires CanStep(m, ops) && CurrentInstruction(m).op == CMP
    ensures var inst := CurrentInstruction(m);
      var diff := Arith(SUB, Get(m, inst.val0, ops), Get(m, inst.val1, ops), ops);
      Step(m, ops) == StepResult(
        m.(running := RunningState(m.running.instructionIdx + 1, IsZero(diff, ops), IsPositive(diff, ops), false)),
        false)
  {
  }

  /** `MOV d, v` copies `v` into register `d`; nothing else changes but the
      index, which moves on by one. */
  lemma StepMov(m: Machine, ops: ValueOps)
    requires CanStep(m, ops) && CurrentInstruction(m).op == MOV
    ensures var inst := CurrentInstruction(m);
      Step(m, ops) == StepResult(
        m.(registers := m.registers[inst.val0.index := Get(m, inst.val1, ops)],
           running := m.running.(instructionIdx := m.running.instructionIdx + 1)),
        false)
  {
  }

  /** `ADD`, `SUB`, `MUL`, `DIV` and `MOD` write `Arith` of their two sources
      to the destination and move on by one; nothing else changes. */
  lemma StepArith(m: Machine, ops: ValueOps)
    requires CanStep(m, ops) && CurrentInstruction(m).op in {ADD, SUB, MUL, DIV, MOD}
    ensures var inst := CurrentInstruction(m);
      Step(m, ops) == StepResult(
        m.(registers := m.registers[inst.val0.index := Arith(inst.op, Get(m, inst.val1, ops), Get(m, inst.val2, ops), ops)],
           running := m.running.(instructionIdx := m.running.instructionIdx + 1)),
        false)
  {
  }

  /** Integer `ADD`, `SUB` and `MUL` write an integer to the destination that
      is the exact result reduced to 32 bits (the exact result itself when it
      fits); the other registers, the stack and the flags are untouched, and
      the index moves on by one. */
  lemma StepIntArith(m: Machine, ops: ValueOps)
    requires CanStep(m, ops) && CurrentInstruction(m).op in {ADD, SUB, MUL}
    requires var inst := CurrentInstruction(m);
      Get(m, inst.val1, ops).tag == IntTag && Get(m, inst.val2, ops).tag == IntTag
    ensures var inst := CurrentInstruction(m);
      var a := Get(m, inst.val1, ops).payload;
      var b := Get(m, inst.val2, ops).payload;
      var exact := IntExact(inst.op, a, b);
      var r := Step(m, ops).machine;
      var d := inst.val0.index;
      && |r.registers| == |m.registers|
      && r.registers[d].tag == IntTag
      && IsInt32(r.registers[d].payload)
      && (r.registers[d].payload - exact) % TWO_32 == 0
      && (IsInt32(exact) ==> r.registers[d].payload == exact)
      && (forall k :: 0 <= k < |m.registers| && k != d ==> r.registers[k] == m.registers[k])
      && r.stack == m.stack
      && r.running == m.running.(instructionIdx := m.running.instructionIdx + 1)
  {
    StepArith(m, ops);
  }

  /** `ITF d, v` and `FTI d, v` set the destination's tag to float or
      integer and its word to the converted source; the source is read after
      the tag is set, so converting a register in place reads it with the new
      tag. Nothing else changes but the index, which moves on by one. */
  lemma StepConvert(m: Machine, ops: ValueOps)
    requires CanStep(m, ops) && CurrentInstruction(m).op in {ITF, FTI}
    ensures var inst := CurrentInstruction(m);
      var d := inst.val0.index;
      var toFloat := inst.op == ITF;
      var retagged := m.registers[d := m.registers[d].(tag := if toFloat then FloatTag else IntTag)];
      var source := if inst.val1.Register? && inst.val1.index == d then retagged[d] else Get(m, inst.val1, ops);
      var r := Step(m, ops).machine;
      && r.registers == m.registers[d := if toFloat then Value(FloatTag, ops.asFloat(source)) else IntValue(ops.asInt(source))]
      && r.stack == m.stack
      && r.running == m.running.(instructionIdx := m.running.instructionIdx + 1)
  {
  }

  /** After `CMP a, b` on two integers whose difference does not overflow,
      the jump `BinaryOperatorTypeToOpCode(test)` is taken exactly when the
      test holds for `a` and `b`, and its inverse exactly when it fails. */
  lemma CmpThenJumpDecides(m: Machine, ops: ValueOps, test: BinaryOperator)
    requires CanStep(m, ops) && CurrentInstruction(m).op == CMP && IsTest(test)
    requires var inst := CurrentInstruction(m);
      Get(m, inst.val0, ops).tag == IntTag && Get(m, inst.val1, ops).tag == IntTag &&
      IsInt32(Get(m, inst.val0, ops).payload - Get(m, inst.val1, ops).payload)
    ensures var inst := CurrentInstruction(m);
      var a := Get(m, inst.val0, ops).payload;
      var b := Get(m, inst.val1, ops).payload;
      var after := Step(m, ops).machine.running;
      && JumpTaken(BinaryOperatorTypeToOpCode(test), after.zf, after.sf) == TestHolds(test, a, b)
      && JumpTaken(BinaryOperatorTypeToInverseOpCode(test), after.zf, after.sf) == !TestHolds(test, a, b)
  {
    var inst := CurrentInstruction(m);
    var a := Get(m, inst.val0, ops).payload;
    var b := Get(m, inst.val1, ops).payload;
    StepCmp(m, ops);
    assert Arith(SUB, Get(m, inst.val0, ops), Get(m, inst.val1, ops), ops) == IntValue(a - b);
  }

  /** A jump lands on its operand when taken (or on the next instruction when
      the operand is its own index) and otherwise moves on by one; registers,
      stack and flags are untouched. */
  lemma StepJump(m: Machine, ops: ValueOps)
    requires CanStep(m, ops) && IsJump(CurrentInstruction(m).op)
    ensures var inst := CurrentInstruction(m);
      var r := Step(m, ops).machine;
      && r.registers == m.registers && r.stack == m.stack
      && r.running.zf == m.running.zf && r.running.sf == m.running.sf && !r.running.terminated
      && r.running.instructionIdx ==
           if JumpTaken(inst.op, m.running.zf, m.running.sf) then Landed(m, ValInt(Get(m, inst.val0, ops)))
           else m.running.instructionIdx + 1
  {
  }

  /** `PUSH v` grows the stack by `v`. */
  lemma StepPush(m: Machine, ops: ValueOps)
    requires CanStep(m, ops) && CurrentInstruction(m).op == PUSH
    ensures var r := Step(m, ops).machine;
      && r.stack == m.stack + [Get(m, CurrentInstruction(m).val0, ops)]
      && r.registers == m.registers
      && r.running == m.running.(instructionIdx := m.running.instructionIdx + 1)
  {
  }

  /** `POP` shrinks the stack by one and writes the old top to its operand
      only when an operand is present. */
  lemma StepPop(m: Machine, ops: ValueOps)
    requires CanStep(m, ops) && CurrentInstruction(m).op == POP
    ensures var inst := CurrentInstruction(m);
      var r := Step(m, ops).machine;
      && r.stack == m.stack[..|m.stack| - 1]
      && r.registers == (if Valid(inst.val0) then m.registers[inst.val0.index := Top(m)] else m.registers)
      && r.running == m.running.(instructionIdx := m.running.instructionIdx + 1)
  {
  }

  /** `RETURN` pops the return address into the index; a value-returning
      RETURN then pushes its value, so the depth is unchanged and the value is
      on top, while a void RETURN leaves the stack one shorter. */
  lemma StepReturn(m: Machine, ops: ValueOps)
    requires CanStep(m, ops) && CurrentInstruction(m).op == RETURN
    ensures var inst := CurrentInstruction(m);
      var r := Step(m, ops).machine;
      && r.running.instructionIdx == Landed(m, ValInt(Top(m)))
      && r.registers == m.registers
      && (Valid(inst.val0) ==>
            |r.stack| == |m.stack| && r.stack == m.stack[..|m.stack| - 1] + [Get(m, inst.val0, ops)])
      && (!Valid(inst.val0) ==> r.stack == m.stack[..|m.stack| - 1])
  {
  }

  /** A CALL to a host address pushes exactly one integer, the word the host
      function returned, and moves on by one. */
  lemma StepCallExternal(m: Machine, ops: ValueOps)
    requires CanStep(m, ops) && CurrentInstruction(m).op == CALL
    requires IsExternal(ValInt(Get(m, CurrentInstruction(m).val0, ops)))
    ensures var address := ValInt(Get(m, CurrentInstruction(m).val0, ops));
      var r := Step(m, ops).machine;
      && r.stack == m.stack + [IntValue(ValInt(m.externals[address]))]
      && r.registers == m.registers
      && r.running == m.running.(instructionIdx := m.running.instructionIdx + 1)
  {
  }

  /** A CALL to a local address only jumps: no return address is pushed, so
      a later RETURN pops whatever the stack holds. */
  lemma StepCallLocal(m: Machine, ops: ValueOps)
    requires CanStep(m, ops) && CurrentInstruction(m).op == CALL
    requires !IsExternal(ValInt(Get(m, CurrentInstruction(m).val0, ops)))
    ensures var r := Step(m, ops).machine;
      && r.stack == m.stack
      && r.registers == m.registers
      && r.running.instructionIdx == Landed(m, ValInt(Get(m, CurrentInstruction(m).val0, ops)))
  {
  }

  /** YIELD stops the loop, but the index has already moved past it. */
  lemma LoopStopsAfterYield(m: Machine, loopCount: nat, singleStep: bool, ops: ValueOps)
    requires loopCount < LOOP_LIMIT
    requires CanStep(m, ops) && CurrentInstruction(m).op == YIELD
    ensures Loop(m, loopCount, singleStep, ops) ==
      Finished(m.(running := m.running.(instructionIdx := m.running.instructionIdx + 1)), 1)
  {
  }

  /** HALT terminates the machine after one iteration, and the run then
      leaves the index at -1, so the machine no longer reports itself as
      executing. */
  lemma HaltEndsRun(m: Machine, singleStep: bool, ops: ValueOps)
    requires CanStep(m, ops) && CurrentInstruction(m).op == HALT
    ensures RunLoop(m, singleStep, ops) ==
      Finished(m.(running := m.running.(terminated := true, instructionIdx := -1)), 1)
    ensures !IsExecuting(RunLoop(m, singleStep, ops).machine)
  {
  }

  // ---------------------------------------------------------------------------
  // The iteration ceiling
  // ---------------------------------------------------------------------------

  /** The source's undefined behaviour ends a run as `Undefined`: an index
      outside the program, `stack.top()` on an empty stack for POP or RETURN,
      and a CALL of an external address with no host function behind it. */
  lemma UndefinedSteps(m: Machine, singleStep: bool, ops: ValueOps)
    requires !m.running.terminated
    ensures !(0 <= m.running.instructionIdx < |m.instructions|) ==> RunLoop(m, singleStep, ops) == Undefined
    ensures 0 <= m.running.instructionIdx < |m.instructions| && CurrentInstruction(m).op in {POP, RETURN} && |m.stack| == 0 ==>
      RunLoop(m, singleStep, ops) == Undefined
    ensures (&& 0 <= m.running.instructionIdx < |m.instructions|
             && CurrentInstruction(m).op == CALL
             && Readable(m, CurrentInstruction(m).val0)
             && var address := ValInt(Get(m, CurrentInstruction(m).val0, ops));
             IsExternal(address) && address !in m.externals) ==>
      RunLoop(m, singleStep, ops) == Undefined
    ensures !CanStep(m, ops) ==> RunLoop(m, singleStep, ops) == Undefined
  {
    if 0 <= m.running.instructionIdx < |m.instructions| {
      if CurrentInstruction(m).op in {POP, RETURN} && |m.stack| == 0 {
        EmptyStackIsStuck(m, ops);
      }
      if CurrentInstruction(m).op == CALL && Readable(m, CurrentInstruction(m).val0) {
        MissingHostIsStuck(m, ops);
      }
    }
    if !CanStep(m, ops) {
      StuckRunIsUndefined(m, singleStep, ops);
    }
  }

  lemma MissingHostIsStuck(m: Machine, ops: ValueOps)
    requires 0 <= m.running.instructionIdx < |m.instructions|
    requires CurrentInstruction(m).op == CALL && Readable(m, CurrentInstruction(m).val0)
    ensures var address := ValInt(Get(m, CurrentInstruction(m).val0, ops));
      IsExternal(address) && address !in m.externals ==> !CanStep(m, ops)
  {
  }

  lemma EmptyStackIsStuck(m: Machine, ops: ValueOps)
    requires 0 <= m.running.instructionIdx < |m.instructions|
    requires CurrentInstruction(m).op in {POP, RETURN} && |m.stack| == 0
    ensures !CanStep(m, ops)
  {
    assert CurrentInstruction(m).op == POP || CurrentInstruction(m).op == RETURN;
  }

  /** A machine that is not terminated and cannot step makes the run undefined. */
  lemma StuckRunIsUndefined(m: Machine, singleStep: bool, ops: ValueOps)
    requires !m.running.terminated && !CanStep(m, ops)
    ensures RunLoop(m, singleStep, ops) == Undefined
  {
    assert Loop(m, 0, singleStep, ops) == Undefined;
  }

  /** Two jumps that send the index back and forth forever. */
  function PingPong(): seq<Instruction>
  {
    [Inst1(JMP, IntConstant(1)), Inst1(JMP, IntConstant(0))]
  }

  /** Bouncing between the two jumps from any iteration, the loop runs until
      the ceiling, then forces termination and reports the runaway loop. */
  lemma {:induction false} PingPongLoop(m: Machine, loopCount: nat, ops: ValueOps)
    requires loopCount <= LOOP_LIMIT
    requires m.instructions == PingPong() && !m.running.terminated
    requires m.running.instructionIdx in {0, 1}
    ensures var r := Loop(m, loopCount, false, ops);
      && r.Finished?
      && r.iterations == LOOP_LIMIT + 1 - loopCount
      && r.machine.running.terminated
      && r.machine.diagnostics == m.diagnostics + [Diagnostic(Located(0, 0), LoopTooLong)]
    decreases LOOP_LIMIT - loopCount
  {
    assert CanStep(m, ops);
    var s := Step(m, ops);
    assert s.machine.running.instructionIdx == 1 - m.running.instructionIdx;
    if loopCount + 1 <= LOOP_LIMIT {
      PingPongLoop(s.machine, loopCount + 1, ops);
    }
  }

  /** The ceiling is reached: a full run of the two bouncing jumps takes
      exactly 10,000,001 iterations and ends terminated, with the runaway-loop
      diagnostic as its only diagnostic. */
  lemma PingPongHitsCeiling(m: Machine, ops: ValueOps)
    requires m.instructions == PingPong() && m.compiled
    ensures var r := Execute(m, false, ops);
      && r.Finished?
      && r.iterations == LOOP_LIMIT + 1
      && r.machine.running.instructionIdx == -1
      && r.machine.diagnostics == [Diagnostic(Located(0, 0), LoopTooLong)]
  {
    PingPongLoop(FreshStart(m), 0, ops);
  }

  /** A jump to its own index does not loop: it falls through to the next
      instruction. */
  lemma SelfJumpFallsThrough(m: Machine, ops: ValueOps)
    requires m.instructions == [Inst1(JMP, IntConstant(0)), Inst0(HALT)]
    requires m.running == RunningState(0, false, false, false)
    ensures Step(m, ops).machine.running.instructionIdx == 1
  {
  }

  // ---------------------------------------------------------------------------
  // Runtime state and queries
  // ---------------------------------------------------------------------------

  /** `ClearRuntimeState`: the running state is cleared, every register is
      zeroed (word 0, tag `_NONE`), the stack is emptied and the host function
      table forgotten. The program and its diagnostics stay. */
  function ClearRuntimeState(m: Machine): (r: Machine)
    ensures r.running == CLEARED && r.stack == [] && r.externals == map[]
    ensures |r.registers| == |m.registers|
    ensures forall k :: 0 <= k < |r.registers| ==> r.registers[k] == Value(NoTag, 0)
    ensures r.instructions == m.instructions && r.origins == m.origins
    ensures r.diagnostics == m.diagnostics && r.compiled == m.compiled
  {
    m.(running := CLEARED,
       registers := seq(|m.registers|, _ => Value(NoTag, 0)),
       stack := [],
       externals := map[])
  }

  /** `GenerateFromInstStream`: a raw instruction list becomes the compiled
      program. `instructionOrigins` is resized to match, keeping the origins of
      any earlier program in front and padding with generated spans. */
  function GenerateFromInstStream(m: Machine, input: seq<Instruction>): (r: Machine)
    ensures r.instructions == input && r.compiled
    ensures |r.origins| == |input|
    ensures forall k :: 0 <= k < |input| ==>
      r.origins[k] == (if k < |m.origins| then m.origins[k] else Generated)
    ensures r.running == CLEARED && r.stack == [] && r.externals == map[]
    ensures !IsExecuting(r)
  {
    var cleared := ClearRuntimeState(m);
    var origins :=
      if |input| <= |m.origins| then m.origins[..|input|]
      else m.origins + seq(|input| - |m.origins|, _ => Generated);
    cleared.(instructions := input, origins := origins, compiled := true)
  }

  predicate IsExecuting(m: Machine)
  {
    m.running.instructionIdx != -1
  }

  /** `CurrentLineNumber`: the line of the current instruction's origin, or -1
      when nothing is executing or the index has no origin. The line of a span
      is computed by the front end (`lineOf`), which is not part of this model.
      An index below -1 would be read out of bounds, so it is excluded. */
  function CurrentLineNumber(m: Machine, lineOf: Span -> int): (r: int)
    requires m.running.instructionIdx >= -1
    ensures IsExecuting(m) && m.running.instructionIdx < |m.origins| ==>
      r == lineOf(m.origins[m.running.instructionIdx])
    ensures !IsExecuting(m) || m.running.instructionIdx >= |m.origins| ==> r == -1
  {
    if m.running.instructionIdx != -1 && m.running.instructionIdx < |m.origins| then
      lineOf(m.origins[m.running.instructionIdx])
    else
      -1
  }

  /** A machine is executing from the moment a single step moves its index to
      0 until a run terminates it; clearing the runtime state and loading a new
      program stop it. */
  lemma ExecutingLifecycle(m: Machine, input: seq<Instruction>, singleStep: bool, ops: ValueOps)
    ensures !IsExecuting(ClearRuntimeState(m))
    ensures !IsExecuting(GenerateFromInstStream(m, input))
    ensures m.compiled && |m.instructions| > 0 && !IsExecuting(m) ==>
      IsExecuting(Execute(m, true, ops).machine)
    ensures m.compiled && |m.instructions| > 0 && !(singleStep && !IsExecuting(m)) ==>
      var r := Execute(m, singleStep, ops);
      r.Finished? && r.machine.running.terminated ==> !IsExecuting(r.machine)
  {
  }
}
