# FlexEngine script virtual machine and string helpers, in Dafny

This project models two parts of FlexEngine.

The first part is the back end of the engine's scripting language (`VirtualMachine.cpp`):
- the code generator `GenerateFromIR`, which lowers IR blocks into per-block instruction lists;
- register allocation, first come first served;
- unary, binary, ternary and cast lowering, and the branch form of `HandleComparison`;
- the flattening of the blocks into one instruction list, and the patch pass that turns block indices into instruction offsets;
- the opcode tables `BinaryOperatorTypeToOpCode`, `BinaryOperatorTypeToInverseOpCode` and `InverseOpCode`;
- the virtual machine itself: `Execute` with its single-step mode and its ceiling of ten million iterations, `GenerateFromInstStream`, `ClearRuntimeState`, `IsExternal`, `IsExecuting` and `CurrentLineNumber`.

The second part is the string, path and integer helpers of `Helpers.cpp`. These are `Split`, `SplitNoStrip`, the three trims, `IntToString`, the padding functions, `StartsWith`/`EndsWith`, the trailing-number functions, `NextPowerOfTwo`, `Parse16u`/`Parse32u`, `RoundUp`, the path-string functions, `Replace(str, char, char)` and `NextNonAlphaNumeric`.

Everything is an immutable datatype or a pure function, except `Replace`, which is a method with a loop. Modules follow the program's structure:

| file | module | contents |
|---|---|---|
| common.dfy | `Common` | `Option`, source spans, `Max`, `Repeat` |
| strings.dfy | `Strings` | trims, `Split`, `SplitNoStrip`, prefix and suffix tests, padding, `Replace`, `NextNonAlphaNumeric` |
| numbers.dfy | `Numbers` | `RoundUp`, decimal formatting and parsing, trailing numbers, `NextPowerOfTwo`, little-endian parsing |
| paths.dfy | `Paths` | directory, file-name and file-type extraction |
| bytecode.dfy | `Bytecode` | opcodes, values, operands, instructions, diagnostics, jump semantics, the opcode tables |
| ir.dfy | `IR` | the IR that the generator consumes, taken as input |
| machine.dfy | `VirtualMachine` | machine state, one step, the execution loop, `Execute` and the runtime queries |
| codegen.dfy | `CodeGen` | register allocation, lowering, flattening, patching, `GenerateFromIR` |

How C++ behaviour is carried over:
- Machine integers are unbounded `int`s with explicit 32-bit bounds. The `Value` operators are defined outside the model; integer `+`, `-` and `*` (and the difference `CMP` takes) are assumed to wrap at 32 bits (`Wrap32`). C++ `%`, which truncates toward zero, is `TruncRem`. `NextPowerOfTwo` works on `bv32`. `Parse16u` and `Parse32u` work on bytes (`bv8`).
- A `char` stands for one byte of a `std::string`; the character classes treat bytes of 0x80 and above as neither space, digit nor letter.
- Undefined behaviour in the source becomes one of two things. It is either a precondition, or, in the virtual machine, the `Undefined` outcome of a run. Examples are reading past a string, `stack.top()` on an empty stack, and an instruction index outside the program. A run also ends `Undefined` when an instruction writes to an operand that is not a register, because `GetW` is defined outside the model (see `Writable` below).
- Float arithmetic and the `Value` operators for non-integer operands are defined in a header outside the model. They are a parameter of the machine (`ValueOps`). A float is kept only as its 32-bit word.
- The host's external functions are a map from address to the value the function returns.
- The front end is outside the model. This covers the IR builder, `GetValueType` and the line/column computation of spans. The IR is an input datatype, `GetValueType` is the parameter `typeOf`, and a span's line is the parameter `lineOf`.

## Model

| member | source | states |
|---|---|---|
| Strings.SkipSpaceForward | FlexEngine/src/Helpers.cpp:503-506 | The forward scan of `Trim` stops at the first non-space character or at the stop position, and everything it passed is whitespace. |
| Strings.SkipSpaceBackward | FlexEngine/src/Helpers.cpp:508-511 | The backward scan stops at the last non-space character or at the stop position, and everything it passed is whitespace. |
| Strings.Trim | FlexEngine/src/Helpers.cpp:494-514 | Empty input gives empty output. Otherwise the result is a non-empty contiguous substring with only whitespace removed around it. Its two ends are non-space when it has two or more characters or the input is not all whitespace. An all-whitespace input gives its last character. |
| Strings.TrimLeadingWhitespace | FlexEngine/src/Helpers.cpp:516-531 | The result is a non-empty suffix of a non-empty input, and only whitespace is dropped in front of it. It starts with a non-space character unless the input is all whitespace, in which case it is the last character. |
| Strings.TrimTrailingWhitespace | FlexEngine/src/Helpers.cpp:533-548 | The result is a non-empty prefix of a non-empty input, and only whitespace is dropped after it. It ends with a non-space character unless the input is all whitespace, in which case it is the first character. |
| Strings.SpaceAroundUnique | FlexEngine/src/Helpers.cpp:494-514 | At most one substring has non-space ends and only whitespace around it, so `Trim`'s contract fixes its result. |
| Strings.TrimIdempotent | FlexEngine/src/Helpers.cpp:494-514 | Trimming twice is trimming once. |
| Strings.TrimIsTrailingThenLeading | FlexEngine/src/Helpers.cpp:494-548 | For an input that is not all whitespace, a trailing trim followed by a leading trim equals `Trim`. |
| Strings.TrimIsLeadingThenTrailing | FlexEngine/src/Helpers.cpp:494-548 | For an input that is not all whitespace, a leading trim followed by a trailing trim equals `Trim`. |
| Strings.AllSpaceTrimOrderMatters | FlexEngine/src/Helpers.cpp:494-548 | On the all-whitespace input " \t", `Trim` keeps the tab, but a trailing trim followed by a leading trim keeps the space. |
| Strings.SkipDelims | FlexEngine/src/Helpers.cpp:558-561 | The inner loop of `Split` passes only delimiters and stops at the end or at a non-delimiter. |
| Strings.ScanToDelim | FlexEngine/src/Helpers.cpp:563-567 | The inner scan passes only non-delimiters and stops at the end or at a delimiter. |
| Strings.SplitFrom | FlexEngine/src/Helpers.cpp:556-575 | Every piece the loop collects from a position on is non-empty and free of the delimiter. |
| Strings.SplitFromConcat | FlexEngine/src/Helpers.cpp:556-575 | The pieces collected from a position on, concatenated, are the rest of the input with every delimiter removed. |
| Strings.Split | FlexEngine/src/Helpers.cpp:550-577 | Every piece is non-empty and free of the delimiter. The pieces concatenated are the input with every delimiter removed. |
| Strings.FieldsFrom | FlexEngine/src/Helpers.cpp:586-597 | The fields the loop collects from a position on are free of the delimiter, and there is at least one when input remains. |
| Strings.FieldsFromJoin | FlexEngine/src/Helpers.cpp:579-599 | The fields from a position on, joined with the delimiter, plus a trailing delimiter when the input ends in one, give back the rest of the input. |
| Strings.SplitNoStrip | FlexEngine/src/Helpers.cpp:579-599 | Corrected `SplitNoStrip`: the empty input gives no fields. Every field is free of the delimiter. Joining the fields with the delimiter, plus a trailing delimiter when the input ends in one, reproduces the input. |
| Strings.NoStripLoopAsWritten | FlexEngine/src/Helpers.cpp:586-597 | The loop as written, from a position on, stops exactly when no input remains or the input ends in the delimiter, and then it collects the corrected fields. |
| Strings.SplitNoStripAsWritten | FlexEngine/src/Helpers.cpp:579-599 | `SplitNoStrip` as written is undefined exactly for a non-empty input that does not end in the delimiter. Otherwise it equals the corrected version. |
| Strings.SplitNoStripOverrunsOnLastLine | FlexEngine/src/Helpers.cpp:579-599 | On "a" split at '\n', the loop as written steps past the end, while the corrected version gives ["a"]. |
| Strings.SplitFromIsNonEmptyFields | FlexEngine/src/Helpers.cpp:550-599 | From any position, the pieces of `Split` are the fields of `SplitNoStrip` with the empty ones dropped. |
| Strings.SplitIsNonEmptyFields | FlexEngine/src/Helpers.cpp:550-599 | `Split` is `SplitNoStrip` with its empty fields dropped. |
| Strings.StartsWith | FlexEngine/src/Helpers.cpp:1198-1207 | True exactly when `start` is no longer than `str` and agrees with it position by position from the front. |
| Strings.EndsWith | FlexEngine/src/Helpers.cpp:1209-1218 | True exactly when `end` is no longer than `str` and agrees with it position by position from the back. |
| Strings.StartsWithConcat | FlexEngine/src/Helpers.cpp:1198-1218 | Every string starts with itself followed by anything, and ends with anything followed by itself. |
| Strings.PadStart | FlexEngine/src/Helpers.cpp:937-945 | The result has length max(length, minLen). It ends with the input, and everything in front of the input is the pad character. |
| Strings.PadEnd | FlexEngine/src/Helpers.cpp:927-935 | The result has length max(length, minLen). It starts with the input, and everything after the input is the pad character. |
| Strings.PadIdempotent | FlexEngine/src/Helpers.cpp:927-945 | Padding a padded string to the same length changes nothing, at either end. |
| Strings.FindChar | FlexEngine/src/Helpers.cpp:1352 | `find(pattern, from)` gives an index at or after `from` that holds the character, with no earlier occurrence from `from` on, or it reports that there is none. |
| Strings.Replace | FlexEngine/src/Helpers.cpp:1344-1365 | The result has the input's length. Every occurrence of `pattern` becomes `replacement`, and every other character is kept. |
| Strings.NextNonAlphaNumeric | FlexEngine/src/Helpers.cpp:601-613 | The result is either the first index at or after `offset` whose character is neither a letter nor a digit, or -1 when every character from `offset` on is a letter or a digit. |
| Numbers.TruncRem | FlexEngine/src/Helpers.cpp:1482 | C++ `%`: the remainder is smaller than the divisor in magnitude, has the sign of the dividend, and differs from the dividend by a multiple of the divisor. |
| Numbers.RoundUp | FlexEngine/src/Helpers.cpp:1480-1483 | The result is a 32-bit multiple of `alignment`. For val ≥ 0 and alignment > 0 it lies in (val, val + alignment], and an aligned `val` maps to val + alignment. For val < 0 it lies in [val + alignment, val + 2·alignment). |
| Numbers.RoundUpIsLeast | FlexEngine/src/Helpers.cpp:1480-1483 | For val ≥ 0 and alignment > 0, no multiple of `alignment` above `val` is smaller than `RoundUp`'s result. |
| Numbers.DigitRoundTrip | FlexEngine/src/Helpers.cpp:166 | Digit values and digit characters convert into each other both ways. |
| Numbers.DecimalDigits | FlexEngine/src/Helpers.cpp:166 | `std::to_string` of a natural number is a non-empty digit string without a leading zero, unless it is "0". |
| Numbers.DecimalRoundTrip | FlexEngine/src/Helpers.cpp:166 | Reading back the decimal digits of `n` gives `n`. |
| Numbers.LeadingZerosIgnored | FlexEngine/src/Helpers.cpp:1243 | Zeros in front of a digit string do not change its value. |
| Numbers.IntToString | FlexEngine/src/Helpers.cpp:164-188 | For i ≥ 0, the result has length max(digit count, minChars), is padded on the left with `pad`, and ends in the digits of i. For i < 0, the result is '-' followed by that padding of the digits of -i. |
| Numbers.IntToStringIsPadStart | FlexEngine/src/Helpers.cpp:164-188 | `IntToString` is `PadStart` of the digits, with '-' in front for a negative number. |
| Numbers.IntToStringRoundTrip | FlexEngine/src/Helpers.cpp:164-188 | Padded with '0', the digits after any '-' read back as the absolute value of i. |
| Numbers.TrailingDigitStart | FlexEngine/src/Helpers.cpp:1236-1241 | The backward scan stops at the start of the maximal run of digits that ends at the given position. |
| Numbers.GetNumberEndingWith | FlexEngine/src/Helpers.cpp:1220-1247 | The result is (-1, 0) exactly when the string is empty or does not end in a digit. Otherwise the count is the length of the maximal trailing run of digits, and the number is that run's value. |
| Numbers.NumberEndingWithAppend | FlexEngine/src/Helpers.cpp:1220-1247 | A stem that does not end in a digit, followed by digits, reports exactly those digits and their value. |
| Numbers.GetIncrementedPostFixedStr | FlexEngine/src/Helpers.cpp:908-925 | An empty prefix gives the default name. Otherwise the result is exactly the prefix without its trailing digits, followed by the old number plus one (2 when there was none), zero-padded to the old digit count. For a prefix shorter than 0x7FF0 characters, reading the trailing number of the result back gives that incremented number, spelled with at least as many digits as before. |
| Numbers.NameStem | FlexEngine/src/Helpers.cpp:915-923 | The stem is the name without its trailing number; its length and the digit count add up to the name's length, and it does not end in a digit. |
| Numbers.NextInSeries | FlexEngine/src/Helpers.cpp:923 | The result is the stem followed by the next number zero-padded to the old digit count, so its length is the stem's plus the larger of the digit count and the padding. With room below the length limit, its trailing number reads back as the next number, spelled with at least the old number of digits. |
| Numbers.DigitsLength | FlexEngine/src/Helpers.cpp:923 | A number below 10^k has at most k decimal digits. |
| Numbers.IncrementedNameExamples | FlexEngine/src/Helpers.cpp:908-925 | "Box" becomes "Box2", "Box9" becomes "Box10", and the empty prefix gives the default name. |
| Numbers.NextPowerOfTwo | FlexEngine/src/Helpers.cpp:883-893 | For 0 < x ≤ 2^31, the result is a power of two that is at least x, and half of it is below x. Above 2^31 the result wraps to 0. |
| Numbers.NextPowerOfTwoIsLeast | FlexEngine/src/Helpers.cpp:883-893 | For 0 < x ≤ 2^31, no power of two that is at least x is smaller than the result. |
| Numbers.Parse16u | FlexEngine/src/Helpers.cpp:723-726 | The low byte of the result is the first byte, and the high byte is the second (little-endian). |
| Numbers.Parse32u | FlexEngine/src/Helpers.cpp:718-721 | Byte k of the result, counting from the least significant, is the k-th input byte (little-endian). |
| Numbers.Parse16uRoundTrip | FlexEngine/src/Helpers.cpp:723-726 | Parsing the little-endian encoding of a 16-bit value gives the value back, and re-encoding parsed bytes gives the bytes back. |
| Numbers.Parse32uRoundTrip | FlexEngine/src/Helpers.cpp:718-721 | Parsing the little-endian encoding of a 32-bit value gives the value back, and re-encoding parsed bytes gives the bytes back. |
| Paths.LastIndexOf | FlexEngine/src/Helpers.cpp:330 | `rfind(c)` gives no index exactly when `c` does not occur. Otherwise it gives an index holding `c` with no `c` after it. |
| Paths.StripLeadingDirectories | FlexEngine/src/Helpers.cpp:328-336 | The result is a suffix with no '/'. With a '/' in the path, it is what follows the last '/'. Without one, it is the whole path. |
| Paths.ExtractDirectoryString | FlexEngine/src/Helpers.cpp:338-347 | A path without '/' or ending in '/' is returned unchanged. Otherwise the result is the proper prefix up to and including the last '/'. |
| Paths.DirectoryThenFileName | FlexEngine/src/Helpers.cpp:328-347 | A path with a '/' is its directory part followed by its file name. |
| Paths.ExtractFileType | FlexEngine/src/Helpers.cpp:358-366 | The result has no '.'. It is "" when the path has no '.', and otherwise the suffix after the last '.'. |
| Paths.SplitFirstPiece | FlexEngine/src/Helpers.cpp:550-577 | When some character is not the delimiter, `Split` has a first piece, running from the first non-delimiter to the next delimiter. |
| Paths.StripFileType | FlexEngine/src/Helpers.cpp:349-356 | A path without '.' is returned unchanged. Otherwise the result is the first non-empty '.'-separated piece. |
| Paths.ReplaceBackSlashesWithForward | FlexEngine/src/Helpers.cpp:1271-1281 | Same length. Every '\\' becomes '/', and every other character is kept. |
| Bytecode.JumpPairsExclusive | FlexEngine/src/VirtualMachine/Backend/VirtualMachine.cpp:771-806 | For every flag state, exactly one jump of each pair JEQ/JNE, JLT/JGE and JLE/JGT is taken. |
| Bytecode.JumpTakenAfterCmp | FlexEngine/src/VirtualMachine/Backend/VirtualMachine.cpp:750-806 | After `CMP a, b` without overflow, JZ and JEQ are taken exactly when a = b, JNZ and JNE when a ≠ b, JLT when a < b, JLE when a ≤ b, JGT when a > b, JGE when a ≥ b, and JMP always. |
| Bytecode.InverseOpCode | FlexEngine/src/VirtualMachine/Backend/VirtualMachine.cpp:990-1005 | The six test jumps map to test jumps, every other opcode maps to `_NONE`, and the image of a test jump is taken exactly when the jump itself is not. |
| Bytecode.InverseOpCodeInvolution | FlexEngine/src/VirtualMachine/Backend/VirtualMachine.cpp:990-1005 | `InverseOpCode` applied twice is the identity on the six test jumps. |
| Bytecode.BinaryOperatorTypeToOpCode | FlexEngine/src/VirtualMachine/Backend/VirtualMachine.cpp:955-971 | The six comparisons map to test jumps and everything else to `_NONE`. After `CMP a, b`, the jump is taken exactly when the comparison holds for a and b. |
| Bytecode.BinaryOperatorTypeToInverseOpCode | FlexEngine/src/VirtualMachine/Backend/VirtualMachine.cpp:973-988 | The six comparisons map to test jumps and everything else to `_NONE`. After `CMP a, b`, the jump is taken exactly when the comparison fails. |
| Bytecode.InverseTableIsInverseOfTable | FlexEngine/src/VirtualMachine/Backend/VirtualMachine.cpp:955-1005 | For every operator, the inverse table equals the plain table followed by `InverseOpCode`. |
| Bytecode.OpCodeFromBinaryOperatorType | FlexEngine/src/VirtualMachine/Backend/VirtualMachine.cpp:1036-1058 | Following the disabled AST table that the call at line 399 stands for, a binary assignment lowers to `CMP` exactly for the comparisons and the boolean connectives, and otherwise to the matching arithmetic or bitwise instruction, never to a jump. |
| VirtualMachine.Wrap32 | FlexEngine/src/VirtualMachine/Backend/VirtualMachine.cpp:697-705 | The assumed meaning of integer overflow in the `Value` operators: the result is in the 32-bit range, congruent to the exact value modulo 2^32, and equal to it when it fits. |
| VirtualMachine.Arith | FlexEngine/src/VirtualMachine/Backend/VirtualMachine.cpp:697-711 | Integer `+`, `-` and `*` give an integer congruent to the exact result modulo 2^32, and equal to it when it fits; every other tag or opcode is the operator outside the model. |
| VirtualMachine.EvolvesTransitive | FlexEngine/src/VirtualMachine/Backend/VirtualMachine.cpp:686-851 | What no loop iteration changes stays unchanged over any number of iterations: the program, origins, register count, host functions and compiled flag. Diagnostics are only appended, and only with runtime messages. |
| VirtualMachine.ExecData | FlexEngine/src/VirtualMachine/Backend/VirtualMachine.cpp:694-727 | MOV writes its source to the destination register; ADD, SUB, MUL, DIV and MOD write the operator's result on the two sources; ITF and FTI retag the destination and write the converted source, read after the retag. No other register changes and the register count is kept. |
| VirtualMachine.ExecStack | FlexEngine/src/VirtualMachine/Backend/VirtualMachine.cpp:728-749 | CALL, PUSH, POP and RETURN change only registers, stack and index, never the flags. PUSH and POP do not change the index. |
| VirtualMachine.ExecFlow | FlexEngine/src/VirtualMachine/Backend/VirtualMachine.cpp:750-806 | CMP and the jumps change only the running state and never terminate. A jump changes only the index. |
| VirtualMachine.Exec | FlexEngine/src/VirtualMachine/Backend/VirtualMachine.cpp:692-836 | The loop asks to stop exactly on YIELD, and the machine terminates exactly on HALT. Instructions that do not move the index leave it in place. Exactly the unhandled opcodes (INV, AND, OR, XOR, `_NONE`) append one "unhandled op code" diagnostic. |
| VirtualMachine.Step | FlexEngine/src/VirtualMachine/Backend/VirtualMachine.cpp:686-840 | After an instruction that neither terminates nor moves the index, the index is one higher. HALT terminates in place. YIELD asks the loop to stop. |
| VirtualMachine.Loop | FlexEngine/src/VirtualMachine/Backend/VirtualMachine.cpp:684-852 | From iteration `loopCount`, the loop runs at most 10,000,001 − loopCount iterations, and at most one in single-step mode. Reaching the ceiling ends with the machine terminated and "took too long" as the last diagnostic. The loop finishes exactly when no machine it reaches before the ceiling has an undefined next step. |
| VirtualMachine.AfterStep | FlexEngine/src/VirtualMachine/Backend/VirtualMachine.cpp:842-852 | The end of one iteration: a finished run takes between one iteration and what is left of the ten-million ceiling, exactly one in single-step mode; a run that uses up the ceiling ends terminated with the runaway diagnostic; the machine only evolves (diagnostics appended, program unchanged). It finishes exactly when the ceiling is reached, YIELD or single-step mode exits, or the remaining iterations are all defined. |
| VirtualMachine.ForceTerminate | FlexEngine/src/VirtualMachine/Backend/VirtualMachine.cpp:842-846 | Passing the ceiling sets `terminated`, leaves the rest of the running state as it was, and appends the "took too long" diagnostic at span (0, 0). |
| VirtualMachine.RunLoop | FlexEngine/src/VirtualMachine/Backend/VirtualMachine.cpp:684-857 | A terminated machine stops at once with index -1. The loop runs at most 10,000,001 iterations. A run that ends terminated leaves the index at -1. The run finishes exactly when every step it takes before the ceiling is defined. |
| VirtualMachine.ResetIndex | FlexEngine/src/VirtualMachine/Backend/VirtualMachine.cpp:854-857 | A terminated run has its instruction index set to -1 and nothing else changed; a run still going is left as it is. |
| VirtualMachine.Execute | FlexEngine/src/VirtualMachine/Backend/VirtualMachine.cpp:656-858 | An uncompiled or empty program is left as it is. A single step from index -1 only sets the index to 0. Every run stops within 10,000,001 iterations, and within one in single-step mode. A run that ends terminated leaves the index at -1. A full run keeps only runtime diagnostics, and finishes exactly when every step from the fresh start up to the ceiling is defined; a single step finishes exactly when the machine is terminated or its step is defined. |
| VirtualMachine.FullRunStartsOver | FlexEngine/src/VirtualMachine/Backend/VirtualMachine.cpp:669-683 | A full run does not depend on the running state or the diagnostics it starts from. |
| VirtualMachine.StepCmp | FlexEngine/src/VirtualMachine/Backend/VirtualMachine.cpp:750-755 | `CMP a, b` sets the zero flag to whether a − b is zero and the sign flag to whether it is positive. Nothing else changes except the index, which advances by one. |
| VirtualMachine.StepMov | FlexEngine/src/VirtualMachine/Backend/VirtualMachine.cpp:694-696 | `MOV d, v` writes the value of v to register d and advances by one; nothing else changes. |
| VirtualMachine.StepArith | FlexEngine/src/VirtualMachine/Backend/VirtualMachine.cpp:697-711 | ADD, SUB, MUL, DIV and MOD write the operator's result on their two sources to the destination register and advance by one; nothing else changes. |
| VirtualMachine.StepIntArith | FlexEngine/src/VirtualMachine/Backend/VirtualMachine.cpp:697-705 | ADD, SUB and MUL on two integers write an integer congruent to the exact result modulo 2^32 (equal to it when it fits) to the destination; other registers, the stack and the flags are unchanged, and the index advances by one. |
| VirtualMachine.StepConvert | FlexEngine/src/VirtualMachine/Backend/VirtualMachine.cpp:715-726 | ITF and FTI set the destination's tag, then write the converted source, so an in-place conversion reads the retagged register; the stack is unchanged and the index advances by one. |
| VirtualMachine.CmpThenJumpDecides | FlexEngine/src/VirtualMachine/Backend/VirtualMachine.cpp:750-806 | After `CMP` on two integers whose difference fits in 32 bits, the plain table's jump is taken exactly when the comparison holds, and the inverse table's jump exactly when it fails. |
| VirtualMachine.StepJump | FlexEngine/src/VirtualMachine/Backend/VirtualMachine.cpp:756-806 | A taken jump lands on its operand, or on the next instruction when the operand is its own index. An untaken jump advances by one. Registers, stack and flags are unchanged. |
| VirtualMachine.StepPush | FlexEngine/src/VirtualMachine/Backend/VirtualMachine.cpp:740-742 | PUSH appends its operand to the stack and advances by one. |
| VirtualMachine.StepPop | FlexEngine/src/VirtualMachine/Backend/VirtualMachine.cpp:743-749 | POP shrinks the stack by one. It writes the old top to its operand only when an operand is present. |
| VirtualMachine.StepReturn | FlexEngine/src/VirtualMachine/Backend/VirtualMachine.cpp:811-826 | RETURN moves the index to the popped address. A value-returning RETURN keeps the depth, with the value on top. A void RETURN leaves the stack one shorter. |
| VirtualMachine.StepCallExternal | FlexEngine/src/VirtualMachine/Backend/VirtualMachine.cpp:728-733 | A CALL to an address above 0xFFFF pushes exactly one integer, the host function's result, and advances by one. |
| VirtualMachine.StepCallLocal | FlexEngine/src/VirtualMachine/Backend/VirtualMachine.cpp:734-737 | A CALL to a local address jumps without pushing a return address. |
| VirtualMachine.LoopStopsAfterYield | FlexEngine/src/VirtualMachine/Backend/VirtualMachine.cpp:807-810 | YIELD ends the loop after one iteration, but the index has already moved past it. |
| VirtualMachine.HaltEndsRun | FlexEngine/src/VirtualMachine/Backend/VirtualMachine.cpp:827-857 | HALT terminates after one iteration, and the run then sets the index to -1, so the machine is no longer executing. |
| VirtualMachine.UndefinedSteps | FlexEngine/src/VirtualMachine/Backend/VirtualMachine.cpp:686-826 | A run is undefined when the index leaves the program, when POP or RETURN finds the stack empty, when a CALL names an external address with no host function, and whenever the next step is not defined. |
| VirtualMachine.PingPongLoop | FlexEngine/src/VirtualMachine/Backend/VirtualMachine.cpp:842-846 | Two jumps that send the index back and forth run until the ceiling. The loop then forces termination and appends "took too long". |
| VirtualMachine.PingPongHitsCeiling | FlexEngine/src/VirtualMachine/Backend/VirtualMachine.cpp:656-858 | A full run of two bouncing jumps takes exactly 10,000,001 iterations, ends with index -1, and has "took too long" as its only diagnostic. |
| VirtualMachine.SelfJumpFallsThrough | FlexEngine/src/VirtualMachine/Backend/VirtualMachine.cpp:837-840 | A jump to its own index falls through to the next instruction. |
| VirtualMachine.ClearRuntimeState | FlexEngine/src/VirtualMachine/Backend/VirtualMachine.cpp:884-930 | The running state is cleared and the stack and host function table are emptied. Every register is zeroed, with word 0 and tag `_NONE`. The program, origins, diagnostics and compiled flag are kept. |
| VirtualMachine.GenerateFromInstStream | FlexEngine/src/VirtualMachine/Backend/VirtualMachine.cpp:647-654 | The given list becomes the compiled program, and the runtime state is cleared. The origins are resized to the program's length: old origins are kept in front and the rest are generated spans. |
| VirtualMachine.CurrentLineNumber | FlexEngine/src/VirtualMachine/Backend/VirtualMachine.cpp:875-882 | While executing with an index that has an origin, the result is that origin's line. Otherwise it is -1. |
| VirtualMachine.ExecutingLifecycle | FlexEngine/src/VirtualMachine/Backend/VirtualMachine.cpp:865-868 | Clearing the runtime state and loading a program leave the machine not executing; a single step from index -1 starts it executing; a run that terminates it leaves it not executing. |
| CodeGen.GrowsTransitive | FlexEngine/src/VirtualMachine/Backend/VirtualMachine.cpp:351-535 | Appending instructions and blocks composes: blocks are never removed, diagnostics only grow, and every emitted block target stays a non-negative constant. |
| CodeGen.Emit | FlexEngine/src/VirtualMachine/Backend/VirtualMachine.cpp:42-46 | `PushBack` appends one instruction to the current (last) block and changes nothing else. |
| CodeGen.PushBlock | FlexEngine/src/VirtualMachine/Backend/VirtualMachine.cpp:53-57 | `PushInstructionBlock` appends one empty block and changes nothing else. |
| CodeGen.KeepsRegistersTransitive | FlexEngine/src/VirtualMachine/Backend/VirtualMachine.cpp:360-364 | Once a variable has a register, it keeps that register through any later allocations. |
| CodeGen.Allocate | FlexEngine/src/VirtualMachine/Backend/VirtualMachine.cpp:360-364 | A new variable gets the register equal to the number of variables seen before, and a known one keeps its register. The map stays injective onto 0..n−1. |
| CodeGen.WrapperOf | FlexEngine/src/VirtualMachine/Backend/VirtualMachine.cpp:140-196 | A literal becomes a constant. A known identifier becomes its register. An unknown identifier gives an invalid operand and exactly one "undeclared identifier" diagnostic; no other case reports anything. |
| CodeGen.Operand | FlexEngine/src/VirtualMachine/Backend/VirtualMachine.cpp:140-196 | Reading an operand records its diagnostics in the IR state's container and changes nothing else. |
| CodeGen.FindIRType | FlexEngine/src/VirtualMachine/Backend/VirtualMachine.cpp:199-226 | Corrected `FindIRType`: a literal's type, or the variable's declared type, then its temporary type. It reports "unexpected type" with `_NONE` exactly when none of these applies. |
| CodeGen.FindIRTypeAsWritten | FlexEngine/src/VirtualMachine/Backend/VirtualMachine.cpp:214-218 | As written, every identifier that is not a declared variable compares a `tmpVarTypes` iterator with `variableTypes.end()`, which is undefined, whether or not it has a temporary type. In every other case the result is that of the corrected version. |
| CodeGen.UntypedCastTargetIsUndefined | FlexEngine/src/VirtualMachine/Backend/VirtualMachine.cpp:214-222 | An untyped identifier reaches the undefined comparison. The corrected version reports the diagnostic. |
| CodeGen.TemporaryCastTargetIsUndefined | FlexEngine/src/VirtualMachine/Backend/VirtualMachine.cpp:214-218 | A temporary also reaches the undefined comparison, where the corrected version gives its temporary type. |
| CodeGen.BranchOpCode | FlexEngine/src/VirtualMachine/Backend/VirtualMachine.cpp:283-310 | `HandleComparison`'s switch agrees with `BinaryOperatorTypeToOpCode` on the comparisons. It gives a test jump exactly for them, and AND, OR, XOR or `_NONE` otherwise. |
| CodeGen.LowerLeaf | FlexEngine/src/VirtualMachine/Backend/VirtualMachine.cpp:330-339 | A leaf comparison appends exactly `CMP lhs, rhs` and its jump (`LeafJump`) to the current block, with the operands looked up in the register map. Every earlier block, the register map and the back end's diagnostics are unchanged. |
| CodeGen.LowerCondition | FlexEngine/src/VirtualMachine/Backend/VirtualMachine.cpp:272-342 | Branch lowering adds no block, changes only the current block, and keeps the register map and the back end's diagnostics. Given non-negative block indices, every jump target it emits is a non-negative constant. |
| CodeGen.LeafComparisonEmitsCmpAndJump | FlexEngine/src/VirtualMachine/Backend/VirtualMachine.cpp:330-339 | A leaf comparison appends exactly `CMP lhs, rhs` and one jump. With `bInvCondition`, the jump is the inverted opcode to the false block; otherwise it is the plain opcode to the true block. |
| CodeGen.LeafJumpDecides | FlexEngine/src/VirtualMachine/Backend/VirtualMachine.cpp:330-339 | That jump is taken after `CMP a, b` exactly when the comparison holds, or exactly when it fails for an inverted condition. |
| CodeGen.LowerUnary | FlexEngine/src/VirtualMachine/Backend/VirtualMachine.cpp:371-395 | NEGATE appends `SUB dest, 0, operand` with an integer zero exactly for an integer operand and a float zero otherwise; NOT appends `XOR dest, operand, operand`; BIN_INVERT appends `INV dest, operand`. Earlier blocks, the register map and the back end's diagnostics are unchanged; only the operand's diagnostics are added. |
| CodeGen.LowerBinary | FlexEngine/src/VirtualMachine/Backend/VirtualMachine.cpp:396-413 | A non-comparison operator appends `op dest, lhs, rhs`. A comparison or connective appends the branch lowering of the value, then `CMP lhs, rhs` and `MOV dest` without a source. Earlier blocks and the register map are unchanged in both cases. |
| CodeGen.ArithmeticValue | FlexEngine/src/VirtualMachine/Backend/VirtualMachine.cpp:408-411 | The arithmetic path appends exactly `op dest, lhs, rhs` to the current block. |
| CodeGen.ComparisonValue | FlexEngine/src/VirtualMachine/Backend/VirtualMachine.cpp:399-407 | The comparison path appends the branch lowering of the value, with its true and false blocks numbered n and n + 1 (blocks that this path never creates), then `CMP lhs, rhs` and `MOV dest` with no source. Earlier blocks are unchanged. |
| CodeGen.TestValueEmits | FlexEngine/src/VirtualMachine/Backend/VirtualMachine.cpp:399-407 | For a plain comparison the current block (index n − 1) receives `CMP lhs, rhs`, the inverted test jump to block n + 1, `CMP lhs, rhs` again and `MOV dest` with no source: the destination is never given the test's result. |
| CodeGen.LowerTernary | FlexEngine/src/VirtualMachine/Backend/VirtualMachine.cpp:414-432 | A ternary adds exactly three blocks, and the last of them (the merge block) is empty. The block that was current ends with the inverted branch lowering of the condition aimed at the first two new blocks, and the blocks before it are unchanged. |
| CodeGen.TernaryTrueArm | FlexEngine/src/VirtualMachine/Backend/VirtualMachine.cpp:423-426 | The true block receives `MOV dest, first value` and `JMP merge`, appended to whatever it held; no other block and no register changes. |
| CodeGen.TernaryFalseArm | FlexEngine/src/VirtualMachine/Backend/VirtualMachine.cpp:428-429 | The false block receives `MOV dest, second value`; no other block and no register changes. |
| CodeGen.TernaryArmsMeetAtMerge | FlexEngine/src/VirtualMachine/Backend/VirtualMachine.cpp:414-432 | The true block is `MOV reg, ifTrue; JMP merge`, the false block is `MOV reg, ifFalse`, and the merge block is empty. |
| CodeGen.LowerCast | FlexEngine/src/VirtualMachine/Backend/VirtualMachine.cpp:433-475 | A cast to a type other than int or float adds only the "unexpected type" diagnostic. Otherwise: a target already of the cast type emits nothing; an int target cast to float appends `ITF dest, target` and a float target cast to int `FTI dest, target`; a target of no number type adds the diagnostic. Earlier blocks and the register map are unchanged. |
| CodeGen.LowerAssignment | FlexEngine/src/VirtualMachine/Backend/VirtualMachine.cpp:356-481 | An assignment allocates its variable's register first, and the map stays dense. A unary, binary, ternary or cast value is then lowered by `LowerUnary`, `LowerBinary`, `LowerTernary` or `LowerCast` into that register. Any other value (a literal, an identifier or a call) appends `MOV dest, operand` to the current block, with the operand's lookup diagnostic added to the IR's; earlier blocks are unchanged. |
| CodeGen.LowerTerminator | FlexEngine/src/VirtualMachine/Backend/VirtualMachine.cpp:483-534 | Every terminator changes only the current block and keeps the register map. A return appends `RETURN` of its operand, or of an absent operand when it has no value. A branch appends `JMP` to the target's IR index, and a halt appends `HALT`. A conditional branch is the plain branch lowering aimed at the `then` block and the otherwise index; for a leaf comparison that is `CMP lhs, rhs` and the plain jump to the `then` block. |
| CodeGen.PlainConditionIgnoresFalseBlock | FlexEngine/src/VirtualMachine/Backend/VirtualMachine.cpp:313-339 | Without a `&&`, a non-inverted condition never jumps to the false block, so the false block index does not matter. |
| CodeGen.ConditionalBranchIgnoresOtherwise | FlexEngine/src/VirtualMachine/Backend/VirtualMachine.cpp:513-526 | For a condition without `&&`, the lowered conditional branch is the same whatever its otherwise block is. |
| CodeGen.ConjunctionJumpsToOtherwise | FlexEngine/src/VirtualMachine/Backend/VirtualMachine.cpp:311-316 | With `&&`, the otherwise block does matter: `a == a && a` branching to 1 otherwise 5 lowers to `CMP R0, R0; JNE 5`. |
| CodeGen.MoveValue | FlexEngine/src/VirtualMachine/Backend/VirtualMachine.cpp:476-479 | A value with no lowering of its own appends `MOV dest, operand` to the current block, where the operand is what `GetValueWrapperFromIRValue` gives for it. The lookup's diagnostic, if any, is added to the IR's, and nothing else changes. |
| CodeGen.LowerAssignments | FlexEngine/src/VirtualMachine/Backend/VirtualMachine.cpp:356-481 | The map gains exactly the assigned variables, stays dense, and keeps every earlier register. |
| CodeGen.LowerBlock | FlexEngine/src/VirtualMachine/Backend/VirtualMachine.cpp:351-535 | A block pushes at least one instruction block. The map gains exactly its assigned variables and keeps earlier registers. |
| CodeGen.LowerBlocks | FlexEngine/src/VirtualMachine/Backend/VirtualMachine.cpp:351-535 | All blocks together give at least one instruction block per IR block. The map covers exactly the assigned variables, densely, and keeps earlier registers. |
| CodeGen.Flatten | FlexEngine/src/VirtualMachine/Backend/VirtualMachine.cpp:540-554 | The flat list of well-formed blocks has one origin per instruction, and every jump or call target in it is a non-negative constant. |
| CodeGen.FlattenPrefix | FlexEngine/src/VirtualMachine/Backend/VirtualMachine.cpp:540-554 | Flattening the first i blocks gives a prefix of the flat list, for instructions and origins. |
| CodeGen.FlattenStep | FlexEngine/src/VirtualMachine/Backend/VirtualMachine.cpp:540-554 | Flattening one more block appends exactly that block's instructions and origins. |
| CodeGen.BlockAtStartOffset | FlexEngine/src/VirtualMachine/Backend/VirtualMachine.cpp:540-554 | Block i occupies the flat list from its start offset (the total size of blocks 0..i−1), instructions and origins alike. |
| CodeGen.InstructionAt | FlexEngine/src/VirtualMachine/Backend/VirtualMachine.cpp:540-554 | Instruction `j` of block `i` and its origin sit at flat index start-offset(i) + j, inside the flat list, whose instructions and origins have the same length. |
| CodeGen.LaidOut | FlexEngine/src/VirtualMachine/Backend/VirtualMachine.cpp:540-554 | Instruction j of block i sits at start offset i plus j in the flat list, with its origin. |
| CodeGen.LaidOutPatched | FlexEngine/src/VirtualMachine/Backend/VirtualMachine.cpp:540-598 | After patching, the item at start offset i plus j is instruction j of block i, patched. |
| CodeGen.PatchedJumpLandsOnTargetBlock | FlexEngine/src/VirtualMachine/Backend/VirtualMachine.cpp:557-598 | A jump or call naming an in-range block t is rewritten to t's start offset. Block t is laid out, patched, from there. |
| CodeGen.PatchedFlatListIsLaidOut | FlexEngine/src/VirtualMachine/Backend/VirtualMachine.cpp:540-598 | A machine holding the patched flat instruction list and the flat origins has every block laid out at its start offset, each instruction patched. |
| CodeGen.Assemble | FlexEngine/src/VirtualMachine/Backend/VirtualMachine.cpp:540-598 | The assembled machine has every block laid out and patched, one diagnostic per bad block index appended to its own, a cleared running state, an empty stack and external table, and cleared registers. |
| CodeGen.Offsets | FlexEngine/src/VirtualMachine/Backend/VirtualMachine.cpp:546 | One start offset per block, each the total size of the blocks before it. |
| CodeGen.PatchInstruction | FlexEngine/src/VirtualMachine/Backend/VirtualMachine.cpp:562-596 | JMP, JEQ, JNE, JGE, JGT, JLE, JLT and CALL with an in-range block index get that block's start offset as their operand's word. Everything else, including JZ, JNZ and an out-of-range index, is left unchanged. |
| CodeGen.PatchAll | FlexEngine/src/VirtualMachine/Backend/VirtualMachine.cpp:557-598 | The patch pass keeps the list's length and patches every instruction independently. |
| CodeGen.BadTargetCount | FlexEngine/src/VirtualMachine/Backend/VirtualMachine.cpp:574-594 | The number of patched instructions with an out-of-range block index is zero exactly when there is none. |
| CodeGen.InvalidBlockDiagnostics | FlexEngine/src/VirtualMachine/Backend/VirtualMachine.cpp:579-582 | n copies of the generated-span "Invalid block index" diagnostic. |
| CodeGen.GenerateFromIR | FlexEngine/src/VirtualMachine/Backend/VirtualMachine.cpp:344-598 | Corrected `GenerateFromIR`: registers are dense over exactly the assigned variables. Each instruction of block i sits patched at its start offset, with its origin. The machine's diagnostics gain one "Invalid block index" per bad target. The runtime state is cleared. |
| CodeGen.GenerateFromIRAsWritten | FlexEngine/src/VirtualMachine/Backend/VirtualMachine.cpp:344-598 | As written: undefined exactly when the source text is non-empty and does not end in a newline. Otherwise it equals the corrected result, except that the new origins are appended to the old ones. |
| CodeGen.RecompileKeepsStaleOrigins | FlexEngine/src/VirtualMachine/Backend/VirtualMachine.cpp:346-551 | Recompiling a machine that already had origins gives more origins than instructions. The line reported for instruction k is then the old program's, where the corrected version reports the new one. |
| CodeGen.TernaryShiftsBranchTargets | FlexEngine/src/VirtualMachine/Backend/VirtualMachine.cpp:418-431 | The blocks a ternary pushes shift instruction-block numbering against IR block numbering. A branch to IR block 1 after a ternary lands on the ternary's true arm (JMP 0), not on the block it names. |
| CodeGen.TernaryThenBranchLowering | FlexEngine/src/VirtualMachine/Backend/VirtualMachine.cpp:351-535 | The example program lowers to five instruction blocks with the listed contents. |
| CodeGen.TernaryExampleFirstBlock | FlexEngine/src/VirtualMachine/Backend/VirtualMachine.cpp:414-432 | In the example, lowering the entry block `x = 1 ? 2 : 3; br 1` leaves four blocks: the empty entry, the two arms, and the merge block holding `JMP 1`, the IR index of the target, not yet shifted by the ternary. |
| CodeGen.TernaryExampleAssignment | FlexEngine/src/VirtualMachine/Backend/VirtualMachine.cpp:356-432 | In the example, `x` takes register 0 and the ternary adds the two arms and an empty merge block after the empty entry block. |
| CodeGen.TernaryExampleArms | FlexEngine/src/VirtualMachine/Backend/VirtualMachine.cpp:414-432 | The ternary `1 ? 2 : 3` after one empty block: the condition emits nothing, the arms move 2 (then jump to block 3) and 3 into register 0, and the merge block is empty. |
| CodeGen.HaltOnlyBlock | FlexEngine/src/VirtualMachine/Backend/VirtualMachine.cpp:351-531 | A block holding only `halt` lowers to one new block holding only `HALT`; earlier blocks are unchanged. |
| CodeGen.LowerBlocksCons | FlexEngine/src/VirtualMachine/Backend/VirtualMachine.cpp:351-535 | Lowering a non-empty list of blocks lowers the first and then the rest from the resulting state. |
| CodeGen.TernaryThenBranchLayout | FlexEngine/src/VirtualMachine/Backend/VirtualMachine.cpp:540-554 | The five example blocks flatten to the listed list, and blocks 1 and 3 start at offsets 0 and 3. |
| CodeGen.PatchBranchExample | FlexEngine/src/VirtualMachine/Backend/VirtualMachine.cpp:557-598 | Patching the example list rewrites `JMP 1` to `JMP 0`, and `JMP 3` stays at offset 3. |

## Left out

- The front end is outside the model: the lexer, the parser, AST and IR construction, and the line/column computation of spans. `GetValueType` becomes the parameter `typeOf`, a span's line becomes `lineOf`, and `tmpVarTypes` is an input.
- `GenerateFromSource` is left out; it only drives the front end and then `GenerateFromIR`.
- Float arithmetic is a parameter (`ValueOps`), because the `Value` operators are defined in a header outside the model. This covers DIV and MOD, ITF/FTI conversion, and `IsZero`/`IsPositive` for non-integer values.
- The value form of `HandleComparison` (VirtualMachine.cpp:228-270) is left out, because the generator never calls it.
- The `malloc` memory pool (VirtualMachine.cpp:903-913) is left out; it has no effect on execution.
- The string dumps (VirtualMachine.cpp:600-644) are left out; they are cosmetic.
- `ClearRuntimeState` zeroes exactly the registers in the register sequence. `REGISTER_COUNT` is the length of that sequence.
- `RunningState::Clear` is defined outside the model. It is taken to set index -1, both flags false and `terminated` false (`CLEARED`).
- `DispatchExternalCall` calls a host function pointer. The model stands for each host function by the value it returns, in a map from address to value.
- `TranslateLocalFuncAddress` is the identity, as in the source.
- When one instruction raises several diagnostics, their order is not modelled.
- `FuncCall` values carry no operands; the generator gives them an invalid operand, as in the source.
- `PatchInstruction` requires every patched operand to be a non-negative constant. `GenerateFromIR` proves that every block target it emits is one, so the missing lower bound of the patch pass (VirtualMachine.cpp:575, 587) cannot be reached from the generator.
- The generator's state diagnostics are a result field (`CodeGenResult.state`). `state->Clear()` empties them at the start of every generation.
- The u64 `NextPowerOfTwo` (Helpers.cpp:895-906) is left out; it is the same algorithm at 64 bits.
- `CountSetBits` is left out, because its shift of `sizeof(u32*) * 8 - 1` is undefined on 64-bit builds.
- `ParseWAVFile` is left out, because it checks a 12-byte minimum length and then reads 44 or more bytes.
- The Helpers I/O and UI code is left out: images, files, dialogs, the clipboard, ImGui, `rand` and `GenerateUID`.
- The Helpers floating-point functions are left out.
- `RelativePathToAbsolute` is left out; it depends on the file system.
- `Replace(str, str, str)` is left out.
- GetNumberEndingWith: requires |str| < 32768, because the source holds the length in an `i16`. It does not model `atoi` overflow for runs of digits above 2^31 − 1.
- GetIncrementedPostFixedStr: requires the trailing number to be below 2^31 − 1, so that the increment does not overflow `i32`. The read-back of the incremented number is stated only for prefixes shorter than 0x7FF0 characters, leaving room for the longer number within the `i16` length limit of `GetNumberEndingWith`.
- IntToString: requires i ≠ INT32_MIN, because `glm::abs` overflows there, and minChars ≤ 0xFFFF, the range of its `u16`.
- RoundUp: requires the intermediate `val + alignment - val % alignment` and `val + alignment` to fit in `i32`. It also requires alignment ≠ 0 and excludes INT32_MIN % −1, which are undefined in C++.
- NextNonAlphaNumeric: requires offset ≥ 0, because a negative offset reads before the string.
- PadStart, PadEnd: return the padded string instead of modifying their argument in place.
- Parse16u, Parse32u: take a byte sequence of at least 2 or 4 bytes instead of a raw pointer.
- StripFileType: requires a path that contains '.' to contain some other character, because `Split(filePath, '.')[0]` is read without a check.
- NextPowerOfTwo: requires x ≠ 0, the source's `assert`.
- CurrentLineNumber: requires an index of at least -1, because a lower index is read out of bounds.
- OpCodeFromBinaryOperatorType: its definition is not part of this model's sources. The model takes it from the disabled AST table `BinaryOperatorTypeToOpCode` in the comment block at VirtualMachine.cpp:1007-1073 (lines 1036-1058), which maps arithmetic and bitwise operators to their instruction and comparisons and connectives to `CMP`.
- Wrap32: the wrap-around of integer `+`, `-` and `*`, and of the difference `CMP` takes at VirtualMachine.cpp:751-754, is assumed. The `Value` operators are defined in a header that is not part of this model; if they are plain `i32` arithmetic, overflow there is undefined behaviour rather than a wrap, and `CmpThenJumpDecides` requires a difference that fits.
- IsSpace, IsDigit, IsAlpha: a Dafny `char` stands for one byte. A byte of 0x80 or above, which is undefined behaviour for `isspace`, `isdigit` and `isalpha` with a signed `char`, is taken as neither space, digit nor letter.
- Writable: `GetW`, which gives the destination an instruction writes to, is defined in a header that is not part of this model. The model takes it as defined only for a register operand. A MOV, arithmetic, ITF/FTI or POP instruction with a constant or absent destination therefore makes the run `Undefined`, whatever `GetW` does with it. The generator only emits register destinations.
- GenerateFromIRAsWritten: models only the `SplitNoStrip` overrun and the stale origins; it uses the corrected `FindIRType`.

## Findings

| source | as written | input that shows it | evidently intended | confidence | as-written member | corrected member |
|---|---|---|---|---|---|---|
| FlexEngine/src/Helpers.cpp:579-599 | After the last field, `++i` steps past `strLen`, so `i != strLen` never stops the loop and the string is read out of bounds | `SplitNoStrip("a", '\n')`, and any source text whose last line has no newline (VirtualMachine.cpp:537) | Stop at the end: the fields joined with the delimiter give back the input | high; not executed | Strings.SplitNoStripAsWritten, Strings.SplitNoStripOverrunsOnLastLine | Strings.SplitNoStrip |
| FlexEngine/src/VirtualMachine/Backend/VirtualMachine.cpp:214-218 | The `tmpVarTypes` iterator is compared with `variableTypes.end()`; comparing iterators of different containers is undefined, and this happens for every identifier that is not a declared variable | A cast of a temporary, or of an identifier with no declared or temporary type | Compare with `tmpVarTypes.end()`, so that a temporary gets its type and an untyped identifier gets the "unexpected type" diagnostic | high; not executed | CodeGen.FindIRTypeAsWritten, CodeGen.UntypedCastTargetIsUndefined, CodeGen.TemporaryCastTargetIsUndefined | CodeGen.FindIRType |
| FlexEngine/src/VirtualMachine/Backend/VirtualMachine.cpp:346-551 | `instructions` is cleared, but `instructionOrigins` is only appended to | Generating code twice on the same machine | Clear the origins with the instructions, so that `CurrentLineNumber` reports the new program's lines | medium; not executed | CodeGen.GenerateFromIRAsWritten, CodeGen.RecompileKeepsStaleOrigins | CodeGen.GenerateFromIR |
