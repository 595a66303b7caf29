# Verified models of the numeric core, the compiler and the data formats

The repository is a Ruby implementation in Go. This project models its most intricate computations in Dafny and proves
what each of them is for:

- **The ahead-of-time tier** (`Int64`, `Bits`, `Aot*`): integer expressions with three evaluators (Ruby's unbounded one,
  the checked one, the wrapping machine one), acceptance of a loop from intervals, from one period or by simulation, and
  the closed forms that replace accepted loops. `AotTimes`, `AotRange` and `AotWhileRuby` prove when an accepted plan
  prints what Ruby prints. Ruby's side is run on values there (`AotValues`, `AotWhileValues`): a local that nothing has
  assigned is nil or an unknown name, not zero. The promise fails for some accepted plans; `AotLimits` and
  `AotUnassigned` show them, and the main theorems are equivalences that say for which plans it holds. Two premises are
  one-way and are listed under "Left out". `AotComplete` proves the other direction: which safe loops are accepted, and
  the exact exceptions. `AotKernels`: on which plans each closed form answers.
- **The bytecode compiler** (`Bytecode`, `CodeGen`, `Scopes`, `Machine`, `SimulationSteps`, `Constructs`,
  `CompileCorrect`, `Landing`, `Patching`, `Emitter`, `CompileProgram`): a class that appends bytes, patches jumps in
  place and grows the constant pool and the slot table; a stack machine; and the proof that the emitted bytes do exactly
  what direct evaluation does. `Operators` states the laws of the operators both sides share. `Decompile`,
  `DecompileCorrect`, `DecompileSound` and `DecompileLimits`: the ahead-of-time tier reads such code back, and what it
  reads is what the accepted bytes do, but for stale reads and dropped statements.
- **Symbol tables** (`SymbolChain`, `SymbolTable`, `SymbolSlots`): the mutable chain of scopes, closure conversion, and
  the invariant that distinct names are distinct variables.
- **Matrices** (`Matrices`, `Lup`, `GaussJordan`, `MatrixPower`): the in-place algorithms, over the reals.
- **Calendars** (`MarchYears`, `Dates`, `DateOrder`, `WeekDates`): Julian day numbers, civil dates with a reform, ISO
  week dates.
- **BigDecimal** (`Digits`, `Decimals`, `DecimalText`, `DecimalForms`, `DecimalNumerals`, `DecimalReading`,
  `DecimalRounding`) and **CSV** (`Csv`, `CsvGrammar`, `CsvTexts`): printing, and what any text at all is read as.

Code that updates state in the repository is a class or a method over arrays here, and each such method is tied to a
function of its input or of the old state; the lemmas are about those functions. Ruby's integers are `int`, Go's `int64`
is a subset type with explicit wrap-around, and Go's truncating division is written out. A while loop of the compiled
language is evaluated with fuel, which counts iterations; the theorems about whole programs hold for every fuel.

## Model

| member | source | states |
|---|---|---|
| Bits.Word64IsBitwise | pkg/aot/execute.go:442-447 | and, or and exclusive or on 64-bit words, combined bit by bit and read back as signed, equal Ruby's operators on unbounded two's complement, for all machine integers |
| Bits.MaskIsMod | pkg/aot/execute.go:299-303 | a number with p & (p - 1) == 0 masks like a power of two: i & (p - 1) is i mod p for every i, negative ones included |
| Bits.MaskedIffPower | pkg/aot/execute.go:299-303 | that test recognizes exactly the powers of two |
| Bits.BitsAddUp | pkg/vm/executor.go:6514-6552 | for all integers the bits either number has and the bits both have add up to the two numbers, and the exclusive or is their difference |
| Int64.CorrectedRemainder | pkg/aot/compile.go:1522-1530 | the sign correction after Go's `%` gives the floored remainder, for every sign combination |
| AotChecked.MulGuardExact | pkg/aot/compile.go:1503-1521 | the division guards fire if and only if the product leaves int64 |
| AotChecked.ShiftGuardExact | pkg/aot/compile.go:1542-1553 | shifting left with wrap-around and back recovers the operand if and only if the exact product by 2^y fits int64 |
| AotChecked.CheckedOpExact | pkg/aot/compile.go:1491-1556 | one operator, checked: answers if and only if Ruby's value exists, the operands are legal and the value fits, and then with that value |
| AotChecked.CheckedExact | pkg/aot/compile.go:1454-1557 | the checked evaluator answers if and only if every node of the tree, calls included, has a Ruby value in int64; its answer is Ruby's value |
| AotChecked.UncheckedExact | pkg/aot/execute.go:410-455 | on those trees the wrapping evaluator returns Ruby's value too |
| AotInterval.OpSound | pkg/aot/compile.go:1305-1391 | operands in their intervals give a legal operation whose exact value is in the computed interval |
| AotInterval.OpComplete | pkg/aot/compile.go:1305-1391 | for sums, differences, products and remainders the interval exists if and only if the operator is legal and fits on every pair of operands; for the first three both ends are attained |
| AotInterval.IntervalSound | pkg/aot/compile.go:1283-1343 | if the interval of an expression exists, then on every environment within the local intervals the whole tree is safe and its value is in that interval |
| AotSelfDelta.SelfDeltaValue | pkg/aot/compile.go:1220-1254 | the update's Ruby value is acc + sign * delta, plus twice the wrapped terms when the sign is -1; it exists if and only if the delta's does |
| AotSelfDelta.SelfDeltaExactIff | pkg/aot/compile.go:1231-1251 | the rewriting keeps the value if and only if the sign is +1 or the terms wrapped around the innermost subtraction cancel |
| AotSelfDelta.LostInnerSign | pkg/aot/compile.go:1231-1251 | a concrete update, (acc - 1) + 3, whose rewriting changes its value |
| AotSelfDelta.UncheckedSelfDelta | pkg/aot/execute.go:428-433 | if the delta is safe, the machine value of the whole update is Ruby's value wrapped once, even when a partial sum such as acc + a overflows |
| AotLoops.IterationCountExact | pkg/aot/compile.go:1137-1172 | for every step but zero and the least integer: the closed form is the number of times the loop test succeeds, and it is absent only when that number leaves int64 |
| AotLoops.IterationCountMin | pkg/aot/compile.go:1150-1160 | for the least step the count is right if and only if exactly one unit of distance is left; otherwise it is 0 although the body runs |
| AotValidate.ValidateAffineLoop | pkg/aot/compile.go:1027-1135 | the one-pass validator, with its interval map and its sets of seen and processed locals, returns the verdict specified over the list of assignments; which loops it rejects is AotComplete.RejectedIff |
| AotCounted.AccumulatorRun | pkg/aot/compile.go:1080-1118 | after any number k of iterations of an accepted accumulator the machine state equals Ruby's, and the sum lies between initial + k * min and initial + k * max of the delta |
| AotCounted.IndependentRun | pkg/aot/compile.go:1120-1130 | the same agreement at every iteration for an accepted update that does not read the accumulator |
| AotCounted.IntervalAcceptanceSound | pkg/aot/compile.go:1027-1135 | interval acceptance is sound: at every iteration the wrapping machine loop equals Ruby's unbounded loop, and only the sum and the counter have moved, although the validator simulates nothing |
| AotCounted.WrappedRun | pkg/aot/compile.go:1084-1118 | interval acceptance of any self-delta, also one whose rewriting loses a sign: at every iteration neither run raises and the machine's accumulator is Ruby's wrapped to 64 bits |
| AotCounted.CallFreeIsIndependent | pkg/aot/compile.go:1269-1281 | for call-free updates acceptance itself rules out a hidden read of the accumulator |
| AotAffine.LinearValue | pkg/aot/execute.go:344-404 | the form a * c + b is Ruby's value for every counter value, through nested calls |
| AotAffine.CounterSumExact | pkg/aot/execute.go:306-329 | the halved product is the exact sum of the counter values, for every start, step and count, in spite of truncating division |
| AotAffine.AffineRun | pkg/aot/execute.go:306-329 | Ruby's accumulator after k iterations is initial + sign * total, off by exactly twice the lost wrapped terms |
| AotAffine.OuterIsAffine | pkg/aot/compile.go:1231-1251 | the terms wrapped around the innermost subtraction have the value of an affine form in the counter |
| AotAffine.OuterTotalIsLost | pkg/aot/compile.go:1231-1251 | their sum over Ruby's run is that form summed in closed form, so it is known before the loop runs |
| AotAffine.AffineKernelExactIff | pkg/aot/execute.go:306-329 | the closed form answers with the loop's result if and only if the sign is +1 or the lost terms, a closed form in start, step and count, sum to zero |
| AotPeriodic.DeltaValue | pkg/aot/execute.go:282-304 | a recognized periodic delta has the value counter mod period in all three evaluators, and its period is positive and at most 1000001 |
| AotPeriodic.PrefixCycles | pkg/aot/execute.go:259-270 | q periods and r steps total q period totals and the first r values |
| AotPeriodic.PeriodicRun | pkg/aot/execute.go:239-280 | Ruby's accumulator after k iterations of a periodic loop, for every k |
| AotPeriodic.PeriodicMachineRun | pkg/aot/execute.go:239-280 | while every prefix fits, the machine loop equals Ruby's |
| AotTimes.CheckedRunAgrees | pkg/aot/compile.go:619-638 | a surviving step-by-step simulation is at once Ruby's run and the machine's, whatever the update |
| AotTimes.ValidatePeriodicTimesPlan | pkg/aot/compile.go:645-716 | the prover that walks one period and the remainder, tracking extreme prefixes, accepts if and only if initial plus or minus q + 1 period totals fits int64 |
| AotTimes.ValidateTimesPlan | pkg/aot/compile.go:605-639 | intervals, then period, then bounded simulation: returns exactly the specified verdict, and always terminates; what it must accept is AotComplete.SafeTimesAccepted |
| AotTimes.PeriodicAcceptanceSound | pkg/aot/compile.go:645-716 | acceptance by the periodic prover implies that every prefix of the whole run fits int64 |
| AotTimes.ExecutePeriodicTimesPlan | pkg/aot/execute.go:239-280 | the kernel prints initial plus the signed total of all iterations, and leaves the frame unchanged when it declines |
| AotTimes.ExecuteTimesPlan | pkg/aot/execute.go:49-93 | closed form, else period kernel, else the wrapping loop over the frame, as specified |
| AotTimes.AcceptedLoopAgrees | pkg/aot/compile.go:605-639 | however a times plan was accepted, its machine loop equals Ruby's loop |
| AotTimes.AcceptedTimesPlanIsRuby | pkg/aot/compile.go:605-639 | an accepted times plan, also one whose block assigns its own parameter or whose update loses a sign, prints what Ruby prints if and only if PrintsRight: the parameter does not hide the printed local or the values coincide, the lost terms sum to zero, and what the loop would wrap fits int64 |
| AotTimes.ParameterPlanPrints | pkg/aot/source.go:1450-1469 | for a block that assigns its own parameter: Ruby keeps the outer local, and the plan prints it if and only if another local is printed, or the closed form's total of deltas is zero (without closed form: the last value is the initial one) |
| AotTimes.ParameterUpdateUnproven | pkg/aot/compile.go:1070-1073 | such a block is accepted from intervals if and only if the loop does not run; otherwise the simulation decides |
| AotTimes.AcceptedLoopWraps | pkg/aot/compile.go:1084-1118 | the loop of a plan accepted from intervals leaves Ruby's accumulator wrapped to 64 bits |
| AotRange.ValidateRangePlan | pkg/aot/compile.go:718-765 | the validator for `upto` and `downto`, both ends included, returns the specified verdict; what it must accept is AotComplete.SafeRangeAccepted |
| AotRange.ExecuteRangePlan | pkg/aot/execute.go:94-109 | closed form, else the wrapping loop with its exit test before the counter moves past an end of int64 |
| AotRange.AcceptedRangePlanIsRuby | pkg/aot/compile.go:718-765 | an accepted range plan prints what Ruby prints if and only if the loop does not run, or its block reads no unknown name, the closed form loses no sign, and a wrapped loop ends in int64 |
| AotRange.RubyRangeOutputIsRun | pkg/aot/source.go:1350-1373 | Ruby's loop over values raises when a running block reads a local that is neither initialized nor the parameter, and else is the loop on integers |
| AotValues.KnownRun | pkg/aot/source.go:1350-1373 | a loop whose update reads only known locals raises in Ruby exactly when the loop on integers does, and keeps its frame |
| AotValues.UnknownRun | pkg/aot/source.go:1350-1373 | a running loop whose update reads an unknown local raises in Ruby |
| AotWhile.SimulateWhile | pkg/aot/compile.go:1427-1447 | the simulation accepts if and only if some number of iterations within the limit of 100000000 ends the checked loop with a counter that advanced each time |
| AotWhile.SimulatedPlanAgrees | pkg/aot/compile.go:1427-1447 | a simulated while plan, with any body, stops as a loop on integers and on the machine after the same number of iterations in the same state; what Ruby makes of locals without initial value is AotWhileValues.NumbersOnlyIff |
| AotWhile.ValidateWhilePlan | pkg/aot/compile.go:1407-1448 | intervals on the first counter assignment, else simulation: returns exactly the specified verdict; what it must accept is AotComplete.SafeWhileAccepted |
| AotWhile.MatchKernel | pkg/aot/execute.go:135-162 | the scan of the body finds one counter step and one self-delta of the printed local, in either order, if and only if the body has that shape |
| AotWhile.ExecuteAffineWhilePlan | pkg/aot/execute.go:130-186 | the kernel prints the specified closed form and stores it in the frame, or declines and leaves the frame unchanged |
| AotWhile.ExecuteWhileLoop | pkg/aot/execute.go:110-121 | prints the local after exactly the iterations the machine loop makes, and prints nothing exactly when that loop panics or its counter stops advancing |
| AotWhile.ExecuteWhilePlan | pkg/aot/execute.go:49-121 | prints the closed form if the kernel answers, else what the machine loop leaves, and prints nothing exactly when that loop never stops properly |
| AotWhileSound.WhileIsCounted | pkg/aot/execute.go:130-186 | a two-assignment body iterated is a counted loop, with the counter one step ahead when the accumulator comes first |
| AotWhileSound.AffineWhileExactIff | pkg/aot/execute.go:130-186 | the loop on integers stops after the computed count, and the while kernel's answer is what it leaves if and only if it does not run, the sign is +1, or the lost terms, in closed form, sum to zero; both assignment orders |
| AotWhileInterval.EachAccepted | pkg/aot/compile.go:1062-1130 | an accumulator accepted among others whose locals it does not read is accepted alone, and no local is written twice |
| AotWhileInterval.PartsIterate | pkg/aot/execute.go:110-121 | while the counter fits, the iterated body is the accumulators' own counted loops side by side, in Ruby and on the machine |
| AotWhileInterval.WhileIntervalSound | pkg/aot/compile.go:1027-1135 | interval acceptance of any number of accumulators followed by the counter step: the loop on integers stops after the computed count, and the machine's loop stops at all if and only if the counter's last value is in int64, then after the same iterations in the same state |
| AotWhileRuby.AcceptedWhilePlanIsRuby | pkg/aot/compile.go:1407-1448 | an accepted while plan within the premises prints what Ruby prints if and only if the run meets only numbers and the closed form loses no sign, or the loop accepted from intervals keeps its counter in int64 |
| AotWhileValues.NumbersOnlyIff | pkg/aot/source.go:190-215 | where the loop on integers stops, Ruby prints an integer if and only if no iteration raises on nil or an unknown name, the counter stays an integer and the printed local ends as one; and then it is the same integer |
| AotWhileValues.AssignedFirstIsNumeric | pkg/aot/source.go:190-215 | if every local read is initialized or assigned above in the body, only numbers are met if and only if the loop runs or the printed local is initialized |
| AotWhileValues.StrictIff | pkg/aot/source.go:190-215 | for plain arithmetic that condition on the text is exact: a running loop meets only numbers if and only if every local is assigned before it is read |
| AotWhileValues.NumericSettles | pkg/aot/source.go:190-215 | which locals hold integers no longer changes once one iteration has not changed it, so the condition is decided without running the loop |
| AotLimits.AcceptedWithLostSign | pkg/aot/compile.go:1231-1251 | an accepted times plan that prints 2 where Ruby prints 14 |
| AotLimits.AcceptedSelfCall | pkg/aot/compile.go:1273-1275 | an accepted plan that reads its accumulator inside a call and wraps to the least integer |
| AotLimits.AcceptedParameterUpdate | pkg/aot/source.go:1450-1469 | an accepted times plan whose block assigns its own parameter: it prints 6 where Ruby prints 5 |
| AotLimits.AcceptedCounterFirst | pkg/aot/compile.go:1056 | the counter's interval ends at its value in the last iteration before the step: an accepted while plan that steps its counter first and divides by zero in its last iteration |
| AotLimits.AcceptedFinalRange | pkg/aot/compile.go:1106-1115 | a later assignment is checked against an accumulator's final range only: an accepted while plan wraps and prints a number with the wrong sign |
| AotLimits.AcceptedCounterOverflow | pkg/aot/compile.go:1174-1184 | an accepted while plan whose counter leaves int64: Ruby stops after one iteration, the machine counter wraps and never gets there |
| AotUnassigned.AcceptedNilAccumulator | pkg/aot/source.go:190-215 | an accepted while plan that adds to a local never assigned before: it prints 1, Ruby raises |
| AotUnassigned.AcceptedUnreached | pkg/aot/source.go:190-215 | an accepted while plan whose loop never runs and whose printed local only the loop assigns: it prints 0, Ruby an empty line |
| AotUnassigned.AcceptedUnknownName | pkg/aot/source.go:1350-1373 | an accepted range plan whose block reads an unknown name: it prints 0, Ruby raises |
| AotUnassigned.AcceptedMovingLimit | pkg/aot/source.go:150-165 | an accepted while plan whose body assigns the limit: it prints 2, Ruby 1; the bytecode builder at pkg/aot/compile.go:257-263 rejects such a body |
| AotComplete.RejectedIff | pkg/aot/compile.go:1027-1048 | a loop that runs n times is rejected outright, whatever its body, if and only if n is over 100000000 and in int64 |
| AotComplete.SafeIsSimulated | pkg/aot/compile.go:619-638 | if every counter value is in int64 and the update is safe on Ruby's frame of each iteration, the checked simulation survives, in Ruby's states |
| AotComplete.SafeRangeAccepted | pkg/aot/compile.go:718-765 | a range loop of at most 100000000 safe iterations is accepted; a longer one is refused |
| AotComplete.SafeTimesAccepted | pkg/aot/compile.go:605-639 | a times loop of at most 100000000 safe iterations is accepted if and only if the periodic prover's extra period does not overflow, or the intervals decide before it; a longer one is refused |
| AotComplete.PeriodicAffineIff | pkg/aot/compile.go:1080-1118 | the interval prover accepts a periodic loop exactly for deltas written as a remainder whose widest total fits int64 |
| AotComplete.PeriodicRejectedIff | pkg/aot/compile.go:645-716 | the periodic prover rejects exactly the periodic loops whose initial value plus or minus one period more than the run contains leaves int64 |
| AotComplete.RecognizedIff | pkg/aot/execute.go:282-304 | the deltas recognized as periodic are the counter modulo m, for m from 1 to 1000000, and the counter masked with m - 1, for a power of two from 2 to 1000000 |
| AotComplete.SafeWhileAccepted | pkg/aot/compile.go:1407-1448 | a while loop that stops after at most 100000000 safe iterations, its counter advancing in each, is accepted if and only if the count computed from its first counter assignment is not over the limit |
| AotComplete.IntervalsAreShort | pkg/aot/compile.go:1027-1135 | a while loop accepted from intervals stops after at most 100000000 iterations |
| AotComplete.LongWhileRefused | pkg/aot/compile.go:1407-1448 | a while loop that stops after more than 100000000 iterations is refused |
| AotComplete.RefusedPeriod | pkg/aot/compile.go:645-716 | a times plan of one safe iteration that is refused for its extra period |
| AotComplete.RefusedCount | pkg/aot/compile.go:1407-1425 | a while plan of one safe iteration that is refused because its first counter assignment promises a thousand million |
| AotKernels.SelfDeltaIff | pkg/aot/compile.go:1220-1254 | the updates recognized are exactly the accumulator with one operand added or one subtracted, inside sums and differences that do not read it again |
| AotKernels.CounterStepIff | pkg/aot/compile.go:1186-1219 | a counter step is recognized exactly as the counter plus a positive constant, in either order |
| AotKernels.LinearIff | pkg/aot/execute.go:344-404 | the trees with an affine form are exactly constants and the counter under sums, differences, negations, calls of such methods, and products of which one factor has the same value at counters 0 and 1 |
| AotKernels.AccumulatorAnswersIff | pkg/aot/execute.go:306-329 | the closed form answers v if and only if the delta is such a tree and v, a machine integer, is the initial value with Ruby's deltas of all iterations added, or all subtracted |
| AotKernels.TimesAnswersIff | pkg/aot/execute.go:188-207 | the kernel for times plans answers exactly there, and with the initial value if the loop does not run |
| AotKernels.RangeAnswersIff | pkg/aot/execute.go:209-237 | the same for range plans whose number of iterations is in int64 |
| AotKernels.PeriodicAnswersIff | pkg/aot/execute.go:239-280 | the period kernel answers v if and only if the loop is periodic and v, a machine integer, is the initial value plus or minus the sum of the counters modulo the period |
| AotKernels.WhileAnswersIff | pkg/aot/execute.go:130-186 | the while kernel answers exactly for the two-assignment bodies, in both orders, whose last counter value is in int64, with the deltas summed from the counter or from one step ahead |
| Bytecode.Make | pkg/compiler/bytecode.go:7-40 | the buffer filled operand by operand holds the opcode and the big-endian operands |
| Bytecode.DecodeEncode | pkg/compiler/bytecode.go:7-40 | an encoded instruction is read back at its position, whatever bytes surround it |
| Bytecode.FlattenHolds | pkg/compiler/bytecode.go:7-40 | every instruction of a flattened program is read back at its own offset |
| CodeGen.ChainTarget | pkg/compiler/compiler.go:905-935 | the code size and the tables of an elsif chain do not depend on the jump target still to be patched |
| Scopes.GenGrows | pkg/compiler/compiler.go:1250-1256 | compiling only appends to the tables, the names defined are exactly the ones the expression assigns, and neither a name nor a constant is entered twice |
| Emitter.Compiler.ChangeOperand | pkg/compiler/compiler.go:3706-3718 | exactly the two operand bytes of one jump change |
| Emitter.Compiler.AddConstant | pkg/compiler/compiler.go:3611-3625 | a pooled integer keeps its index, a new one gets the next, and the index map stays consistent with the pool |
| Emitter.Compiler.ResolveOrDefine | pkg/compiler/compiler.go:1250-1256 | the slot of a known local, or the next free one; all other slots stay |
| Emitter.Compiler.CompileLogical | pkg/compiler/compiler.go:748-772 | the bytes after back-patching are those of the short-circuit code with its final target, whatever code precedes |
| Emitter.Compiler.CompileIf | pkg/compiler/compiler.go:877-936 | `if` and `unless` with any number of elsif branches: after all jumps are patched the bytes are those of the nested branches with one common end |
| Emitter.Compiler.CompileLogicalAssign | pkg/compiler/compiler.go:1258-1279 | both placeholders of a logical assignment end up at the end of the assignment |
| Emitter.Compiler.CompileOpAssign | pkg/compiler/compiler.go:1281-1367 | load, operand, operator, store, on the slot resolved before the operand is compiled |
| Emitter.Compiler.CompileWhile | pkg/compiler/compiler.go:2087-2136 | test, loop-end marker, body, jump back, nil: both forward targets patched to the position after the body |
| Emitter.Compiler.CompileValue | pkg/compiler/compiler.go:3133-3180 | all statement values but the last are popped; an empty block is nil |
| Emitter.Compiler.CompileExpr | pkg/compiler/compiler.go:444-936 | for every node the bytes appended and the tables left are those of the code generator, and nothing already emitted changes |
| Patching.PatchIf | pkg/compiler/compiler.go:931-935 | patching the recorded exit positions turns the chain compiled with placeholders into the chain compiled for the end |
| Patching.PatchLoop | pkg/compiler/compiler.go:2096-2121 | patching the test jump and the loop-end marker, one after the other, gives the loop with both targets set |
| Constructs.LogicalSim | pkg/compiler/compiler.go:748-772 | on the machine the short-circuit pattern yields the left value or runs the right code, with one value pushed |
| Constructs.BranchSim | pkg/compiler/compiler.go:877-936 | on the machine the branch pattern runs exactly one of its two arms |
| Constructs.LoopSim | pkg/compiler/compiler.go:2087-2136 | on the machine the loop pattern repeats test and body and ends with nil, one unit of fuel per iteration |
| CompileCorrect.SimExpr | pkg/compiler/compiler.go:444-936 | from any state with matching locals, on any stack, the code of an expression ends with exactly one more value, the one evaluation gives, and matching locals; or raises, or is still running, as evaluation does |
| CompileCorrect.SimBlock | pkg/compiler/compiler.go:466-470 | statements leave the stack as it was |
| CompileCorrect.SimValue | pkg/compiler/compiler.go:3133-3180 | a block compiled as a value pushes exactly the value of its last statement |
| CompileCorrect.SimChain | pkg/compiler/compiler.go:905-935 | an elsif chain pushes the value of the branch taken |
| CompileCorrect.SimWhile | pkg/compiler/compiler.go:2087-2136 | the loop's code follows evaluation through every iteration, for every fuel |
| CompileProgram.CompileProgram | pkg/compiler/compiler.go:454-465 | a fresh compiler emits exactly the generated bytes and constant pool |
| CompileProgram.JumpsLand | pkg/compiler/compiler.go:3706-3718 | every jump of a compiled program lands on the start of one of its instructions or at its end, and every slot and constant index is within the tables |
| CompileProgram.EvaluationIsRun | pkg/compiler/compiler.go:444-470 | the emitted bytes, decoded and run from the start, finish with evaluation's locals and an empty stack, raise when it raises, and outlast any fuel it outlasts |
| CompileProgram.RunIsEvaluation | pkg/compiler/compiler.go:444-470 | conversely, a run that stops stopped as evaluation does, never in a stuck state |
| CompileProgram.StopsIff | pkg/compiler/compiler.go:444-470 | the machine stops if and only if evaluation ends |
| Operators.OrderIsAddition | pkg/vm/executor.go:6483-6510 | less-than on integers is the order that adding positive numbers gives: total, irreflexive, asymmetric |
| Operators.Comparisons | pkg/vm/executor.go:6455-6510 | the other three comparisons are that one mirrored and negated |
| Operators.Equality | pkg/vm/executor.go:6433-6454 | equality on integers, booleans and nil is an equivalence that never raises and tells the kinds apart; inequality is its negation |
| Operators.Division | pkg/vm/executor.go:6390-6407 | quotient and remainder put the dividend together, the remainder lies between zero and the divisor on the divisor's side, and both raise on zero |
| Operators.RaisesIff | pkg/vm/executor.go:6341-6552 | an operator raises exactly on a division by zero and on operands of the wrong kind |
| Operators.LogicalBits | pkg/vm/executor.go:6514-6552 | on nil and booleans the bit operators are conjunction, disjunction and exclusive disjunction of truth |
| Operators.BranchTaken | pkg/object/value.go:520-535 | a conditional jump is taken on exactly nil and false |
| Decompile.ParseBody | pkg/aot/compile.go:915-968 | the loop over the bytes with its expression stack returns the specified list, or none; what a list says about its bytes is DecompileSound.ParsedIsBytes |
| DecompileCorrect.ParseInvertsCompile | pkg/aot/compile.go:915-968 | parsing the bytes compiled from plain and compound local integer assignments gives back the same locals with the same trees, in order, wherever the bytes stand |
| DecompileCorrect.ValuesOperate | pkg/vm/executor.go:6341-6552 | the values that a Ruby loop of the ahead-of-time tier works on, nil included, are operated on as by compiled code |
| DecompileCorrect.ParsedBodyRuns | pkg/aot/compile.go:915-968 | running the parsed list on integers is evaluating the body |
| DecompileCorrect.ParsedBodyIsStackCode | pkg/aot/compile.go:915-968 | running the parsed list is running the stack code: the bytecode ends with the frame the list computes, or raises when the list does |
| DecompileSound.StepIsInstr | pkg/aot/compile.go:915-968 | on any bytes one step of the parser accepts exactly the instructions that the virtual machine decodes there, of the kinds allowed and within the body, and does to its trees what they do to values; every other byte ends the parse |
| DecompileSound.ParsedIsBytes | pkg/aot/compile.go:915-968 | for any bytes the parser accepts, compiled or not, that neither read a local stored since on their stack nor drop an expression that can raise: the machine run over them from any integer frame ends with the stack as it was and the frame the list computes, or raises when the list raises |
| DecompileLimits.StaleReadIff | pkg/aot/compile.go:915-968 | the accepted body y = x + (x = c) is read as y = c + c: the machine and the list agree if and only if x is already c |
| DecompileLimits.DroppedRaiseIff | pkg/aot/compile.go:915-968 | the accepted body x % d; x = 1 is read without its first statement: the machine raises if and only if d is zero, the list never |
| SymbolChain.ResolveIsLexical | pkg/compiler/compiler.go:216-252 | a name resolves if and only if it has a lexical definition, and the capture chain of the resolved symbol ends at the innermost one |
| SymbolChain.ResolveKeepsMeaning | pkg/compiler/compiler.go:216-252 | resolving keeps the variable of every symbol handed out before and of every name, and the invariant of the tables |
| SymbolChain.ResolveIsIdempotent | pkg/compiler/compiler.go:216-252 | resolving a name twice changes nothing more and gives the same symbol |
| SymbolChain.LocalsStayInMethod | pkg/compiler/compiler.go:218-226 | a local that is found is never across a method boundary |
| SymbolChain.DefineIsLexical | pkg/compiler/compiler.go:170-175 | a new definition is the innermost one of its name, on the next slot, and no other name changes; that nothing else denotes this slot is SymbolSlots.DefineIsFresh |
| SymbolChain.EncloseIsLexical | pkg/compiler/compiler.go:164-168 | a new block scope sees what its surroundings see; a method scope sees only globals and builtins |
| SymbolChain.CapturePushesCells | pkg/compiler/compiler.go:4599-4618 | the instruction emitted for a captured symbol pushes exactly the cell the inner scope's free slot stands for |
| SymbolSlots.DefineKeepsSlots | pkg/compiler/compiler.go:170-175 | defining a name keeps the slot invariant: every local or global of a scope is below its count, and no two of its names share a slot |
| SymbolSlots.DefineIsFresh | pkg/compiler/compiler.go:170-175 | a new local is a variable that no symbol handed out before denotes, and all of those keep theirs |
| SymbolSlots.GlobalIsFresh | pkg/compiler/compiler.go:420-429 | the same for a global defined at the root under a new name |
| SymbolSlots.BuiltinIsLexical | pkg/compiler/compiler.go:188-192 | a builtin is what its name denotes from then on, under the number given, and no other name changes |
| SymbolSlots.ResolveKeepsSlots | pkg/compiler/compiler.go:216-252 | resolving keeps the slot invariant, and the symbol it returns is within it |
| SymbolSlots.ResolveKeepsIssued | pkg/compiler/compiler.go:216-252 | symbols handed out before stay within the invariant |
| SymbolSlots.EncloseKeepsSlots | pkg/compiler/compiler.go:164-168 | opening a scope keeps it |
| SymbolSlots.RunsAreLexical | pkg/compiler/compiler.go:164-252 | over every run of definitions, globals, resolutions and scopes opened and closed, both invariants hold, and two different names in sight are different variables unless builtins |
| SymbolTables.SymbolTable.Resolve | pkg/compiler/compiler.go:216-252 | the recursive method over the mutable chain leaves the chain and returns the symbol that the specification gives |
| SymbolTables.SymbolTable.DefineFree | pkg/compiler/compiler.go:201-214 | the captured symbol is appended to the free list and stored under its name with that index |
| SymbolTables.CaptureFor | pkg/compiler/compiler.go:3126-3129 | the cells pushed for a closure are, in free-slot order, the variables its free symbols denote |
| Matrices.Multiply | pkg/core/matrix_algebra.go:105-147 | the product loops give the matrix product, or the dimension error when the inner sizes differ |
| Matrices.Associative | pkg/core/matrix_algebra.go:90-147 | the modelled product is associative for all sizes |
| Lup.Decompose | pkg/core/matrix_decomposition.go:77-137 | for every real matrix, square or not, of any rank: L * U = P * A, L is unit lower triangular, U is zero below the diagonal, P is a permutation matrix |
| Lup.SwapStage | pkg/core/matrix_decomposition.go:112-118 | exchanging two rows of U and P and the factors of L keeps the invariant that row i of L * U is row perm[i] of A |
| Lup.EliminateStage | pkg/core/matrix_decomposition.go:119-132 | eliminating one row and recording its factor keeps it |
| GaussJordan.Invert | pkg/core/matrix_algebra.go:253-310 | the dimension error exactly for non-square input; an answer is a two-sided inverse; the not-regular error only for a matrix with a nonzero kernel vector |
| GaussJordan.InvertSquare | pkg/core/matrix_algebra.go:253-310 | a square matrix is inverted if and only if it sends no nonzero vector to zero |
| GaussJordan.NoPivotIsSingular | pkg/core/matrix_algebra.go:268-282 | a column without pivot yields a concrete nonzero vector that the matrix sends to zero |
| GaussJordan.InverseHasNoKernel | pkg/core/matrix_algebra.go:253-310 | a matrix with a left inverse sends no nonzero vector to zero |
| GaussJordan.Solve | pkg/core/matrix_decomposition.go:181-204 | solving succeeds if and only if the sizes agree and the matrix is regular; the answer x satisfies A * x = b and is the only one |
| MatrixPower.PowerLoop | pkg/core/matrix_algebra.go:195-211 | squaring computes the repeated product for every non-negative exponent |
| MatrixPower.Power | pkg/core/matrix_algebra.go:178-212 | a non-negative power is the repeated product; a negative one is the two-sided inverse of the positive power; for the least int64, whose negation wraps, the result is the identity |
| Dates.GregorianRoundTrip | pkg/core/date.go:1246-1286 | every integer day number converts to a valid civil date in the year it lies in, and back |
| Dates.JulianRoundTrip | pkg/core/date.go:1253-1286 | the same in the Julian calendar |
| Dates.GregorianValidIff | pkg/core/date.go:1227-1310 | under the Gregorian start a date is accepted if and only if its month and day exist by the month-length table |
| Dates.JulianValidIff | pkg/core/date.go:1227-1310 | under the Julian start likewise |
| Dates.RoundTripIff | pkg/core/date.go:1227-1286 | for any start, a day number survives the trip through its date if and only if it is reformed or the Gregorian number of its Julian date lies before the reform |
| Dates.RoundTripForAllIff | pkg/core/date.go:1227-1286 | an integer start round-trips every day if and only if it is later than day 1794168 |
| Dates.LibraryStartsRoundTrip | pkg/core/date.go:16-17 | the four starts of the library round-trip every integer day |
| Dates.AcceptedIff | pkg/core/date.go:1227-1244 | under an integer start a date is accepted if and only if it exists in the calendar that applies and is not one of the skipped days |
| Dates.ItalySkips | pkg/core/date.go:1227-1244 | the skipped days are exactly 5 to 14 October 1582, and they are rejected |
| Dates.EnglandSkips | pkg/core/date.go:1227-1244 | the skipped days are exactly 3 to 13 September 1752, and they are rejected |
| DateOrder.OrderIff | pkg/core/date.go:1227-1286 | under an integer start, later days have later dates, for every pair of days, if and only if the start is not before day 1794168 |
| DateOrder.AcceptedOrder | pkg/core/date.go:1427-1448 | comparing the numbers of two accepted dates compares year, month and day, across the reform too |
| WeekDates.YearDay | pkg/core/date.go:1354-1361 | the loop over month lengths, under any start: it gives the days since New Year's Day, plus one, if and only if both dates are counted in one calendar or the drift between the calendars is the leap day only one of them has |
| WeekDates.YearDayIff | pkg/core/date.go:1298-1310 | that equivalence for every start and date, about the sum of month lengths |
| WeekDates.ReformYearDay | pkg/core/date.go:1354-1361 | under the default start 15 October 1582 is counted as day 288, although 277 days separate it from New Year's Day |
| WeekDates.FiftyTwoOrThree | pkg/core/date.go:610-642 | each year has 52 or 53 weeks, and they end where the next year's begin (section 4.1.4 of ISO 8601:2004) |
| WeekDates.WeekYearIff | pkg/core/date.go:1375-1389 | the week year of a day is the one whose weeks contain it |
| WeekDates.WeekRoundTrip | pkg/core/date.go:1375-1389 | every integer day survives the trip through its week date, whose week is one of its year's |
| WeekDates.WeekConvertsBack | pkg/core/date.go:610-642 | every accepted week date comes back, with negative weeks and days counted from the end |
| WeekDates.WeekConvertsBackIff | pkg/core/date.go:610-642 | under any start an accepted week date has the weekday asked for, and comes back as the week asked for if and only if the 4th of January, counted by that start, lies in the Gregorian week 1 and the Gregorian year has that many weeks |
| WeekDates.ItalyWeeks | pkg/core/date.go:596-642 | from 1583 on the default start gives the Gregorian week dates, accepted and rejected alike |
| WeekDates.ReformWeek | pkg/core/date.go:610-642 | under the default start the first week of 1582 comes back as the second |
| Digits.CompareIsNumeric | pkg/core/bigdecimal.go:564-598 | comparing digit strings of equal length is comparing their numbers |
| Decimals.NormalizeLoop | pkg/core/bigdecimal.go:468-485 | the loop strips exactly the factors of ten |
| Decimals.NormalizeKeepsValue | pkg/core/bigdecimal.go:468-485 | the result is canonical, has the same rational value and the same sign |
| Decimals.CanonicalUnique | pkg/core/bigdecimal.go:468-485 | two canonical forms of the same rational are identical |
| Decimals.CmpIsNumeric | pkg/core/bigdecimal.go:564-598 | comparison by length, exponent and padded digit strings is the order of the rationals, for all finite values |
| Decimals.CmpIsOrder | pkg/core/bigdecimal.go:564-619 | with the infinities too: below, above and equal are the order of the numbers with an infinity at either end |
| Decimals.EqualFeedsSameHash | pkg/core/bigdecimal.go:855-868 | canonical values that compare equal have the same coefficient and exponent and feed the hash the same bytes, the two zeros included |
| DecimalForms.SameHashIff | pkg/core/bigdecimal.go:855-868 | two canonical values, neither of them NaN, feed the hash the same bytes if and only if they compare equal |
| DecimalForms.ToSShape | pkg/core/bigdecimal.go:621-685 | the default form of a nonzero number is 0.digits and an exponent, with no zero at either end of the digits, and the exponent is the number's magnitude |
| DecimalForms.FixedShape | pkg/core/bigdecimal.go:302-317 | the fixed form is digits, a point and digits, with no zero that could be left out |
| DecimalText.ToSRoundTrip | pkg/core/bigdecimal.go:621-685 | parsing the default form gives back the same value, with the sign of zero, infinities and NaN; what other texts parse to is DecimalReading.ParseIff |
| DecimalText.FixedRoundTrip | pkg/core/bigdecimal.go:302-317 | parsing the fixed-point form gives back the same value for every finite canonical decimal |
| DecimalReading.ParseIff | pkg/core/bigdecimal.go:380-466 | for every text: it parses to a decimal if and only if, without surrounding white space, it is a word for NaN or an infinity, or an optional sign and a numeral, with underscores between digits, that denotes this decimal, or whose exponent leaves int64 and the decimal is then an infinity or zero; every other text is refused |
| DecimalReading.DenotesOne | pkg/core/bigdecimal.go:439-466 | a numeral denotes one canonical decimal: its signed digits times ten to the exponent minus the number of fraction digits |
| DecimalReading.IntegerParses | pkg/core/bigdecimal.go:380-466 | the digits of a number, with or without a sign, parse to that number |
| DecimalNumerals.SpreadIsFine | pkg/core/bigdecimal.go:401-406 | underscores put between digits pass the check and are removed again |
| DecimalNumerals.Gather | pkg/core/bigdecimal.go:401-406 | and every text that passes the check is such a text |
| DecimalRounding.RoundQuotientRounds | pkg/core/bigdecimal.go:1410-1453 | the adjusted quotient names the multiple of the unit its mode asks for: within one unit on the demanded side, or within half a unit with ties as named |
| DecimalRounding.RoundsUnique | pkg/core/bigdecimal.go:1410-1453 | no other multiple has that property, so it determines the result |
| DecimalRounding.RoundPlacesIsCorrect | pkg/core/bigdecimal.go:1410-1453 | on rational values, in all seven modes, for any number of places: a multiple of 10^(-places) with the property above |
| DecimalRounding.RoundPlacesIsNormal | pkg/core/bigdecimal.go:1410-1453 | rounding keeps the canonical form, and a negative value that rounds to zero gives negative zero |
| DecimalRounding.RoundSignificantDigits | pkg/core/bigdecimal.go:1455-1461 | rounding to n significant digits never leaves more than n, even when a carry ripples through all nines |
| DecimalRounding.RoundSignificantRounds | pkg/core/bigdecimal.go:1455-1461 | a number between 10^(m-1) and 10^m is rounded, as its mode asks, to a multiple of 10^(m-n): the same meaning as for places |
| Csv.GenerateLine | pkg/core/csv.go:157-184 | fields with a separator, quote or line break are quoted with quotes doubled (section 2 of RFC 4180), nil is empty, the fields are joined |
| Csv.Parse | pkg/core/csv.go:244-351 | the byte loop over its seven state variables returns what the transition function gives, malformed input included; what that is for any text is CsvTexts.ParsedIff and CsvTexts.MalformedIff |
| Csv.ParseGenerated | pkg/core/csv.go:244-351 | parsing any written rows succeeds and gives them back, with an empty string read as nil and a row of one empty field as an empty row |
| Csv.RoundTripIff | pkg/core/csv.go:157-184 | the round trip is exact if and only if no field is an empty string and no row is a single nil |
| CsvTexts.ParsedIff | pkg/core/csv.go:244-351 | any text parses to rows if and only if it is the text of a document of records and cells, by a grammar that knows no parser state, and the rows are what the document says; the last row needs no line break |
| CsvTexts.MalformedIff | pkg/core/csv.go:299-346 | a text is malformed if and only if parsing is strict and a quote stands inside a field, something other than a separator or line break follows a closing quote, or a quote is left open |
| CsvTexts.BreaksAlike | pkg/core/csv.go:303-329 | LF, CR and CRLF between the same records parse alike |
| CsvTexts.BreakAdded | pkg/core/csv.go:347-349 | a text that ends in a row outside quotes parses like the same text with a line break added |
| CsvTexts.StrictBreakAdded | pkg/core/csv.go:344-349 | in strict mode that holds for every text that does not end in a line break, also the malformed ones |
| CsvTexts.LiberalExtendsStrict | pkg/core/csv.go:299-346 | what strict parsing accepts, liberal parsing reads alike |
| CsvTexts.OpenQuoteEnds | pkg/core/csv.go:344-349 | a quote left open in liberal mode: its text is the last field, but if it ends in a line break the whole row is lost |
| CsvTexts.QuotedIff | pkg/core/csv.go:157-184 | a field is written as it is if and only if it has no separator, quote or line break; otherwise it is quoted |

## Left out

- AotTimes.AcceptedTimesPlanIsRuby: assumes that an update accepted from intervals does not hide a read of its accumulator inside a call (AotLimits.AcceptedSelfCall shows one that does). No condition short of running such an update is known: it is a recurrence through an arbitrary method body.
- AotRange.AcceptedRangePlanIsRuby: the same premise, for the same reason. In both theorems a loop that lost a sign and has no closed form is right exactly when Ruby's result fits int64.
- AotWhileRuby.AcceptedWhilePlanIsRuby: assumes that the body does not assign the limit (AotUnassigned.AcceptedMovingLimit), and that a running loop accepted from intervals and not answered by the closed form is accumulators that read no other written local, then the counter step. Outside it the intervals no longer cover the values read (AotLimits.AcceptedCounterFirst, AotLimits.AcceptedFinalRange), and whether the run still succeeds depends on the values themselves. Plans accepted by simulation may have any body.
- AotLimits.AcceptedSelfCall: shown as an instance; SoundUpdate is sufficient for acceptance to be sound, not necessary.
- AotLimits.AcceptedCounterFirst: likewise; AotWhileInterval.IntervalShape is sufficient, not necessary.
- DecompileSound.ParsedIsBytes: one-way. Whether a stale read changes the result can depend on coincidences of the arithmetic around it, such as a later product with zero; DecompileLimits.StaleReadIff and DecompileLimits.DroppedRaiseIff decide it exactly for two families.
- DecimalReading.ParseIff: exponents are unbounded after the check that they fit int64; Go subtracts the fraction length and adds the stripped zeros in an int, which wraps within that distance of its ends.
- CsvTexts.ParsedIff: the separator is one character, not a quote or a line break.
- DecimalText.ToSRoundTrip: the digit count plus the exponent must fit a machine integer, because Go adds them in one before printing.
- Recognizing plans in the syntax tree or in whole programs' bytecode, the generated Go text, and the string, collection, object and document plans of the ahead-of-time tier.
- Compiler nodes other than integers, booleans, nil, locals, the binary operators of `Bytecode.BinOp`, `!`, unary minus, logical and and or, ternary, if/unless/elsif/else, plain, compound and logical local assignment, and while: calls, `**`, shifts, strings, floats, break/next/redo, loops with the test at the end, rescue, pattern matching, multiple assignment.
- Names read before any assignment in the text: they compile to method calls, which are not part of this model.
- Line maps, last-instruction bookkeeping, and the fast paths by which the virtual machine executes integer operators; operators on values other than integers, booleans and nil.
- A second parameter named `_`, and the outer-frame scopes that the compiler assigns outside SymbolTable.Resolve.
- Matrix elements are reals: rounding of floats, complex and rational elements, coercion, and Ruby method dispatch on elements.
- Real and floating-point exponents of a matrix; determinant, rank, eigenvalues and norms.
- Dates with fractional or floating starts, wrap-around of day numbers near the ends of int64, ordinal and weekday-of-month constructors, parsing, formatting and time zones.
- The precision field of a BigDecimal, its division, roots and logarithms, the options of to_s for grouping and signs, and conversion from floats and rationals.
- CSV options (headers, converters, column separators of several bytes, quote characters), files and encodings.
- Exceptions as Ruby objects: a raise is a value here.
