# T0 back end and leak classifier: a verified model

This project models two parts of the repository and proves what they promise.

**The back end of the T0 compiler** (`apps/bearssl-0.6/T0`). T0 is a Forth-like language; its compiler turns words
into a byte string that a generated C loop interprets. The model follows the compiler from the builder to the C loop:

- `Opcodes`, `Machine`, `Cpu`: stack effects, opcodes, the machine that runs them at compile time, and the CPU object.
- `Builder`, `Labels`, `Structured`: the word builder with its control-flow stack, what any of its calls mean, and how the
  structured code that it makes runs.
- `Flow`, `FlowCert`, `FlowReject`, `FlowQueue`, `Analyser`, `FlowExact`, `FlowSound`, `FlowBounds`: the
  interprocedural flow analysis, what acceptance and rejection mean, its work queue, the loop over arrays, what it records
  exactly, soundness over all runs, and what the recorded bounds are worth.
- `Generate`, `DataLink`, `CodeElements`, `SevenE`, `FixedWidth`, `Stream`: reference closure, data addresses, slots, the
  layout loop, the variable-length and fixed-width integers, and decoding of the emitted bytes.
- `Runner`, `Simulation`, `Locals`, `EndToEnd`: the generated C program, meaning preservation, locals written before
  they are read, and the theorem that joins these with the flow analysis.
- `Literal`, `CharReader`, `ConstData`: literals, newline conversion with pushback, constant data.

**The leak classifier** (`scripts/stats.py`, `scripts/Microarchitecture.py`), in `Uarch`, `Tally` and `Candidates`:
comparison of microarchitectural states, tallies per key class, and the states that tell a class from all others.

The main results are `EndToEnd.AcceptedRunsInC`, `Simulation.SimRun`, `FlowSound.FlowSoundness`,
`FlowBounds.RecordedExact`, `FlowReject.RejectedHasNone`, `FlowQueue.AcceptedExactly`,
`CodeElements.Layout`, `Stream.StreamDecodes`, `Builder.BuilderClosure`, `Labels.BuilderMeans`,
`Structured.StructuredRuns`, `Generate.Gather` and `Candidates.Classify`.

An exception of the source is a failure value. The C code of native words is a parameter: a function on the data
stack. The soundness theorems ask that it respect the declared effect, of those native words only that the running
word can reach.

## Where the code does less than its documentation says

- The default `MaxDataStack` of words without opcodes uses `Math.Min(0, out - in)`. The recorded bounds are right
  exactly if the explored calls of such words stay within them (`FlowBounds.RecordedExact`, `FlowBounds.OvershootHappens`,
  `FlowBounds.DefaultBoundExact`).
- Data words inherit `MaxReturnStack` 0, but their bytecode takes one return slot (`EndToEnd.DataCallNeedsSlot`,
  `EndToEnd.DataCallerUndercounted`, `EndToEnd.DataCallerFaults`).
- `T0_SBYTE` sets no continuation bit for non-negative values (`FixedWidth.FixedWidthDecodes`).
- The work queue of the flow analysis has as many slots as the word has opcodes, but may receive an offset twice:
  `begin again` is rejected although nothing is wrong with it (`FlowQueue.BeginAgain`), and so is every word with an
  endless chain of jumps (`FlowQueue.EndlessChainRejected`). `FlowQueue.AcceptedExactly` says
  exactly which words are affected; words with short chains are not (`FlowQueue.OverflowNeedsLongChains`).
- A word header is written as a slot number and read in 7E form: 128 to 255 locals are not read back in one-byte mode
  (`Stream.HeaderDecodes`).
- Locals are cleared by the compiler machine, but not by the generated code (`Simulation.UnwrittenLocal`,
  `EndToEnd.UnwrittenDiffers`).
- A CR at the very end of a file delivers a spurious newline and NUL, and un-reading its newline throws
  (`CharReader.Reader.Peek`, `CharReader.ReadAll`).
- For `phi < alpha` the selected key class depends on the order of classes (`Candidates.OrderMatters`).

## Model

| member | source | states |
|---|---|---|
| `SevenE.EmitGroups` | apps/bearssl-0.6/T0/CodeElement.cs:65-73 | the writing loop appends the groups of seven bits from the top, all but the last with 0x80 |
| `SevenE.Encode7EUnsigned` | apps/bearssl-0.6/T0/CodeElement.cs:59-75 | writes the unsigned encoding; the returned length is that of the encoding, with or without a writer |
| `SevenE.Encode7ESigned` | apps/bearssl-0.6/T0/CodeElement.cs:77-99 | the same for signed values, with one counting loop for each sign |
| `SevenE.Parse7EUnsigned` | apps/bearssl-0.6/T0/T0Comp.cs:1699-1714 | the C loop on a 32-bit accumulator is the decoder of the round trips |
| `SevenE.Parse7ESigned` | apps/bearssl-0.6/T0/T0Comp.cs:1716-1737 | the C loop with its sign preset and two exits is the signed decoder of the round trips |
| `SevenE.UnsignedRoundTrip` | apps/bearssl-0.6/T0/CodeElement.cs:59-75 | for every 32-bit value and any bytes before and after, decoding the encoding gives the value back and stops right behind it |
| `SevenE.SignedRoundTrip` | apps/bearssl-0.6/T0/CodeElement.cs:77-99 | the same for every signed 32-bit value |
| `SevenE.PaddedRoundTrip` | apps/bearssl-0.6/T0/T0Comp.cs:1716-1737 | any number of groups that can hold the value decodes to it, not only the shortest |
| `SevenE.UnsignedIsShortest` | apps/bearssl-0.6/T0/CodeElement.cs:59-64 | no byte string that decodes to a value is shorter than the encoding of that value |
| `SevenE.SignedIsShortest` | apps/bearssl-0.6/T0/CodeElement.cs:77-88 | the same for signed values, wrap-around of long strings included |
| `SevenE.LengthsAtMostFive` | apps/bearssl-0.6/T0/CodeElement.cs:59-99 | no encoding of a 32-bit value is longer than five bytes |
| `FixedWidth.BitLength` | apps/bearssl-0.6/T0/TPointerExpr.cs:81-96 | the shifting loops compute the bit length that BitLenExact characterises |
| `FixedWidth.BitLenExact` | apps/bearssl-0.6/T0/TPointerExpr.cs:81-96 | n bits hold v exactly if -2^(n-1) <= v < 2^(n-1) |
| `FixedWidth.GetMaxBitLength` | apps/bearssl-0.6/T0/TPointerExpr.cs:62-79 | computes the width that WidthSuffices and WidthLeast are about |
| `FixedWidth.WidthSuffices` | apps/bearssl-0.6/T0/TPointerExpr.cs:62-79 | every value in the declared range, offset added, fits the reserved number of groups, which is between 1 and 5 |
| `FixedWidth.MaxBitLenLeast` | apps/bearssl-0.6/T0/TPointerExpr.cs:62-79 | the length in bits is the least that holds both bounds of the range, 32 at most |
| `FixedWidth.WidthLeast` | apps/bearssl-0.6/T0/TPointerExpr.cs:62-79 | the reserved width is the larger of the 7E lengths of the two bounds: no byte too many |
| `FixedWidth.SByteValue` | apps/bearssl-0.6/T0/T0Comp.cs:1741 | the top byte of a five-byte constant is its top group with a continuation bit for negative values, and has no continuation bit otherwise |
| `FixedWidth.FixedBytesAreGroups` | apps/bearssl-0.6/T0/T0Comp.cs:1739-1746 | with up to four bytes, or for a negative value, the macros produce exactly the 7E groups |
| `FixedWidth.FixedWidthDecodes` | apps/bearssl-0.6/T0/T0Comp.cs:1739-1746 | a fixed-width constant is read back, with exactly the reserved bytes, if and only if the width is at most 4 or the value is negative |
| `FixedWidth.FiveBytesFail` | apps/bearssl-0.6/T0/T0Comp.cs:1741 | a range that needs five bytes, and a non-negative value of it that is not read back |
| `Opcodes.SubEffectIsInclusion` | apps/bearssl-0.6/T0/SType.cs:113-128 | IsSubOf holds exactly if a word with the one effect may replace a word with the other in every context: inclusion of behaviours |
| `CodeElements.CodeElement.SetJumpTarget` | apps/bearssl-0.6/T0/CodeElementJump.cs:64-67 | only jumps accept a target |
| `CodeElements.CodeElement.GetLength` | apps/bearssl-0.6/T0/CodeElementJump.cs:52-62 | the length that follows from the addresses at hand, 1 for the offset of a jump without addresses |
| `CodeElements.CodeElement.Encode` | apps/bearssl-0.6/T0/CodeElementJump.cs:80-96 | appends slot and argument; fails exactly for a slot above 255 in one-byte mode or an unresolved jump |
| `CodeElements.RoundMonotone` | apps/bearssl-0.6/T0/T0Comp.cs:1663-1679 | a round of the layout loop is monotone: longer lengths give longer lengths |
| `CodeElements.FirstRound` | apps/bearssl-0.6/T0/T0Comp.cs:1663-1679 | the placeholder lengths of the first round are a lower bound of all later ones |
| `CodeElements.NextRound` | apps/bearssl-0.6/T0/T0Comp.cs:1663-1679 | lengths never shrink from round to round, and stay below ten bytes |
| `CodeElements.EqualTotals` | apps/bearssl-0.6/T0/T0Comp.cs:1675-1678 | for pointwise ordered lengths, equal totals force equal lengths: comparing the totals is enough |
| `CodeElements.MeasureAll` | apps/bearssl-0.6/T0/T0Comp.cs:1666-1668 | the measuring loop computes the lengths of the round for every element |
| `CodeElements.PlaceAll` | apps/bearssl-0.6/T0/T0Comp.cs:1669-1674 | the placing loop gives every element the prefix sum of the lengths |
| `CodeElements.LayoutPass` | apps/bearssl-0.6/T0/T0Comp.cs:1666-1674 | one pass computes the next round and its total |
| `CodeElements.Layout` | apps/bearssl-0.6/T0/T0Comp.cs:1663-1679 | the relaxation loop ends, with addresses that are prefix sums of the lengths and lengths that agree with those addresses; in no other layout is any element shorter |
| `Stream.BytesLength` | apps/bearssl-0.6/T0/T0Comp.cs:1787-1792 | the code block has as many bytes as the layout says |
| `Stream.BytesAt` | apps/bearssl-0.6/T0/T0Comp.cs:1787-1792 | the bytes of element i stand at its address |
| `Stream.StreamDecodes` | apps/bearssl-0.6/T0/CodeElementJump.cs:52-96 | decoding at the address of an element yields that element, consumes exactly its length and takes a jump to the address of its target, in both opcode formats |
| `Stream.HeaderDecodes` | apps/bearssl-0.6/T0/T0Comp.cs:1813-1821 | the header of a word is written as a slot number but read in 7E form: it is read back if and only if the count is below 128 or the code is not in one-byte mode |
| `Stream.HeaderAt` | apps/bearssl-0.6/T0/CodeElementUInt.cs:44-54 | the header of a laid-out word gives its number of locals and the address of its first opcode |
| `Cpu.CPU.Enter` | apps/bearssl-0.6/T0/CPU.cs:65-73 | pushes a frame that saves the position, with zero locals |
| `Cpu.CPU.Exit` | apps/bearssl-0.6/T0/CPU.cs:78-83 | undoes Enter; without a frame it is an exception |
| `Cpu.CPU.Pop` | apps/bearssl-0.6/T0/CPU.cs:97-100 | removes the top of stack |
| `Cpu.CPU.Push` | apps/bearssl-0.6/T0/CPU.cs:105-114 | adds a value, whatever growth of the buffer that takes |
| `Cpu.CPU.Rot` | apps/bearssl-0.6/T0/CPU.cs:129-135 | moves the value at a depth to the top, in place |
| `Cpu.CPU.NRot` | apps/bearssl-0.6/T0/CPU.cs:141-147 | moves the top to a depth, in place |
| `Cpu.RotationsCancel` | apps/bearssl-0.6/T0/CPU.cs:125-147 | Rot and NRot undo each other at every depth |
| `Cpu.CPU.GetLocal` | apps/bearssl-0.6/T0/CPU.cs:152-155 | reads a local of the top frame |
| `Cpu.CPU.PutLocal` | apps/bearssl-0.6/T0/CPU.cs:160-163 | writes a local of the top frame and nothing else |
| `Cpu.CPU.RunRet` | apps/bearssl-0.6/T0/OpcodeRet.cs:30-33 | `ret` on the object is `ret` on the machine; leaving the first word ends the run |
| `Cpu.CPU.RunBranch` | apps/bearssl-0.6/T0/OpcodeJumpIf.cs:38-44 | conditional jumps pop and branch as the machine does |
| `Cpu.CPU.RunCall` | apps/bearssl-0.6/T0/OpcodeCall.cs:49-52 | calls of interpreted, data and native words do what the machine does |
| `Cpu.CPU.RunOne` | apps/bearssl-0.6/T0/CPU.cs:41-53 | one fetch and run on the CPU object refines one step of the machine on values, frames included |
| `Simulation.OpAddrRange` | apps/bearssl-0.6/T0/T0Comp.cs:1911-1920 | no return address is 0, and all fit 16 bits: saved offset 0 means leaving the run loop |
| `Simulation.EnterJumps` | apps/bearssl-0.6/T0/T0Comp.cs:1813-1821 | T0_ENTER on the slot of a compiled word goes past its header and saves a packed frame |
| `Simulation.TurnOnElem` | apps/bearssl-0.6/T0/T0Comp.cs:1902-1945 | a turn of the run loop acts on the element that was laid out at ip |
| `Simulation.Turn` | apps/bearssl-0.6/T0/T0Comp.cs:1902-1945 | at the address of an opcode, a turn of the run loop does what that opcode asks for |
| `Simulation.SimRet` | apps/bearssl-0.6/T0/T0Comp.cs:1911-1920 | `ret` is matched: the packed word gives back the locals to drop and the address of the caller, 0 exactly for the entry word |
| `Simulation.SimPutLocal` | apps/bearssl-0.6/T0/T0Comp.cs:1927-1929 | a write to a local changes one slot of the frame and no frame below |
| `Simulation.SimGetLocal` | apps/bearssl-0.6/T0/T0Comp.cs:1924-1926 | a read of a written local finds its value in the frame |
| `Simulation.SimJump` | apps/bearssl-0.6/T0/T0Comp.cs:1930-1945 | the three jumps lead both machines to the same opcode |
| `Simulation.SimCall` | apps/bearssl-0.6/T0/OpcodeCall.cs:49-65 | calls of all three kinds of words are matched |
| `Simulation.DataTurns` | apps/bearssl-0.6/T0/WordData.cs:89-95 | the bytecode of a data word pushes its address and returns, using one return slot |
| `Simulation.SimStep` | apps/bearssl-0.6/T0/T0Comp.cs:1902-1945 | every opcode of the compiler machine is matched by turns of the C run loop: equal data stacks, related frames, ip at the address of the current opcode |
| `Simulation.SimStart` | apps/bearssl-0.6/T0/T0Comp.cs:1824-1831 | the entry function of a word reaches the state related to the start of that word |
| `Simulation.SimRun` | apps/bearssl-0.6/T0/T0Comp.cs:1813-1945 | meaning preservation over runs of any length, whatever the stacks held before |
| `Simulation.ExitsTogether` | apps/bearssl-0.6/T0/T0Comp.cs:1911-1920 | the run loop is left exactly when the entry word returns, with the same data stack |
| `Simulation.UnwrittenLocal` | apps/bearssl-0.6/T0/CPU.cs:168-180 | reading an unwritten local keeps the machines related if and only if the return stack memory holds 0 there: the compiler machine clears locals, T0_ENTER does not |
| `Analyser.MergeSA` | apps/bearssl-0.6/T0/WordInterpreted.cs:127-140 | sets, confirms or rejects a stack action |
| `Analyser.Explored` | apps/bearssl-0.6/T0/WordInterpreted.cs:210-230 | the second half of the loop body: queue the jump target, fall through or dequeue |
| `Analyser.WordTable.InspectCall` | apps/bearssl-0.6/T0/WordInterpreted.cs:175-193 | a call analyses its callee first, then takes over its effect and bounds |
| `Analyser.WordTable.InspectPlain` | apps/bearssl-0.6/T0/WordInterpreted.cs:194-212 | `ret` fixes the exit action; other opcodes move the depth |
| `Analyser.WordTable.AnalyseFlow` | apps/bearssl-0.6/T0/WordInterpreted.cs:142-268 | the recursive analysis over arrays ends and computes the analysis on values, verdict and stored fields included |
| `FlowCert.AnalyseCertifies` | apps/bearssl-0.6/T0/WordInterpreted.cs:142-268 | whatever the verdict, each analysed word has an annotation that agrees with every explored opcode and its successors, and bounds that cover it; an accepted word is analysed |
| `FlowCert.MoveKeepsInv` | apps/bearssl-0.6/T0/WordInterpreted.cs:164-230 | the loop invariant: each explored offset is annotated consistently or still queued |
| `FlowReject.CertifiedIsConsistent` | apps/bearssl-0.6/T0/WordInterpreted.cs:142-268 | the stored annotation is a solution of the flow equations of the word |
| `FlowReject.AcceptedHasOne` | apps/bearssl-0.6/T0/WordInterpreted.cs:142-268 | acceptance implies that the flow equations have a solution |
| `FlowReject.RejectedHasNone` | apps/bearssl-0.6/T0/WordInterpreted.cs:127-268 | rejection with a reason about the code implies that the flow equations have no solution at all |
| `FlowReject.RecursiveIsReal` | apps/bearssl-0.6/T0/WordInterpreted.cs:144-153 | a word rejected as recursive does reach itself through calls |
| `FlowReject.ReturnBoundDecreases` | apps/bearssl-0.6/T0/WordInterpreted.cs:191-193 | the return bound strictly decreases along explored calls, so that accepted words have no call cycle |
| `FlowQueue.AdvanceExact` | apps/bearssl-0.6/T0/WordInterpreted.cs:209-226 | every opcode keeps: what is queued, and what the chains of waiting offsets and the rest of a plain traversal will still queue, is one fixed number |
| `FlowQueue.QueueExact` | apps/bearssl-0.6/T0/WordInterpreted.cs:160-216 | if the queue of a word overflows, the chains of jumps, one for each offset that a traversal without duplicates first reaches by falling through, have together more jumps than the word has opcodes; if the word is accepted, they have not |
| `FlowQueue.VerdictExactly` | apps/bearssl-0.6/T0/WordInterpreted.cs:142-268 | a word that is not rejected for its callees or for recursion is accepted if and only if its flow equations have a solution and its queue is long enough in this sense, both with what the analysis finds about the callees |
| `FlowQueue.AcceptedExactly` | apps/bearssl-0.6/T0/WordInterpreted.cs:142-268 | a fresh word that calls only other words, without opcodes or analysed before, is accepted if and only if its flow equations have a solution and its queue is long enough: a condition on what is known before the call |
| `FlowQueue.OverflowNeedsLongChains` | apps/bearssl-0.6/T0/WordInterpreted.cs:160-216 | the fixed-size queue overflows only in a word whose chains of jumps, counted from every offset, have together more jumps than the word has opcodes: a condition on the code alone |
| `FlowQueue.SingleJumpsFit` | apps/bearssl-0.6/T0/WordInterpreted.cs:160-216 | in particular never in a word without a jump to a jump |
| `FlowQueue.AcceptedChainsEnd` | apps/bearssl-0.6/T0/WordInterpreted.cs:160-216 | an accepted word has no explored chain of jumps without an end |
| `FlowQueue.EndlessChainRejected` | apps/bearssl-0.6/T0/WordInterpreted.cs:160-216 | a word in which control can reach, also through calls that return, a chain of jumps without an end is always rejected |
| `FlowQueue.BeginAgain` | apps/bearssl-0.6/T0/WordInterpreted.cs:160-216 | `begin again` has a solution and is rejected by the overflow of the queue |
| `FlowSound.StepSound` | apps/bearssl-0.6/T0/WordInterpreted.cs:142-268 | every opcode keeps: depth is entry depth plus the inferred action, within the bounds, for all words on the call chain |
| `FlowSound.ChainBase` | apps/bearssl-0.6/T0/WordInterpreted.cs:193 | no active word reaches below the inputs of the first word |
| `FlowSound.ChainBounds` | apps/bearssl-0.6/T0/WordInterpreted.cs:191-193 | what any active word is granted of both stacks stays within what the first word is granted, for every grant that covers the explored opcodes |
| `FlowSound.RunSound` | apps/bearssl-0.6/T0/WordInterpreted.cs:142-268 | the invariant holds in every state of every run |
| `FlowSound.FlowSoundness` | apps/bearssl-0.6/T0/WordInterpreted.cs:142-283 | an accepted word never crashes, never reaches below its inputs, leaves the depth its effect announces, and stays within every grant that covers the explored opcodes; only the words that it can reach need to respect their effects |
| `FlowSound.RunDepth` | apps/bearssl-0.6/T0/WordInterpreted.cs:164-230 | in every state of every run, at any call depth, the data stack is exactly as deep as the analysis found: the entry depth plus the inferred actions at the pending calls and at the next opcode |
| `FlowBounds.NeedCovers` | apps/bearssl-0.6/T0/WordInterpreted.cs:191-193 | the bounds with max(0, out - in) for words without opcodes and one return slot for a data word cover the explored opcodes |
| `FlowBounds.NeedLeast` | apps/bearssl-0.6/T0/WordInterpreted.cs:191-193 | they are the least bounds that do |
| `FlowBounds.RecordedCovers` | apps/bearssl-0.6/T0/Word.cs:150-171 | the recorded bounds plus k and d cover the explored opcodes if and only if the explored calls of opcode-less words stay within them |
| `FlowBounds.RecordedExact` | apps/bearssl-0.6/T0/Word.cs:150-171 | the recorded bounds are at least the needed ones, for all reachable words, if and only if the explored calls of opcode-less words stay within them |
| `FlowExact.AnalyseAttains` | apps/bearssl-0.6/T0/WordInterpreted.cs:164-213 | whatever the verdict, each recorded bound, the recorded inputs and the exit of an analysed word are met at some explored opcode, or are 0 |
| `FlowExact.BoundsExact` | apps/bearssl-0.6/T0/WordInterpreted.cs:189-233 | what is recorded for both stacks is exactly the maximum over the explored opcodes, with the exact bounds of the callees |
| `FlowExact.EffectExact` | apps/bearssl-0.6/T0/WordInterpreted.cs:255-268 | the inferred effect: as many inputs as the lowest explored depth asks for, an exit exactly if a `ret` is explored, and the depth at every `ret` |
| `FlowExact.FewestInputs` | apps/bearssl-0.6/T0/WordInterpreted.cs:191-208 | the annotation is consistent with a number of inputs if and only if it is at least the recorded one |
| `FlowBounds.RecordedAtMost` | apps/bearssl-0.6/T0/Word.cs:150-171 | the recorded bounds never exceed the needed ones |
| `FlowBounds.RecordedIsNeed` | apps/bearssl-0.6/T0/Word.cs:150-171 | where the explored calls of opcode-less words stay within them, the recorded bounds are the least that cover |
| `FlowBounds.SlackSuffices` | apps/bearssl-0.6/T0/Word.cs:150-171 | they fall short by at most the largest expansion of an opcode-less word, and one return slot if there are data words; by nothing where no word expands the stack and there is no data word |
| `FlowBounds.OvershootHappens` | apps/bearssl-0.6/T0/Word.cs:150-162 | at run time, at any call depth, a call of an opcode-less word exceeds the recorded bound if and only if the inferred action after the call does |
| `FlowBounds.DefaultBoundExact` | apps/bearssl-0.6/T0/Word.cs:150-165 | for the shortest caller of a native word: the default MaxDataStack, Math.Min(0, out - in), bounds its run if and only if the native word does not expand the stack |
| `FlowBounds.CallerAccepted` | apps/bearssl-0.6/T0/Word.cs:150-171 | a word that calls an opcode-less word and returns is granted no extra data slot and one return slot |
| `Builder.ApplyInv` | apps/bearssl-0.6/T0/WordBuilder.cs:86-385 | every builder call keeps: unresolved forward jumps are among the origins on the control-flow stack, other jumps lead into the code or to its marked end, local numbers are allocated |
| `Builder.BuilderClosure` | apps/bearssl-0.6/T0/WordBuilder.cs:72-96 | after any calls that end in a successful Build, every jump is resolved and inside the code, execution cannot run past the last opcode, and every local number is allocated |
| `Builder.WordBuilder.CSPush` | apps/bearssl-0.6/T0/WordBuilder.cs:119-128 | pushes on the control-flow stack, whatever growth that takes |
| `Builder.WordBuilder.CSRollTo` | apps/bearssl-0.6/T0/WordBuilder.cs:101-108 | rotates the control-flow stack in place |
| `Builder.WordBuilder.ResolveThen` | apps/bearssl-0.6/T0/WordBuilder.cs:338-344 | patches the jump at the popped origin, or throws |
| `Builder.WordBuilder.AddAgain` | apps/bearssl-0.6/T0/WordBuilder.cs:358-363 | jumps back to the popped destination, or throws |
| `Builder.WordBuilder.Do` | apps/bearssl-0.6/T0/WordBuilder.cs:101-385 | each builder method does what the builder on values does, and keeps the invariant |
| `Builder.WordBuilder.Build` | apps/bearssl-0.6/T0/WordBuilder.cs:72-84 | a `ret` is added where execution could reach the end; the resulting word is closed |
| `Labels.BuilderMeans` | apps/bearssl-0.6/T0/WordBuilder.cs:101-385 | for any calls: the builder throws exactly where the calls have no meaning, and otherwise every jump leads where the matching `begin` or `then` stood, however the control-flow stack was rolled and picked, and locals have the numbers of their definitions |
| `Labels.ApplyFits` | apps/bearssl-0.6/T0/WordBuilder.cs:101-385 | each builder call keeps this correspondence |
| `Labels.FinishedMeans` | apps/bearssl-0.6/T0/WordBuilder.cs:72-84 | Build fails exactly if entries are left, and appends `ret` exactly if control can fall or jump to the end of the code |
| `Structured.BuildsLayout` | apps/bearssl-0.6/T0/kern.t0:10-12 | nested `if else then`, `begin until`, `begin while repeat` and `begin again` become their code in a row, with jumps over the parts between, and leave the control-flow stack as it was |
| `Structured.RunsLayout` | apps/bearssl-0.6/T0/OpcodeJump.cs:47-63 | wherever such code stands, the machine runs it as its structure says and goes on behind it |
| `Structured.ForeverTurn` | apps/bearssl-0.6/T0/WordBuilder.cs:354-363 | a turn of `begin again` comes back to its beginning |
| `Structured.StructuredRuns` | apps/bearssl-0.6/T0/WordBuilder.cs:72-385 | a word built from any definitions of locals and structured code runs as its structure says, and returns |
| `Generate.ResolveKeepsClosed` | apps/bearssl-0.6/T0/WordInterpreted.cs:59-72 | looking up names leaves no call by name and keeps jumps and locals in range |
| `Generate.AddReferences` | apps/bearssl-0.6/T0/T0Comp.cs:1490-1498 | queues the words that a word refers to; fails exactly on a reference without a word |
| `Generate.Gather` | apps/bearssl-0.6/T0/T0Comp.cs:1478-1499 | the worklist ends with the least set that contains the entry points and is closed under references; it fails if and only if a needed word has an unresolved reference |
| `Generate.AssignNative` | apps/bearssl-0.6/T0/T0Comp.cs:1564-1600 | words with C code get numbers from 7 on, equal exactly for equal C code and without gaps; fails exactly for a native word without C code |
| `Generate.AssignInterpreted` | apps/bearssl-0.6/T0/T0Comp.cs:1606-1615 | the other words get the consecutive numbers from T0_INTERPRETED on, each its own |
| `Generate.AssignSlots` | apps/bearssl-0.6/T0/T0Comp.cs:1564-1615 | all promises about slots: at least 7, shared exactly by words with equal C code, interpreted words exactly from T0_INTERPRETED upward, and no number unused |
| `Generate.OneByteFits` | apps/bearssl-0.6/T0/T0Comp.cs:1651-1657 | in one-byte mode every slot fits a byte |
| `Generate.GenerateCodeElements` | apps/bearssl-0.6/T0/WordInterpreted.cs:106-121 | header, one element for each opcode, jumps linked to the elements of their targets; fails exactly if some opcode has no element |
| `Generate.BuildableExactly` | apps/bearssl-0.6/T0/WordInterpreted.cs:106-121 | the elements of a word can be built exactly if every jump stays inside its code and every call is of a word with a slot |
| `Generate.FixUp` | apps/bearssl-0.6/T0/OpcodeJump.cs:60-63 | links every jump to the element that its displacement reaches |
| `Generate.MakeElements` | apps/bearssl-0.6/T0/T0Comp.cs:1631-1643 | all words without C code stand in the element list, at the recorded entry elements, and nothing else does; fails exactly for a word with a jump out of it or an unresolved call |
| `Generate.EncodeAll` | apps/bearssl-0.6/T0/T0Comp.cs:1789-1792 | the encoding loop writes the code block of the layout; fails exactly if a slot or count does not fit its byte |
| `Generate.EntryAddresses` | apps/bearssl-0.6/T0/T0Comp.cs:1797-1804 | t0_caddr holds the addresses of the entry elements |
| `Generate.WrittenIsCompiled` | apps/bearssl-0.6/T0/T0Comp.cs:1684-1838 | the tables that the generator writes satisfy everything that the simulation theorem asks of an image |
| `Generate.CheckFlow` | apps/bearssl-0.6/T0/T0Comp.cs:1504-1520 | accepts exactly if each entry point in turn is accepted by the analysis and within both limits; then every entry point stays so |
| `Generate.EntryPasses` | apps/bearssl-0.6/T0/T0Comp.cs:1504-1520 | after the checks of the earlier entry points, an entry point passes if and only if the analysis accepts it and the bounds that its explored opcodes add up to are within both limits |
| `Generate.Emit` | apps/bearssl-0.6/T0/T0Comp.cs:1627-1811 | elements, layout, encoding and tables together; fails exactly for a word whose elements cannot be built or whose header does not fit its byte in one-byte mode |
| `DataLink.GatherBlocks` | apps/bearssl-0.6/T0/T0Comp.cs:1528-1534 | the blocks that live data words refer to, once each and in order |
| `DataLink.LinkData` | apps/bearssl-0.6/T0/T0Comp.cs:1522-1539 | each referenced block receives an address at which it stands in the data block, and data words receive the address of their block plus their offset |
| `DataLink.DataWordPoints` | apps/bearssl-0.6/T0/WordData.cs:89-95 | a live data word pushes a non-zero address at which its block stands, from its offset on |
| `Generate.AlikeAnalysed` | apps/bearssl-0.6/T0/T0Comp.cs:1504-1539 | the verdict of the flow analysis, and all that it stores, does not depend on the addresses of data words |
| `Generate.Tables` | apps/bearssl-0.6/T0/T0Comp.cs:1564-1811 | numbers, elements, layout and tables of the linked program; fails exactly for the listed reasons |
| `Generate.Generate` | apps/bearssl-0.6/T0/T0Comp.cs:1469-1811 | the phases in order give the least closure, flow checks, data addresses, slots and a compiled image of the linked program; an exception is thrown if and only if one of the listed reasons applies |
| `EndToEnd.RunIsGood` | apps/bearssl-0.6/T0/WordInterpreted.cs:270-283 | the run of an accepted word finds room on C stacks of the granted sizes at every opcode |
| `EndToEnd.AcceptedRunsInC` | apps/bearssl-0.6/T0/T0Comp.cs:1813-1945 | an accepted and generated word runs in C as its opcodes say, with stacks of exactly the granted sizes: no access outside the code or the stacks, equal data stacks after each opcode, exit exactly when the word returns and at the depth of its effect |
| `EndToEnd.WrittenRunsInC` | apps/bearssl-0.6/T0/T0Comp.cs:1813-1945 | the same under conditions on the code alone: the reachable words write their locals before they read them |
| `Locals.RunWritten` | apps/bearssl-0.6/T0/CPU.cs:149-180 | words that write each local before reading it, along the flow of their code, never read an unwritten one in any run |
| `EndToEnd.LocalCompiled` | apps/bearssl-0.6/T0/T0Comp.cs:1787-1804 | the image of a word that reads its local first |
| `EndToEnd.UnwrittenDiffers` | apps/bearssl-0.6/T0/T0Comp.cs:1813-1821 | its runs differ: 0 on the compiler machine, the old contents of the return stack in C |
| `EndToEnd.LimitsSuffice` | apps/bearssl-0.6/T0/T0Comp.cs:1504-1520 | the limits of the flow checks, plus k and d, bound the C stacks of every entry point if the explored calls of opcode-less words stay within k and d of the recorded bounds; with k = d = 0 the limits themselves |
| `EndToEnd.DataCallNeedsSlot` | apps/bearssl-0.6/T0/WordData.cs:89-95 | the call of a data word is out of bounds if and only if the return stack is full |
| `EndToEnd.DataCallerUndercounted` | apps/bearssl-0.6/T0/Word.cs:167-171 | the word that calls a data word and returns is granted one return slot, and faults with just that |
| `EndToEnd.DataCallerCompiled` | apps/bearssl-0.6/T0/T0Comp.cs:1787-1804 | the image of a word that calls a data word and returns |
| `EndToEnd.DataCallerFaults` | apps/bearssl-0.6/T0/Word.cs:167-171 | the analysis accepts this word, and its image faults on a return stack of the granted size |
| `Generate.HeadersDecide` | apps/bearssl-0.6/T0/T0Comp.cs:1645-1657 | in one-byte mode only the headers decide whether all elements fit their bytes |
| `EndToEnd.PushRuns` | apps/bearssl-0.6/T0/T0Comp.cs:1813-1945 | the theorem applied to the word that pushes a constant and returns: with stacks of exactly the granted sizes its image exits after two turns with that value on top |
| `Literal.Accumulate` | apps/bearssl-0.6/T0/T0Comp.cs:2058-2074 | the accumulator is exact until the overflow flag is set; the flag is set exactly if the number exceeds 2^32 - 1, and never lost; an invalid digit is reported in any case |
| `Literal.TryParseLiteral` | apps/bearssl-0.6/T0/T0Comp.cs:2025-2084 | a quoted token is a pointer to a new block with its string, a backquoted one its character or an exception; any other token throws exactly on integers outside [-2^31, 2^32), and otherwise gives the 32-bit value congruent to the literal |
| `Literal.DecHex` | apps/bearssl-0.6/T0/T0Comp.cs:1351-1362 | the loop gives the number that the hexadecimal digits denote, or reports a character that is no digit |
| `Literal.DecodeCharConst` | apps/bearssl-0.6/T0/T0Comp.cs:1318-1349 | the nested branches accept exactly a single character, a two-character escape, or two or four hexadecimal digits, and give the code unit; all else throws |
| `Literal.EscapeDenotes` | apps/bearssl-0.6/T0/T0Comp.cs:1333-1340 | every UTF-16 code unit has a character constant: its four-digit escape sequence |
| `Literal.StringToBlob` | apps/bearssl-0.6/T0/T0Comp.cs:2020-2023 | a new block that holds exactly the UTF-8 form of the string and a NUL |
| `Literal.ShowDenotes` | apps/bearssl-0.6/T0/T0Comp.cs:2043-2056 | every integer is denoted by its decimal text, every natural number by its hexadecimal text |
| `Literal.DigitSpellings` | apps/bearssl-0.6/T0/T0Comp.cs:1364-1375 | the digits, in both cases, and nothing else |
| `Literal.Positional` | apps/bearssl-0.6/T0/T0Comp.cs:2057-2070 | each digit counts with the weight of its place |
| `Literal.SpellingsDenote` | apps/bearssl-0.6/T0/T0Comp.cs:2036-2050 | a sign or none, a prefix in either case or none, and digits denote the number of the digits with that sign |
| `Literal.EscapesStandFor` | apps/bearssl-0.6/T0/T0Comp.cs:1296-1345 | the escapes n, r, t, s, any other character, and two hexadecimal digits |
| `CharReader.Reader.constructor` | apps/bearssl-0.6/T0/T0Comp.cs:1398-1401 | a file starts with a newline and a NUL |
| `CharReader.Reader.NextChar` | apps/bearssl-0.6/T0/T0Comp.cs:1037-1061 | delivers the stream, one character at a time, with CR and CR LF turned into LF; at most one character stays delayed, except after a CR at the end of the file |
| `CharReader.Reader.Unread` | apps/bearssl-0.6/T0/T0Comp.cs:1067-1083 | puts a character in front of the stream; throws exactly if two are delayed, or one and the new one is no newline |
| `CharReader.Reader.Peek` | apps/bearssl-0.6/T0/T0Comp.cs:1085-1114 | un-reading the character just read restores the stream, and throws exactly after a CR at the end of the file |
| `CharReader.ReadAll` | apps/bearssl-0.6/T0/T0Comp.cs:1037-1061 | a whole file delivers newline, NUL and the converted text, and a spurious newline and NUL exactly if it ends in CR |
| `CharReader.DeliveredIsConverted` | apps/bearssl-0.6/T0/T0Comp.cs:1048-1059 | what is delivered differs from the converted text exactly for input that ends in CR |
| `CharReader.NoCarriageReturn` | apps/bearssl-0.6/T0/T0Comp.cs:1048-1059 | no CR is ever delivered |
| `ConstData.ConstData.Expand` | apps/bearssl-0.6/T0/ConstData.cs:49-58 | room for more bytes without changing the contents |
| `ConstData.ConstData.Add8` | apps/bearssl-0.6/T0/ConstData.cs:60-64 | appends one byte |
| `ConstData.ConstData.Add16` | apps/bearssl-0.6/T0/ConstData.cs:66-71 | appends two bytes, big-endian |
| `ConstData.ConstData.Add24` | apps/bearssl-0.6/T0/ConstData.cs:73-79 | appends three bytes, big-endian |
| `ConstData.ConstData.Add32` | apps/bearssl-0.6/T0/ConstData.cs:81-88 | appends four bytes, big-endian |
| `ConstData.ConstData.AddString` | apps/bearssl-0.6/T0/ConstData.cs:90-97 | appends the UTF-8 bytes of any UTF-16 text, lone surrogates replaced, and a NUL |
| `ConstData.ConstData.Read16` | apps/bearssl-0.6/T0/ConstData.cs:118-122 | reads what IntegerRoundTrip is about; throws exactly outside the block |
| `ConstData.ConstData.Read24` | apps/bearssl-0.6/T0/ConstData.cs:124-128 | the same for three bytes |
| `ConstData.ConstData.Read32` | apps/bearssl-0.6/T0/ConstData.cs:130-135 | the same for four bytes |
| `ConstData.ConstData.DecodeUTF8` | apps/bearssl-0.6/T0/ConstData.cs:155-190 | the decoding loop computes the decoder of ScalarRoundTrip |
| `ConstData.ConstData.ToString` | apps/bearssl-0.6/T0/ConstData.cs:137-153 | the loop over code points computes the text of StringRoundTrip, or throws without a NUL |
| `ConstData.ScalarRoundTrip` | apps/bearssl-0.6/T0/ConstData.cs:155-190 | every Unicode scalar value is decoded from its UTF-8 encoding, whatever comes before and after |
| `ConstData.Utf8IsGrammar` | apps/bearssl-0.6/T0/ConstData.cs:90-97 | the bytes of a character are the one sequence of the grammar of section 4 of RFC 3629 that spells it: no overlong form |
| `ConstData.PlainText` | apps/bearssl-0.6/T0/ConstData.cs:90-97 | ASCII text is appended byte for byte |
| `ConstData.LoneSurrogate` | apps/bearssl-0.6/T0/ConstData.cs:90-97 | a lone surrogate is appended as the three bytes of U+FFFD |
| `ConstData.DecodeExact` | apps/bearssl-0.6/T0/ConstData.cs:155-190 | on any bytes: a character of several bytes if one stands there, overlong or not, and otherwise a byte that stands for itself |
| `ConstData.Utf16RoundTrip` | apps/bearssl-0.6/T0/ConstData.cs:90-97 | reading UTF-16 text as scalar values and writing it again gives it back exactly if it has no lone surrogate |
| `ConstData.ScalarsRoundTrip` | apps/bearssl-0.6/T0/ConstData.cs:137-153 | every sequence of scalar values is the reading of its UTF-16 text |
| `ConstData.StringRoundTrip` | apps/bearssl-0.6/T0/ConstData.cs:90-153 | an appended string is read back up to its first NUL, whatever the block held before and after; it comes back as it was if and only if it has no NUL and no lone surrogate |
| `ConstData.IntegerRoundTrip` | apps/bearssl-0.6/T0/ConstData.cs:66-135 | an appended integer is read back modulo its width; four bytes keep every 32-bit value |
| `ConstData.BlockInPlace` | apps/bearssl-0.6/T0/T0Comp.cs:1535-1539 | each block stands in the data block at its address, which is never 0 |
| `ConstData.PlaceBlocks` | apps/bearssl-0.6/T0/T0Comp.cs:1535-1539 | addresses are 1 plus the lengths of the blocks before |
| `ConstData.WriteBlocks` | apps/bearssl-0.6/T0/T0Comp.cs:1778-1782 | the data block is a zero byte and the blocks in order |
| `Uarch.CompareIsSameClass` | scripts/Microarchitecture.py:101-116 | every component comparison is equality of multisets and counters, so an equivalence relation |
| `Uarch.CircularQueue.SetMetaData` | scripts/Microarchitecture.py:40-61 | for each kind of queue, every list of it is cut down to its valid entries, and their number is the occupancy; throws exactly for a head without a tail, and for a head behind the tail and behind the end of one of these lists |
| `Uarch.RemainingEntries` | scripts/Microarchitecture.py:56-61 | which entries remain: from the head up to before the tail, or from behind the tail up to the head, each at its place |
| `Uarch.OccupancyRedundant` | scripts/Microarchitecture.py:157-161 | on such queues the occupancy test of the comparison is implied by the comparison of program counters |
| `Tally.FindIndex` | scripts/Microarchitecture.py:5-10 | the first equivalent state, or none |
| `Tally.Bump` | scripts/stats.py:147-153 | counts one more occurrence of a state class, and keeps one entry for each class |
| `Tally.UniqueStates` | scripts/stats.py:140-153 | the states of an iteration, one for each class |
| `Tally.AddRound` | scripts/stats.py:161-166 | each class that occurs in the iteration is counted once more |
| `Tally.TallyAll` | scripts/stats.py:133-168 | the lists hold the simple count: iterations of the key class in which the state class occurs; fails exactly if an iteration reads past a list |
| `Tally.RoundsAtMost` | scripts/stats.py:103 | no count exceeds the number of keys of the class |
| `Tally.Normalize` | scripts/stats.py:171-173 | divides every tally of a list |
| `Tally.Frequencies` | scripts/stats.py:131-173 | all loops together: every stored number is the frequency of its state class |
| `Tally.FrequencyRange` | scripts/stats.py:170-173 | each stored frequency is the simple count divided by the class count, and lies in (0, 1] |
| `Tally.FrequencyIsShare` | scripts/stats.py:103-173 | a frequency is the number of iterations of the class in which the state occurs, divided by the number of all iterations of the class; it is 1 exactly if the state occurs in each of them |
| `Tally.CountsAddUp` | scripts/stats.py:103 | the class counts of the distinct keys add up to the number of keys |
| `Tally.EntryIffSeen` | scripts/stats.py:155-166 | a state class has an entry exactly if it occurs in some iteration of the key class |
| `Candidates.Select` | scripts/stats.py:47-57 | the selection loop with its flag and its break |
| `Candidates.ChosenIsOnly` | scripts/stats.py:47-57 | for alpha <= phi the loop finds a key class exactly if one has frequency at least phi and all others are below alpha, and it finds that one |
| `Candidates.ChosenIsLast` | scripts/stats.py:47-57 | for phi < alpha it finds the last frequency of at least phi, unless one behind the first of these is at least alpha |
| `Candidates.OrderMatters` | scripts/stats.py:47-57 | for phi < alpha the answer depends on the order of the key classes |
| `Candidates.CollectStates` | scripts/stats.py:17-29 | one representative for each state class that occurs under any key class |
| `Candidates.Stats` | scripts/stats.py:31-42 | the frequency of a state under each key class, 0 where it is missing |
| `Candidates.Differences` | scripts/stats.py:47-62 | an entry for each state in hand that tells a key class from all others |
| `Candidates.UarchDiff` | scripts/stats.py:16-81 | for alpha <= phi, one entry for each state class that tells a key class from all others, labelled with it; order and representatives do not matter |
| `Candidates.Classify` | scripts/stats.py:131-175 | the answer depends on the samples only through the frequencies of state classes in the iterations of each key class |

## Left out

- Analyser.WordTable.AnalyseFlow: depths and bounds are unbounded integers, without 32-bit wrap-around; the warning for unreachable code and the texts of exceptions are not modelled.
- FlowSound.FlowSoundness: the native words that a word can reach are assumed to respect their declared effects; `roll` and `pick`, whose effects are approximations, do not, so that words that reach them are outside this theorem.
- Simulation.SimRun: constants are 32-bit integers or addresses of data words; `execute`, execution tokens, blob pointers and C expressions, whose compile-time and run-time values differ by design, are not part of this theorem.
- Simulation.SameNatives: the C code of a slot is a parameter that computes the same stack function as the native word.
- Cpu.CPU.Enter: the linked list of frames is a sequence; its sharing is not modelled.
- Cpu.CPU.RunOne: the other cases of Opcode.Run have no row of their own; values are integers, not TValue pairs.
- Generate.Generate: words are known by their index in the order of names, and the total size of the code is assumed to stay below 2^31 / 10 elements; a word that has both opcodes and C code is numbered as the source does, but excluded from the simulation theorem (Generate.Meaningful).
- Generate.EntryAddresses: t0_caddr has 16-bit entries in C; the simulation theorem assumes a code block of at most 65536 bytes.
- CodeElements.CodeElement.Encode: the file output of BlobWriter, its line wrapping and C expressions in the code block are not modelled; FixedWidth covers the bytes of such expressions.
- Chains of data words based on other data words (WordData.Resolve), with the check for circular references, would only add a walk along a list.
- Labels.BuilderMeans: cs-pick with a negative depth, which reads what earlier entries left above the top, has no meaning in these terms.
- Builder.WordBuilder.Do: a call through an execution token (WordBuilder.cs:282-291) is a call by name or by word here.
- ConstData.ConstData.Add8: its counterparts Read8 and Set8 are left out: they would only add easy members.
- DataLink.LinkData: blocks that constants other than data words refer to are not modelled; data words are resolved to their block and offset.
- Tally.Normalize: frequencies are exact rationals, not floating-point numbers.
- Candidates.UarchDiff: the plot, the printed lists and the parsing of keys and samples are not modelled.
- Tokens, `postpone`, `cc:`, string escapes and the other words of the interpreter loop, command lines and console output: many shallow branches or I/O.
- The other scripts, the `automation` directory and the BearSSL headers and samples.
