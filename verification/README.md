# Verified models of four cores of Clasp

Clasp is an implementation of Common Lisp in C++. This project models four parts
of its runtime in Dafny, in the form they have in the source, and proves what
they are for. `dafny verify dfyconfig.toml` checks all of it.

**Bytecode: compiler, linker and virtual machine.** `Source` gives the meaning of
a lexical subset of the language: literals, variables, `progn`, `let`, `let*`,
`setq`, `if`, `block`, `return-from`, `tagbody`, `go`, `multiple-value-prog1` and
calls of global functions, over environments and a history of calls that the
outside world answers. The evaluator lets a tagbody jump back only so often;
`Jumps` proves that a result within the bound is the same under every larger one,
and `SourceLaws` what the evaluator makes of small programs in each construct.
`Compiler` says which items (instructions, labels and fixups) the
compiler emits for a form, `BytecodeCompiler` is the imperative compiler that
emits them into a module, and `CompilerCorrectness` proves that running them
preserves the meaning. `Linker` is the module object with its functions,
annotations and mutable positions; its relaxation loop is proved against
`Relaxation`, where layouts of a whole module are ordered by size, and
`BytecodeWriter` fills the bytecode vector. `ByteMachine` decodes and runs bytes
and is proved to do what the items do. `ModuleCorrectness` puts everything
together: for any module compiled from lambdas, the linked bytes of every
function compute what its source means, unless a loop jumps back too far
(`LoopExamples`). `ClosedOver` runs the bytes emitted for variables in cells and for
dynamic environments. `LinkedExamples` holds other linked modules that go wrong.
`KeywordArguments` is the machine's
keyword parser, which runs over the arguments backwards.

**Integers.** `TwosComplement` reads integers as infinite sequences of bits and
defines the sixteen boolean operations on them; `Limbs` and `LimbBuffers` are
little-endian limbs of 64 bits and the multi-precision primitives on buffers that
may overlap. On these stand the sixteen operators in sign-magnitude form
(`BooleOperators`), the operations on integers of either representation
(`LogicalOperations`, `BitQueries`), and canonical form, comparison, sums, shifts
and greatest common divisors of bignums (`Bignum`, `BignumAddition`,
`BignumShifts`, `Divisors`, `BignumGcd`).

**The cast graph of clbind.** `CastGraph` is the breadth-first search over casts
that can fail, with a termination measure and what it finds; `CastCache` is the
object that remembers answers, sound over every history of insertions and casts;
`CastChains` gives a condition on the graph under which every target is found.

**Source and bit transformations.** `Backquote` expands templates, and
`BackquoteMeaning` proves that evaluating the expansion instantiates the
template. `BitVectors` refines sequences of booleans by packed words.

Positions, counts and integers are unbounded in Dafny; where the source's widths
matter they are written out (bytes, 16-bit operands, 24-bit labels, 62-bit
fixnums, limbs, the 32-bit count of shifted limbs).

Where the code departs from what it is evidently for, the model follows the code
and the exact condition under which it does what it should is proved, next to a
concrete input where it does not: backward 24-bit labels, short backward
jump-if-supplied, the fall-through of its long form, key counts of 128 and more,
the missing `break` after long parse-key-args, the buffer of two bignums in
`clasp_boole`, the lost carry and the 32-bit limb count of shifts, and
`core__next_fgcd`. For the bit vector scans, whose mask has no defined value in
the source, the condition is the one under which the mask is not used; their
results are modelled with the mask as intended.

## Model

| member | source | states |
|---|---|---|
| Relaxation.WantMonotone | src/core/bytecode_compiler.cc:713-754 | As any sizes in a module grow, no distance between a fixup and its label shrinks or changes sign, so every `resize` asks for at least as many bytes as before, and an error it signals stays an error. |
| Relaxation.RelaxStep | src/core/bytecode_compiler.cc:930-952 | Giving a fixup the size its `resize` returns never shrinks it (`new_size >= old_size`) and keeps the sizes at or below those of every layout in which each label fixup can hold its distance. |
| Relaxation.ErrorMeansNoLayout | src/core/bytecode_compiler.cc:713-722 | When `resize` signals an error during relaxation, no sizes whatever give every label fixup room for its distance: the link error is never premature. |
| Relaxation.SlackShrinks | src/core/bytecode_compiler.cc:930-952 | The growth still possible in a module falls by exactly what a fixup grows: the measure by which the do-while of resolve_fixup_sizes ends. |
| Instructions.ResizeIsLeast | src/core/bytecode_compiler.cc:713-754 | A label fixup gets the least size whose displacement bytes hold the distance in two's complement, and an error exactly when there is none: beyond 24 bits for jumps and exits, beyond 16 for jump-if-supplied. |
| Instructions.OperandBytes | src/core/bytecode_compiler.cc:580-611 | Operands up to 255 are emitted in a byte each, longer ones in two, the low byte first, behind vm_long. |
| Linker.Module.Assemble | src/core/bytecode_compiler.cc:580-611 | Emitting an instruction fails exactly for operands that have no encoding; otherwise it appends its bytes to one function and keeps positions, annotations and label places valid. |
| Linker.Module.Contextualize | src/core/bytecode_compiler.cc:663-682 | Placing a label or fixup records it at the end of its function with its placeholder bytes and changes nothing else of the module. |
| Linker.Module.InitializeCfunctionPositions | src/core/bytecode_compiler.cc:905-913 | Establishes the layout invariant for the initial sizes: every label and fixup stands at the number of initial bytes before it in the whole module. |
| Linker.Module.UpdatePositions | src/core/bytecode_compiler.cc:915-928 | Moves every later annotation of the same function and every later function by the increase, and adds it to the function's extra; nothing before it moves. |
| Linker.StepKeepsLayout | src/core/bytecode_compiler.cc:915-928 | After one fixup of any function has grown, every annotation of every function again stands at the sum of the sizes of all items before it in the module. |
| Linker.DeltaIsDistance | src/core/bytecode_compiler.cc:661-684 | The mutable positions give `delta` its meaning at every moment of relaxation: the distance, under the current sizes, between the fixup and the one item that marks its label. |
| Linker.PlaceIsTarget | src/core/bytecode_compiler.cc:663-669 | Where a label was contextualized is the unique item that marks it in the concatenation of all functions. |
| Linker.Module.ResizeAnnotation | src/core/bytecode_compiler.cc:936-950 | One turn of the inner loop keeps the relaxation invariant; it reports a change exactly when the remaining growth has shrunk and no change only when the fixup is settled. |
| Linker.Module.ResolveFixupSizes | src/core/bytecode_compiler.cc:930-952 | Terminates with every fixup at the size its `resize` returns, and with the least sizes of all that give every label fixup room for its distance; it signals an error only when there are none. |
| BytecodeWriter.BytecodeSize | src/core/bytecode_compiler.cc:954-960 | The size read off the last function is the sum of the final sizes of all items of the module. |
| BytecodeWriter.EmitFixup | src/core/bytecode_compiler.cc:709-903 | Every fixup class writes exactly its settled number of bytes at its position and leaves everything before it alone. |
| BytecodeWriter.WriteFunction | src/core/bytecode_compiler.cc:1053-1078 | Started where the code of the functions before it ends, the copy loop continues the linked code by exactly this function's items: no byte is skipped or written twice, and both ASSERTs of the loop hold. |
| BytecodeWriter.CreateBytecode | src/core/bytecode_compiler.cc:1049-1082 | The output is the concatenation, item by item, of encoded instructions and emitted fixups, each standing at its final module position, and it fills exactly bytecode_size bytes. |
| BytecodeWriter.Link | src/core/bytecode_compiler.cc:1123-1127 | For any module whose labels are all placed: either the least sizes in which every jump has room for its distance, with their bytes, or an error, and then in all sizes that leave room for the other items some label fixup is too short for its distance or the distance outside its range. |
| Emission.ItemInPlace | src/core/bytecode_compiler.cc:1041-1082 | In linked code the bytes of each item stand at the sum of the final sizes before it. |
| Emission.EmittedDisplacement | src/core/bytecode_compiler.cc:686-707 | The displacement stands behind the opcode for its size in two's complement, the low byte first. |
| Emission.SuppliedIndex | src/core/bytecode_compiler.cc:726-754 | The index of the argument is the byte behind the opcode of a jump-if-supplied. |
| Emission.DisplacementReadsBack | src/core/bytecode.cc:78-111 | A displacement written at the size chosen for it is read back by the virtual machine, if and only if it is not a negative one of 24 bits. |
| Emission.JumpLandsOnLabel | src/core/bytecode.cc:521-591 | In the linked bytes of any module, a jump, conditional jump or exit transfers to its label's final position if and only if it is not a backward one of 24 bits, and its fall-through is the next item. |
| LinkedExamples.BackwardLabel24IsMisread | src/core/bytecode.cc:91-105 | A backward label 0x8001 bytes away is given 24 bits and read as a jump forward by 0x7f7fff bytes. |
| Emission.SuppliedJumpLands | src/core/bytecode.cc:570-591 | A jump-if-supplied lands on its label if and only if it is not a short backward one, and falls through to the next item if and only if it is the short form. |
| LinkedExamples.BackwardSuppliedJumpIsMisread | src/core/bytecode.cc:570-580 | A label one instruction behind a short jump-if-supplied is missed by 256 bytes, because its displacement is read unsigned. |
| LinkedExamples.LongSuppliedFallsTooFar | src/core/bytecode.cc:581-591 | In a linked module whose jump-if-supplied spans 128 instructions, a missing argument falls through to the second of them. |
| CompilerCorrectness.Correct | src/core/bytecode_compiler.cc:2721-2748 | Semantics preservation for literals, lexical variables, progn, let, let*, setq, if, block, return-from, tagbody, go, multiple-value-prog1 and calls of global functions: run from its start, the code of any form in any receiving context reaches its end with the value pushed when one is wanted, in the values register when all are, and nothing pushed otherwise; the registers of the scope then hold the variables' final values, saved stack pointers and the stack below are intact, and the calls made are those of the source in order. A return-from arrives at its block's exit instead, and a go at its tag; where the source has used up the jumps it may make within a tagbody, the calls made until then are the same. |
| CompilerCorrectness.CorrectProgn | src/core/bytecode_compiler.cc:1335-1345 | The same for sequences of forms, of which only the last one's values count. |
| CompilerCorrectness.CorrectLet | src/core/bytecode_compiler.cc:1496-1545 | Init forms are all evaluated outside the bindings and left on the stack, then bound to consecutive registers together. |
| CompilerCorrectness.CorrectClauses | src/core/bytecode_compiler.cc:1555-1611 | Every init form of a let* sees the bindings before it. |
| CompilerCorrectness.CorrectSetq | src/core/bytecode_compiler.cc:2189-2249 | Assignments happen in order; the value of the last one is the value of the form, for every receiving context. |
| CompilerCorrectness.CorrectIf | src/core/bytecode_compiler.cc:2277-2290 | Exactly one branch is run, chosen by the primary value of the condition. |
| CompilerCorrectness.CorrectBlock | src/core/bytecode_compiler.cc:2381-2410 | Normal ends and returns from any depth of the body meet after the block with the same stack height and the value where the context wants it. |
| CompilerCorrectness.CorrectReturnFrom | src/core/bytecode_compiler.cc:2347-2426 | A return-from restores the block's stack pointer, discards everything pushed since, and arrives at the exit label with the values. |
| CompilerCorrectness.CorrectTagbody | src/core/bytecode_compiler.cc:2294-2345 | A tagbody ends with nil and the stack as it was, however its gos jump forward and backward among its tags, and a transfer of control to an outer block or tag passes through it. |
| CompilerCorrectness.CorrectLoop | src/core/bytecode_compiler.cc:2325-2335 | However often it is repeated, every go to a tag of the innermost tagbody arrives there with the stack that the tagbody was entered with, and what has run is exactly the statements that the source runs. |
| CompilerCorrectness.CorrectGo | src/core/bytecode_compiler.cc:2347-2379 | A go discards everything pushed since its tagbody was entered and arrives at the label of its tag, through any dynamic environments in between. |
| CompilerCorrectness.CorrectCall | src/core/bytecode_compiler.cc:2484-2493 | Arguments are evaluated left to right and the call is made with exactly their primary values. |
| CompilerCorrectness.CorrectProg1 | src/core/bytecode_compiler.cc:2472-2481 | The values of the first form survive the evaluation of the others. |
| CodeShape.CompiledShaped | src/core/bytecode_compiler.cc:2721-2748 | Code compiled from any form marks each of its labels exactly once, jumps only to labels marked later in the code or to blocks and tags around it, backward only in functions with loops, and contains only instructions of the shape the machine decodes. |
| CodeShape.TagbodyShaped | src/core/bytecode_compiler.cc:2294-2345 | Every label of a tagbody is marked exactly once in it, so that all jumps to its tags stay inside the tagbody's code. |
| Lambda.Rejects | src/core/bytecode.cc:592-621 | A wrong number of arguments stops a compiled function at its first instruction. |
| Lambda.FunctionCorrect | src/core/bytecode_compiler.cc:1936-1972 | A compiled lambda with required parameters, wherever its code stands, answers any argument list as its source does: an error for a wrong count, otherwise the values of the body with the stack as it was; only a function with loops can run out of jumps, and has then made the source's calls. |
| ByteMachine.EncodedDecodes | src/core/bytecode.cc:899-1031 | An instruction emitted short or long at any place decodes to the same opcode and operands, and the program counter advances by exactly the emitted length. |
| ByteMachine.StreamRoundTrip | src/core/bytecode_compiler.cc:580-611 | Decoding the bytes of any sequence of encodable instructions, short and vm_long forms mixed, gives the sequence back. |
| ByteMachine.ArgumentChecks | src/core/bytecode.cc:592-621 | A call passes the check for equality with exactly n arguments and the check for a maximum with at most n, short or long, and goes on behind the check with nothing changed. |
| ByteMachine.ReceivesFixed | src/core/bytecode.cc:311-330 | A call that receives a fixed number of values pops the function and its arguments and pushes so many of the values, nil for those that are missing. |
| ByteMachine.StepRefines | src/core/bytecode.cc:208-260 | Each step of the machine over items, at an item that is not a backward jump of 24 bits, is one turn of the byte-level loop at the corresponding position, or no turn for an item that has become empty. |
| ByteMachine.RunRefinesAll | src/core/bytecode.cc:208-260 | Whole runs over items are runs over the linked bytes, as long as they meet no backward jump of 24 bits. |
| BytecodeCompiler.Compilation.CompileForm | src/core/bytecode_compiler.cc:2586-2748 | The imperative compiler succeeds exactly when the form is in the subset and its operands fit the encodings, and then emits into the current function exactly the code of the specification, with the literals, labels and register count it accounts for. |
| BytecodeCompiler.Compilation.CompileLet | src/core/bytecode_compiler.cc:1496-1545 | The same for let: registers are assigned by the frame end of the environment that grows with each binding. |
| BytecodeCompiler.Compilation.CompileIf | src/core/bytecode_compiler.cc:2277-2290 | The same for if, with both labels placed once. |
| BytecodeCompiler.Compilation.CompileBlock | src/core/bytecode_compiler.cc:2381-2410 | The same for block, with the exit and normal labels placed once. |
| BytecodeCompiler.Compilation.CompileSetq | src/core/bytecode_compiler.cc:2189-2249 | The same for setq and its pairs. |
| BytecodeCompiler.Compilation.CompileReturnFrom | src/core/bytecode_compiler.cc:2347-2426 | The same for return-from, closing the dynamic environments between it and its block. |
| BytecodeCompiler.Compilation.CompileTagbody | src/core/bytecode_compiler.cc:2294-2345 | The same for tagbody: a label is made for every tag before the statements and placed once among them; without tags there is no dynamic environment. |
| BytecodeCompiler.Compilation.BindTags | src/core/bytecode_compiler.cc:155-168 | The tags share one register, and each gets a new label that has not been placed. |
| BytecodeCompiler.Compilation.CompileGo | src/core/bytecode_compiler.cc:2369-2379 | The same for go. |
| BytecodeCompiler.AddLambda | src/core/bytecode_compiler.cc:1936-1972 | Compiling a lambda into a module appends one function with exactly its code and leaves all functions before it untouched. |
| ModuleCorrectness.ShapedPlaced | src/core/bytecode_compiler.cc:663-669 | In a module of compiled lambdas every label that a fixup mentions has been contextualized. |
| ModuleCorrectness.FunctionConfined | src/core/bytecode_compiler.cc:1936-1972 | The code of a compiled lambda jumps only within itself and ends with a vm_return; none of its jumps is a backward one of 24 bits unless it has loops. |
| ModuleCorrectness.RunConfined | src/core/bytecode.cc:208-260 | A run that has entered the code of a function stays inside it, so that no other function of the module matters to it. |
| ModuleCorrectness.ShortFunction | src/core/bytecode_compiler.cc:713-722 | In a function of at most 32768 bytes no jump back needs 24 bits. |
| ModuleCorrectness.EntryPosition | src/core/bytecode_compiler.cc:1157 | The position that link_load reads for an entry label is that of the function's first item in the linked bytes. |
| ModuleCorrectness.LinkedLambdaImplements | src/core/bytecode_compiler.cc:1049-1082 | In the linked bytes of any module of compiled lambdas, each function without a backward jump of 24 bits, entered with any arguments, stack, registers and whatever the functions it calls answer, computes what its source means. |
| ModuleCorrectness.ModuleCompiler.LinkLoad | src/core/bytecode_compiler.cc:1129-1203 | End to end over any history of compilations: linking and creating the bytecode yields entry points at which every lambda compiled into the module that has no loops or at most 32768 bytes is implemented by the bytes, or an error when no consistent layout exists. |
| LoopExamples.LoopIsCompiled | src/core/bytecode_compiler.cc:2294-2379 | The items that the compiler emits for a lambda whose body is a tag, n calls and a go back to the tag. |
| LoopExamples.LoopLinks | src/core/bytecode_compiler.cc:930-952 | That lambda can be linked for every n with 5n + 2 <= 2^23. |
| LoopExamples.LoopArrives | src/core/bytecode.cc:91-105 | However it is linked, its go arrives at the tag if and only if 5n + 2 <= 32768: the misread backward label is reachable from compiled code. |
| ClosedOver.MakesVariable | src/core/bytecode_compiler.cc:756-767 | The bytes that bind a variable move the value from the stack into its register, or into a new cell there if the variable is closed over and set. |
| ClosedOver.ReadsVariable | src/core/bytecode.cc:356-362 | The bytes that read a variable push its value, whether a register keeps it or a cell. |
| ClosedOver.WritesVariable | src/core/bytecode_compiler.cc:800-830 | The bytes that set a variable give it the value on top of the stack and change no other register and no other cell, in all four encodings. |
| ClosedOver.EncagesArgument | src/core/bytecode_compiler.cc:769-786 | An argument in its register becomes a variable of the same value. |
| ClosedOver.Enters | src/core/bytecode_compiler.cc:848-862 | Entering a block or tagbody remembers the stack, by its pointer or by a dynamic environment, and changes nothing else. |
| ClosedOver.Leaves | src/core/bytecode.cc:755-778 | However much has been pushed and whatever has been entered since, the bytes of an exit lead to the displacement read there with the stack of the entry, and leave the entry usable for the next exit. |
| KeywordArguments.LeftmostIsFirst | src/core/bytecode.cc:486-488 | The leftmost-wins rule used as specification, tied to indices: the value after the first occurrence of a key, or no occurrence at all. |
| KeywordArguments.ParseKeyArgs | src/core/bytecode.cc:468-520 | For every argument vector the backward loop leaves in each key's register the value after its first occurrence, or the unbound marker; it reports exactly the keys that are neither declared nor :allow-other-keys, in argument order, if there is one and neither the lambda list nor the first :allow-other-keys allows them; and it signals an odd number exactly then. |
| KeywordArguments.BindOptionalArgs | src/core/bytecode.cc:429-443 | Every optional parameter's register gets its argument or the unbound marker, and no other register changes. |
| KeywordArguments.KeyOperandsReadBack | src/core/bytecode_compiler.cc:556-578 | The operands of parse-key-args are read back by the machine if and only if the key count is below 128 in the short form or below 32768 in the long one. |
| KeywordArguments.KeyOperandOrder | src/core/bytecode_compiler.cc:556-578 | The order of the operands in both forms, with the flag in the top bit of the key count. |
| KeywordArguments.ManyKeysAreMisread | src/core/bytecode.cc:475-476 | 128 keys in the short form are read as none, with other keys allowed. |
| KeywordArguments.KeyArgsFallThrough | src/core/bytecode.cc:1126-1189 | After parse-key-args the machine goes on at the next instruction if and only if the short form was emitted: the long form falls through into the argument count check. |
| KeywordArguments.LongKeyArgsSkipInstructions | src/core/bytecode.cc:1126-1189 | After the long form for one key behind 256 positional arguments the machine goes on three bytes into the next instructions. |
| CastGraph.SearchStep | src/clbind/inheritance.cc:175-196 | Although vertices are marked only when dequeued, each turn lowers a weight of the queue in which an entry counts for all it could still be replaced by; queue entries trace chains of distinct vertices. The search terminates on every graph. |
| CastGraph.UncachedSound | src/clbind/inheritance.cc:175-196 | Whatever the casts do, a hit comes from a chain of casts that are not null from the start to the target, with its number of casts. |
| CastGraph.UncachedIsShortest | src/clbind/inheritance.cc:170-202 | When successful casts to a class agree on the pointer, the search finds the target if and only if some chain of casts reaches it, with the pointer all such chains give and the least number of casts. |
| CastGraph.IncoherentSearchMisses | src/clbind/inheritance.cc:190-195 | Without that agreement a chain of casts can exist that the search does not find. |
| CastGraph.SmallerClassFirst | src/clbind/inheritance.cc:190-195 | Of two shortest chains that end at different places, the one by the class with the smaller identifier is found. |
| CastChains.UncachedFindsDirect | src/clbind/inheritance.cc:170-196 | With no agreement required: the end of a chain that arrives at each of its vertices as early as any chain does is found, at the chain's length. |
| CastCache.InsertedValid | src/clbind/inheritance.cc:204-221 | Insertion keeps vertices numbered and every vertex's edges sorted by target and free of duplicates. |
| CastCache.InsertedEdges | src/clbind/inheritance.cc:214-220 | The graph after an insertion has exactly the edges it had and the new one; an edge that exists keeps its first cast. |
| CastCache.EdgeOfMeans | src/clbind/inheritance.cc:214-220 | The edge that the lower bound finds is the one that stands among the edges of its source. |
| CastCache.Impl.Insert | src/clbind/inheritance.cc:204-221 | The graph becomes the one specified, and the cache is emptied exactly when an edge was added; growth of the vertex set never leaves a cache entry behind. |
| CastCache.Impl.SearchUncached | src/clbind/inheritance.cc:170-196 | The loop over pointers, a queue and a bit set computes the specified search. |
| CastCache.Impl.Cast | src/clbind/inheritance.cc:128-202 | After any history of insertions and casts the answer is that of an uncached search: a pointer is the end of a chain of as many casts as the distance says, the null pointer comes with -1, and when casts to a class agree on the pointer the end of a shortest chain is found whenever there is one, that of no casts for the class itself. |
| TwosComplement.BooleBit | src/core/bits.cc:512-514 | The reference meaning of the operators: bit n of the result is the truth table applied to bit n of the operands as infinite two's complement, for all n, signs and all sixteen tables. |
| TwosComplement.SameBits | src/core/bits.cc:512-514 | An integer is determined by its bits, so that the meaning above leaves one result only. |
| TwosComplement.BooleMagnitudes | src/core/bits.cc:127-170 | The x-1 and x+1 identities for all tables and signs at once: an operation on integers is an operation on their magnitudes, complemented when the table says so for the signs. |
| TwosComplement.BooleRange | src/core/bits.cc:572-577 | No operation on operands between -2^k and 2^k leaves that range. |
| Limbs.LimbOpVal | src/core/bits.cc:47-55 | Operating limb by limb is operating on the numbers. |
| Limbs.NormalUnique | src/core/bignum.cc:160-173 | Numbers without leading zero limbs are represented in one way only. |
| LimbBuffers.Add1 | src/core/bits.cc:31-45 | The carry loop adds a word to a magnitude exactly, for a result that may be the operand. |
| LimbBuffers.Sub1 | src/core/bits.cc:127-136 | The borrow loop subtracts a word from a magnitude exactly, for a result that may be the operand. |
| LimbBuffers.AddSigned | src/core/bignum.cc:703-751 | The carry and borrow loops over two magnitudes of different length are exact. |
| BooleOperators.NextAddOneAux | src/core/bits.cc:31-45 | The magnitude plus one, normalized, with a carry into one more limb only where the buffer has one. |
| BooleOperators.NextAnd | src/core/bits.cc:138-170 | The sign-magnitude result of and read as an integer is the operation on the two's complement bits of the operands, for all signs including zero and with the result in the buffer of the first operand, normalized when the operands are. |
| BooleOperators.NextAndc2 | src/core/bits.cc:172-211 | The sign-magnitude result of andc2 read as an integer is the operation on the two's complement bits of the operands, for all signs including zero and with the result in the buffer of the first operand, normalized when the operands are. |
| BooleOperators.NextAndc1 | src/core/bits.cc:221-223 | The sign-magnitude result of andc1 read as an integer is the operation on the two's complement bits of the operands, for all signs including zero and with the result in the buffer of the first operand, normalized when the operands are. |
| BooleOperators.NextXor | src/core/bits.cc:241-272 | The sign-magnitude result of xor read as an integer is the operation on the two's complement bits of the operands, for all signs including zero and with the result in the buffer of the first operand, normalized when the operands are. |
| BooleOperators.NextIor | src/core/bits.cc:284-317 | The sign-magnitude result of ior read as an integer is the operation on the two's complement bits of the operands, for all signs including zero and with the result in the buffer of the first operand, normalized when the operands are. |
| BooleOperators.NextNor | src/core/bits.cc:341-367 | The sign-magnitude result of nor read as an integer is the operation on the two's complement bits of the operands, for all signs including zero and with the result in the buffer of the first operand, normalized when the operands are. |
| BooleOperators.NextEqv | src/core/bits.cc:378-408 | The sign-magnitude result of eqv read as an integer is the operation on the two's complement bits of the operands, for all signs including zero and with the result in the buffer of the first operand, normalized when the operands are. |
| BooleOperators.NextC2 | src/core/bits.cc:410-412 | The sign-magnitude result of c2 read as an integer is the operation on the two's complement bits of the operands, for all signs including zero and with the result in the buffer of the first operand, normalized when the operands are. |
| BooleOperators.NextOrc2 | src/core/bits.cc:414-457 | The sign-magnitude result of orc2 read as an integer is the operation on the two's complement bits of the operands, for all signs including zero and with the result in the buffer of the first operand, normalized when the operands are. |
| BooleOperators.NextC1 | src/core/bits.cc:459-461 | The sign-magnitude result of c1 read as an integer is the operation on the two's complement bits of the operands, for all signs including zero and with the result in the buffer of the first operand, normalized when the operands are. |
| BooleOperators.NextOrc1 | src/core/bits.cc:463-465 | The sign-magnitude result of orc1 read as an integer is the operation on the two's complement bits of the operands, for all signs including zero and with the result in the buffer of the first operand, normalized when the operands are. |
| BooleOperators.NextNand | src/core/bits.cc:477-508 | The sign-magnitude result of nand read as an integer is the operation on the two's complement bits of the operands, for all signs including zero and with the result in the buffer of the first operand, normalized when the operands are. |
| BooleOperators.NextClr | src/core/bits.cc:114-115 | The sign-magnitude result of clr read as an integer is the operation on the two's complement bits of the operands, for all signs including zero and with the result in the buffer of the first operand, normalized when the operands are. |
| BooleOperators.NextSet | src/core/bits.cc:122-125 | The sign-magnitude result of set read as an integer is the operation on the two's complement bits of the operands, for all signs including zero and with the result in the buffer of the first operand, normalized when the operands are. |
| BooleOperators.Next1 | src/core/bits.cc:213-219 | The sign-magnitude result of 1 read as an integer is the operation on the two's complement bits of the operands, for all signs including zero and with the result in the buffer of the first operand, normalized when the operands are. |
| BooleOperators.Next2 | src/core/bits.cc:225-227 | The sign-magnitude result of 2 read as an integer is the operation on the two's complement bits of the operands, for all signs including zero and with the result in the buffer of the first operand, normalized when the operands are. |
| LogicalOperations.FixnumOperationMeans | src/core/bits.cc:522-557 | The fixnum operators have the same meaning as the bignum operators of the same number, and fixnums are closed under them. |
| LogicalOperations.ClaspBoole | src/core/bits.cc:671-695 | For all four combinations of fixnums and bignums the canonical integer whose bits are those of the operation, spelled out for each of the sixteen numbers, or the overrun exactly where it happens. |
| LogicalOperations.OverrunsExactly | src/core/bits.cc:688-691 | The buffer that two bignums are given is too short if and only if the operation sets the sign and no bit of any limb, that is, exactly for the result -B^max. |
| LogicalOperations.LogandOverruns | src/core/bits.cc:688-691 | It can be too short: logand of -2^63 and -2^63 - 1. |
| LogicalOperations.NextOperationRest | src/core/bits.cc:561-631 | Any number of operands: the buffer of one limb more than the longest suffices with the result aliasing the first operand, denormalized zeros do no harm, and the all-fixnum and mixed paths give the same fold. |
| LogicalOperations.FoldBooleBit | src/core/bits.cc:614-627 | Bit n of a fold is the fold of the bits n. |
| LogicalOperations.FoldAndIor | src/core/bits.cc:828-850 | logand keeps the bits set in all operands, logior those set in any. |
| LogicalOperations.FoldXorEqv | src/core/bits.cc:852-872 | logxor sets the bits set in an odd number of the operands, logeqv those clear in an even number. |
| LogicalOperations.Logand | src/core/bits.cc:830-836 | For any number of integers, none included, a bit is set exactly if it is set in all of them. |
| LogicalOperations.Logior | src/core/bits.cc:842-848 | For any number of integers, none included, a bit is set exactly if it is set in some of them. |
| LogicalOperations.Logxor | src/core/bits.cc:854-860 | For any number of integers, none included, a bit is set exactly if it is set in an odd number of them. |
| LogicalOperations.Logeqv | src/core/bits.cc:866-872 | For any number of integers, none included, a bit is set exactly if it is clear in an even number of them. |
| LogicalOperations.Lognot | src/core/bits.cc:907-919 | The canonical complement, with every bit inverted. |
| BitQueries.Logbitp | src/core/bits.cc:699-732 | Bit n of the integer in two's complement for every fixnum n and every sign, by the borrow scan of lower limbs for negative bignums; the sign for a bignum n, which is that bit wherever the integer has no more bits; an error exactly for negative indices. |
| BitQueries.CountIsDiffering | src/core/bignum.cc:185-203 | The number of set bits of the magnitude (one less for negative numbers) is the number of bits that differ from the sign. |
| BitQueries.Popcount | src/core/bignum.cc:185-203 | The number of places whose bits differ from the sign, as the cardinality of their set. |
| BitQueries.BitLengthOf | src/core/bignum.cc:205-223 | The least k with -2^k <= x < 2^k. |
| Bignum.BignumResultCanonical | src/core/bignum.cc:69-85 | bignum_result gives exactly the number of its limbs in canonical form: a fixnum if and only if it is in the fixnum range, and no zero top limb. |
| Bignum.NegativeZeroStaysBignum | src/core/bignum.cc:77-80 | A negative zero limb is not recognized as the fixnum zero. |
| Bignum.CanonicalUnique | src/core/bignum.cc:170-183 | Canonical representations are equal if and only if the integers are. |
| Bignum.MpnCmp | src/core/bignum.cc:844 | The scan from the top limb decides the order of the numbers. |
| Bignum.NextCompare | src/core/bignum.cc:833-858 | Comparing signed lengths and then limbs is the order of the integers. |
| Bignum.Eql | src/core/bignum.cc:170-183 | A bignum is eql to an integer if and only if they are equal, including that no fixnum is. |
| Bignum.Negate | src/core/bignum.cc:160-168 | The canonical negative, a fixnum only for the negative of the most negative one. |
| BignumAddition.NextAdd | src/core/bignum.cc:703-751 | The exact sum in canonical form for all signs and sizes. |
| BignumAddition.NextFadd | src/core/bignum.cc:764-793 | The exact sum of a bignum and a fixnum in canonical form; at most one limb is lost and the sign is the bignum's. |
| BignumAddition.AddBignums | src/core/bignum.cc:753-761 | core__next_add and core__next_sub are the sum and the difference. |
| BignumAddition.AddFixnum | src/core/bignum.cc:795-804 | core__next_fadd and core__next_fsub are the sum and the difference. |
| BignumShifts.MpnLshift | src/core/bignum.cc:284-286 | The shift loop multiplies by a power of two, with the carry out of the top limb. |
| BignumShifts.RshiftVal | src/core/bignum.cc:317-319 | Limbs joined from the high bits of one and the low bits of the next are the quotient by a power of two. |
| BignumShifts.NextLshift | src/core/bignum.cc:266-293 | The product with 2^s in canonical form, s being the shift whose whole limbs are counted in 32 bits; it is the product that was asked for if and only if that count fits. |
| BignumShifts.NextRshift | src/core/bignum.cc:296-342 | The result is canonical and floor(x / 2^s) for the shift that was asked for if and only if no carry of a negative number shifted by whole limbs is lost, and the count of whole limbs fits 32 bits or only the sign is left anyway; what it is otherwise is said too. |
| BignumShifts.NegativeQuotient | src/core/bignum.cc:303-316 | The carry is lost if and only if the shift is by whole limbs, all limbs that remain are full and some limb below is not zero. |
| BignumShifts.RshiftExact | src/core/bignum.cc:296-300 | The quotient by the power of two that is shifted by is the one asked for if and only if the count of whole limbs fits 32 bits or the number lies within that power of two. |
| BignumShifts.LshiftExact | src/core/bignum.cc:271-273 | The same for the product: if and only if the count of whole limbs fits 32 bits. |
| BignumShifts.HugeShiftDoesNothing | src/core/bignum.cc:271-273 | 2^32 whole limbs are counted as none: both shifts by 2^38 return 2^63 unchanged. |
| BignumShifts.RshiftLosesACarry | src/core/bignum.cc:311-315 | A carry is lost for -(B^2 - B + 1) shifted by one limb. |
| BignumShifts.ShiftBack | src/core/bignum.cc:344-355 | A right shift undoes a left shift by the same amount, for every bignum and every amount. |
| Divisors.GcdGreatest | src/core/bignum.cc:466-477 | The reference for the greatest common divisor: it divides both numbers and is divided by every common divisor. |
| Divisors.GcdShifted | src/core/bignum.cc:466-477 | gcd(2^a u, 2^b v) = 2^min(a, b) gcd(u, v) for odd u and v. |
| BignumGcd.StripZeros | src/core/bignum.cc:479-516 | The zero limbs and bits are taken out exactly and leave an odd normal number. |
| BignumGcd.NextGcd | src/core/bignum.cc:466-564 | The greatest common divisor of the magnitudes in canonical form, the shift put back being the lexicographic minimum of limbs and bits. |
| BignumGcd.GcdOfBignums | src/core/bignum.cc:567-569 | core__next_gcd is the greatest common divisor of the absolute values. |
| BignumGcd.NextFgcdExactly | src/core/bignum.cc:572-579 | core__next_fgcd is the greatest common divisor if and only if it is not given zero and a negative bignum, nor the most negative fixnum and a multiple of it. |
| BignumGcd.NextFgcdGoesWrong | src/core/bignum.cc:572-579 | Both inputs exist: -2^63 comes back for zero, and the greatest common divisor of -2^63 and -2^61 comes out as -2^61. |
| Backquote.BackquoteProcess | src/core/backquote.cc:153-211 | The loop that collects bracketed elements in reverse and ends with nreconc builds the append form of the specification, or signals an error exactly where that does. |
| BackquoteMeaning.BracketMeans | src/core/backquote.cc:215-232 | The bracketed form of any element evaluates to the list of exactly the elements that it contributes: the value of an unquoted form, all elements of a spliced one, or the instantiated subtemplate. |
| Backquote.BackquoteAppend | src/core/backquote.cc:88-107 | For lists made up of given elements the result is made up of all elements in order with the last argument as tail; an error exactly if there is no argument or one before the last is no proper list. |
| Backquote.ElementsMakeUp | src/core/backquote.cc:97-103 | The elements collected from a list are exactly those that make it up, in order. |
| Backquote.RemoveTokens | src/core/backquote.cc:403-426 | Data and forms without tokens are left as they are, and no backquote is duplicated. |
| BackquoteMeaning.ExpansionHasNoTokens | src/core/backquote.cc:403-426 | The finished expansion of a template without tokens has none either, so that an outer backquote can process it. |
| BackquoteMeaning.ExpansionMeans | src/core/backquote.cc:139-231 | Evaluating the expansion of any template, with splices, dotted tails and nested backquotes, instantiates the template as section 2.4.6 of the Common Lisp HyperSpec says: same value or failure, each form evaluated once, from left to right, with the same effect on the program's state. |
| BackquoteMeaning.CommasInOrder | src/core/backquote.cc:139-231 | A template of two unquoted forms is the list of their values, the first evaluated first and what it changes seen by the second. |
| BackquoteMeaning.SpliceInOrder | src/core/backquote.cc:139-231 | A splice puts the elements of its list in front of what follows, in order. |
| BackquoteMeaning.TokenIsReplaced | src/core/backquote.cc:403-413 | A token in a template is not safe: the template that is the token for list expands to a form for the symbol list. |
| BackquoteMeaning.ErrorsExactly | src/core/backquote.cc:153-231 | The expansion signals an error exactly for the templates in which a splice stands for a whole template or a tail, or an unquote lacks its one form. |
| BitVectors.SimpleBitVector.Get | include/clasp/gctools/gcbitarray.h:164-170 | Reading through a mask gives the element of the boolean sequence. |
| BitVectors.SimpleBitVector.Set | include/clasp/gctools/gcbitarray.h:149-163 | Writing through a mask changes that element and no other. |
| BitVectors.HighestFirst | include/clasp/gctools/gcbitarray.h:149-170 | The first element of a word is its highest bit, the last one its lowest. |
| BitVectors.FormBit | src/core/array_bit.cc:79-107 | Each word expression acts on every bit of a word as the operator of its name does. |
| BitVectors.SbvBitOp | src/core/array_bit.cc:64-107 | Each bulk operator acts on every element below the length, for operands and results that may be the same vectors, and leaves the words beyond alone. |
| BitVectors.SbvBitNot | src/core/array_bit.cc:109-118 | Every element below the length is inverted. |
| BitVectors.SbvPopcnt | src/core/array_bit.cc:144-150 | The number of set elements, as the cardinality of the set of their places, whatever the last word holds beyond the length. |
| BitVectors.SbvZerop | src/core/array_bit.cc:152-156 | True exactly when no element is set, whatever lies beyond the length. |
| BitVectors.SbvPositionOne | src/core/array_bit.cc:158-163 | The least index of a set element, or none exactly when there is none. |
| BitVectors.ScanIsDefined | src/core/array_bit.cc:124-142 | With the mask as it is written, of an int, counting the elements is defined if and only if the length is a multiple of 64, and a test or search for an element if and only if it is or an element is set before the last word. |
| BitVectors.RangedEqual | src/core/array_bit.cc:14-27 | True exactly when the two ranges are the same sequence. |

## Left out

- Compile: macros, compiler macros, declarations, debug information, warnings, source locations, load-time-value and native compilation are not part of this model; a debug label would only be another mark.
- Compile: special and global variables are left out, because compile_let binds specials between init forms, and so are closures and cells, `flet`, `labels`, `catch` and optional or keyword parameters of compiled lambdas.
- Tagbody: a tagbody with a tag twice is not covered, where the source places one label twice; tags are names, compared as such.
- LinkLoad: a function of more than 32768 bytes is covered if it has no loops or no jump of 24 bits back (LinkedLambdaImplements); that a loop which runs for ever in the source does so in the machine is not stated, only that the calls agree for as long as the source is followed.
- AddLambda: is told whether the function may have loops, which the source does not ask and which changes no code.
- ClosedOver.Leaves: an exit through a dynamic environment is run within the function that entered it; closures, cells that other functions share, the C++ frames that an unwinding leaves and the error for an environment that has been closed are left out.
- Lexical: whether a variable is closed over and set is fixed when a fixup is made; in the source it may still change until linking. Every variable of the compiled subset is neither.
- Linker.Module: functions, annotations and places are records in sequences that the module's methods reassign, where the source has objects that refer to each other; positions are updated in place only through the module.
- CompileForm: a frame index above 65535 or a supplied-p index above 255 makes compilation fail in the model; the source silently truncates them to 16 and 8 bits.
- Execute: values are an abstract type with nil, an unbound marker and fixnums; the machine's stack and registers are sequences, and tagging, garbage collection and debug recording are left out.
- ParseKeyArgs: the argument vector is a sequence, and the errors are results instead of calls of the error functions.
- KeyArgsFallThrough: describes where execution goes on, not what the misread argument limit does to later instructions.
- Cast: an edge's cast function depends on the dynamic class and the offset in the complete object only, which is what the cache key assumes; the graph belongs to the cache's object, where the source shares one global graph between all.
- Cast: pointers are integers, and the range check against the graph's size is modelled for classes of the model's unbounded identifiers.
- ClaspBoole: what a write past the end of the buffer does to memory is not modelled; the result None stands for it.
- FixnumOperation: the machine's word operators on fixnums are their two's complement meaning.
- NextRshift: the buffers on the C stack are assumed to be available at any size, as are those of all other operations.
- MpnGcd: stands for `mpn_gcd` and computes on values; its demands on the order and the oddness of its operands are preconditions that next_gcd is proved to meet. `mpn_gcd_1` is likewise a function on values.
- MpnLshift, AddSigned: the multi-precision primitives are simple loops with the documented effect, not the library's assembly code.
- Logbitp: for a bignum as index the answer is the sign, which is not always the bit of an integer with more bits than the index; no such integer fits in memory.
- Bignum: multiplication, division (`mpn_tdiv_qr`), ratios, conversion to and from floats, strings and `mpz` are left out.
- Process: the simplifier is left out, because `backquote_completely_process` discards what it computes; assertions count as errors, and `nreconc` works on the fresh list it is given.
- Eval: knows quote, list and append; all other forms are evaluated by an arbitrary function of the program, so that nothing is assumed of them.
- ExpansionMeans: requires that the template contains none of the six token symbols, which remove_tokens would replace (TokenIsReplaced); nothing is said of which other templates with tokens come out right.
- UncachedIsShortest, UncachedFindsDirect: two conditions under which every reachable target is found; that the search finds a target only if some chain leads there always holds, but the exact condition for finding it lies between the two and is open.
- BackquoteAppend: an improper list before the last argument counts as an error.
- SbvPopcnt, SbvZerop, SbvPositionOne: the mask of the last word is taken at the width of a word, as intended; the source's own mask is never defined (ScanIsDefined).
- SimpleBitVector: elements of more than one bit, adjustable vectors and displaced vectors are left out.
- Everything else in the repository, from the AST tools and the debugger to package setup, streams and the rest of the numeric tower, would add input and output, foreign calls or easier members.
