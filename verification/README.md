# Verified models of chibi-scheme

Models, in Dafny 4.11, of the parts of chibi-scheme that carry unbounded
properties: the compiler and the virtual machine, the simplifier, the garbage
collector and allocator, the heap packer and image loader, exact arithmetic,
immediate symbols and the cycle-safe list scans.  `dafny verify dfyconfig.toml`
checks all of them.

The configuration modelled is the default 64-bit build: no tail jumps, no
unboxed locals, no alignment of bytecode, precise collection, Huffman symbols.

## The parts

**Compiler and machine.**  `scheme.dfy` is a reference evaluator over analysed
expressions: literals, variables, `set!`, `if`, sequences, lambdas with rest
arguments and internal definitions, n-ary arithmetic and comparison, pairs
with `set-car!` and `set-cdr!`, and application.  `vm.dfy` is the machine as a step function over bytecode cells,
one stack, a frame pointer and a heap; `machine.dfy` is the machine itself, a
loop that overwrites its stack array and registers, proved to do exactly those
steps.  `codegen.dfy` is the code of each expression and `emitter.dfy` the
generator that writes it into a growing buffer and patches labels.  The proof
that both agree is in `relation.dfy` to `program.dfy`: values correspond to
words, assigned variables to boxes shared by every closure that captures them,
and pairs to pairs of the heap, however they are shared or tied into cycles.
`freevars.dfy` computes the closure layouts the generator relies on,
`simplifier.dfy` and the files before it show that the simplifier keeps the
meaning, `normal.dfy` that it leaves nothing it could still do, and `pipeline.dfy` puts simplification, free variables, code
generation and execution together.  `frames.dfy` and `continuations.dfy` treat
calls, tail calls, rest arguments and captured continuations.

**Collector and allocator.**  `gc_mark.dfy` marks from an explicit stack of
slot ranges; `runs.dfy` tells what a sweep frees; `tiles.dfy`, `heap.dfy` and `memory.dfy` describe a chunk as a row
of tiles with an address-ordered free list, swept, carved and grown;
`collection.dfy` joins the two.

**Packing and images.**  `heap_walk.dfy`, `heap_pack.dfy`, `relocate.dfy`,
`packer.dfy` and `image.dfy` copy the heap, rewrite every slot and bytecode
operand through the sorted remap table, and load a saved image elsewhere;
`heap_image.dfy` says what it means for two memories to hold the same graph.

**Exact arithmetic.**  `digits.dfy` to `rounding.dfy` work on arrays of 64-bit
words with a sign, updated in place as in the original; `numerals.dfy` is
positional notation, by which what is written and read is told; `aliasing.dfy` is
subtraction into the storage of the minuend; `words.dfy` is the hand-written
128-bit integer type.

**Symbols and lists.**  `huffman.dfy` and `lists.dfy`.

Where a loop of the original updates variables there is a loop here, with a
contract that refers to a function, and the function's properties are lemmas.

## Model

| member | source | states |
|---|---|---|
| Program.CompilerCorrect | vm.c:761-778 | The machine halts on the generated code exactly when the evaluator ends with a value, and then on that very datum: every path of cars and cdrs leads to the same, around cycles too, and the same pairs are shared; it raises exactly when the evaluator ends in an error; it never gets stuck on an ill-formed operand, frame or jump |
| Program.ConstantResult | vm.c:2277-2299 | A program whose value is a constant halts on that very constant |
| Program.OutcomeMatches | vm.c:1072-1168 | What the machine does after any number of steps, the evaluator does with one more unit of fuel |
| Simulate.SimExpr | vm.c:761-778 | From a well-formed frame, the code of any expression leaves the old stack and a word for the value, or in tail position hands the word to the caller; nothing in the heap changes but boxes of assigned variables and pairs |
| Simulate.SimApply | vm.c:1301-1355 | A call of a related procedure ends in the caller's registers with the result on top of the stack below the arguments |
| Simulate.SimCnd | vm.c:247-287 | Both relative jumps of a conditional land where its parts begin and end, whatever their length |
| Simulate.SimPrim | vm.c:348-501 | N-ary opcode applications: default operands, operand order, chained comparisons and folded arithmetic compute the primitive's value or raise |
| Scheme.Arities | opcodes.c:41-102 | How many operands each opcode takes |
| Scheme.Truncates | vm.c:1898-1940 | The remainder is smaller than the divisor and has the sign of the dividend |
| Prims.DoPairs | vm.c:1734-1762 | Making, reading and changing pairs does to the heap what it does to the store, and raises on anything but a pair |
| Prims.DoMutation | vm.c:1742-1757 | A change of a car or cdr is seen through every reference to the pair and through no other pair or box |
| Program.RelatedShows | vm.c:1734-1762 | Words that stand for values show the same data: what each path leads to, and which paths lead to one pair |
| Compiler.Enter | vm.c:605-662 | Entering a procedure reserves its locals and boxes its assigned parameters so that frame and store correspond again |
| Closures.DoLambda | vm.c:664-759 | A lambda expression leaves a procedure whose closure vector holds, variable by variable, the slots and boxes of the enclosing frame |
| Closures.DoCaptures | vm.c:735-749 | The closure vector is filled from slots of the frame or of the enclosing closure, without unboxing |
| Entry.EnterRel | vm.c:1301-1345 | Arguments beyond the named ones arrive as a list, too few or too many raise |
| Emitter.CompileBody | vm.c:605-662 | The emitter's buffer, after all label patching, holds exactly the code the correctness proof is about |
| Emitter.Context.Generate | vm.c:761-778 | Appends exactly the code of the expression to the buffer |
| Emitter.Context.GenerateCnd | vm.c:247-287 | Appends the code of a conditional by emitting holes and patching them with the distances jumped |
| Emitter.Context.PatchLabel | vm.c:202-215 | Writes the distance from a label to the current position into its hole and nothing else |
| Emitter.Context.DropPush | vm.c:221-230 | Takes back a literal that was just pushed instead of emitting a drop |
| Emitter.Context.Expand | eval.c:316-337 | Grows the buffer and keeps its contents |
| Emitter.Context.GenerateOpcodeApp | vm.c:348-501 | Appends operands, defaults and operators of an opcode application in the order its class demands |
| Machines.Machine.Turn | vm.c:1072-1168 | One round of the loop makes the step of the specification, in the registers, the stack array and the heap |
| Machines.Machine.Execute | vm.c:1072-1168 | Any number of rounds make the run of the specification |
| Machines.Machine.MakeCall | vm.c:1301-1355 | The shuffling of arguments, the rest list and the frame in place yield the stack of the specified call |
| Machines.Machine.TailCall | vm.c:1282-1300 | Moving the operands over the frame in place yields the stack of the specified tail call |
| Machines.Machine.CallCC | vm.c:1234-1251 | Saving the stack into a vector and calling the receiver in place |
| Machines.Machine.Resume | vm.c:1220-1233 | Overwriting the stack with a saved one, grown when it does not fit |
| Machines.Machine.EnsureStack | vm.c:861-885 | Growing the stack keeps what is on it |
| Frames.CallEnters | vm.c:1301-1355 | A call succeeds exactly when the procedure takes that many arguments; then the exit is in the frame, each argument is in its slot, and the surplus is a list in call order |
| Frames.TailCallKeepsExit | vm.c:1282-1300 | A tail call runs another procedure with the same base, return address, caller and saved frame pointer |
| Frames.PopsFit | vm.c:1072-1168 | An instruction that goes on has found the words it consumes |
| Frames.ExitStays | vm.c:1282-1300 | Over any run of an activation, through any chain of tail calls and any nesting of returning calls, its exit does not change |
| Frames.ActivationReturns | vm.c:2277-2286 | Such an activation, when it returns, goes on at the exit its call was made with |
| Frames.CaptureCalls | vm.c:1234-1251 | A capture calls its receiver on a procedure of one argument and keeps the whole stack in fresh vectors |
| Frames.ThrowIsReturn | vm.c:1220-1233 | Entering a captured continuation on a value reaches the state that returning the value from the receiver reaches: stack, frame pointer, address and procedure |
| Frames.CallThrows | vm.c:1220-1233 | So does calling it from any stack and any procedure |
| Frames.ThrowLater | vm.c:890-913 | And at any later time, as long as nothing was stored into the two vectors |
| Continuations.CompiledReturns | vm.c:1282-1355 | Every call of a compiled procedure that has a value ends at the exit it was made with, with a word for that value, whatever it calls in tail position |
| Continuations.CompiledKeeps | vm.c:890-913 | A compiled procedure leaves every captured stack as it was |
| Continuations.ThrowAfterCompiled | vm.c:1220-1251 | After compiled code has run, throwing to a continuation captured before it still is a return from the receiver |
| FreeVariables.FreeVars | eval.c:1265-1296 | Returns the given list extended by exactly the free variables of the term, without duplicates, and stores in every lambda exactly its own |
| FreeVariables.InsertFreeVar | eval.c:1232-1240 | Adds a variable unless it is there |
| FreeVariables.UnionFreeVars | eval.c:1241-1251 | The union, without duplicates |
| FreeVariables.DiffFreeVars | eval.c:1252-1264 | Takes out exactly the references to the lambda's own names; a variable of the same name bound elsewhere stays |
| FreeVariables.ExactIsWellFormed | vm.c:288-311 | With exact lists every reference that is not local finds a slot within the closure vector, also while a nested closure is built |
| FreeVariables.Annotate | eval.c:1265-1296 | A closed, resolved program becomes one the generator accepts |
| Simplifier.SimplifyPreserves | simplify.c:11-154 | A resolved program and its simplified form have the same outcome with every amount of fuel, and the simplified form is resolved |
| Simplifier.SimplifyRewrites | simplify.c:11-154 | Whatever the simplifier does is a rewriting: constants folded, known branches taken, unassigned constant parameters substituted, idle sequence elements dropped, and nothing else |
| NormalForms.SimplifyDone | simplify.c:11-154 | What it leaves is in normal form: no arithmetic on literals that has a constant value, no conditional on a literal, no literal, reference or lambda before the end of a sequence, and, inside a lambda, no directly applied lambda with a literal for a parameter that is never assigned |
| NormalForms.SimplifyTwice | simplify.c:11-154 | Simplifying the result again changes nothing |
| Rewriting.RewritesPreserve | simplify.c:11-154 | A program and any rewriting of it end alike: the same data along every path of cars and cdrs, the same sharing of pairs, procedures for procedures, the same errors, same running on |
| Composition.Compose | simplify.c:11-154 | Rewriting a rewritten expression again is one rewriting, with the substitutions joined; hence simplifying in several passes over the same nodes is sound |
| KnownValues.KnownRuns | simplify.c:122-129 | An expression recognised as a constant evaluates to it without any effect |
| KnownValues.IdleRuns | simplify.c:135-148 | A sequence element that may be dropped evaluates to a value and changes nothing |
| SimplifyPass.Run | simplify.c:11-154 | The pass with its loops over lists of substitutions and arguments computes the simplified form, and that is in normal form |
| SimplifyPass.MoveConstants | simplify.c:61-90 | The loop over parameters and arguments takes out exactly the unassigned parameters bound to constants |
| Pipeline.Compile | eval.c:2706-2736 | Simplification, free variables and generation in sequence yield code that implements the program |
| Pipeline.CompileAndRun | eval.c:2738-2760 | Running that code on the machine reports only what the evaluator computes |
| Pipeline.RewritingImplements | eval.c:2706-2736 | The code of any rewriting of a program implements the program |
| Marking.Mark | gc.c:300-304 | Marks exactly what is reachable through strong slots and saved variables, besides what was marked, and leaves the stack empty |
| Marking.Collector.MarkOne | gc.c:256-284 | Follows one pointer, stacking the other slots as a range: after it every slot of a marked object is marked, no pointer, in a stacked range, or owed, trailing repetitions left out |
| Marking.Collector.MarkFrom | gc.c:285-299 | Drains the range stack; no range is left and no marked object points to an unmarked one |
| Marking.SlotsCovered | gc.c:256-284 | Leaving out trailing slots that need no work and trailing copies of one pointer loses no slot |
| Heaps.Heap.Sweep | gc.c:471-541 | The chunk stays tiled with a sorted free list and no two free neighbours; exactly the marked objects stay, their marks cleared; the total freed is the size of the unmarked ones; the largest freed is at least the size of every run of free and unmarked neighbours that something died in, and is what it was before or the size of such a run |
| Runs.LargestIsLargest | gc.c:500-533 | The largest run found in one scan of the tiles is the largest there is |
| Runs.AtLeastDead | gc.c:500-533 | It is at least as large as everything that dies |
| Heaps.Heap.FreeBlock | gc.c:500-530 | Freeing one block, joined with either neighbour, both or none |
| Heaps.Heap.TryAlloc | gc.c:637-676 | First fit, with the rest split off; none exactly when no free block is large enough |
| Heaps.Coalesce | gc.c:500-530 | Joining free neighbours keeps tiling, order and the block fields |
| Heaps.Carved | gc.c:653-671 | Taking the front of a free block, or all of it, keeps the chunk well-formed without a gap |
| Memory.Chain.TryAlloc | gc.c:637-676 | The first chunk with room serves the request; everything allocated stays, apart from the new block, and nothing else becomes allocated |
| Memory.Chain.SweepAll | gc.c:471-541 | Every chunk is swept; the sum is the size of all unmarked objects of all chunks, the maximum is exactly the largest block freed, and a block as large is free now |
| Memory.Chain.Grow | gc.c:614-635 | A new chunk, when there is memory, of twice the larger of the last chunk and the request, with a free block for the request; the others stay |
| Memory.Chain.CollectAndRetry | gc.c:718-735 | Live objects stay where they are and apart from the new block, whatever else is allocated is gone; a chunk is added if and only if there is memory, no block as large as the request was freed or more than three quarters stay in use, and the limit is not reached; failure means no memory or the limit reached |
| Memory.Chain.Alloc | gc.c:700-744 | An allocation fails only without memory or at the size limit, and never hands out memory of a live object |
| Collection.AllocRooted | gc.c:700-744 | What is reachable from the root keeps its block, apart from the one handed out; once a collection was needed, what is not reachable has lost its block |
| Collection.CollectRooted | gc.c:718-735 | The same from the root: what is not reachable is what is freed, and that decides whether a chunk is added |
| Collection.FindLive | gc.c:553-580 | The blocks the sweep keeps are those of the objects reachable from the root |
| HeapWalk.Walk | gc_heap.c:24-73 | Walking a chunk along its free list finds exactly its objects, in order |
| HeapPacking.Count | gc_heap.c:90-103 | The number and total size of the objects of all chunks |
| HeapPacking.SortChunks | gc_heap.c:280-287 | The chunks in ascending order, none lost |
| HeapPacking.ItemsInOrder | gc_heap.c:289-366 | Then the objects of all chunks have strictly rising, separate addresses |
| Relocation.SearchTable | gc_heap.c:131-151 | Binary search in a rising table finds the destination of a source address exactly when it has one |
| Relocation.Space.AdjustFields | gc_heap.c:153-174 | Rewrites every slot of an object and nothing else, or fails when a pointer has no destination |
| Relocation.Space.AdjustBytecode | gc_heap.c:176-233 | In code whose jump offsets, indices, counts, types and flags are no pointers, every cell that holds a pointer is rewritten and no other, or the adjustment fails exactly when one has no destination |
| Packer.State.Remap | gc_heap.c:109-126 | Copies one object to the next place and extends the table, which stays rising |
| Packer.Pack | gc_heap.c:289-366 | Succeeds exactly when there is memory and no pointer leaves the heap; the packed heap is isomorphic to the original, its objects tile it, the context goes to its image; every pointer in a slot or in any cell of compiled code goes to the place of its object, and none points out of the packed heap |
| Packer.MakePackedHeap | gc_heap.c:255-278 | A heap with room for the packed objects and one free block of the rounded size, or none |
| HeapImages.FollowCommutes | gc_heap.c:289-366 | Following any path of slots and going over to the copy commute |
| HeapImages.AllGoOver | gc_heap.c:176-233 | A copy takes along every pointer of every object, in its slots and in whatever operand of its code, and points nowhere else |
| Packer.ClosedIsSelfContained | gc_heap.c:176-233 | The operands that are looked at are all that can hold a pointer |
| HeapImages.IsomorphicThrough | gc_heap.c:443-447 | A copy of a copy is a copy |
| ImageLoading.Load | gc_heap.c:606-696 | Adding one constant to every pointer of a saved image, in slots and in every cell of its code, yields an isomorphic heap at the new address that points nowhere else |
| ImageLoading.SaveAndLoad | gc_heap.c:383-423 | An image saved and loaded at another address is isomorphic to the heap it was saved from, every pointer of slots and code taken along |
| Bignums.Bignum.Hi | bignum.c:167-172 | The number of significant words, at least one |
| Bignums.CompareAbs | bignum.c:174-186 | The sign of the comparison of magnitudes |
| Bignums.FxAdd | bignum.c:215-227 | Adds a word, growing on a carry out of the top |
| Bignums.FxSub | bignum.c:229-242 | Subtracts a word from the magnitude, changing sign when it passes zero |
| Bignums.FxMul | bignum.c:244-266 | Multiplies by a word, into a fresh number shifted by whole words or in place |
| Bignums.FxDiv | bignum.c:268-280 | Divides by a word in place and returns the remainder |
| Bignums.FxRem | bignum.c:282-301 | The remainder by a fixnum with the dividend's sign, by masking for a power of two |
| Bignums.MaskLowWord | bignum.c:286-290 | Masking the lowest word is the remainder by a power of two |
| Addition.AddDigits | bignum.c:451-479 | Adds magnitudes; with the first operand as destination the sum is in place |
| Addition.SubDigits | bignum.c:419-449 | The distance of two magnitudes, the operands exchanged when needed |
| Addition.Add | bignum.c:481-492 | The exact sum for any signs; in place when the signs agree |
| Addition.Sub | bignum.c:494-507 | The exact difference for any signs |
| Addition.Normalize | bignum.c:195-204 | The fixnum of the same value if there is one |
| Addition.AddNum | bignum.c:1304-1372 | The exact sum of any two integers, normal |
| Addition.SubNum | bignum.c:1374-1470 | The exact difference, unless both are fixnums: then the wrapped one |
| Addition.FixnumDifference | bignum.c:1402-1404 | The wrapped difference of two fixnums has the right value, and the right sign, exactly when the difference is a fixnum |
| Addition.DifferenceWraps | bignum.c:1884-1886 | The greatest fixnum minus the least comes out as -1 |
| Aliasing.SubInPlace | bignum.c:419-449 | With the minuend as destination the loops leave the difference exactly when every borrow is harmless |
| Aliasing.InPlaceExact | bignum.c:433-444 | The words stored in place are the difference if and only if, in every column of the subtrahend that borrows, the two words and the incoming borrow add up to the base |
| Aliasing.DoubledBorrow | bignum.c:437-440 | In place, BASE minus 1 comes out as BASE - 2 |
| Multiplication.Karatsuba | bignum.c:531-567 | The exact product from three half-sized ones, for operands of any lengths; the middle term is never negative and the recursion ends by the sum of the operands |
| Multiplication.Mul | bignum.c:531-567 | The exact signed product |
| Multiplication.Split | bignum.c:509-520 | High and low part add up to the number, and each is smaller |
| Multiplication.Expt | bignum.c:687-705 | The power with a natural exponent |
| LongDivision.QuotRem | bignum.c:569-668 | a = q b + r, r smaller than b in magnitude and of a's sign, for every nonzero divisor; division by zero is reported |
| LongDivision.TruncatedUnique | bignum.c:569-668 | There is only one such quotient and remainder |
| LongDivision.QuotRemWords | bignum.c:593-656 | The guess-and-flip loop: magnitude = q b + signed rest throughout, the rest shrinks in every round |
| LongDivision.Guess | bignum.c:599-637 | Every guess is positive and below twice the rest, also from the divisor's top word alone |
| LongDivision.Round | bignum.c:598-652 | One guess brings the rest nearer to zero, on either side |
| Numbers.MulNum | bignum.c:1501-1568 | The exact product of any two integers, normal |
| Numbers.QuotientNum | bignum.c:1705-1781 | The truncated quotient; 0 for a fixnum by a bignum |
| Numbers.RemainderNum | bignum.c:1783-1860 | The remainder with the dividend's sign; the dividend for a fixnum by a bignum |
| Numbers.FixByBig | bignum.c:1705-1860 | Those two shortcuts are right except for the least fixnum by its negation |
| Numbers.CompareNum | bignum.c:1862-1930 | For fixnums, normal bignums and natural bignums normal or not, the result has the sign of the comparison exactly when no difference of fixnum size wraps; two fixnums give the wrapped difference |
| SquareRoots.Sqrt | bignum.c:733-774 | The integer square root and the exact remainder of the magnitude of any bignum, from an infinite floating-point root or one above 2^30, however inaccurate; up to 2^30 the integer part of that root is the result |
| SquareRoots.Refine | bignum.c:751-766 | From any positive estimate, also a one-word bignum that is not normal, the loop ends, and with root and remainder |
| SquareRoots.WholeToBignum | bignum.c:121-137 | The integer part of a floating-point number as a bignum, digit by digit to base 16, never normalised |
| SquareRoots.Estimate | bignum.c:712-731 | A power of two whose square is within a factor of two of the number |
| SquareRoots.Step | bignum.c:759-763 | One step is never below the root afterwards, and strictly decreases an estimate above it |
| Radix.WriteBignum | bignum.c:379-403 | In bases 2 to 16 the text is a minus sign for a negative number and then, most significant first and without a leading zero, the characters of "0123456789ABCDEF" at the places of the digits; the computed buffer length always suffices; smaller bases are refused |
| Radix.WriteDigits | bignum.c:379-403 | Repeated division fills the buffer from its end with exactly those digits |
| Radix.Log2 | bignum.c:371-377 | The integer logarithm of a positive number, 0 for 0 |
| Radix.ReadNumber | sexp.c:2933-2976 | A number is read exactly from a sign or none, digits of the base in either case, and a separator or the end; it is the sign times the sum of digit times power of the base, and reading stops behind the digits |
| Radix.LiteralsRead | sexp.c:2957-2976 | What is read is told by such numerals alone |
| Radix.SameNumber | sexp.c:2950-2966 | A plus sign changes nothing, and neither does the case of the digits |
| Radix.ReadBignum | bignum.c:303-330 | Goes on accumulating in a bignum when the next digit would not fit, and reads the same numerals to the same integers |
| Radix.RoundTrip | bignum.c:303-403 | Reading what was written gives back sign and value and stops where the text ends |
| Ratios.NormalizeRatio | sexp.c:2890-2930 | The result is the same rational in lowest terms with a positive denominator, or the integer it is, exactly when the input is reducible; a zero denominator is reported |
| Ratios.Euclid | sexp.c:2906-2913 | The loop with signed remainders ends with the last nonzero remainder |
| Ratios.NotReducible | sexp.c:2914-2924 | -1 over 2^62 is not reducible |
| Ratios.AlwaysReducible | sexp.c:2890-2930 | With a positive denominator, a natural numerator or a denominator that is no multiple of 2^62 is enough |
| Ratios.GcdCommon | sexp.c:2906-2913 | What Euclid's loop ends with is divided by exactly the common divisors |
| Rounding.Round | bignum.c:910-925 | The nearest integer, and the even one of two, for ratios in lowest terms |
| Rounding.TwiceAbove | bignum.c:910-925 | The comparison of twice the remainder with the denominator is right even where it wraps |
| Rounding.Floor | bignum.c:931-939 | The greatest integer below |
| Rounding.Ceiling | bignum.c:941-949 | The least integer above |
| Words.AddIsModular | include/chibi/bignum.h:202-233 | Addition in 32-bit halves is exact modulo 2^128 |
| Words.SubIsModular | include/chibi/bignum.h:266-271 | Subtraction likewise |
| Words.ShlIsModular | include/chibi/bignum.h:174-186 | Left shift likewise, across the word boundary |
| Words.MulIsModular | include/chibi/bignum.h:273-325 | Multiplication by a word likewise |
| Words.NegateIsModular | include/chibi/bignum.h:128-159 | Signed negation wraps around 2^127 |
| Words.MulSintIsModular | include/chibi/bignum.h:327-340 | Signed multiplication wraps likewise |
| Words.Div | include/chibi/bignum.h:342-365 | The 128 rounds of restoring division give the quotient for every nonzero divisor, also above 2^127 |
| Words.DivRound | include/chibi/bignum.h:348-362 | Before round i the remainder is below 2^i, so its left shift loses no bit |
| Lists.IsListOp | sexp.c:974-986 | On any heap of pairs, cyclic or not: true exactly for finite chains that end in the empty list |
| Lists.LengthOp | sexp.c:1051-1061 | The number of pairs, or none exactly when the chain is cyclic |
| Huffman.Intern | sexp.c:1563-1583 | A name becomes an immediate exactly when it may and fits; the word is its codes, tagged, and by its lowest four bits a symbol and nothing else |
| Huffman.KindsApart | include/chibi/sexp.h:118-127 | A word with the symbol's tag is no fixnum, pointer, string cursor, flonum, character or label |
| Huffman.AdmittedAre | sexp.c:1563-1570 | Letters, digits, eighteen signs and DEL are the characters of such names |
| Characters.SeparatorsAre | sexp.c:24-34 | White space, quotes, brackets, comma and semicolon separate |
| Huffman.InternThenPrint | sexp.c:2518-2525 | Printing the immediate gives back the name |
| Huffman.PackingInjective | sexp.c:1563-1583 | Two names share an immediate only when they are equal |
| Huffman.CodeIsRead | include/chibi/sexp-unhuff.h:3-70 | A code is read off whatever bits follow it |
| Huffman.TableMatchesTree | include/chibi/sexp-huff.h:1-129 | The encoder's table entry of every admitted character leads to it in the decoder's tree and is not zero |
| Huffman.Unhuff | include/chibi/sexp-unhuff.h:3-70 | The nested tests on the low bits walk that tree |

## Findings

Points where the code does not do what it is for, each with the input and the
exact condition.

- `sexp_ratio_normalize` (sexp.c:2890-2930) leaves a negative denominator for
  -1/2^62: Euclid's loop ends with -1, dividing gives the least fixnum as
  denominator, and negating it wraps.  `Ratios.NormalizeRatio` shows that the
  result is right if and only if `Reducible` holds, which `Ratios.NotReducible`
  refutes for that input and `Ratios.AlwaysReducible` grants whenever the
  denominator is positive and the numerator is natural or the denominator is
  not a multiple of 2^62.  Beyond that the condition runs Euclid's loop, because
  the sign that the loop ends with depends on how many steps it takes.
- `sexp_sub` and `sexp_compare` of two fixnums (bignum.c:1402-1404,
  bignum.c:1884-1886) wrap: right if and only if the difference is a fixnum
  (`Addition.FixnumDifference`); the greatest fixnum compares as less than the
  least (`Addition.DifferenceWraps`).  The virtual machine catches the first
  before it calls `sexp_sub`.
- `sexp_compare` of a fixnum with a bignum of fixnum size (bignum.c:1896-1901)
  wraps as well: when the bignum is natural it is right if and only if
  `Comparable` holds, which asks whether the difference fits
  (`Numbers.CompareNum`).  Normal bignums have no such size, and in the square
  root both sides are natural.
- `sexp_bignum_sub_digits` with the minuend as destination (bignum.c:437-440)
  adds a word to itself that it has just overwritten: BASE - 1 comes out as
  BASE - 2 (`Aliasing.DoubledBorrow`).  It is right if and only if `Harmless`
  holds of the operands (`Aliasing.InPlaceExact`).  No caller in the repository
  subtracts in place.
- `sexp_quotient` and `sexp_remainder` of a fixnum by a bignum are shortcuts
  that are wrong exactly for the least fixnum by its negation
  (`Numbers.FixByBig`).

## Left out

- Simulate.SimExpr: names within one lambda are distinct, literals are
  constants and no pairs, which would be immutable, and integers and heap are
  unbounded; raising an exception ends the run.
- Program.CompilerCorrect: call/cc is not an operation of the source language;
  what it does is proved on the machine, and for compiled procedures in
  `continuations.dfy`.  Global variables, flonums, strings, characters,
  parameters, foreign calls, the unused-rest flag, source locations and the
  depth count are not modelled.
- Machines.Machine.EnsureStack: grows without the maximum stack size, and is
  asked for room by each push instead of once by the depth of the procedure.
- Simplifier.SimplifyPreserves: works on values; that the original overwrites
  the expression in place is not captured.  Folding a constant application
  evaluates it instead of compiling and running it.
- Marking.Mark: ephemerons, weak references, finalizers, conservative marking
  and the storage of the mark stack in fixed blocks are not modelled.
- Memory.Chain.Alloc: whether the system has memory is a parameter, the heap
  growth ratio of 0.75 is compared in exact arithmetic, and fixed-size chunks are
  left out.  In `Alloc` the live set is a parameter; `Collection.AllocRooted`
  computes it.
- Collection.AllocRooted: the mark bit of an object appears twice, as the
  object's field and in the mark table of its chunk.
- HeapWalk.Walk: returns what it finds instead of calling back; object sizes
  stand for the type table.
- Packer.Pack: raw fields of contexts, ports, dynamic libraries and function
  pointers are not relocated, and the collection before packing is not run.
- ImageLoading.Load: file input and output, header checks and type tables are
  left out.
- Bignums.CompareAbs: lengths are cast to `int`, which matters for numbers of
  2^31 words or more and is not modelled.
- Bignums.FxMul: the destination is absent, or the operand itself with offset 0,
  as in every call within the repository.
- Addition.SubDigits: without a destination; the minuend as destination is in
  `aliasing.dfy`.
- Addition.Sub: without a destination, as in every call within the repository.
- Multiplication.Mul: without a destination, as in every call within the
  repository.
- Multiplication.Expt: natural exponents.
- LongDivision.QuotRem: double-word operations are exact integers below 2^128;
  `words.dfy` proves the hand-written ones.
- Numbers.CompareNum: nothing is promised for a negative bignum of fixnum size,
  whose sign the original does not look at (bignum.c:1896-1901).
- SquareRoots.Sqrt: the floating-point root is a parameter, so nothing is said
  about how near it is to the root; of the branch up to 2^30 only what it
  computes from that parameter is stated.
- Radix.WriteBignum: bases above 16 are left out.
- Radix.ReadNumber: integers only; other numeric syntax and radix prefixes are
  reported as such.
- Ratios.NormalizeRatio: on numbers that do not share storage.
- Huffman.Intern: the table of ordinary symbols is left out.
- Files, ports, threads, macro expansion, modules, floating point and complex
  numbers would only add foreign calls or meaning defined elsewhere.
