# BBL in Dafny

A model of the core of Basic Binary Lisp, with proofs. BBL parses s-expressions,
compiles them to 32-bit register bytecode, runs that through an x86-64 JIT, and manages
its objects with a generational collector; scripts exchange messages between states that
run on their own threads. Each part is modelled in the form it has in the program: what
the program changes step by step is a class or a method with loops here, proved against
functions and predicates on values.

| files | part |
|---|---|
| `Wrappers`, `NanBox`, `Ast`, `Semantics`, `Helpers`, `Meaning`, `Trees` | boxed words, the runtime's arithmetic, syntax trees, which of them belong to the fragment, and what those mean in terms of values and globals |
| `Bytecode`, `Layout`, `Closure` | the instruction set and its machine, what the compiler emits, and where emitted code can go |
| `Evaluation`, `Simulation` | what emitted code does with registers, for every program, and the proof that it does that |
| `Settled`, `Correctness` | the programs that are compiled to what they mean, and the proof that they are |
| `Immediates`, `Overlong`, `Witnesses` | the ones that are not: accepted programs and what their chunks do |
| `Patching`, `Emission`, `Compiler` | the compiler itself: appended words, registers handed out and back, jumps patched later |
| `Reachability`, `Heap`, `Fields`, `Gc` | marking, sweeping, promotion, the remembered set and the write barrier, and what all that comes to in terms of the objects' fields |
| `Probing`, `Table`, `TableRuns`, `TableStore`, `Strings` | the hybrid table, runs of stores and pushes, a table in the collected heap, and the string methods that fill and read one |
| `Actors`, `ActorCalls`, `Ring` | message queues between a parent and a child thread, and what each call on them does; the lock-free ring |
| `TraceDse`, `TraceLoop`, `TraceFlaws` | dead-store elimination on loop traces, what it keeps of the compiled loop, and what it does not |
| `Captures` | closure conversion |
| `Parser` | the parser, on tokens |

`dafny verify dfyconfig.toml` checks everything.

## How the program is read

* A word is a natural number below 2^64 and wrap-around is written out; instruction
  words are their four bytes, so the biased 16-bit operand wraps as in `encodeAsBx`.
* `Trees.MeanNode` says what a syntax tree means, by the names its forms begin with:
  values and globals in, a value and globals, an error or a jump out, literals as
  written, `null` for every loop. The main theorem, `Compiler.Compile`, is about it.
  `Semantics.Elab` turns trees into expressions, and `Meaning.Mean` is the meaning of
  those; `Trees` proves that the two agree.
* `Evaluation.Eval` lies between the meaning and the machine: the same program with the
  registers the compiler gives it, so that it also says what the flawed programs do.
  `Simulation` proves that chunks do exactly this, `Correctness` when it is the meaning.
* Meaning, evaluation and machine share one arithmetic and comparison, a parameter;
  `Semantics.HelperHost` is that of `jitArith`, `jitBitwise`, `jitNot` and the inline
  comparisons of `src/jit.cpp:909-995`, `631-638` and `1476-1503`, with doubles and the
  bitwise operations left open, and `Helpers` says what it comes to on integers and on
  words. What the inline code of ADDI leaves of an integer and
  that of SUBI of any word is a parameter of its own, which the meaning does not use;
  `NanBox` says which words those are.
* Loop iterations are counted down; the theorems quantify over the count, so it bounds
  nothing.
* The fragment of the compiler is top-level code without locals, calls or functions;
  `Trees.InFragment` says which trees belong to it. The limits of
  the compiler (registers, constants, nesting, jump distances) are not assumed:
  `Layout.Fits` says when they are met, and the compiler is proved to succeed exactly
  then.
* The collector's edges are array slots, bucket keys and values, captures, and a
  closure's environment; `Fields.EdgeIsReference` ties them to the fields, in terms of
  which the collections are specified.
* A compiled trace calls the runtime for what it does not compute itself. Such a helper
  is a function of the instruction, the words of its operands and a name for the rest of
  the world, and may fail.
* Concurrent code is a state machine over single loads, stores, lock operations and
  waits; every theorem about it holds for every schedule, with spurious wake-ups.

## What turned out not to hold

* The literal -32768 is compiled as an immediate that reads back as 32768
  (`Correctness.MinLiteralMiscompiled`).
* The distance of a LOOP instruction is not checked. The jump leads back to the loop's
  start exactly up to a distance of 32768 (`Overlong.LoopReturnsExactly`, and
  `ContinueReturnsExactly` for `continue`). A loop around a sum of 20001 ones is
  accepted with a distance of 40003 (`OverlongLoopAccepted`), and its LOOP leads to
  instruction 65536, which its chunk does not have (`OverlongLoopLeavesItsChunk`).
* `emitAdd` and `emitSub` give a word of another type when the payloads carry or borrow
  out of 48 bits, as for -1 + 2; the exact conditions are `NanBox.EmitAddExact`,
  `NanBox.EmitSubExact`, `NanBox.EmitAddiExact` and `NanBox.EmitSubiExact`.
* SUBI has no type test and no helper: on a word that is no integer it subtracts from
  the bits, so that `null` minus 1 is a double (`NanBox.EmitSubiUntyped`,
  `NanBox.NullMinusOne`). The chunk of `(- x imm)` shows its meaning exactly when what
  SUBI leaves is the difference (`Immediates.SubImmediateExactly`).
* The slow path of ADDI puts the immediate into the next register. In register 254 there
  is none, and the immediate replaces the operand: 253 nested sums around `(+ x 1)` are
  accepted (`Immediates.LateAddAccepted`) and return 2 for every `x` that is no integer,
  also for `null`, which should be an error (`LateAddIgnoresItsOperand`,
  `LateAddMiscompiled`). `Correctness.NoLateAddSeq` reads off a program whether it has
  such a sum, and `Immediates.LateAddExactly` says for which values the sum is right.
* `break` jumps past the instruction that loads `null`, so the value of a loop left that
  way is what its destination held (`Settled.BrokenLoopKeepsDestination`): it is null
  exactly when that was. The program `7 (= x (loop true (break)))` leaves 7 in x instead
  of `null` (`Settled.BrokenLoopReturnsStaleValue`), and `(+ f 7) (+ 0 (loop true
  (break)))`, for a double `f`, returns the 7 that ADDI left in the next register
  (`Immediates.ScratchRegisterShows`). Programs that use no such value are the settled
  ones; every program without `break` is one (`Settled.AllBreakFreeIsSettled`).
* A zero word (the double +0.0) stored under an array key leaves the table's count wrong
  and reads as absent, and integer keys from 1,000,000 up to the array's size are stored
  in the hash but looked up in the array: `Table.BblTable.Set` and `Get` say exactly
  when. `Table.StoreShadowed` stores under 999,999 and 1,000,000 in a new table and does
  not find the second key; splitting a string into more than 1,000,000 pieces meets
  the same keys (`Strings.ShadowedPieces`).
* A parent that waits in `recv` is not woken when it is told to stop: the flag is stored
  without notifying the queue it waits on (`ActorCalls.StoppedWhileWaiting`), and it
  stays blocked until its child notifies it (`StaysBlocked`).
* Dead-store elimination takes MOVE, NOT, BNOT and LENGTH to read what they write,
  overlooks every use of register 255, register 0 as the way to captures, what new
  closures capture, and what method calls read; `TraceLoop.UnderstoodEntries` says
  exactly which entries it understands. `TraceFlaws.MoveIsOverlooked`,
  `NotIsOverlooked`, `LengthIsOverlooked` and `Register255IsOverlooked` (where the
  register is that of an inlined callee's frame) each give a trace on which the compiled
  loop ends differently.
* A guard that leaves a trace shows registers whose last store was dropped
  (`TraceFlaws.LateGuardSeesStaleRegister`); `TraceLoop.PassKeepsLoop` says which.
* MOD and the bitwise operations have no code in a compiled trace, though the pass takes
  them to write their register (`TraceLoop.WritesWithoutCode`,
  `TraceFlaws.ModIsNotCompiled`).

## Model

| member | source | states |
|---|---|---|
| NanBox.BoxUnbox | src/bbl.h:280-301 | boxing an integer gives an integer word exactly on -2^47..2^47-1, and there unboxing gives it back |
| NanBox.UnboxBox | src/bbl.h:280-301 | every integer word is the box of its value |
| NanBox.EmitAddExact | src/jit.cpp:1089-1106 | the word `emitAdd` leaves is the boxed sum if and only if the unsigned payloads do not carry and the signed sum is in range |
| NanBox.EmitSubExact | src/jit.cpp:1108-1124 | the same for `emitSub`: the payload difference does not borrow and the signed difference is in range |
| NanBox.EmitAddiExact | src/jit.cpp:1142-1160 | when adding an immediate to a boxed word agrees with boxed addition, on both code paths |
| NanBox.EmitSubiExact | src/jit.cpp:1162-1168 | when subtracting an immediate from a boxed integer agrees with boxed subtraction |
| NanBox.EmitSubiUntyped | src/jit.cpp:2084-2090 | on every other word: it becomes an integer exactly when the subtraction crosses an edge of the integer words, and otherwise its bits move by the immediate |
| NanBox.NullMinusOne | src/jit.cpp:2084-2090 | null minus 1 is a double and 1.0 minus 1 the double below 1.0 |
| NanBox.EmitAddCarries | src/jit.cpp:1089-1106 | -1 + 2 on boxed words leaves a word tagged as a closure |
| Bytecode.DecodeEncode | src/chunk.h:101-123 | decoding an encoded instruction gives it back up to the width of its signed operand |
| Bytecode.SBxRoundTrip | src/chunk.h:112-123 | a signed operand survives encoding if and only if it lies in -32767..32768 |
| Evaluation.ReadingsAgreeSeq | src/compiler.cpp:80-90 | without the literal -32768, evaluation with the literals as written and as their encoding reads is the same |
| Bytecode.OpcodeNumbers | src/chunk.h:19-89 | the first byte of every encoded instruction is the number its opcode has in the enumeration |
| Helpers.ComparesIntegers | src/jit.cpp:1476-1503 | on integers the six comparisons are those of the numbers |
| Helpers.ComparesPayloads | src/jit.cpp:1476-1503 | comparison ignores tags: null, false, zero and +0.0 are equal |
| Helpers.AddsIntegers | src/jit.cpp:909-950 | sums, differences and products are those of the integers while they fit 48 bits; beyond, a sum is a double |
| Helpers.ProductsWrap | src/jit.cpp:909-950 | a product is taken modulo 2^64, into the signed range |
| Helpers.Divides | src/jit.cpp:909-950 | quotient and remainder make up the dividend, and the remainder is smaller than the divisor with the dividend's sign |
| Helpers.DividesUniquely | src/jit.cpp:909-950 | no other pair of numbers does |
| Helpers.DividesIntegers | src/jit.cpp:909-950 | division and remainder refuse exactly a zero divisor and otherwise give those |
| Helpers.OnDoubles | src/jit.cpp:909-995 | with a double among the operands, integers are converted and the order of the operands is kept |
| Helpers.RefusesOthers | src/jit.cpp:909-995 | what is no number is not added, and only integers have bits |
| Helpers.FalsyWords | src/jit.cpp:1421-1470 | a value is falsy exactly if its word is that of null, false or zero |
| Trees.HeadTells | src/compiler.cpp:164-172 | which name begins which form, for every name |
| Trees.ElabFragment | src/compiler.cpp:76-150 | a tree stands for an expression exactly if it lies in the fragment, described by names and operand counts |
| Trees.ElabMeans | src/compiler.cpp:76-601 | and then the expression means what the tree means, by the names of its forms |
| Trees.ElabProgramMeans | src/compiler.cpp:929-953 | the same for programs |
| Compiler.CompilerState.AllocReg | src/compiler.h:37-42 | hands out `nextReg` exactly while it is below 255 |
| Compiler.CompilerState.AddConstIdx | src/compiler.cpp:58-62 | appends a constant of its own and succeeds exactly while its index fits 16 bits |
| Compiler.CompilerState.PatchJump | src/compiler.cpp:69-74 | makes the jump at an offset lead to the end of the code, exactly when the distance is at most 32767; nothing else changes |
| Compiler.CompilerState.CompileExpr | src/compiler.cpp:76-150 | for a tree of any shape: succeeds exactly when the tree lies in the fragment and fits the limits where it stands; then only code for the expression it stands for (the one of the same meaning, by `Trees.ElabMeans`) was appended, its result goes to `dest`, `nextReg` ends where the layout says, and the jumps left for the enclosing loop are the expression's own `break`s |
| Compiler.CompilerState.CompileArith | src/compiler.cpp:225-254 | the same for arithmetic chains of any length, including the ADDI and SUBI forms |
| Compiler.CompilerState.CompileCmp | src/compiler.cpp:256-266 | the same for comparisons |
| Compiler.CompilerState.CompileNot | src/compiler.cpp:285-290 | the same for `not` |
| Compiler.CompilerState.CompileAssign | src/compiler.cpp:293-336 | the same for assignment to a global |
| Compiler.CompilerState.CompileIf | src/compiler.cpp:394-446 | the same for `if`, with fused and plain conditions and both jumps patched |
| Compiler.CompilerState.CompileLoop | src/compiler.cpp:448-502 | the same for `loop`: exit jump and every `break` patched to its end, and the jump back |
| Compiler.CompilerState.CompileDo | src/compiler.cpp:550-558 | the same for `do` |
| Compiler.CompilerState.CompileShort | src/compiler.cpp:560-576 | the same for `and` and `or` |
| Compiler.CompilerState.CompileBreak | src/compiler.cpp:583-589 | the same for `break`, which records its jump with the innermost loop and fails outside of one |
| Compiler.CompilerState.CompileContinue | src/compiler.cpp:591-601 | the same for `continue`, which jumps back to the start of the innermost loop |
| Compiler.Compile | src/compiler.cpp:929-953 | succeeds exactly for programs of the fragment within the limits, and the chunk it returns is the program's code; with no overlong loop, no -32768, no sum with an immediate in the last register, no use of a broken loop's value, and immediates that act as values, that chunk stops if and only if the trees have a meaning, as the names of their forms give it, and shows it, from any registers and globals |
| Patching.Carry | src/compiler.cpp:69-74 | code stays the code of its expression when the chunk grows and when the `break` jumps of the loop around it are patched |
| Emission.LoopEmits | src/compiler.cpp:482-502 | a loop whose jumps have all been patched is the code of the loop expression |
| Simulation.Sim | src/compiler.cpp:76-601 | running the code of an expression from any machine state, for every expression, flawed or not, shows its evaluation over registers: the value in `dest`, the same globals and registers or the same error, registers below `dest` and `nextReg` untouched but for `dest`, and a `break` or `continue` at its target |
| Simulation.ChunkStopsSound | src/compiler.cpp:929-953 | whenever any program's chunk stops, evaluation over registers ends, with the same result and globals or the same error |
| Simulation.ChunkStopsComplete | src/compiler.cpp:929-953 | whenever evaluation over registers ends, the chunk stops with the same result and globals or the same error |
| Correctness.EvalMeans | src/compiler.cpp:76-601 | for a settled expression without a sum in the last register: at every destination, with any temporaries and anything in the registers, evaluation ends as the expression means, with its globals and error, and its value if that is definite |
| Correctness.ChunkMeansProgram | src/compiler.cpp:929-953 | whenever the chunk of a program with none of these flaws (`AsWritten`) stops, whatever the registers held, result, globals or error are what the program means |
| Correctness.MeaningIsReached | src/compiler.cpp:929-953 | whenever such a program has a meaning, its chunk stops and shows it |
| Correctness.MinLiteralMiscompiled | src/compiler.cpp:80-84 | the program -32768 means -32768 and its chunk returns 32768 |
| Correctness.HelperFoldsAgree | src/jit.cpp:909-995 | with the runtime's helpers for arithmetic, immediates act as values |
| Settled.AllBreakFreeIsSettled | src/compiler.cpp:583-589 | every program without `break` is such a program and its value is definite |
| Settled.BrokenLoopKeepsDestination | src/compiler.cpp:482-502 | `(loop true (break))` yields what its destination held |
| Settled.BrokenLoopReturnsStaleValue | src/compiler.cpp:448-502 | `7 (= x (loop true (break)))` means null in x, and its chunk stores and returns 7 from any start |
| Witnesses.StaleAccepted | src/compiler.cpp:448-502 | the compiler accepts that program |
| Immediates.LateAddExactly | src/jit.cpp:2004-2008 | in register 254 ADDI leaves the sum if and only if the inline code does, for an integer, or, for another value, the immediate added to itself is that sum |
| Immediates.NestIsLate | src/compiler.cpp:225-254 | `(+ x 1)` inside `n` sums is computed `n` registers further, so it keeps clear of the last register exactly below 254 |
| Immediates.LateAddAccepted | src/compiler.cpp:225-254 | with 253 sums around it the compiler accepts the program, and the sum is in the last register |
| Immediates.LateAddIgnoresItsOperand | src/jit.cpp:2004-2008 | its chunk returns 2 from any start for every `x` that is no integer |
| Immediates.LateAddMiscompiled | src/jit.cpp:2004-2008 | with the runtime's helpers and `null` for `x` the program means a type error and its chunk returns 2 |
| Immediates.ScratchRegisterShows | src/jit.cpp:2004-2008 | `(+ f 7) (+ 0 (loop true (break)))` means an addition to null and its chunk returns 7, which ADDI left in the next register |
| Witnesses.ScratchAccepted | src/compiler.cpp:225-254 | the compiler accepts that program for every double `f` |
| Immediates.SubImmediateExactly | src/jit.cpp:2084-2090 | the chunk of `(- x imm)` stops, and shows what the program means if and only if SUBI leaves the difference |
| Witnesses.DifferenceAccepted | src/compiler.cpp:225-254 | the compiler accepts that program for every immediate |
| Overlong.LoopReturnsExactly | src/compiler.cpp:478-500 | the LOOP instruction of a loop leads to the loop's start if and only if its distance is at most 32768 |
| Overlong.ContinueReturnsExactly | src/compiler.cpp:591-601 | the same for the jump of `continue` |
| Overlong.OverlongLoopAccepted | src/compiler.cpp:478-500 | a loop around a sum of 20001 ones is accepted, with a distance of 40003 |
| Overlong.OverlongLoopLeavesItsChunk | src/compiler.cpp:478-500 | in the chunk of any such loop of 16384 to 32765 ones, LOOP leads to instruction 65536, outside of it |
| Closure.StepFollows | src/jit.cpp:2107-2230 | a machine step assigns at most the registers, the one ADDI uses beside its own included, and goes at most to the places, that can be read off the instruction, and fails to be one exactly when the instruction is unknown or misses its constant |
| Closure.CodeConfined | src/compiler.cpp:225-601 | each instruction of an expression's code, reached or not, finds its constant, assigns only `dest`, the register ADDI uses beside it, or registers from the entry `nextReg` on, and leads to another one of the same code or to the ends of the loop around |
| Closure.LoopConfined | src/compiler.cpp:448-502 | a loop keeps to itself: its jumps, `break`s and `continue`s lead inside its own code |
| Closure.ProgramConfined | src/compiler.cpp:929-953 | every instruction of a program's chunk finds its constant and leads to another one of that chunk, when no LOOP is overlong |
| Closure.NeverWild | src/compiler.cpp:929-953 | then a running chunk never leaves itself and never misses a constant, whatever registers and globals it starts with |
| Reachability.TraversedExact | src/bbl.cpp:824-891 | a traversal that marks every start and every target of what it marks, and nothing else, marks exactly the reachable nodes, in any cyclic graph |
| Reachability.KeptIsClosed | src/bbl.cpp:895-960 | marking only among the young, from the roots and the edges of remembered objects, loses nothing reachable through old objects |
| Heap.Mark | src/bbl.cpp:824-960 | ends on cyclic heaps because unmarked objects decrease; marks exactly what its start adds, and changes only mark bits |
| Heap.MarkRemembered | src/bbl.cpp:1052-1066 | rescans slots, buckets and captures of the remembered objects; that is all their edges, since the rest is never young |
| Gc.BblState.SweepList | src/bbl.cpp:1005-1045 | relinks a list to its marked objects in order, clears their marks, counts them, and takes freed strings out of the intern table |
| Gc.BblState.PromoteNursery | src/bbl.cpp:1071-1084 | the swept nursery becomes the end of the tenured list, old and clean |
| Gc.BblState.GcMinor | src/bbl.cpp:1047-1091 | keeps the invariant; what survives is exactly the old objects and the young ones that references in fields lead to, among the young, from a root or an old object; nothing that references lead to from the roots is freed, and no value held by an object changes |
| Gc.BblState.GcFull | src/bbl.cpp:1093-1121 | keeps the invariant and leaves exactly the objects that references in fields lead to from the roots |
| Gc.BblState.NothingDangles | src/bbl.cpp:824-891 | in every valid state, so before and after each collection and store: every reference in a root, in a capture of a live closure or function, in a closure's environment, in a table's slot, key or value is to a live object, and an old object that refers to a young one is remembered |
| Fields.EdgeIsReference | src/bbl.cpp:824-891 | the edges the collector follows from an object are exactly the references in the fields of its kind |
| Fields.HeldIsReachable | src/bbl.cpp:824-960 | what references lead to among any set of objects is what can be reached in the collector's graph there |
| Gc.BblState.EachOnce | src/bbl.cpp:1005-1045 | nursery and tenured list hold every live object once and share none |
| Gc.BblState.Allocate | src/bbl.cpp:704-810 | a new object heads the nursery and keeps the invariant |
| Gc.BblState.Intern | src/bbl.cpp:704-718 | returns the live string of the contents, making it when there is none; the intern table never points at a freed string |
| Gc.BblState.WriteBarrier | src/bbl.h:740-749 | an old object given a reference to a young one becomes dirty and is added to the remembered set once |
| Gc.BblState.SetCapture | src/jit.cpp:165-170 | a store to a closure's captures keeps the invariant: old objects with young targets are dirty, dirty objects are the remembered set, old environments are old, no mark is left |
| Gc.BblState.SetSlot | src/bbl.cpp:104-116 | the same for a store to a table's array |
| Gc.BblState.SetEntry | src/bbl.cpp:117-126 | the same for a store to a table's buckets, with or without a rehash, and two barriers; `TableStore.Set` composes this with the table itself |
| Gc.BblState.ClearEntry | src/bbl.cpp:145-163 | deleting keeps the invariant without a barrier |
| Probing.SameWordSameKey | src/bbl.cpp:30-43 | keys are equal exactly when their words are |
| Probing.FindEntry | src/bbl.cpp:45-60 | ends for every table; finds the key's bucket, or the first tombstone or empty bucket on its way, and fails only when the table is full of other keys |
| Probing.EmptyEndsSearch | src/bbl.cpp:50-53 | no key lies behind an empty bucket on its probe sequence |
| Probing.StoreMap | src/bbl.cpp:117-121 | writing where the search led is a map update |
| Probing.DeleteMap | src/bbl.cpp:155-159 | writing a tombstone removes the key |
| Table.BblTable.Get | src/bbl.cpp:79-92 | the map's value for every key that is not shadowed by the array, and nothing for one that is |
| Table.BblTable.Has | src/bbl.cpp:135-143 | the map's domain, with the same exception |
| Table.BblTable.Grow | src/bbl.cpp:62-77 | rehashing keeps the map and leaves room |
| Table.BblTable.ArrayGrow | src/bbl.cpp:94-102 | growing the array keeps its slots, adds empty ones, and gives the first length of its doubling or quadrupling that is enough |
| Table.NewLength | src/bbl.cpp:95-97 | the loop ends with that length |
| Table.BblTable.Set | src/bbl.cpp:104-133 | a map update; the invariant (count is the map's size, at most three quarters of a power of two of buckets in use, the next integer key above all, order a listing) is kept exactly unless a zero word goes to an array key, which removes the key and leaves the count wrong; an integer key makes the next integer key the larger of its old value and the key plus one, and any other key leaves it alone; the array grows exactly as far as said |
| Table.BblTable.Del | src/bbl.cpp:145-163 | removes the key, and reports whether it was there |
| Table.BblTable.EnsureOrder | src/bbl.cpp:165-175 | builds an order that lists every key once |
| Table.OrderIsPermutation | src/bbl.cpp:165-175 | a cached order is a duplicate-free permutation of the keys |
| Table.RoomFor | src/bbl.cpp:117 | growing once makes room for one more entry, though the test counts array entries and ignores tombstones |
| Table.BblTable.Push | src/jit.cpp:241-243 | stores under the next integer key, which was not in use, and raises it by one |
| Table.BblTable.Pop | src/jit.cpp:244-257 | removes an integer key and returns its value; the largest one when all are in the array |
| Table.BblTable.PushPop | src/jit.cpp:241-257 | with all integer keys in the array, pop after push restores the contents and returns the value, or null exactly when the pushed key is shadowed |
| TableRuns.Replay | src/bbl.cpp:104-133 | over any run of stores and pushes on a new table, the next integer key is 0 or one more than the largest integer key ever stored under, each push stores under it, and the contents are the last values |
| TableRuns.PushesFill | src/jit.cpp:241-243 | in a run whose stores name no integer key, the pushes go to 0, 1, 2, ... in order |
| TableRuns.PushAfterString | src/jit.cpp:241-243 | after one store under a string key, a push is found under 0 |
| Table.StoreShadowed | src/bbl.cpp:79-133 | in a new table, after storing under 999,999 and under 1,000,000, both are in the map and the second is not found |
| TableStore.EdgesAreContents | src/bbl.cpp:824-891 | the edges the collector follows from a table are what the keys and values of its map refer to |
| TableStore.Set | src/bbl.cpp:104-133 | a store through the table in the collected heap is a map update, and its barriers keep the collector's invariant, rehash or not |
| TableStore.Get | src/bbl.cpp:79-92 | what a lookup in a live table gives refers to a live object |
| Strings.JoinSplit | src/jit.cpp:349-377 | for every string and non-empty separator, joining the pieces gives the string back |
| Strings.PiecesAreMaximal | src/jit.cpp:363-377 | no piece contains the separator, and each ends where the separator is first found |
| Strings.SplitString | src/jit.cpp:363-377 | ends for every input; refuses exactly the empty separator; the table maps 0, 1, ... to the pieces, and its array has the length that many stores give |
| Strings.SomePoolKeeps | src/bbl.cpp:704-718 | any list of pieces can be interned as non-zero words that read back as them |
| Strings.ShadowedPieces | src/jit.cpp:349-362 | of any number of pieces in a table, exactly those from 1,000,000 to 2,097,151, the array's last index, read as null |
| Strings.JoinTable | src/jit.cpp:349-362 | joins what the table holds under 0 up to its next integer key, null for missing and shadowed keys |
| Strings.SplitThenJoin | src/jit.cpp:349-377 | through the table, joining after splitting joins the pieces with null for the shadowed ones; up to 1,000,000 pieces that gives the string back |
| Strings.ReplaceInString | src/jit.cpp:340-348 | ends for every input; replacing in place equals joining the pieces with the replacement |
| Actors.RunKeepsInv | src/bbl.cpp:3819-4110 | every schedule keeps mutual exclusion, conservation of messages and what each thread knows at each point |
| Actors.MessagesArriveInOrder | src/bbl.cpp:3819-3850 | in every interleaving, taken followed by queued is exactly what was posted, in both directions |
| Actors.NoPostAfterDone | src/bbl.cpp:3957-3975 | once the child has stored `done`, no schedule makes it post or change its error |
| Actors.ReportIsFinal | src/bbl.cpp:4006-4027 | when `recv` reports the child's exit or error, the parent has taken everything the child has posted or will post under any continuation, and the report is the error the child ended with; it reports the parent's own end only when the parent was told to stop |
| Actors.NoLostWakeUp | src/bbl.cpp:3852-3863 | after the destructor's store, lock, unlock and notify the child is not blocked in `pop`; after the child's end has done the same the parent is not blocked in `recv` |
| Actors.NoReaderLeftWaiting | src/bbl.cpp:3819-3837 | a reader blocked while a message is queued has its sender still on the way to the notification |
| Actors.StoppedChildTakesAtMostOne | src/bbl.cpp:3830-3837 | from any state in which the child was told to stop, under any continuation, it takes only a message it was already about to take, so at most one |
| ActorCalls.ParentCalls | src/bbl.cpp:3988-4027 | under every schedule, a `post` that returns has appended its message and nothing else; a `recv` that returns has taken exactly the queue's next message, or reported the parent's end with the flag set, or the child's with everything taken; `try-recv` took the next message or none; the destructor ends after the child |
| ActorCalls.ChildCalls | src/bbl.cpp:3957-3975 | the same for the child: `post` appends, a `recv` that returns took the next message, one that does not took none and the child was told to stop, and the thread's end records its error |
| ActorCalls.NoErrorBeforeTheEnd | src/bbl.cpp:3957-3975 | until the thread ends no error is recorded |
| ActorCalls.RecvAlone | src/bbl.cpp:4006-4027 | an undisturbed `recv` takes the first message; without one it reports the parent's end; else the child's; else it waits |
| ActorCalls.TryRecvAlone | src/bbl.cpp:3844-3850 | an undisturbed `try-recv` takes the first message if there is one |
| ActorCalls.PostAlone | src/bbl.cpp:3819-3828 | an undisturbed `post` appends its message and wakes the child |
| ActorCalls.ChildPostAlone | src/bbl.cpp:3819-3828 | the child's wakes the parent |
| ActorCalls.PopAlone | src/bbl.cpp:3830-3837 | the child's undisturbed `recv` ends the thread if it was told to stop, waits without a message, and otherwise takes the first |
| ActorCalls.EndAlone | src/bbl.cpp:3968-3975 | the thread's end stores `done` and wakes the parent |
| ActorCalls.DestroyAlone | src/bbl.cpp:3852-3863 | once the child has exited the destructor notifies both queues and ends |
| ActorCalls.RecvReturns | src/bbl.cpp:4006-4027 | once the child has exited, a `recv` returns by the parent's own steps from wherever it is |
| ActorCalls.StaysBlocked | src/bbl.cpp:4006-4027 | a waiting `recv` stays blocked under every schedule in which the child does not notify it, whether or not the parent is told to stop |
| ActorCalls.StoppedWhileWaiting | src/bbl.cpp:3852-3863 | a schedule after which the parent waits though it was told to stop |
| Ring.StepKeepsInv | src/bbl.cpp:3335-3360 | every single load or store of either side keeps the ring's invariant |
| Ring.BoundedFifo | src/bbl.cpp:3335-3360 | in every interleaving the popped values are a prefix of the pushed ones, at most capacity - 1 are pending, and the slot being written is not the slot being read |
| Ring.RefusedWhenFull | src/bbl.cpp:3337-3354 | a push is refused exactly when the ring is full as it looks, a pop finds nothing exactly when it is empty |
| Ring.PushCalls | src/bbl.cpp:3335-3347 | in every interleaving a push that returns has added exactly its own value at the end, or nothing |
| Ring.PopCalls | src/bbl.cpp:3349-3360 | a pop that returns has given exactly the first value not yet popped, or nothing |
| TraceDse.ByNumber | src/jit.cpp:3385-3430 | by their numbers: which opcodes the pass takes to write A, which it drops, and which registers it takes each to read |
| TraceDse.Trace.EliminateDeadStores | src/jit.cpp:3432-3465 | flags exactly the droppable stores whose register is written again with no reported read in between, and changes nothing else |
| TraceDse.Trace.Optimize | src/jit.cpp:3625-3629 | two such passes |
| TraceLoop.GuardsByNumber | src/jit.cpp:3712-3760 | which order each comparison and guard tests, and which way each leaves the trace |
| TraceLoop.UnderstoodEntries | src/jit.cpp:3400-3430 | for every opcode: an entry's reads are all reported if and only if it does not read register 255, is no MOVE, NOT, BNOT or LENGTH of another register, nor one of the operations listed that read unreported registers, and its count does not wrap round |
| TraceLoop.NothingElseReported | src/jit.cpp:3400-3430 | the pass reports no register an entry does not read, but for those four and the counts in inlined frames |
| TraceLoop.WritesWithoutCode | src/jit.cpp:3662-4050 | of the operations the pass takes to write A exactly seven have no code in a compiled trace; all others store to A |
| TraceLoop.DroppedIsPure | src/jit.cpp:3432-3465 | a dropped entry could neither raise an error, nor leave the trace, nor change anything but its register |
| TraceLoop.PassKeepsLoop | src/jit.cpp:3432-3465 | on every trace that loads no unreported register it writes and has code for what it writes, with guards, inlined calls and helpers that may fail anywhere: the compiled loop goes round as often, leaves at the same entry for the same reason, with the same heap and the same registers but for those whose last store was dropped and is made up for only later, for every number of rounds and every start |
| TraceLoop.PassKeepsRegisters | src/jit.cpp:3432-3465 | so nothing at all differs when the trace is left at its first entry or where no dropped store is still to be made up for |
| TraceLoop.OptimizeKeepsLoop | src/jit.cpp:3625-3629 | the same for both passes |
| TraceFlaws.MoveIsOverlooked | src/jit.cpp:3406-3408 | a trace with a MOVE on which the pass changes the outcome from every start but one value |
| TraceFlaws.NotIsOverlooked | src/jit.cpp:3406-3408 | a trace with a NOT on which it does so exactly when the value that register held and 7 are not both falsy or both not |
| TraceFlaws.LengthIsOverlooked | src/jit.cpp:3406-3408 | a trace with a LENGTH that should fail and does not |
| TraceFlaws.Register255IsOverlooked | src/jit.cpp:3444-3446 | a trace with a call inlined at register 250, whose callee's register 5 is register 255, on which the pass changes a register |
| TraceFlaws.LateGuardSeesStaleRegister | src/jit.cpp:3432-3465 | a trace with a second guard that leaves with a different register, from every start but one value |
| TraceFlaws.ModIsNotCompiled | src/jit.cpp:3662-4050 | a trace that should leave a remainder leaves the 7 loaded before, and after the pass not even that |
| TraceFlaws.DivisionIsSeen | src/jit.cpp:3402-3405 | a load that a division reads is kept |
| Captures.Scope.ResolveCapture | src/compiler.cpp:9-30 | on a chain of scopes of any length, the answer and every capture list are those of the resolution function |
| Captures.Scope.constructor | src/compiler.cpp:876-880 | a new scope has nothing of its own and keeps the chain well formed |
| Captures.Scope.Parameters | src/compiler.cpp:887-896 | succeeds exactly when callee, parameters and result fit 255 registers; parameters are then local in order, the last of equal names winning |
| Captures.ParamRegsMeans | src/compiler.cpp:888-893 | exactly the parameters are local, each in the register of its last mention |
| Captures.NotFoundMeansInvisible | src/compiler.cpp:9-30 | resolution answers -1 exactly when no enclosing scope has the symbol local |
| Captures.TooManyExactly | src/compiler.cpp:16-27 | the limit error comes exactly when a scope on the way already has 255 captures, none of them for the symbol |
| Captures.ResolveDenotes | src/compiler.cpp:9-30 | the answer is the index of a capture that leads to the nearest enclosing scope with the symbol, and the chain stays well formed |
| Captures.DenotesStays | src/compiler.cpp:9-30 | an index handed out stays valid as capture lists grow along the chain |
| Captures.ResolveAgain | src/compiler.cpp:13-15 | asking again gives the same index and captures nothing new |
| Captures.JitClosure | src/jit.cpp:186-193 | fills each capture from the register or the capture its descriptor names, null when there is no closure |
| Captures.ClosureHoldsWhatTheCreatorReads | src/jit.cpp:172-196 | the capture that stands for a symbol holds what reading that symbol in the creating function yields |
| Captures.CaptureHoldsTheOwnersRegister | src/jit.cpp:172-196 | through any nesting of closures, it holds the register of the scope that owns the symbol |
| Parser.Lexer.ParsePrimary | src/bbl.cpp:497-548 | consumes exactly one primary, or fails as the parsing function says |
| Parser.Lexer.ParseExpr | src/bbl.cpp:550-592 | consumes a primary and its chained accesses and hands back the token after them |
| Parser.Parse | src/bbl.cpp:594-606 | returns a list of trees if and only if they flatten to exactly the tokens, nest at most 256 deep, and name or number each access |
| Parser.ReadsBack | src/bbl.cpp:497-592 | reading the tokens of a tree, whatever follows, gives the tree and then the accesses that follow |
| Parser.ExprSpells | src/bbl.cpp:550-592 | every success flattens back to exactly the tokens consumed |

## Left out

- Correctness.ChunkMeansProgram: excludes the programs with one of the flaws above by conditions on the program, and the immediates for which the inline code disagrees by one on the host; what their chunks do instead is `Simulation.ChunkStopsSound`.
- Closure.ProgramConfined: excludes programs with a LOOP distance above 32768, some of which leave their chunk (`Overlong.OverlongLoopLeavesItsChunk`); so do the simulation and `Closure.NeverWild`.
- Compiler.Compile: claims nothing about the value of a program that ends in a loop left by `break`, only about its globals and ending.
- NanBox.EmitSubiExact: is about integer words, since boxed subtraction is; `EmitSubiUntyped` is about the others.
- Table.BblTable.PushPop: requires every integer key of the table to be an array key, since otherwise the last one in bucket order is popped, whichever that is.
- TraceLoop.PassKeepsLoop: excludes entries that load a register the pass overlooks and the trace writes, and the operations without code, for which counterexamples are given; helpers take their operands' words and not the other registers, so that a collection inside one does not look at stale registers.
- Strings.SplitThenJoin: that the intern table keeps the pieces' words apart and readable is a condition on the pieces, which `Intern` in `Gc` provides for.
- Gc.BblState.GcMinor: the `gcRunning` re-entrancy guard, the collection thresholds, the slice cache and destructors of userdata are not modelled.
- TableStore.Set: the table is a Dafny object of its own that the collector's object mirrors; deletion is not composed in this way, since `Gc.BblState.ClearEntry` and `ClearSlot` need no barrier.
- Gc.BblState.SetEntry: takes the buckets after a rehash as a parameter that may not add references; `TableStore.Set` has no such parameter.
- TraceDse.Trace.Optimize: allocation sinking between the two passes is not modelled; it finds nothing on a trace without TABLE entries.
- Parser.Parse: requires tokens as the lexer makes them, with no empty symbol and no end mark among them.
- Strings.SplitString: how the runtime turns strings into words is a parameter; a string's word is not zero.
- Captures.Scope.ResolveCapture: of `compileFn` only the scope, its parameters and the capture list are modelled, not the code of the body; `static_cast<uint8_t>` is written out.
- Locals, calls, functions, `each`, `try`, `with`, strings and shifts in the compiler: outside the fragment, some compiler cases ignore the register an expression returns.
- The inline fast paths of the JIT (except those of `NanBox`), register allocation, callee inlining and inline caches, and all byte emission: machine level.
- `sinkAllocations` and the recording of traces.
- The string branch of addition, and doubles, which are opaque words.
- Chunk constants, prototypes and userdata as references the collector does not follow; the parent's intern table; rebinding of the current state.
- Float table keys; the inline table stores of the JIT, which skip the order, the next integer key or the barrier.
- `select`, `select-timeout`, `recv-vec` payloads and the serialisation of messages; who holds a mutex is read off the program counters.
- Weak memory: both concurrent models are sequentially consistent; the ring's `length` method is not modelled.
- Line numbers, `maxRegs`, debug names, the module environment (`currentEnv`), lexical errors, and integer widths of sizes and counters.
- Files, processes, network, nREPL, DAP, LSP, REPL, CLI and the disassembler.
