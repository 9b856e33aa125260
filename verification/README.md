# A verified model of the HolyC compiler's middle and back end

The project models the parts of the compiler where meaning must be preserved and storage must not overlap,
and proves that they do so, on every input and in every run, or says exactly when they do not.

| component | modules |
|---|---|
| shared vocabulary | `Options`, `Words`, `Arithmetic`, `Finite`, `Regions`, `Samples` |
| IR, its semantics, observational equivalence, single assignment | `Ir`, `Liveness`, `Equivalence`, `Ssa`, `CertEdit` |
| constant folding (src/ir-eval.c) | `Evaluate`, `EvalMeaning`, `AluSteady`, `ConstFold`, `FoldCoverage`, `FoldKeeps`, `FoldLimits` |
| store forwarding and its rounds with folding (src/ir-optimise.c) | `Forward`, `ForwardCoverage`, `Fixpoint`, `ForwardLimits`, `RoundsKeep` |
| fusion (src/ir-optimise.c) | `Fuse`, `FusionSafe`, `FusionLoop`, `FusionReach`, `FusionRegisters`, `FuseLimits` |
| dead code, control flow, the passes in place and in sequence (src/ir-optimise.c) | `DeadCode`, `CountCoverage`, `Cfg`, `CfgChain`, `Pipeline`, `Optimiser` |
| which code meets the conditions of the optimiser | `LocalCode`, `CertifiedExample` |
| slot allocator and frame layout (src/ir-regalloc.c) | `SlotAlloc`, `Frame` |
| AArch64 calls (src/aarch64-emit.h, src/aarch64.c) | `CallLowering`, `Aapcs`, `CallSequence`, `CalleePrologue`, `ScalarCall`, `CallIntoFrame` |
| AArch64 emission (src/aarch64.c) | `PhiCopies`, `Clobber`, `LogicalImm`, `Immediates` |
| handle table (src/abi-cpa-host.c) | `Handles`, `HandleAnswers` |
| hash map (src/containers.c) | `Probing`, `RoundUp`, `HashMap` |

`dafny verify dfyconfig.toml` checks everything.

## How the IR is given meaning

`Ir` is a small-step semantics: 64-bit words with wrap-around, frame slots, temporaries, memory, calls, traps,
branches, and phis that take effect together on the edge into a block. Memory, callees, addresses of slots,
narrowing and all operations the passes never look into (conversions, floating point) are arbitrary functions
in a `Machine`; a theorem about every machine covers every aliasing pattern and every callee. What a pointer can
reach is a parameter too: `Respects(M, exposed, F)` says that slots outside `exposed` are private, and dead store
elimination needs every exposed slot to have its address taken in the function. Two functions are `Equivalent`
when, on every respecting machine, from every configuration and after every number of blocks, they have made the
same calls with the same arguments, the same stores through pointers, taken the same branches, and returned or
trapped alike.

The passes are proved in two layers. One rewrite (drop this store, fold this add into that load, forward this
slot) is a function on code with a theorem of its own. The loops that search and rewrite in place are methods of
the class `Optimiser.IrFunction`, tied to those functions and shown to end.

That a pass changes no run is also true of a pass that does nothing, so each pass has a second kind of result, on what it
does not miss: which instructions folding removes (`VanishesIff`), that no read of a slot with a known value is left
where forwarding has settled (`NoReadLeft`), which triples and accesses are fused (`UpdateFusedIff`,
`ElementFusedIff`), that every dead store and dead value goes (`DeadStoreEliminate`, `DeadCodeElim`, `DceSafeIff`).

The assumptions the proofs of the passes need are explicit predicates on the function the pass starts from, never
hidden in the semantics and never asked again of what the pass produces: stored values and destination slots are
eight bytes (`WholeWords`); stored sources are constants, parameter-arrival values, or variables not assigned again in
the block (`Settled`); definitions precede uses in list order (`ListOrder`); the entry block has no phis and relies on
no temporary (`Initial`); phis name predecessors only (`PhisNamePreds`).

Single assignment is a certificate, `Cert`, that `Certified` checks block by block. It says which temporaries are
available at the start of each block and which variables a temporary is tied to: once one of these is assigned, or a
call or a store through a pointer may have changed one that lives in memory, the temporary is no longer available. So
arithmetic may read frame slots, and what it computed is relied on only as long as the slots keep their values.
Alloca'd temporaries are buffers and may be stored to. `Optimisable(cert, F)` asks for a certificate, list order,
whole words and settled blocks. Comparisons, and arithmetic with a constant that is no identity, fold to constants or
not at all and need not be certified; arithmetic that can fold to one of its operands has to be tied to it.
`Fusible(cert, F)` asks that sums and multiples are certified if memory is addressed through them; of other arithmetic
only that what is stored through a pointer is a word.

`LocalIsOptimisable` gives a condition that can be read off the code, position by position: temporaries are defined
once and used in their block before what they are tied to changes. In `CertifiedExample` it is met by the functions Inc
and Sum as the compiler dumps them before optimisation (evidence/ir_dump_S11.txt,
evidence/boundary/diff/diff_loop_fn_native.txt), by the sum of two slots that hold constants, where one round forwards
and the next one folds, and by a field access through a pointer held in a slot, which is fused.

A condition on the first function carries through everything that follows. Folding turns the certificate into one for
the folded function (`FoldKeepsCert`) and forwarding keeps it, so any number of rounds preserves every run
(`RoundsPreserve`). What the rounds leave is `Fusible`: each of the three fusions strikes the temporaries it removes
from the certificate and leaves a function that is `Fusible` again, so any number of sweeps preserves every run too
(`FusionInvisible`). `Optimiser.IrFunction.Optimise` puts the in-place loops together: rounds, dead store elimination
and fusion end, and no run from the entry can be told from the original.

## What turned out not to hold

Each of these keeps the code as it is, gives a concrete input, and states when the code is right.

- Store forwarding drops a tracked slot when the slot is assigned but not when its source is. For
  `a = b; b = k; return a` the forwarded block returns k (`StaleSourceIsForwarded`). For every instruction that does
  not empty the table, keeping an entry across it is right exactly if it leaves the source alone or gives it back its
  value (`KeepingEntryIsRightIff`; `AdditionBreaksEntryIff` for `b = b + k`).
- A word stored into a narrower slot is forwarded without the truncation; storing and reading back a constant is
  right exactly when the slot has eight bytes (`NarrowSlotRightIff`).
- An identity fold redirects uses to a re-assignable local: `t = x + 0; y = k; return t` is folded correctly
  exactly when y is not x (`IdentityFoldRightIff`).
- A folded definition that comes after its use in list order is deleted although the use still names it: with the
  definition in block d and the use in block u the fold is right exactly when d < u (`LateDefinitionLostIff`).
- Displacement fusion moves the read of a pointer past whatever stands in between; with a store in between it is right
  exactly when the store does not assign the pointer (`ReassignedPointerRightIff`).
- The AAPCS argument loop is entered when a structure is passed or returned by value (src/aarch64.c:2041-2053). There a
  scalar float that finds no vector register left is stored through `d0`, which by then holds an earlier argument
  (src/aarch64.c:1269-1279, and the same in src/aarch64-jit.c:914-925). Every argument arrives, whatever the values,
  exactly when no scalar float overflows (`ArrivalExact`); an 8-byte structure followed by nine floats loses the first
  float (`NinthFloatOverwritesFirst`). Calls without structures store overflowing arguments first and have no such
  condition (`ScalarCallDelivers`).
- A variadic callee reads its argument count at a fixed offset above its frame pointer (src/ir-regalloc.c:648-655), the
  caller puts it above the named arguments that went to the stack (src/aarch64.c:1099-1118). They meet exactly when no
  named argument went to the stack (`VariadicFoundIff`).
- The frame size is kept in 16 bits (src/ir.c:3129-3134): the reservation covers the frame exactly up to 65520 bytes
  (`ReservationCoversIff`).
- Adding or subtracting a constant of 16 MB or more is right for every register file exactly when the source is
  not x9 (`AddSubImmExact`).
- Releasing a handle looks at neither the reserved nor the kind field, so values that were never issued release
  live handles (`ForgedRelease`); what is released was issued exactly when those two fields are right
  (`ReleaseOfIssuedIff`).
- A map asked for capacity 0 gets no slots and a mask of 2^64-1 and is unusable; every other request gives a usable
  map (`HashMap.Map.constructor`).
- Looking up the key 2^64-1 while the map's cache is empty takes the empty cache for a hit and reads outside the
  table; `HashMap.Map.Get` says that this happens exactly then.

Where documentation and code disagree the model follows the code: a slot of the handle table issues at most 32768
tokens, not 65535 (src/abi-cpa-host.c:16-20; issue and release each use up a generation); issued tokens are
negative as signed values although "0/positive is success" (src/abi-cpa-host.h:21); and it is not true of
forwarding that each pass only removes work (src/ir-optimise.c:971-977), so its termination needs the argument in
`Fixpoint`.

## Model

| member | source | states |
|---|---|---|
| `Liveness.RunPruned` | src/ir-optimise.c:1208-1215 | deleting writes nobody reads gives the same run on every machine: the simulation behind every deleting pass, including that no trapping operation may be deleted |
| `Equivalence.UsesCoverReads` | src/ir-optimise.c:628-664 | the use counts count every read of a temporary that an execution can make |
| `Equivalence.SlotReadsCoverReads` | src/ir-optimise.c:592-624 | before fusion, the slot read count counts every read of a variable |
| `CountCoverage.TmpUsesIff` | src/ir-optimise.c:628-664 | and count nothing else but stores to the temporary and its address being taken |
| `CountCoverage.SlotReadsIff` | src/ir-optimise.c:592-624 | and counts nothing else but its address being taken and constants that have the slot's number where a variable has its id |
| `Equivalence.EquivalentTransitive` | src/ir-optimise.c:964-995 | indistinguishability composes, so passes can be chained |
| `DeadCode.DropDeadStore` | src/ir-optimise.c:943-962 | dropping a store whose slot is never read and whose address is never taken is invisible in every run, down to every other slot and temporary |
| `DeadCode.DropDeadValue` | src/ir-optimise.c:1216-1258 | deleting an unused, untrapping computation is invisible in every run, down to every slot and other temporary |
| `DeadCode.UsesOnlyShrink` | src/ir-optimise.c:1217-1258 | counts taken before a sweep stay upper bounds while the sweep deletes |
| `DeadCode.DceSafeIff` | src/ir-optimise.c:1226-1246 | what may be deleted is exactly what does no more than assign its temporary on every machine, but for plain copies, buffer markers and phis |
| `Optimiser.SlotReadCount` | src/ir-optimise.c:592-624 | the counting loops compute the sum of reads over all instructions |
| `Optimiser.SlotHasAddressTaken` | src/ir-optimise.c:578-590 | the scan finds an address-taking instruction exactly when there is one |
| `Optimiser.BuildTmpUseCounts` | src/ir-optimise.c:635-664 | the map built operand by operand holds every temporary's use count |
| `Optimiser.IrFunction.DeadStoreEliminate` | src/ir-optimise.c:943-962 | the whole in-place pass drops every store that was dead at its start, drops nothing but stores to slots that are neither read nor exposed in the end, leaves an equivalent function, and keeps every certificate |
| `Optimiser.IrFunction.Sweep` | src/ir-optimise.c:1219-1258 | one sweep with stale counts is equivalent, shrinks the function if it deletes, and otherwise found nothing dead |
| `Optimiser.IrFunction.DeadCodeElim` | src/ir-optimise.c:1216-1258 | the repeated sweeps end, leave an equivalent function, and leave no dead value behind |
| `Evaluate.EvalBinopIsAlu` | src/ir-eval.c:15-57 | a folded constant is what the 64-bit unit computes, wrap-around included |
| `Evaluate.NotFoldedIff` | src/ir-eval.c:24-52 | folding is refused exactly for division by zero, INT64_MIN by -1, and shift counts outside 0..63 |
| `Evaluate.EvalCmpIsCompare` | src/ir-eval.c:59-74 | a folded comparison is the machine's comparison, signed or unsigned |
| `EvalMeaning.FoldsToIff` | src/ir-eval.c:15-57 | an operation on constants folds to v if and only if v is what the operation means: equal modulo 2^64, the quotient or remainder of the defining equation, or bit by bit; INT64_MIN by -1 aside |
| `Words.BitsOf` | src/ir-eval.c:20-22 | every bit of and, or and exclusive or is that of the operands' bits |
| `Evaluate.IdentityHolds` | src/ir-eval.c:79-101 | every identity the folder accepts returns the other operand for every word |
| `AluSteady.IdentitiesComplete` | src/ir-eval.c:79-101 | conversely the folder misses no identity, but for shifts by non-zero multiples of 64 |
| `AluSteady.SteadyIff` | src/ir-eval.c:79-101 | for every operation and shape of operands: it always gives the variable back if and only if it is in the table |
| `Evaluate.AbsorbingZero` | src/ir-eval.c:195-202 | x*0 and x&0 are 0 for every word |
| `Evaluate.MulIsShift` | src/ir-eval.c:203-214 | x*2^n is x<<n modulo 2^64, for exactly the constants the test accepts |
| `Words.PowerOfTwoTest` | src/ir-eval.c:207-212 | k&(k-1) is zero exactly for powers of two, and the count of trailing zeros is then the exponent |
| `Ssa.RunKeepsFacts` | src/ir-eval.c:103-223 | in every run, an available temporary meets every equation that its assignments make true and that speaks only of what it is tied to |
| `ConstFold.VanishedValue` | src/ir-eval.c:137-202 | an instruction that vanishes computed, without trapping, the value its uses are redirected to |
| `FoldCoverage.VanishesIff` | src/ir-eval.c:137-202 | an instruction vanishes if and only if its operands are constants the machine has a value for, or one constant makes it always its other operand or always zero |
| `FoldCoverage.BecomesIff` | src/ir-eval.c:157-215 | of the rest, exactly multiplications by a power of two become shifts and exactly known values for frame slots become stores |
| `ConstFold.FoldSustained` | src/ir-eval.c:7-13 | in every run, a folded temporary that is available equals what the pass redirects it to |
| `ConstFold.HalfRun` | src/ir-eval.c:103-223 | resolving operands alone changes no state of any run |
| `ConstFold.FoldPreservesRuns` | src/ir-eval.c:103-234 | after every number of blocks: same calls, stores, branches, traps, slots and surviving temporaries |
| `ConstFold.WholeWordsAreSafe` | src/ir-eval.c:103-223 | if words are computed and what can fold to an operand is tied to it, only such and constants vanish and no store changes its width |
| `ConstFold.RhoGrounded` | src/ir-eval.c:7-13 | every redirected temporary is tied to the variable it is redirected to |
| `FoldKeeps.HalfCertified` | src/ir-eval.c:103-223 | resolving operands leaves a certified function certified |
| `FoldKeeps.FoldKeepsCert` | src/ir-eval.c:103-234 | the folded function is certified, without the folded temporaries |
| `FoldLimits.IdentityFoldRightIff` | src/ir-eval.c:178-194 | folding `t = x + 0; y = k; return t` is right for all machines and states if and only if y is not x |
| `FoldLimits.LateDefinitionLostIff` | src/ir-eval.c:103-134 | definition in block d, use in block u, for every number of blocks: folding is right for all machines and states if and only if d < u |
| `LocalCode.LocalIsOptimisable` | src/ir.c:1369-1374 | code whose temporaries are defined once and used in their block before their operands change meets the condition of the rounds |
| `CertifiedExample.IncOptimisable` | evidence/ir_dump_S11.txt:1-11 | the dumped function Inc meets the conditions of the rounds and of fusion |
| `CertifiedExample.SumOptimisable` | evidence/boundary/diff/diff_loop_fn_native.txt:1-30 | so does the dumped function Sum, a loop that compares slots |
| `CertifiedExample.ForwardingFeedsFolding` | src/ir-optimise.c:971-982 | a sum of two slots that hold constants: round one forwards them, round two folds the sum and returns it, for all constants and backends |
| `CertifiedExample.FieldFolds` | src/ir.c:1455-1466 | a field access through a pointer in a slot meets the conditions, and its offset is folded if and only if it fits the addressing mode |
| `Optimiser.EvalBlock` | src/ir-eval.c:103-223 | the block loop yields the folded block and the next resolver, and reports a change exactly if some instruction was folded |
| `Optimiser.IrFunction.EvalConstantExpressions` | src/ir-eval.c:225-234 | the in-place pass computes the function the folding theorem is about |
| `Optimiser.FoldPays` | src/ir-optimise.c:971-982 | a pass that counts a change lowers the cost of foldable operations; one that counts none changes nothing |
| `Forward.RewriteOperandsSame` | src/ir-optimise.c:346-424 | replacing a tracked slot by its source changes no input of the instruction |
| `Forward.TrackValid` | src/ir-optimise.c:477-565 | after every instruction each tracked slot still equals its tracked source |
| `Forward.ForwardExec` | src/ir-optimise.c:458-572 | the rewritten block ends like the original, in the same state, from every state and tracking set |
| `Forward.ForwardPreservesRuns` | src/ir-optimise.c:458-572 | every run of the forwarded function is the original run, state for state, whatever the backend's clobber answers |
| `ForwardCoverage.NoReadLeft` | src/ir-optimise.c:458-572 | where a pass changes nothing, no read is left of a slot after a word was stored to it unless something in between assigns the slot, may reach it through memory, or spoils the register |
| `ForwardCoverage.UnchangedIff` | src/ir-optimise.c:346-424 | a tracked slot leaves an instruction unchanged if and only if it is not read at any of the rewritten positions |
| `ForwardCoverage.KillsAllIff` | src/ir-optimise.c:477-483 | the table is emptied by exactly the operations that can change a slot they do not name |
| `Forward.SettledIsHazardFree` | src/ir-optimise.c:458-572 | if stored sources are constants or never assigned again and slots are whole words, no hazard arises |
| `Forward.ForwardKeepsSettled` | src/ir-optimise.c:458-572 | forwarding leaves a settled block settled |
| `ForwardLimits.StaleSourceIsForwarded` | src/ir-optimise.c:508-565 | a re-assigned source is still forwarded: the two blocks return different values unless they coincide |
| `ForwardLimits.NarrowSlotRightIff` | src/ir-optimise.c:527-553 | the width test looks at the value, not at the slot: forwarding through the slot is right for all machines and states if and only if it has eight bytes |
| `ForwardLimits.KeepingEntryIsRightIff` | src/ir-optimise.c:508-565 | for every instruction that does not kill: keeping `a holds b` is right if and only if it does not assign b or reproduces its value |
| `ForwardLimits.AdditionBreaksEntryIff` | src/ir-optimise.c:508-565 | across `b = b + k` exactly for k = 0 |
| `Optimiser.RewriteWith` | src/ir-optimise.c:473-475 | the entry loop rewrites like one function and counts a change exactly when some entry changed the instruction |
| `Optimiser.ForwardBlock` | src/ir-optimise.c:458-572 | the block loop computes the forwarded block and reports a change exactly when it was not quiet |
| `Optimiser.IrFunction.ForwardStoreToReads` | src/ir-optimise.c:458-572 | the in-place pass over all blocks |
| `Fixpoint.RewriteLighter` | src/ir-optimise.c:346-424 | along tracked slots without cycles, each rewrite strictly shortens the chain an operand can still go through |
| `Fixpoint.TrackGraded` | src/ir-optimise.c:477-565 | in quiet code the tracked slots never form a cycle |
| `Fixpoint.BlockSettles` | src/ir-optimise.c:458-572 | every block becomes quiet after finitely many passes |
| `Fixpoint.ForwardingSettles` | src/ir-optimise.c:971-982 | forwarding repeated on any function reaches a pass that counts no change |
| `Fixpoint.ForwardingRepeated` | src/ir-optimise.c:971-982 | any number of forwarding passes keeps every run state for state, from the condition on the first function |
| `Fixpoint.HooklessStaysLost` | src/ir-optimise.c:433-438 | a backend without a clobber hook, as both JITs are, meets the one condition of the termination argument |
| `RoundsKeep.FoldKeepsOptimisable` | src/ir-eval.c:103-234 | folding keeps the condition: certificate, list order, whole words, settled blocks, addresses, what stored sources are tied to |
| `RoundsKeep.ForwardKeepsOptimisable` | src/ir-optimise.c:458-572 | forwarding keeps it, with the same certificate |
| `RoundsKeep.RoundsPreserve` | src/ir-optimise.c:971-982 | any number of rounds, from the condition on the first function alone: every run is kept, with every slot and every temporary not folded away |
| `Optimiser.IrFunction.FoldAndForward` | src/ir-optimise.c:971-982 | the do-while loop ends for every function, at a common fixed point of both passes, after whole rounds of fold then forward that preserve every run of an optimisable function |
| `Clobber.ForwardedRegistersIntact` | src/aarch64.c:57-99 | under the AArch64 oracle every forwarded register operand, call arguments and phi values included, is read while its register still holds the stored value, for every block and every run within the shape |
| `Clobber.EmissionIsShaped` | src/aarch64-emit.h:495-541 | what each opcode's emission writes, point by point, stays within the shape |
| `Clobber.ForwardedReadsRight` | src/aarch64.c:57-99 | so forwarded operands are read right by the code emitted for the forwarded block |
| `Clobber.OracleMissesNothing` | src/aarch64.c:64-99 | a scratch register an instruction loses is always answered as clobbered |
| `Clobber.SparedBeforeR1` | src/aarch64.c:1651-1660 | what the oracle gives up needlessly before r1 is read |
| `Clobber.SparedBeforeR2` | src/aarch64.c:1447-1454 | what it gives up needlessly before r2 is read |
| `Clobber.SparedAfterArith` | src/aarch64-emit.h:495-505 | what it gives up needlessly after integer arithmetic |
| `Clobber.SparedAfterStore` | src/aarch64.c:68-74 | the refined case: a store from a register gives up nothing and loses nothing |
| `Clobber.StoresReadFirst` | src/aarch64.c:68-74 | the backend has written nothing before a plain store reads its source, so forwarding ends for it |
| `Fuse.FoldDispSteady` | src/ir-optimise.c:793-826 | folding an added constant into the addressing mode of its only use changes nothing but its temporary, from any start, if nothing in between assigns the pointer or the result |
| `FusionSafe.FoldDispPreservesRuns` | src/ir-optimise.c:793-826 | in a fusible function the displacement fold changes no run from the entry but for its temporary, addresses modulo 2^64, pointers in slots included, and leaves a fusible function |
| `FusionSafe.FoldScalePreservesRuns` | src/ir-optimise.c:828-854 | likewise for a scaled index defined in any other place, but for the two temporaries |
| `Fuse.FoldRmwPreservesRuns` | src/ir-optimise.c:887-941 | fusing load, operation and store of words through one address changes nothing but the two temporaries, from any start, faults included |
| `FusionSafe.RmwKeeps` | src/ir-optimise.c:887-941 | it leaves a fusible function |
| `CertEdit.AgreeRun` | src/ir-optimise.c:768-861 | where the certified facts make two instructions act alike, exchanging them leaves every run from the entry as it was |
| `CertEdit.ReplaceKeepsCert` | src/ir-optimise.c:768-861 | a certificate survives an instruction that reads only what the old one's certificate vouches for |
| `CertEdit.DropKeepsCert` | src/ir-optimise.c:768-861 | deleting the definition of an unread temporary leaves a function certified without it |
| `Fuse.Commuted` | src/ir-optimise.c:863-865 | the operations that may take the loaded value on the right are commutative on words |
| `FusionReach.UpdateFusedIff` | src/ir-optimise.c:863-930 | load, operation and store of `*p = *p op y` become one instruction if and only if the operation is one of the five and the loaded word is on the left, or the operation commutes on all words |
| `FusionReach.ElementFusedIff` | src/ir-optimise.c:740-757 | the access `*(p + i * s)` takes over the multiplication if and only if it is by 1, 2, 4 or 8, written as a product or as a shift, on either side |
| `FusionReach.FieldFusedIff` | src/ir-optimise.c:793-826 | the access takes over a constant if and only if it is added, on either side, or subtracted from the pointer, and the 32-bit field of the instruction holds it |
| `FusionReach.ConsumerIff` | src/ir-optimise.c:683-697 | the search finds exactly the first instruction that mentions the address, if it uses it as one |
| `FusionRegisters.DispBaseIntact` | src/ir-optimise.c:803-825 | on AArch64 a base in a scratch register is there when the fused operation reads it, in every run within the emission shape |
| `FusionRegisters.RangeClobbersIff` | src/ir-optimise.c:699-712 | what stands between is refused exactly if it is of a kind whose emission may write a register |
| `FusionRegisters.ScaleBaseIntact` | src/ir-optimise.c:828-850 | likewise for the scale fold |
| `FuseLimits.ReassignedPointerRightIff` | src/ir-optimise.c:793-826 | the fold is made across a store for every backend, and is right for all machines and states if and only if the store does not assign the pointer |
| `FusionLoop.RewriteShrinks` | src/ir-optimise.c:984-994 | every fusion deletes at least one live instruction |
| `FusionLoop.FusionEnds` | src/ir-optimise.c:984-994 | however the sweeps go, there are at most as many fusions as live instructions |
| `FusionLoop.RewritePreserves` | src/ir-optimise.c:768-941 | each rewrite keeps the condition on the function and changes no run but for what it deletes |
| `FusionLoop.FusionInvisible` | src/ir-optimise.c:984-994 | any number of fusions of all three kinds, in any order: from the condition on the first function alone, every run is kept, with every slot and every temporary that did not vanish |
| `FusionLoop.UsesNeverGrow` | src/ir-optimise.c:769-777 | no fusion adds a use |
| `FusionLoop.OldCountIsExact` | src/ir-optimise.c:769-777 | a count of one taken at the start of a sweep is still right for every temporary that is still read |
| `FusionLoop.LicensedIff` | src/ir-optimise.c:832-842 | with current counts a sweep takes every applicable rewrite except where it settled on the other operand first |
| `FusionLoop.FindAddressFold` | src/ir-optimise.c:793-854 | displacement first, then the scaling of r2, then of r1: finds a fold exactly when the sweep's tests admit one |
| `FusionLoop.FindRmw` | src/ir-optimise.c:877-930 | looking at the two previous non-NOP instructions finds a triple exactly when the sweep's tests admit one |
| `Optimiser.IrFunction.FuseIaddIntoMemAddressing` | src/ir-optimise.c:768-861 | a sweep with the counts of its start preserves every run of a fusible function, and reports no change only if nothing is left that a sweep would take |
| `Optimiser.IrFunction.FuseLoadOpStore` | src/ir-optimise.c:887-941 | likewise for read-modify-write |
| `Optimiser.IrFunction.FuseAll` | src/ir-optimise.c:984-994 | the do-while loop ends with no fusion left that a sweep would take, and every run of a fusible function is as it was but for the temporaries that vanished |
| `Pipeline.OptimisableIsFusible` | src/ir-optimise.c:971-994 | what the rounds leave can be fused |
| `Pipeline.RoundsAddNothing` | src/ir-optimise.c:971-983 | the rounds compute no new temporary and take no address less, so dead store elimination finds what it needs |
| `Pipeline.StoreDropKeepsFusible` | src/ir-optimise.c:943-962 | whatever certifies a function for fusion certifies it without its dead stores |
| `Pipeline.SequenceInvisible` | src/ir-optimise.c:964-995 | rounds, then dropped stores, then fusion: no run from the entry can be told apart |
| `Optimiser.IrFunction.Optimise` | src/ir-optimise.c:964-995 | the three in-place loops in sequence end and are invisible from one condition on the first function; the rounds end where neither pass finds a change, all dead stores are dropped, and no fusion is left to do |
| `Cfg.PassForward` | src/ir-optimise.c:148-192 | every prefix of a run is met by the run with the pass-through block folded, in the same state |
| `Cfg.PassBackward` | src/ir-optimise.c:148-192 | and every prefix of the folded run by the original, so infinite runs correspond |
| `Cfg.MergeForward` | src/ir-optimise.c:80-142 | every prefix of a run is met by the run with the block merged into its only predecessor |
| `Cfg.MergeBackward` | src/ir-optimise.c:80-142 | and conversely, in the same state |
| `Cfg.MergedEnter` | src/ir-optimise.c:33-77 | re-pointed phi pairs read the same values on the re-pointed edges |
| `CfgChain.RewriteSameBehaviour` | src/ir-types.c:485-508 | one fold or merge: the same events in the same order, the same endings, for finite and infinite runs |
| `CfgChain.RewriteKeepsPhis` | src/ir-optimise.c:33-192 | every fold and merge leaves phis that name predecessors only |
| `CfgChain.ChainSameBehaviour` | src/ir-optimise.c:964-969 | the same for any sequence of folds and merges, from the condition on the first function |
| `PhiCopies.SafeOrderIsParallel` | src/aarch64.c:1068-1086 | copies made in an order that overwrites nothing still needed equal the simultaneous assignment |
| `PhiCopies.BlockedIsCycles` | src/aarch64.c:1070-1089 | phis that all wait for each other are exactly a union of cycles of length at least two |
| `PhiCopies.SafeOrderMeansUnblocked` | src/aarch64.c:1068-1089 | where a cycle exists no sequential order works |
| `PhiCopies.Sweep` | src/aarch64.c:1070-1086 | one sweep of the greedy loop keeps the order safe and makes progress unless everything pending is blocked |
| `PhiCopies.Collect` | src/aarch64.c:1049-1064 | collects the edge's copies, and gives up exactly when a phi, with or without a value for the edge, follows 32 that have one |
| `PhiCopies.Materialise` | src/aarch64.c:1041-1091 | emits a complete safe order if and only if nothing is blocked; otherwise the pending phis are the cycles, or there was a phi too many |
| `SlotAlloc.RecordAll` | src/ir-regalloc.c:208-278 | the recorded ranges cover exactly the mentions of each temporary and are as tight as possible |
| `SlotAlloc.Choose` | src/ir-regalloc.c:307-313 | first fit: the lowest slot whose holder has ended |
| `SlotAlloc.Colour` | src/ir-regalloc.c:298-330 | ranges sharing a slot are disjoint, and the number of slots is the largest number of ranges meeting at one position |
| `SlotAlloc.NoSoundAssignmentIsSmaller` | src/ir-regalloc.c:228-237 | no sound assignment of slots uses fewer |
| `SlotAlloc.SortSorts` | src/ir-regalloc.c:201-206 | the scan order is a sorted permutation of the ranges |
| `Frame.ComputeLayout` | src/ir-regalloc.c:565-677 | the three loops place every surviving local and parameter and the hidden pointer, and total what they use |
| `Frame.EveryDeclarationPlaced` | src/ir-regalloc.c:565-677 | a local, parameter, hidden pointer or argument count is given an offset if and only if it asks for bytes, and has that many of its own inside the area |
| `Frame.ParamsPacked` | src/ir-regalloc.c:640-677 | parameters follow one another upward in multiples of eight bytes, the hidden pointer below them, the locals above |
| `Frame.LocalsPacked` | src/ir-regalloc.c:569-593 | locals follow one another downward from the frame pointer, each as large as declared |
| `Frame.LocalsTight` | src/ir-regalloc.c:589-590 | the area of the locals exceeds what they ask for by rounding only |
| `Frame.RaCtx.SetLoff` | src/ir-regalloc.c:26-33 | a second offset for a variable is reported and not stored |
| `Frame.RaCtx.AllocSized` | src/ir-regalloc.c:57-69 | a buffer of at least its size, directly below everything allocated so far |
| `Frame.RaCtx.AllocBuffers` | src/ir-regalloc.c:239-247 | one buffer per alloca that is not bound yet, stacked downwards, nothing else moved |
| `Frame.RaCtx.AllocAllTmps` | src/ir-regalloc.c:238-330 | buffers, then slots, for whatever is not bound yet: a minimal number of slots, and temporaries in one slot have disjoint ranges |
| `Frame.RaCtx.BindAstLoffs` | src/ir-regalloc.c:423-469 | the hidden pointer, parameters and locals get the layout's offsets; it succeeds if and only if no two of them, nor anything bound before, are one IR variable |
| `Frame.RaCtx.Prepare` | src/ir.c:3102-3135 | layout, binding and temporaries in sequence: every variable and temporary has a place, an alloca bound to a local is that local; it succeeds if and only if no two declarations with bytes in the frame are one IR variable |
| `Frame.FrameDisjoint` | src/ir-regalloc.c:565-677 | any two of the locals, hidden pointer, parameters, argument count, buffers and slots are disjoint and inside the frame |
| `Frame.OffsetsAreRegions` | src/ir-regalloc.c:565-677 | the computed offsets are those of the disjoint regions when temporaries start at the returned total |
| `Frame.TempsApart` | src/ir-regalloc.c:238-330 | a temporary overlaps nothing else in the frame, and another temporary only if their ranges are disjoint |
| `Frame.VariablesApart` | src/ir.c:3102-3135 | of the prepared frame, any two variables occupy disjoint bytes inside it, unless they are temporaries with disjoint ranges |
| `Frame.ReservationCoversIff` | src/ir.c:3129-3134 | the 16-bit stack space covers the frame if and only if it needs at most 65520 bytes |
| `CallSequence.PrePass` | src/aarch64-emit.h:108-136 | the pre-pass measures exactly the bytes the argument loop will use |
| `CallSequence.EmitArg` | src/aarch64-emit.h:157-211 | what the argument loop emits for one argument, and how it moves the counters |
| `CallSequence.EmitArgs` | src/aarch64-emit.h:157-212 | the loop's final cursors are the pre-pass totals |
| `CallSequence.EmitCall` | src/aarch64-emit.h:91-250 | the emitted sequence before and after the branch |
| `Aapcs.PlacedByTheRules` | src/aarch64-emit.h:157-211 | by section 6.8.2 of AAPCS64: an argument is in registers if and only if its file is not closed and has enough left, takes exactly the lowest ones no earlier argument has, and otherwise lies right above the earlier ones on the stack |
| `Aapcs.NoBackFill` | src/aarch64-emit.h:128 | once an argument of a file has gone to the stack no later one of the file is in a register |
| `Aapcs.CountersMean` | src/aarch64-emit.h:108-136 | the running counters are what the placements so far have taken |
| `CallLowering.PlacedBelow` | src/aarch64-emit.h:157-211 | each argument's registers and bytes come from what no earlier argument had |
| `CallLowering.ArgPassed` | src/aarch64-emit.h:157-211 | running one argument's code puts its bytes in its place and disturbs nothing placed before, vector register 0 apart |
| `CallLowering.ArgsPassed` | src/aarch64-emit.h:157-212 | running the whole loop places every argument if no scalar float overflows, and touches nothing above the call area |
| `CallLowering.ArrivalExact` | src/aarch64.c:1269-1279 | all arguments arrive, for all values, if and only if no scalar float overflows |
| `CallLowering.NinthFloatOverwritesFirst` | src/aarch64.c:1269-1279 | an 8-byte structure and nine floats: values for which the first float does not arrive |
| `CallSequence.FootprintsDisjoint` | src/aarch64-emit.h:108-212 | arguments share no register and no byte and stay below the stashed return pointer and the total |
| `CallSequence.CallPrepared` | src/aarch64-emit.h:137-212 | at the branch: all arguments in place, the destination stashed and in x8 if indirect, nothing above the area touched |
| `CallSequence.CallReturned` | src/aarch64-emit.h:217-250 | after the call: stack pointer restored, destination recovered, a register-returned aggregate in the buffer |
| `CalleePrologue.ReceiveOne` | src/aarch64-emit.h:299-360 | the callee's own counters advance like the caller's for every class |
| `CalleePrologue.EmitPrologue` | src/aarch64-emit.h:283-361 | the whole prologue, up to the variadic part |
| `CalleePrologue.AllReceived` | src/aarch64-emit.h:283-361 | run on arguments in place, the prologue fills every slot with its argument's bytes |
| `CalleePrologue.CallDelivers` | src/aarch64.c:2246-2249 | caller and callee together, for calls that pass or return a structure: every declared parameter's slot ends up with the caller's bytes, and register scalars are still in their registers |
| `ScalarCall.PartitionCallArgs` | src/aarch64.c:1097-1121 | the partition loop agrees with the callee's own counters, argument by argument |
| `ScalarCall.EmitScalarCall` | src/aarch64.c:2099-2149 | what the scalar path emits in front of the branch and after it |
| `ScalarCall.ScalarsPassed` | src/aarch64.c:2099-2140 | running it puts every argument where the partition says, whatever the values and however many; the stack pointer goes down by the least multiple of 16 that holds the arguments on the stack, and no byte outside that area changes |
| `ScalarCall.ScalarCallReturned` | src/aarch64.c:2147-2149 | after the call the stack pointer is what it was, and nothing else has changed |
| `ScalarCall.ScalarCallDelivers` | src/aarch64.c:2099-2140 | caller and callee together, for all other calls: every declared parameter receives the caller's bytes |
| `ScalarCall.VariadicFoundIff` | src/aarch64.c:2073-2098 | the callee finds its variadic part for all values if and only if no named argument went to the stack |
| `CallIntoFrame.LayoutSlotsApart` | src/ir-regalloc.c:646-675 | the layout's parameter slots are below the frame pointer and disjoint |
| `CallIntoFrame.CallDeliversIntoFrame` | src/aarch64-emit.h:283-361 | so calls deliver into the frame the layout describes |
| `CallIntoFrame.ScalarCallDeliversIntoFrame` | src/aarch64.c:2099-2140 | and so do scalar calls |
| `LogicalImm.MatchesExactly` | src/aarch64.c:838-849 | counting ones and rotating recognises exactly the rotated runs |
| `LogicalImm.FindRotation` | src/aarch64.c:842-849 | the rotation loop finds a rotation exactly when there is one |
| `LogicalImm.IsLogicalImm` | src/aarch64.c:824-852 | yes if and only if the value is a rotated, non-empty, non-full run in an element of 2 to 64 bits, repeated over the word, in both widths |
| `Immediates.MovImmLoads` | src/aarch64.c:166-203 | for every 64-bit immediate the sequence leaves exactly it in the register and changes no other |
| `Immediates.MovImmEncodes` | src/aarch64.c:166-203 | one to four instructions, every field in range |
| `Immediates.MovImmLength` | src/aarch64.c:166-203 | one instruction from -65536 to 65535, otherwise one for each halfword that is not zero |
| `Immediates.AddSubImmAdds` | src/aarch64.c:468-490 | the destination is the source plus or minus v modulo 2^64, for every v |
| `Immediates.AddSubImmExact` | src/aarch64.c:468-490 | right for every register file if and only if x9 is not the source of a constant of 16 MB or more |
| `Handles.ComposeFields` | src/abi-cpa-host.c:55-62 | the fields of a token are read back |
| `Handles.EncodeInjective` | src/abi-cpa-host.c:55-62 | different slot or generation, different token |
| `Handles.TokenIsNoStatus` | src/abi-cpa-host.c:55-62 | no token is a status code |
| `Handles.LookupExact` | src/abi-cpa-host.c:66-100 | for every 64-bit value, lookup succeeds if and only if it is the token of a live slot |
| `Handles.ReleaseExact` | src/abi-cpa-host.c:145-168 | a release succeeds if and only if slot, generation and domain name a live token and the low byte is right |
| `Handles.TableIsMap` | src/abi-cpa-host.c:55-187 | after every run lookup agrees with a map from live tokens to objects; all tokens ever issued are distinct and no status codes; at most 32768 per slot |
| `Handles.StaleForever` | src/abi-cpa-host.c:170-187 | a token that was issued and released never becomes live again, whatever happens next |
| `Handles.ReleaseOnce` | src/abi-cpa-host.c:145-187 | releasing a live token unbinds exactly it; releasing it again is refused and changes nothing |
| `Handles.EventEffect` | src/abi-cpa-host.c:104-187 | issue binds a fresh token or changes no binding; release removes the named binding or changes nothing |
| `Handles.ForgedRelease` | src/abi-cpa-host.c:153-168 | any value of the remaining fields releases a live handle, though it is live only for one |
| `Handles.ReleaseOfIssuedIff` | src/abi-cpa-host.c:153-168 | what a release accepts was issued if and only if its reserved and kind fields are right |
| `HandleAnswers.LookupAnswers` | src/abi-cpa-host.c:66-100 | for every 64-bit value and every status code, when lookup answers with it, said of the tokens issued and live |
| `HandleAnswers.ReleaseAnswers` | src/abi-cpa-host.c:145-168 | the same for release |
| `HandleAnswers.IssueAnswers` | src/abi-cpa-host.c:104-130 | a token of the first slot neither in use nor retired, out of memory if there is none, slot retired if that slot has issued all its 32768 |
| `HandleAnswers.ReleasedTokenAnswers` | src/abi-cpa-host.c:66-168 | a released token is stale while its slot is empty, of another generation once the slot is used again, and of a retired slot in the end |
| `Handles.HandleTable.IssueAst` | src/abi-cpa-host.c:104-130 | the in-place operation, with its effect on bindings and history |
| `Handles.HandleTable.ReleaseInternal` | src/abi-cpa-host.c:145-187 | the in-place operation, with its effect on bindings |
| `RoundUp.RoundsUp` | src/containers.c:784-794 | the least power of two not below v for v from 1 to 2^63, and 0 otherwise |
| `Probing.StoppedMeansAbsent` | src/containers.c:844-861 | a probe that stops at a free slot has shown the key absent |
| `Probing.InsertReachable` | src/containers.c:820-842 | filling the slot where the probe stopped keeps every key reachable |
| `Probing.OneSlotPerKey` | src/containers.c:820-842 | no key sits in two slots |
| `HashMap.GetNextIdx` | src/containers.c:820-842 | the probe ends, at the key or at the free slot where it belongs |
| `HashMap.GetIdx` | src/containers.c:844-861 | the probe ends and finds exactly the keys that are there |
| `HashMap.Rehash` | src/containers.c:950-970 | reinsertion keeps the contents and the insertion order |
| `HashMap.Map.constructor` | src/containers.c:796-818 | an empty map of the least sufficient capacity, usable if and only if one slot or more was asked for |
| `HashMap.Map.Resize` | src/containers.c:918-990 | contents and order unchanged, room for one more, cache emptied; unchanged when memory runs out |
| `HashMap.Map.Add` | src/containers.c:1022-1046 | the mathematical map with the key set; a new key comes last in the order |
| `HashMap.Map.AddOrErr` | src/containers.c:1048-1074 | succeeds exactly for absent keys, otherwise changes nothing |
| `HashMap.Map.Has` | src/containers.c:1096-1103 | membership in this scope only |
| `HashMap.Map.Get` | src/containers.c:1137-1161 | the nearest scope that has the key decides, cache or not; out of bounds exactly for 2^64-1 with an empty cache |
| `HashMap.Map.Clear` | src/containers.c:1186-1202 | empty, with the same capacity |
| `HashMap.MapIter.Next` | src/containers.c:1233-1245 | the next key in first-insertion order with its current value, until all have been seen |
| `HashMap.Items` | src/containers.c:1220-1245 | iterating yields every key once, in first-insertion order |

## Left out

- Map and set removal, DELETED slots, string keys: lookup stops at a deleted slot that insertion reuses, so only removal-free histories agree with a map.
- Loop-carried liveness in the slot allocator: ranges are textual positions, and non-overlap of recorded ranges is what is proved.
- Address aliases made by IR_GEP, IR_SWITCH, inline assembly and variadic operations in the IR.
- Widths of loads and stores through pointers: a machine's memory answers with words, so sub-word dereferences are inside it.
- Floating-point values: all float operations are uninterpreted pure functions.
- The predecessor and successor maps: blocks are related by their terminators, and a folded or merged block keeps its number and is never entered again.
- Batch removal in src/ir-optimise.c:80-192: folds and merges are taken one at a time, in any order.
- irForwardReturnSlot, irFoldGlobalDeref, irRemoveAllNops and result-register pinning.
- The x86_64 backend, the JIT's encoders, libtasm, parsing, diagnostics, printing, JSON, LSP and REPL.
- Backend addressing with both an index and a displacement: fusion is proved on the IR.
- Conformance of struct return with AAPCS64: the code returns every aggregate above 16 bytes indirectly, large homogeneous float aggregates included, and the model follows it.
- Struct chunks of 3, 5, 6 or 7 bytes stop the compiler; the call model copies them like any other.
- Call arguments that themselves live in argument registers: arguments are slots or constants.
- Pinned and allocated registers as two things: an operand has one register, which the clobber answer for a store takes for the pinned one in the destination and for the allocated one in the source (src/aarch64.c:91-96).
- Identity of operand objects: where the fusion and forwarding scans compare pointers, the model compares kind, number, size and register.
- The sorting algorithm behind the scan order: an insertion sort stands for the library's.
- The "is referenced" scans of src/ir-regalloc.c:476-545: whether a local or parameter keeps a slot is an input of the layout.
- ConstFold.FoldPreservesRuns: is about runs from the entry of functions whose single-assignment certificate checks; the front end that produces such functions is not modelled.
- RoundsKeep.RoundsPreserve: is about words, and asks that arithmetic that can fold to one of its operands is used before that operand changes; where it is not, an identity fold is not always right (IdentityFoldRightIff).
- Optimiser.IrFunction.Optimise: starts after the control-flow passes, which CfgChain treats by behaviour, and leaves out irFoldGlobalDeref, irForwardReturnSlot and the final removal of NOPs.
- FusionSafe.FoldDispPreservesRuns: asks that an address is used before the pointer it was computed from is assigned; ReassignedPointerRightIff says what happens otherwise, FoldDispSteady covers a single fold from any start.
- FusionSafe.RmwKeeps: is about whole words, since a machine's memory answers with words; the update of a narrower value in memory is not modelled.
- FusionLoop.FindAddressFold: looks at every definition of a temporary where the code keeps one per temporary; they agree where temporaries are defined once.
- ScalarCall.VariadicFoundIff: covers arguments forced onto the stack; that an external variadic callee finds its arguments in registers is left to the platform.
- LogicalImm.IsLogicalImm: works on sequences of bits rather than on machine words.
- HashMap.Map.Resize: allocation success is a parameter, and a request beyond the address space is taken to fail.
