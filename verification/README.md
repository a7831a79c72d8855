# Verification of the RSP and R4300 translators

The repository holds two executable definitions of the N64 RSP, an interpreter (`rsp.cc`) and a
static binary translator (`rspbt.cc`, `rspFunc.cc`, `rspInstruction.cc`), and a second
discovery pass and translator for MIPS III code (`r4300cfg.cc`, `r4300bt.cc`).  This project
models both and proves that translation preserves meaning.

**The RSP.**  The interpreter is a delayed-branch machine over (pc, next_pc) on the whole
architectural state (`RspState`, `RspControl`, `RspExec`).  What the translator emits is a graph
of blocks named by (address, call string) with a small text semantics (`BlockGraph`): a frame of
locals beside the object they were loaded from.  The proof has three layers.

1. `RspEmit.EmitRefinesExec`: the text of every plain instruction the translator accepts does to
   the frame what the interpreter does to the state (integer, COP0 with DMA, scalar memory,
   vector ALU, vector memory with both its paths), and leaves just when instruction memory was
   replaced.
2. `Simulation`: for any two such instruction semantics, every run of a graph that translates an
   image is a run of the interpreter, whatever the call strings; `RspCompile.Compile` is the
   two-pass walk and produces such a graph.
3. `RspBt.Rspbt.Run`: the cache, the growing roots, overlay swaps and the fallback, as a class over
   the in-place machine `RspCore.RspT`, ends as the interpreter ends.

**The R4300.**  `R4300Cfg` is `build` and `discover` with their worklists, `R4300Table` the jump-table
reader, `R4300Insn` the predicated effects of one instruction, `R4300Likely` and `R4300Text` the text
of a block against a machine with annulled slots, which has its own conditions and branch rules
and shares the effects of plain instructions; what these amount to is in `R4300InsnLaws`.
`R4300Function` puts blocks together, and follows the machine through calls and tail calls, however
deep, deciding on the word a translated function returns as its caller does.

Machine integers are ranges of `int` with wrap-around written out; masks of low bits are
remainders.  Where the source works step by step on fields, buffers and worklists, the model
does too: the classes `RspT`, `RspFunc`, `Rspbt`, `R4300` and `FnState` and the methods over
worklists, each proved against a function or a predicate whose properties are the lemmas below.

## What the theorems assume

- The states compared are r, v, acc, the five flag sets, mem, the SP registers, DRAM, `imem_gen`
  and `halted`.  `pc` and `n_insns` are not: translated code does not update them, and
  `tests/rsp_difftest.cc:26-31` leaves them out as well.
- A run starts with `r[0] == 0`.  `RSP_DIE` is an outcome with no state.  Runs carry a budget of
  instructions or blocks, and an exhausted budget is an outcome too: it is promised only when the
  interpreter is still running after that many instructions.
- No DMA into instruction memory sits in the slot of a transfer that goes elsewhere than slot + 4
  (`Simulation.SwapsSafely`).  This is needed: `RspBtLimits.SlotSwapExact` and
  `RspBtLimits.TranslationMissesJump`.
- Two images that occur and collide under FNV-1a decode alike everywhere (`RspBt.NoHarm`): they differ
  in data at most.  That is exactly when every graph made from one is right for the other
  (`RspRelabel.SameCodeExact`).  Something of the kind is needed: `RspBtCollision.HashesCollide` gives
  two images that collide, and by `RspBtCollision.CollisionRunsOldCode` the code of the first runs for
  the second.  One lookup is right just when the two images decode alike wherever the cached function
  has text (`RspBtCollision.LookupExact`).
- The DRAM buffer covers the last row of a transfer (`RspState.DRAM_SIZE`).
- On the R4300 side nothing is mapped in the last words of the address space; tiling and closure
  of the graph assume mapped, 4-aligned code (`R4300CfgLaws.Tidy`) and no leader in a delay slot,
  closure also that every slot is mapped and is no transfer (`R4300CfgLaws.PlainSlots`),
  and executed instructions do not read the eight bytes of the bit bucket (`R4300Likely.Clean`).

## Where the code and its documentation differ

- `rspFunc.hh:86` says a push that is too deep stays in the same context; `rspFunc.cc:302-304`
  returns context 0, and the model does.
- `rspbt.cc:355-357` calls a hash collision harmless in the common case.  When it does happen the
  cached function of the other image runs as if it were right (`RspBtCollision.CollisionRunsOldCode`).
- `rspInstruction.cc:204-211` resumes at the word after the `mtc0` even in a taken slot.
- `rsp.cc:364-365` offers `vsubc` for double-precision sequences; its borrow is that of the signed
  halves (`RspVectorLaws.DoublePrecisionSubtract`, `RspVectorLaws.SubtractWrong`).
- `r4300cfg.cc:116-122` refuses a table with an entry that is not mapped, but the entries read before
  it stay in the vector and, without a hint, become successors at `r4300cfg.cc:239-243`.  That is so
  exactly when the first entry is mapped and a later one is not (`R4300Cfg.PartialTableExact`,
  `R4300Cfg.PartialSwitchExact`, `R4300Cfg.HalfTableLeavesSuccessor`), and the block is then not marked
  `unresolved` at `r4300cfg.cc:321` (`R4300CfgLaws.HalfTablePasses`).
- A leader that is not mapped gets an empty block, and the text of an empty block is a jump to
  itself, not a return to the interpreter (`R4300Function.EmptyBlockSpins`); a `j` to an address
  that is not mapped is enough (`R4300CfgLaws.UnmappedTargetSpins`).
- `r4300bt.cc:458-460` says that leaving for the interpreter anywhere down the call graph costs only
  speed.  The word a function returns is 0 for a return and else the pc to go on at
  (`r4300bt.hh:36-38`), so one that leaves at address 0 is taken for one that returned, and is not
  finished (`R4300Function.BailExact`, `R4300Function.ZeroBailNotFinished`).
- A tail call of a function that is not translated is interpreted until the word after the
  slot of the `j`, and so past the return (`R4300Function.TailCallExact`,
  `R4300Function.TailCallOverruns`).
- A jalr through `$31` whose slot is not translated bails after `$31` was overwritten
  (`R4300Function.LinkedBailResumes`, `R4300Function.SelfLinkMissesTarget`).

## Model

| member | source | states |
|---|---|---|
| RspBt.Rspbt.Run | rspbt.cc:344-397 | from any reachable cache and root state the run ends in the state the interpreter halts in, or dies with it, or the interpreter too is still running after the whole budget; the cache stays in order |
| RspBt.Rspbt.Round | rspbt.cc:353-396 | one turn: finishes like the interpreter, or is where the interpreter is with less budget, across overlay swaps, dispatch misses and untranslatable words |
| RspBt.SameAsInterpreter | rspbt.cc:344-397 | whenever the interpreter stops within the budget, the run stops, in the same state |
| RspBt.SpeedOnly | rspbt.cc:363-394 | two runs of one task that stopped stopped alike, whatever their hints, roots, caches and histories |
| RspBt.RoundSim | rspbt.cc:377-386 | a call of any translation of the current image leaves the interpreter where it says, and consumes an instruction whenever it reports a swap |
| RspBt.FallbackEnds | rspbt.cc:388-395 | finishing in the interpreter from the pc a call returned ends the run as the interpreter from the start would |
| RspBt.HaltedIsLast | rsp.cc:542-649 | while the interpreter runs, `halted` is false |
| RspBt.Rspbt.Prepare | rspbt.cc:354-375 | the function about to be called translates current instruction memory and enters directly at the pc and at every hint that is code |
| RspBt.Rspbt.Select | rspbt.cc:354-362 | the selected entry is filed under the hash and labelled with current instruction memory, and the cache stays in order |
| RspBt.Rspbt.AddRoot | rspbt.cc:363-365 | a new root makes the entry stale, a known one changes nothing |
| RspBt.Rspbt.Refresh | rspbt.cc:371-375 | afterwards the function is the translation of the saved image for its roots, and only roots that are data are gone |
| RspBt.Rspbt.Hash | rspbt.cc:110-116 | the loop computes FNV-1a |
| RspBt.SelectedOk | rspbt.cc:358-361 | if colliding images decode alike, a lookup keeps every non-stale entry the translation of the image it is filed with |
| RspBtLimits.SlotSwapExact | rspInstruction.cc:201-213 | a transfer whose slot replaces instruction memory leaves where the interpreter goes if and only if its target is the word after the slot |
| RspBtLimits.SwapProgramSwaps | rspInstruction.cc:198-214 | the program of the next two rows, as a concrete state |
| RspBtLimits.InterpreterTakesJump | rsp.cc:542-649 | a concrete program: the interpreter runs the jump target and halts with $1 = 1 |
| RspBtLimits.TranslationMissesJump | rspInstruction.cc:211-212 | on the same program every translation resumes after the slot and halts with $1 = 0 |
| RspRelabel.RelabelledExact | rspbt.cc:358-361 | a graph that translates one image translates another if and only if both decode alike at every address the graph has text for |
| RspRelabel.SameCodeExact | rspbt.cc:358-361 | every graph that translates one image translates another if and only if the two decode alike at every address |
| RspBtCollision.LookupExact | rspbt.cc:354-362 | a lookup that finds a fresh entry, whatever image it was made from, leaves it labelled with the current one, and right exactly under that condition |
| RspBtCollision.HashesCollide | rspbt.cc:110-116 | two 4 KB images, one that halts and one that first sets $1, have the same FNV-1a hash |
| RspBtCollision.CollisionReached | rspbt.cc:344-375 | asked for the first image, a new object holds its entry under that hash |
| RspBtCollision.CollisionFound | rspbt.cc:358-361 | a lookup of the second image selects that entry, relabelled and not stale, and it does not translate the second image |
| RspBtCollision.CollisionRunsOldCode | rspbt.cc:377-386 | with the second image loaded, in a state that exists, the selected code halts with $1 = 0, the interpreter with $1 = 1 |
| Simulation.CallSim | rspbt.cc:226-294 | a whole call of the emitted function: entered with the state stored, it exits at a pc where the interpreter is in the same state, all registers written back |
| Simulation.RunSim | rspFunc.cc:345-370 | any number of blocks: each is entered just when the interpreter is at its address outside a slot, whatever the call string; fuel blocks cost at least fuel instructions |
| Simulation.BlockSim | rspbt.cc:253-277 | one block of text and the interpreter stay together |
| Simulation.TransferSim | rspInstruction.cc:225-321 | a transfer with its slot: condition, target and link are those of before the slot |
| Simulation.SlotSim | rspInstruction.cc:236-240 | the slot executes between the transfer and its target |
| Simulation.BodySim | rspbt.cc:257-276 | straight-line text, and the early exit when instruction memory was replaced |
| BlockGraph.ConditionAgrees | rspInstruction.cc:242-271 | the compares of the branch classes decide as the interpreter does |
| RspControl.OneResult | rsp.cc:542-649 | two runs from one configuration that stopped, stopped in the same state |
| RspDecode.DecodeAgrees | rspInstruction.cc:639-743 | what decode calls plain, break or control is that in the interpreter's switch |
| RspCompile.Compile | rspbt.cc:118-336 | the result translates the image: every block is text of its address, every block named exists and is filled, the entry dispatch covers exactly the roots that are code, and every block names the contexts its call string asks for |
| RspCompile.Pass1 | rspbt.cc:151-205 | the walk ends, with every root and every block a walked transfer names a leader, and every leader walked |
| RspCompile.WalkFrom | rspbt.cc:163-203 | one work item: the line up to a transfer, a BREAK, data or code already seen, which becomes a leader |
| RspCompile.WalkControl | rspbt.cc:178-200 | the successors of a transfer become leaders, and work if they are new |
| RspCompile.ListSuccs | rspbt.cc:179-191 | the listed successors are those of the instruction in its context, and pushing again would give the same |
| RspCompile.Pass2 | rspbt.cc:253-277 | every leader is filled once, and no block is created and left empty |
| RspCompile.EmitBlock | rspbt.cc:257-276 | the text of a leader, from addresses walked in its context only; it ends even if all 1024 words are plain |
| RspCompile.EmitControl | rspInstruction.cc:225-321 | a transfer becomes a terminator with the interpreter's targets, in the contexts of its call string |
| RspCompile.RspFunc.PushCtx | rspFunc.cc:300-314 | the table after a push, and the number it returns |
| RspCompile.RspFunc.PopCtx | rspFunc.cc:316-320 | the lookup never misses |
| RspCompile.RspFunc.IndirectCases | rspFunc.cc:354-366 | inside a call the one case is the return address in the caller's context, outside the cases are the roots |
| Walk.WalkStays | rspbt.cc:151-205 | what is right of a walked key stays right as table, leaders and roots grow |
| Walk.FewerKeysLeft | rspbt.cc:155-205 | the measure of the walk: (address, call string of at most four) keys not yet walked |
| CallStrings.PushOk | rspFunc.cc:300-314 | a push keeps the two tables inverse and prefix-closed and renumbers nothing |
| CallStrings.PopUndoesPush | rspFunc.cc:316-320 | popCtx(pushCtx(c, l)) is c below the depth bound, and the popped address is l |
| CallStrings.RepushSame | rspInstruction.cc:290-297 | pushing again in any later table returns the number of the first push |
| CallStrings.EveryHistoryOk | rspFunc.cc:300-320 | the table is in order after every sequence of pushes |
| RspEmit.EmitRefinesExec | rspInstruction.cc:19-635 | the text of every translated plain instruction refines the interpreter, for every word, address and state |
| RspEmit.ScalarMemoryAgrees | rspFunc.cc:116-155 | loads and stores: both paths of the text do what the byte-wise wrapping access does |
| RspEmit.Cop0Agrees | rspInstruction.cc:191-214 | mfc0 and mtc0, and the exit exactly when a DMA replaced instruction memory |
| RspEmit.Cop2Agrees | rspInstruction.cc:551-571 | the COP2 moves and the vector ALU |
| RspMemoryText.ScalarLoadAgrees | rspFunc.cc:116-136 | a host load and byte swap inside DMEM, or the slow path, read the wrapping big-endian value |
| RspMemoryText.ScalarStoreAgrees | rspFunc.cc:138-155 | the same for stores: those bytes and no others |
| RspMemoryText.LoadFastAgrees | rspFunc.cc:188-247 | the window and blend of a vector load leaves what the byte loop leaves |
| RspMemoryText.StoreFastAgrees | rspFunc.cc:249-296 | the read-modify-write of a vector store writes what the byte loop writes, even where its window is wider |
| RspMemoryText.VecLoadAgrees | rspFunc.cc:188-247 | fast or slow path, spilling only GPR[base] and vec[vt]: the frame synchronises to the interpreter's state |
| RspMemoryText.VecStoreAgrees | rspFunc.cc:249-296 | the same for vector stores |
| RspMemoryLaws.UnalignedLoad | rsp.cc:408-415 | lqv at ea then lrv at ea + 16 loads exactly the sixteen bytes at ea, across any row and the 4 KB wrap |
| RspMemoryLaws.UnalignedStore | rsp.cc:516-534 | sqv then srv stores exactly those sixteen bytes and nothing else |
| RspMemoryLaws.UnalignedRoundTrip | rsp.cc:465-474 | storing a register unaligned and loading it back restores it |
| RspMemoryLaws.UnalignedLoadPair | rsp.cc:387-478 | the load idiom as two instruction words |
| RspMemoryLaws.UnalignedStorePair | rsp.cc:480-538 | the store idiom as two instruction words |
| RspMemoryLaws.WriteJoins | rsp.cc:527-533 | two writes that follow one another are one write |
| RspMemory.SetThenGet | rsp.cc:162-171 | vbyte reads what set_vbyte wrote there, and everything else as before |
| RspMemory.BytesOfRow | rsp.cc:162-165 | a register is its sixteen bytes |
| RspMemory.WritesSpareImem | rsp.cc:20-30 | no store reaches instruction memory |
| RspExec.PlainKeepsImem | rsp.cc:40-67 | instruction memory changes only under an `mtc0` to RD_LEN that counts a generation |
| RspDma.RowStaysInBank | rsp.cc:40-67 | every row lies in its 4 KB bank with a positive length that is a multiple of eight |
| RspDma.ToRspFrame | rsp.cc:40-67 | a transfer to the RSP changes no DRAM and no byte outside its rows |
| RspDma.ToDramFrame | rsp.cc:40-67 | a transfer to DRAM changes no RSP memory and no byte outside its rows |
| RspDma.ImemChangesCounted | rsp.cc:40-67 | instruction memory is unchanged unless the generation was counted |
| RspDma.DmaRoundTrip | rsp.cc:40-67 | out and back from the same registers restores memory exactly, even with rows clipped and wrapped over each other, unless the DRAM address wraps |
| RspVectorText.VectorTextAgrees | rspInstruction.cc:328-530 | every translated vector operation on whole vectors equals the interpreter's lane loop: result, accumulators, all five flag sets, any element specifier and aliasing |
| RspVectorText.AluAgrees | rspInstruction.cc:424-530 | sums, vsar, vge, vcl and logic, lane by lane |
| RspVectorText.MulAgrees | rspInstruction.cc:347-423 | the multiplies and accumulates, lane by lane |
| RspVectorLaws.Sext48Meaning | rsp.cc:128-131 | sext48 is the identity on 48-bit values and always yields one |
| RspVectorLaws.LaneKeeps48 | rsp.cc:236-382 | every vector operation leaves a 48-bit accumulator |
| RspVectorLaws.AccumulatorsStay48 | rsp.cc:230-384 | so does every vector instruction, in every lane |
| RspVectorLaws.SlicesRecompose | rsp.cc:299-301 | the three vsar slices put together are the accumulator |
| RspVectorLaws.ClampsAreSaturation | rsp.cc:132-146 | the middle and low clamp of an accumulator are the two halves of its saturation to 32 bits |
| RspVectorLaws.LaneProduct | rsp.cc:242-273 | vmudl, vmadm, vmadn, vmadh leave floor(S*T / 65536) for all signed 32-bit S and T |
| RspVectorLaws.FixedPointProduct | rsp.cc:230-384 | the same on whole registers, for every element specifier, with its clamped middle slice |
| RspVectorLaws.OpLane | rsp.cc:383-383 | every lane of an instruction is the lane function of the registers as they were |
| RspVectorLaws.DoublePrecisionAdd | rsp.cc:274-298 | vaddc then vadd is the exact 32-bit sum if it fits, else a saturated high half, and uses the carry up |
| RspVectorLaws.DoublePrecisionAddAll | rsp.cc:274-298 | the same in every lane of the registers |
| RspVectorLaws.DoublePrecisionSubtract | rsp.cc:366-374 | vsubc then vsub uses the borrow up; a difference that fits is exact if and only if the low halves have the same sign or saturation hides the borrow, one that does not saturates |
| RspVectorLaws.SubtractWrong | rsp.cc:366-374 | a difference that comes out wrong |
| RspFlagLaws.WriteUndoesRead | rsp.cc:173-195 | writing back what cfc2 read changes no flag, for every register number |
| RspFlagLaws.ReadUndoesWrite | rsp.cc:173-195 | cfc2 reads the bits ctc2 wrote, eight for VCE and sixteen for every other number |
| RspCore.RspT.Run | rsp.cc:542-649 | the in-place interpreter loop is the step machine |
| RspCore.RspT.StepOnce | rsp.cc:545-641 | one turn of the loop: fetch, execute or transfer, clear r[0] |
| RspCore.RspT.Execute | rsp.cc:564-641 | the switch on a plain instruction |
| RspCore.RspT.TransferControl | rsp.cc:564-641 | the target after the slot and the link register |
| RspCore.RspT.Lwc2 | rsp.cc:387-478 | the byte and lane loops of the vector loads leave the loaded register |
| RspCore.RspT.Swc2 | rsp.cc:480-538 | those of the stores leave the written memory |
| RspCore.RspT.VectorAlu | rsp.cc:230-384 | the lane loop, accumulators and flags changing as it goes, leaves the whole-instruction result |
| RspCore.RspT.DmaTransfer | rsp.cc:40-67 | the row loop is the transfer, registers and generation included |
| RspCore.RspT.ReadVflags | rsp.cc:173-184 | the packing loop |
| RspCore.RspT.WriteVflags | rsp.cc:186-195 | the unpacking loop |
| R4300Likely.IfConversion | r4300bt.cc:93-182 | a slot run selected on the condition is the slot executed when the branch is taken and annulled when it is not, but for eight bytes of the bit bucket |
| R4300Likely.ControlSim | r4300bt.cc:577-671 | a transfer with its slot follows the machine, condition and target read first, or gives up where the machine is |
| R4300Likely.BlockSim | r4300bt.cc:549-677 | a block follows the machine |
| R4300Likely.BailsOnlyThen | r4300bt.cc:555-611 | the text leaves for the interpreter only at unmapped or untranslated code or an unlisted jr target |
| R4300Function.FunctionSim | r4300bt.cc:536-693 | any number of blocks, calls that go on at their links and tail calls: the text ends, or is still going, in the machine's state at the same address, and makes progress, as long as calls come back with the machine at their links |
| R4300Function.OnTrackExact | r4300bt.cc:461-471 | the text keeps to the machine's track if and only if every call it makes comes back with the machine at its link, and every tail call with the machine in that state somewhere |
| R4300Function.CallSim | r4300bt.cc:473-482 | a call or a tail call comes back with the machine in the place the callee names |
| R4300Function.InterpretedComesBack | r4300bt.cc:35-55 | a call the interpreter runs until it is at the link comes back as the machine does |
| R4300Function.BailComesBack | r4300bt.cc:458-471 | a callee that returned a pc other than 0 is finished by the interpreter as the machine finishes it, $31 written or not |
| R4300Function.BailExact | r4300bt.cc:461-471 | a callee that leaves at a pc, where the machine then stands, is finished by the interpreter and comes back to its link if and only if that pc is not 0; at 0 the caller goes on in the state in which it left |
| R4300Function.ZeroBailNotFinished | r4300bt.cc:461-471 | five words on which it leaves at 0: the machine comes back with $2 = 1, the caller goes on with $2 as it was |
| R4300Function.TailCallExact | r4300bt.cc:617-623 | an interpreted tail call has stopped when the machine is back from it if and only if it returned to the word after the slot of the j |
| R4300Function.TailCallOverruns | r4300bt.cc:617-623 | four words on which it never stops |
| R4300Function.CalledComesBack | r4300bt.cc:461-508 | calls of translated functions, nested to any depth, name the place where the machine is when they come back: the link if the returned word was not 0, and where the callee returned to or left if it was |
| R4300Function.TranslatedFunction | r4300bt.cc:308-693 | one function of a translated program, through its calls and those of its callees, follows the machine from its entry as FunctionSim says, floating point uninterpreted |
| R4300Function.LinkedBailResumes | r4300bt.cc:599-611 | when the slot of a linking transfer is not translated the text leaves with $31 written, and resuming there goes on as the machine does if and only if it is not a jalr through $31 with another target |
| R4300Function.SelfLinkMissesTarget | r4300bt.cc:599-611 | two words on which it does not |
| R4300Function.EmptyBlockSpins | r4300bt.cc:674-676 | the text of an unmapped leader spins if and only if its block is empty |
| R4300Likely.CondAgrees | r4300bt.cc:510-533 | branchCond decides the architecture's conditions, likely forms and FP conditions included |
| R4300Likely.EmissionRegular | r4300bt.cc:308-429 | no transfer is translated as a slot, and word 0 does nothing |
| R4300Insn.Squashed | r4300bt.cc:93-182 | any list of effects under a predicate is all of it or nothing but the bucket |
| R4300Insn.EffectsKeepTwins | r4300bt.cc:142-151 | machines equal up to the bucket stay so |
| R4300InsnLaws.ProductsExact | r4300bt.cc:346-359 | mult and multu leave the exact signed and unsigned product in hi and lo |
| R4300InsnLaws.DivisionExact | r4300bt.cc:360-389 | div leaves the truncated quotient in lo and the remainder in hi, keeps both for a zero divisor, and wraps -2^31 / -1 |
| R4300InsnLaws.UnsignedDivisionExact | r4300bt.cc:360-389 | divu likewise, unsigned; it keeps both when all 64 bits of the divisor are zero, and divides by 1 when only the low 32 are |
| R4300InsnLaws.StoredIsLoaded | r4300bt.cc:131-151 | a load finds what a store of that width left |
| R4300InsnLaws.PairIsDouble | r4300bt.cc:165-175 | two mtc1 to an even register and the next make one double |
| R4300Text.FnState.Control | r4300bt.cc:577-611 | with `pred` set just while a likely slot runs, the in-place text does what its semantics says |
| R4300Text.FnState.Body | r4300bt.cc:549-677 | the loop over a block likewise |
| R4300Text.FnState.StoreMem | r4300bt.cc:142-151 | a squashed store goes to the bucket |
| R4300Text.FnState.SetGPR | r4300bt.cc:96-104 | a squashed write keeps the register, $0 is never written |
| R4300Table.DecodersAgree | r4300cfg.cc:19-60 | discovery and translation read the same transfers, targets and annulments |
| R4300Table.ReadJumpTable | r4300cfg.cc:76-124 | the loops compute the scan, 32-bit wrap and partial result included |
| R4300Table.FindTable | r4300cfg.cc:82-112 | the backward scan follows the register of the jr to its lw and lui |
| R4300Table.JumpTable | r4300cfg.cc:113-123 | an accepted table has 1 to 256 entries |
| R4300Table.TableAccepted | r4300cfg.cc:63-124 | for the bounded idiom a table is accepted if and only if its bound is 1 to 256 and every entry is mapped |
| R4300Table.SwitchLands | r4300cfg.cc:63-75 | for every index and every %lo the idiom takes its default branch or its jr goes to that entry of the recovered table |
| R4300Cfg.PartialTableExact | r4300cfg.cc:113-123 | a refused table leaves successors, where there is no hint, if and only if its first entry is mapped and a later one is not |
| R4300Cfg.PartialSwitchExact | r4300cfg.cc:63-124 | the same for the bounded idiom, of its own table |
| R4300Cfg.HalfTableLeavesSuccessor | r4300cfg.cc:116-122 | a code map with such a table |
| R4300Cfg.R4300.Build | r4300cfg.cc:126-328 | the function recorded is what the two passes find for its entry, and the others stay |
| R4300Cfg.R4300.Discover | r4300cfg.cc:330-345 | the least set of functions holding the roots and closed under recorded calls |
| R4300Cfg.PassOne | r4300cfg.cc:130-250 | the walk ends with every leader walked, every terminator recorded once with its successors in order |
| R4300Cfg.LeadersLeast | r4300cfg.cc:133-250 | the leaders are the least set holding the entry and closed under successors |
| R4300Cfg.PassTwo | r4300cfg.cc:252-326 | the blocks of all leaders, and the count of the instructions they cover if they do not overlap |
| R4300Cfg.BuildBlock | r4300cfg.cc:262-325 | the loop cuts a block where its line or the next bound ends |
| R4300CfgLaws.BlocksTile | r4300cfg.cc:252-326 | blocks are pairwise disjoint if and only if no leader is in a delay slot |
| R4300CfgLaws.EdgesExact | r4300cfg.cc:307-320 | the edges of a block are those decoded, taken first, or the next block; all lead to blocks; a trap has none |
| R4300CfgLaws.InsnsCounted | r4300cfg.cc:324-324 | n_insns is the number of covered instructions |
| R4300CfgLaws.StepFlows | r4300cfg.cc:19-60 | an instruction the machine gets past, and which is no call, does to the pc what discovery decoded |
| R4300CfgLaws.RunsStayInside | r4300cfg.cc:126-328 | every run of the machine from the entry, calls coming back to their links, stays in the blocks until a return, a trap or an unresolved jump |
| R4300CfgLaws.UnresolvedExact | r4300cfg.cc:307-323 | a block that ends in a jr is marked unresolved if and only if the jr was left without successors |
| R4300CfgLaws.HalfTablePasses | r4300cfg.cc:319-323 | a block whose table was refused, without a hint, passes for resolved if and only if the first entry is mapped and a later one is not |
| R4300CfgLaws.UnmappedTargetSpins | r4300cfg.cc:262-270 | a `j` to an unmapped address: the text of what discovery finds spins at the target, where the machine stops |
| R4300CfgLaws.DiscoveredFunctionFollows | r4300bt.cc:536-693 | the text of a discovered function, and of what it calls, follows the machine from its entry as FunctionSim says |

## Left out

- LLVM: the pass pipeline, the JIT, symbol lookup, mem2reg and switch folding; the emitted text has its own small semantics.
- `imem_gen` is a 64-bit counter in the source and unbounded here.
- RspBt.Rspbt.Run: takes a budget, so that a guest that never halts has an outcome; the source loops for ever.
- RspBt.Rspbt.Run: the compile, fallback and swap counters, timing and image dumps are not part of this model.
- RspBt.Rspbt.CallFn: computes the call on values and stores the result, where the compiled function updates the object as it goes.
- RspCompile.Compile: visits roots and leaders in any order; the source visits them in ascending order, which only numbers contexts differently.
- RspBt.Rspbt.Run: asks colliding images to decode alike everywhere, which every graph needs; a given cached function needs it only where it has text (`RspBtCollision.LookupExact`), and that is stated of one lookup and not of whole runs.
- Floating-point values on the R4300: arithmetic and comparison are parameters; only operand and result places are modelled.
- The interpreter of the R4300 (`execMips`, `state_t`) is not part of this model: where the text leaves for it, it is taken to go on as the machine does.
- R4300Function.FunctionSim: that a callee returned to the link of its caller is the calling convention and not a check in the code; once a call comes back elsewhere the text goes on and nothing more is claimed.
- R4300Function.CalledComesBack: assumes that no jalr jumps through the register it links, which `R4300Function.LinkedBailResumes` shows is needed, and claims nothing after a callee that leaves, with $31 written, at a call which is itself the link.
- Plain MIPS III instructions have one definition, that of the emitted text; the interpreter they could be compared with is not part of this model, and the 64-bit zero divisor of `divu` is as emitted.
- R4300Cfg.R4300.Build: the problem list, the `n_*` counters, `indirect_sites` and `unresolved_calls` only feed the report.
- The transposing load on a non-zero diagonal is refused by the code and dies in the model.
- SEMAPHORE and DPC registers read zero and ignore writes, as in the code; nothing is claimed about them.
- `write_dot`, `report`, tracing, work counters, the runaway guard and the fork-based test driver.
