# PSXRecomp: a verified model

PSXRecomp recompiles PlayStation MIPS code to C ahead of time. This project models the
parts of it whose correctness is hardest to see from the code, and proves what they promise:

- **Overlay discovery** (`Flow`, `JumpTable`, `OverlayWalker`, `InventoryWalker`, `Classifier`,
  `Promotion`): the delay-slot-aware worklist walkers, the jump-table recogniser that feeds them
  and the fixed point that decides which captured PCs become walk roots.
- **The overlay cache** (`CacheProtocol`, `CacheRuns`, `CacheOrder`, `CycleShim`, `Identity`, `Manifest`,
  `Listing`, `PsxExe`): the thread-pool protocol over shared coverage and per-key locks as a state machine
  over all interleavings, the batched cycle shim, function identity by chained CRC, the text
  manifest and the PS-X EXE container.
- **Basic blocks** (`BasicBlocks`): leaders, blocks, edges, and simulation of a delayed-branch
  machine.
- **Delay-slot translation** (`Translator`, `SlotRules`, `SliceWalker`, `Hazards`): what the emitted order of snapshot,
  slot and terminator means, compared with MIPS I, and the hazard scanner beside it.
- **Instruction words** (`Assembler`, `Architecture`): an encoder from mnemonics to words, against
  which the decoders of the four tools and the emitted slices are proved.
- **Companions**: the two reply framers (`Framer`), the coverage vault (`Vault`), the RAM
  divergence scan (`Divergence`), address normalisation (`Normalise`) and the verdict of the
  code-generation audit (`Audit`).

`Mips` holds instruction words and images, `Collections` sets and sorted sequences. Check the
project with `dafny verify dfyconfig.toml`.

The tools iterate over Python sets in an order they do not fix; the model leaves that order
open, so what is proved holds for every order. Addresses are unbounded integers where the tools
use Python integers, and 32-bit values where they are C++ words.

## What the proofs show about the code

- A walk marks a delay slot as visited without expanding it, so reachable code can be lost: in
  `beq $0,$0,.+4; j 0x10; jr $ra; nop; jr $ra; nop` no walk ever visits address 16
  (`OverlayWalker.ReachableCanBeLost`). What walks visit is exact, in every order, if and only if
  nothing that a walk can steal in this way is needed to provide it
  (`OverlayWalker.VisitedExactIff`), so no single such instruction may be needed
  (`OverlayWalker.ExactNeedsNoStolenWord`). It suffices that the code is *harmless*: whatever can be
  stolen is an ordinary instruction whose owner, a branch or a call, goes on to the word after
  it. Then the whole report is exact (`OverlayWalker.HarmlessReport`). Which instructions are
  *expanded* is independent of the order exactly on the smaller class of safe code
  (`Flow.ExactIffSafe`).
- The comment at tools/compile_overlays.py:207-217 says that promoting an orphan truncates no
  function. It does when the function before the orphan jumps over it: `Promotion.PromotionTruncates`
  gives a capture on which every classification does so. The exact condition is
  `OverlayWalker.TruncatesIff`.
- The cache is independent of the schedule if no capture drops an identity when it overwrites the
  manifest of its key: because recompiling yields again what that manifest lists, or because
  every identity on disk is backed by a manifest whose DLL exists (`CacheProtocol.MergingPreserves`,
  `CacheProtocol.BackedPreserves`). Where neither holds, the stale manifest of a deleted DLL still
  counts as coverage, and the order of captures can decide whether an identity survives
  (`CacheOrder.OrderFreeIff`).
- With one worker the protocol is the sequential driver (`CacheRuns.OneWorkerIsSequential`); with
  more, which DLLs are built depends on what the coverage holds at each locked check, and exactly how
  is `CacheRuns.DllIff`. A capture that yields no identity is never skipped as covered: if it
  compiles, it leaves a DLL without a manifest.
- An image that ends in a lone conditional branch or call, itself a leader, gets the successor
  address 4 (`BasicBlocks.ClosedIff`). An entry inside a word ends a block there without starting
  one: the word behind it is in no block (`BasicBlocks.EntryCuts`). Coverage, edges and simulation
  of execution are right exactly on images without such a cut (`BasicBlocks.CoveredIff`,
  `BasicBlocks.DecodedEdgesIff`, `BasicBlocks.GraphSimulatesIff`).
- `jal` and `jalr` write their link after the delay slot, and `jalr` reads its target after that
  (`SlotRules.JalSlotReadsRa`, `Translator.JalrSameRegister`); `jr` has no snapshot. Which words
  of terminator and slot are translated rightly in every state is `SlotRules.SafeWordsIff`. The tools
  agree on how control leaves a word (`Assembler.ToolsAgree`) outside a short list of disputed words.
- The hazard scanner reports no register write for moves from COP2 and for system calls
  (`Hazards.UnseenEscapesScanner`); apart from these it is sound (`Hazards.UnflaggedSafeIff`), and every
  pair it flags can go wrong unless the branch's outcome cannot matter (`Hazards.GoesWrongIff`).
- A jump table without an `addiu` of its own is recovered at the wrong address if the run of
  `addiu` words before the bound check holds a nonzero self-add of the address's first operand
  (`JumpTable.StrayAddMisleads`), and only then (`JumpTable.IdiomFoundIff`).
- The shim drops pending cycles when the host supplies no callback (`CycleShim.ConservedIff`).
- A vault that repeats a variant loses coverage when it is indexed (`Vault.IndexKeepsIff`), and
  a merge that reports +0/+0 may still add dispatch PCs (`Vault.DispatchAddedSilently`).
- A reported divergence starts outside the exclusions but may extend into one
  (`Divergence.RunEntersExclusion`); exactly when is `Divergence.ReportsExcludedIff`.

## Model

| member | source | states |
|---|---|---|
| `Flow.ExpansionSound` | tools/compile_overlays.py:435-491 | Whatever order a worklist expands in, it expands only reachable nodes and marks only them and their delay slots. |
| `Flow.MissedIsStolen` | tools/compile_overlays.py:436-438 | If a finished walk does not expand a reachable node, some reachable node was marked as a delay slot by a followable path that avoids it. |
| `Flow.SafeOrdersAreExact` | tools/compile_overlays.py:435-491 | On a safe graph every finished walk expands exactly the reachable nodes and marks exactly them and their delay slots. |
| `Flow.UnsafeOrderExists` | tools/compile_overlays.py:436-438 | On an unsafe graph some finished walk leaves a reachable node unexpanded. |
| `Flow.ExactIffSafe` | tools/compile_overlays.py:435-491 | All finished walks expand exactly the reachable set if and only if no reachable node can be marked as a delay slot first. |
| `Flow.HarmlessOrdersAreExact` | tools/compile_overlays.py:435-498 | If the owner of every stealable delay slot enqueues what the slot would, every finished walk marks exactly the reachable nodes and their slots. |
| `Flow.MarksTheRest` | tools/compile_overlays.py:435-498 | A finished walk marks exactly what the graph without the nodes it stole provides. |
| `Flow.StealLoses` | tools/compile_overlays.py:436-438 | For every stealable node some finished walk marks no more than the graph without that node provides. |
| `Flow.MarksExactIff` | tools/compile_overlays.py:421-498 | All finished walks mark exactly the reachable nodes and their slots if and only if nothing that a walk can steal is needed to provide them. |
| `Flow.ExactNeedsNoStolen` | tools/compile_overlays.py:436-438 | If every finished walk is exact, the graph without any single node that can be stolen along a path still provides the same. |
| `Flow.SubReach` | tools/compile_overlays.py:426-427 | Removing nodes and edges never adds reachable nodes and keeps safety. |
| `JumpTable.ScanBack` | tools/compile_overlays.py:339-384 | The backward scan computes the recursive word-by-word scan, with its 40-word and function-entry limits. |
| `JumpTable.FindTargets` | tools/compile_overlays.py:327-399 | Returns exactly the in-function aligned words of the recognised table; every result lies in the function and the region. |
| `JumpTable.TargetsShrink` | tools/compile_overlays.py:397-398 | A lower cap only filters the recovered targets. |
| `JumpTable.IdiomFound` | tools/compile_overlays.py:339-389 | On every non-interfering bound/lui/addu/lw sequence, with or without its addiu, the scan recovers the bound and the table base the code uses, shifted by the first stray self-add that it takes over; a table of 512 entries or more is not recovered. |
| `JumpTable.IdiomFoundIff` | tools/compile_overlays.py:362-389 | The recovered table is the one the code uses if and only if it has at most 511 entries and the idiom has its own addiu or the run of addiu words before the bound check holds no self-add of the first operand, or one of 0. |
| `JumpTable.StrayAddMisleads` | tools/compile_overlays.py:362-371 | Without an addiu of its own the idiom takes over the first such self-add, wherever in that run it stands, and the base is off by its immediate. |
| `JumpTable.JumpReadsTable` | tools/compile_overlays.py:352-394 | Executing the idiom with an index below the bound loads the table word that index selects, despite 32-bit wrap-around. |
| `JumpTable.RecoveryIsSound` | tools/compile_overlays.py:327-399 | For every execution of the idiom with an index below the bound, where nothing shifts the table, the jump target lies in the function if and only if it was recovered. |
| `OverlayWalker.Expand` | tools/compile_overlays.py:442-491 | One expansion keeps the walk an expansion order with the right worklist, visited set, call, branch and table targets. |
| `OverlayWalker.WalkFunction` | tools/compile_overlays.py:421-498 | The FIFO walk terminates; what it visits is in the function and reachable or a delay slot of reached code; on harmless code its whole report is the report of the reachable set. |
| `OverlayWalker.WalkFacts` | tools/compile_overlays.py:421-498 | The same for every order of expansion, and every direct call target it reports is in the region and callable. |
| `OverlayWalker.SafeIsHarmless` | tools/compile_overlays.py:436-438 | Code in which nothing reachable can be marked first is harmless. |
| `OverlayWalker.HarmlessReport` | tools/compile_overlays.py:493-498 | On harmless code visited addresses, direct calls, branch targets and table targets are all those of the reachable set, in every order. |
| `OverlayWalker.EdgeIff` | tools/compile_overlays.py:442-491 | Which addresses the walk follows from a word, and which it marks as its delay slot, by the opcode fields of the word. |
| `OverlayWalker.StaysInside` | tools/compile_overlays.py:423-427 | Whatever a walk visits or reports as a branch or table target is an aligned address of the captured region, from the entry up to the cap. |
| `OverlayWalker.CallsReported` | tools/compile_overlays.py:464-472 | On harmless code an address is reported as a direct call if and only if some reachable word is a jal to it and it is a callable address of the region. |
| `OverlayWalker.TargetsReported` | tools/compile_overlays.py:449-491 | On harmless code the reported branch and table targets are exactly the in-function destinations of the reachable transfers. |
| `OverlayWalker.VisitedExactIff` | tools/compile_overlays.py:421-498 | What walks visit is exact in every order if and only if nothing that a walk can steal is needed to provide it. |
| `OverlayWalker.StealLosesVisits` | tools/compile_overlays.py:436-438 | Wherever an instruction can be stolen, some walk visits no more than the code without it provides. |
| `OverlayWalker.ExactNeedsNoStolenWord` | tools/compile_overlays.py:436-438 | Code whose walks are all exact does without any single instruction that can be stolen along a path. |
| `OverlayWalker.CapShrinks` | tools/compile_overlays.py:426-427 | Lowering the cap of a harmless walk keeps it harmless and adds nothing to what it visits or calls. |
| `OverlayWalker.PromotionKeeps` | tools/compile_overlays.py:651-673 | A new root above everything a root visits leaves that root's visited set and direct calls unchanged. |
| `OverlayWalker.TruncatesIff` | tools/compile_overlays.py:207-217 | On harmless code a lower cap leaves the visited set unchanged if and only if nothing visited lies at or above it. |
| `OverlayWalker.JumpedOver` | tools/compile_overlays.py:458-463 | A root that jumps over an address loses the jump target once that address becomes a root. |
| `OverlayWalker.SelfSlot` | tools/compile_overlays.py:449-457 | A branch to its own delay slot makes that slot reachable, yet no walk ever expands it. |
| `OverlayWalker.JumpInSlotIsLost` | tools/compile_overlays.py:436-463 | A branch to its own slot that holds a jump: the jump target is reachable and every walk loses it, if the word after the slot returns. |
| `OverlayWalker.ReachableCanBeLost` | tools/compile_overlays.py:436-438 | A concrete image with a reachable address that no walk visits. |
| `InventoryWalker.Expand` | tools/build_instruction_inventory.py:357-390 | One LIFO expansion keeps the walk an expansion order and records the word at each address. |
| `InventoryWalker.Visit` | tools/build_instruction_inventory.py:351-390 | The LIFO walk terminates with what some finished expansion order marks, each address with its own word. |
| `InventoryWalker.WalkFunction` | tools/build_instruction_inventory.py:315-396 | Visited words are reachable or delay slots, exactly so on harmless code; the reported end is the last byte of the highest one, or entry + 3. |
| `InventoryWalker.WalkersAgree` | tools/build_instruction_inventory.py:254-312 | If both tools classify the reachable code alike, the two edge relations have the same reachable set, the same exact visited set and the same safety and harmlessness, so both walks agree. |
| `Classifier.IncludeAll` | tools/compile_overlays.py:573-604 | Including a set of addresses has the effect of deciding each address separately, in any order. |
| `Classifier.Seed` | tools/compile_overlays.py:606-619 | After the four seeding phases each address holds what its own evidence decides. |
| `Classifier.SeedSound` | tools/compile_overlays.py:573-604 | Every stored reason carries its proof: region, callability, table labels, valid words; included reasons are never fatal, excluded ones always are. |
| `Classifier.SeedMeaning` | tools/compile_overlays.py:588-619 | What seeding decides for each address, as a priority: dispatched at a proven boundary, declared, pointed to and not a bare table label, dispatched inside a function, or not included. |
| `Classifier.SeedRejects` | tools/compile_overlays.py:573-619 | What seeding rejects and why: addresses outside the region, function pointers that are bare table labels, and dispatched PCs that cannot start a function. |
| `Classifier.ImpossibleIff` | tools/compile_overlays.py:560-571 | A dispatched PC cannot start a function exactly when its word is missing or invalid, a j to no known memory, or a jal to an address of the region without boundary evidence. |
| `Classifier.KernelWindowIff` | tools/compile_overlays.py:628-628 | The kernel window is the first 64 KB of memory in any segment. |
| `Classifier.BadTargetIff` | tools/compile_overlays.py:765-777 | A jump target is bad exactly when its memory, in any segment, belongs to neither the image, the main executable nor the BIOS ROM. |
| `Classifier.HardCap` | tools/compile_overlays.py:636-637 | The cap is the next root above the entry, or the region end. |
| `Classifier.AddJals` | tools/compile_overlays.py:641-646 | Rooting the direct calls of a walk keeps roots equal to the included non-interior addresses and demotes none. |
| `Classifier.Process` | tools/compile_overlays.py:632-646 | After one root is walked, every direct call of that walk is a root. |
| `Classifier.Drain` | tools/compile_overlays.py:631-646 | The worklist of roots empties, with the root invariant kept and every root processed. |
| `Classifier.WalkRoots` | tools/compile_overlays.py:655-660 | One walk per root, each up to the next root. |
| `Classifier.Orphans` | tools/compile_overlays.py:655-663 | Exactly the interiors that the walks of this pass, one per root, do not visit. |
| `Classifier.FixRoots` | tools/compile_overlays.py:624-673 | The fixed point is reached; roots only grow, each is settled; in the kernel window every remaining interior lies in some root's final walk; every promoted address was unvisited by the walks of an earlier root set that visited all lower interiors. |
| `Classifier.Exclude` | tools/compile_overlays.py:685-694 | Exactly the region's candidates that were not included are rejected, each with its reason; other exclusions stay. |
| `Classifier.JalClosure` | tools/compile_overlays.py:636-646 | A harmless root's direct calls under the final cap are roots, although it was processed under an older, larger cap. |
| `Classifier.ClassifySeeds` | tools/compile_overlays.py:523-729 | The finished classification: table labels are those of the assumed roots' walks, proofs for every reason, roots equal to non-interior inclusions, no seeded root demoted, promotions only of seeded kernel interiors that were orphans, every direct-call root called by the walk of some root, and each exclusion with the reason of the final walks. |
| `Classifier.ClassifiedCallsRoots` | tools/compile_overlays.py:631-646 | At the end every callable in-region direct call target found by walking a harmless root up to the next root is itself a root. |
| `Classifier.CalleesAreRoots` | tools/compile_overlays.py:470-472 | For every classification: a callable in-region address that a jal reachable from a harmless root, up to the next root, calls is a root. |
| `Classifier.WhyExcluded` | tools/compile_overlays.py:685-694 | For every classification and every rejected candidate: the reason is branch target exactly when a final walk branches to it or a label walk found it in a table, observed PC exactly when that fails and it was executed or an old seed, unknown otherwise. |
| `Classifier.RejectedElsewhere` | tools/compile_overlays.py:573-604 | Every other address is rejected exactly when seeding rejected it, with the same reason. |
| `Classifier.HeaderEntry` | tools/compile_overlays.py:1826-1842 | The header entry is the lowest walk root and lies in the region; there is none exactly when there are no roots. |
| `Promotion.OrphanIsPromoted` | tools/compile_overlays.py:661-673 | On the example capture every classification promotes the dispatched address that the known function jumps over. |
| `Promotion.PromotionTruncates` | tools/compile_overlays.py:670-673 | There no walk of that function up to the next root visits its reachable end any more: promotion truncates it. |
| `CacheProtocol.StepKeepsKeys` | tools/compile_overlays.py:2061-2073 | Every step keeps each key lock with the one worker that is between taking and releasing it. |
| `CacheProtocol.StepKeepsCov` | tools/compile_overlays.py:1938-1944 | Every step keeps the coverage lock with the one worker inside a locked section. |
| `CacheProtocol.OneWriterPerFile` | tools/compile_overlays.py:2040-2043 | At every moment of every run at most one worker is inside the section of a given (region, crc) key, so each file name has one writer. |
| `CacheProtocol.NoDeadlock` | tools/compile_overlays.py:2065-2086 | As long as some worker is not done, some step is possible. |
| `CacheProtocol.PoolBound` | tools/compile_overlays.py:2065-2086 | At every moment at most as many captures are under way as the pool has workers. |
| `CacheProtocol.RunsAreBounded` | tools/compile_overlays.py:2065-2086 | Every step lowers a rank, so no run is longer than the initial rank. |
| `CacheProtocol.OwnFiles` | tools/compile_overlays.py:1817-1833 | A worker that has not written its files finds them as they were at the start, whatever the others did. |
| `CacheProtocol.StepKeepsDisk` | tools/compile_overlays.py:1959-1969 | Every step keeps the disk invariant: no manifest disappears, and a changed one belongs to a worker that wrote it and had no DLL before. |
| `CacheProtocol.StepKeepsCoverage` | tools/compile_overlays.py:1938-1944 | Every step keeps the in-memory coverage within what the disk firmly lists, even when a load reads some manifests before and some after a concurrent write. |
| `CacheProtocol.StepServes` | tools/compile_overlays.py:1943-1949 | A capture with identities to contribute leaves only when all of them are on disk. |
| `CacheProtocol.RunKeepsInv` | tools/compile_overlays.py:2046-2086 | All of these hold at every moment of every run. |
| `CacheProtocol.BackedPreserves` | tools/compile_overlays.py:1831-1833 | If every listed identity has a manifest with its DLL, no capture drops an identity. |
| `CacheProtocol.MergingPreserves` | tools/compile_overlays.py:1758-1792 | If recompiling yields again what a prior manifest of the same bytes lists, no capture drops an identity, DLL or not. |
| `CacheProtocol.EveryScheduleAgrees` | tools/compile_overlays.py:2032-2088 | If no capture drops an identity, every finished interleaving leaves exactly the schedule-free set: what was listed plus what every contributing capture yields. |
| `CacheProtocol.CoverageIsOnDisk` | tools/compile_overlays.py:1938-1979 | At every moment, whatever the coverage of a region claims is listed on disk. |
| `CacheProtocol.SequentialAgrees` | tools/compile_overlays.py:2046-2048 | The sequential driver leaves that same set. |
| `CacheProtocol.RunSequential` | tools/compile_overlays.py:2046-2048 | The driver loop computes the fold of single captures and leaves the schedule-free set. |
| `CacheRuns.OneWorkerIsSequential` | tools/compile_overlays.py:2046-2086 | Every finished run of one worker that takes the captures in order leaves the files, DLLs included, and the coverage of the sequential driver. |
| `CacheRuns.OneWorkerFinishes` | tools/compile_overlays.py:2046-2086 | There is such a run, for all captures and every initial disk. |
| `CacheRuns.CoveredNeverBuilds` | tools/compile_overlays.py:1943-1949 | In every interleaving, a worker whose nonempty identities are in the region's coverage while it holds the coverage lock never adds its DLL. |
| `CacheRuns.DllIff` | tools/compile_overlays.py:1938-1969 | Every finished interleaving has the DLL of a capture exactly when it was there, or the capture compiles and its locked coverage check found some identity uncovered, or none to cover. |
| `CacheOrder.OverwriteAll` | tools/compile_overlays.py:1950-1969 | Rebuilding stale manifests one by one replaces exactly those, and leaves their old identities in the coverage. |
| `CacheOrder.OrderFreeIff` | tools/compile_overlays.py:2036-2043 | The order of captures never changes the identities on disk if and only if every identity on disk is listed by some manifest whose DLL exists. |
| `CycleShim.BatchedRefinesImmediate` | tools/compile_overlays.py:915-1032 | Over every call sequence, delivered plus pending equals what immediate forwarding delivers, and every flushing callback sees the same total. |
| `CycleShim.CounterNeverWraps` | tools/compile_overlays.py:929-932 | The 32-bit addition is an exact sum, after a flush if it would not fit. |
| `CycleShim.ImmediateTotal` | tools/compile_overlays.py:929-932 | Immediate forwarding delivers the unbounded sum of the cycles requested. |
| `CycleShim.ConservedIff` | tools/compile_overlays.py:881-885 | Cycles are conserved over every call sequence if and only if the host supplies the callback. |
| `CycleShim.HeldBack` | tools/compile_overlays.py:929-932 | Calls without a flushing callback deliver nothing while the counter has room. |
| `CycleShim.DeliveredUpToFlush` | tools/compile_overlays.py:915-1032 | After a flushing callback the host has exactly the cycles requested before it, until the counter is full. |
| `CycleShim.Shim.Flush` | tools/compile_overlays.py:881-885 | The counter becomes zero and its value is delivered if the host takes it. |
| `CycleShim.Shim.AdvanceCycles` | tools/compile_overlays.py:929-932 | The new state is the batched step of the old one. |
| `CycleShim.Shim.FlushingCallback` | tools/compile_overlays.py:915-928 | Pending cycles are delivered before the callback is logged. |
| `CycleShim.Shim.QuietCallback` | tools/compile_overlays.py:988-993 | The callback is logged and no cycles move. |
| `CycleShim.Shim.Run` | tools/compile_overlays.py:915-1032 | Any sequence of calls on the shim ends in the state that the refinement speaks about. |
| `Identity.XorCancels` | tools/compile_overlays.py:1240-1242 | Complementing the register twice restores it, which chaining relies on. |
| `Identity.CrcChains` | tools/compile_overlays.py:1286-1286 | Chaining CRC-32 (section 8 of RFC 1952) over two pieces is the CRC of their concatenation. |
| `Identity.CheckGenerator` | tools/compile_overlays.py:1279-1288 | The last bit of a byte to leave the register is reduced by the generator polynomial of section 8 of RFC 1952, given by its exponents. |
| `Identity.CheckOnes` | tools/compile_overlays.py:1279-1288 | Check value: four bytes 0xFF have CRC 0xFFFFFFFF. |
| `Identity.OneByteChanges` | tools/compile_overlays.py:1279-1288 | Changing one byte anywhere in the data always changes the CRC. |
| `Identity.OneByteNewId` | tools/compile_overlays.py:1275-1290 | Captures whose code of a function differs in a single byte give it different identities. |
| `Identity.RangeBytes` | tools/compile_overlays.py:1279-1288 | The code bytes of a range are those captured at its physical address. |
| `Identity.IdsIff` | tools/compile_overlays.py:1275-1290 | An identity is given exactly when some listed function enters the overlay, has ranges and keeps them in the captured bytes: entry in KSEG0, CRC of its code, its ranges. |
| `Identity.HashRanges` | tools/compile_overlays.py:1279-1288 | The chained hash is the CRC of all code bytes, and there is none exactly when a range leaves the captured bytes. |
| `Identity.FuncIds` | tools/compile_overlays.py:1275-1290 | The identities are those of the functions that enter the overlay, have ranges and keep them in the captured bytes, in order. |
| `Identity.IdsIgnoreData` | tools/compile_overlays.py:1228-1288 | Captures that agree on the code ranges have equal identities, whatever their other bytes. |
| `Manifest.HexRoundTrip` | tools/compile_overlays.py:1294-1308 | A zero-padded hexadecimal field parses back to its number and contains no blanks. |
| `Manifest.FieldsSplit` | tools/compile_overlays.py:1319-1346 | The fields of a line are those on both sides of any blank, tab or line end. |
| `Manifest.CaseBlind` | tools/compile_overlays.py:1319-1346 | Numbers are read the same in upper and lower case. |
| `Manifest.ExtraFields` | tools/compile_overlays.py:1337-1343 | Whatever follows a function's entry and CRC on its line is ignored by both readers. |
| `Manifest.FixedWidth` | tools/compile_overlays.py:1304-1304 | The entry and CRC fields of a written function line are eight upper-case digits each. |
| `Manifest.NoLeadingZero` | tools/compile_overlays.py:1306-1306 | The length field of a written range line has no leading zero. |
| `Manifest.LoadCoverage` | tools/compile_overlays.py:1319-1346 | Loading a region returns exactly the (entry, crc) pairs on the F lines of its manifests. |
| `Manifest.LoadEntries` | tools/compile_overlays.py:1360-1389 | The entry set is exactly the physically masked entries on the F lines. |
| `Manifest.ManifestRoundTrip` | tools/compile_overlays.py:1294-1389 | Writing a manifest and loading it returns exactly its identities, and its entry set is their image under physical masking. |
| `Listing.ParseListing` | tools/compile_overlays.py:1249-1273 | The line loop computes the fold over lines: a function of the overlay opens, any other closes, ranges go to the open one, bad lines are dropped. |
| `Listing.ListedIds` | tools/compile_overlays.py:1228-1290 | The identities of a listing are those of the functions read from it. |
| `Listing.ManifestRereads` | tools/compile_overlays.py:1249-1308 | A written manifest read as a listing returns its functions of the overlay with all their ranges, in order. |
| `Listing.ManifestKeepsIds` | tools/compile_overlays.py:1228-1308 | A manifest written for the identities of a capture and read again for the same capture gives exactly these identities, in order. |
| `PsxExe.MakeParses` | tools/compile_overlays.py:180-188 | Writing then parsing returns the image exactly when it is loadable, otherwise nothing. |
| `PsxExe.AcceptedIff` | recompiler/src/ps1_exe_parser.cpp:9-72 | Which files the parser takes: the magic, code of the stated size that lies in RAM, an entry in the cached segment, and a zero fill, if any, behind the code. |
| `PsxExe.ParsedIsAnalysable` | recompiler/src/ps1_exe_parser.cpp:9-72 | Whatever the parser takes satisfies what the block analysis asks of an executable. |
| `PsxExe.EntryInRangeIff` | recompiler/include/ps1_exe_parser.h:41-48 | The header's own range test holds if and only if the entry lies in the captured image. |
| `PsxExe.ImageEntryInRange` | tools/compile_overlays.py:1836-1842 | Any address of the image written as entry is in range after parsing. |
| `PsxExe.WordsSurvive` | recompiler/include/ps1_exe_parser.h:71-84 | A word can be read through the parsed container exactly where the capture, at its cached address, has one, with the same value. |
| `PsxExe.ImporterAgrees` | tools/ghidra_psx_import.py:23-49 | Whatever the recompiler accepts the importer accepts, with the same code and addresses equal up to the segment move. |
| `BasicBlocks.FindLeaders` | recompiler/src/basic_block.cpp:14-49 | The leaders are exactly the entry, the words after delay slots and the in-image static targets, sorted without repetition. |
| `BasicBlocks.LeadersOfWords` | recompiler/src/mips_decoder.cpp:150-254 | By the words of the image: an address is a leader exactly when it is the entry, or in the image and two words behind a transfer word or the nonzero destination of a branch, jump or call word. |
| `BasicBlocks.Term` | recompiler/src/basic_block.cpp:199-232 | The end of a block's body: no transfer and no leader before it, and a transfer, a leader or the image end right after or at it. |
| `BasicBlocks.ScanBlock` | recompiler/src/basic_block.cpp:195-232 | The flag-driven scan finds that end, the delay slot and the instruction count. |
| `BasicBlocks.CollectBlocks` | recompiler/src/basic_block.cpp:179-299 | One block per decoded leader, in order, with sorted duplicate-free successors. |
| `BasicBlocks.Analyze` | recompiler/src/basic_block.cpp:159-305 | The blocks of the decoded leaders, with predecessor lists that are the exact sorted converse of the successor lists. |
| `BasicBlocks.BlockCounts` | recompiler/src/basic_block.cpp:199-232 | A block counts the words from its start to its end, and its delay slot is its end. |
| `BasicBlocks.EdgeIsTaken` | recompiler/src/basic_block.cpp:234-294 | Every successor of a block whose transfer is not cut off is where an execution from the block's start goes next at its end. |
| `BasicBlocks.DecoderAligns` | recompiler/src/mips_decoder.cpp:321-332 | Static targets of aligned instructions are aligned. |
| `BasicBlocks.OverlapIsDelaySlot` | recompiler/src/basic_block.cpp:199-232 | Two blocks share an address only where the delay slot of the first is the start of the second. |
| `BasicBlocks.EveryInstructionCovered` | recompiler/src/basic_block.cpp:179-299 | Without cuts every instruction from the first block start on lies in a block. |
| `BasicBlocks.CutUncovered` | recompiler/src/basic_block.cpp:202-228 | The word behind a cut, where a leader inside an ordinary word ends a block and starts none, is in no block. |
| `BasicBlocks.CoveredIff` | recompiler/src/basic_block.cpp:179-299 | Every instruction from the first block start on is in a block if and only if the image has no cut, whatever its entry and size. |
| `BasicBlocks.MidWordCut` | recompiler/src/ps1_exe_parser.cpp:52-69 | A valid image of whole words that its unaligned entry cuts. |
| `BasicBlocks.EntryCuts` | recompiler/src/basic_block.cpp:202-228 | The last word of that image is in no block. |
| `BasicBlocks.WholeIsUncut` | recompiler/src/basic_block.cpp:14-49 | An image of whole words whose entry is at a word or outside has no cut. |
| `BasicBlocks.EdgesOf` | recompiler/src/basic_block.cpp:234-294 | The successor list, by kind of terminator, including the cut-off last word. |
| `BasicBlocks.DecodedEdgesIff` | recompiler/src/basic_block.cpp:234-294 | Every successor that is a decoded address is a block start if and only if the image has no cut. |
| `BasicBlocks.ClosedIff` | recompiler/src/basic_block.cpp:234-294 | In an image of whole words every successor is a block start if and only if there is no cut and the image does not end in a lone branch or call; there the analyser records the successor 4. |
| `BasicBlocks.BuildPredecessors` | recompiler/src/basic_block.cpp:310-326 | Predecessor lists are the sorted, duplicate-free converse of the successor lists; nothing else changes. |
| `BasicBlocks.FindBlock` | recompiler/src/basic_block.cpp:331-346 | Returns the block that starts at the address, else one that contains it, else reports that none does. |
| `BasicBlocks.ContainingBlockUnique` | recompiler/src/basic_block.cpp:331-346 | An address that starts no block lies in at most one, so the scan order does not matter. |
| `BasicBlocks.DecodedIsWhole` | recompiler/src/mips_decoder.cpp:321-332 | An image with aligned load address and size decodes to whole words with targets at words. |
| `BasicBlocks.GraphSimulatesIff` | recompiler/src/basic_block.cpp:179-299 | Each step of the delayed-branch machine inside a block goes to the block's next instruction or, from its last, along one of its edges, unless it executes a transfer in the block's own delay slot: this holds if and only if the image has no cut. |
| `BasicBlocks.RunsFollowEdges` | recompiler/src/basic_block.cpp:179-299 | In an image without cuts every run that executes no transfer right behind another is traced by blocks: it stays in each up to its last instruction and then follows a successor edge. |
| `BasicBlocks.EntersInside` | recompiler/src/basic_block.cpp:179-299 | A machine at a block start is inside that block. |
| `Translator.BranchPreserved` | recompiler/src/strict_translator.cpp:536-681 | All six conditional branches and j: snapshot, slot and terminator give the registers, machine and next PC of MIPS I, for every state and every slot. |
| `Translator.JrRightIff` | recompiler/src/strict_translator.cpp:463-472 | jr without snapshot is right in a state if and only if the slot traps or leaves the jump register's value alone. |
| `Translator.JalRightIff` | recompiler/src/strict_translator.cpp:683-696 | jal, for every slot and state: right if and only if both orders trap with the link in place, or neither traps, the rest of the machine and the other registers agree, and the slot leaves the link. |
| `SlotRules.JalSlotReadsRa` | recompiler/src/strict_translator.cpp:690-693 | A store of $ra in the slot of jal is supported and its words are not safe. |
| `Translator.JalrRightIff` | recompiler/src/strict_translator.cpp:473-488 | jalr, for every slot and state: the link condition, and neither slot nor link leaves another value in the jump register. |
| `Translator.JalrSameRegister` | recompiler/src/strict_translator.cpp:477-485 | jalr with equal registers always jumps to its own return address. |
| `SlotRules.SafeWordsAreRight` | recompiler/src/strict_translator.h:27-44 | Words that show the slot to leave link and jump registers alone are translated rightly on every host that computes from what instructions read, in every state. |
| `SlotRules.SafeWordsIff` | recompiler/src/strict_translator.h:27-44 | The emitted order is right on every such host and in every state if and only if the words of terminator and slot are safe. |
| `Hazards.WritesCoverDest` | tools/scan_branch_delay_hazards.py:104-208 | Except for moves from COP2 and system calls, the scanner's write set contains every register a supported instruction can change. |
| `Hazards.UnflaggedIsSafe` | tools/scan_branch_delay_hazards.py:391-410 | On an unflagged pair that does not escape, reading the operands after the slot gives the same result as the snapshot, in all states. |
| `Hazards.UnseenEscapesScanner` | tools/scan_branch_delay_hazards.py:147-191 | A move from COP2 or a system call that changes an operand of a branch whose outcome matters is not flagged although the naive order goes wrong. |
| `Hazards.UnflaggedSafeIff` | tools/scan_branch_delay_hazards.py:391-410 | For unflagged supported pairs the snapshot is unnecessary in all states if and only if the pair does not escape in this way. |
| `Hazards.GoesWrongIff` | tools/scan_branch_delay_hazards.py:391-410 | For every supported pair, flagged or not, the naive order goes wrong on some host and state if and only if the pair is flagged or escapes and the branch's outcome matters. |
| `Hazards.FlaggedPairs` | tools/scan_branch_delay_hazards.py:391-410 | By mnemonics: a pair is flagged exactly when the slot writes a register other than zero that the branch compares, moves from COP2 aside. |
| `Assembler.BranchRoundTrip` | recompiler/src/mips_decoder.cpp:321-332 | For every branch mnemonic, register and displacement -0x8000..0x7FFF: all four tools see a conditional branch to pc + 4 + 4 * displacement, and the translator the condition and registers of the mnemonic. |
| `Assembler.OtherBranches` | tools/compile_overlays.py:299-324 | Branch-likely, linking and coprocessor branches: kind and destination, as far as each tool knows them. |
| `Assembler.JumpRoundTrip` | recompiler/src/mips_decoder.cpp:321-325 | j and jal to every aligned address of the segment of their delay slot: all four tools see the kind and that destination. |
| `Assembler.RegisterRoundTrip` | recompiler/src/strict_translator.cpp:463-488 | jr and jalr: kinds, and the register fields that the translator takes. |
| `Assembler.OrdinaryRoundTrip` | recompiler/src/strict_translator.cpp:80-1400 | Every other mnemonic: all four tools let it fall through, and the registers written and used, and whether it can trap, are those of the mnemonic. |
| `Assembler.ValidIsSupported` | tools/compile_overlays.py:268-296 | Outside a fixed list of disputed words, the words valid for the classifier are exactly those that the translator supports. |
| `Assembler.DisputedWords` | recompiler/src/strict_translator.cpp:80-1477 | On the disputed words: which the classifier holds valid, and which the translator takes as ordinary or as terminators. |
| `Assembler.ToolsAgree` | tools/compile_overlays.py:299-324 | On every such word the four tools agree on whether and how control leaves it and on static destinations. |
| `Assembler.CallableIff` | tools/compile_overlays.py:402-413 | Boundary evidence: a valid word at the region start, two words behind jr $ra, or addiu $sp,$sp,-n that is not in a delay slot. |
| `Architecture.BranchSlice` | recompiler/src/strict_translator.cpp:536-667 | Running a slice that starts with any of the six branches, from every register state: it ends at the branch's destination if and only if the architecture's signed comparison holds of the registers before the slot, else behind the slot, or trapped in the slot. |
| `Architecture.JumpSlice` | recompiler/src/strict_translator.cpp:670-696 | The same for j and jal: the destination, and the link after the slot. |
| `Architecture.JrSlice` | recompiler/src/strict_translator.cpp:463-472 | The same for jr: control goes to what its register holds after the slot. |
| `Architecture.JalrSlice` | recompiler/src/strict_translator.cpp:473-488 | The same for jalr: its link register is written after the slot, and its source register read after that. |
| `Architecture.OrdinarySlice` | recompiler/src/bios_slice_walker.cpp:171-179 | An ordinary word executes where it stands and the slice goes on behind it. |
| `Architecture.OrdinaryWrites` | recompiler/src/strict_translator.cpp:80-1400 | An ordinary word changes the general register that its mnemonic names and no other. |
| `SliceWalker.Scan` | recompiler/src/bios_slice_walker.cpp:72-179 | The loop computes the recursive account of a slice. |
| `SliceWalker.WalkSlice` | recompiler/src/bios_slice_walker.cpp:56-192 | The report: failure exactly when the start or a needed word is outside the ROM, ok exactly when nothing is unsupported, and its end address. |
| `SliceWalker.EveryWordAccounted` | recompiler/src/bios_slice_walker.cpp:72-179 | Every scanned word is emitted, recorded unsupported, or a terminator whose slot is recorded; nothing unscanned is, and no word is both. |
| `SliceWalker.AccountIff` | recompiler/src/bios_slice_walker.cpp:72-179 | Exactly which words are emitted and which are unsupported, from the order in which the walk meets words as instructions and as delay slots. |
| `SliceWalker.SliceMeaningIff` | recompiler/src/bios_slice_walker.cpp:96-168 | A whole accepted slice has the registers, machine, next PC and traps of the MIPS code from a state if and only if its terminator is right in the state in which execution reaches it, or is not reached. |
| `SliceWalker.SliceMeaning` | recompiler/src/bios_slice_walker.cpp:96-168 | A slice whose end is safe by its words has that meaning from every state. |
| `Framer.ScanConcat` | tools/psx_debug_protocol.py:26-50 | Scanning a concatenation is scanning its parts in turn with the persistent state. |
| `Framer.ScanBytes` | tools/psx_debug_protocol.py:32-50 | The byte-at-a-time loop finds the completed prefix, or the state after all bytes. |
| `Framer.ScanFast` | tools/debug_client.py:130-160 | The find-based skip loop meets the same specification. |
| `Framer.Receive` | tools/debug_client.py:118-161 | With either scanner and any chunking, the reply is a function of the concatenated stream alone. |
| `Framer.ScanItems` | tools/psx_debug_protocol.py:34-47 | The contents of an object, with strings and escapes (section 7 of RFC 8259) and nested objects, leave the scanner state unchanged. |
| `Framer.OneObjectPerReply` | tools/debug_client.py:113-117 | Exactly the one complete object is framed, with the plain bytes before it and whatever bytes follow. |
| `Vault.MergeOne` | tools/coverage_vault.py:52-65 | Merging one capture is the pointwise union for its variant and leaves the other records and their order alone; the count is the number of newly recorded PCs, repeated ones in a new variant counted again. |
| `Vault.Index` | tools/coverage_vault.py:50-50 | Indexing keeps each variant once, with its last record. |
| `Vault.IndexKeepsIff` | tools/coverage_vault.py:50-50 | Indexing loses no coverage if and only if every record is within the last record of its variant; never on a duplicate-free vault. |
| `Vault.Merge` | tools/coverage_vault.py:44-68 | On a duplicate-free vault the result is the pointwise union of PC sets, the counts are those of new variants and newly recorded PCs, and +0/+0 is reported exactly when nothing executed is new; an empty source changes nothing. |
| `Vault.MergeIsJoin` | tools/coverage_vault.py:44-68 | Merging is monotone, idempotent, commutative and associative up to list order. |
| `Vault.MergeIdleIff` | tools/coverage_vault.py:52-65 | A merge changes nothing if and only if everything was there, dispatch PCs included. |
| `Vault.DispatchAddedSilently` | tools/coverage_vault.py:60-65 | A merge that reports +0/+0 and still adds a dispatch PC. |
| `Vault.DuplicateLosesCoverage` | tools/coverage_vault.py:50-50 | A vault with a repeated variant loses the first record's PCs. |
| `Divergence.RunEnd` | tools/find_divergence.py:126-133 | The end of the differing run, with its exact byte count. |
| `Divergence.Advance` | tools/find_divergence.py:111-140 | One round of the scan keeps all it has established and moves on. |
| `Divergence.FindDivergences` | tools/find_divergence.py:100-144 | Reported runs are disjoint and in order, start outside the exclusions and go on until the bytes agree; below the limit no differing byte outside the exclusions is missed; without exclusions they are exactly the first maximal runs, and both totals are exact. |
| `Divergence.ReportsExcludedIff` | tools/find_divergence.py:113-133 | Below the limit some reported byte is excluded if and only if the differing bytes somewhere lead from outside into an exclusion. |
| `Divergence.RunEntersExclusion` | tools/find_divergence.py:126-133 | Two differing bytes of which the second is excluded are reported together. |
| `Normalise.NormaliseAddr` | tools/audit_config.py:69-75 | The loop applies the mask and then the remaps in order. |
| `Normalise.NormalIsIdempotent` | tools/audit_config.py:69-75 | When remap images are mask-stable and avoid all source ranges, normalisation is idempotent and its results are outside every source range. |
| `Normalise.AliasesAgree` | tools/audit_config.py:71-71 | Aliases in segments above the mask get one result. |
| `Normalise.MaskKeepsLow` | tools/audit_config.py:71-71 | A mask of n ones keeps exactly the lower n bits. |
| `Normalise.BackwardRemapMovesTwice` | tools/audit_config.py:72-74 | A remap into an earlier source range breaks idempotence. |
| `Audit.InCodeRegion` | tools/audit_config.py:77-83 | True exactly when some declared code region contains the address. |
| `Audit.Overlaps` | tools/codegen_audit.py:256-260 | Lists exactly the pairs of a code range and a data range that overlap. |
| `Audit.Missing` | tools/codegen_audit.py:146-146 | Exactly the normalised addresses of the first set of which the second has no alias. |
| `Audit.MissingLiterals` | tools/codegen_audit.py:154-171 | Exactly the normalised in-region literal targets that are neither dispatched nor manifested dynamic. |
| `Audit.UnexpectedTails` | tools/codegen_audit.py:207-223 | Exactly the normalised in-region tail targets that are neither dispatched nor dynamic nor expected misses. |
| `Audit.DynamicFindings` | tools/codegen_audit.py:261-272 | None exactly when no dispatched address lies in data and every dynamic target lies in data and is not dispatched. |
| `Audit.Status` | tools/codegen_audit.py:293-312 | CLEAN exactly when all of that holds, compiled entries are dispatched and match the range manifest, direct calls are defined, and no fallback, marker or manifest error is left. |
| `Audit.MeetsIff` | tools/codegen_audit.py:259-259 | For ranges that are not empty the overlap test holds if and only if they share an address. |
| `Audit.CleanSeparates` | tools/codegen_audit.py:256-260 | Under CLEAN no address is both code and data. |
| `Audit.CleanLiteral` | tools/codegen_audit.py:158-175 | Under CLEAN an in-region literal target is dispatched or dynamic but not both, and a dynamic one lies in data outside every code range. |
| `Audit.CleanEntries` | tools/codegen_audit.py:240-243 | Under CLEAN the compiled entries are, up to aliases, exactly those of the range manifest, all dispatched and none dynamic. |

## Left out

- JumpTable.IdiomFoundIff: the index is scaled by a shift between the bound check and the addition, and no word between them disturbs a register in use or looks like part of the idiom; other ways of forming the address are only known to yield targets in the function.
- InventoryWalker.WalkersAgree: speaks of reachable code that both tools classify alike, without indirect jumps into a recovered table; the tools differ by design on branch-likely and coprocessor branches and on jump tables.
- Classifier.JalClosure: needs the root to be harmless up to the region end, since another walk under a lower cap may expand code that the earlier walk lost.
- CacheProtocol.EveryScheduleAgrees: captures have distinct keys, each manifest is written atomically and no worker raises; recompiling and compiling are functions of the capture and its prior manifest that may fail.
- SliceWalker.SliceMeaningIff: slices that end in RFE, a COP1 branch or a reserved instruction have no reference meaning here.
- BasicBlocks.GraphSimulatesIff: calls return, runs stop at `jr` and `jalr`, and nothing is said once a transfer executes in another's delay slot, which the R3000A leaves undefined.
- BasicBlocks.ClosedIff: assumes a text size of whole words and static targets at words, as an aligned load address gives; `BasicBlocks.DecodedEdgesIff` needs neither.
- OverlayWalker.VisitedExactIff: the exact condition ranges over what walks can steal together; what can be read off paths alone is the sufficient `OverlayWalker.HarmlessWalk` and the necessary `OverlayWalker.ExactNeedsNoStolenWord`.
- Manifest.HexRoundTrip: numbers are read as plain digits; Python's signs, prefixes and underscores, which the writer never produces, are errors here.
- Normalise.NormalIsIdempotent: the stated condition is sufficient, not necessary.
- What single instructions compute (ALU bits, load delay, memory, traps, cycle hooks) is a parameter shared by the emitted code and the reference machine.
- 32-bit wrap-around of addresses in the slice walker and of branch targets: ROM and RAM images lie far from the end of the address space.
- Reading captures and TOML: their sets and lists are inputs of the model.
- The interior-fragment pass, the static build mode, forced rebuilds and torn manifest reads.
- Rewriting and auditing generated C text, and running compilers and subprocesses.
- Parsing the generated C text in tools/codegen_audit.py: its sets of names and addresses are inputs of the verdict.
- `build_block` in recompiler/src/basic_block.cpp, which the analyser does not call.
- Collision resistance of CRC-32, beyond single changed bytes, and of SHA-1: distinct variants are taken to have distinct keys.
- Sockets, JSON parsing of a framed reply, configuration loading, audio, video, controllers, user interface and the analysis scripts for one game or BIOS.
