# riscvlint, modelled and proved

riscvlint reads RV64 code in one linear sweep and names rewrites that, it says, change
nothing. This project models the analyses behind those claims over a small RV64 machine
and proves the claims over whole runs of it.

**The machine** (`Machine`) has a program counter, 32 integer and 32 floating-point
registers, a byte memory and a program that maps an address to a decoded instruction and
its length. Meanings follow The RISC-V Instruction Set Manual, Volume I (20191213),
sections 2.4 to 2.6, 5.2 and 5.3. Words are integers below 2^64 with every wrap-around,
sign extension and truncation written out (`Words`). A rewritten program keeps its
addresses: a deleted instruction becomes a `Nop` of the same length, and where several
take one place they are a `Then`. `Run(p, s, n)` is the state after `n` steps; an indirect
jump goes on only if it lands in `p.landings`.

**How the parts build on one another**

- `Liveness`: the bounded walk, and what its DEAD answer means for two runs that differ in
  one register. `WalkLimits`: when it answers at all. `DeletionChecks`, `Threading`,
  `MatcherState` and `FusionScan` ask it.
- `Window`, `Sweep`, `WindowState`: the windowed table of slots, constants and
  computations, true at every reachable state; `WindowChecks` and `DeadStore` read it.
  `WindowExact`, `WindowFindings`: all that stands in it, and all that is found.
- `Deletion`, `DeletionChecks`, `ImmediateForms`, `Encoding`: deleting a copy, zero,
  constant, mask or dead definition and rewriting its readers, priced in encoded bytes.
  `Li`: the shortest build of a constant. `DeletionFinds`, `ChainFinds`: which are found, over
  the straight lines of `Lines`.
- `Threading`, `ThreadFinds`, `CrossJump`, `CrossLongest`: transfers sent past jumps, as many
  as can be, and tails hoisted to their label, the longest there are.
- `SpShift`, `SpRuns`, `SpFindings`, `SpScan`, `SpTogether`: stack adjustments merged, the
  marks that keep one from being counted twice, and all findings of a scan at once.
  `SpExtent`, `SpScanFinds`: how far a run goes, and that none is passed over.
- `ZeroCover`, `ZeroRun`, `ZeroRunFinds`: the aligned cover of a run of zero stores, and the
  runs found.
- `Popcount`, `Matcher`, `MatcherState`: the longhand bit count, its stages, the matcher's
  tables and its check. `MatcherFinds`: the bit counts it recognises. `MatcherExact`,
  `MatcherPrograms`: exactly when a count it reports is right, and two programs on which it
  is not.
- `ConstSteps`, `ConstChains`, `ConstChainsExact`, `Guarantees`, `GuaranteesExact`: constants
  in flight and the high bits of results, true and complete.
- `Fusion`, `FusionExact`, `Reorder`, `Moves`, `Mending`, `FusionScan`, `FusionMisses`: which
  adjacent instructions fuse, pairing them, near misses, which of them can be mended, the ring
  they are judged over, and that none is missed.
- `Symbols`: the sorted symbol index against a walk of every symbol.

**Most of what is proved of an analysis is a pair**: what it reports is right, and it reports
all there is, said over the decoded instructions of a line and not over the analysis.

**Where the code does not do what is said of it**, the code is modelled as it is, a lemma
gives the input, and the exact condition is proved:

- The walk takes a target of 0 for no target. Where it answers DEAD the register is dead
  exactly when it is dead at 0 too, if a branch that is reached goes there
  (`AnsweredIsDead`); `BranchToZeroIsMissed` is a program it answers DEAD on wrongly. The
  deletions, threading, renames and bit counts that rest on such an answer take it that
  this is so where they asked, and no more: `NoneGoesThere` has it wherever no conditional
  branch of the program goes to 0.
- A load into x0 leaves a held record. The bit cast is right exactly when the record it is
  read off is not one (`BitcastRight`); `X0CastMisleads` is a program on which it is
  reported, and differs exactly where the word loaded is not zero.
- `slli.uw` and `shNadd.uw` are given the sign-extended guarantee. `ExactlyThen` says which
  instructions' guarantees always hold; `ShiftMisreports` is a program on which an extension
  after `slli.uw` is reported and is no copy. `SureAt` is the part of the table that rests on
  none of the two, all of it where a program has neither (`SureIsPart`). Bytes that do not
  decode leave the table standing: that part is true in every run exactly when it is empty
  wherever a run may begin (`BitsAreTrue`); `GapKeepsBits` is a section where it is not.
- The matcher keeps stages whose source a stage of another sequence, or their own mask, has
  overwritten, and joins halves of different sequences. In every run a closing shift adds
  up, digit by digit, what the four subtractions left (`CountIs`), which is the bit count
  where nothing writes the source from the first shift on to the others and to the
  subtractions (`CountIsRight`). That condition is necessary too, of what stands at the
  shift whatever came before it on the line: for a finding resting on one subtraction, where
  between shift and subtraction only opening shifts and first masks make the source's value
  out of what was read (`SourceMatters`); and for one joined from two sequences of one
  source, the first the only one begun on its line before the second (`HalvesMatter`). In
  both the source is not a known constant at the shift. `SourceOverwritten` and
  `HalvesMixed` are whole programs the check reports and whose counts are wrong. For a
  source that is itself a stage it need not be necessary: `MaskedAlready`.
- The comment at riscvlint.c:3518-3523 says the store count never decides alone. It does
  (`CountAloneDecides` is a program), and `PriceDecides` says exactly when not: always for
  aligned runs, runs off the frame pointer, and runs off sp that end below 4 or begin above
  504, where no store is of two bytes (`AlignedDecides`). A cover can also need an
  offset of 2048 or more, which no store has: exactly when the range ends above 2048
  (`CoverReaches`); `ReportedOutOfReach` is a program reported all the same.
- Not every near miss of fusion can be mended. A rename of `mul` + `add rd,d,d` does not
  make the pair fuse (`RenameMends`). Moving an instruction past an `auipc`, or an `auipc`
  past others, changes what it computes: a half can be sunk exactly when it is no `auipc`
  and every address formed on the way is written over unused (`SinkExactly`), and hoisted
  exactly when the second holds (`HoistExactly`), wherever each such address is written over
  unused, or kept with constants added to it at most, or loaded through with what is loaded
  kept and no store before. Where nothing between forms an address none of this is asked
  (`PlainExactly`). `MendedExactly` puts these together.

## Model

| member | source | states |
|---|---|---|
| Machine.EffectIgnores | riscvlint.c:2061-2087 | a register an instruction does not read cannot influence what it does, which is what the recorded read and write sets are trusted for |
| Liveness.WalkSound | riscvlint.c:2098-2160 | the worklist invariant: what was walked is closed up to what is queued, and everything queued is reachable |
| Liveness.WalkAnswers | riscvlint.c:2098-2160 | DEAD only over a closed set of addresses all of them reached, READ only when a reading instruction is reachable |
| Liveness.WalkPath | riscvlint.c:2117-2157 | one path with its budget and queue in bounds, as the specification gives it |
| Liveness.Walk | riscvlint.c:2098-2160 | terminates within 96 instructions and 16 paths with the specified answer, DEAD and READ meaning what they say |
| Liveness.WalkMissesOnlyZero | riscvlint.c:2040-2048 | the walk follows every successor of an instruction exactly when it is no branch to address 0 |
| Liveness.WalkIsClosed | riscvlint.c:2145-2155 | the walked set is closed under the machine's control flow exactly when no branch of it to 0 was left out |
| Liveness.DeadExactly | riscvlint.c:2145-2155 | where the walk closed over a set it reached, the register is dead there exactly when it is dead at 0 whenever a walked branch goes to 0 |
| Liveness.AnsweredIsDead | riscvlint.c:2098-2160 | wherever DEAD is answered the register is dead exactly when it is dead at 0 whenever a branch reached goes there |
| Liveness.NoneGoesThere | riscvlint.c:2145-2155 | that holds of every answer where no conditional branch of the program goes to 0 |
| Liveness.DeadRunsAgree | riscvlint.c:2098-2160 | two runs that differ in a dead register go in lock step, equal from the first write on |
| Liveness.DeadIsInvisible | riscvlint.c:2098-2160 | whatever a dead register holds, the rest of the run is the same but for it |
| Liveness.BranchToZeroIsMissed | riscvlint.c:2145-2155 | a program on which the walk answers DEAD of a register that is not: two runs that differ in it come to differ elsewhere |
| WalkLimits.UnknownMeans | riscvlint.c:2098-2160 | UNKNOWN only where something the walk does not follow is reached, or distinct starts reached go over its 16, its 96 instructions or its queue; a start reached again costs nothing |
| WalkLimits.WalkDecides | riscvlint.c:2098-2160 | where the distinct starts reached are within those limits and nothing of that kind is reached it answers, READ exactly where a read is reached |
| WalkLimits.ClosedIsFound | riscvlint.c:2098-2160 | over any closed set whose starts are within the limits it answers DEAD, loops and meeting paths included |
| Window.SlotFor | riscvlint.c:2384-2395 | a record's place: its own, else one past the end |
| Window.SlotsAfter | riscvlint.c:2548-2656 | held slots stay true over register writes, overlapping and aliasing accesses, and the record added is true |
| Window.ConstsTrue | riscvlint.c:2663-2669 | each constant still live equals its register |
| Window.CompsTrue | riscvlint.c:2671-2681 | each computation still live equals its operation on its present sources |
| Window.ObservedTrue | riscvlint.c:2521-2727 | one instruction keeps the whole table true |
| Sweep.TransferLands | riscvlint.c:1626-1715 | a taken direct transfer lands on a side entry |
| Sweep.TargetsExactly | riscvlint.c:1700-1715 | the side entries are the places of the section a branch, jump or call goes to, and no others |
| Sweep.StepKeepsTrue | riscvlint.c:2722-2726 | a step that falls through keeps the table, one that does not lands where it is empty |
| Sweep.WindowIsTrue | riscvlint.c:2521-2727 | at every state of every run the table held for that address is true |
| WindowState.WindowTable.Observe | riscvlint.c:2521-2727 | the tables updated in place step by step are the specified table |
| WindowState.WindowTable.Record | riscvlint.c:2384-2395 | a record goes to its place and nothing else moves |
| WindowState.WindowTable.Ask | riscvlint.c:2824-3199 | each check's loop over the slots or registers gives the specified verdict |
| WindowExact.SlotsExact | riscvlint.c:2521-2656 | the slots at an address are exactly the accesses of its line whose record stands or is unread: those after spare it, and it was among the first 24 places |
| WindowExact.RoomAlong | riscvlint.c:2384-2395 | every access of a line of at most 24 places has room |
| WindowExact.ConstsExact | riscvlint.c:2663-2669 | a register has a constant exactly when one was put in it on the line and it was not written since |
| WindowExact.CompsExact | riscvlint.c:2671-2681 | a register has a computation exactly when it was done into it on the line and neither it nor a source was written since |
| WindowState.Scan | riscvlint.c:8099-8130 | the sweep reports exactly the findings of the seven checks, dropping the table at bytes that do not decode |
| WindowChecks.ReloadRight | riscvlint.c:2824-2857 | a reload of a held value is the move it becomes |
| WindowChecks.ForwardRight | riscvlint.c:2859-2947 | a load of stored bytes is the one extension it becomes |
| WindowChecks.StillHeldRight | riscvlint.c:2949-2995 | a repeated load into the same register does nothing |
| WindowChecks.SilentRight | riscvlint.c:3033-3096 | storing back what a slot holds does nothing |
| WindowChecks.ConstRematRight | riscvlint.c:3098-3137 | rebuilding a constant another register holds is a move |
| WindowChecks.CompRematRight | riscvlint.c:3139-3199 | redoing a computation a register holds is a move or nothing |
| WindowChecks.BitcastRight | riscvlint.c:3544-3605 | the bit cast is right wherever the record is true exactly when the record is of no load into x0 |
| WindowChecks.X0LoadMisleads | riscvlint.c:3578-3590 | where the record is of such a load the bit cast leaves another state |
| WindowChecks.RewritingRight | riscvlint.c:2824-3605 | every rewrite the table licenses leaves the same state wherever the table is true |
| WindowFindings.ReloadsExactly | riscvlint.c:2824-2857 | a reload becomes a move exactly where a load of the place, of its register, stands on the line |
| WindowFindings.ForwardsExactly | riscvlint.c:2859-2947 | a load is forwarded exactly where a store of its bytes stands and no load of the place since, as the extension there is one instruction for |
| WindowFindings.FormsExactly | riscvlint.c:2859-2886 | the widths and extensions for which there is one, and which |
| WindowFindings.SameLoadsExactly | riscvlint.c:2949-2995 | a load is of what is held exactly where one of the same bytes into the register stands |
| WindowFindings.SilentExactly | riscvlint.c:3033-3096 | a store is silent exactly where an access of that kind holds its register, the place being written over by none since |
| WindowFindings.CastsExactly | riscvlint.c:3560-3605 | a load is a bit cast exactly where the first access standing at its place is a store of the other file |
| WindowFindings.CastFormsExactly | riscvlint.c:3544-3558 | of which widths |
| WindowFindings.ConstsAgainExactly | riscvlint.c:3098-3137 | a constant is rebuilt exactly where another register holds it |
| WindowFindings.CompsAgainExactly | riscvlint.c:3139-3199 | a computation is redone exactly where some register holds it |
| WindowState.RewritesPreserveRuns | riscvlint.c:8054-8130 | all findings of the scan, or any of them, carried out at once leave every run as it was, state by state, if no bit cast is read off a load into x0 |
| WindowState.X0CastMisleads | riscvlint.c:3578-3590 | a program whose load into x0 makes the sweep report a bit cast; original and rewrite differ exactly where the word loaded is not zero |
| DeadStore.CheckDeadStore | riscvlint.c:2997-3031 | the first unread record the store covers |
| DeadStore.UnreadMeans | riscvlint.c:2585-2656 | an unread record: nothing since the store read the slot, moved its base or left the line |
| WindowFindings.DeadExactly | riscvlint.c:2997-3031 | a store is dead exactly where one before it on the line wrote the same bytes and everything between passes it by |
| DeadStore.DeadStoreIsInvisible | riscvlint.c:2997-3031 | runs with and without the dead store differ in the slot's bytes until it is overwritten and nowhere else |
| Deletion.StepOnLine | riscvlint.c:7576-7650 | one rewritten instruction of the line keeps the two runs apart in the deleted register only |
| Deletion.DeletionIsInvisible | riscvlint.c:6471-7650 | with a definition deleted and its readers rewritten, runs differ in that register only, and there only while it is dead or rewritten |
| DeletionChecks.CheckDeadDef | riscvlint.c:3628-3655 | deletes exactly the pure definitions outside sp, gp and tp whose register is answered DEAD |
| DeletionChecks.CopyFromSound | riscvlint.c:7590-7627 | along the line from a copy to its reader, the copy can be deleted and the reader name the source |
| DeletionChecks.CheckCopyForReader | riscvlint.c:7576-7650 | deletes exactly the copies the specified walk settles, each of which can go |
| DeletionFinds.CopiesExactly | riscvlint.c:7576-7650 | a copy goes exactly where within 32 instructions one is its last reader and all before it let it pass, and that reader is renamed |
| DeletionChecks.ZeroStoresSound | riscvlint.c:6485-6519 | the stores walked can name x0, whatever stands between them |
| DeletionChecks.CheckZeroForStore | riscvlint.c:6471-6531 | deletes exactly the zeros the specified walk settles and that save bytes, each of which can go |
| DeletionFinds.ZerosExactly | riscvlint.c:6471-6531 | a zero goes exactly where the stores of it on the line of 16 that follows are fewer bytes with x0 and it is dead after the last, all of them rewritten |
| DeletionChecks.ConstUsesSound | riscvlint.c:6939-6969 | the uses walked can take the constant as an immediate, and one that writes the register ends it dead |
| DeletionChecks.ConstUseWalk | riscvlint.c:6939-6969 | the uses specified: how many, their forms, their bytes before and after, where the last ends, how far that is and whether it wrote the register |
| DeletionChecks.CheckConstForImm | riscvlint.c:6974-6990 | deletes exactly the constants the specified walk settles and that save bytes, each of which can go |
| DeletionFinds.TakesExactly | riscvlint.c:6811-6898 | which operations take which constants as an immediate, alone among their operands |
| DeletionFinds.ConstsExactly | riscvlint.c:6939-6990 | a constant goes exactly where its uses on the line of 16 that follows, up to one that writes it, are fewer bytes with the immediate and it is dead after the last, all of them rewritten |
| DeletionChecks.BuildSound | riscvlint.c:7033-7052 | the chain followed builds the constant it is said to, and each of its steps can go |
| DeletionChecks.CheckMaskForZext | riscvlint.c:7021-7060 | deletes exactly the mask chains the specified walk settles and that save bytes, each of which can go |
| ChainFinds.MasksExactly | riscvlint.c:7021-7060 | a mask goes exactly where all the steps of its chain leave a mask of low bits no immediate holds, and its uses as above are fewer bytes as extensions or shifts |
| DeletionChecks.DeletableIsInvisible | riscvlint.c:6471-7650 | each of these deletions is invisible over whole runs |
| ImmediateForms.MaskIff | riscvlint.c:6877-6881 | `m & (m + 1)` finds exactly the masks of the low bits |
| ImmediateForms.ShiftPair | riscvlint.c:6882-6890 | left then right by 64 - n keeps the low n bits |
| ImmediateForms.ImmFormRight | riscvlint.c:6811-6898 | the immediate form does what the register form does while the register holds the constant |
| ImmediateForms.ImmFormShape | riscvlint.c:6811-6898 | it no longer reads the constant's register and writes what the use wrote |
| Li.ChainEffect | riscvlint.c:5698-5740 | a chain sets its register to its value and nothing else |
| Li.PlanAchieves | riscvlint.c:5790-5818 | for every 64-bit value the recurrence is a chain that evaluates to it |
| Li.PlanBounded | riscvlint.c:5790-5818 | of one to eight instructions, no shift above 63 |
| Li.DropZeros | riscvlint.c:5809-5811 | the trailing-zero loop ends with the odd part |
| Li.LiPlan | riscvlint.c:5790-5818 | the count and the price are those of that chain |
| Li.LongLiIsRight | riscvlint.c:5820-5865 | a reported chain builds the value the recurrence builds in strictly more instructions, with no side entry inside |
| Li.CheckLongLi | riscvlint.c:5820-5865 | reports exactly the chains longer than the recurrence and no cheaper |
| ChainFinds.LongExactly | riscvlint.c:5820-5865 | a chain is reported exactly where the constant and all its steps, to the first that is none, are more instructions than the recurrence and no fewer bytes |
| Threading.FollowSound | riscvlint.c:7144-7180 | every jump followed leads where it says, within the transfer's reach, past registers answered DEAD |
| Threading.CheckTransferToJump | riscvlint.c:7125-7194 | follows as many of up to eight jumps as that allows, and reports exactly then, standing down for a branch over a jump that can be folded |
| ThreadFinds.ThreadsExactly | riscvlint.c:7096-7194 | a transfer is reported exactly where there is a jump to pass, near or far, and sent past as many as can be passed one after another, up to eight |
| Threading.AllDead | riscvlint.c:7168-7173 | all the registers the skipped jumps wrote are answered DEAD |
| Threading.TransferSteps | riscvlint.c:7125-7194 | the retargeted transfer goes where the jumps led, or falls through as before |
| Threading.ThreadingPreserves | riscvlint.c:7087-7194 | the threaded program matches the original forever but for registers dead there |
| CrossJump.JumpsOf | riscvlint.c:1657-1700 | all direct jumps to a label in address order, and whether anything else goes there |
| CrossJump.OneMore | riscvlint.c:7392-7425 | the tail grows by an instruction exactly when all sites agree on it and none of the tops is a side entry |
| CrossJump.LongestRepeats | riscvlint.c:7385-7430 | the tail built stands before every site |
| CrossJump.CheckCrossJump | riscvlint.c:7315-7447 | reports exactly the longest tail repeated before every jump to a label that nothing else comes to and every jump still reaches |
| CrossLongest.RepeatsExactly | riscvlint.c:7385-7425 | a tail repeats before a jump exactly where its instructions stand there one after another, none a transfer or an `auipc`, nothing coming in below its top |
| CrossLongest.LongestIsLongest | riscvlint.c:7385-7430 | the tail built is the longest of at most 32 instructions that stands before every jump, empty only where none does |
| CrossLongest.ReportedExactly | riscvlint.c:7315-7447 | a finding is made exactly where such a tail is worth a jump and reaches, from the first jump to a label nothing else comes to; its tail is the longest and its sites are all |
| CrossJump.OnlySitesArrive | riscvlint.c:7345-7378 | control comes to the label from the jumps alone |
| CrossJump.EntersFromAbove | riscvlint.c:7392-7425 | the inside of a tail is entered from the instruction before it |
| CrossJump.HoistingIsInvisible | riscvlint.c:7315-7447 | with one copy at the label for all, the runs are the same outside tails and label, and inside behind by the part of the tail done |
| SpShift.ShiftedEffect | riscvlint.c:6190-6195 | an instruction re-offset for a moved sp does what it did, sp moved |
| SpShift.RestackingIsInvisible | riscvlint.c:6181-6289 | a stretch whose adjustments are moved is the same run outside it |
| SpRuns.PushWalkSound | riscvlint.c:6209-6265 | the push walk accounts for every instruction up to the run's end |
| SpRuns.PushRestacks | riscvlint.c:6268-6279 | one adjustment by the total, accesses re-offset by what followed them, is such a stretch |
| SpExtent.PushGoesFar | riscvlint.c:6209-6265 | every reservation and access of a line of at most 64 instructions, 32 accesses and 2048 bytes that nothing on it stops is in the run |
| SpFindings.ReleaseWalkSound | riscvlint.c:6315-6375 | the release walk too, up to its last release |
| SpFindings.ReleaseRestacks | riscvlint.c:6378-6391 | one release at the last place, accesses re-offset by what preceded them, is such a stretch |
| SpExtent.ReleaseGoesFar | riscvlint.c:6315-6375 | and of releases, up to 2047 bytes |
| SpExtent.PairsExactly | riscvlint.c:6417-6440 | a pair is a release with a reservation next after it, no side entry between |
| SpFindings.PairRestacks | riscvlint.c:6417-6465 | a release and the reservation after it are their net |
| SpFindings.EditsFit | riscvlint.c:6271-6277 | every instruction a finding puts in place fits its immediate |
| SpFindings.FindingIsInvisible | riscvlint.c:6196-6465 | carrying out a finding leaves every run the same outside the stretch |
| SpScan.Scanner.CheckPushRun | riscvlint.c:6196-6289 | the finding and the mark specified |
| SpScan.Scanner.CheckReleaseRun | riscvlint.c:6302-6399 | the finding and the two marks specified |
| SpScan.Scanner.CheckReleaseReserve | riscvlint.c:6417-6465 | asks the push check and puts its mark back |
| SpScan.NothingCountedTwice | riscvlint.c:6401-6416 | over a whole scan no adjustment belongs to two findings, and every finding is genuine |
| SpExtent.PushIsReported | riscvlint.c:6196-6289 | such a run with two reservations is reported where what it becomes fits and is fewer bytes |
| SpExtent.ReleaseIsReported | riscvlint.c:6302-6399 | and one of releases |
| SpScanFinds.ScanFinds | riscvlint.c:8099-8130 | over a whole scan every reservation and release is in a run judged, reported if it pays, and every pair that pays is reported but where a half of it belongs to one |
| SpScan.Scanner.Scan | riscvlint.c:8099-8130 | the scan's findings are those, pairwise disjoint |
| SpTogether.StretchesApart | riscvlint.c:6401-6416 | findings that share no adjustment share no address |
| SpTogether.AllAreInvisible | riscvlint.c:6196-6465 | any such findings carried out at once leave every run the same outside their stretches, and inside but for sp |
| SpTogether.ScanIsInvisible | riscvlint.c:8099-8130 | so do all findings of a whole scan |
| ZeroCover.Cover | riscvlint.c:3426-3438 | the count and the price of the greedy cover |
| ZeroCover.GreedyTiles | riscvlint.c:3418-3425 | the cover tiles the range exactly with aligned stores, for all integers |
| ZeroCover.GreedyIsMinimal | riscvlint.c:3418-3425 | no tiling has fewer stores or fewer bytes, and one with as few stores is the cover |
| ZeroRun.AbuttingZero | riscvlint.c:3495-3511 | stores that abut at either end zero exactly the range they make up |
| ZeroRun.ZeroMark.CheckZeroStoreRun | riscvlint.c:3472-3530 | the finding and the mark specified |
| ZeroRun.ReportedRun | riscvlint.c:3472-3530 | a finding is a run of abutting zero stores with a shorter cover, beginning at or after the mark |
| ZeroRunFinds.RunsExactly | riscvlint.c:3472-3532 | a run is reported exactly where the whole of it, every abutting store until one is not, is more stores and more bytes than its cover |
| ZeroRunFinds.MarkGoesToEnd | riscvlint.c:3484-3511 | the next run may begin where that one ends |
| ZeroRun.CoverIsInvisible | riscvlint.c:3472-3530 | with the cover in the run's place every run goes on as before |
| ZeroRun.PriceDecides | riscvlint.c:3516-3524 | for every run, a cheaper cover is a shorter one exactly when the cover is shorter or has not two-byte stores to spare |
| ZeroRun.AlignedDecides | riscvlint.c:3516-3524 | it is for aligned stores, no tiling costing less than the cover, for any off the frame pointer, and for any off sp that end below 4 or begin above 504 |
| ZeroRun.CountAloneDecides | riscvlint.c:3516-3524 | a program of two misaligned stores whose cover is cheaper and whose count alone stands the check down |
| ZeroRun.CoverReaches | riscvlint.c:3472-3530 | the cover's offsets fit exactly when the range ends by 2048 |
| ZeroRun.ReportedOutOfReach | riscvlint.c:3472-3530 | a program the check reports whose cover has a store that cannot be encoded |
| Popcount.FirstStage | riscvlint.c:4125-4140 | x less its halved odd bits counts each pair |
| Popcount.SecondStage | riscvlint.c:4125-4140 | the two masked halves, of one value or of two, add a low and a high digit in each nibble |
| Popcount.ThirdStage | riscvlint.c:4125-4140 | the masked sum has in each byte a digit of every one of four values |
| Popcount.ClosingCounts | riscvlint.c:4119-4152 | whatever four subtractions left, the closing shift leaves digit k of each byte of the k-th, added up |
| Popcount.SequenceCounts | riscvlint.c:4119-4152 | the closing shift leaves the number of set bits, of all 64 or of the low 32 whatever is above |
| Matcher.AdvanceRight | riscvlint.c:4376-4490 | an advance leaves the stage it claims, of what its one or two entries come from |
| Matcher.LineIsTrue | riscvlint.c:4323-4490 | at every address of a line, passed from any other in any state its known constants are true of, known constants are true and every entry begun since holds its stage of the subtractions it rests on, whichever these are |
| Matcher.CountIs | riscvlint.c:4494-4526 | a closing shift adds up the digits of what the four subtractions left, from every state at any address before its shifts |
| Matcher.ComesAlong | riscvlint.c:4323-4490 | in every run control has come to where the tables stand along that line |
| Matcher.CountIsRight | riscvlint.c:4494-4526 | in every run the same, and where nothing writes the source meanwhile the number of bits it had at the first shift |
| Matcher.CountsInPlace | riscvlint.c:4494-4526 | where nothing has written it since, the closing shift does to the whole state what counting its bits there would |
| Matcher.AlwaysTwelve | riscvlint.c:4266-4288 | however the instructions are interleaved a finding counts twelve |
| MatcherState.PopcountTables.KillRegister | riscvlint.c:4215-4223 | an unrelated write takes the register's entry and every stage computed from it |
| MatcherState.PopcountTables.Observe | riscvlint.c:4323-4490 | the tables updated in place are the specified ones |
| MatcherState.PopcountTables.CheckSwarPopcount | riscvlint.c:4494-4526 | the specified answer: a product of the closing shift's width, at no side entry, its source dead if written over |
| MatcherFinds.Recognised | riscvlint.c:4323-4526 | the twelve operations in any registers, of either width, either way round, with anything between that leaves their results alone, are found with their source, width and start, unless the source is written over and not answered DEAD |
| MatcherFinds.KnownExactly | riscvlint.c:4329-4360 | after an instruction the constants known are those there were less its destination, and what it makes of them |
| MatcherState.ReportsTwelve | riscvlint.c:4517-4526 | every finding counts twelve instructions |
| MatcherExact.CleanCount | riscvlint.c:4433-4458 | where each subtraction is from what its own shift read, the count has pair k of every byte from the k-th of these values |
| MatcherExact.SourceMatters | riscvlint.c:4433-4440 | a finding of one subtraction, nothing but opening shifts and first masks having made the source's value there of what its shift read, is right whatever that read exactly when nothing writes its source between the two |
| MatcherExact.HalvesMatter | riscvlint.c:4448-4458 | a finding joined from two sequences of one source, the first the only one begun on its line before the second, is right whatever the first shift reads exactly when nothing writes the source between their shifts |
| MatcherExact.MaskedAlready | riscvlint.c:4433-4440 | stage one of what the first mask leaves is that value, so a source that is a stage can be written over unchanged |
| MatcherPrograms.SourceOverwritten | riscvlint.c:4433-4440 | a program whose bit count the check reports and which leaves 0 from every start |
| MatcherPrograms.HalvesMixed | riscvlint.c:4448-4458 | a program whose bit count the check reports and which leaves 1 for 12 |
| ConstSteps.StepRight | riscvlint.c:3681-3778 | a step computes on the register what it computes on the value |
| ConstSteps.MergeRight | riscvlint.c:3737-3768 | so does a composition of two |
| ConstChains.ChainsAreTrue | riscvlint.c:8392-8519 | at every state of every run each open chain's value is its register's |
| ConstChains.CountedAreTrue | riscvlint.c:8357-8362 | so is the value of each chain open after an instruction, once it is carried out |
| ConstChains.Conserved | riscvlint.c:8432-8515 | an instruction keeps every chain open or counts it, never both, but for one begun, copied or put together |
| ConstChains.CountedOnce | riscvlint.c:8369-8519 | over a section as many are counted as are begun or copied, less one for every two put together |
| ConstChainsExact.ChainsGoOn | riscvlint.c:8432-8515 | a constant's chain is open, from where it began and one longer for each step, as far as a straight line goes on with it in whatever register |
| ConstChainsExact.Joins | riscvlint.c:3737-3768 | a sum or union leaves one chain in place of two, as long as both |
| ConstChains.ChainScan.Observe | riscvlint.c:8432-8515 | the slots updated in place are the specified chains, and exactly the specified ones are counted |
| ConstChains.ChainScan.Scan | riscvlint.c:8369-8519 | exactly the chains specified are counted, one for every chain there was, each of them open after some instruction of the section |
| Guarantees.Closures | riscvlint.c:895-905 | the closures, and that zero-extension to 32 gives sign-extension exactly below 2^31 |
| Guarantees.RangeFits | riscvlint.c:911-925 | a range of the signed value gives its bits |
| Guarantees.ExactlyThen | riscvlint.c:927-1027 | an instruction's bits are true of its result in every state exactly when it is not one of the two that overclaim |
| GuaranteesExact.KnowsExactly | riscvlint.c:927-1027 | of loads, constants, masks, extensions and `addiw` the bits recorded are all that always hold, but S16 of a byte loaded or masked in two bytes |
| GuaranteesExact.WordsRecorded | riscvlint.c:927-1027 | of every other operation on words, that it is sign-extended |
| Guarantees.SureIsPart | riscvlint.c:927-1027 | the bits that rest on no overclaim are part of the table, and all of it in a program with none |
| Guarantees.BitsAreTrue | riscvlint.c:2249-2317 | each bit resting on no overclaim is true at every state of every run exactly when none is held wherever a run may begin |
| Guarantees.ExtensionCopies | riscvlint.c:1029-1085 | an extension leaves its source as it was exactly when the source fits |
| Guarantees.RedundantIsInvisible | riscvlint.c:2249-2317 | a redundant extension of what rests on no overclaim, as a copy or gone, leaves every run as it was |
| Guarantees.GuaranteeTable.CheckRedundantExtension | riscvlint.c:2249-2317 | reports exactly the redundant extensions and carries the table on |
| GuaranteesExact.BitsExactly | riscvlint.c:2249-2317 | a bit is held exactly when it was recorded of what was last written to the register, no side entry or transfer between |
| GuaranteesExact.RedundantExactly | riscvlint.c:2249-2317 | an extension is reported exactly where the bit it would give is |
| Guarantees.ShiftMisreports | riscvlint.c:929-1027 | a program whose extension after `slli.uw` is reported, and which leaves another value with a copy in its place |
| Guarantees.GapKeepsBits | riscvlint.c:8099-8103 | bytes that do not decode leave the table standing where a run may begin |
| Fusion.GreedyIsBest | riscvlint.c:10114-10141 | for each core greedy pairing in address order is a set of disjoint fusible pairs and none is larger |
| Fusion.NoneBetter | riscvlint.c:10114-10141 | no choice of disjoint pairs beats the greedy count on any prefix |
| Fusion.PairedOnce | riscvlint.c:10126-10139 | no instruction is in two pairs of a core |
| FusionExact.FusesExactly | riscvlint.c:9851-9920 | of each of the twelve pairs which two decoded instructions fuse |
| FusionExact.RenamesExactly | riscvlint.c:9926-9936 | which would with another destination |
| FusionExact.SwapsExactly | riscvlint.c:9924-9937 | which would with their operands the other way round |
| FusionExact.TakesExactly | riscvlint.c:9851-9938 | and which any pair of a core takes |
| FusionScan.FusionReport.Rotate | riscvlint.c:10113-10117 | the oldest slot becomes the newest, the others move back one |
| FusionScan.FusionReport.PairUp | riscvlint.c:10126-10139 | every core not used yet is counted once, under its first pair |
| FusionScan.FusionReport.Decode | riscvlint.c:10111-10143 | the ring holds exactly the latest instructions, newest first, each with the cores that fused it |
| FusionScan.CellsAddUp | riscvlint.c:9975-9980 | a core's cells add up to the pairs it fuses |
| FusionScan.FusionReport.Scan | riscvlint.c:10071-10145 | the cells count the pairs, each core's the most it could fuse, gaps included; the misses are those of each instruction in turn, each standing in the section and mended exactly if mendable |
| FusionScan.MissesSound | riscvlint.c:9996-10069 | every miss has passed the test of its kind and is mended exactly if mendable; each core misses once and never a half it has fused |
| FusionScan.WalkBack | riscvlint.c:10020-10068 | the walk back over at most seven instructions, its sums standing for what was passed |
| FusionScan.Misses | riscvlint.c:9996-10069 | exactly the specified misses, each mended exactly if mendable |
| FusionMisses.MissesExactly | riscvlint.c:9996-10069 | a core that did not fuse an instruction misses exactly where there is a swap, a rename or a split within seven to be found |
| FusionMisses.NearestFirst | riscvlint.c:10020-10068 | a split is reported only where no adjacent miss is, and at the nearest place |
| FusionScan.ScannedRename | riscvlint.c:9928-9934 | a rename found in a program's code leaves the rest of every run as it was but for the register answered dead |
| Mending.MendedExactly | riscvlint.c:9996-10069 | the change a miss is reported for makes its halves fuse and computes the same exactly when no product is added to itself and no address is formed elsewhere, where `SinkExactly` and `HoistExactly` decide |
| Reorder.SinkIsLegal | riscvlint.c:10038-10045 | past nothing that reads where it stands, a first half that is no `auipc` may be moved down |
| Reorder.HoistIsLegal | riscvlint.c:10038-10050 | past nothing that reads where it stands, the second half may be moved up |
| Reorder.AuipcMoves | riscvlint.c:10036-10050 | a fusible pair both of whose moves the test allows and both of which change an `auipc`'s result |
| Moves.SinkExactly | riscvlint.c:10038-10045 | moving the first half down leaves every state the same exactly when it is no `auipc` and every address formed on the way is written over unused, each being that, kept, or loaded through and the load kept |
| Moves.HoistExactly | riscvlint.c:10038-10050 | moving the second half up does, of the same, exactly when every address formed on the way is written over unused |
| Moves.PlainExactly | riscvlint.c:10038-10050 | past nothing that forms an address, the first half moves down unseen exactly when it is no `auipc`, and the second up always |
| Moves.SinkMovesAddress | riscvlint.c:10038-10045 | sunk past, an address that is kept comes out another from every state |
| Moves.HoistMovesAddress | riscvlint.c:10038-10050 | hoisted past, it does too |
| Reorder.SwapMends | riscvlint.c:9928-9936 | operands swapped, the pair fuses and computes the same |
| Reorder.RenameKeeps | riscvlint.c:9928-9934 | another destination leaves every other register and memory the same |
| Reorder.RenameMends | riscvlint.c:9926-9936 | the renamed pair fuses, but for a multiply added to itself |
| Symbols.Linear | main.c:838-843 | the walk of every symbol gives the highest covering one, the first listed on ties |
| Symbols.KeepCovers | main.c:805-812 | the inclusive range kept covers what the symbol covered; a size that carries past the top covers nothing |
| Symbols.SymIndex.Gather | main.c:782-831 | the entries are the symbols kept, in their order |
| Symbols.SymIndex.Sort | main.c:774-780 | sorted by address, then by order, the same entries |
| Symbols.SymIndex.Reach | main.c:833-835 | each reach is the greatest last address so far |
| Symbols.SymIndex.Build | main.c:782-837 | the index is the symbols kept, sorted, with their reach |
| Symbols.SymIndex.Search | main.c:847-859 | binary search and the backward walk find the best covering entry or that there is none |
| Symbols.SymIndex.Symbolize | main.c:844-863 | for every list and address the name and distance of the nearest covering symbol, none exactly when none covers |
| Symbols.NearestUnique | main.c:838-843 | there is only one nearest symbol |

## Left out

- Decoding: instructions arrive decoded with accurate register sets. Where one decoded form has several encodings that the code treats apart (`c.addi16sp` in the fusion decoder, implicit register fields of a copy's reader), the model has one.
- Indirect jumps: a run goes on only from landings that the theorems take as given, where the window is empty or outside the rewritten stretch, and at instruction starts of the sweep.
- Branches to address 0: what rests on a DEAD answer takes it that the register is dead at 0 if a branch that is reached goes there, which Liveness.AnsweredIsDead shows to be exactly what is missing.
- Environment instructions, CSR accesses, fences, atomics, vector code, floating-point arithmetic, interrupts, faults and other threads: not in the machine.
- Relocations: no instruction is relocated.
- MatcherFinds.Recognised: of sequences whose twelve operations write no x0 and whose masks are in registers known constant where they are used. What else the tables may join, the counts of two sequences mixed among them, is not characterised.
- WindowFindings.ReloadsExactly: of lines of at most 24 places, as are the others of WindowFindings that read slots; past that WindowExact.SlotsExact says which accesses have a record.
- Liveness.Walk: answers unknown at addresses the sweep begins no instruction at, where the code would decode on. The other walks stop there too.
- DeletionChecks.CheckCopyForReader: does not ask which encoded field names the register nor price the reader's wider form, so it reports more than the code does. The other deletion checks are priced.
- Matcher.CountIsRight: says nothing of entries that went through x0, whose shifts are hints; that its condition is necessary is proved for the findings of MatcherExact.SourceMatters and MatcherExact.HalvesMatter, not where three or more shifts or sources nest.
- Matcher: the rewrite of a bit count whose source is written over, which puts the count before the sequence, is stated as the value it computes; the sequence stays in place for other readers.
- CrossJump.JumpsOf: collects direct jumps only, as CrossJump.CheckCrossJump does for want of the others.
- CrossJump.CheckCrossJump: direct jumps only. A veneer's `auipc` would have to trade places with the tail, and nothing checks that the tail leaves its register alone. The copy stands at the label rather than before it, the addresses of everything else unchanged.
- Moves.SinkExactly: undecided where an address formed between the halves is read and then written over by something else than an addition to itself or a load through it that is kept and has no store before; whether the move shows then depends on what the reader computes.
- Moves.HoistExactly: undecided where Moves.SinkExactly is.
- Mending.MendedExactly: likewise.
- Reorder.SinkIsLegal: asks that no `auipc` be moved or passed, which the code's test does not; Moves.SinkExactly has those.
- Reorder.HoistIsLegal: asks that no `auipc` be passed; Moves.HoistExactly has those.
- Sorting in the library: `Symbols.SymIndex.Sort` stands for it with an insertion sort.
- Allocation failures, Go's own function table, several symbol tables but as one list, summary tables, hash tallies, profiles, text and JSON output.
- The decode cache: decoding is a function of the address.
- Peepholes over two or three adjacent instructions, the stack-pointer restore, the pool and compare-and-swap checks; of the branch-over-jump check only when it reports.
