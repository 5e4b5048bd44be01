# Horus, modelled and proved

Horus is a capability microkernel in C and Rust with Python tools that guard it. This project models
its hardest logic in Dafny and proves what that logic promises, for all inputs, runs and interleavings.
`dafny verify dfyconfig.toml` checks the whole project. Nothing here runs the original programs.

| part | files | what is proved |
|---|---|---|
| Capabilities | Capabilities, Revocation, Lineage, Reparenting, Overwriting, CapabilityRuns | over every run of the capability operations from boot: authority never widens, serials are identities, exactly when a revocation reaches a whole history and lasts, a task's death keeps lineages whole |
| Stack budget | Graphs, Tarjan, StackBudget | Tarjan's algorithm, the longest weighted path with recursion bounds, and end to end: "ok" means that no admissible call stack overflows |
| Lock order | LockClosure, LockNestings, LockRuns, LockBlindness, LockThreads, LockEarlyReturn | the closure, the simulation of bodies, exactly which nestings of runs with branches and early returns it finds, and for any number of interleaved threads: no circular wait |
| Partition tables | Bytes, Crc32, CrcBurst, DiskFile, Gpt, GptTable, GptImage, GptInstall | the kernel's reader, an image tool and the installer agree byte for byte, and any change within 32 consecutive bits of the entries is refused |
| Dispatch table | Conditionals, DispatchTable | a line-by-line stack machine computes the nested groups of the C preprocessor |
| Keyboard | Ps2, Keyboard, TerminalKeys | scancode bytes refine keystrokes, modifiers follow their history, keys survive escape sequences |
| File protocol | FsToken, FsWalk | tokens are a bijection, walk requests reach the server as they were asked |
| Smaller tools | ScratchDisk, ExitReason, DefaultTargets | a disk check that only the right write passes, a lossless death report, a least fixpoint |

Where a promise does not hold of the code as it stands, the code is kept, a concrete lemma shows where it
fails, and another states for all inputs exactly when it holds:

- Revocation of a whole subtree (claim S3 in SECURITY.md) follows the parent each capability names. Any write
  to an occupied slot can break that chain: mint, transfer, grant and token mint do not ask that their
  destination is empty, the kernel's own installs do not look at what is there, and closing a pipe end drops
  it whoever names it. `Overwriting.PlaceCompleteExactly` gives the condition for every write,
  `Overwriting.DeriveCompleteExactly` and `Overwriting.DropCompleteExactly` read it off the table, and
  `CapabilityRuns.RunCompleteExactly` and `CapabilityRuns.RevokedForGoodExactly` carry it over whole runs.
  `Overwriting.TransferOntoItself` and `Overwriting.MiddleEndClosed` are instances.
- The lock-order checker reads a body as one straight line. A body that drops its lock on an early return and
  again at its end, or that takes it through a wrapper, holds more than the checker thinks:
  `LockEarlyReturn.EarlyReturnsHideADeadlock` is a program that passes and can deadlock.
  `LockBlindness.CheckerSeesExactly` is the exact condition, `LockBlindness.BlindExactlyWhenEmpty` says where it is
  blind.
- The lock-order rules look at pairs of locks. `LockThreads.RulesAloneAllowRings` is a ring of three that passes
  both; `LockThreads.DeadlockExactlyWhenCyclic` is the exact condition.
- The installer plans for any 64-bit number of blocks and multiplies it unchecked. What it plans is found again exactly
  when `GptInstall.Readable` holds (`GptInstall.PlannedIsFound`), which every device with countable sectors meets;
  `GptInstall.HugeDiskIsMissed` is one beyond.
- `#else` twice in one group is accepted by the dispatch-table scan and not by the C grammar
  (`DispatchTable.RepeatedElseIsAccepted`, `DispatchTable.ReadOneWay`).
- `shift` and `ctrl` are described as "either key is down". `Keyboard.FlagAlwaysRightExactly` says for which streams
  they are that, `Keyboard.FlagCanBeWrong` gives an instance where not.
- A full-screen program reads back every key it is sent, but for Escape directly followed by `[` or `O` in
  one burst (`TerminalKeys.KeyComesBack`, `TerminalKeys.KeysComeBack`).

## Model

| member | source | states |
|---|---|---|
| Capabilities.FreshSerial | rust/src/capability.rs:367-380 | a new serial is above every one issued, outside the primordial range and never a wrap; 0 exactly when none is left |
| Capabilities.ChildRightsNarrow | rust/src/capability.rs:408-470 | the rights of a child are within its source's, whatever is asked for |
| Capabilities.Derive | rust/src/capability.rs:408-738 | refused without a trace exactly when a demand on source, destination or arguments fails or no serial is left |
| Capabilities.DeriveWrites | rust/src/capability.rs:408-738 | otherwise one slot is written, with a live child of the source under a serial never used before, and no other |
| Capabilities.ChildIsAttenuated | SECURITY.md:142-142 | delegation cannot widen authority: same type, no right the source lacks, the same object unless it is split, and a token it did not inherit means it cannot receive |
| Revocation.Sweep.MarkChildrenOf | rust/src/capability.rs:861-892 | marks exactly the unmarked children of a serial in every space, and counts the pipe ends among them |
| Revocation.Sweep.MarkDescendants | rust/src/capability.rs:958-1010 | the in-place fixpoint ends with exactly the descendants of the root marked |
| Revocation.Sweep.Empty | rust/src/capability.rs:1010-1044 | empties exactly the marked slots and the root's own |
| Revocation.Sweep.RevokeSubtree | rust/src/capability.rs:958-1044 | empties the root and its descendants, leaves every other slot, and counts every pipe end it empties |
| Revocation.Sweep.RevokeGlobal | rust/src/capability.rs:1271-1314 | refuses exactly slots out of range and the kernel's own roots; otherwise empties the capability and its subtree in every space |
| Revocation.MarksAreComplete | rust/src/capability.rs:958-1010 | when no mark is new, the marked capabilities are all of the descendants |
| Revocation.SweepOfMarksIsExact | rust/src/capability.rs:1010-1044 | sweeping complete marks removes the subtree and nothing else |
| Revocation.TargetThenSubtree | rust/src/capability.rs:1271-1314 | emptying the target before its subtree loses none of the subtree |
| Revocation.NoteConserves | rust/src/capability.rs:821-846 | for each pipe and direction, ends in slots plus ends counted stay the same when a slot is emptied; a tally that names one generation means that no end of another left its slot |
| Lineage.DescendantIsWithin | SECURITY.md:142-142 | a capability has the type of every capability it descends from, no right that one did not have, a token if that one had one, and its object unless that type is split, however long the chain |
| Lineage.DerivedIsDescendant | rust/src/capability.rs:861-892 | what a sweep finds descends from its root, whatever was written over |
| Lineage.LinkedIsComplete | SECURITY.md:143-143 | connected lineages make every sweep reach everything derived from its target |
| Lineage.DerivedExactly | rust/src/capability.rs:861-892 | while the promise holds, the subtree that badges describe is the subtree of the history |
| Lineage.PlaceLinkedExactly | rust/src/capability.rs:408-470 | writing a slot keeps all lineages connected if and only if no capability names the one written over |
| Lineage.DeriveLinkedExactly | rust/src/capability.rs:408-738 | the same for every kind of derivation |
| Lineage.RevokeReachesHistory | SECURITY.md:143-144 | revocation empties the target and everything ever derived from it, in every space, and leaves ancestors, siblings and peers |
| Lineage.RevokeKeepsLinked | rust/src/capability.rs:1271-1314 | after a revocation every survivor still names its nearest surviving ancestor |
| Lineage.RevokeKeepsComplete | SECURITY.md:143-143 | a revocation loses no later one anything, even where lineages are no longer connected |
| Reparenting.Collect | rust/src/capability.rs:1356-1446 | the serials and parents of the dying space's live slots |
| Reparenting.SortPairs | rust/src/capability.rs:1356-1446 | sorted by serial, and a permutation |
| Reparenting.Find | rust/src/capability.rs:1356-1446 | binary search finds a serial exactly when it is there |
| Reparenting.Climb | rust/src/capability.rs:1356-1446 | the first ancestor outside the dying space, and nothing for a capability whose parent is not dying |
| Reparenting.Teardown.ReparentDying | rust/src/capability.rs:1356-1446 | every capability that names a dying one is given its first ancestor that is not dying, and nothing else changes; with scratch space for fewer, the dying ones are the first that fit |
| Reparenting.Teardown.Release | src/kernel/capability.c:942-970 | the dying task's children are passed on, then its space is empty |
| Reparenting.UpIsNearest | rust/src/capability.rs:1356-1446 | climbing ends at the nearest ancestor outside the dying space |
| Reparenting.DeathKeepsWellFormed | SECURITY.md:143-143 | a death keeps the table well formed |
| Reparenting.DeathKeepsLinked | SECURITY.md:143-143 | after a death every survivor names its nearest surviving ancestor, so a later revocation still reaches it |
| Reparenting.DeathKeepsComplete | SECURITY.md:143-143 | and a death loses no later revocation anything, whatever was lost before |
| Overwriting.PlaceCompleteExactly | src/kernel/capability.c:413-444 | after any write every revocation still reaches everything derived from its target if and only if nobody is left naming what was written over or nothing that one descended from is in a slot |
| Overwriting.LinkedPlaceCompleteExactly | src/kernel/capability.c:413-444 | with connected lineages: if and only if what was written over had no parent or nobody is left naming it |
| Overwriting.DeriveCompleteExactly | rust/src/capability.rs:408-738 | the same for every derivation, read off its destination |
| Overwriting.DropCompleteExactly | src/kernel/capability.c:701-727 | the same for a slot that is dropped |
| Overwriting.TransferOntoItself | rust/src/capability.rs:492-522 | an instance: a transfer onto its own slot leaves a capability that a sweep for its root does not find |
| Overwriting.MiddleEndClosed | src/kernel/capability.c:766-827 | an instance: a pipe end handed on twice and closed in the middle leaves an end that a sweep for the first does not find |
| CapabilityRuns.StepKeepsWellFormed | SECURITY.md:145-145 | every operation keeps the table well formed: one slot for one serial, recorded once, never reissued |
| CapabilityRuns.StepLinkedExactly | SECURITY.md:143-143 | an operation keeps the lineages connected if and only if it leaves nobody naming what it writes over; revocations and deaths always do |
| CapabilityRuns.StepCompleteExactly | SECURITY.md:143-143 | an operation keeps every later revocation complete if and only if it leaves nobody naming a capability that had a living ancestor |
| CapabilityRuns.AuthorityNeverWidens | SECURITY.md:142-142 | rights and type, in every state of every run, whatever was written over |
| CapabilityRuns.LineageNamesOneObject | src/kernel/capability.c:1380-1426 | in every state of every run a lineage without a split names one object |
| CapabilityRuns.SerialIsIdentity | SECURITY.md:145-145 | a slot that holds an old serial later in a run held that same capability before, so a stale snapshot is told apart |
| CapabilityRuns.RevokedIsGone | SECURITY.md:143-143 | a revocation leaves nothing of its target's lineage if and only if the edges led to all of it |
| CapabilityRuns.RevokedForGoodExactly | SECURITY.md:143-145 | and if and only if they did, nothing of it is in any slot in any later state, whatever is done next |
| CapabilityRuns.RevokedForGood | SECURITY.md:143-145 | as it is after every run whose writes spared lineages |
| CapabilityRuns.RunCompleteExactly | SECURITY.md:143-143 | at every point of a run every revocation would be complete if and only if every step spared lineages |
| CapabilityRuns.RunLinkedExactly | SECURITY.md:143-143 | the same for connected lineages and named slots |
| CapabilityRuns.TokenedNeverReceives | rust/src/capability.rs:629-738 | in every state of every run a capability with a token cannot receive on its endpoint |
| CapabilityRuns.BootIsSound | src/kernel/capability.c:69-368 | the kernel's first state, its root node and task 0's copies, is well formed and connected, so all of this holds of every run from boot |
| Tarjan.Walk.Strong | tools/check_stack_budget.py:553-576 | numbers a node, follows its edges, and takes its component off the stack exactly when the node is the oldest of it |
| Tarjan.Walk.Follow | tools/check_stack_budget.py:558-564 | one edge: descend, or lower the low link by a stacked node's index |
| Tarjan.Walk.Pop | tools/check_stack_budget.py:565-576 | the component is the stack from the node up, numbered next |
| Tarjan.Longest | tools/check_stack_budget.py:542-581 | every node in exactly one component, components are the classes of mutual reachability, and edges between components go to strictly lower numbers, for every graph and visiting order |
| Tarjan.NothingPending | tools/check_stack_budget.py:577-581 | when no activation is open the stack is empty and every numbered node has its component |
| Tarjan.ComponentsAreUnique | tools/check_stack_budget.py:542-581 | two runs in different orders give the same partition |
| StackBudget.Memo.DepthOf | tools/check_stack_budget.py:786-800 | the memoised recursion terminates by component number, and answers the depth, `None` for unbounded |
| StackBudget.DepthUnfolds | tools/check_stack_budget.py:786-800 | a depth is the component's cost and the deepest successor's depth |
| StackBudget.DepthCoversChain | tools/check_stack_budget.py:786-800 | no chain of components costs more than the depth |
| StackBudget.DepthIsAttained | tools/check_stack_budget.py:786-800 | some chain costs exactly the depth; an unbounded depth has a chain without a cost |
| StackBudget.CondensedIsDag | tools/check_stack_budget.py:778-784 | the condensed graph has no cycle |
| StackBudget.StackWithinDepth | tools/check_stack_budget.py:765-800 | the frames of every walk in which no node is on the stack more often than its bound sum to at most the depth |
| StackBudget.UnboundedExactly | tools/check_stack_budget.py:786-800 | the depth is unbounded if and only if a component without a bound is reachable |
| StackBudget.NonRecursiveOnce | tools/check_stack_budget.py:524-539 | a function outside every cycle is on no call stack twice |
| StackBudget.MultiplicityOneExactly | tools/check_stack_budget.py:524-539 | multiplicity one is given if and only if no call stack holds a function of the component twice |
| StackBudget.BuildGraph | tools/check_stack_budget.py:508-521 | the union of both edge sources, closed over every name |
| StackBudget.ComponentCosts | tools/check_stack_budget.py:751-776 | each component's cost is its frames times its multiplicity, or none |
| StackBudget.BuildDag | tools/check_stack_budget.py:778-784 | an edge exactly for every call that leaves a component |
| StackBudget.Condense | tools/check_stack_budget.py:748-784 | the pieces fit together as the depth needs them |
| StackBudget.Decide | tools/check_stack_budget.py:802-838 | exit status 0 if and only if nothing was reported and every root passes |
| StackBudget.OkMeansNoOverflow | tools/check_stack_budget.py:731-838 | after "ok", the interrupt entry reserve plus the frames of any admissible call stack of any root is below the kernel stack's size |
| LockClosure.Pass | tools/check_lock_order.py:114-136 | one round in any order keeps soundness, reaches one call further, and reports no change exactly when the sets are closed |
| LockClosure.LocksTaken | tools/check_lock_order.py:114-136 | sound always; complete to eight calls; exactly the closure once a round changed nothing |
| LockClosure.ClosedIsExact | tools/check_lock_order.py:114-136 | sound sets are the least closure if and only if another round changes none |
| LockClosure.EightPassesSuffice | tools/check_lock_order.py:114-136 | if no lock is more than eight calls away the answer is the closure |
| LockNestings.SimulateLine | tools/check_lock_order.py:139-173 | the held stack and the nestings after one line |
| LockNestings.SimulateBody | tools/check_lock_order.py:139-173 | the nestings of a body, added to those found |
| LockNestings.Nestings | tools/check_lock_order.py:139-173 | every nesting some body shows, and no other |
| LockNestings.CheckRules | tools/check_lock_order.py:208-224 | no problem is counted if and only if every nesting is declared and none is declared the other way round |
| LockNestings.Check | tools/check_lock_order.py:176-224 | the whole checker's verdict |
| LockRuns.RunCovered | tools/check_lock_order.py:114-173 | every lock that a run takes, through branches, loops, early returns and calls, nests as the control flow shows, or is taken first; the call drops what it took |
| LockBlindness.RunsNestExactly | tools/check_lock_order.py:139-173 | the nestings of all runs are exactly those that can be read off the control flow |
| LockBlindness.BodySeen | tools/check_lock_order.py:139-173 | where the checker holds a lock and sees another taken, it finds that nesting |
| LockBlindness.CheckerSeesExactly | tools/check_lock_order.py:139-173 | it has found the nestings of every run if and only if it has found those of its blind spots elsewhere |
| LockBlindness.BlindExactlyWhenEmpty | tools/check_lock_order.py:168-172 | without wrappers its stack is the upper part of the code's, so it is blind exactly where that is empty and the code's is not |
| LockBlindness.StraightHasNoBlindSpot | tools/check_lock_order.py:139-173 | a program without early returns and wrappers has no blind spot |
| LockThreads.AnalysedNest | tools/check_lock_order.py:139-173 | threads that make any number of calls nest only as found, if the blind spots are found |
| LockThreads.NoMutualWait | tools/check_lock_order.py:208-224 | under both rules no two threads wait for each other's innermost lock |
| LockThreads.NoCircularWait | tools/check_lock_order.py:208-224 | with an acyclic relation there is no circular wait of any length |
| LockThreads.DeadlockExactlyWhenCyclic | tools/check_lock_order.py:208-224 | threads nesting in a relation can reach a circular wait if and only if it has a cycle |
| LockThreads.CheckedNeverMutuallyWait | tools/check_lock_order.py:176-224 | a program that passes and whose blind spots are found, in any interleaving of any number of threads and calls, never has two threads waiting for each other's innermost lock |
| LockThreads.CheckedNeverDeadlocks | tools/check_lock_order.py:176-224 | and, when the declared order has no cycle, never reaches a circular wait |
| LockThreads.RulesAloneAllowRings | tools/check_lock_order.py:217-224 | a ring of three locks passes both rules and can deadlock |
| LockEarlyReturn.EarlyReturnsHideADeadlock | src/kernel/capability.c:1226-1266 | an instance: two functions with an early return, in opposite order, pass with nothing declared and can deadlock |
| Crc32.Compute | rust/src/gpt.rs:85-94 | the loop computes the register of the bitwise definition |
| Crc32.ComputeCrc | rust/src/gpt.rs:95-98 | and its complement is the CRC |
| Crc32.OneByteChangesCrc | rust/src/gpt.rs:85-98 | replacing any one byte of any sequence by another changes the CRC |
| CrcBurst.BurstChangesCrc | rust/src/gpt.rs:85-98 | any change within 32 consecutive bits, of however many bytes, changes the CRC |
| Crc32.CheckValue | rust/src/gpt.rs:639-641 | the CRC of the nine digits is the standard check value |
| Gpt.VolumeBlocks | rust/src/gpt.rs:119-149 | a range is accepted exactly when it is whole blocks, not empty, inside the usable range and the device and clear of the table; the blocks are that range |
| Gpt.ScanRows | rust/src/gpt.rs:224-243 | the loop over the entries computes the scan |
| Gpt.FindPart | rust/src/gpt.rs:179-243 | the reader with all its refusals |
| Gpt.ScanFinds | rust/src/gpt.rs:224-243 | a range that is found is that of the only entry of its type |
| Gpt.FoundIsInside | rust/src/gpt.rs:107-149 | for every sequence of bytes, a partition that is found is not empty, inside the device, after the table, and the only one of its type in an array with the stated CRC |
| Gpt.SwapNeverOverlapsVolume | rust/src/gpt.rs:159-177 | swap that is accepted shares no block with the volume |
| GptTable.HeaderReadsBack | tools/gpt_image.py:43-48 | the kernel reads a packed header as what was packed, and refuses one that says it is not in sector 1 |
| GptTable.SectorDescribes | tools/gpt_image.py:43-48 | a packed header's CRC verifies and every field reads back |
| GptTable.EntryFields | tools/gpt_image.py:38-40 | type, GUID, first and last sector and name are each in their place and read back |
| GptTable.EntriesRow | tools/gpt_image.py:38-40 | row by row the array is the entries and then zeros |
| GptTable.PartIsFound | rust/src/gpt.rs:179-243 | the reader gives the one partition of its type at exactly its sectors, or refuses that range |
| GptTable.NoPartIsMissing | rust/src/gpt.rs:179-243 | a type that was not written is not found |
| GptTable.AlteredEntryIsRefused | rust/src/gpt.rs:210-222 | replacing any one byte of the entry array makes the reader refuse the table with the entry CRC's code |
| GptTable.AlteredBurstIsRefused | rust/src/gpt.rs:210-222 | and so does any change within 32 consecutive bits of it |
| GptImage.Build | tools/gpt_image.py:51-85 | the writes and the copy loop give the image; a volume that is refused leaves the file as it was, and an image that no file can hold leaves it empty |
| GptImage.ImageRegions | tools/gpt_image.py:51-85 | MBR, both headers, both arrays and the volume are each whole in their sectors |
| GptImage.MbrCovers | tools/gpt_image.py:69-73 | one partition of type 0xEE over the disk, as far as 32 bits reach, and the boot signature |
| GptImage.ExtentsAreDisjoint | tools/gpt_image.py:55-66 | the eight parts are pairwise disjoint and in range for every volume |
| GptImage.ImageHoldsVolume | tools/gpt_image.py:82-85 | reading the third partition gives exactly the volume's bytes |
| GptImage.ImageVolumeIsFound | tools/gpt_image.py:51-87 | the kernel finds the volume at its place and size from any front of the image, or refuses exactly when it is empty or the device too small |
| GptImage.ImageSwapIsFound | tools/gpt_image.py:51-85 | and the swap partition whenever the volume |
| GptImage.BothHeadersVerify | tools/gpt_image.py:75-81 | both headers' CRCs are right and their fields as written |
| GptImage.BothTablesAgree | tools/gpt_image.py:75-81 | the headers name each other, the same range, and equal arrays with the stated CRC |
| GptImage.Tamper | tools/gpt_image.py:90-104 | the first volume entry's start is overwritten and nothing else; no entry or a cut-off one leaves the file alone |
| GptImage.ForgedOneByte | tools/gpt_image.py:90-104 | on a built image the forgery changes exactly one byte |
| GptImage.ForgedIsRefused | tools/gpt_image.py:15-18 | the kernel refuses the forged image for its entry CRC, for volume and swap alike |
| GptInstall.Plan | rust/src/gpt.rs:286-304 | a layout in order, without overlap, clear of both tables and as large as asked; none exactly when no such layout exists |
| GptInstall.BuildSide | rust/src/gpt.rs:360-403 | one end of the disk holds MBR, header and entries in their places and zeros elsewhere, for every 64-bit number of blocks |
| GptInstall.PlannedIsFound | rust/src/gpt.rs:751-756 | the reader finds volume and swap at exactly the planned blocks, and no swap where none was planned, if and only if the volume's sectors did not wrap and are within the usable range written |
| GptInstall.HugeDiskIsMissed | rust/src/gpt.rs:360-362 | an instance where they are not found |
| GptInstall.BothEndsAgree | rust/src/gpt.rs:759-772 | both ends carry the same entries, and headers that verify and name each other, at the disk's last sectors wherever 64 bits count them |
| Conditionals.EvalIf | tools/check_syscall_coverage.py:45-76 | the value C gives the expression and its canonical text, refused exactly for mixed operators or a term that is not `defined` |
| Conditionals.CanonicalIsInjective | tools/check_syscall_coverage.py:53-55 | guards recorded alike have the same terms in order and the same operator |
| DispatchTable.ScanTable | tools/check_syscall_coverage.py:89-172 | the loop with its stack computes the scan, with every error in its order |
| DispatchTable.ActiveWins | tools/check_syscall_coverage.py:168-171 | active names are taken out of the guarded ones |
| DispatchTable.ScanMeans | tools/check_syscall_coverage.py:108-172 | every readable tree of groups is accepted and reported as the tree semantics says |
| DispatchTable.AcceptsExactly | tools/check_syscall_coverage.py:133-160 | lines are accepted if and only if they are such a tree: unmatched and unterminated groups are always rejected |
| DispatchTable.ReadOneWay | tools/check_syscall_coverage.py:133-140 | lines are at most one tree, so an accepted table is one C allows if and only if no group of it repeats its `#else` |
| DispatchTable.RepeatedElseIsAccepted | tools/check_syscall_coverage.py:133-138 | an instance with two |
| DispatchTable.ReportPartitions | tools/check_syscall_coverage.py:152-172 | active and guarded partition the names with a handler; active means some live arm holds it, with the last one's handler; guarded names the innermost false guard of the last dead arm |
| Ps2.LayoutByName | include/ps2_scancode.h:171-181 | the layout of that name, and the US layout for any other |
| Ps2.UsIsRegular | include/ps2_scancode.h:95-153 | the US levels cover every code, are ASCII, and pair each letter with its capital |
| Ps2.UkIsRegular | include/ps2_scancode.h:95-153 | the same for the UK levels |
| Keyboard.Reader.Feed | include/ps2_scancode.h:224-296 | one byte does what the keystroke machine does, with every table index in bounds |
| Keyboard.Reader.Prefixed | include/ps2_scancode.h:226-252 | the second byte of a prefixed keystroke |
| Keyboard.Reader.Look | include/ps2_scancode.h:262-295 | the character of a key under levels, caps lock and control |
| Keyboard.BytesRefineTokens | include/ps2_scancode.h:224-296 | for every stream, modifiers and delivered keys are those of its keystrokes |
| Keyboard.PrefixIsParity | include/ps2_scancode.h:226-253 | the prefix flag is the parity of the trailing prefix bytes |
| Keyboard.ModifiersFollowHistory | include/ps2_scancode.h:226-263 | shift, control and right alt are on when their last event is a press, caps lock is the parity of its presses, and prefixed shift codes never count |
| Keyboard.StreamFollowsHistory | include/ps2_scancode.h:224-263 | the same for every stream of bytes from the zero state |
| Keyboard.FlagExactly | include/ps2_scancode.h:190-192 | after a stream the shift and control flags say that a key of theirs is down except exactly when one of two held keys was let go last |
| Keyboard.FlagAlwaysRightExactly | include/ps2_scancode.h:190-192 | they say so after every keystroke of a stream if and only if no key is let go while the other is down |
| Keyboard.FlagCanBeWrong | include/ps2_scancode.h:255-256 | an instance |
| Keyboard.ResultsAreKeys | include/ps2_scancode.h:202-204 | every result is nothing, 1 to 0x7F, or a named key with an escape sequence |
| Keyboard.CapsSwapsCase | include/ps2_scancode.h:219-223 | without control, caps lock swaps the case of letters and changes nothing else |
| Keyboard.CapsAndShiftCancel | include/ps2_scancode.h:219-223 | caps lock and shift give a letter key its plain letter |
| Keyboard.ControlIgnoresShiftAndCaps | include/ps2_scancode.h:287-294 | with control the result is nothing or 1 to 26, whatever shift and caps lock are |
| Keyboard.EscapesAreDistinct | include/ps2_scancode.h:311-322 | no two named keys share a sequence |
| TerminalKeys.SentIsEscape | userspace/console_server.c:676-690 | exactly the named keys are sent as their escape sequence |
| TerminalKeys.Burst.GetKey | userspace/tui.c:937-983 | one key off the burst, with numeric sequences and truncated ones |
| TerminalKeys.KeyComesBack | userspace/tui.c:937-983 | a key is read back and takes its own bytes, whatever follows, if and only if it is not Escape before `[` or `O` |
| TerminalKeys.KeysComeBack | userspace/tui.c:937-983 | a whole burst of keys is read back in order if and only if no Escape is directly before `[` or `O` |
| FsToken.FieldsReadBack | include/fs_proto.h:216-237 | every field reads back and no token is 0 |
| FsToken.Reencodes | include/fs_proto.h:216-237 | encoding the fields of any valid token gives it back |
| FsToken.TokensAreABijection | include/fs_proto.h:198-237 | in-range fields and 64-bit values with bit 63 set determine each other |
| FsToken.OutOfRangeIsCut | include/fs_proto.h:229-234 | a value out of range is cut to its field and touches no other |
| FsWalk.Pack | include/fs_proto.h:295-307 | succeeds if and only if lengths plus one each are at most 176, never writes outside, and leaves the rest of the buffer and, on failure, the length |
| FsWalk.PackedSplitsBack | include/fs_proto.h:278-307 | splitting at the NULs gives the names in order |
| FsWalk.NameCheck | userspace/fs_server.c:605-611 | not empty, not `.` or `..`, no `/` |
| FsWalk.CheckWalk | userspace/fs_server.c:781-799 | accepted if and only if terminated inside the request and every name is walkable, reading no byte outside |
| FsWalk.Walk | userspace/fs_server.c:781-839 | every name is checked before the first step, and the walk goes name by name up to the first that is hidden, not there, or not the session's to see |
| FsWalk.WalkInTurns | userspace/fs_server.c:613-627 | a walk is a run of lookups: names asked for at once answer what they answer in turns |
| FsWalk.RefusedAtOneName | userspace/fs_server.c:801-838 | a walk is refused if and only if one of its names is, reached by those before it, with that one's code |
| FsWalk.PackedIsWalked | include/fs_proto.h:272-307 | packed names are accepted if and only if there is one and each is walkable, and the server then walks exactly those |
| ScratchDisk.ExpectedSector | tools/block_scratch.py:80-91 | signature, nonce and pattern of one sector of the run |
| ScratchDisk.ThirteenIsInjective | tools/block_scratch.py:90-90 | multiplication by 13 is injective modulo 256 |
| ScratchDisk.RunSectorsDiffer | tools/block_scratch.py:80-91 | two sectors of a run differ |
| ScratchDisk.NoncesShow | tools/block_scratch.py:25-28 | sectors of two nonces differ |
| ScratchDisk.KindsAreWellPlaced | tools/block_scratch.py:59-77 | every kind's signatures differ and its run is clear of block 0 and the planted block |
| ScratchDisk.Make | tools/block_scratch.py:94-109 | the disk the driver is given |
| ScratchDisk.MadeHolds | tools/block_scratch.py:94-109 | signature and nonce in block 0, another signature and the same nonce in the planted block, zeros between |
| ScratchDisk.Verify | tools/block_scratch.py:112-146 | each verdict exactly when it applies, and the first bad sector |
| ScratchDisk.PassesExactlyInPlace | tools/block_scratch.py:94-128 | for every kind, nonce and size, the run written at a sector passes if and only if it is the right one |
| ScratchDisk.PassMeansInOrder | tools/block_scratch.py:80-128 | in a disk that passes no sector is out of order, repeated or from another nonce |
| ExitReason.CollectDigits | include/exit_reason.h:24-31 | the digits, last first, never outside 24 bytes of scratch |
| ExitReason.AppendNum | include/exit_reason.h:23-34 | appends the digits of the number and a NUL, and keeps what was before |
| ExitReason.AppendStr | include/exit_reason.h:36-39 | appends the string |
| ExitReason.FormatExitReason | include/exit_reason.h:49-85 | the line and its NUL in at most 90 of 160 bytes, for every record |
| ExitReason.NumberReads | include/exit_reason.h:23-34 | a printed number reads back |
| ExitReason.TextParses | include/exit_reason.h:41-85 | reason and every printed field can be read from the line |
| ExitReason.SameLineSameCause | include/exit_reason.h:41-85 | two records with one line agree on the reason and on those fields |
| DefaultTargets.ReadRecipes | tools/check_shared_kernel_jobs.py:235-256 | the direct targets and the sub-make edges |
| DefaultTargets.Fixpoint | tools/check_shared_kernel_jobs.py:258-267 | the loop ends with exactly the targets that reach a direct one, in any order |
| DefaultTargets.Defaults | tools/check_shared_kernel_jobs.py:229-270 | the answer, without the kernel's own goals |

## Left out

- Text recovery (preprocessing, body extraction, regular expressions, recipe expansion, YAML, logs): call graphs, lock events, directive lines, `make` commands and a log's reported capacity are inputs.
- Reading bodies in check_lock_order.py: events on a line are taken in the order takes, calls, drops, as the tool's loops visit them; the source positions reported with a nesting are not modelled.
- The `tree` walk over Rust frames in check_stack_budget.py: Rust frames are inputs.
- Capability bookkeeping beside the table: `caps_in_use` counters, object garbage collection, what an object is, revocation sets (nothing calls them), and the count that reparenting returns.
- Capability operations are single steps: a serial taken in one critical section and written in a later one is one step here, a fork's copy of a space is a run of grants, and spaces exist from the start and are empty until used.
- Capabilities.Derive: the derivations are modelled on values with one record of what each demands, not as procedures that write memory.
- CapabilityRuns.RevokedForGood: assumes that the writes before the revocation spare lineages; CapabilityRuns.RevokedForGoodExactly has no such assumption.
- LockThreads.CheckedNeverDeadlocks: assumes that every way through a body drops what it took, innermost first, or is a wrapper's, that no lock is taken twice, that the closure converged, that the blind spots are found and that the declared order is acyclic; the tool checks none of these. Functions that return with or without a lock depending on their result are not covered.
- GptInstall.BuildSide: an entry or a header is written in one piece, not field by field.
- The `PS2_LAYOUT_IGNORED` arm, the console's own chords (scrollback, log view) and every other control arm that never ships.
- The lookups a file walk makes and the policy it asks are parameters of the walk; sessions in fs_server.c are not modelled.
- System calls, IPC, scheduling, memory, drivers, the TUI's drawing, the boot and build drivers: not part of this model.
