# Verification of Jig's core protocols

Jig installs and refreshes a development harness in repositories. This project models the parts of
it whose correctness is hard to see from any one function, and proves what they promise. The main
statements are about all inputs, all runs or all reachable states; where the code falls short of a
promise, one more lemma exhibits an input or a run, and its row says so.

- **Installer lock** (`InstallerLock`, `InstallerLockSafety`, `InstallerLockRecovery`,
  `LockSession`). Any number of
  installers, each locking several caches, any number of legacy installers that only know `mkdir`,
  and crashes at any moment, as a machine whose steps are single system calls. Assumptions: owner
  records are unique, and nobody unlinks a guard file. `LockSession` has the source's methods; each
  of their system calls is a step of that machine, with any steps of others before it. A history
  counts what went wrong and what was found taken, so that a failure has a cause; a quiet session is
  one in which nobody else acts and no call fails.
- **Parallel executor** (`ParallelExecutor`, `HomeSelection`). Workers, the ticket counter, the
  channel and the receiver as interleaved steps, and the choice made from the collected samples.
- **Home picker** (`PickerLoop`, `PickerSession`). The inspection worker and the event loop.
- **Text transformations** (`Occurrences`, `ManagedBlocks`, `NestedCommands`, `ClippyPolicy`,
  `ClippyLevels`, `ClippyShapes`).
- **Worklists** (`Reachability`, `AffectedTests`, `CiInputs`).
- **Encodings and orders** (`Orders`, `PathText`, `BuildIdentity`, `BuildRenaming`, `PathManifest`).
- **Git metadata** (`FileTree`, `GitTransfer`, `GitTransferFacts`, `GitPublication`,
  `GitInitTransfer`, `GitInitFacts`). A file system in which others may change anything between two
  calls, a record of every call that succeeded with the worlds before and after it, and one of every
  call that was refused. On a quiet file system nobody else acts, and the record is a run from the
  world it began in; on a reliable one a call is refused only when it is impossible.
- **Reconciliation** (`CommandTable`, `WorkGates`).
- **Quota projection** (`QuotaProjection`), with floats as reals.
- **Shared** (`Wrappers`, `Traces` for runs of a machine, `Folds` for orders of a fold).

Texts are sequences of characters. Where the source works on bytes, a character stands for a byte;
where it works on UTF-8, for a Unicode character, whose order is that of the encoded bytes.

## Where the code does less than one might expect

- A set of managed paths with, say, `a/b` and `a.b` is written without complaint and then cannot be
  loaded: it is written in the order of path components and checked in the order of texts.
  `PathManifest.OrdersAgree` says exactly which pairs disagree, and `PathManifest.WriteThenLoad` that
  the round trip fails exactly for sets with such a pair.
- A failed metadata transfer flags only the staging directory that the entries come from. The one
  that received them is not flagged, and cleaning it up removes transferred metadata exactly when an
  entry was renamed before the failure (`GitInitFacts.FailureRemovesTransferred`).
  `GitInitFacts.FirstEntryIsLost` is such a run: of two entries the first is moved, the rename of the
  second is refused, and the first is then in neither place.
- A changed file below a directory named `__pycache__` selects nothing, even inside a package:
  `AffectedTests.OwnTestsRunUnlessGenerated` has the exact condition and
  `AffectedTests.BytecodeOfAPackage` an input.
- The second click of a double click moves the focus to the homes without a redraw, and it is the
  selection itself; a click outside every area forgets the last click without a redraw. So a selection
  acts on exactly the drawn state if and only if it is made with a key and no such click came since
  the last drawing, and on what the screen shows if and only if it is made with a key or the homes
  have the focus (`PickerLoop.SelectActsOnTheScreen`). `PickerLoop.DoubleClickFromDetails` is a run
  that ends otherwise.
- An installer that dies before it has marked its directory, or between unmarking and removing it,
  leaves a directory that no installer ever reclaims (`InstallerLockRecovery.DeathLeavesUnmarked`,
  `InstallerLockRecovery.UnmarkedIsNeverReclaimed`; `InstallerLockRecovery.AbandonedRun` is such a
  run). A marked one is recovered exactly when it holds no other file
  (`InstallerLockRecovery.EveryAttemptRecovers`, `InstallerLockRecovery.EveryAttemptGivesUp`).
- The build identity hashes a lossy text of each path. It misses that a file was renamed exactly when
  both paths have one such text and every file between them in order has it too, with the same
  contents (`BuildRenaming.RenameIsInvisible`); `BuildRenaming.SharedLabelIsInvisible` has two
  packages that it does not tell apart.
- A repository's own command is lost when the last later entry of the table that claims its key has
  another command: an entry whose key has the same replacement, or, where the own command is already
  at the current key, one under an earlier name of that key. `CommandTable.OwnCommandStays` has the
  exact condition, given that a table has each key once and no replacing key is itself replaced;
  `CommandTable.CurrentKeyIsDisplaced` is a table in which `rust_test_command` displaces
  `api_test_command`.

## Model

| member | source | states |
|---|---|---|
| InstallerLockSafety.StepKeeps | crates/jig-bootstrap/src/runtime_cache_lock.rs:98-318 | every step of every process, crash and arrival keeps the lock invariant |
| InstallerLockSafety.RunKeeps | crates/jig-bootstrap/src/runtime_cache_lock.rs:98-318 | so every world of every run satisfies it |
| InstallerLockSafety.MutualExclusion | crates/jig-bootstrap/src/runtime_cache_lock.rs:98-155 | in every reachable world at most one process uses a cache; an installer using it has the guard and a directory with exactly its own record; a legacy user's directory is its own and unmarked |
| InstallerLockSafety.RemovalIsRightful | crates/jig-bootstrap/src/runtime_cache_lock.rs:224-318 | a step removes only an empty directory that nobody else uses: the stepper's own, or in a claim one an installer made, under the stepper's guard; a release removes only the releaser's own, and a legacy installer's directory is never reclaimed |
| InstallerLockSafety.UnlinkIsRightful | crates/jig-bootstrap/src/runtime_cache_lock.rs:224-318 | a step unlinks a record only under the guard and while nobody uses the cache: a release its own record in its own directory, a claim the stale one it has read or the one it just failed to write |
| InstallerLockSafety.WaitsForLater | crates/jig-bootstrap/src/runtime_cache_lock.rs:80-92 | whoever holds a wanted cache and itself waits, waits for a later cache |
| InstallerLockSafety.NoCircularWait | crates/jig-bootstrap/src/runtime_cache_lock.rs:80-92 | in every reachable world no chain of waiting processes closes |
| InstallerLockSafety.EndedHoldsNothing | crates/jig-bootstrap/src/runtime_cache_lock.rs:158-170 | an installer that has dropped its locks or ended has no guard and may use nothing |
| InstallerLockRecovery.EveryAttemptRecovers | crates/jig-bootstrap/src/runtime_cache_lock.rs:224-274 | after a marked owner died, every attempt that nobody disturbs and in which no call fails has the lock after its eighth call, with its own record, when the directory holds only the owner file |
| InstallerLockRecovery.StaleLockIsRecovered | crates/jig-bootstrap/src/runtime_cache_lock.rs:224-274 | and there is such an attempt, a run of the machine |
| InstallerLockRecovery.EveryAttemptGivesUp | crates/jig-bootstrap/src/runtime_cache_lock.rs:224-274 | if the directory holds other files, every such attempt is over after its seventh call, with the record put back, the guard left and everything else as it was |
| InstallerLockRecovery.FreeLockIsTaken | crates/jig-bootstrap/src/runtime_cache_lock.rs:98-155 | without a directory every such attempt has the lock after its fourth call |
| InstallerLockRecovery.NoFaultStepIsAStep | crates/jig-bootstrap/src/runtime_cache_lock.rs:98-274 | calls that work as they should are steps of the machine |
| InstallerLockRecovery.UnmarkedIsNeverReclaimed | crates/jig-bootstrap/src/runtime_cache_lock.rs:224-274 | an unmarked directory that nobody is at work on stays unmarked in every run, whatever faults occur, and nobody ever uses the cache |
| InstallerLockRecovery.DeathLeavesUnmarked | crates/jig-bootstrap/src/runtime_cache_lock.rs:224-318 | an installer that dies while its directory holds no record leaves such a directory |
| InstallerLockRecovery.AbandonedRun | crates/jig-bootstrap/src/runtime_cache_lock.rs:98-274 | one run from the start that ends in such a directory: an installer arrives, takes the guard, makes the directory and dies |
| LockSession.RuntimeCacheLocks.Acquire | crates/jig-bootstrap/src/runtime_cache_lock.rs:80-92 | all or nothing: on success exactly the requested caches are held, in ascending order and each once; on failure none, no guard is left, and something went wrong or all attempts on a cache found it taken; undisturbed, it succeeds exactly when every requested guard is free and every directory can be taken |
| LockSession.RuntimeCacheLocks.AcquireOne | crates/jig-bootstrap/src/runtime_cache_lock.rs:98-155 | one more lock, or the same ones because something went wrong or every attempt found it taken, with others acting before every call; undisturbed, it succeeds exactly when the guard is free and the directory absent or a dead owner's with nothing else in it, and leaves the other caches alone |
| LockSession.RuntimeCacheLocks.FinishClaim | crates/jig-bootstrap/src/runtime_cache_lock.rs:127-144 | after the claim the lock is pushed, or released again when its guard record cannot be written; undisturbed it is pushed |
| LockSession.RuntimeCacheLocks.Drop | crates/jig-bootstrap/src/runtime_cache_lock.rs:158-170 | releases exactly the locks held, the last one first, and leaves no guard; undisturbed, a directory stays exactly when it holds other files |
| LockSession.RuntimeCacheLocks.DropLast | crates/jig-bootstrap/src/runtime_cache_lock.rs:160-168 | releases the last lock and keeps the others |
| LockSession.RuntimeCacheLocks.ClaimLegacyDirectory | crates/jig-bootstrap/src/runtime_cache_lock.rs:224-274 | each call is a step of the machine; a claim ends with the directory holding the claimer's record, or leaves the guard; a failed recovery that reports a restored record has restored it; undisturbed, it claims exactly a directory that can be taken and leaves any other as it was |
| LockSession.RuntimeCacheLocks.ReclaimStaleDirectory | crates/jig-bootstrap/src/runtime_cache_lock.rs:225-267 | goes on only from a valid record to a fresh directory of its own; otherwise it leaves the guard, having put the record back if it says so; undisturbed, it goes on exactly from a marked directory without other files |
| LockSession.RuntimeCacheLocks.ClearStaleDirectory | crates/jig-bootstrap/src/runtime_cache_lock.rs:234-263 | a removal that fails puts back the very record that was read, if the write succeeds; undisturbed, the directory is gone exactly when it held nothing else, and otherwise as it was |
| LockSession.RuntimeCacheLocks.MarkDirectory | crates/jig-bootstrap/src/runtime_cache_lock.rs:268-273 | a created directory holds this process's record, or the claim failed and was cleaned up; it tells whether the directory is gone; undisturbed it is marked |
| LockSession.RuntimeCacheLocks.CleanupFailedClaim | crates/jig-bootstrap/src/runtime_cache_lock.rs:276-279 | two more steps of the machine, and the guard is left, whatever fails; it tells whether the directory is gone |
| LockSession.RuntimeCacheLocks.ReleaseLegacyDirectory | crates/jig-bootstrap/src/runtime_cache_lock.rs:290-318 | the directory released is this process's own with its own record; released means gone, and any other result but a lost record leaves it there with that record; undisturbed, it is gone exactly when it holds no other files |
| LockSession.PlanIsSorted | crates/jig-bootstrap/src/runtime_cache_lock.rs:81-84 | the ordered set of caches is the one sorted list of them, whatever the order and repetition of the request |
| ParallelExecutor.StepKeeps | crates/jig-agents/src/codex.rs:326-361 | every step of a worker or the receiver keeps: each drawn ticket is in exactly one place, results are the workers' own, and the receiver is where a sequential pass would be |
| ParallelExecutor.ExecutionKeeps | crates/jig-agents/src/codex.rs:326-361 | so does every state of every execution |
| ParallelExecutor.CompleteExecution | crates/jig-agents/src/codex.rs:306-368 | for every interleaving and any callback each home is worked exactly once and received once, no slot falls back, the callback hears the completions through its first false, and results come in input order, each as the callback left it in the state it had at that completion, if it was called |
| ParallelExecutor.WorkedWhenPast | crates/jig-agents/src/codex.rs:326-361 | at every point of every execution a home has been worked once if its result exists and never otherwise |
| ParallelExecutor.RefinesSequentialMap | crates/jig-agents/src/codex.rs:306-368 | with a callback that leaves results alone the result is the sequential map: for each home what its preflight says, or else its work, or the panic answer |
| ParallelExecutor.CallsAreAPrefix | crates/jig-agents/src/codex.rs:355-360 | the callback hears the completion order from its start through its first false |
| ParallelExecutor.ReplayFills | crates/jig-agents/src/codex.rs:355-360 | exactly the completed slots are filled, each with what the callback, in its state at that completion, left of the result |
| ParallelExecutor.CalledWhileReporting | crates/jig-agents/src/codex.rs:355-360 | the callback is called for a completion exactly while all its answers before were true |
| ParallelExecutor.InFlightIsBounded | crates/jig-agents/src/codex.rs:328-336 | no more homes are in flight than there are, nor than the limit, or one if that is 0; as many workers are started as both allow |
| ParallelExecutor.FullyParallel | crates/jig-agents/src/codex.rs:328-336 | and an execution exists in which that many are in flight at once |
| ParallelExecutor.StepsRunOut | crates/jig-agents/src/codex.rs:342-361 | every step uses up effort, so every execution ends |
| ParallelExecutor.NoDeadlock | crates/jig-agents/src/codex.rs:342-361 | an execution that is not finished can go on |
| HomeSelection.SelectHome | crates/jig-agents/src/selection.rs:73-105 | the chosen home is eligible with the most remaining, then the most banked resets, unknown ones counting as none, and the smallest index among equals; none exactly when no home is eligible; partial exactly when time ran out, there were warnings, or a home was not inspected or its usage unknown, invalid or old |
| HomeSelection.ReplayCollects | crates/jig-agents/src/selection.rs:52-67 | the samples are exactly the details reported before the deadline |
| HomeSelection.ChoiceIgnoresInterleaving | crates/jig-agents/src/selection.rs:52-105 | however the workers interleave, collected samples are those of the sequential pass, and when all are in time the one best choice is that of the sequential pass |
| PickerLoop.StepKeeps | crates/jig-agents-tui/src/runtime.rs:47-127 | every step of the worker or the event loop keeps the invariant of the picker |
| PickerLoop.RunKeeps | crates/jig-agents-tui/src/runtime.rs:47-127 | so every state of every run satisfies it |
| PickerLoop.NothingLostNothingStale | crates/jig-agents-tui/src/runtime.rs:146-162 | when inspection is marked finished, every update of that round has been applied in the order sent, and none of an earlier round |
| PickerLoop.LastUpdateShows | crates/jig-agents-tui/src/model/app.rs:171-192 | applying updates leaves each row with the last one sent for it |
| PickerLoop.FinishedRowsShowLastUpdates | crates/jig-agents-tui/src/model/app.rs:171-207 | in every reachable state with inspection finished, each row shows the last update of this round, or else what it had, settled |
| PickerLoop.FinishedRowsAreSettled | crates/jig-agents-tui/src/model/app.rs:194-207 | a finished inspection leaves no row loading or refreshing |
| PickerLoop.RefreshKeepsSamples | crates/jig-agents-tui/src/model/app.rs:194-232 | through a refresh every row keeps the sample it had, marked as refreshing, until its update comes, and for good if none comes; a row without one is loading and in the end unavailable |
| PickerLoop.FirstRoundRows | crates/jig-agents-tui/src/model/app.rs:171-207 | the same for the first round, in which no row has a sample |
| PickerLoop.ErrorsOfTheRound | crates/jig-agents-tui/src/model/app.rs:171-232 | an inspection error shows exactly when this round had an update for an unknown home or its worker failed |
| PickerLoop.SelectActsOnTheScreen | crates/jig-agents-tui/src/runtime.rs:100-124 | in every run a selection acts on the home drawn as chosen; on exactly the drawn state if and only if it is a key with no ignored click since the last drawing, and on what is shown if and only if it is a key or the homes had the focus |
| PickerLoop.DoubleClickFromDetails | crates/jig-agents-tui/src/runtime/mouse.rs:43-67 | a run in which a double click from the details acts on a state that is not on the screen |
| PickerSession.HomePicker.TryFinish | crates/jig-agents-tui/src/runtime.rs:361-371 | a worker that is done is reported with its result; a report joins it, so it is made once and only when every update has been sent |
| PickerSession.HomePicker.TakeNext | crates/jig-agents-tui/src/runtime.rs:357-359 | takes the oldest update from the channel, if there is one |
| PickerSession.HomePicker.Drain | crates/jig-agents-tui/src/runtime.rs:155-158 | ends with every update sent so far taken |
| PickerSession.HomePicker.SettleAndDraw | crates/jig-agents-tui/src/runtime.rs:159-179 | marks the round finished exactly when its worker was seen to have ended, advances the animation exactly when that is due and inspection goes on, and draws when anything changed or drawing is due |
| PickerSession.HomePicker.PrepareForInput | crates/jig-agents-tui/src/runtime.rs:146-180 | the whole turn before input is a run of the machine that ends with the screen up to date, drawn again whenever that was due; a worker that had ended leaves the round finished with every update applied |
| ManagedBlocks.ManagedSpecsAreSound | crates/jig-bootstrap/src/managed_paths.rs:13-53 | each marker's first character occurs in it only once, the pair shares it, and neither marker is a prefix of the other |
| ManagedBlocks.BoundsAgree | crates/jig-bootstrap/src/renderer.rs:597-620 | the overlapping byte search and the non-overlapping string search find the same block |
| ManagedBlocks.BoundsMeaning | crates/jig-bootstrap/src/renderer.rs:702-718 | no bounds exactly when there is no marker; bounds exactly when one begin marker stands before one end marker |
| ManagedBlocks.OnlyMarkersOfBlock | crates/jig-bootstrap/src/renderer.rs:678-700 | no marker straddles a splice point: a well-formed block between marker-free texts contributes the only markers |
| ManagedBlocks.SpliceBounds | crates/jig-bootstrap/src/renderer.rs:678-700 | such a block is found exactly where it was put |
| ManagedBlocks.ExtractedIsWellFormed | crates/jig-bootstrap/src/renderer.rs:664-676 | extraction returns only well-formed blocks |
| ManagedBlocks.MergeLaws | crates/jig-bootstrap/src/renderer.rs:678-700 | merging fails exactly on malformed markers; otherwise there is one marker of each kind, extraction gives the new block back, and text outside the old block is kept |
| ManagedBlocks.LastMergeWins | crates/jig-bootstrap/src/renderer.rs:678-700 | merging twice is merging the second block |
| ManagedBlocks.RetireUndoesAppend | crates/jig-bootstrap/src/renderer.rs:576-595 | retiring an appended block gives the text back with its trailing newlines made one, or nothing if it was only newlines |
| ManagedBlocks.RetireForgetsReplacement | crates/jig-bootstrap/src/renderer.rs:576-595 | what retiring leaves does not depend on the block that was in place |
| ManagedBlocks.RetireKeepsTheRest | crates/jig-bootstrap/src/renderer.rs:576-595 | in any text, retiring removes the block, the one line end after it and the second of two line ends before it, and keeps every other character |
| ManagedBlocks.RetireCases | crates/jig-bootstrap/src/renderer.rs:597-612 | there is nothing to retire exactly without a marker, and a block is retired exactly when the markers make one |
| Occurrences.ScanEqualsWindows | crates/jig-bootstrap/src/renderer.rs:614-620 | both searches give the same list for a needle that cannot overlap itself |
| NestedCommands.NestedIsSound | crates/jig-bootstrap/src/clippy_policy.rs:12-15 | the generated grammar's entry suffix has no border and its texts are not empty |
| NestedCommands.NestedCommandEntries | crates/jig-bootstrap/src/clippy_policy.rs:164-190 | the parsing loop ends and computes the recursive parse; entries it returns print back to the input |
| NestedCommands.ParsedPrintsBack | crates/jig-bootstrap/src/clippy_policy.rs:164-190 | printing what was parsed gives the exact input, for any number of entries |
| NestedCommands.PrintedParsesBack | crates/jig-bootstrap/src/clippy_policy.rs:143-190 | a printed list parses back to itself exactly when every entry is printable |
| ClippyPolicy.UpgradeNestedCommandVersion | crates/jig-bootstrap/src/clippy_policy.rs:143-162 | the string-building loop prints the same manifests with the current command, if all ran the given one |
| ClippyPolicy.UpgradedParses | crates/jig-bootstrap/src/clippy_policy.rs:131-162 | an upgraded command parses to the same manifests |
| ClippyPolicy.ScanLints | crates/jig-bootstrap/src/clippy_policy.rs:220-241 | the one-pass scan answers: some level forbids the lint, or the last one denies it |
| ClippyPolicy.DirectClippyCommandEnforces | crates/jig-bootstrap/src/clippy_policy.rs:192-242 | the verifier of a single command decides the declarative rule |
| ClippyPolicy.TokensOfJoinExactly | crates/jig-bootstrap/src/clippy_policy.rs:192-200 | splitting words joined by spaces gives them back exactly when none is empty or holds white space |
| ClippyPolicy.TokensSplitAtBlanks | crates/jig-bootstrap/src/clippy_policy.rs:204 | white space ends a word, whatever surrounds it |
| ClippyLevels.LevelsOfItems | crates/jig-bootstrap/src/clippy_policy.rs:251-291 | a list of lint settings in any spelling, long or short, attached or separate, and of other words reads back as the levels of the settings that name the lint, in order |
| ClippyLevels.ItemsOf | crates/jig-bootstrap/src/clippy_policy.rs:251-291 | every argument list is written in that way |
| ClippyLevels.LintArgumentsMeaning | crates/jig-bootstrap/src/clippy_policy.rs:192-218 | the arguments scanned are those after the first `--` of a single plain call without expansion or capped lints |
| ClippyLevels.EnforcesExactly | crates/jig-bootstrap/src/clippy_policy.rs:192-291 | a command is accepted exactly when it is such a call whose settings forbid the lint, or whose last one that names it denies it |
| ClippyLevels.SilentCommandIsNotEnforcing | crates/jig-bootstrap/src/clippy_policy.rs:192-291 | a command whose arguments do not name the lint is never accepted |
| ClippyShapes.ClassifiedExactly | crates/jig-bootstrap/src/clippy_policy.rs:50-84 | a command is recognised as generated exactly when a template printed it, and as the old version exactly when an old one did |
| ClippyShapes.EnforcesThroughWrappers | crates/jig-bootstrap/src/clippy_policy.rs:89-101 | a wrapped command is accepted exactly when the wrapped one is, and a list exactly when all its commands are |
| ClippyShapes.OldCommandsDoNotEnforce | crates/jig-bootstrap/src/clippy_policy.rs:89-101 | the old generated commands are not accepted |
| ClippyPolicy.OptionalSplits | crates/jig-repository/src/shell.rs:6-32 | the branches of a wrapped command are the command and its fallback exactly when the command does not hold the separating text itself |
| ClippyPolicy.UpgradeIsStable | crates/jig-bootstrap/src/clippy_policy.rs:28-101 | an upgraded command is current, upgrades to itself, keeps every manifest in order and is accepted as enforcing the lint |
| Reachability.WorklistDone | scripts/test-rust-affected.py:270-276 | a worklist that has run out has visited exactly the reachable nodes |
| AffectedTests.AffectedSelection | scripts/test-rust-affected.py:213-244 | the loop's selection is the union of what each path asks for, and the full suite exactly when some path asks for it |
| AffectedTests.OwnerIsNearest | scripts/test-rust-affected.py:227-231 | a path belongs to the package of the nearest directory above it that is a package root, and to none exactly when there is none |
| AffectedTests.FirstReaderIs | scripts/test-rust-affected.py:237-241 | of the readers outside the packages the first whose pattern covers the path decides |
| AffectedTests.MatchesExactly | scripts/test-rust-affected.py:209-210 | a pattern that ends in a slash covers what is below it, any other only itself |
| AffectedTests.SelectionIgnoresOrder | scripts/test-rust-affected.py:213-244 | the order and repetition of paths do not matter |
| AffectedTests.SelectionIsMonotone | scripts/test-rust-affected.py:213-244 | more changed paths never select less |
| AffectedTests.WorkspaceDependencies | scripts/test-rust-affected.py:263-276 | fails exactly for a package outside the workspace; otherwise the closure is reflexive-transitive reachability, on cyclic graphs too |
| AffectedTests.SelectsPackage | scripts/test-rust-affected.py:279-294 | fails exactly for a package outside the workspace; otherwise true exactly when the selection covers it |
| AffectedTests.SelectsAgreesWithFilterset | scripts/test-rust-affected.py:254-294 | that is, exactly when some term of the filterset runs the package's tests |
| AffectedTests.FilterScopeMeaning | scripts/test-rust-affected.py:279-294 | the scope read from a filter is the package that its text limits it to, and none exactly when it does so for none |
| AffectedTests.DependentsRun | scripts/test-rust-affected.py:213-294 | a path owned by a package and not below `__pycache__` selects every package that depends on it, or the full suite |
| AffectedTests.OwnTestsRunUnlessGenerated | scripts/test-rust-affected.py:224-238 | among any other changes that do not run them, a change to a path of a package runs that package's tests exactly when the path is not below `__pycache__` |
| AffectedTests.GeneratedChangesNothing | scripts/test-rust-affected.py:213-238 | a path below `__pycache__` changes nothing in any selection |
| AffectedTests.BytecodeOfAPackage | scripts/test-rust-affected.py:213-238 | one input: `a/__pycache__/x` belongs to the package at `a` and does not run its tests |
| CiInputs.BackendCiInputPaths | crates/jig-bootstrap/src/repository_model.rs:250-312 | ends on every graph, and returns in order exactly the owners' roots and what the actions reachable from the seeds read |
| CiInputs.WatchedIgnoresSeedOrder | crates/jig-bootstrap/src/repository_model.rs:270-311 | the order and repetition of seeds do not matter |
| CiInputs.FindAction | crates/jig-bootstrap/src/repository_model.rs:298-300 | the action of a target that stands first in the list, or none exactly when the target is unknown |
| CiInputs.ReadsExactly | crates/jig-bootstrap/src/repository_model.rs:298-309 | a target reads exactly the inputs of its first action and what is below its first component's root |
| CiInputs.OwningIds | crates/jig-bootstrap/src/repository_model.rs:256-266 | exactly the components with one of the adapters |
| CiInputs.SeedTargets | crates/jig-bootstrap/src/repository_model.rs:276-286 | exactly the owners' actions with one of the aliases |
| BuildIdentity.StreamIsInjective | crates/jig/build_identity.rs:196-228 | the byte stream determines the configuration list and the labelled contents |
| BuildIdentity.FieldSplits | crates/jig/build_identity.rs:395-398 | a length-prefixed field says where it ends |
| BuildIdentity.CollectFiles | crates/jig/build_identity.rs:329-393 | fails exactly when the tree holds anything but files and directories; otherwise adds exactly its files |
| BuildIdentity.NamedInputs | crates/jig/build_identity.rs:286-327 | fails exactly when a required file is missing or something named is not a regular file |
| BuildIdentity.IdentityInputs | crates/jig/build_identity.rs:232-248 | returns exactly the layout's inputs, or fails when one cannot be inspected |
| BuildIdentity.HashPairs | crates/jig/build_identity.rs:205-228 | feeding field after field is feeding the concatenated fields |
| BuildIdentity.ComputeForLayout | crates/jig/build_identity.rs:187-230 | the digest is taken of the sorted distinct configuration and the sorted inputs with their contents |
| BuildIdentity.InputsAreProper | crates/jig/build_identity.rs:210-219 | every input path below the root has non-empty components without slashes |
| BuildIdentity.IdentityOnLabels | crates/jig/build_identity.rs:187-230 | two builds feed the same stream exactly when their configurations are the same set and the same labels stand before the same contents |
| BuildIdentity.IdentityMeaning | crates/jig/build_identity.rs:187-230 | when no two paths share a label, two builds feed the same stream exactly when their configurations are the same set and the same files have the same contents |
| BuildIdentity.Utf8LabelsTell | crates/jig/build_identity.rs:210-219 | no two paths share a label when each path is its own lossy text, as UTF-8 paths are |
| BuildRenaming.RenameIsInvisible | crates/jig/build_identity.rs:187-230 | renaming one file leaves the stream as it was exactly when both paths have one label and so has, with the same contents, every input between them |
| BuildRenaming.SharedLabelIsInvisible | crates/jig/build_identity.rs:210-219 | two packages that the code accepts, with one source file under two names that share a label: their inputs differ and their streams do not |
| PathManifest.EntryMeaning | crates/jig-bootstrap/src/managed_paths.rs:175-217 | an entry is accepted exactly when it is a safe path written with single slashes |
| PathManifest.ReservedExactly | crates/jig-context/src/validation.rs:312-330 | a component is reserved exactly when it spells `.git` in any case with any of the ignored characters between |
| PathManifest.PathStringMeaning | crates/jig-bootstrap/src/managed_paths.rs:219-236 | a path has a manifest text exactly when it is safe |
| PathManifest.OrdersAgree | crates/jig-bootstrap/src/managed_paths.rs:110-117 | component order and text order agree on two paths exactly when neither goes on below a component that the other extends by a character before the slash |
| PathManifest.WriteManifest | crates/jig-bootstrap/src/managed_paths.rs:108-121 | succeeds exactly for sets of safe paths that list the manifest, and writes them in component order |
| PathManifest.BinarySearch | crates/jig-bootstrap/src/managed_paths.rs:161-165 | finds the key exactly when it is listed |
| PathManifest.ValidateEntries | crates/jig-bootstrap/src/managed_paths.rs:142-160 | comparing neighbours accepts exactly the strictly increasing lists of valid entries |
| PathManifest.ValidateManifest | crates/jig-bootstrap/src/managed_paths.rs:133-173 | accepts exactly version 1, valid, strictly increasing, self-listing manifests |
| PathManifest.LoadManifest | crates/jig-bootstrap/src/managed_paths.rs:83-106 | no manifest, a rejection, or the set of its paths |
| PathManifest.WriteThenLoad | crates/jig-bootstrap/src/managed_paths.rs:83-131 | loading what was written gives the set back exactly when no two paths conflict, and is rejected otherwise |
| PathManifest.ConflictExample | crates/jig-bootstrap/src/managed_paths.rs:83-131 | the manifest with `a/b` and `a.b` is written and then rejected |
| PathManifest.LoadLosesNothing | crates/jig-bootstrap/src/managed_paths.rs:103-105 | turning an accepted list into a set loses no entry |
| PathManifest.LoadThenWrite | crates/jig-bootstrap/src/managed_paths.rs:83-131 | writing what was loaded reproduces the manifest exactly when no two paths conflict |
| FileTree.FileSystem.RenameNoReplace | crates/jig-repository/src/path.rs:1652-1675 | a recorded rename had an existing source and an absent destination at that moment, whatever others did before; undisturbed, it succeeds exactly then |
| FileTree.FileSystem.Verify | crates/jig-repository/src/path.rs:357-370 | a recorded verification found that directory at that path at that moment; undisturbed, it succeeds exactly then |
| GitTransfer.RequireStagedGit | crates/jig-bootstrap/src/git.rs:517-540 | a mismatch or an error sets the flag |
| GitTransfer.MoveEntry | crates/jig-bootstrap/src/git.rs:431-463 | checks, a rename, checks; stopping at the rename sets the flag |
| GitTransfer.Snapshot | crates/jig-bootstrap/src/git.rs:376-429 | the names are those listed, sorted; a failed listing sets the flag |
| GitTransfer.RemoveSource | crates/jig-bootstrap/src/git.rs:473-511 | a late entry or a failed removal sets the flag |
| GitTransfer.MoveDirectoryContents | crates/jig-bootstrap/src/git.rs:368-515 | the calls made are a prefix of the transfer script, all of it exactly on success, and the call it stopped at was refused; stopping short sets the flag unless a staging directory itself could not be verified; undisturbed, they are a run from the world before to the world after, and it stops only where the next call is impossible |
| GitTransferFacts.TransferMovesEachOnce | crates/jig-bootstrap/src/git.rs:431-511 | a complete transfer renames each listed name once, in order, then removes the source, and changes nothing else |
| GitTransferFacts.OwnCallsLoseNothing | crates/jig-bootstrap/src/git.rs:368-515 | whatever others do, no call of this process rebinds a name or unbinds an object, except that removing an empty directory unbinds that directory and nothing else |
| GitTransferFacts.AloneTransfersAll | crates/jig-bootstrap/src/git.rs:368-515 | after a run of the whole script the destination has gained exactly the source's entries under names it did not have, the source is gone, and all else is as it was |
| GitTransferFacts.TransferAlone | crates/jig-bootstrap/src/git.rs:368-515 | an undisturbed transfer that succeeds does just that to the world it was called in |
| GitPublication.RenameToUniqueSibling | crates/jig-bootstrap/src/git.rs:1725-1773 | the names are tried in order, each after a refusal of the one before; it gives up after 128, or undisturbed when a rename to a free name is refused |
| GitPublication.CleanupStagingDirectory | crates/jig-bootstrap/src/git.rs:1702-1723 | with the flag set nothing is done; otherwise the directory is verified, moved aside, verified twice more, and only then removed; it fails only on a refused call |
| GitPublication.AloneRemovesOwn | crates/jig-bootstrap/src/git.rs:1702-1723 | undisturbed, what is removed is the staging directory itself |
| GitPublication.ValidatePublished | crates/jig-bootstrap/src/git.rs:1672-1700 | a wrong directory at the destination is moved aside, never removed; undisturbed, it is accepted exactly when it is the published one |
| GitPublication.PublishStagedGitDirectory | crates/jig-bootstrap/src/git.rs:1603-1670 | either the rename committed and only validation follows, or a call was refused and the staging directory is cleaned up; contention is reported only after a complete cleanup; undisturbed, it commits exactly when the staging directory is in place and the name is free |
| GitPublication.CommittedIsNeverCleaned | crates/jig-bootstrap/src/git.rs:1658-1669 | once the rename committed no directory is removed, empty or not, and nothing else is renamed onto `.git` |
| GitPublication.WithdrawnLeavesDestination | crates/jig-bootstrap/src/git.rs:1629-1669 | otherwise `.git` is not touched, and only a quarantined staging directory is removed, nothing with the flag set |
| GitPublication.CloseAfterFailedTransfer | crates/jig-bootstrap/src/git/init.rs:186-194 | after a failed transfer a flagged source staging directory is left alone, while the receiving one is cleaned up |
| GitInitTransfer.TransferMetadata | crates/jig-bootstrap/src/git/init.rs:158-185 | the transfer step with its checks before and after makes a prefix of its script, all of it exactly on success; it stops at a refused call or because the source is not readable or the result not valid |
| GitInitTransfer.TransferOrClose | crates/jig-bootstrap/src/git/init.rs:158-194 | its calls are the script, or a proper prefix of it, whose next call was refused unless the source was not readable or the result not valid, and then prefixes of the cleanups of the receiving and of the holding directory, the last one empty when the flag was set; undisturbed, they are a run |
| GitInitFacts.PrefixReceived | crates/jig-bootstrap/src/git/init.rs:158-185 | however far the step got undisturbed, the destination has received some of the names, and at least one exactly when an entry was renamed |
| GitInitFacts.FailureRemovesTransferred | crates/jig-bootstrap/src/git/init.rs:186-194 | for every failure whose cleanup of the receiving directory completes: the directory removed holds transferred metadata exactly when an entry was renamed before the failure |
| GitInitFacts.FirstEntryIsLost | crates/jig-bootstrap/src/git/init.rs:186-194 | one run: the first of two entries is moved, the second rename is refused, and after the cleanup the first is in neither directory |
| CommandTable.ReconcileCommands | crates/jig-bootstrap/src/runtime_config.rs:147-271 | the loop with all its early continues is the fold of one decision per entry |
| CommandTable.RequiredStaysRunnable | crates/jig-bootstrap/src/runtime_config.rs:255-268 | a required command that the render could run can still be run: it never becomes blank |
| CommandTable.PreferredKeepsItsCommand | crates/jig-bootstrap/src/runtime_config.rs:174-214 | a preferred key that was rendered keeps its rendered command |
| CommandTable.KeysOnlyGrow | crates/jig-bootstrap/src/runtime_config.rs:147-271 | no rendered key disappears |
| CommandTable.CommandsHaveAnOrigin | crates/jig-bootstrap/src/runtime_config.rs:147-271 | every command comes from the render, from its own key, or from a key that it replaces |
| CommandTable.ClosedForm | crates/jig-bootstrap/src/runtime_config.rs:173-269 | an entry that competes with no other for a key is judged against the rendered table alone, whatever else the table holds |
| CommandTable.OrderMattersOnlyInContests | crates/jig-bootstrap/src/runtime_config.rs:173-269 | two orders of the existing table that agree on every competing pair give the same result |
| Folds.OrderMattersOnlyAmongRivals | crates/jig-bootstrap/src/runtime_config.rs:173-269 | a fold whose steps commute but for rivals depends only on the order among rivals |
| CommandTable.OwnCommandWins | crates/jig-bootstrap/src/runtime_config.rs:205-269 | an own command that competes with no other is at its destination, the required key that replaces its own or else its own, in every contract version; or a preferred or retired key bars it and its keys stay as rendered |
| CommandTable.LastTurnDecides | crates/jig-bootstrap/src/runtime_config.rs:173-269 | in every table a key has the command of the last entry whose turn writes it, and is as rendered when no turn does |
| CommandTable.OwnCommandStays | crates/jig-bootstrap/src/runtime_config.rs:173-269 | in every table an own command enters at its destination exactly when it is not barred, and is there in the end exactly when the last later entry that claims the key, judged against the rendered table, has the same command |
| CommandTable.LaterRivalWins | crates/jig-bootstrap/src/runtime_config.rs:205-269 | of two own commands with one destination the later one is there in the end, if nothing after it claims the key |
| CommandTable.CurrentKeyIsDisplaced | crates/jig-bootstrap/src/runtime_config.rs:226-234 | one table: the command under `api_test_command` is lost to the one under `rust_test_command` |
| CommandTable.GeneratedClippyIsRefreshed | crates/jig-bootstrap/src/runtime_config.rs:188-225 | an earlier generated Clippy command never displaces the one rendered now |
| CommandTable.GeneratedLocIsRefreshed | crates/jig-bootstrap/src/runtime_config.rs:175-185 | nor an earlier generated line-count command the one rendered now under its key |
| CommandTable.DefaultsDoNotReturn | crates/jig-bootstrap/src/runtime_config.rs:194-256 | a default generated for an app or for the frontend does not come back under a key that is not required |
| WorkGates.MergeGates | crates/jig-bootstrap/src/runtime_config.rs:396-477 | fails exactly when an existing gate contradicts the check it matches first; otherwise the generated gates come first and then the existing gates that nothing before covers and that are not retired, being evidence, reviews, or checks with a supported tool, in order, each as its matches left it, with distinct ids |
| WorkGates.MergeOne | crates/jig-bootstrap/src/runtime_config.rs:407-476 | one existing gate edits the first gate it matches, is added, or leaves no trace; it is refused exactly when it contradicts that gate |
| WorkGates.NothingOwnedIsLost | crates/jig-bootstrap/src/runtime_config.rs:405-477 | every valid, kept existing gate is in the result or matches a gate there |
| WorkGates.OwnGateIsKept | crates/jig-bootstrap/src/runtime_config.rs:464-476 | one that no other gate speaks for is there word for word |
| WorkGates.AdditionsKeepOrder | crates/jig-bootstrap/src/runtime_config.rs:464-476 | the added gates are existing gates in the order of the existing list |
| WorkGates.RefusedByWhom | crates/jig-bootstrap/src/runtime_config.rs:447-454 | a refused gate contradicts a generated or another existing gate on kind or tool |
| WorkGates.PolicyHasOneOwner | crates/jig-bootstrap/src/runtime_config.rs:430-462 | a generated check takes requirement and reuse from the last deciding gate that states one; deciding gates agree on kind and tool; an alias has no say once the exact identity exists |
| WorkGates.OtherPolicy | crates/jig-bootstrap/src/runtime_config.rs:453-462 | a generated gate that is no check takes its requirement from the last gate that matches it first, means the same and states one; nothing else of it changes |
| WorkGates.FirstMatch | crates/jig-bootstrap/src/runtime_config.rs:414-429 | the first gate that an existing gate matches by id or alias |
| QuotaProjection.ProjectionFollowsThePace | crates/jig-agents-tui/src/model.rs:530-563 | past the warmup the projection is where the pace so far leads; early exactly when that exhausts the quota before the reset |
| QuotaProjection.ProjectionKinds | crates/jig-agents-tui/src/model.rs:517-550 | when there is no projection, an exhausted one, or one still collecting, without fractions |
| QuotaProjection.DurationMeaning | crates/jig-agents-tui/src/model.rs:518-521 | a window's length is sixty seconds for each of its minutes, unless there are none or 64 bits do not hold it |
| QuotaProjection.ProjectableMeaning | crates/jig-agents-tui/src/model.rs:517-540 | there is a projection exactly when everything is used or now is inside of the window that ends at the reset |
| QuotaProjection.EarlyExhaustionIsAhead | crates/jig-agents-tui/src/model.rs:553-562 | a projected early exhaustion is after now and before the reset, and its seconds are at most the time left |
| QuotaProjection.QuotaExpiryIsEarliest | crates/jig-agents-tui/src/model.rs:412-419 | the quota expiry is the earliest of the cap and the sampled windows' resets |
| QuotaProjection.ProjectionExpiryIsEarliest | crates/jig-agents-tui/src/model.rs:421-440 | the projection expiry is the earliest of the cap and the projectable windows' resets |
| QuotaProjection.QuotaExpiresFirst | crates/jig-agents-tui/src/model.rs:412-440 | the quota expires no later than the projection |
| QuotaProjection.FreshnessMeaning | crates/jig-agents-tui/src/model.rs:200-226 | a sample is fresh exactly for fifteen minutes and until a sampled window is reset, and its projection until a projected one is; without a presented sample neither is |
| QuotaProjection.FreshQuotaFreshProjection | crates/jig-agents-tui/src/model.rs:200-232 | a fresh quota sample implies a fresh projection |
| QuotaProjection.BucketProjectionAt | crates/jig-agents-tui/src/model.rs:354-400 | the bucket speaks through its first worst window, an exhausted one before one that will exceed its quota before one that will have something left, under the role of its length, and partial exactly when some window has no score; failing that through the scarcest one still collecting |

## Left out

- Guard files: opening them and checking that they are regular and single-linked, and their removal by others.
- Retry delays and timeouts: an attempt count, or a flag that may be set at any time.
- Overflow of the executor's ticket counter.
- Terminal drawing, key maps, mouse handling beyond focus, last click and double click, the time window of a double click (whether a second click is in time is left open), and cancellation of the picker.
- The assessment of one home's details in home selection: a parameter.
- The tables of the test-selection script, the text of its filterset, and the nextest command line: parameters or not modelled.
- The OpenAPI document checks that add CI seeds (a parameter) and the collapsing of CI inputs to `**`.
- SHA-256, files that change while the identity is computed, and the text of the lossy conversion of a path (a parameter).
- JSON and TOML syntax, file modes, error texts, and the ancestor checks before a manifest is read or written.
- The recursion inside a tree removal: it is recorded as one call of which nothing is known.
- The snapshot hook of the metadata transfer, which only tests use; others may act at that point anyway.
- Validation of a `.git` that is already there, validation of the staged repository and the reading of its permissions: their answers are parameters.
- CommandTable.ReconcileCommands: existing values that are not strings are not modelled; the recognisers of generated commands and the table of replacements are parameters.
- WorkGates.MergeGates: schema validation of a gate, the contract's tools and the list of retired gates are parameters, and what a gate means is taken not to depend on which valid requirement it states; the `checks` list and the other fields of the work table are not modelled.
- QuotaProjection.ProjectionFollowsThePace: reals instead of floats, so rounding of intermediate results is not modelled.
- Init and update transactions, template rendering, presets and scaffolds.
