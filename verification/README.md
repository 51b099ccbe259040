# Verified models of the Hardhat fork

Dafny models of the parts of this repository whose correctness is hard to see
from one function, with proofs of what they promise. `dafny verify dfyconfig.toml`
checks everything.

| files | models |
|---|---|
| `Prelude.dfy` | optional values and the names plain objects inherit |
| `EditDistance.dfy`, `Suggestions.dfy` | the optimised edit distance and the "did you mean" search built on it |
| `CountingObject.dfy`, `DuplicateNames.dfy` | replacing suggested names that are not unique |
| `Snapshots.dfy`, `Fixtures.dfy`, `FixtureLoader.dfy` | `loadFixture` and `takeSnapshot` on a node with a snapshot table |
| `Polling.dfy`, `BlockDelivery.dfy`, `EthersProvider.dfy`, `Registrations.dfy` | the event polling of `HardhatEthersProvider`: the protocol, what listeners receive, the object, and what becomes of a registration |
| `ContractNames.dfy`, `TrueCase.dfy`, `ArtifactStore.dfy`, `BareNames.dfy`, `Artifacts.dfy` | names, paths, the search for a file's true casing, looking contracts up, and the `Artifacts` object with its caches and clean-up |
| `Json.dfy`, `BuildInfoWriter.dfy` | the build-info file that is written piece by piece |
| `SolidityBuild.dfy`, `SolidityMerging.dfy`, `SolidityRuns.dfy`, `SolidityRerun.dfy`, `SolidityRenaming.dfy` | the incremental Solidity build: compiling job by job, merging jobs, whole runs in one or several processes, running again, and runs that go wrong |
| `SolidityStore.dfy`, `SolidityCompile.dfy` | how its artifacts lie in the directory of the `Artifacts` object, and its loops over that object and the cache |
| `VyperBuild.dfy`, `VyperCompile.dfy` | the incremental Vyper build |
| `SlowImports.dfy` | the ESLint rule that looks for slow top-level imports |
| `Linking.dfy` | choosing library links and patching the bytecode |
| `Remappings.dfy` | reading and applying import remappings |

Code that updates state step by step is a class or a method with loops, proved
against functions on values; the lemmas are about those functions, over all
inputs, all runs or all reachable states. Code that computes is functions and lemmas.

The environment enters as parameters with stated assumptions: hashes without
collisions, compilers as functions (of a file and its imports for Solidity, of one
file for Vyper), a highest-version function, module resolution that only finds
files that exist, `toLowerCase`, a total order of names in which folders are listed,
and the content of files. Comparing a Vyper run with a build from scratch also assumes
that a pragma which is a version some compiler reports admits no other compiler. Solidity
files are known by their source names, and the directory of their runs is a tree of folders
and `.json` files. The node is modelled from its own source.

## What the proofs found

The code is modelled as it is; where a plausible property fails there is a concrete
input and the exact condition under which the property holds.

- Counting suggestions in a plain object: names it inherits, such as `toString`, are
  miscounted and `__proto__` is lost (`TwoToStringsAreOfferedOnce`,
  `ProtoIsNeverOffered`, exactly: `AsManySuggestionsExactly`, `NoFileIsLostExactly`,
  `EverySuggestionIdentifiesOneExactly`).
- `once` and `on` for the same block listener: removal is by function, so a `once`
  registration made after a lasting one takes the lasting one away
  (`OnceRemovesTheLastingOne`, exactly: `OnceRemovesItself`).
- Two registrations in a row: the second start call takes a Hardhat network whose answer
  is still on its way for another one and polls ten times more slowly
  (`ImpatientStartIsSlow`, exactly: `BlockStartRuns`, `HashStartRuns`).
- A rejected block-number request leaves a registered listener without a poll
  (`RejectedRequestStrands`, exactly: `BlockStrandedExactlyWhenRejected`).
- The error text in packages/hardhat-network-helpers/src/errors.ts says nested
  `loadFixture` calls are not supported. Nested calls never raise that error
  (`StepKeeps`). A revert by the test can
  (`LoadAfterOwnRevertFails`, exactly: `OwnRevertIsHarmless`), and so can
  a reset of the node, which can also bring a fixture's data back on another
  fixture's state (`LoadAfterResetFails`, `LoadAfterResetMixesUp`, exactly:
  `ResetIsHarmlessExactly`). The comment on `loadFixture` says an anonymous fixture is
  executed each time; the code raises an error instead, and so does the model.
- The Solidity cache is not sound when a cached file leaves the dependency graph
  and comes back (`StaleAfterLeavingTheGraph`, exactly: `StaysFreshExactly`, and file by file
  `EndsCleanExactly`). Such a file also stops every clean-up once it has lost an
  artifact (`LostArtifactStopsTheCleanUp`, exactly: `SolidityRuns.CompletesExactly`).
- The `Artifacts` object never forgets a valid artifact, so a second Solidity run in one
  process keeps the artifact of a contract renamed meanwhile (`RenamedContractStays`), and
  after the `clean` task it stops (`RenamedContractStopsAfterClean`; exactly:
  `IncrementalIsClean`, `EveryRunIsCleanExactly` and `SolidityRuns.CompletesExactly`).
  packages/hardhat-core/test/builtin-tasks/compile.ts, lines 957-965, knows the first.
- The search for an artifact takes the first entry that is right up to letter case, so one
  of `Token` and `token` is never found (`TokenIsMistakenForItsTwin`, exactly:
  `FoundExactly`), and every run of a project with both is stopped (`CaseTwinsStop`).
- A Vyper file is skipped only when its pragma is literally the version the compiler
  reports; any range is compiled again in every run (`SecondRunRecompilesExactly`).
  A skipped file may have lost its configured compiler without an error
  (`SkippedWithoutACompiler`, exactly: `CompilersMayGoExactly`).
- The visited set of the import rule outlives the linted file, so a later file gets
  no report (`SecondFileIsNotReported`; `Lint` is exact relative to that set).
- A library address without `0x`, if the address check lets it through, shifts the
  bytecode (`UnprefixedAddressShifts`, exactly: `LengthKeptExactly`).
- A remapping target is cut at an `=` (`TargetIsKeptExactly`), expanded at some `$`
  (`MatchIsExpanded`, exactly: `ExpandExactly`), and ignored for prefixes such as
  `constructor` (`ConstructorIsIgnored`, exactly: `FirstLineWins`).
- Artifacts of sources in a folder whose name starts with `build-info` are found by
  their qualified name but neither listed nor cleaned up (`ListedExactly`), and compiled
  in every run (`BuildInfoSourceIsInvalidated`); in a folder
  named just that, a clean-up deletes them though they are valid, and may keep a build
  info nothing points to (`StrayCleanUp`, exactly: `ValidSurvivesExactly` and
  `BuildInfosLeftExactly`).

## Model

| member | source | states |
|---|---|---|
| `ContractDistance.FindDistance` | packages/hardhat-core/src/utils/contract-names.ts:73-174 | for all strings of UTF-16 code units, in either order, the number returned is the recursive Levenshtein distance |
| `ContractDistance.FewestEdits` | packages/hardhat-core/src/utils/contract-names.ts:64-73 | that number is the length of a shortest script of insertions, deletions and replacements: some script has this length and none is shorter |
| `Levenshtein.ShortestScript` | packages/hardhat-core/src/utils/contract-names.ts:64-73 | a script of exactly that many edits exists for any two strings |
| `Levenshtein.NoShorterScript` | packages/hardhat-core/src/utils/contract-names.ts:64-73 | every script that turns one string into the other has at least that many edits |
| `ContractDistance.CellIsNext` | packages/hardhat-core/src/utils/contract-names.ts:74-88 | the reordered minimum `_min`, which looks at two neighbours before the characters, yields the next cell of the table |
| `Levenshtein.Adjacent` | packages/hardhat-core/src/utils/contract-names.ts:81-87 | neighbouring cells differ by at most 1, for all strings: the fact `_min` depends on |
| `Levenshtein.Symmetric` | packages/hardhat-core/src/utils/contract-names.ts:94-96 | swapping the arguments leaves the distance unchanged |
| `Levenshtein.TrimLast` | packages/hardhat-core/src/utils/contract-names.ts:101-104 | a common last character may be dropped |
| `Levenshtein.TrimFirst` | packages/hardhat-core/src/utils/contract-names.ts:108-110 | a common first character may be dropped |
| `Levenshtein.ShortDistance` | packages/hardhat-core/src/utils/contract-names.ts:115-117 | after trimming, with the shorter part empty or the longer under 3 characters, the distance is the longer length |
| `Levenshtein.ZeroIffEqual` | packages/hardhat-core/src/utils/contract-names.ts:90-92 | the distance is 0 exactly for equal strings |
| `ContractDistance.TrimSuffix` | packages/hardhat-core/src/utils/contract-names.ts:101-104 | the loop keeps the distance and leaves no common last character |
| `ContractDistance.TrimPrefix` | packages/hardhat-core/src/utils/contract-names.ts:106-110 | the loop keeps the distance and leaves no common first character |
| `ContractDistance.FourCells` | packages/hardhat-core/src/utils/contract-names.ts:148-154 | the four chained updates give four exact cells of the table |
| `ContractDistance.FourRows` | packages/hardhat-core/src/utils/contract-names.ts:142-161 | one pass of the unrolled loop moves the whole array four rows of the table on |
| `ContractDistance.OneRow` | packages/hardhat-core/src/utils/contract-names.ts:163-171 | one pass of the tail loop moves the array one row on |
| `ContractDistance.FillTable` | packages/hardhat-core/src/utils/contract-names.ts:119-173 | the array that is overwritten in place ends with the distance in its last entry |
| `ContractDistance.TrimAndFill` | packages/hardhat-core/src/utils/contract-names.ts:98-174 | the part after the swap returns the distance of its arguments |
| `Suggestions.GetSimilarContractNames` | packages/hardhat-core/src/internal/artifacts.ts:774-796 | the loop returns, in order and with repetitions, the names at the least distance |
| `Suggestions.SuggestedExactly` | packages/hardhat-core/src/internal/artifacts.ts:774-796 | a name is suggested if and only if it is within the threshold of 3 and no name is nearer, and as often as it occurs |
| `Suggestions.SuggestedInOrder` | packages/hardhat-core/src/internal/artifacts.ts:774-796 | suggestions come in the order of the names |
| `Suggestions.DecodedUnits` | packages/hardhat-core/src/utils/contract-names.ts:102-102 | distances are counted in UTF-16 code units, and the units of a name determine it |
| `CountingObject.CountNames` | packages/hardhat-core/src/internal/artifacts.ts:745-750 | the object after the `reduce`: numbers for ordinary names, a text for each inherited function, nothing for `__proto__`, keys in the order they were made |
| `CountingObject.EnumerationOrder` | packages/hardhat-core/src/internal/artifacts.ts:752-752 | the names are enumerated with the array indices first, ascending, and then the others in the order they were counted |
| `CountingObject.IndexExactly` | packages/hardhat-core/src/internal/artifacts.ts:752-752 | the array indices are the numbers below 2^32 - 1 exactly as they are written in decimal |
| `DuplicateNames.FilterDuplicatesAsFullyQualifiedNames` | packages/hardhat-core/src/internal/artifacts.ts:741-766 | the names as the object enumerates them, array indices first, each bare or replaced by the qualified names of all its files |
| `DuplicateNames.AsManySuggestionsExactly` | packages/hardhat-core/src/internal/artifacts.ts:741-766 | replacing duplicates keeps the number of suggestions if and only if no name is `__proto__` and none that occurs again is an inherited function |
| `DuplicateNames.EverySuggestionIdentifiesOneExactly` | packages/hardhat-core/src/internal/artifacts.ts:741-766 | every suggestion is the name or the qualified name of exactly one file if and only if no inherited function occurs again |
| `DuplicateNames.TwoToStringsAreOfferedOnce` | packages/hardhat-core/src/internal/artifacts.ts:745-758 | two contracts `toString` and a misspelt `toStrin`: one bare name is offered and identifies neither |
| `DuplicateNames.ProtoIsNeverOffered` | packages/hardhat-core/src/internal/artifacts.ts:745-750 | a contract named `__proto__` is never offered among others |
| `DuplicateNames.NearestAreWholeGroups` | packages/hardhat-core/src/internal/artifacts.ts:656-661 | a nearest name is suggested once for each file that bears it, which the results above need |
| `DuplicateNames.HandleWrongArtifactForContractName` | packages/hardhat-core/src/internal/artifacts.ts:706-726 | what a user who mistypes a name is offered: a single nearest name as it is; several without repetition, and, exactly when the object can count them, as many as there are nearest files and each such file under a name that identifies it alone |
| `DuplicateNames.NoFileIsLostExactly` | packages/hardhat-core/src/internal/artifacts.ts:741-766 | every file with a nearest name is suggested under a name that identifies it alone if and only if no name is `__proto__` and none that occurs again is an inherited function |
| `DuplicateNames.OfferedDistinct` | packages/hardhat-core/src/internal/artifacts.ts:741-766 | no two suggestions are the same, whatever the names |
| `ContractNames.ParseFqn` | packages/hardhat-core/src/utils/contract-names.ts:48-62 | parsing a qualified name gives its source and contract name back, also when the source name holds colons |
| `ContractNames.JoinSplit` | packages/hardhat-core/src/utils/contract-names.ts:52-59 | joining what a split gave is the identity, for every string and separator |
| `ContractNames.SplitJoin` | packages/hardhat-core/src/utils/contract-names.ts:52-59 | splitting what a join gave is the identity, for parts without the separator |
| `ContractNames.ArtifactPathRoundTrip` | packages/hardhat-core/src/internal/artifacts.ts:417-424 | from a normalised source name and a plain contract name to the artifact path and back is the identity |
| `ContractNames.DistinctContractsDistinctFiles` | packages/hardhat-core/src/internal/artifacts.ts:833-835 | different contracts never share an artifact path or a debug file path |
| `ContractNames.DebugFileIsAnArtifactExactlyWhen` | packages/hardhat-core/src/internal/artifacts.ts:833-835 | one contract's debug file is another's artifact exactly when they share the source and the other's name is the first one's with `.dbg` |
| `FixtureSpec.RecordedAreExactlyTheLive` | packages/hardhat-network-helpers/src/loadFixture.ts:33-70 | after any run of transactions and `loadFixture` calls nested to any depth, and of resets while nothing is recorded, the node still has the current snapshot of every recorded fixture and of none that was pruned |
| `FixtureSpec.PruningIsExact` | packages/hardhat-network-helpers/src/loadFixture.ts:43-48 | filtering by the ids shown at creation removes exactly the elements whose current snapshot the restore destroyed |
| `FixtureSpec.ReloadRepeatsFirstRun` | packages/hardhat-network-helpers/src/loadFixture.ts:42-57 | whatever tame actions come between, loading a fixture recorded by a first run returns that run's data and puts the chain where that run left it |
| `FixtureSpec.OwnRevertIsHarmless` | packages/hardhat-network-helpers/src/loadFixture.ts:49-55 | a revert made by the test itself leaves every fixture restorable if and only if no recorded fixture was created or restored since that snapshot |
| `FixtureSpec.ResetIsHarmlessExactly` | packages/hardhat-core/src/internal/hardhat-network/provider/provider.ts:349-359 | resetting the node leaves every fixture restorable if and only if nothing is recorded |
| `FixtureSpec.LoadAfterResetFails` | packages/hardhat-network-helpers/src/loadFixture.ts:42-55 | loading a fixture, resetting and loading it again raises the error without any revert by the test |
| `FixtureSpec.LoadAfterResetMixesUp` | packages/hardhat-network-helpers/src/loadFixture.ts:42-57 | with another fixture loaded after the reset, the first one's data comes back on the other one's state |
| `FixtureSpec.NoResetRunIsGuarded` | packages/hardhat-network-helpers/src/loadFixture.ts:33-70 | every run without a reset meets the condition of the results above |
| `FixtureSpec.LoadAfterOwnRevertFails` | packages/hardhat-network-helpers/src/loadFixture.ts:42-55 | loading a fixture again after the test reverted to its snapshot raises the error |
| `FixtureSpec.StepKeeps` | packages/hardhat-network-helpers/src/loadFixture.ts:33-70 | every action but a reset with fixtures recorded keeps the ordering invariant; without a revert by the test every fixture stays restorable and `FixtureSnapshotError` is never raised |
| `FixtureSpec.LoadKeeps` | packages/hardhat-network-helpers/src/loadFixture.ts:33-70 | the same for `loadFixture` with any body, nested calls included |
| `FixtureSpec.AnonymousIsRefused` | packages/hardhat-network-helpers/src/loadFixture.ts:34-36 | an anonymous function is refused, with nothing run and nothing changed, and no named one is refused for that |
| `FixtureSpec.FirstLoadRunsTheBody` | packages/hardhat-network-helpers/src/loadFixture.ts:58-69 | loading a named fixture that is not recorded runs its body: if that throws so does the load, with nothing more recorded; otherwise its data is returned, the chain stays where the body left it, and one element with a snapshot of that state is recorded |
| `FixtureSpec.BodyIsRun` | packages/hardhat-network-helpers/src/loadFixture.ts:59-59 | a body runs its actions in order, up to and including the first that fails |
| `FixtureSpec.LastTransactionStands` | packages/hardhat-network-helpers/src/loadFixture.ts:59-59 | the transaction it ends with is what the chain is left in |
| `FixtureSpec.FailedFixtureRunsAgain` | packages/hardhat-network-helpers/src/loadFixture.ts:58-69 | a fixture whose body threw is run again by the next load |
| `FixtureSpec.BodyKeeps` | packages/hardhat-network-helpers/src/loadFixture.ts:59-59 | the same for the body of a fixture, which its first error ends |
| `FixtureSpec.RunKeeps` | packages/hardhat-network-helpers/src/loadFixture.ts:33-70 | the invariant holds after every sequence of actions, failing ones included |
| `FixtureSpec.PruneIsPrefix` | packages/hardhat-network-helpers/src/loadFixture.ts:45-48 | on a list with increasing creation ids the filter keeps a prefix |
| `FixtureSpec.ReloadNode` | packages/hardhat-network-helpers/src/helpers/takeSnapshot.ts:33-53 | which snapshots the node holds after a restore, and with which states |
| `FixtureLoading.SnapshotRestorer.Restore` | packages/hardhat-network-helpers/src/helpers/takeSnapshot.ts:33-53 | the closure moves its captured id to a new snapshot of the restored state, or changes nothing when the snapshot is gone |
| `FixtureLoading.TakeSnapshot` | packages/hardhat-network-helpers/src/helpers/takeSnapshot.ts:19-56 | the restorer shows the id it captured; the chain is as before but for one more snapshot |
| `FixtureLoading.FilterIsPrune` | packages/hardhat-network-helpers/src/loadFixture.ts:45-48 | filtering the list of restorer objects does to the recorded list what the specification's pruning does |
| `FixtureLoading.FixtureLoader.FindSnapshot` | packages/hardhat-network-helpers/src/loadFixture.ts:38-38 | the first element for this very function, if there is one |
| `FixtureLoading.FixtureLoader.LoadFixture` | packages/hardhat-network-helpers/src/loadFixture.ts:33-70 | the imperative `loadFixture` does to the list and the node what the specification says, error cases included |
| `FixtureLoading.FixtureLoader.ReloadAt` | packages/hardhat-network-helpers/src/loadFixture.ts:42-57 | restoring one element: list, node and outcome as specified, nothing changed on failure |
| `FixtureLoading.FixtureLoader.FilterSnapshots` | packages/hardhat-network-helpers/src/loadFixture.ts:45-48 | the list of restorer objects becomes the pruned one |
| `FixtureLoading.FixtureLoader.RestoreAt` | packages/hardhat-network-helpers/src/loadFixture.ts:44-44 | exactly one restorer of the list moves on |
| `FixtureLoading.FixtureLoader.PushRestorer` | packages/hardhat-network-helpers/src/loadFixture.ts:60-66 | the new element carries the snapshot just taken |
| `FixtureLoading.FixtureLoader.RunBody` | packages/hardhat-network-helpers/src/loadFixture.ts:59-59 | a fixture's body, run on the objects, is the specification's body |
| `Snapshots.TakeIsExact` | packages/hardhat-core/src/internal/hardhat-network/provider/node.ts:1086-1114 | a new snapshot has a fresh, largest id and the current state; all others stay |
| `Snapshots.RevertIsExact` | packages/hardhat-core/src/internal/hardhat-network/provider/node.ts:1116-1168 | a revert forgets that snapshot and all later ones and no others |
| `Snapshots.HardhatNode.Reset` | packages/hardhat-core/src/internal/hardhat-network/provider/provider.ts:349-359 | a reset node has no snapshot and its ids start again at 1 |
| `Snapshots.HardhatNode.TakeSnapshot` | packages/hardhat-core/src/internal/hardhat-network/provider/node.ts:1086-1114 | the object's table and counter become those of the specification |
| `Snapshots.HardhatNode.GetSnapshotIndex` | packages/hardhat-core/src/internal/hardhat-network/provider/node.ts:1998-2011 | giving up at the first larger id still finds every snapshot the node holds |
| `Snapshots.HardhatNode.RevertToSnapshot` | packages/hardhat-core/src/internal/hardhat-network/provider/node.ts:1116-1168 | true exactly when the node holds the id, and then the saved state is back; otherwise nothing changes |
| `Snapshots.HardhatNode.RemoveSnapshot` | packages/hardhat-core/src/internal/hardhat-network/provider/node.ts:2013-2019 | that snapshot and later ones are dropped, the chain state stays |
| `Snapshots.HardhatNode.MineTransactionAndPending` | packages/hardhat-core/src/internal/hardhat-network/provider/node.ts:1754-1770 | mining behind a private snapshot leaves the snapshots users hold alone and only uses up an id, on success and on failure |
| `PollingSpec.StepKeeps` | packages/hardhat-ethers/src/internal/hardhat-ethers-provider.ts:829-928 | every step of every interleaving keeps the invariant: timers tracked by the two fields, no empty hash list, no registration stranded |
| `PollingSpec.RunKeeps` | packages/hardhat-ethers/src/internal/hardhat-ethers-provider.ts:829-928 | so every reachable state has it |
| `PollingSpec.EveryReachableStateIsSafe` | packages/hardhat-ethers/src/internal/hardhat-ethers-provider.ts:829-928 | in every reachable state: at most one live timer of each kind, a field names exactly a live one, only while there are listeners, and no hash has an empty list |
| `PollingSpec.RunKeepsRegistrations` | packages/hardhat-ethers/src/internal/hardhat-ethers-provider.ts:1047-1055 | in every reachable state the block registrations come from different calls |
| `RegistrationRuns.BlocksGrow` | packages/hardhat-ethers/src/internal/hardhat-ethers-provider.ts:1047-1055 | any steps without a clearing keep every block registration and their order, and each `on` or `once` adds one at the end, with its function and flag |
| `RegistrationRuns.OwnBlocksGrow` | packages/hardhat-ethers/src/internal/hardhat-ethers-provider.ts:1047-1074 | the registrations of a function are those it had and those made, in order, until that function is cleared, whatever is cleared of others |
| `RegistrationRuns.HashGrows` | packages/hardhat-ethers/src/internal/hardhat-ethers-provider.ts:829-868 | so are those of a transaction hash; other hashes and blocks do not touch them |
| `RegistrationRuns.ClearedBlockTable` | packages/hardhat-ethers/src/internal/hardhat-ethers-provider.ts:1057-1074 | clearing a function takes its first registration, clearing without one takes all, and no transaction listener goes |
| `RegistrationRuns.ClearedHash` | packages/hardhat-ethers/src/internal/hardhat-ethers-provider.ts:840-868 | the same for the list of a hash; the other hashes stay |
| `EthersProvider.RemoveFirstAt` | packages/hardhat-ethers/src/internal/hardhat-ethers-provider.ts:1062-1068 | what is taken is the first registration of the function and no other |
| `RegistrationRuns.StaysRegistered` | packages/hardhat-ethers/src/internal/hardhat-ethers-provider.ts:1047-1055 | a function given to `on` or `once` and neither cleared nor registered again is in the table once, with its flag, after any steps |
| `RegistrationRuns.BlockStartRuns` | packages/hardhat-ethers/src/internal/hardhat-ethers-provider.ts:899-921 | a start call that runs through leaves the height it was told as the last one seen, and a timer of 50 milliseconds on a Hardhat network, of 500 on any other |
| `RegistrationRuns.HashStartRuns` | packages/hardhat-ethers/src/internal/hardhat-ethers-provider.ts:870-890 | the same for transaction hashes, which need no height |
| `RegistrationRuns.ImpatientStartIsSlow` | packages/hardhat-ethers/src/internal/hardhat-ethers-provider.ts:813-823 | a second registration before the first answer takes a Hardhat network for another one: its start call sets a timer of 500 milliseconds, which stays |
| `PollingSpec.NoTransactionStranded` | packages/hardhat-ethers/src/internal/hardhat-ethers-provider.ts:829-890 | each transaction-hash registration is polled for or has its start call in flight |
| `PollingSpec.BlockStrandedExactlyWhenRejected` | packages/hardhat-ethers/src/internal/hardhat-ethers-provider.ts:899-921 | a block registration is stranded if and only if its own block-number request was rejected and no timer is set |
| `PollingSpec.NoBlockStranded` | packages/hardhat-ethers/src/internal/hardhat-ethers-provider.ts:899-921 | without a rejected request no block registration is ever stranded |
| `PollingSpec.RejectedRequestStrands` | packages/hardhat-ethers/src/internal/hardhat-ethers-provider.ts:904-904 | a concrete run in which one rejected request leaves a listener unpolled |
| `PollingSpec.RemoveAllQuiets` | packages/hardhat-ethers/src/internal/hardhat-ethers-provider.ts:517-546 | removing all listeners empties both tables and stops both timers |
| `PollingSpec.SilentAfterRemoveAll` | packages/hardhat-ethers/src/internal/hardhat-ethers-provider.ts:870-921 | start calls still in flight then create no timer, however the remaining steps interleave |
| `PollingSpec.RemoveAllSilences` | packages/hardhat-ethers/src/internal/hardhat-ethers-provider.ts:517-546 | the same after any history |
| `BlockDelivery.OnceRemovesItself` | packages/hardhat-ethers/src/internal/hardhat-ethers-provider.ts:986-997 | after a block exactly the lasting registrations are left if and only if no `once` registration follows a lasting one for the same function |
| `BlockDelivery.OnceRemovesTheLastingOne` | packages/hardhat-ethers/src/internal/hardhat-ethers-provider.ts:995-997 | a concrete table where the lasting registration is removed and the used-up one stays |
| `BlockDelivery.PollsDeliver` | packages/hardhat-ethers/src/internal/hardhat-ethers-provider.ts:963-1002 | a series of non-overlapping polls calls every registration for the first new block and the lasting ones for all, in order |
| `BlockDelivery.AnnounceAt` | packages/hardhat-ethers/src/internal/hardhat-ethers-provider.ts:988-993 | each registration is called once with the block, in the order of the table |
| `BlockDelivery.RangeDelivers` | packages/hardhat-ethers/src/internal/hardhat-ethers-provider.ts:981-998 | the same for the loop over the numbers of one poll |
| `BlockDelivery.RisingAnnouncesAll` | packages/hardhat-ethers/src/internal/hardhat-ethers-provider.ts:968-979 | at heights that never fall every number up to the last height is announced once, in order |
| `BlockDelivery.OwnRegistrationsDecide` | packages/hardhat-ethers/src/internal/hardhat-ethers-provider.ts:963-1002 | what a listener receives from any polls, and what is left of its registrations, depends on its own registrations alone |
| `BlockDelivery.ListenerReceives` | packages/hardhat-ethers/src/internal/hardhat-ethers-provider.ts:963-1002 | after any history and whatever else is registered, from polls at rising heights: a lasting listener registered once receives h0+1, h0+2, ... up to the last height without gap or repeat, a `once` listener exactly one block |
| `BlockDelivery.ListenerReceivesEach` | packages/hardhat-ethers/src/internal/hardhat-ethers-provider.ts:963-1002 | a function with several registrations, no `once` one after a lasting one, is called for each: all of them for the first new block, the lasting ones for every one |
| `RegistrationRuns.FreshListenerHears` | packages/hardhat-ethers/src/internal/hardhat-ethers-provider.ts:899-1003 | after any history: a function newly given to `on`, whose start call is told the height h, receives from the polls that follow h+1 and on, whatever happens in between but a clearing or second registration of it, or news of another height |
| `BlockDelivery.PollsReach` | packages/hardhat-ethers/src/internal/hardhat-ethers-provider.ts:963-1002 | the same as `ListenerReceives` for any table |
| `EthersProvider.PollIsRun` | packages/hardhat-ethers/src/internal/hardhat-ethers-provider.ts:963-1002 | a poll is a sequence of protocol steps that only remove, so it inherits the safety results |
| `EthersProvider.PollMatchesDelivery` | packages/hardhat-ethers/src/internal/hardhat-ethers-provider.ts:963-1002 | the table and height after a poll are those the delivery results speak of |
| `EthersProvider.HardhatEthersProvider.OnBlock` | packages/hardhat-ethers/src/internal/hardhat-ethers-provider.ts:1047-1055 | registering for blocks is the protocol's step |
| `EthersProvider.HardhatEthersProvider.OnTransactionHash` | packages/hardhat-ethers/src/internal/hardhat-ethers-provider.ts:829-838 | registering for a transaction hash is the protocol's step |
| `EthersProvider.HardhatEthersProvider.ClearBlocks` | packages/hardhat-ethers/src/internal/hardhat-ethers-provider.ts:1057-1074 | removing one block listener or all is the protocol's step, timer included |
| `EthersProvider.HardhatEthersProvider.ClearTransactionHashes` | packages/hardhat-ethers/src/internal/hardhat-ethers-provider.ts:840-868 | removing one listener of a hash, a hash, or all hashes is the protocol's step, timer included |
| `EthersProvider.HardhatEthersProvider.Splice` | packages/hardhat-ethers/src/internal/hardhat-ethers-provider.ts:1062-1068 | the first item for the function is removed, and nothing if there is none |
| `EthersProvider.HardhatEthersProvider.StopBlockPolling` | packages/hardhat-ethers/src/internal/hardhat-ethers-provider.ts:923-928 | the block timer is gone from the field and from the event loop |
| `EthersProvider.HardhatEthersProvider.StopTransactionHashPolling` | packages/hardhat-ethers/src/internal/hardhat-ethers-provider.ts:892-897 | the same for the transaction timer |
| `EthersProvider.HardhatEthersProvider.StartPolling` | packages/hardhat-ethers/src/internal/hardhat-ethers-provider.ts:813-822 | only the first start call ever asks for the network; later ones read `false` from the cache until it is answered |
| `EthersProvider.HardhatEthersProvider.ResumeAfterNetwork` | packages/hardhat-ethers/src/internal/hardhat-ethers-provider.ts:870-890 | resuming after the network's answer is the protocol's step |
| `EthersProvider.HardhatEthersProvider.ResumeAfterHeight` | packages/hardhat-ethers/src/internal/hardhat-ethers-provider.ts:899-921 | resuming after the block number is the protocol's step |
| `EthersProvider.HardhatEthersProvider.AbandonHeight` | packages/hardhat-ethers/src/internal/hardhat-ethers-provider.ts:904-904 | a rejected block-number request ends the start call |
| `EthersProvider.HardhatEthersProvider.ResumeAfterFirstPoll` | packages/hardhat-ethers/src/internal/hardhat-ethers-provider.ts:906-921 | resuming after the first poll is the protocol's step |
| `EthersProvider.HardhatEthersProvider.FinishStart` | packages/hardhat-ethers/src/internal/hardhat-ethers-provider.ts:910-920 | a timer is created only with listeners present and none running |
| `EthersProvider.HardhatEthersProvider.PollBlocks` | packages/hardhat-ethers/src/internal/hardhat-ethers-provider.ts:963-1002 | the method leaves the specified state and makes exactly the specified calls |
| `EthersProvider.HardhatEthersProvider.AnnounceBlock` | packages/hardhat-ethers/src/internal/hardhat-ethers-provider.ts:1029-1045 | one block: every listener called once in order, then the `once` ones removed by their function |
| `EthersProvider.HardhatEthersProvider.CallListeners` | packages/hardhat-ethers/src/internal/hardhat-ethers-provider.ts:986-993 | the calls made and the list of removals to come |
| `EthersProvider.HardhatEthersProvider.RemoveListeners` | packages/hardhat-ethers/src/internal/hardhat-ethers-provider.ts:995-997 | the removals, one protocol step each |
| `EthersProvider.HardhatEthersProvider.RemoveTransactionHashListeners` | packages/hardhat-ethers/src/internal/hardhat-ethers-provider.ts:955-957 | the removals after a poll for receipts, one protocol step each |
| `EthersProvider.HardhatEthersProvider.EmitTransactionHash` | packages/hardhat-ethers/src/internal/hardhat-ethers-provider.ts:1004-1027 | false exactly for an unknown hash; otherwise every listener is called in order and the table ends as after a block |
| `EthersProvider.TxRemovalsLeave` | packages/hardhat-ethers/src/internal/hardhat-ethers-provider.ts:849-862 | the list of a hash loses its `once` listeners and the hash goes with the last listener |
| `EthersProvider.HardhatEthersProvider.RemoveAllListeners` | packages/hardhat-ethers/src/internal/hardhat-ethers-provider.ts:517-546 | the object after it is the quiet state of the protocol |
| `BuildInfoWriter.WriteBuildInfo` | packages/hardhat-core/src/internal/artifacts.ts:252-366 | the pieces written are the text of one object, which reads back with each property of the build info under its own name and no others |
| `BuildInfoWriter.WriteOutput` | packages/hardhat-core/src/internal/artifacts.ts:297-355 | the same for the `output` object, with or without other members |
| `BuildInfoWriter.WriteEntries` | packages/hardhat-core/src/internal/artifacts.ts:320-331 | the comma logic of the loops gives the members of an object, for any number of them |
| `BuildInfoWriter.FileParses` | packages/hardhat-core/src/internal/artifacts.ts:285-357 | parsing the file gives that object back and nothing is left over |
| `BuildInfoWriter.ReadBackIsBuildInfo` | packages/hardhat-core/src/internal/artifacts.ts:523-538 | what is read back has the id, the format, the short and the long compiler version, the input and the output, each under its name, and nothing else; in the output only missing or null `sources` and `contracts` have become empty objects |
| `Json.RoundTrip` | packages/hardhat-core/src/internal/artifacts.ts:288-303 | parsing the text of any JSON value gives the value (grammar of RFC 8259, sections 2 to 7) |
| `Json.StringRoundTrip` | packages/hardhat-core/src/internal/artifacts.ts:330-330 | escaping and reading back a string is the identity (section 7 of RFC 8259) |
| `Json.NumberRoundTrip` | packages/hardhat-core/src/internal/artifacts.ts:330-330 | a number lexeme is read back where the text goes on with another character (section 6 of RFC 8259) |
| `Json.StringifyIsInjective` | packages/hardhat-core/src/internal/artifacts.ts:288-303 | different values have different texts |
| `Json.TextsOfTheStandard` | packages/hardhat-core/src/internal/artifacts.ts:290-296 | literal names and escapes are those of sections 3 and 7 of RFC 8259 |
| `Json.EscapedIsPrintable` | packages/hardhat-core/src/internal/artifacts.ts:290-296 | no control character gets into the text of a string |
| `ArtifactsObject.Artifacts.constructor` | packages/hardhat-core/src/internal/artifacts.ts:60-62 | the object starts coherent with the disk |
| `ArtifactsObject.Artifacts.GetArtifactPath` | packages/hardhat-core/src/internal/artifacts.ts:505-521 | the cached answer is the uncached one, errors included; only found paths are remembered |
| `ArtifactsObject.Artifacts.FindByFullyQualifiedName` | packages/hardhat-core/src/internal/artifacts.ts:621-654 | a qualified name is answered by the walk over the folders: found under its own path, wrong casing, or missing |
| `ArtifactsObject.Artifacts.PickNamed` | packages/hardhat-core/src/internal/artifacts.ts:843-867 | none, the only one, or an ambiguity, as the number of files with that base name |
| `ArtifactsObject.Artifacts.GetBuildInfoPath` | packages/hardhat-core/src/internal/artifacts.ts:101-125 | the cached build-info path is the uncached one |
| `ArtifactsObject.Artifacts.GetArtifactPaths` | packages/hardhat-core/src/internal/artifacts.ts:151-168 | cached or not, the artifacts now on disk |
| `ArtifactsObject.Artifacts.GetDebugFilePaths` | packages/hardhat-core/src/internal/artifacts.ts:190-208 | cached or not, the debug files now on disk |
| `ArtifactsObject.Artifacts.GetBuildInfoPaths` | packages/hardhat-core/src/internal/artifacts.ts:170-188 | cached or not, the build infos now on disk |
| `ArtifactsObject.Artifacts.AddValidArtifacts` | packages/hardhat-core/src/internal/artifacts.ts:64-68 | appends, leaving cache and disk alone |
| `ArtifactsObject.Artifacts.ClearCache` | packages/hardhat-core/src/internal/artifacts.ts:426-436 | an empty cache, unless it was disabled |
| `ArtifactsObject.Artifacts.DisableCache` | packages/hardhat-core/src/internal/artifacts.ts:438-440 | no cache from then on |
| `ArtifactsObject.Artifacts.SaveArtifactAndDebugFile` | packages/hardhat-core/src/internal/artifacts.ts:210-250 | exactly the two files change and missing folders appear, and no cached path outlives the change |
| `ArtifactsObject.Artifacts.SaveBuildInfo` | packages/hardhat-core/src/internal/artifacts.ts:252-366 | exactly one file in the build-info folder changes, and no cached path outlives the change |
| `ArtifactsObject.Artifacts.RemoveObsoleteArtifacts` | packages/hardhat-core/src/internal/artifacts.ts:371-411 | it completes if and only if every valid artifact is found under its exact path, and otherwise deletes nothing; in a directory that is a tree, what it leaves is found as before |
| `ArtifactsObject.Artifacts.FindAll` | packages/hardhat-core/src/internal/artifacts.ts:376-384 | whether all valid names are found |
| `ArtifactsObject.Artifacts.RemoveArtifactFiles` | packages/hardhat-core/src/internal/artifacts.ts:889-895 | the artifacts and their debug files go, in any order, and nothing else |
| `ArtifactsObject.Artifacts.RemoveObsoleteBuildInfos` | packages/hardhat-core/src/internal/artifacts.ts:445-473 | the build infos no debug file points to go, and nothing else |
| `ArtifactsObject.ValidIsFoundAfterExactly` | packages/hardhat-core/src/internal/artifacts.ts:371-411 | after a completed clean-up every valid artifact is found as before, exactly unless the clean-up takes it: as an unused file of the `build-info` folder, or under the path of an obsolete artifact's debug file |
| `ArtifactsObject.SavedIsFoundExactly` | packages/hardhat-core/src/internal/artifacts.ts:210-250 | right after saving, a contract is found under its name if and only if no entry listed earlier in some folder on the way differs from its path in letter case only; its build info is found through its debug file in any case |
| `ArtifactsObject.FoundExactly` | packages/hardhat-core/src/internal/artifacts.ts:621-654 | a contract is found under its name if and only if its artifact exists and has no such earlier twin; any other answer names an existing path that differs in letter case only, or none |
| `BareNames.BareNameExactly` | packages/hardhat-core/src/internal/artifacts.ts:843-867 | a bare name finds the artifact of a source if and only if that source and no other has a listed artifact of a contract of exactly that name, nothing if and only if none has, and is ambiguous if and only if two have, with exactly their artifacts as candidates |
| `BareNames.ListedByKind` | packages/hardhat-core/src/internal/artifacts.ts:926-933 | `package.json` is no artifact; debug files and build infos are listed as such and not as artifacts |
| `ArtifactStore.DotsAreResolved` | packages/hardhat-core/src/internal/artifacts.ts:417-424 | in a path empty segments and `.` are dropped and `..` takes the segment before it along |
| `ArtifactsObject.OneOfTwoIsNotFound` | packages/hardhat-core/src/internal/artifacts.ts:376-384 | of two contracts of a source whose names differ in letter case only, one is not found although both artifacts exist, whatever the order of listings |
| `ArtifactsObject.TokenIsMistakenForItsTwin` | packages/hardhat-core/src/internal/artifacts.ts:637-641 | after saving `Token` and `token` of one source, looking `token` up is answered with the path of `Token` |
| `TrueCase.WalkIsExact` | packages/hardhat-core/src/internal/util/fs-utils.ts:126-153 | the walk finds the very path asked for if and only if it exists and no folder on the way lists an earlier entry with the same lower-case name |
| `TrueCase.WalkFindsUpToCase` | packages/hardhat-core/src/internal/util/fs-utils.ts:126-153 | whatever it finds exists and is the path asked for up to letter case |
| `TrueCase.WalkFindsSome` | packages/hardhat-core/src/internal/util/fs-utils.ts:126-153 | it finds something for an existing path unless a parent folder has an earlier twin: it never goes back |
| `TrueCase.GetFileTrueCase` | packages/hardhat-core/src/internal/util/fs-utils.ts:126-153 | the loop over the entries of each folder, up to the first match |
| `ArtifactStore.ArtifactsLeft` | packages/hardhat-core/src/internal/artifacts.ts:371-411 | after a clean-up the artifacts are exactly the previous ones named valid, each with its debug file |
| `ArtifactStore.BuildInfosLeftExactly` | packages/hardhat-core/src/internal/artifacts.ts:445-473 | after a clean-up the build infos are exactly the previous ones a remaining debug file points to, if and only if each that was in use has a pointer that is not itself an unused build info |
| `ArtifactStore.BuildInfosLeft` | packages/hardhat-core/src/internal/artifacts.ts:445-473 | so they are whenever no debug file lies in the `build-info` folder |
| `ArtifactStore.StrayCleanUp` | packages/hardhat-core/src/internal/artifacts.ts:445-473 | a source under `build-info/`: its artifact is not listed, a clean-up deletes it though it is valid, and keeps a build info nothing points to any more |
| `ArtifactsObject.StrayIsSaved` | packages/hardhat-core/src/internal/artifacts.ts:210-250 | that disk is what saving such a contract leaves |
| `ArtifactsObject.StrayName` | packages/hardhat-core/src/internal/artifacts.ts:417-424 | and its artifact path is that of its qualified name |
| `ArtifactStore.ValidSurvivesExactly` | packages/hardhat-core/src/internal/artifacts.ts:445-473 | a valid file survives a clean-up exactly when it is not in the `build-info` folder or a debug file points to it, and its path is no debug file's path of an obsolete artifact |
| `ArtifactStore.NothingElseRemoved` | packages/hardhat-core/src/internal/artifacts.ts:371-411 | a clean-up leaves every other file alone |
| `ArtifactStore.ListedExactly` | packages/hardhat-core/src/internal/artifacts.ts:926-933 | an artifact is in the listing unless its first folder starts with `build-info` or its contract name ends in `.dbg` |
| `ArtifactStore.ResolveRelative` | packages/hardhat-core/src/internal/artifacts.ts:540-552 | the relative path in a debug file leads back to the build info it was made for |
| `SolidityRuns.IncrementalIsClean` | packages/hardhat-core/src/builtin-tasks/compile.ts:1394-1508 | with every cached file still in the dependency graph, a run, merging and clean-up included, completes and leaves exactly the cache and artifacts of a build from scratch if and only if nothing that this process named valid before is obsolete and no look-up meets an earlier twin |
| `SolidityRuns.FirstRunIsClean` | packages/hardhat-core/src/builtin-tasks/compile.ts:1394-1508 | so it does for the first run of a process, twins aside |
| `SolidityRuns.CompletesInGraph` | packages/hardhat-core/src/internal/artifacts.ts:371-384 | in that case a run completes if and only if every artifact named before is on disk or emitted by a build from scratch, and no look-up meets an earlier twin |
| `SolidityRuns.EveryRunIsCleanExactly` | packages/hardhat-core/src/builtin-tasks/compile.ts:1394-1508 | over any sequence of runs whose cached files stay in the graph, in new or the same processes, with the `clean` task and lost artifacts in between, every run completes and leaves what a build from scratch would if and only if within a process no artifact gets obsolete and no look-up meets an earlier twin |
| `SolidityRuns.RunIsBuild` | packages/hardhat-core/src/builtin-tasks/compile.ts:1412-1508 | filtering, merging, compiling and cleaning up leave what compiling job by job leaves when all valid artifacts are found, and otherwise the new cache with nothing deleted |
| `SolidityRuns.CompletesExactly` | packages/hardhat-core/src/internal/artifacts.ts:371-384 | for any cache, a run completes if and only if no cached file that left the graph has lost an artifact, every artifact the process named before is on disk or emitted again, and no look-up meets an earlier twin |
| `SolidityRuns.NamedStay` | packages/hardhat-core/src/internal/artifacts.ts:371-411 | whatever the outcome, no artifact that the process named before is deleted |
| `SolidityRenaming.RenamedContractStays` | packages/hardhat-core/src/internal/artifacts.ts:64-68 | a contract renamed between two runs of one process: its old artifact stays, so the second run does not end as a build from scratch |
| `SolidityRenaming.RenamedContractHasNoTwin` | packages/hardhat-core/src/internal/artifacts.ts:386-399 | and that run completes in a directory with only these artifacts |
| `SolidityRenaming.RenamedContractStopsAfterClean` | packages/hardhat-core/src/builtin-tasks/clean.ts:13-24 | with the `clean` task in between the second run is stopped: the old name is still looked up |
| `SolidityRenaming.NamedBeforeStays` | packages/hardhat-core/src/internal/artifacts.ts:371-411 | the same for any project whose cached files stay in the graph: an obsolete artifact named before stays and keeps no run from completing |
| `SolidityRenaming.NamedBeforeStops` | packages/hardhat-core/src/internal/artifacts.ts:376-384 | and one that is gone stops the run |
| `SolidityRenaming.CaseTwinsStop` | packages/hardhat-core/src/internal/artifacts.ts:376-384 | two contracts of one source whose names differ in letter case only stop every run, from any cache that is right and stays in the graph, an empty one included, and whatever the order of listings |
| `SolidityRenaming.EarlierTwinStops` | packages/hardhat-core/src/internal/artifacts.ts:376-384 | so does a stored artifact, emitted or left from before, that is listed before one of the project and differs in letter case only |
| `SolidityRuns.LostArtifactStopsTheCleanUp` | packages/hardhat-core/src/internal/artifacts.ts:376-384 | a concrete project in which it does |
| `SolidityRuns.FilteringFirst` | packages/hardhat-core/src/builtin-tasks/compile.ts:1412-1431 | filtering all jobs first and compiling afterwards is the same as deciding job by job |
| `SolidityRerun.NeedsNoneExactly` | packages/hardhat-core/src/builtin-tasks/compile.ts:1552-1571 | a job needs no compilation if and only if each of its files is cached with the hash of its content and each file it emits is cached with its configuration, whatever configuration the others are cached with |
| `SolidityRerun.SecondRunCompilesExactly` | packages/hardhat-core/src/builtin-tasks/compile.ts:370-383 | after any run, an unforced run of the same project compiles exactly the jobs of which a file has lost an artifact since |
| `SolidityRerun.SecondRunCompilesNothing` | packages/hardhat-core/src/builtin-tasks/compile.ts:370-383 | so after a completed one, with its artifacts still there, it compiles nothing |
| `SolidityRerun.RunBringsUpToDate` | packages/hardhat-core/src/builtin-tasks/compile.ts:1434-1449 | after any run, from any cache, each graph file is cached with the hash of its content and the configuration of its own job |
| `SolidityStore.AllFoundAgrees` | packages/hardhat-core/src/internal/artifacts.ts:371-384 | the `Artifacts` object finds all it was told are valid if and only if the run's condition holds |
| `SolidityStore.CleanedAgrees` | packages/hardhat-core/src/internal/artifacts.ts:386-411 | and what its clean-up leaves in the directory holds exactly the artifacts that the run leaves |
| `SolidityStore.SavedHolds` | packages/hardhat-core/src/internal/artifacts.ts:210-250 | saving one contract in the directory stores that artifact and changes no other |
| `SolidityStore.InvalidateAgrees` | packages/hardhat-core/src/builtin-tasks/compile.ts:1514-1547 | comparing with the listing drops the same cache entries as comparing with what is stored |
| `SolidityStore.BuildInfoSourceIsInvalidated` | packages/hardhat-core/src/builtin-tasks/compile.ts:1514-1547 | but a source in a folder whose name starts with `build-info` loses its entry in every run: the listing leaves its artifacts out |
| `SolidityMerging.MergingIsIrrelevant` | packages/hardhat-core/src/builtin-tasks/compile.ts:1417-1431 | compiling a list of jobs merged by configuration leaves the same cache and artifacts as compiling them one after the other |
| `SolidityMerging.OnlyEmissionsMatter` | packages/hardhat-core/src/builtin-tasks/compile.ts:1417-1431 | any two lists of jobs that emit the same files with the same configurations leave the same cache and artifacts |
| `SolidityMerging.MergedEmits` | packages/hardhat-core/src/internal/solidity/compilation-job.ts:103-134 | the merged jobs are closed under imports and emit exactly what the jobs emit, with the same configurations |
| `SolidityMerging.MergedByConfig` | packages/hardhat-core/src/internal/solidity/compilation-job.ts:103-134 | the merged jobs of a configuration are made of the jobs of that configuration alone, whatever stands between them |
| `SolidityMerging.OneJobUnlessBuggy` | packages/hardhat-core/src/internal/solidity/compilation-job.ts:109-130 | they are those jobs, unmerged, where merging meets the compiler bug, and a single one otherwise |
| `SolidityMerging.GroupsInOrder` | packages/hardhat-core/src/internal/solidity/compilation-job.ts:103-134 | and they come in the order in which the configurations first come up |
| `SolidityMerging.MergedJob` | packages/hardhat-core/src/internal/solidity/compilation-job.ts:57-72 | two merged jobs list the files of both once each and emit what either does |
| `SolidityMerging.CreatedJob` | packages/hardhat-core/src/internal/solidity/compilation-job.ts:196-206 | a file's job lists it and its transitive dependencies once each and emits it alone, import cycles included |
| `SolidityBuildSpec.JobByJobIsClean` | packages/hardhat-core/src/builtin-tasks/compile.ts:1394-1508 | compiling job by job leaves the cache of a build from scratch; its artifacts exactly if nothing named before is left over; and the same state altogether exactly if nothing named before is obsolete |
| `SolidityBuildSpec.SkippedIsFresh` | packages/hardhat-core/src/builtin-tasks/compile.ts:1552-1571 | a skipped job's artifacts are what compiling it from the current contents would emit |
| `SolidityBuildSpec.SourcesAre` | packages/hardhat-core/src/internal/solidity/compiler/compiler-input.ts:3-17 | a job is compiled with the present contents of exactly its own files |
| `SolidityBuildSpec.EndsCleanExactly` | packages/hardhat-core/src/builtin-tasks/compile.ts:1552-1571 | for any cache: a graph file ends as after a build from scratch if and only if the run is forced, or its job needs compilation, or what is stored for it is so already, and nothing the process named of it before is left over |
| `SolidityBuildSpec.GraphFileIsClean` | packages/hardhat-core/src/builtin-tasks/compile.ts:1394-1508 | each file of the graph ends up with the entry and the artifacts of a build from scratch, and with no others exactly if nothing named of it before is left over |
| `SolidityBuildSpec.StaysFreshExactly` | packages/hardhat-core/src/builtin-tasks/compile.ts:1434-1449 | the cache may be trusted again if and only if each cached file that left the graph would still compile to what is stored |
| `SolidityBuildSpec.UnchangedStaysFresh` | packages/hardhat-core/src/builtin-tasks/compile.ts:1434-1449 | so it may when no such file has changed, itself or in what it imports |
| `SolidityBuildSpec.StaleAfterLeavingTheGraph` | packages/hardhat-core/src/builtin-tasks/compile.ts:1394-1398 | a concrete project in which a file leaves the graph, an import of it changes, and it comes back with a stale artifact |
| `SolidityBuildSpec.OutsideIsKept` | packages/hardhat-core/src/builtin-tasks/compile.ts:1521-1542 | in a completed run a file outside the graph keeps its entry while it is on disk, and exactly the artifacts named by it or before |
| `SolidityCompile.Compile` | packages/hardhat-core/src/builtin-tasks/compile.ts:1384-1508 | the whole task on the cache object and the `Artifacts` object: it completes exactly when the specified run does, and cache, directory and valid names are what that run leaves |
| `SolidityCompile.CompileSolidity` | packages/hardhat-core/src/builtin-tasks/compile.ts:1384-1456 | the part before the clean-up: the objects hold the compiled state, and the cache entries are named valid |
| `SolidityCompile.GetEntries` | packages/hardhat-core/src/builtin-tasks/compile.ts:1451-1456 | the names added are exactly those of the cache entries |
| `SolidityCompile.MergeCompilationJobs` | packages/hardhat-core/src/internal/solidity/compilation-job.ts:103-134 | the loop over `jobsMap` merges by configuration, in the order in which configurations first come up |
| `SolidityCompile.AddToGroups` | packages/hardhat-core/src/internal/solidity/compilation-job.ts:109-130 | one job joins, is merged into or opens its group; the assertion that a mergeable group holds one job never fails |
| `SolidityCompile.MergeTwo` | packages/hardhat-core/src/internal/solidity/compilation-job.ts:57-72 | the files of both jobs, once each |
| `SolidityCompile.AddFile` | packages/hardhat-core/src/internal/solidity/compilation-job.ts:39-48 | a file already there is only ever switched to emitting |
| `SolidityCompile.InvalidateCacheMissingArtifacts` | packages/hardhat-core/src/builtin-tasks/compile.ts:1514-1547 | exactly the entries of graph files with an artifact missing in the listing are dropped |
| `SolidityCompile.NeedsCompilation` | packages/hardhat-core/src/builtin-tasks/compile.ts:1552-1571 | true if and only if some file of the job has changed, the configuration counting only for files that emit |
| `SolidityCompile.FilterJobs` | packages/hardhat-core/src/builtin-tasks/compile.ts:370-383 | the jobs called for by the cache as it was before any compilation, in order; all of them when forced |
| `SolidityCompile.CompileOne` | packages/hardhat-core/src/builtin-tasks/compile.ts:872-919 | saving the build info and the artifacts of one job, and recording its files |
| `SolidityCompile.SaveArtifacts` | packages/hardhat-core/src/builtin-tasks/compile.ts:887-909 | all artifacts of one file are saved, in any order, and no other changes |
| `SolidityCompile.CompileNeeded` | packages/hardhat-core/src/builtin-tasks/compile.ts:1422-1431 | the same for a list of jobs |
| `SolidityCompile.SolidityFilesCache.HasFileChanged` | packages/hardhat-core/src/builtin-tasks/utils/solidity-files-cache.ts:114-140 | no entry, another content hash, or another configuration if one is given |
| `SolidityCompile.SolidityFilesCache.AddFile` | packages/hardhat-core/src/builtin-tasks/utils/solidity-files-cache.ts:98-100 | one entry is set, the others stay |
| `SolidityCompile.SolidityFilesCache.RemoveEntry` | packages/hardhat-core/src/builtin-tasks/utils/solidity-files-cache.ts:110-112 | one entry goes, the others stay |
| `VyperBuildSpec.EveryRunIsClean` | packages/hardhat-vyper/src/index.ts:206-353 | if a pragma that is a reported version admits no other compiler: after any history of runs, edits and lost artifacts, a run whose sources can be built from scratch completes and leaves each the artifact of that build |
| `VyperBuildSpec.IncrementalIsClean` | packages/hardhat-vyper/src/index.ts:206-353 | the same, under the same assumption, for one run from any cache that is right about the disk |
| `VyperBuildSpec.EveryArtifactIsCurrent` | packages/hardhat-vyper/src/index.ts:255-337 | after a completed run each resolved file's artifact is the compilation of its current content, and by which compiler |
| `VyperBuildSpec.ContractNameIs` | packages/hardhat-vyper/src/util.ts:67-71 | the contract of `dir/X.vy` is `X`, at any depth |
| `VyperBuildSpec.DirectiveIsFound` | packages/hardhat-vyper/src/parser.ts:37-46 | the test directive is found wherever it stands in a file, and not in a file without a number sign |
| `VyperBuildSpec.SkippedIsCurrent` | packages/hardhat-vyper/src/index.ts:256-262 | a file is skipped only with a pragma that is literally the version its compiler reports, and then its artifact is current |
| `VyperBuildSpec.CompletesExactly` | packages/hardhat-vyper/src/index.ts:284-298 | a run throws exactly when a file has a test directive or a file that is not skipped matches no configured version |
| `VyperBuildSpec.CompilersMayGoExactly` | packages/hardhat-vyper/src/index.ts:255-298 | after a completed run the next one completes with other configured versions if and only if the files it compiles again still have one |
| `VyperBuildSpec.SkippedWithoutACompiler` | packages/hardhat-vyper/src/index.ts:255-298 | a concrete project: its compiler is taken out of the configuration, a build from scratch fails, the next run completes |
| `VyperBuildSpec.CompletesToo` | packages/hardhat-vyper/src/index.ts:284-298 | an incremental run completes whenever a build from scratch does |
| `VyperBuildSpec.SecondRunRecompilesExactly` | packages/hardhat-vyper/src/index.ts:256-260 | running again at once recompiles exactly the files whose artifact is not found and those compiled before whose pragma is not literally the version their compiler reports |
| `VyperBuildSpec.ExactlyOneGroup` | packages/hardhat-vyper/src/index.ts:252-282 | a changed file is in the group of its highest admissible version, as often as it was resolved, and in no other group |
| `VyperBuildSpec.GroupingIsIrrelevant` | packages/hardhat-vyper/src/index.ts:300-337 | compiling group by group in any order leaves what compiling file by file leaves |
| `VyperBuildSpec.BuildKeepsInv` | packages/hardhat-vyper/src/index.ts:328-335 | a completed run leaves a cache that is right about the disk |
| `VyperBuildSpec.RunsKeepInv` | packages/hardhat-vyper/src/index.ts:206-353 | so does every sequence of runs, completed or not |
| `VyperBuildSpec.CleanUpKeepsArtifacts` | packages/hardhat-vyper/src/index.ts:339-344 | the artifact of every resolved file is among those the clean-up is told to keep |
| `VyperCompile.CompileVyper` | packages/hardhat-vyper/src/index.ts:206-353 | the imperative run completes exactly when it should, with the specified result, and names the files without a compiler otherwise |
| `VyperCompile.Parser.Parse` | packages/hardhat-vyper/src/parser.ts:15-35 | both cache layers always agree with the pragma parser: the result is its result, or the test-directive error |
| `VyperCompile.Parser.GetFromCache` | packages/hardhat-vyper/src/parser.ts:47-70 | a hit comes from a layer that knows this hash; a miss means neither does |
| `VyperCompile.ResolveAll` | packages/hardhat-vyper/src/resolver.ts:65-95 | every source is resolved with its pragma, hash and content, in order, or the directive error is raised |
| `VyperCompile.InvalidateCacheMissingArtifacts` | packages/hardhat-vyper/src/index.ts:359-389 | exactly the entries of resolved files with an artifact that is missing or not found are dropped |
| `VyperCompile.GroupFiles` | packages/hardhat-vyper/src/index.ts:252-282 | the groups are the changed files by best version in order, none empty, and the unmatched ones apart |
| `VyperCompile.GroupsCover` | packages/hardhat-vyper/src/index.ts:252-298 | unless a file is unmatched the groups hold exactly the changed files |
| `VyperCompile.CompileGroup` | packages/hardhat-vyper/src/index.ts:300-336 | each output is stored and recorded for the file of its source name, which is always found |
| `VyperCompile.CompileGroups` | packages/hardhat-vyper/src/index.ts:300-337 | after the loop cache and disk are as after recording the changed files |
| `VyperCompile.FindFile` | packages/hardhat-vyper/src/index.ts:322-326 | the file with that source name, if there is one |
| `VyperCompile.VyperFilesCache.RemoveNonExistingFiles` | packages/hardhat-vyper/src/cache.ts:72-78 | exactly the entries of files no longer on disk go |
| `VyperCompile.VyperFilesCache.AddFile` | packages/hardhat-vyper/src/cache.ts:84-86 | one entry is set, the others stay |
| `VyperCompile.VyperFilesCache.GetEntry` | packages/hardhat-vyper/src/cache.ts:92-94 | the entry, if there is one |
| `VyperCompile.VyperFilesCache.RemoveEntry` | packages/hardhat-vyper/src/cache.ts:96-98 | one entry goes, the others stay |
| `VyperCompile.VyperFilesCache.HasFileChanged` | packages/hardhat-vyper/src/cache.ts:100-126 | no entry, another content hash, or a pragma that differs from the recorded version |
| `SlowImports.Rule.Lint` | packages/eslint-plugin-slow-imports/lib/rules/no-top-level-external-import.js:57-116 | for every import graph, cycles included, linting a file ends, parses exactly the modules reachable around those visited before, each once, and makes exactly one report for each import of them or of the file that calls for one |
| `SlowImports.Rule.VisitImports` | packages/eslint-plugin-slow-imports/lib/rules/no-top-level-external-import.js:77-81 | the same for the list of imports of one file |
| `SlowImports.Rule.Visitor` | packages/eslint-plugin-slow-imports/lib/rules/no-top-level-external-import.js:57-116 | the same for one import, with every branch of the visitor |
| `SlowImports.SearchIsExact` | packages/eslint-plugin-slow-imports/lib/rules/no-top-level-external-import.js:57-116 | what has been read is what is reachable, and what has been reported is what reachable modules mention |
| `SlowImports.EdgeExactly` | packages/eslint-plugin-slow-imports/lib/rules/no-top-level-external-import.js:57-116 | an import is followed if and only if its path is neither ignored nor built in, does not look like a module name, and resolves |
| `SlowImports.DueExactly` | packages/eslint-plugin-slow-imports/lib/rules/no-top-level-external-import.js:57-116 | a report is due for a file if and only if one of its imports, neither ignored nor built in, looks like a module name, or does not and cannot be resolved |
| `SlowImports.NamesExactly` | packages/eslint-plugin-slow-imports/lib/helpers/module-type.js:1-15 | what the two expressions match: a word character at the start, or an at sign, characters other than a slash, perhaps a slash, and another such character |
| `SlowImports.WordChars` | packages/eslint-plugin-slow-imports/lib/helpers/module-type.js:7-7 | the word characters at the ends of their ranges, and what stands next to them |
| `SlowImports.SlowDependencyReported` | packages/eslint-plugin-slow-imports/lib/rules/no-top-level-external-import.js:57-116 | a dependency is reported if and only if it is an external import, neither ignored nor built in, of the file or of a reachable module |
| `SlowImports.VisitedAreTheReachable` | packages/eslint-plugin-slow-imports/lib/rules/no-top-level-external-import.js:99-104 | the visited set grows by exactly the reachable modules |
| `SlowImports.ChainStaysInside` | packages/eslint-plugin-slow-imports/lib/rules/no-top-level-external-import.js:99-104 | a set closed under imports contains every import chain |
| `SlowImports.SecondFileIsNotReported` | packages/eslint-plugin-slow-imports/lib/rules/no-top-level-external-import.js:18-18 | linting two files that import the same slow helper: the first is reported, the second gets no report at all, though one is due |
| `Linking.ChooseLinks` | packages/hardhat-ethers/src/internal/helpers.ts:193-288 | success exactly when the given entries determine a link for every needed library; otherwise the error names what is wrong with the first entry without a link, or the missing libraries |
| `Linking.EnoughLinksAreAll` | packages/hardhat-ethers/src/internal/helpers.ts:274-274 | comparing sizes suffices: that many different links to needed libraries are a bijection |
| `Linking.LinksUnique` | packages/hardhat-ethers/src/internal/helpers.ts:193-272 | the links chosen are the only possible ones |
| `Linking.CollectNeeded` | packages/hardhat-ethers/src/internal/helpers.ts:181-191 | the needed libraries in order, from the nested loops |
| `Linking.NeededAre` | packages/hardhat-ethers/src/internal/helpers.ts:181-191 | the needed libraries are exactly those of the link references |
| `Linking.SlotsOfIs` | packages/hardhat-ethers/src/internal/helpers.ts:427-427 | looking the slots of a referenced library up finds all of its slots |
| `Linking.ChooseLink` | packages/hardhat-ethers/src/internal/helpers.ts:194-271 | one entry: the only library its name matches, or the error that applies |
| `Linking.LinkBytecode` | packages/hardhat-ethers/src/internal/helpers.ts:422-437 | the nested loops write all patches of all links, in order |
| `Linking.WriteAddress` | packages/hardhat-ethers/src/internal/helpers.ts:428-433 | the inner loop writes one address into all slots of its library |
| `Linking.LinkedIsPatched` | packages/hardhat-ethers/src/internal/helpers.ts:428-433 | with disjoint slots the addresses fit, the length is kept, every slot holds its address and nothing else changes |
| `Linking.EverySlotHoldsItsAddress` | packages/hardhat-ethers/src/internal/helpers.ts:426-436 | in the linked bytecode each slot of each linked library holds the digits of its address |
| `Linking.OrderIsIrrelevant` | packages/hardhat-ethers/src/internal/helpers.ts:426-436 | the linked bytecode is the same for the links in any order |
| `Linking.SamePatches` | packages/hardhat-ethers/src/internal/helpers.ts:428-433 | the same for the patches of disjoint slots |
| `Linking.BijectionLinksExactly` | packages/hardhat-ethers/src/internal/helpers.ts:290-290 | with disjoint 20-byte slots and prefixed addresses, and a bijection of links: each slot of each entry of the link references holds the address of the link of that library, the length is kept and no other character changes |
| `Linking.LengthKeptExactly` | packages/hardhat-ethers/src/internal/helpers.ts:429-432 | writing an address keeps the length if and only if it is two characters longer than the slot |
| `Linking.UnprefixedAddressShifts` | packages/hardhat-ethers/src/internal/helpers.ts:431-431 | an address of 40 digits without `0x`, if the address check lets it through, shortens the bytecode by two characters and loses two digits |
| `Linking.CollectLibrariesAndLink` | packages/hardhat-ethers/src/internal/helpers.ts:175-291 | it succeeds if and only if every entry has an address and names exactly one referenced library, bare or qualified, no two the same, and every referenced library is named; then each slot of each holds the address given for it and nothing else changes; otherwise the error explains why |
| `Remappings.ApplyRemappings` | packages/hardhat-core/src/utils/remappings.ts:1-17 | the longest matching prefix is replaced by its target, an unmatched name is unchanged, whatever the order of the entries |
| `Remappings.OneLongest` | packages/hardhat-core/src/utils/remappings.ts:7-14 | a matched name has exactly one longest prefix |
| `Remappings.ExpandExactly` | packages/hardhat-core/src/utils/remappings.ts:16-16 | a target is used as written, for every match, if and only if no `$` in it is followed by a character that `replace` expands |
| `Remappings.ExpandAt` | packages/hardhat-core/src/utils/remappings.ts:16-16 | what the first special dollar sign of a target stands for: itself, the match, what follows it, or nothing |
| `Remappings.MatchIsExpanded` | packages/hardhat-core/src/utils/remappings.ts:16-16 | the target `lib/$&` for the prefix `a/` gives `lib/a/` |
| `Remappings.ConstructorIsIgnored` | packages/hardhat-foundry/src/foundry.ts:56-59 | the line `constructor=lib` is read and then ignored |
| `Remappings.ParseRemappings` | packages/hardhat-foundry/src/foundry.ts:34-65 | the rules of all lines if each is blank or has an equals sign and no colon, or else the error of the first bad line |
| `Remappings.LineExactly` | packages/hardhat-foundry/src/foundry.ts:37-61 | a blank line is skipped, one with a colon or without an equals sign is an error, and any other defines what stands before the first equals sign as what stands between it and the next |
| `Remappings.WhiteSpaceExactly` | packages/hardhat-foundry/src/foundry.ts:38-38 | what trimming takes for white space, one by one |
| `Remappings.FirstLineWins` | packages/hardhat-foundry/src/foundry.ts:56-61 | a prefix is remapped if and only if a line defines it and objects do not inherit it, and then to the target of the first such line |
| `Remappings.LongestIsFirstDefined` | packages/hardhat-foundry/src/foundry.ts:34-65 | reading and then applying: the prefix is the longest any line has for the name, the target that of its first line |
| `Remappings.UnmatchedExactlyWhen` | packages/hardhat-foundry/src/foundry.ts:34-65 | a name is left alone if and only if no line applies to it |
| `Remappings.OrderIsIrrelevant` | packages/hardhat-foundry/src/foundry.ts:34-65 | reordering or repeating lines changes nothing while lines with the same prefix agree |
| `Remappings.OrderMatters` | packages/hardhat-foundry/src/foundry.ts:56-59 | when they disagree, moving the later line to the front shows |
| `Remappings.TargetIsKeptExactly` | packages/hardhat-foundry/src/foundry.ts:54-61 | a line `from=target` keeps its target if and only if the target holds no `=` |
| `Remappings.LineEndingsAreIrrelevant` | packages/hardhat-foundry/src/foundry.ts:36-36 | whichever of the three line endings a text is written with, its lines are read back |

## Left out

- Event-filter listeners: the index test in `_removeEventListener` is inverted, and `listeners()` compares against the wrapped event; nothing here rests on either. Clearing all of them only removes block listeners, which `RemoveAll` has already done.
- BlockDelivery.ListenerReceives: speaks of polls that do not overlap, of no registration in between (which overwrites the last height seen) and of listeners that neither throw nor call the provider back; the safety results have no such limits.
- The receipts a poll for transaction hashes hands out: only its removals and its place in the protocol are modelled.
- Timers that fire late, and the wall-clock intervals beyond their two values.
- The data of a snapshot other than one opaque state: dates, offsets and the pool are part of it.
- FixtureSpec.StepKeeps: a reset with fixtures recorded is outside its hypothesis, because the invariant fails there; `ResetIsHarmlessExactly` says so.
- FixtureSpec.ReloadRepeatsFirstRun: says nothing about a fixture function that the run has pruned and recorded again; that is a first run of its own.
- Concurrent, un-awaited calls into `loadFixture` or `Artifacts`; the deletions that `Promise.all` starts together are one loop in any order.
- ArtifactsObject.Artifacts.GetArtifactPaths: lists are sets, because the source sorts them and their elements are distinct.
- TrueCase.GetFileTrueCase: a file where the path needs a folder is an error of its own in the source; here nothing is found there. File systems that ignore letter case, where two such names are one file, are not modelled.
- The synchronous twins of the asynchronous methods.
- SolidityCompile.Compile: speaks of sources whose artifacts are listed, in normalised source names without a segment that ends in `.json`, and of contract names that are identifiers; sources in a folder whose name starts with `build-info` are the subject of `ListedExactly`, `StrayCleanUp` and `BuildInfoSourceIsInvalidated`. Valid names that the Vyper plugin adds in the same run are not in it; those of earlier runs are.
- ArtifactsObject.ValidIsFoundAfterExactly: speaks of directories that are trees in which no folder is named like an artifact; removing such a folder would take what lies in it along.
- JSON white space, lone surrogates and duplicate member names: the writer produces none of them from well-formed input.
- Choosing compiler configurations, downloading and running compilers, and compilation errors; runs that fail midway, where artifacts are written and the cache is not.
- SolidityMerging.MergingIsIrrelevant: configurations are compared by value, where the source's map compares the configuration objects; equal ones that are different objects are merged here and not there, which by `OnlyEmissionsMatter` makes no difference. Merging at job creation, before filtering, is part of how the jobs are given.
- Vyper sources that import interfaces from other local files: the plugin's cache ignores them, and the compiler here depends on one content.
- The regular expression of `parseVersionPragma`, semver and hashing, which are parameters.
- Parsing JavaScript modules: the top-level imports of a file are given, none when it cannot be parsed.
- Resolving an addressable library object to its address, and the address check, which are parameters.
- `flatten`, the configuration, tasks as a mechanism, network clients, documentation and user interface code.
