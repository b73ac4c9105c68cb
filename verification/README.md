# slivingdoc: a verified model of its core

slivingdoc keeps a notebook of text files in an object store. Writers merge their files with the accepted state,
upload an immutable Git pack and replace one `current` manifest by a conditional write. Readers rebuild the
accepted state from a checkpoint and its increments. Some paths can be protected, and everything stored can be
sealed in an envelope.

This project models five parts of it in Dafny and proves what they are for.

- **Line diff** (`EditDistance`, `DiffStat`, `TextLines`, `SnapshotDiff`). The linear-space middle-snake search
  works in place on two arrays. It is proved against the quadratic edit distance, the longest common subsequence
  and the set of all edit scripts. The panic at the end of the search is unreachable and the recursion terminates.
- **Publication protocol** (`Manifest`, `ManifestLoops`, `Merging`, `Publication*`). A state machine with one step
  per store call: any number of committers, checkpoint efforts, encryption roots, door rewrites and cleaners, with
  lost responses, manifest writes, door rewrites and deletes that land late, rejected writes and crashes. Every call
  fixes its baseline, its local files and its policy when it starts, and every commit carries its files. The theorems
  hold in every state that any interleaving reaches. They also state what gets done: a call gives up only once its
  bound is used up, and from any reachable state a process that runs alone publishes, compacts, rewraps and cleans.
- **Path policy and trees** (`Policy`, `TreeLookup`, `TreeDiff`, `SnapshotTree`, `TreeBuild`, `TreeRoundTrip`,
  `Restore`). Two entry sets that compose by longest match, the pruned tree comparison, the restore of protected
  paths, snapshot to tree and back.
- **Object graph and conflicts** (`GitGraph`, `Pack`, `Reconstruct`, `Compaction`, `Conflicts`). Worklist walks with
  a shallow boundary over every repository, what an import reconstructs, what a compaction keeps of it, and the
  conflict-marker scanner.
- **Envelope** (`Bytes`, `Envelope`, `EnvelopeCodec`, `EnvelopeReader`, `Payload`, `Keyring`, `KeyringState`,
  `Binding`). The binary codec, the chunked payload, the keyring, and what each sealed part is bound to, over ideal
  cryptographic primitives.

`Wrappers` and `Ordering` hold what several parts share.

Four properties are false of the code as it stands. Each has a concrete case and a condition under which it holds.

- **History validation** promises to fail on any missing commit, tree or blob outside the boundary. Commits, trees
  and blobs share one seen set, on the ground that an ID names one object whatever its type; but the walk opens a
  tree and only looks a blob up. A tree that names one object first as a file and then as a directory gets that
  directory skipped, and a missing blob below it goes unnoticed (`Pack.BlobAndTreeIsAccepted`); a commit that is also
  named as a directory is skipped likewise (`Pack.CommitAndTreeIsAccepted`). For every repository a complete history
  is accepted, and acceptance means completeness whenever no object is referenced in two different positions
  (`Pack.ValidateHistory`).
- **Reconstruction** promises that readers rebuild every published head from a checkpoint and its increments. An
  increment leaves out what its writer's walk from the base meets, and that walk can run past the checkpoint in three
  ways: the writer's own checkpoint was accepted but the answer was lost (`internal/notebook/checkpoint.go:139-142`);
  the writer reused its accepted head under somebody else's checkpoint (`internal/notebook/remote.go:202-208`); or
  the increment was written before a compaction that keeps it unchanged (`internal/notebook/checkpoint.go:215`). The
  first two are `Compaction.BoundaryDecides`, the third, in which every writer knew the boundary it had read, is
  `Compaction.CompactionLosesState`. Every head of a chain can be rebuilt if and only if no writer left out an object
  that the chain had not published (`Reconstruct.RebuildsExactlyWhenNeverStale`); a compaction keeps that if and only
  if no increment it keeps left out an object that only the dropped states hold
  (`Compaction.CompactionRebuildsExactlyWhen`).
- **Detection of protected changes** compares entries through a map by name. In a tree that repeats a directory name,
  a path whose blob is the same on both sides is reported (`TreeDiff.RepeatedNameMisreports`). What the walk reports
  is stated exactly for all trees, and it is the set of differing protected paths whenever no tree repeats a name
  (`TreeDiff.ChangedProtected`, `TreeDiff.ReportedIsDifference`).
- **The envelope encoder** writes a repeated extension type that the decoder refuses
  (`EnvelopeCodec.RepeatedExtensionIsLost`). Decoding inverts encoding if and only if the types are distinct
  (`EnvelopeCodec.DecodeInvertsWrite`). No exported path reaches the failing input: sealing passes no extensions and
  rewrapping passes decoded ones, which are distinct (`internal/crypt/keyring.go:204-210` and `:305`), so every output
  of `KeyStore.Seal` and `KeyStore.Rewrap` decodes.

## How the model reads the source

- Text and paths are sequences of characters, one character for one byte. Integers are unbounded; 64-bit
  arithmetic is written out where the source relies on it. Generations do not wrap.
- An etag is taken to be a digest of the stored bytes. That is the weakest token a conditional write may compare,
  so the protocol itself has to rule out an old etag that matches again.
- A precondition failure means that the write did not land. A lost response may have landed, and may still land
  later; a delete request may land at any time after it was sent, more than once and in part. Identifiers are drawn
  fresh. These are the contracts of the store and of the random source.
- The files of a commit are a map from path to content. A merge without conflicts decides path by path: an unchanged
  side yields to the other one, and equal sides agree. What it makes of a path that both sides changed is left open.
- An object ID is an ideal hash: injective, and larger than every ID the object refers to, so references cannot
  form a cycle. AEAD, MAC, key derivation and the password KDF are function parameters. The AEAD accepts exactly
  what was sealed with the same inputs. Where a result says that something is refused elsewhere, it assumes that the
  one ciphertext or commitment it is about has no second origin.
- Path validity, content validity, case folding and the bounds of a secret are function parameters.
- Nonces, salts, clocks and random identifiers are parameters of the operation that uses them.

## Model

| member | source | states |
|---|---|---|
| `EditDistance.DistIsLcs` | internal/git/diffstat.go:149-155 | the grid distance equals both lengths minus twice the longest common subsequence |
| `EditDistance.ScriptLowerBound` | internal/git/diffstat.go:149-155 | no edit script that turns a into b has fewer edits than the distance |
| `EditDistance.CheapestScript` | internal/git/diffstat.go:149-155 | some edit script has exactly that many edits |
| `EditDistance.ShortestCountsAreLcs` | internal/git/diffstat.go:149-155 | the LCS formula gives the insertions and deletions of every shortest script |
| `EditDistance.DiagonalMonotoneBy` | internal/git/diffstat.go:185-195 | moving further along a diagonal never lowers the cost of reaching the point |
| `DiffStat.NothingFurther` | internal/git/diffstat.go:211-224 | extending the better neighbour of the previous round reaches as far as d edits can |
| `DiffStat.StartDominates` | internal/git/diffstat.go:212-217 | the chosen start of a diagonal is reachable and dominates both neighbours |
| `DiffStat.InGrid` | internal/git/diffstat.go:225-227 | a point that takes part in an overlap test lies inside the grid although diagonals are not clipped |
| `DiffStat.OverlapIsMiddle` | internal/git/diffstat.go:185-227 | the snake at the first overlap lies on a cheapest path and splits the distance into d and e |
| `DiffStat.OverlapExists` | internal/git/diffstat.go:194-227 | once the two rounds together can pay for the distance, some diagonal in range overlaps |
| `DiffStat.ExtendForward` | internal/git/diffstat.go:212-224 | one forward diagonal records its furthest point and changes nothing else in the array |
| `DiffStat.ExtendBackward` | internal/git/diffstat.go:231-243 | one backward diagonal, measured from the end |
| `DiffStat.ForwardRound` | internal/git/diffstat.go:210-228 | a forward round finds a middle snake or proves the distance larger |
| `DiffStat.BackwardRound` | internal/git/diffstat.go:229-247 | a backward round finds a middle snake or proves the distance larger |
| `DiffStat.RoundsSuffice` | internal/git/diffstat.go:200-249 | the rounds cannot run out, so the panic is unreachable |
| `DiffStat.MiddleSnake` | internal/git/diffstat.go:196-250 | returns an in-grid run of equal lines with dist(before) + dist(after) = dist(whole) and two strictly smaller boxes |
| `DiffStat.CountRange` | internal/git/diffstat.go:160-183 | the divide and conquer terminates and counts a shortest script of the box |
| `DiffStat.CountDiff` | internal/git/diffstat.go:153-155 | insertions are the new length minus LCS, deletions the old length minus LCS, the counts of every shortest script |
| `TextLines.SplitLines` | internal/git/diffstat.go:116-133 | the loop computes the line rule |
| `TextLines.LineRule` | internal/git/diffstat.go:116-141 | from the bytes alone: a line ends at a line feed or at the end, exactly one carriage return before it goes, and nothing else changes |
| `TextLines.CountLinesIsLength` | internal/git/diffstat.go:101-110 | counting terminators gives the number of lines |
| `TextLines.CrlfSameLines` | internal/git/diffstat.go:136-141 | rewriting CR-free content to CRLF changes no line |
| `SnapshotDiff.SilentExactlyWhenSameLines` | internal/git/diffstat.go:16-25 | a path has no entry exactly when its comparison lines are unchanged |
| `SnapshotDiff.DiffPath` | internal/git/diffstat.go:63-72 | the three cases of a current path all give the LCS counts |
| `SnapshotDiff.DiffSnapshots` | internal/git/diffstat.go:44-81 | exactly the changed paths, sorted, with shortest-script counts; totals are the sums and account for the change of the notebook's line count |
| `Manifest.CompactGood` | internal/notebook/checkpoint.go:203-231 | prefix compaction keeps every stored rule and the splicing of retained chains |
| `Manifest.CompactActive` | internal/notebook/checkpoint.go:203-231 | compaction keeps the chain consecutive and linked and leaves the head unchanged |
| `Manifest.CompactRetained` | internal/notebook/checkpoint.go:218-229 | the retired generation and the trimmed list obey the retained rules and splice backwards |
| `Manifest.AppendGood` | internal/notebook/commit.go:313-354 | a normal publication keeps every stored rule |
| `Manifest.SingleGood` | internal/notebook/commit.go:269-309 | a manifest of one checkpoint obeys every rule |
| `Manifest.BuildGood` | internal/notebook/commit.go:269-404 | all five writers lead from a good manifest to a good one |
| `Manifest.BuildNames` | internal/notebook/checkpoint.go:331-344 | a derived manifest names only what it observed and the one key and the identifiers the writer drew |
| `Manifest.BuildAdvances` | internal/notebook/commit.go:313-354 | every writer raises the generation by one, and every compaction moves the cutoff on to its own key |
| `Manifest.PackKeyAbove` | internal/notebook/checkpoint.go:250-300 | the key a writer uploads lies above the checkpoint it observed |
| `Manifest.PlanCutoff` | internal/notebook/checkpoint.go:36-45 | while its prefix is present, a plan's cutoff is the checkpoint's generation plus the selected count |
| `Manifest.PrefixStays` | internal/notebook/checkpoint.go:47-61 | a selected prefix found in a derived manifest was already in the observed one, so a compacted prefix never comes back |
| `Manifest.AppendKeeps` | internal/notebook/commit.go:313-354 | a commit adds one increment, spelled out, and keeps the checkpoint, the other increments and the retained list |
| `Manifest.CompactKeeps` | internal/notebook/checkpoint.go:203-231 | a compaction loses no increment: the retired generation holds the replaced checkpoint and the selected ones, the rest stays, and the newest min(retain, n+1) generations are kept in order |
| `Manifest.SingleStartsOver` | internal/notebook/commit.go:269-309 | the other writers leave one checkpoint with the given publication, head and key |
| `Manifest.BuildDrops` | internal/notebook/checkpoint.go:250-300 | whatever a derived manifest stops naming lies at or below its cutoff |
| `Manifest.RootsAre` | internal/notebook/checkpoint.go:331-344 | the referenced packs are exactly those of the active and retained descriptors |
| `Manifest.PublicationInIs` | internal/notebook/remote.go:546-568 | the lost-response lookup reads the active and every retained descriptor |
| `Manifest.GoodMeans` | internal/storage/manifest.go:546-647 | the stored rules, descriptor by descriptor: consecutive generations, linked heads, bound keys, retired generations in order, no key twice |
| `ManifestLoops.PrefixPresent` | internal/notebook/checkpoint.go:51-61 | the comparison loop decides whether the exact prefix is still the oldest part of the tail |
| `ManifestLoops.ManifestRoots` | internal/notebook/checkpoint.go:331-344 | the loops collect exactly the keys of the active and retained descriptors |
| `ManifestLoops.DoomedBatch` | internal/notebook/checkpoint.go:270-285 | a batch dooms exactly its keys that the reread manifest does not reference |
| `PublicationSafety.ViableIsAbove` | internal/notebook/checkpoint.go:250-300 | the key of a write the store may still accept lies above the cutoff of the current manifest |
| `PublicationSafety.LandKeepsGlobal` | internal/notebook/commit.go:466-498 | an accepted write keeps the global invariant |
| `PublicationSafety.DeleteKeepsGlobal` | internal/notebook/checkpoint.go:270-300 | a delete request that lands at any later time keeps the global invariant, whatever the manifest has become since |
| `PublicationSafety.DoomKeepsGlobal` | internal/notebook/checkpoint.go:270-300 | sending a delete request for keys at or below the cutoff, or for an identifier given up, keeps the global invariant |
| `PublicationSafety.LandSparesDeletable` | internal/notebook/checkpoint.go:250-300 | a manifest that lands references no key of a delete request that is still under way |
| `PublicationRuns.StepKeepsInvariant` | internal/notebook/checkpoint.go:71-151 | every enabled step of every process keeps the invariant |
| `PublicationTheorems.ReferencedPacksAreStored` | internal/notebook/checkpoint.go:250-300 | in every reachable state every key the current manifest references is stored |
| `PublicationTheorems.AcceptedManifestsAreGood` | internal/storage/manifest.go:546-647 | every accepted manifest obeys the stored rules, and the i-th has generation i, so no two are equal |
| `PublicationTheorems.HeadsFormOneLine` | internal/notebook/commit.go:313-354 | each publication's parent is the preceding accepted head, a compaction keeps the head, only an encryption root starts a new line |
| `PublicationTheorems.UpdatesSurvive` | internal/notebook/commit.go:466-498 | until an encryption root, every accepted head is an ancestor of every later one |
| `PublicationTheorems.AcceptedOnWhatWasObserved` | internal/notebook/commit.go:466-498 | a write succeeds only directly after the manifest it read |
| `PublicationTheorems.CallReportsTruth` | internal/notebook/commit.go:76-103 | at most limit+1 conditional writes in at most limit+2 attempts, at most one accepted publication per call; OK means accepted, conflict, unchanged and REMOTE_BUSY mean nothing was |
| `PublicationProgress.BusyMeansExhausted` | internal/notebook/commit.go:96-98 | in every run, REMOTE_BUSY is reported only after limit+1 conditional writes, none of which was accepted |
| `PublicationProgress.LostRaceTriesAgain` | internal/notebook/commit.go:76-103 | in every run, a lost race within the bound starts the next attempt with the counters one higher, and only the one that uses up the bound ends the call |
| `PublicationProgress.RefusalEndsOrDiscards` | internal/notebook/commit.go:442-449 | a refusal that is no lost race ends the call; a refused compaction first gives up exactly the checkpoint it uploaded |
| `PublicationProgress.EngineFaultReloadsOnce` | internal/notebook/commit.go:79-90 | the first engine failure costs a strict reload and no attempt, the second ends the call |
| `PublicationProgress.UnchangedIsAlreadyThere` | internal/notebook/commit.go:136-142 | an unchanged result means that what only the call changed already reads so in the accepted state |
| `PublicationProgress.LookUpDecides` | internal/notebook/commit.go:482-492 | after a lost answer the call counts as accepted exactly when the reread manifest records its publication |
| `PublicationProgress.LostAnswerIsFound` | internal/notebook/remote.go:531-568 | in every run, an accepted publication whose answer was lost is found as long as nothing was trimmed and the chain was not replaced |
| `PublicationProgress.AloneItPublishes` | internal/notebook/commit.go:112-217 | from every reachable state in which an attempt begins, the process running alone gets its clean merge accepted |
| `PublicationProgress.AloneItCompactsAFullSpace` | internal/notebook/commit.go:159-177 | a commit refused for space is published as one checkpoint with its head and publication that replaces the chain |
| `PublicationProgress.AloneItPlans` | internal/notebook/checkpoint.go:71-97 | a tail at the threshold yields a plan for exactly its oldest threshold increments, with the checkpoint pack stored under their last generation |
| `PublicationProgress.PlanNeedsItsPrefix` | internal/notebook/checkpoint.go:102-112 | the effort goes on exactly when the reread tail begins with the selected increments |
| `PublicationProgress.LostCheckpointTriesAgain` | internal/notebook/checkpoint.go:130-138 | a lost checkpoint race rewrites the manifest again under the same identifier, within the bound |
| `PublicationProgress.CheckpointLookUpDecides` | internal/notebook/checkpoint.go:139-145 | a checkpoint whose answer was lost counts as accepted exactly when the reread manifest records it |
| `PublicationProgress.AloneItCompacts` | internal/notebook/checkpoint.go:102-129 | from every reachable state in which the prefix is still there, the worker running alone installs the compacted manifest and cleans from its cutoff |
| `PublicationProgress.SweepStartsAtCutoff` | internal/notebook/encryption.go:230-245 | after a publication that replaced the chain the cleaner starts at the cutoff of that manifest |
| `PublicationProgress.SweepReachesSuperseded` | internal/notebook/checkpoint.go:250-300 | every pack that an accepted manifest stops naming lies at or below its cutoff, so the cleaner reaches it |
| `PublicationProgress.AloneItCleans` | internal/notebook/checkpoint.go:270-300 | from every reachable state, the cleaner running alone deletes any unreferenced key at or below its cutoff and nothing else |
| `PublicationDoors.RewrapChangesDoorsOnly` | internal/notebook/encryption.go:69-134 | a door rewrite lands only on the object it observed and keeps its manifest |
| `PublicationDoors.DoorsReportTruth` | internal/notebook/encryption.go:80-134 | in every run, a call that reports new doors had its rewrite accepted, and one that reports REMOTE_BUSY had none accepted and has none in flight |
| `PublicationDoors.AloneItRewraps` | internal/notebook/encryption.go:80-134 | from every reachable state in which an attempt begins, the call running alone installs its doors |
| `PublicationTheorems.NeverPublishedLater` | internal/notebook/commit.go:112-217 | a call that ended unpublished is not published by any continuation |
| `PublicationTheorems.EndIsOver` | internal/notebook/commit.go:112-217 | such an end leaves nothing in flight and no process that continues the call |
| `PublicationTheorems.FirstPublicationIsReachable` | internal/notebook/commit.go:269-309 | the protocol can publish from an empty notebook |
| `PublicationTrees.PublicationsMerge` | internal/notebook/commit.go:112-155 | in every run, each accepted publication holds the clean merge of its call's local files with exactly the accepted state it replaced; a commit always changes some file, a compaction none |
| `PublicationTrees.SomebodyPublished` | internal/notebook/commit.go:466-498 | every accepted state is the one a write of some call put there |
| `PublicationTrees.PublicationKeepsProtected` | internal/notebook/commit.go:516-542 | in every run, no accepted publication changes a path its call's policy protects: a commit agrees there with its parent, an encryption root with the state it replaced |
| `PublicationTrees.GuardedPathStays` | internal/git/policy.go:10-19 | in every run, a path stays as it is for as long as every publisher protects it, encryption roots included |
| `Policy.CollapseKeepsAnswers` | internal/git/readonly.go:77-112 | collapsing the two sets changes no answer, the unmatched default included |
| `Policy.CollapseIdempotent` | internal/git/readonly.go:77-112 | collapsing collapsed sets removes nothing more |
| `Policy.AncestorIsDirectory` | internal/git/readonly.go:126-132 | a path lies below another exactly when a slash separates it from a rest |
| `Policy.LongestDecides` | internal/git/policy.go:88-104 | the longest entry that names the path or a directory above it decides by its set; without one a path is protected once something is writable |
| `Policy.KeptExactlyWhenSplit` | internal/git/readonly.go:77-112 | an entry is kept exactly when an entry of the other set lies between it and every ancestor in its own set |
| `Policy.ReadOnlyEntriesAreNeeded` | internal/git/readonly.go:77-112 | removing a collapsed read-only entry changes an answer, unless nothing covers it and it repeats the default |
| `Policy.WritableEntriesAreNeeded` | internal/git/readonly.go:77-112 | removing a collapsed writable entry always changes an answer |
| `Policy.KeptIsFirstWritten` | internal/git/readonly.go:93-103 | of the entries with one folded form the first one written stays |
| `Policy.EntryBetween` | internal/git/readonly.go:117-124 | decides whether an entry of the other set lies strictly between |
| `Policy.CollapseEntries` | internal/git/readonly.go:77-112 | the nested loops compute the collapsed set, sorted |
| `Policy.ValidateEntries` | internal/git/readonly.go:57-67 | trims and validates every entry, or reports the first invalid one |
| `Policy.ItemsAreTrimmed` | internal/git/readonly.go:57-67 | one trailing slash goes and nothing else, and the error names the first entry that is not valid then |
| `Policy.NewPolicy` | internal/git/policy.go:45-62 | the collapsed policy, or the first invalid or overlapping entry |
| `Policy.Covering` | internal/git/readonly.go:157-168 | the longest entry that covers a path |
| `Policy.Protects` | internal/git/policy.go:88-104 | the decision is longest match over both sets |
| `Policy.PolicyResolvesAsWritten` | internal/git/policy.go:88-104 | a policy answers for every path as longest match over the entries as written |
| `Policy.RebuildIsIdentity` | internal/git/policy.go:68-87 | rebuilding a policy from its own entries gives the same policy |
| `Policy.PolicyIsMinimal` | internal/git/policy.go:45-62 | no advertised entry of a built policy can be spared, except a read-only entry that repeats the default |
| `TreeLookup.BlobsDoNotNest` | internal/git/path.go:204-218 | a tree holds no blob below another blob's path |
| `TreeLookup.HeldIsLookup` | internal/git/policy.go:244-272 | where no name repeats, the blobs some entries lead to at a path are the one the lookup by name finds |
| `TreeLookup.ReadBlobAt` | internal/git/policy.go:244-272 | finds what the tree holds at a path, and fails exactly where a directory on the way is unreadable |
| `TreeDiff.CollectSide` | internal/git/policy.go:180-193 | for every tree, adds exactly the protected blobs of one entry, once each |
| `TreeDiff.CollectTree` | internal/git/policy.go:195-206 | for every tree, adds exactly the protected blobs below it, once each |
| `TreeDiff.DiffTrees` | internal/git/policy.go:124-176 | for every pair of trees, adds exactly the protected paths that the pairing by name finds to differ, type changes included |
| `TreeDiff.ChangedProtected` | internal/git/policy.go:110-120 | the sorted, duplicate-free list of exactly the protected paths reported; where no name repeats, exactly those that differ; succeeds whenever both trees are readable |
| `TreeDiff.ReportedIsDifference` | internal/git/policy.go:124-176 | where no name repeats, the pruned pairing by name reports exactly the paths at which the trees hold different blobs |
| `TreeDiff.RepeatedNameMisreports` | internal/git/policy.go:133-136 | a tree that repeats a directory name gets a path reported that both trees hold alike |
| `TreeDiff.IdsDifferAsContent` | internal/git/policy.go:106-109 | in a content-addressed store differing IDs and differing content are the same thing |
| `SnapshotTree.EntryOrderIsKeyOrder` | internal/git/tree.go:147-167 | on slash-free, NUL-free names Git tree order is byte order of names with a slash after trees |
| `SnapshotTree.EntryOrderIsFirstDifference` | internal/git/tree.go:147-167 | the first position at which the slash-extended names differ decides, the smaller byte first, a prefix before the longer name |
| `Ordering.LessIsFirstDifference` | internal/git/diffstat.go:79-79 | byte order of paths: the first difference decides, a proper prefix comes first |
| `SnapshotTree.EntryOrderTotal` | internal/git/tree.go:147-167 | Git tree order is a strict total order on such names |
| `SnapshotTree.GitOrderIsKeyOrder` | internal/git/tree.go:147-167 | a list of entries is in Git tree order exactly when its name keys ascend |
| `SnapshotTree.FileDirectoryCollision` | internal/git/path.go:206-218 | finds a file that is also a directory if and only if there is one |
| `SnapshotTree.ValidateSnapshot` | internal/git/path.go:140-164 | accepts exactly the snapshots of valid files without fold collisions and without file-directory collisions |
| `TreeBuild.GroupIsContiguous` | internal/git/tree.go:42-49 | sorting by path keeps the files of a directory together |
| `TreeBuild.BuildLevel` | internal/git/tree.go:28-67 | writes a tree in Git order that holds exactly the given files and keeps the store |
| `TreeRoundTrip.BuildTree` | internal/git/tree.go:12-23 | succeeds exactly on valid snapshots; the tree is canonical and holds exactly the files |
| `TreeRoundTrip.SameContentSameTree` | internal/git/tree.go:9-11 | canonical trees with the same path-to-content map have the same ID |
| `TreeRoundTrip.SameFilesSameId` | internal/git/tree.go:9-11 | the same files get the same tree ID in any order, also in a store that has grown |
| `TreeRoundTrip.WalkEntry` | internal/git/tree.go:92-106 | succeeds exactly on readable entries and appends every file of one entry |
| `TreeRoundTrip.WalkTree` | internal/git/tree.go:86-109 | succeeds exactly on readable trees and appends every file of the tree in order, repeated names included |
| `TreeRoundTrip.ReadSnapshot` | internal/git/tree.go:73-84 | sorted, valid, exactly the files the walk meets; a tree without repeated names reads whenever its files are a valid snapshot, and a built tree reads back as its snapshot sorted by path |
| `Restore.IsNamedOrUnder` | internal/git/policy.go:294-301 | decides whether a path is one of the names or below one |
| `Restore.RestoreProtected` | internal/git/policy.go:212-239 | base content at the named paths, nothing else at or below them, local files elsewhere; succeeds exactly when the base is readable at the named paths and the result is a valid snapshot |
| `Restore.RestoreSucceedsExactlyWhen` | internal/git/policy.go:212-239 | over a readable base and valid snapshots a restore succeeds exactly when no file that stays clashes with a file put back |
| `Restore.RestoreReestablishesBase` | internal/git/policy.go:208-239 | after restoring the detected paths every protected path equals the base and every path not at or below one equals local |
| `Restore.DetectionIsQuietAfterRestore` | internal/git/policy.go:110-239 | rerunning the detection on the restored tree finds nothing |
| `Restore.EnforcePolicy` | internal/notebook/commit.go:516-542 | passes exactly when no protected path changed; a refusal names exactly the changed paths and resets them; fails only when a tree is unreadable or the restored files are no valid snapshot |
| `Restore.PinProtected` | internal/notebook/pull.go:202-223 | the local side of a pull has the baseline at every protected path; fails only when a tree is unreadable or the restored files are no valid snapshot |
| `Restore.PassedCheckIsPassedInput` | internal/notebook/commit.go:516-542 | when the check finds no protected path changed, the call starts with inputs that agree on every protected path |
| `Restore.GuardFirstPull` | internal/notebook/pull.go:147-197 | refuses exactly the offending files, each with its reason, in path order |
| `Restore.AdmittedExactlyWhen` | internal/notebook/pull.go:134-197 | a directory is admitted exactly when its protected files are in the notebook and, unless the notebook is empty, the others hold the same bytes; each reason has its exact case |
| `Restore.FirstPull` | internal/notebook/pull.go:69-87 | a clean first pull yields exactly the remote files, or exactly the local files when the remote is empty |
| `Pack.ValidateEntries` | internal/git/pack.go:222-246 | for every repository, the entry loop queues subtrees and proves blobs, or finds something broken |
| `GitGraph.ReferencesAre` | internal/git/pack.go:92-120 | which reference leads where: a commit to its tree and its ungrafted parents, a tree to its entries by mode |
| `Pack.TreeClosureValidate` | internal/git/pack.go:213-248 | for every repository, everything newly seen is present and expanded in the position it was met in, or something reachable is missing or unsupported |
| `Pack.EnqueueParents` | internal/git/pack.go:105-117 | for every repository, a missing parent is passed over only at the declared boundary |
| `Pack.ValidateCommit` | internal/git/pack.go:95-117 | one turn of the walk: the commit, its tree closure and its parents are proved or queued, or something reachable is broken |
| `Pack.ValidateHistory` | internal/git/pack.go:92-120 | for every repository, accepts every complete history; accepts exactly the complete ones when no object is referenced in two positions |
| `Pack.BlobAndTreeIsAccepted` | internal/git/pack.go:86-91 | a directory first met as a file is skipped, and the history is accepted although a blob is missing |
| `Pack.CommitAndTreeIsAccepted` | internal/git/pack.go:86-91 | a directory entry that names a commit already seen is skipped, and the history is accepted |
| `Pack.TreeClosure` | internal/git/pack.go:179-206 | for every repository, exactly the objects some reference below the tree names |
| `Pack.ReachableFromCommit` | internal/git/pack.go:151-175 | for every repository, exactly the objects some reference below the commit names, ancestors included |
| `Pack.ExportIncrement` | internal/git/pack.go:15-34 | for every repository, exactly what the head reaches and the base does not |
| `Pack.ExportCheckpoint` | internal/git/pack.go:41-51 | for every repository, the commit and its tree closure, no ancestor |
| `Reconstruct.WalkStaysInChain` | internal/git/pack.go:67-79 | a walk in a repository with a boundary on the chain meets only published states |
| `Reconstruct.BoundarySuffices` | internal/notebook/checkpoint.go:123-128 | writers whose walk stopped at the checkpoint or a later head met nothing stale |
| `Reconstruct.ImportReconstructs` | internal/notebook/remote.go:298-347 | importing a checkpoint and its increments in order resolves every published state and validates with the checkpoint head as boundary |
| `Reconstruct.RebuildsExactlyWhenNeverStale` | internal/git/pack.go:15-51 | every published head can be rebuilt if and only if no writer's walk met an unpublished object of its new state |
| `Compaction.CompactionRebuildsExactlyWhen` | internal/notebook/checkpoint.go:203-231 | a chain that could be rebuilt can be rebuilt after a compaction if and only if no kept increment left out an object that only the dropped states hold |
| `Compaction.LaterBoundariesSuffice` | internal/notebook/checkpoint.go:203-231 | kept increments whose writers knew a boundary at the new checkpoint or later are safe |
| `Compaction.BoundaryDecides` | internal/notebook/checkpoint.go:123-142 | a file removed and added again is lost exactly when the answer of the checkpoint was lost or the accepted head was reused |
| `Compaction.CompactionLosesState` | internal/notebook/checkpoint.go:215-215 | writers that all knew the boundary they had read publish a chain that rebuilds, and whose compaction does not |
| `Conflicts.FindConflictBlocks` | internal/git/merge.go:335-372 | the state machine finds all blocks of the document and nothing else |
| `Conflicts.BlocksAreBlocks` | internal/git/merge.go:328-334 | ordered, disjoint ranges, each from an opener over a separator to a closer |
| `Conflicts.BlocksAreAll` | internal/git/merge.go:328-372 | on the literal lines: each block is the first opener, the first separator after it and the first closer after that, and no complete block is left out |
| `Conflicts.AllBlocksUnique` | internal/git/merge.go:328-334 | that rule leaves exactly one list of ranges |
| `Conflicts.BlockExactlyWhenInOrder` | internal/notebook/notebook.go:334-346 | there is a block if and only if the three markers occur in order |
| `Conflicts.CrlfSameBlocks` | internal/git/merge.go:349-351 | converting CR-free text to CRLF changes no range |
| `Conflicts.DeleteConflictLines` | internal/git/merge.go:190-214 | a rendered delete conflict is the three markers around the unchanged lines of both sides, a deleted side as one empty line |
| `Conflicts.DeleteConflictIsFound` | internal/git/merge.go:194-211 | every rendered delete conflict holds a block that starts on its first row |
| `Envelope.DoorBodyRoundTrip` | internal/crypt/header.go:123-148 | a door comes back from its 97-byte body |
| `Envelope.DoorBodyIsCanonical` | internal/crypt/header.go:135-148 | a body comes back from the door it decodes to |
| `Envelope.DoorBodyLayout` | internal/crypt/header.go:123-148 | the byte position and width of every field of a door |
| `Envelope.ItemLayout` | internal/crypt/envelope.go:191-229 | the byte positions of door records and extensions |
| `Envelope.DoorsRoundTrip` | internal/crypt/keyring.go:369-379 | supported doors come back from their records, in order |
| `EnvelopeReader.Reader.U8` | internal/crypt/envelope.go:421-431 | one byte, or the latched failure without moving |
| `EnvelopeReader.Reader.Take` | internal/crypt/envelope.go:457-468 | the next n bytes, or the latched failure without moving |
| `EnvelopeReader.Reader.Uint` | internal/crypt/envelope.go:433-455 | the fields of 2, 4 and 8 bytes |
| `EnvelopeReader.DecodeDoors` | internal/crypt/envelope.go:191-212 | the door loop agrees with the functional decoder, errors included; unknown records are kept byte for byte |
| `EnvelopeReader.DecodeExtensions` | internal/crypt/envelope.go:214-229 | the extension loop agrees with the functional decoder and refuses a repeated type |
| `EnvelopeReader.DecodeHeader` | internal/crypt/envelope.go:177-236 | the header decoder agrees with the functional decoder, errors included |
| `EnvelopeReader.Decode` | internal/crypt/envelope.go:144-175 | the envelope decoder agrees with the functional decoder, errors included |
| `EnvelopeCodec.HeaderPrinted` | internal/crypt/envelope.go:254-300 | decoding an encoded header gives its fields back, unless an extension type repeats |
| `EnvelopeCodec.DecodePrinted` | internal/crypt/envelope.go:303-312 | decoding an assembled envelope gives back everything that went in, unless an extension type repeats |
| `EnvelopeCodec.EnvelopeFields` | internal/crypt/envelope.go:144-175 | the byte position of every fixed field of an envelope |
| `EnvelopeCodec.DecodesExactlyEncoded` | internal/crypt/envelope.go:144-236 | the decoder accepts exactly the assembled envelopes with distinct extension types |
| `EnvelopeCodec.DoorRecordsEncoded` | internal/crypt/keyring.go:369-379 | encoding succeeds exactly on supported doors and writes their records |
| `EnvelopeCodec.DecodeInvertsWrite` | internal/crypt/envelope.go:144-312 | doors, opaque records, extensions, core, commitment and payload come back if and only if no extension type repeats |
| `EnvelopeCodec.RepeatedExtensionIsLost` | internal/crypt/envelope.go:268-283 | the encoder accepts two extensions of one type and the decoder refuses the result |
| `Payload.CheckPayloadLength` | internal/crypt/envelope.go:241-251 | in 64-bit arithmetic, demands the framed length modulo 2^64 at every chunk size, and exactly the framed length from 32 bytes a chunk on |
| `Payload.SmallChunksWrap` | internal/crypt/envelope.go:245-246 | with one-byte chunks the demanded length wraps to one far below the framed length |
| `Payload.SealedLengthIs` | internal/crypt/envelope.go:359-378 | the sealed length is what the decoder demands |
| `Payload.SealPayload` | internal/crypt/envelope.go:359-378 | the loop writes one record per chunk and one empty final record |
| `Payload.DataRecordAt` | internal/crypt/envelope.go:359-378 | chunk c of 65536 bytes is sealed under counter c and sits behind c tags |
| `Payload.FinalRecordAt` | internal/crypt/envelope.go:359-378 | one empty record of the final type ends the payload |
| `Payload.OpenPayload` | internal/crypt/envelope.go:382-411 | every slice is in range; answers the one plaintext the payload frames, and refuses every payload that frames none |
| `Payload.OpenedOfSealed` | internal/crypt/envelope.go:359-411 | opening inverts sealing for every length |
| `Payload.SealedInjective` | internal/crypt/envelope.go:382-411 | a payload stands for at most one plaintext of the declared size |
| `Payload.AssociatedDataInjective` | internal/crypt/envelope.go:343-355 | equal associated data means the same kind, object key, core, record type, counter and length |
| `Payload.NoncesDistinct` | internal/crypt/envelope.go:366-376 | no two records of one payload share a nonce |
| `Keyring.ObjectKeysDiffer` | internal/crypt/header.go:54-69 | distinct object keys encode differently |
| `Binding.KeysAreDelimited` | internal/crypt/header.go:54-69 | an encoded object key is told apart from whatever follows it |
| `Binding.DerivationsDiffer` | internal/crypt/header.go:71-87 | derived keys of two purposes or two objects come from different inputs |
| `Binding.TranscriptBinds` | internal/crypt/header.go:89-109 | a commitment fixes the kind, the object key and every byte of the header body |
| `Binding.CommitmentOpensOnlyThere` | internal/crypt/keyring.go:170-200 | what carries a genuine commitment is refused under another object key, with another kind or with any header field changed |
| `Keyring.SealDecodes` | internal/crypt/keyring.go:210-264 | a sealed envelope decodes to what was sealed |
| `Keyring.SealedWithoutExtensionsDecodes` | internal/crypt/keyring.go:204-210 | every envelope sealed without extensions decodes |
| `Keyring.OpenInvertsSeal` | internal/crypt/keyring.go:170-264 | opening what was sealed under the same key and object key gives plaintext, doors and extensions back |
| `Keyring.CurrentFits` | internal/crypt/envelope.go:314-327 | a current object is refused exactly when its base64 groups and wrapper exceed one MiB; a pack never is |
| `Keyring.RewrapKeeps` | internal/crypt/keyring.go:281-326 | for every accepted envelope a rewrite installs the new doors and keeps kind, core, extensions, opaque records and payload |
| `Keyring.RewrapOpensTheSame` | internal/crypt/keyring.go:281-326 | a rewritten envelope opens to the same plaintext, and fails exactly when the original fails |
| `KeyringState.UnwrapInvertsWrap` | internal/crypt/header.go:167-228 | the secret that wrapped a key opens the door, and the door fits the wire format |
| `Binding.WrapADBinds` | internal/crypt/header.go:111-124 | the associated data of a wrapped key fixes object key, door type, KDF, salt and costs |
| `Binding.WrappedKeyOpensOnlyThere` | internal/crypt/header.go:197-228 | a wrapped key opens for exactly its object key, door type, salt, costs, nonce and key-encryption key, and is rejected everywhere else |
| `KeyringState.ValidateCandidates` | internal/crypt/keyring.go:384-402 | accepts exactly the bounded sets of known, distinct sources and admissible secrets |
| `KeyringState.SearchIsDeterministic` | internal/crypt/keyring.go:330-355 | a search has one answer: the first attempt that is not a rejection |
| `KeyringState.NewKeyring` | internal/crypt/keyring.go:81-89 | a locked keyring exactly for a valid candidate set and a gate, otherwise the first of the two errors |
| `KeyringState.NewUnlockedKeyring` | internal/crypt/keyring.go:94-102 | validates the candidates alike, then holds the key and drops them |
| `KeyringState.KeyStore.constructor` | internal/crypt/keyring.go:88-88 | a locked keyring over the candidates NewKeyring has validated |
| `KeyringState.KeyStore.Unlocked` | internal/crypt/keyring.go:101-101 | a keyring that holds the key and keeps no candidate |
| `KeyringState.KeyStore.AddCandidate` | internal/crypt/keyring.go:144-155 | adds exactly when the extended set is valid; changes nothing once unlocked |
| `KeyringState.KeyStore.Resolve` | internal/crypt/keyring.go:330-355 | keeps the first key that opens a door; only a rejection goes on, and a failure changes no state |
| `KeyringState.KeyStore.ResolvedSecret` | internal/crypt/keyring.go:115-127 | the secret of the one candidate whose source resolved the key, and nothing before that |
| `KeyringState.KeyStore.Open` | internal/crypt/keyring.go:170-200 | a keyring that is unlocked afterwards answers as opening with its key, and a newly held key is the first one the door search finds; otherwise it fails and keeps its state |
| `KeyringState.KeyStore.Seal` | internal/crypt/keyring.go:204-264 | the sealed envelope of the held key, which always decodes, or the first error |
| `KeyringState.KeyStore.Rewrap` | internal/crypt/keyring.go:281-326 | the rewritten envelope of the held key, which always decodes, or the first error |

## Left out

- libgit2 and its merge: the conflict-free result is a path-by-path three-way rule, and a conflict ends the call; index shapes, `MaterializeTree` and `dropBelowLocalFiles` are not modelled.
- The cryptographic primitives: no secrecy claim is made.
- The workspace, the command line, HTTP, credentials, key records, logging and metrics.
- The JSON form of the manifest, SHA-256 fields and the size arithmetic that chooses a quota compaction.
- Waiting between attempts and wall-clock times.
- Unicode rules of paths and case folding.
- `EntrySet.Pin`, `ReadCovered` and `ChangedUnder`, which repeat the tree walks for a single entry set.
- Payload.OpenPayload: relies on the length check of the decoder, as its callers do.
- TreeBuild.BuildLevel: does not model failures of the object store.
- KeyringState.KeyStore.Open: the mutex is not modelled; each call runs alone.
- Restore.EnforcePolicy: materializing the reset files in the workspace is left out.
- Restore.PassedCheckIsPassedInput: takes the files of the two trees as given; that the trees can be read is the caller's check.
- Publication: a checkpoint effort, a cleaner and a commit of one process run in sequence, as in the code; the interleaving is between processes.
- Compaction.BoundaryDecides: shows the two lost boundaries on one chain; that a chain rebuilds exactly when nothing is left out is proved for all chains.
- SnapshotDiff.DiffSnapshots: takes the two path-to-content maps that the code builds first from the file lists.
- PublicationProgress.AloneItPublishes: says what a process gets done when nobody else steps; no fairness between processes is assumed or promised.
- Policy.ItemsAreTrimmed: which paths are valid is a parameter.
