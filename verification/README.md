# TT-Sync: a verified model of planning, publishing and transfer

TT-Sync replicates a data directory from one device to another. A scan of each side gives a
manifest; the planner diffs the two manifests under a mode (incremental or mirror) and an overwrite
policy (exact or prefer-newer); the planned files travel one by one or as one bundle stream; and
the receiving side applies them. Database namespaces (directories `_tauritavern/databases/db-NAME`)
are special: they are compared by their latest modification time, staged beside their destination
and published as complete directories by a rename protocol with rollback, under an exclusive lock.

The project models that logic in Dafny and proves what it is for:

* **the end state of a sync**, for every mode and policy, path by path and without mention of plans
  (`Sync.Final`). A pull or a push, from the two scans over plan, transfer and deletes to the published
  result, leaves every path in it (`WholeSync.PullAll`, `WholeSync.PushAll`), and without faults it succeeds
  exactly under the conditions named there. A manifest is what a scan lists, running agent runs left out
  (`Listing.ScanIsManifest`). From the end state follow unmixed namespaces, and exactly when mirror copies,
  repeated syncs settle, two sides converge and runs among many replicas move forward;
* **what a failed sync leaves**: each file old, planned or deleted, perhaps with another time, each namespace
  whole, and exactly where repeating the sync then reaches the end state (`Retry`);
* **crash safety of publishing**: every snapshot of the disk between two file-system calls, any of
  which may fail, holds each planned namespace whole (`Publish.DatabaseTransfer.Commit`); and uploads that
  overlap the commit of their own plan cannot mix it, down to single file-system calls, as long as no two
  of them have one temporary file open at a time (`Overlap.OverlapNeverMixes`), which holds of every run in
  which no upload fails (`Overlap.NothingFailedIsSeparate`);
* **the lock protocol of the server** over every interleaving of requests, safe and never stuck (`Server`),
  and the life of a plan over every run of calls (`PlanStore`);
* **the bundle format**: exactly which streams a reader accepts and which it refuses with which error, in any
  order of files and under any chunking (`BundleCodec`, `BundleStream`, `BundleReader`);
* **the transfer scheduler** for any completion order (`Schedule`, `Engine`, `Push`);
* **the scope engine**: the rules mean what their tests on wire texts say, the pruned walk equals the naive one,
  profiles expand to each dataset once, compaction keeps the minimal roots, and deletion prunes exactly the
  fileless part below its boundary (`WireRules`, `Profiles`, `Policy`, `Scan`, `Prune`);
* **the layouts**: where each wire path lies on the local disk, in every derived layout (`Layout`);
* **replay protection**, with the exact condition on its configuration (`Session`), and the two
  textual codecs (`Canonical`, `PairUri`).

Nine promises turned out to hold only under a condition. For each the project proves the condition and
gives an input that fails:

* *Syncing never takes a file back in time, mirror copies the source, a repeated sync settles, a pull and a
  push make both sides equal.* A scan skips an agent run that has not ended
  (`crates/ttsync-fs/src/manifest.rs:103-118`), so a side does not list all it has, and what it lists changes
  when a sync overwrites a run file. Each promise holds exactly when none of a few named kinds of file is
  there: a newer file that a running run hides (`Sync.Rewinds`), an extra file that an arriving run file
  brings to light (`Sync.Surfaces`), a file that arrives in a run not known to have ended (`Sync.Stranded`).
  The failing inputs use the dataset `agent.run_journal` of the default selection
  (`Listing.ResumedRunIsRewound`, `Listing.ExtraFileSurfaces`) and two smaller ones.
* *A transfer fails only if something does.* It also fails, every time, when a planned path or its temporary
  file is a directory at the receiving side or the path lies below a file there
  (`crates/ttsync-fs/src/writer.rs:27-38`), even if the plan deletes that file, because deletes come last
  (`Pull.FileAboveStopsThePull`). And it can fail when two planned files of one directory have the same
  temporary file, as `x.json` and `x.json.` have (`crates/ttsync-fs/src/writer.rs:190-199`), and more than one
  task runs at a time: the second rename finds nothing, and what the second task wrote is in the first one's
  file. Without faults downloads and uploads succeed, whatever order tasks finish in, exactly if the plan is
  `Engine.Smooth` and not `Engine.Crowded`: success means that it was smooth, a failure that it was not or
  was crowded (`Engine.DownloadFiles`, `Push.UploadFiles`), and each crowded plan has a run that fails
  (`Clash.CrowdedCanFail`, `Engine.DotNeighboursClash`). A whole planned sync needs no more than that, except
  that a mirror never deletes a file in the place of a scan root (`Pull.PlannedUnhindered`). A sync of two
  file trees ends in a file tree exactly if nothing is in its way (`Sync.SyncedIsTree`).
* *A failed sync is finished by repeating it.* A repeated pull misses a path exactly if the failed one left a
  copy there that is taken for good, or an agent run that shows differently by now (`Retry.RepeatedPullReaches`).
  Where no run changed and no tasks clashed, that is exactly a file left with a later time under prefer-newer
  (`Retry.OnlyLaterTimesStick`, `Retry.LaterTimeSticks`), because the time is set after the rename
  (`crates/ttsync-fs/src/writer.rs:48-49`). A mixture of two files at the planned size and time counts as
  unchanged ever after (`crates/ttsync-core/src/plan.rs:70-78`).
* *A group that was applied is published.* A group that only removes a namespace counts as applied although
  its directory is still there, exactly if `exists()` answered no because its lookup failed
  (`crates/ttsync-fs/src/databases.rs:118-121`, `Publish.DatabaseTransfer.Commit`); a possible outcome of that
  kind is `Publish.MissedDirectoryStays`.
* *A failed push by bundle that reports no remote change left the remote alone.* Progress is counted after a
  file's end-of-file check, so a first file that has grown since the plan reaches the remote whole and is not
  reported (`crates/ttsync-client/src/engine.rs:864-867`). Without faults the report is right exactly if the
  first planned file does not slip through that way (`BundlePush.UploadBundle`).
* *A published namespace holds whole files of single uploads.* Two uploads of one file, or of two files with
  one temporary file, can have it open at a time (`crates/ttsync-fs/src/writer.rs:29-38`), and then the bytes
  of both can end up mixed in a published file after the commit has reported success
  (`Clash.SharedTemporaryMixes`). It takes an upload that fails: without one no such clash has happened.
* *No signed request is accepted twice.* This holds exactly when the nonce lifetime is *strictly* longer than
  twice the time window (`Session.ReplayProofExactly`). The shipped defaults are equal
  (`crates/ttsync-core/src/session.rs:27-35`), and a request used at both ends of its window is accepted
  twice (`Session.DefaultsLeaveOneMillisecond`).
* *Distinct wire paths are distinct local files.* In the two layouts that keep extensions beside the data root
  this holds exactly if the data root is not itself named as the directory they are put in, `public` or
  `extensions` (`crates/ttsync-fs/src/layout.rs:135-210`, `Layout.ApartExactly`); otherwise a file of the data
  root and one of the extensions meet (`Layout.NestedMeets`).
* *Parsing undoes rendering of a canonical request.* This holds exactly when its body hash is not empty,
  because the parser first strips one trailing newline (`Canonical.RoundTripExactly`).

## Reading guide

Rust strings are Dafny strings with one `char` per UTF-8 byte. Wire paths are sequences of segments;
`Paths` proves that the program's text tests (`validate_sync_path`, `is_under`, `namespace_directory`)
mean the same on segments. Clocks, random ids, signature verdicts and validator verdicts are inputs.
Every call that can fail in the program can fail in the model, at any time, unless the model's constant
`reliable` says that nothing fails of its own accord; a ghost flag `faulted` records a fault, and no contract
allows it to be set where calls are reliable. So contracts also say what must succeed when nothing fails.
Classes stand for the program's mutable objects: `Disk` and `DatabaseTransfer`, `Tree`,
`Workspace`, `Tracker`, `JoinSet`, `Source`, `ExactSizeReader`, `Out`, `PlanStore`, `SessionManager`.
The server's concurrency is a state machine whose events are the atomic actions of the program.
`dafny verify dfyconfig.toml` checks the whole project.

## Model

| member | source | states |
|---|---|---|
| Text.ParsePrint | crates/ttsync-contract/src/canonical.rs:63-65 | Reading the printed form of any u64 gives the number back. |
| Text.ReadsExactly | crates/ttsync-contract/src/canonical.rs:63-65 | A text is read as a number exactly if it is that number in decimal, perhaps after zeros and a plus sign. |
| Text.TooLargeIsRefused | crates/ttsync-contract/src/canonical.rs:63-65 | A spelling of 2^64 or more is refused. |
| Text.PrintedPositions | crates/ttsync-contract/src/canonical.rs:78-92 | Numbers are printed in base ten, digit by digit and without leading zeros. |
| Text.Utf8Exactly | crates/ttsync-contract/src/canonical.rs:45-48 | The bytes accepted as text are exactly the encodings of sequences of Unicode scalar values (section 3 of RFC 3629). |
| Text.JoinSplit | crates/ttsync-contract/src/canonical.rs:52 | Splitting loses nothing and leaves no separator in a part. |
| Text.SplitJoin | crates/ttsync-contract/src/canonical.rs:52 | Splitting undoes joining of separator-free parts. |
| Text.EndsWithMeaning | crates/ttsync-core/src/dataset/path.rs:21-23 | A text ends with another exactly if it is some text followed by that. |
| Paths.SyncPathMeaning | crates/ttsync-contract/src/path.rs:66-82 | The accepted wire texts are exactly the renderings of non-empty sequences of proper segments. |
| Paths.SyncPathExactly | crates/ttsync-contract/src/path.rs:66-82 | The accepted wire texts without splitting: no backslash, and with a slash put at both ends neither `//` nor `/./` nor `/../` anywhere. |
| Paths.SegmentsOfRender | crates/ttsync-contract/src/path.rs:66-82 | Distinct valid paths render apart, and every rendering is accepted. |
| Paths.IsUnderMeaning | crates/ttsync-core/src/dataset/path.rs:12-19 | The textual under-test is the proper-prefix relation on segments. |
| Paths.NamespaceDirectoryMeaning | crates/ttsync-core/src/database.rs:6-23 | The text chain names a namespace exactly when the path is root, `db-` name and database file, and names that directory. |
| Paths.NamespaceExactly | crates/ttsync-core/src/database.rs:6-23 | A path lies in a namespace exactly if it has four segments: the two of the root, `db-` with 1 to 128 characters of the alphabet given by codes, and `database.tdb` or a sidecar of it that is neither the lock nor a temporary file. |
| Paths.StagedNamesNeverCollide | crates/ttsync-fs/src/databases.rs:117 | Staged names `db-x` and kept-aside names `old-db-y` never meet, and aside names of different namespaces differ. |
| Order.TextLeqMeaning | crates/ttsync-fs/src/manifest.rs:58 | The order of manifests: the shorter of two texts if the other continues it, otherwise the one with the smaller byte where they first differ. |
| Rules.ExclusionInherited | crates/ttsync-core/src/dataset/path.rs:1-6 | What lies below an excluded path is excluded, so the walk may skip it unopened. |
| Rules.MatchUnderRoot | crates/ttsync-core/src/dataset/catalog.rs:26-38 | Every match of a rule lies at or below the rule's root. |
| Rules.AncestorMayMatch | crates/ttsync-core/src/dataset/catalog.rs:40-60 | Every ancestor of a match passes the rule's may-match test. |
| Rules.NamespaceMatchesTogether | crates/ttsync-core/src/dataset/catalog.rs:26-38 | A rule of the shipped kinds matches all files of a namespace or none. |
| WireRules.ExcludedMeaning | crates/ttsync-core/src/dataset/path.rs:1-29 | A path is excluded exactly if its text is, or lies under, one of the four excluded texts, or has a part `.staging`, `.tmp-...` or `....ttsync.tmp`. |
| WireRules.RuleMeaning | crates/ttsync-core/src/dataset/catalog.rs:26-38 | Each kind of rule matches a path exactly if the test on its text accepts it: same or under a root, a namespace file, a workspace component, a file or a component of a run. |
| WireRules.RunTestsMeaning | crates/ttsync-core/src/dataset/runtime.rs:3-20 | Run directories and run index files are recognised on segments exactly as on the text. |
| WireRules.ScopeMeaning | crates/ttsync-core/src/dataset/policy.rs:82-86 | A path is in scope exactly if no exclusion takes its text out and some selected dataset has it as an exact file or has a rule that accepts it. |
| WireRules.PublicDirectoryInScope | crates/ttsync-core/src/dataset/catalog.rs:99-245 | Everything at or below a directory of a selected public dataset is in scope unless it is excluded. |
| WireRules.ExactFileInScope | crates/ttsync-core/src/dataset/policy.rs:34-48 | The exact files of every selected dataset are in scope unless they are excluded. |
| Datasets.CatalogShape | crates/ttsync-core/src/dataset/catalog.rs:99-245 | In the shipped table each rule's root is a scan root of its dataset, no exact file lies under a scan root, and no prefix rule reaches into the database directory. |
| Profiles.FirstsMeaning | crates/ttsync-core/src/dataset/profile.rs:139-163 | The expansion holds each id of the selection once, in the order of first appearance. |
| Profiles.ExpansionMeaning | crates/ttsync-core/src/dataset/profile.rs:139-193 | A dataset is in the expansion exactly if a selected id names it, or names a profile that lists it directly, adds it to the defaults, or adds to the defaults where it is one. |
| Profiles.ExpansionOrder | crates/ttsync-core/src/dataset/profile.rs:139-163 | What an earlier part of a selection stands for comes before what a later one does. |
| Profiles.ProfileOrder | crates/ttsync-core/src/dataset/profile.rs:169-181 | A profile stands for its datasets as listed, the defaults before what it adds. |
| Profiles.ExpandDatasetIds | crates/ttsync-core/src/dataset/profile.rs:139-193 | Fails exactly for an id that is neither a profile nor a dataset; otherwise the datasets of all selected profiles and ids, each once, in the order of first appearance. |
| Profiles.SelectionIsKnown | crates/ttsync-core/src/dataset/profile.rs:139-163 | Where profiles name only known datasets, a selection expands to known datasets exactly if it names only profiles and datasets. |
| Datasets.ShippedProfilesKnown | crates/ttsync-core/src/dataset/profile.rs:12-109 | The three shipped profiles are not empty and name only datasets of the shipped table. |
| Datasets.FullIsEverything | crates/ttsync-core/src/dataset/profile.rs:62-109 | The full profile stands for every dataset of the shipped table. |
| Datasets.FromSelection | crates/ttsync-core/src/dataset/policy.rs:19-63 | On the shipped table and profiles a selection fails exactly for a foreign version, an empty list or an id that is neither profile nor dataset; otherwise the policy has exactly the rules and files of the expanded datasets. |
| Datasets.ChatsAreInScope | crates/ttsync-core/src/dataset/catalog.rs:26-38 | With chat history selected on the shipped table, every file below the chats directory is in scope unless it is excluded. |
| Policy.PushCompactRoot | crates/ttsync-core/src/dataset/policy.rs:155-165 | After any insertion sequence the list holds exactly the minimal inserted roots, pairwise apart. |
| Policy.MinimalBelow | crates/ttsync-core/src/dataset/policy.rs:155-165 | Every inserted root has a kept root at or above it, so compaction loses no directory. |
| Policy.InsertFile | crates/ttsync-core/src/dataset/policy.rs:34-48 | The exact files stay sorted by text, each once. |
| Policy.FromTable | crates/ttsync-core/src/dataset/policy.rs:19-63 | The policy resolved from any well-shaped table and any profiles selects each dataset once in the order of first appearance, with exactly their rules, their files sorted by text, and the minimal ones of their scan roots; the failure condition is exact. |
| Policy.ScopeUnderRoots | crates/ttsync-core/src/dataset/policy.rs:82-86 | An in-scope path that is no exact file lies below a kept scan root. |
| Policy.AncestorsDescended | crates/ttsync-core/src/dataset/policy.rs:88-94 | Every ancestor of an in-scope walked path passes `should_descend_dir`. |
| Policy.NamespaceScope | crates/ttsync-core/src/dataset/policy.rs:82-86 | The files of one namespace are in scope together or not at all. |
| Policy.LongestRoot | crates/ttsync-core/src/dataset/policy.rs:130-135 | The chosen root is the deepest listed one at or above the path. |
| Policy.PruneBoundaryForPath | crates/ttsync-core/src/dataset/policy.rs:106-153 | An error exactly outside the catalog, no boundary exactly for exact files, else the deepest scan root of any matching dataset. |
| Policy.DeletableInCatalog | crates/ttsync-core/src/dataset/policy.rs:96-98 | Every path a plan may delete has a prune decision. |
| Scan.AllFilesMeaning | crates/ttsync-fs/src/manifest.rs:71-129 | The reference walk lists exactly the files reachable by following child names without crossing a symlink. |
| Scan.ScanDir | crates/ttsync-fs/src/manifest.rs:71-129 | The pruned walk appends exactly what filtering the naive walk keeps, and without read errors succeeds on clean trees. |
| Scan.ScanEntry | crates/ttsync-fs/src/manifest.rs:81-126 | Each skip (symlink, exclusion, running agent run, barren directory) drops no in-scope file. |
| Scan.SortEntries | crates/ttsync-fs/src/manifest.rs:58 | The entries are permuted into path order. |
| Scan.ScanManifest | crates/ttsync-fs/src/manifest.rs:23-60 | A successful scan is sorted, free of duplicates, and lists exactly the files the naive scan should list; it fails for a read error, a scan root that is no directory, or a run file that cannot be read and decides whether a selected file is hidden; with clean directories and readable run files nothing else fails it. |
| Layout.BoundaryStaysAncestor | crates/ttsync-fs/src/layout.rs:97-111 | In every layout a prune boundary resolves to an ancestor of the file it was computed for. |
| Layout.ResolveMeaning | crates/ttsync-fs/src/layout.rs:97-111 | A path resolves on segments to the same local file as by the tests on its text. |
| Layout.BelowMounts | crates/ttsync-fs/src/layout.rs:97-111 | For any three mounts: what lies below the user directory or the extensions lands below that mount with the same relative path, and everything else below the data root. |
| Layout.DerivedResolve | crates/ttsync-fs/src/layout.rs:113-210 | In every derived layout a path outside the extensions lands below the data root as it stands. |
| Layout.TauriTavernResolves | crates/ttsync-fs/src/layout.rs:113-133 | In the TauriTavern layout every path lands below the data root as it stands. |
| Layout.SameMounts | crates/ttsync-fs/src/layout.rs:135-210 | An installation has the same mounts whether it is given by its own path, its data directory or its user directory, and they lie where the layout says. |
| Layout.SameTauriTavernMounts | crates/ttsync-fs/src/layout.rs:113-133 | The same for the TauriTavern layout, given by its data root or its user directory. |
| Layout.ApartExactly | crates/ttsync-fs/src/layout.rs:97-210 | In every derived layout distinct wire paths are distinct local files exactly if the data root is not itself named as the directory that the layout puts the extensions in. |
| Layout.NestedMeets | crates/ttsync-fs/src/layout.rs:135-210 | The failing inputs: a file of the data root and one of the extensions that are one local file. |
| Prune.Tree.ReadDir | crates/ttsync-fs/src/writer.rs:164-183 | A listing holds each child once with its kind. |
| Prune.Tree.CollectFilelessTree | crates/ttsync-fs/src/writer.rs:159-188 | Nothing exactly when a non-directory lies below; otherwise every directory of the subtree, each after its parent. |
| Prune.Tree.RemoveListing | crates/ttsync-fs/src/writer.rs:126-140 | Removing the list backwards removes every child before its parent, and exactly the subtree goes. |
| Prune.Tree.PruneAt | crates/ttsync-fs/src/writer.rs:117-148 | One round removes the subtree of a fileless directory, or stops at one that holds a file. |
| Prune.Tree.PruneFilelessAncestors | crates/ttsync-fs/src/writer.rs:111-157 | The climb ends, and the directories removed are exactly those at or below a fileless ancestor strictly below the boundary. |
| Prune.Tree.DeleteFile | crates/ttsync-fs/src/writer.rs:76-109 | Only the file the path resolves to goes; paths outside the catalog are refused before anything changes; directories go only below the boundary, and without faults it fails only for the cases named. |
| Prune.BoundarySurvives | crates/ttsync-core/src/dataset/policy.rs:101-105 | Neither the boundary nor anything outside it is ever pruned. |
| Prune.PrunedIsTopmostSubtree | crates/ttsync-fs/src/writer.rs:111-157 | What is pruned is the whole subtree of the topmost fileless ancestor. |
| Prune.PrunedHoldsNoFile | crates/ttsync-fs/src/writer.rs:159-188 | No pruned directory holds a file. |
| Planner.DatabaseMtimes | crates/ttsync-core/src/plan.rs:143-152 | Exactly the namespaces present, each with its latest modification time. |
| Planner.PreservedDatabases | crates/ttsync-core/src/plan.rs:48-59 | Exactly the namespaces that, under prefer-newer, have a target file later than every source file. |
| Planner.SelectTransfers | crates/ttsync-core/src/plan.rs:60-87 | The needed source entries in order, with the byte total as a wrapping u64. |
| Planner.SelectDeletes | crates/ttsync-core/src/plan.rs:89-102 | The target-only paths in order, except files of preserved namespaces. |
| Planner.ComputePlan | crates/ttsync-core/src/plan.rs:28-114 | The plan is the specified one for every pair of manifests, duplicates included. |
| Planner.ValidateManifestScope | crates/ttsync-core/src/plan.rs:224-247 | Accepts exactly the duplicate-free, in-scope manifests. |
| Planner.ValidatePlanScope | crates/ttsync-core/src/plan.rs:154-222 | Accepts exactly the plans that are in scope, duplicate-free and disjoint, with exact totals. |
| Planner.RetainDeletable | crates/ttsync-core/src/plan.rs:135-138 | Keeps the deletable paths in order. |
| Planner.ComputePlanForPolicy | crates/ttsync-core/src/plan.rs:116-141 | Fails exactly for a duplicate or out-of-scope path or sizes summing to 2^64 or more; otherwise the specified plan, accepted by validation. |
| Planner.PlanInScope | crates/ttsync-core/src/plan.rs:127-139 | A plan of scoped manifests is valid exactly when its sizes fit in 64 bits, and all its deletes are allowed. |
| Listing.ShouldListIsListed | crates/ttsync-fs/src/manifest.rs:103-118 | The naive scan of a side lists exactly the selected files that no running agent run hides, judged by the side's own run files. |
| Listing.ScanIsManifest | crates/ttsync-fs/src/manifest.rs:23-60 | What a scan returns is a manifest of the side in the sense all the results on syncs use. |
| Listing.ListedMeaning | crates/ttsync-fs/src/manifest.rs:23-60 | What a scan lists, in terms of texts: exactly the files below a scan root or exact that some selected dataset selects, that no exclusion takes out and that no running run hides. |
| Listing.PublicFilesListed | crates/ttsync-fs/src/manifest.rs:23-129 | A successful scan lists every regular file at or below a directory of a selected public dataset unless it is excluded. |
| Sync.PlanPaths | crates/ttsync-core/src/plan.rs:63-102 | Which paths of two sides a plan transfers and deletes, given what each side lists. |
| Sync.PlanReachesFinal | crates/ttsync-core/src/plan.rs:11-35 | Applying the computed plan leaves exactly the promised end state, for all modes, policies and sides, running runs included. |
| Sync.NamespaceStaged | crates/ttsync-fs/src/databases.rs:37-54 | Exactly when a plan replaces a namespace, including an incremental plan that must drop target-only sidecars. |
| Sync.NamespaceNeverMixed | crates/ttsync-core/src/plan.rs:26 | A namespace ends as the whole source group or the whole old target group. |
| Sync.MirrorTakesAway | crates/ttsync-core/src/plan.rs:89-102 | Under mirror a file outside namespaces goes exactly if the target lists it and the source does not, so also a file that the source has in a running run. |
| Sync.MirrorExactCopies | crates/ttsync-core/src/plan.rs:16-18 | Mirror with exact overwrite reproduces the source manifest exactly if no copy is stranded in a run and no extra file surfaces. |
| Sync.SyncedTwice | crates/ttsync-core/src/plan.rs:60-102 | Synchronizing again changes nothing exactly under incremental mode or if nothing surfaces. |
| Sync.SecondPlanSettles | crates/ttsync-core/src/plan.rs:60-102 | The plan recomputed after a sync has no deletes exactly under incremental mode or if nothing surfaces, and resends plain files exactly if some copy is stranded; its effect is stated at every path. |
| Sync.PullThenPushConverges | crates/ttsync-core/src/plan.rs:48-87 | An incremental prefer-newer pull and then push leave both sides with the same listed paths, sizes and times, hence the same manifests, exactly if nothing is stranded either way and nothing surfaces at the remote. |
| Sync.SyncDominates | crates/ttsync-core/src/plan.rs:18-24 | After one incremental prefer-newer sync every target file has a file at least as new at its path, or in its namespace for database files, exactly if no newer file is hidden by a run that still runs at the target. |
| Sync.RunsMoveForward | crates/ttsync-core/src/plan.rs:18-24 | Over any run of such syncs among any number of replicas every replica moves forward in that sense exactly if no step rewinds a hidden file. |
| Sync.SyncedIsTree | crates/ttsync-fs/src/writer.rs:22-38 | Two file trees sync into a file tree exactly if no file that arrives lies above or below a file that stays. |
| Listing.ResumedRunIsRewound | crates/ttsync-fs/src/manifest.rs:103-118 | A failing input: a run resumed at the target loses its newer file to the older copy of the ended run. |
| Listing.ExtraFileSurfaces | crates/ttsync-fs/src/manifest.rs:103-118 | A failing input: after a mirror the manifests differ and a second mirror deletes a file; a pull and a push leave the sides apart. |
| Listing.OutputIsStranded | crates/ttsync-fs/src/manifest.rs:103-118 | A failing input: outputs selected without their run files arrive and are never listed. |
| Listing.RestartedRunIsTakenAway | crates/ttsync-fs/src/manifest.rs:103-118 | A failing input: mirror deletes the run file of a run that only the source still runs. |
| Publish.Disk.MoveAside | crates/ttsync-fs/src/databases.rs:120-122 | The old directory moves to its aside name whole, or nothing changes. |
| Publish.Disk.MoveIn | crates/ttsync-fs/src/databases.rs:123-128 | A staged or aside directory moves into place whole, onto a missing or empty target only, or nothing changes; a rename refused where it was possible is recorded. |
| Publish.SortedKeys | crates/ttsync-fs/src/databases.rs:90-91 | Groups are visited once each in key order. |
| Publish.EntriesOfMembers | crates/ttsync-fs/src/databases.rs:37-47 | A group holds exactly the transfers of its namespace. |
| Publish.DoneMeaning | crates/ttsync-fs/src/databases.rs:118-136 | A group the commit went through is published exactly if its directory was not missed by a failed lookup. |
| Publish.MissedDirectoryStays | crates/ttsync-fs/src/databases.rs:118-136 | A possible outcome, as a state: one failed lookup, and a namespace that should go is still there although its group went through. |
| Publish.DatabaseTransfer.SetPlan | crates/ttsync-fs/src/databases.rs:37-54 | One group for every namespace the plan touches, with its planned entries in order. |
| Publish.DatabaseTransfer.WriteFile | crates/ttsync-fs/src/databases.rs:56-68 | A received file goes to staging under its own name and never into the namespace. |
| Publish.DatabaseTransfer.CheckStaged | crates/ttsync-fs/src/databases.rs:95-115 | Without faults a group passes exactly if every planned file is staged at its planned size. |
| Publish.DatabaseTransfer.PublishGroup | crates/ttsync-fs/src/databases.rs:91-136 | In every snapshot of one round the namespace is whole and no other is touched; a failure puts the old directory back unless a failed restore is flagged, and that is flagged only after two renames were refused, the one into place and the one that restores. |
| Publish.DatabaseTransfer.Commit | crates/ttsync-fs/src/databases.rs:87-139 | A commit stopped at group k has gone through exactly the groups before it, kept group k's old content and left later groups alone; a failed restore is flagged only where it was tried and refused after the rename into place was; `applied` lists the groups gone through, and each of them is published exactly if its directory was not missed; `changed` is false only if nothing changed; every snapshot on the way is whole; where calls are reliable it fails only for a planned file not staged at its size, misses no directory and fails no restore. |
| Publish.DatabaseTransfer.Drop | crates/ttsync-fs/src/databases.rs:142-156 | After a failed restore the staging directory stays; otherwise, without faults, it is emptied. |
| Publish.DatabaseTransfer.CommitAndDrop | crates/ttsync-fs/src/databases.rs:87-156 | Whatever happens, every planned namespace ends published, or with its old directory in place, or kept aside, the last only after exactly two refused renames; after success it is published exactly if its directory was not missed. |
| Temporaries.WhoSharesTemporary | crates/ttsync-fs/src/writer.rs:190-199 | Besides a file itself only the file with one trailing dot more or less shares its temporary file. |
| Overlap.StepKeeps | crates/ttsync-fs/src/writer.rs:22-52 | Every file-system call of an upload or of the commit keeps the invariant: uploads own their temporary files, planned names lead to whole files, the old directory is untouched. |
| Overlap.OverlapNeverMixes | crates/ttsync-fs/src/databases.rs:87-139 | However uploads and the commit interleave and wherever they stop, the namespace is the old one, or kept aside, or complete with each planned file the bytes of a single upload, as long as no two uploads have one temporary file open at a time. |
| Overlap.PublishedStays | crates/ttsync-fs/src/databases.rs:123-136 | Under the same condition a published namespace keeps its planned bytes, whatever late uploads still do. |
| Overlap.CheckGoesThrough | crates/ttsync-fs/src/databases.rs:95-115 | The commit passes a staged file exactly if it has its planned size. |
| Overlap.ReplaceGoesThrough | crates/ttsync-fs/src/databases.rs:117-123 | Once all files are checked the old directory can be moved aside and the staged one into its place. |
| Overlap.RestoreGoesThrough | crates/ttsync-fs/src/databases.rs:123-131 | A directory moved aside can be put back, and then everything is as before. |
| Overlap.SurplusStep | crates/ttsync-fs/src/writer.rs:22-52 | The number of uploads that have a temporary file open, less the one that can still rename it, never goes down unless an upload fails. |
| Overlap.NothingFailedIsSeparate | crates/ttsync-fs/src/writer.rs:22-52 | In every run, commit included, in which no upload fails and none is left over, no two uploads ever had one temporary file open at a time. |
| Overlap.NothingFailedIsWhole | crates/ttsync-fs/src/writer.rs:22-52 | Files written into one directory at the same time, in any interleaving: when no write fails, every file sent is in place with exactly the bytes of one write of it. |
| Clash.RivalsCanClash | crates/ttsync-fs/src/writer.rs:22-52 | For any two names with one temporary file there is a run without a fault in which the first is received, the second has lost the name it is to rename, and its bytes are in the file of the first. |
| Clash.CrowdedCanFail | crates/ttsync-client/src/engine.rs:605-693 | Every crowded plan has two files in one directory whose tasks can be at work together, and a run of their file-system calls in which one gets stuck. |
| Clash.SharedTemporaryMixes | crates/ttsync-fs/src/writer.rs:190-199 | For any two planned names with one temporary file, or one name sent twice, there is a run whose published file begins with the second upload's first byte over the first upload's bytes. |
| Schedule.ScheduleBounds | crates/ttsync-client/src/engine.rs:605-619 | In every schedule the entries started are a prefix and at most the limit are ever open; a schedule collects no task, before a failure, while another entry could be started. |
| Schedule.SchedulePrefix | crates/ttsync-client/src/engine.rs:605-619 | Those bounds hold at every moment of a transfer. |
| Schedule.NothingStartsAfterFailure | crates/ttsync-client/src/engine.rs:666-679 | After the first failure nothing starts. |
| Schedule.StartsInOrder | crates/ttsync-client/src/engine.rs:605-608 | The k-th entry started is the k-th of the plan. |
| Schedule.AnyTwoTogether | crates/ttsync-client/src/engine.rs:605-679 | Where two tasks may run at a time, any two entries of a plan can be at work together, although the scheduler keeps as many at work as it may. |
| Engine.Workspace.WriteFile | crates/ttsync-fs/src/manifest_store.rs:111-127 | Database files go to staging, others in place, with the directories they need; at most the named path changes; without faults it fails exactly if the path is blocked, its temporary file included; an unflagged failure changes nothing visible, and a flagged one left the new bytes with another time. |
| Engine.BlockedExactly | crates/ttsync-fs/src/writer.rs:22-38 | A plain path is blocked exactly by a file above it or by a directory in its place or in that of its temporary file, a database file exactly by a file at or above the database root. |
| Engine.DirectoriesMade | crates/ttsync-fs/src/writer.rs:22-28 | A plain file that arrives makes exactly the directories above it, a database file those down to the database root. |
| Engine.Workspace.DeleteFile | crates/ttsync-fs/src/manifest_store.rs:129-141 | Database files are left to the commit, others go; without faults it fails exactly for a path outside the catalog, at its own boundary, that is a directory, or that lies below a file; an unflagged failure changes nothing. |
| Engine.SummaryShows | crates/ttsync-client/src/engine.rs:1237-1254 | The summary reports a change exactly when some recorded path is applied. |
| Engine.AppliedExactly | crates/ttsync-client/src/engine.rs:1237-1254 | The writes counted are exactly those recorded whose namespace is applied, each as often as recorded. |
| Engine.AppliedDeletesExactly | crates/ttsync-client/src/engine.rs:1237-1254 | The same for the deletes. |
| Engine.AllCount | crates/ttsync-client/src/engine.rs:1237-1254 | Where everything recorded is applied the summary counts every file, byte and delete of the plan. |
| Engine.Tracker.Summary | crates/ttsync-client/src/engine.rs:1237-1254 | Counts exactly the recorded writes, bytes and deletes whose namespace is applied. |
| Engine.DownloadTask | crates/ttsync-client/src/engine.rs:1104-1151 | Finishes only for an answer that announces the planned size, if any, and has exactly that many bytes, and then wrote its planned file and recorded it; a refusal or a wrong announcement fails it with that error and changes nothing; bytes beyond the size fail it after the file is recorded; unless its temporary file is shared and another task has failed it writes nothing else; with a good answer and without faults it fails only if the path is blocked or the temporary file is shared; a visible change is recorded, flagged or hidden by a crash. |
| Engine.CrowdedMeaning | crates/ttsync-fs/src/writer.rs:190-199 | A plan is crowded exactly if more than one task may run at a time and two of its entries have one temporary file. |
| Engine.DotNeighboursClash | crates/ttsync-fs/src/writer.rs:190-199 | A failing input: a file and its neighbour with one more dot make a plan that nothing blocks and that is crowded for every limit above one. |
| Engine.LeftStep | crates/ttsync-client/src/engine.rs:1104-1151 | Whatever a task does, each file stays as before or is the planned one but perhaps for its time, save where tasks share a temporary file. |
| Engine.FlightRemove | crates/ttsync-client/src/engine.rs:648-654 | Collecting a task moves exactly its bytes out of flight. |
| Engine.SmoothMore | crates/ttsync-fs/src/writer.rs:22-38 | A path that is free when its file arrives was free at the start and is in no other arrived path's way. |
| Engine.BlockedOnTheWay | crates/ttsync-fs/src/writer.rs:22-38 | A path found blocked, at whatever point of a transfer, shows that the plan as a whole was not smooth. |
| Engine.CourseFinish | crates/ttsync-client/src/engine.rs:623-654 | Collecting a finished task adds exactly its file to what has arrived, on a free path. |
| Engine.JoinSet.Collect | crates/ttsync-client/src/engine.rs:623-664 | Collecting keeps the log a schedule and the counters exact until the first failure. |
| Engine.DownloadFiles | crates/ttsync-client/src/engine.rs:582-693 | For any completion order the log is a schedule that keeps as many tasks at work as it may and leaves nothing open; success means every entry arrived and was recorded once, the totals are reached and no planned path was blocked; without faults it fails only if a planned path is blocked or the plan is crowded; a failure reports the first failed task's error, the change flag of any failed task and exactly the applied writes; finished or not, each file is old or planned but perhaps for its time, save where tasks share a temporary file; a failure that changed the visible tree reports it unless a task crashed. |
| BundleCodec.DecodeEncode | crates/ttsync-core/src/bundle.rs:16-36 | Reading a written big-endian u32 gives it back. |
| BundleCodec.EncodeDecode | crates/ttsync-core/src/bundle.rs:16-36 | Writing what was read gives the same four bytes. |
| BundleCodec.BigEndian | crates/ttsync-core/src/bundle.rs:16-36 | The four bytes of a number are its digits in base 256, the most significant first. |
| BundleCodec.RoundTrip | crates/ttsync-client/src/bundle.rs:48-159 | Reading a complete stream restores exactly its files, in whatever order they were sent. |
| BundleCodec.AcceptsExactly | crates/ttsync-client/src/bundle.rs:66-120 | A stream is accepted exactly if it is every planned path once with its planned bytes, the zero terminator and nothing more. |
| BundleCodec.RefusesExactly | crates/ttsync-client/src/bundle.rs:66-120 | A stream is refused with an error and after certain files exactly if it is those files, each planned and complete, and then breaks off (a broken stream), says something wrong (a bad length, a bad path, a terminator too early or not at the end: invalid data) or sends a path not expected (not found). |
| BundleCodec.CutStreamRefused | crates/ttsync-client/src/bundle.rs:66-94 | A stream cut anywhere before its end is refused as broken, having yielded a prefix of its files. |
| BundleStream.Source.ReadExact | crates/ttsync-core/src/bundle.rs:20-25 | Exactly the next n bytes or an error, however the chunks fall. |
| BundleStream.Source.ExpectEof | crates/ttsync-core/src/bundle.rs:80-96 | Succeeds exactly at the end of the stream. |
| BundleStream.ExactSizeReader.PollRead | crates/ttsync-core/src/bundle.rs:112-150 | Never reads past the window, and an early end of stream is an error. |
| BundleStream.ExactSizeReader.CopyToFile | crates/ttsync-fs/src/writer.rs:56-73 | Draining the window yields exactly its bytes and leaves the rest of the stream, for any chunking. |
| BundleStream.CopyExact | crates/ttsync-core/src/bundle.rs:38-64 | Copies exactly the planned number of bytes; on failure a prefix of them. |
| BundleStream.WriteContent | crates/ttsync-core/src/bundle.rs:66-78 | Accepts a local file only at exactly its planned size. |
| BundleStream.EncodeAppend | crates/ttsync-client/src/bundle.rs:134-156 | Sending one more frame appends its encoding. |
| BundleStream.WriteBundle | crates/ttsync-client/src/bundle.rs:123-159 | Success is the complete stream of the local files in plan order; a failure leaves the beginning of such a stream; without faults it fails exactly for a path too long or a file not of its planned size; the progress counts the files fit to be sent before the first that is not. |
| BundleReader.ExpectedOfMeaning | crates/ttsync-client/src/bundle.rs:61-64 | The reader expects exactly the planned entries, each under its wire path. |
| BundleReader.NextEntry | crates/ttsync-client/src/bundle.rs:66-94 | Takes one frame header off the stream, with the refusal the format prescribes. |
| BundleReader.ReceiveFile | crates/ttsync-client/src/bundle.rs:96-106 | Writes exactly the announced file, records it, and leaves the stream after it. |
| BundleReader.MidwayStep | crates/ttsync-client/src/bundle.rs:66-112 | One more file read keeps the verdict in sight, every planned path accounted for, and what has landed exact. |
| BundleReader.WrittenIsRead | crates/ttsync-http/src/server/handlers.rs:434-482 | A reader restores exactly the files a writer sent in full, in any order, and refuses as broken whatever a failed writer left. |
| BundleReader.PeerStreamCarries | crates/ttsync-http/src/server/bundle.rs:58-90 | Whatever part of a peer's stream arrives, the files taken from it are the peer's. |
| BundleReader.WriteBundleToWorkspace | crates/ttsync-client/src/bundle.rs:48-121 | Without faults and with no planned path blocked, the verdict and file count are those of the format, and exactly the files the stream delivers in full have landed; success means every planned file has landed and is recorded once, and none was blocked; a failure that changed the visible tree is flagged or recorded, and leaves each file old or planned but perhaps for its time. |
| Pull.CommittedView | crates/ttsync-fs/src/databases.rs:87-139 | What a successful commit shows at every path, a namespace forgotten by a failed lookup included. |
| Pull.ApplyPullPlan | crates/ttsync-client/src/engine.rs:432-580 | By either route, success leaves every path exactly as planned and reports all files, bytes and deletes of the plan, and then no planned path was blocked and no planned delete refused; it fails only by a fault, a stream the format refuses, a crowded plan, a blocked path or a delete that is refused, a file above it included; however far it got, nothing is deleted before every plain file is in place and no namespace changes before the deletes are done; finished or not, each file is old, planned or deleted and each namespace whole, or gone only after a restore failed; a failure that changed the visible tree reports a local change unless a task crashed. |
| Pull.StoppedLeaves | crates/ttsync-fs/src/databases.rs:87-139 | A commit that stopped anywhere left every namespace with its old files or with exactly the planned ones, and with none only if a restore failed. |
| Pull.PlannedUnhindered | crates/ttsync-fs/src/writer.rs:76-109 | For a plan the planner makes, on any well-formed side, nothing hinders the pull exactly if the plan is smooth and no planned delete is a file in the place of a scan root. |
| Pull.PullReachesFinal | crates/ttsync-client/src/engine.rs:432-580 | For plans the planner makes, that result is the promised end state at exactly the paths that no failed lookup left over in a namespace that should go. |
| Pull.OnlyTheTargetBlocks | crates/ttsync-fs/src/writer.rs:22-38 | A plan made from a source that is a file tree is smooth exactly if no planned path is blocked by what the receiving side already has. |
| Pull.FileAboveStopsThePull | crates/ttsync-fs/src/writer.rs:22-38 | A source file below a file of the receiving side always makes the plan fail, in mirror mode too. |
| Push.UploadTask | crates/ttsync-client/src/engine.rs:1153-1194 | An unreadable local file fails it before anything is sent and without a flag, every other failure counts as a possible remote change; it finishes only if the request was taken and confirmed; without faults it fails only if the path is blocked or its temporary file is shared. |
| Push.UploadFiles | crates/ttsync-client/src/engine.rs:870-977 | The same schedule guarantees and the same condition of success as downloads, crowded plans included; a failure reports the first failed task's error and flags the remote exactly if some task finished, crashed or failed after its request was sent; without a flag the remote is unchanged. |
| Push.CommitPlan | crates/ttsync-http/src/server/handlers.rs:511-516 | A successful commit leaves every path as planned; it fails only by a fault or a delete the store refuses, a file above it included; no namespace changes before the deletes are done; finished or not, it takes away planned deletes only and leaves each namespace whole. |
| Push.HandleCommit | crates/ttsync-http/src/server/handlers.rs:487-524 | The record is used up, and the store may change, exactly if the device planned it as a push, the plan is alive, the device has the write permission and for a mirror the delete permission; otherwise the request is refused as not found or unauthorized, the store is as before, and so is every live record; success notes the time. |
| Push.ApplyPushPlan | crates/ttsync-client/src/engine.rs:695-784 | Per-file route: success leaves the remote as planned, with no path blocked and no delete refused; it fails only by a fault, a crowded plan or because a path hinders it; its phases come in order as for a pull; finished or not, each file is old, planned or deleted and each namespace whole, or gone only after a restore failed; a failure that does not flag the remote left its visible tree unchanged. |
| BundlePush.StreamCarries | crates/ttsync-client/src/bundle.rs:123-159 | However much of the writer's stream gets through, the files in it are the planned ones with the local bytes, and only the complete stream is accepted. |
| BundlePush.FirstSlips | crates/ttsync-client/src/bundle.rs:148-153 | When the first item fails without a fault, the reader takes its whole file exactly if it slips, and nothing otherwise. |
| BundlePush.UploadBundle | crates/ttsync-client/src/engine.rs:786-868 | Success means every planned file arrived with the local bytes; a first file that slips always fails without a report of a remote change; without faults an unreported failure left the remote alone if the first file does not slip, and otherwise, where no path is blocked, landed exactly that file. |
| BundlePush.ApplyBundlePush | crates/ttsync-client/src/engine.rs:695-784 | Bundle route: success leaves the remote as planned with the local bytes; it fails only if something goes astray, a local file is no longer as planned, or a path hinders it; its phases come in order as for a pull; finished or not, each file is old, planned or deleted and each namespace whole, or gone only after a restore failed; what an unreported failure means is exact. |
| Retry.PullLeavesBehind | crates/ttsync-client/src/engine.rs:432-580 | What a pull says of files and namespaces, finished or not, said of the two replicas it shows before and after. |
| Retry.NamespaceRepeat | crates/ttsync-fs/src/databases.rs:87-139 | Repeating a failed sync reaches its end state at every database file, wherever the first one stopped. |
| Retry.RepeatedPullReaches | crates/ttsync-core/src/plan.rs:60-102 | After a sync that failed anywhere, repeating it reaches the same end state at exactly the paths it does not miss: those without a wrong copy taken for good and without a change in what running runs hide. |
| Retry.OnlyLaterTimesStick | crates/ttsync-core/src/plan.rs:70-78 | Where run statuses are as before and no tasks shared the temporary file, it misses exactly the files left with a later time, under prefer-newer. |
| Retry.LaterTimeSticks | crates/ttsync-fs/src/writer.rs:48-49 | A failing input: one file whose time was not set after its rename keeps the time of its arrival for good. |
| WholeSync.MakePlan | crates/ttsync-http/src/server/handlers.rs:155-197 | Scanning both sides and planning yields a plan made from their manifests, with sound paths the source serves; without read errors on readable sides it fails only if the sizes do not fit in 64 bits. |
| WholeSync.HinderedMeaning | crates/ttsync-fs/src/writer.rs:22-109 | For the sides a plan was made of, success of transfer and deletes is the same as that no planned path is blocked and no planned delete is a file in the place of a scan root. |
| WholeSync.PullAll | crates/ttsync-client/src/engine.rs:188-285 | From two sides to the result: success leaves every path in the promised end state, but for namespaces a failed lookup left over, and means that nothing hindered the plan; a failure with a plan comes from something that went astray, a refused stream, a hindered or a crowded plan; nothing goes astray, is missed or fails to be restored where calls are reliable; without a plan nothing has changed; and a failure leaves what a repeated sync starts from. |
| WholeSync.PushAll | crates/ttsync-client/src/engine.rs:291-399 | The same for a push by the per-file route; an unflagged failure left the visible tree of the store as it was. |
| PlanStore.MetaOfMeaning | crates/ttsync-http/src/server/plans.rs:82-93 | A record answers exactly for the planned paths, with the planned size and time. |
| PlanStore.PlanStore.Insert | crates/ttsync-http/src/server/plans.rs:56-121 | The records become what an insertion makes of them: lapsed ones go and the new one is stored as planned; a timer starts exactly for plans with the database dataset. |
| PlanStore.PlanStore.TimerFires | crates/ttsync-http/src/server/plans.rs:108-119 | The timer removes exactly its record. |
| PlanStore.PlanStore.TakeSnapshot | crates/ttsync-http/src/server/plans.rs:123-143 | Answers exactly the owner of a live plan, with the plan as planned; unauthorized to others, not found for lapsed plans; the records lose exactly what has lapsed. |
| PlanStore.PlanStore.Meta | crates/ttsync-http/src/server/plans.rs:145-167 | Answers exactly the owner of a live plan for its planned paths, with planned size and time; unauthorized to others, not found otherwise; the records lose exactly what has lapsed. |
| PlanStore.PlanStore.TakeIf | crates/ttsync-http/src/server/plans.rs:169-191 | Succeeds exactly when the plan is alive, the device is its owner and the validator accepts, and then alone removes the record; otherwise it answers not found, unauthorized or the validator's error and every live record stays. |
| PlanStore.RecordOrigin | crates/ttsync-http/src/server/plans.rs:95-106 | Every record held is as inserted and has not been taken since. |
| PlanStore.TakenByInserter | crates/ttsync-http/src/server/plans.rs:169-212 | In every run a plan is taken only by the device that inserted it, within 30 minutes, as inserted. |
| PlanStore.TakenOnce | crates/ttsync-http/src/server/plans.rs:188-190 | In every run a plan is taken at most once. |
| PlanStore.RefusedTakeKeeps | crates/ttsync-http/src/server/plans.rs:169-191 | In every run a refused take leaves every live record as it was. |
| PlanStore.AvailableUntilTaken | crates/ttsync-http/src/server/plans.rs:169-202 | A plan stays available to its owner until it is taken or lapses, whatever refused calls come between. |
| Server.StepKeepsInv | crates/ttsync-fs/src/manifest_store.rs:45-84 | Every event of the server keeps reference counts exact, the lock owned by the one prepared store, and the root frozen from scan to publish. |
| Server.LockFollowsHolders | crates/ttsync-fs/src/manifest_store.rs:58-67 | At any moment of any interleaving at most one prepared store exists, and the lock is free exactly when no record, request or running commit refers to one. |
| Server.ScanStaysTrue | crates/ttsync-http/src/server/handlers.rs:199-242 | From a store's scan until it publishes the database root does not change. |
| Server.PublishMeetsItsScan | crates/ttsync-http/src/server/handlers.rs:487-516 | When publishing begins the root is what the plan's scan saw, and only the publishing holder ever changes it. |
| Server.PrepareExactly | crates/ttsync-fs/src/manifest_store.rs:58-67 | At any moment of any interleaving a plan request gets a prepared store exactly if nothing refers to one. |
| Server.RecordStays | crates/ttsync-http/src/server/plans.rs:56-106 | A recorded plan keeps its store until it is taken or released, whatever other requests do. |
| Server.HoldersStay | crates/ttsync-http/src/server/handlers.rs:199-242 | A reference stays with its store until the event that uses it up, and is gone after it. |
| Server.LockComesFree | crates/ttsync-fs/src/manifest_store.rs:45-84 | From every reachable state the lock comes free by releases alone, and these leave the root as it is. |
| Server.PlanGoesThrough | crates/ttsync-http/src/server/handlers.rs:199-242 | While nothing refers to a store a plan can be prepared, scanned and recorded, and its scan sees the root. |
| Server.LookGoesThrough | crates/ttsync-http/src/server/plans.rs:123-167 | While a plan is recorded a request can work on it, by one more reference. |
| Server.CommitGoesThrough | crates/ttsync-http/src/server/handlers.rs:487-538 | A recorded plan can be committed at any moment, also while other requests work on it; afterwards the lock is held exactly if one of these remains. |
| Session.NonceKeyInjective | crates/ttsync-core/src/session.rs:120 | The nonce key determines device and nonce. |
| Session.SessionManager.RecordNonce | crates/ttsync-core/src/session.rs:114-130 | A nonce passes exactly if no unexpired copy is remembered, and is then remembered for its lifetime. |
| Session.SessionManager.OpenSession | crates/ttsync-core/src/session.rs:57-99 | Opens exactly if the text is a canonical request, its device is the caller, its time is within the window, the signature was verified and no live copy of its nonce is remembered; each refusal has its error in that order; a request refused before the nonce changes nothing. |
| Session.SessionManager.ValidateSession | crates/ttsync-core/src/session.rs:101-112 | A token is good exactly while its session has not expired. |
| Session.NonceRemembered | crates/ttsync-core/src/session.rs:121-129 | An accepted nonce is remembered until its lifetime is over. |
| Session.NoNonceTwice | crates/ttsync-core/src/session.rs:114-130 | In every run with a non-decreasing clock two acceptances of one device's nonce are a lifetime apart. |
| Session.RefusedOnlyForReplay | crates/ttsync-core/src/session.rs:124-126 | A screened request is refused only for a live nonce of the same device. |
| Session.AcceptedExactly | crates/ttsync-core/src/session.rs:57-99 | In every run a request is accepted exactly if it is well-formed, the caller's own, timely and signed, and no earlier acceptance of its nonce is within the lifetime. |
| Session.NoReplay | crates/ttsync-core/src/session.rs:57-131 | With a lifetime longer than twice the window no signed request is ever accepted twice. |
| Session.ReplayProofExactly | crates/ttsync-core/src/session.rs:18-25 | That condition is necessary as well. |
| Session.DefaultsLeaveOneMillisecond | crates/ttsync-core/src/session.rs:27-35 | The default configuration misses it: a run that accepts one request twice. |
| Canonical.RoundTripExactly | crates/ttsync-contract/src/canonical.rs:50-92 | Parsing undoes rendering exactly when the body hash is not empty; otherwise the text is refused as malformed. |
| Canonical.TrailingNewlineRoundTrip | crates/ttsync-contract/src/canonical.rs:51 | With a trailing newline every request parses back. |
| Canonical.RenderInjective | crates/ttsync-contract/src/canonical.rs:78-92 | Different requests never render alike. |
| Canonical.ParsesExactly | crates/ttsync-contract/src/canonical.rs:50-75 | Exactly which texts are read as a request: its lines, any spelling of the time, perhaps a final newline. |
| Canonical.BuiltMeaning | crates/ttsync-contract/src/canonical.rs:17-43 | The requests that can be built: 36 characters of hexadecimal digits and hyphens for the device, and four fields without line breaks. |
| Canonical.RefusedExactly | crates/ttsync-contract/src/canonical.rs:50-75 | A text is refused with the first objection to its lines: their number, the prefix, the device, the time, then the four fields. |
| PairUri.UrlEncode | crates/ttsync-contract/src/pair.rs:103-117 | The loop computes the percent-encoding byte by byte. |
| PairUri.EncodedTable | crates/ttsync-contract/src/pair.rs:103-117 | A byte is encoded as itself exactly if it is a letter, a digit, hyphen, full stop, underscore or tilde, and otherwise as a percent sign and its two upper-case hexadecimal digits. |
| PairUri.PercentDecode | crates/ttsync-contract/src/pair.rs:119-136 | Decodes exactly the well-formed encodings of UTF-8 text. |
| PairUri.DecodeEncoded | crates/ttsync-contract/src/pair.rs:103-136 | Decoding undoes encoding of every byte string, and encoded text holds only unreserved characters and percent signs. |
| PairUri.HexTable | crates/ttsync-contract/src/pair.rs:138-145 | Hexadecimal digits are read by the table of lower-case and upper-case digits and nothing else is. |
| PairUri.ParseUriString | crates/ttsync-contract/src/pair.rs:28-68 | Succeeds exactly if the text is the fixed base and a query whose parts all have an equals sign and a decodable value, and the last values for the five keys are 2, the address, the token, a spelling of the expiry and the pin. |
| PairUri.MeansExactly | crates/ttsync-contract/src/pair.rs:28-68 | The same of what a URI means, for any five values. |
| PairUri.OtherBaseRefused | crates/ttsync-contract/src/pair.rs:29-32 | Without a query, or with another base, a URI is malformed. |
| PairUri.UnreadableRefused | crates/ttsync-contract/src/pair.rs:40-42 | The first part without an equals sign or with an undecodable value decides the refusal. |
| PairUri.FieldsRefused | crates/ttsync-contract/src/pair.rs:53-67 | With readable parts a version other than 2 is refused first, then a missing or unreadable expiry, then missing address, token and pin in that order. |
| PairUri.ToUriString | crates/ttsync-contract/src/pair.rs:18-26 | The rendered URI means exactly the pairing data it was made from. |
| PairUri.RoundTrip | crates/ttsync-contract/src/pair.rs:18-68 | Parsing undoes rendering for every text in every field, empty values and reserved bytes included. |

## Left out

- The command line, terminal interface, onboarding, installers, service managers and release script.
- HTTP routing, TLS, certificates, zstd, JSON and the persistence of peers and pairing: a request is one protocol step, a compressed stream is its content, and which run file texts mean an ended run is a given predicate on texts.
- Ed25519, SHA-256, base64 and random ids: the signature verdict and fresh ids are inputs.
- Session.ReplayProofExactly: assumes that twice the window plus the nonce lifetime stays below 2^64, and covers one run of the process; a restart forgets all nonces.
- Session.NoNonceTwice: assumes that the clock never comes within a nonce lifetime of 2^64; the wrapping addition beyond that is in `RecordNonce`.
- PlanStore.TakenByInserter: assumes plan ids are fresh, a clock that does not go back, and times a plan lifetime below 2^64.
- Server.LockFollowsHolders: the prepared stores are those of the database dataset; a request without it shares the base store and takes no lock. Pruning of several lapsed records at once is several release events.
- Overlap.OverlapNeverMixes: one namespace with files to publish; a group that only removes its namespace has no uploads. One direction for a given run: not every run in which uploads share a temporary file goes wrong, and `Clash.SharedTemporaryMixes` shows for any two names that one does.
- Engine.DownloadFiles: a task's effects take place when it is collected. Tasks with different temporary files do not meet; those that share one may fail and spoil each other's files as `Overlap` and `Clash` follow call by call, and `Overlap.NothingFailedIsWhole` shows that they do no harm where none fails.
- Engine.Workspace.WriteFile: one step that consumes its whole reader; the fallback for an existing rename target is not modelled. A directory in the way is seen for plain files; the staging directory is taken to be free, and what is left over under the name of a temporary file is no file of the side.
- Engine.Workspace.Spoil: which bytes a clash leaves in the other file is not followed here but in `Clash`.
- Engine.Workspace.DeleteFile: exactly which directories are pruned is in `Prune.Tree.DeleteFile`; here any may go.
- Pull.ApplyPullPlan: takes the workspace's change flags to be truthful, and a failed commit to flag what `DatabaseTransfer::changed` reports. For a plan that no planner made, a refused delete is named as a possible cause, not as a certain one: pruning may remove a directory that stood in its way.
- WholeSync.PullAll: both sides stay as scanned until the pull is over; the client's second validation of the plan repeats the peer's.
- BundlePush.UploadBundle: the writer runs to its end or to a broken pipe before the server reads; a pipe the server closes early counts as something gone astray.
- Listing.ScanIsManifest: the run files a scan reads are those of the side's replica, also outside the selection; mounts that lead out of the data root are in `Layout` and `Prune` only.
- Publish.DatabaseTransfer.Commit: files of a namespace directory that are no database files (locks, temporaries) go with the directory they are in.
- BundleStream.ExactSizeReader.PollRead: sizes are not truncated to the platform's word, as they would be below 64 bits.
- Layout.ApartExactly: local paths are their components; letter case and links of the local file system are not modelled. `Prune` takes the three mounts as arbitrary directories.
- Progress events, the client's own permission checks and transport selection, the content hash of manifest entries, and message texts of errors.
