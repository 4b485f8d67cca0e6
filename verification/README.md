# Verification of the OpenMemoryProtocol core

This project models the versioned, content-addressed store of `omp-core` and proves what its operations promise:

- nested trees edited by path, and the flat map from path to leaf that they stand for;
- staging, commit, branch and checkout, over whole runs of a repository;
- history, garbage collection and diff;
- sealed files, the text of every object, and resumable uploads;
- the ingest engine: what every field of a manifest shows, its probe-output cache, reprobing, and the order of schema fields;
- the query parser and cursor pagination;
- the build service: job table, semaphore, log streams, and its calendar.

`dafny verify dfyconfig.toml` checks everything.

## How it is modelled

- A hash is symbolic: `Digest(o)` carries the object it is the digest of, so hashes are collision-free, and an object store is a map from hashes to objects. Garbage collection and the log are proved on arbitrary maps, cyclic ones included. `ObjectCodec` proves that the hashed bytes determine type and content.
- Where the text of a hash matters, in ref expressions and cursors, its hexadecimal form is a parameter that has the shape proved in `Hex`; that a form reads back is assumed only of the hash in question.
- Authenticated encryption is ideal (section 2.8 of RFC 8439): a sealed payload carries key, nonce, associated data and plaintext, and opens exactly under the same key and associated data.
- A probe is a deterministic partial function of module, bytes, arguments and limits. `HashMap` iteration orders, directory listings, clocks and random ids are parameters, and the results are proved independent of the orders where they are.
- The repository is a state machine: `States.Next` gives the whole state after an operation, objects included, the methods of `Repo` are proved to produce it, and runs are lists of operations. Of the reprobe pass before a commit, loading its configuration, comparing a staged schema with the one at HEAD and rebuilding one file are parameters; which files it rebuilds, what it leaves behind when it fails, and what a commit makes of it are modelled.
- Objects that change in place are classes (`ObjectStore`, `Repo`, `LiveSet`, `ProbeOutputCache`, `Parser`, `UploadManager`, `JobsTable`); their methods are proved against functions of the state, and the theorems are about those functions.
- The build service is a state machine whose steps are the sections that hold the table's lock; every sequence of events is a run.

## Where the code does not do what one would expect

Each of these has a lemma with a failing input beside the theorem that says when the code is right.

- `validate_name` admits line feeds and a trailing carriage return, which the plain tree text reads as other trees or not at all (`TreeCodec.PlainRoundTripIff`, `TreeCodec.ReadIsChopped`).
- `validate_path` accepts `a` and `a/`, two index keys for one path, so the iteration order of the index can decide what is committed (`Scenarios.OrderMattersOnOnePath`; `CommitOrders.CommitOrderIff` says exactly when it does).
- `resolve_ref` accepts any 64-digit hash, so `branch` and `checkout` can leave a dangling ref (`Runs.DanglingBranch`).
- `log` says that children come before parents; on merges they need not (`History.LogOrderOnMerge`), exactly when `History.LogOrderIff` says so, and never on the commits this program writes (`LinearHistory.LogChildrenFirst`).
- The automatic reprobe overwrites a staged deletion or edit (`Scenarios.ReprobeOverwrites`; exactly when: `CommitOrders.StagedShows`).
- Plain `bytes_of` returns a chunk list as it is stored (`Repository.Repo.AddFile`).
- Reprobing takes a stored fallback value, or a number promoted to float, for the probe's (`Reprobe.StaleFallback`, `Reprobe.FloatPromoted`; `Reprobe.ReprobeFreshIff` says exactly when reprobing is a fresh ingest under every new schema).
- `topo_sort` does not look inside fallbacks (`TopoSort.FallbackNotOrdered`), and it takes the greatest ready name first until a field has given its value to another, and the least from then on (`TopoSort.TopoChoice`).
- A reprobe fails when the new schema drops a user-provided field and allows no extras (`Reprobe.DroppedFields`).
- A query at HEAD by name or at a branch that commits can move is not pinned to a snapshot (`Unpinned.UnpinnedRepeats`); every other one is, but its second page fails when there is a bar in its text, as in the branch `a/b|c` (`Unpinned.BarredBranch`; exactly when: `Pagination.PagesAreSnapshot`).
- The comment on `ChunksBody::parse` tolerates a trailing line feed and no other variation; blank lines anywhere, upper-case hashes, plus signs and leading zeros are read too (`ObjectCodec.ParseChunksIff`, `ObjectCodec.ParsePartsIff`; `ObjectCodec.SerializationIff` says which texts are serializations).
- A line feed in an author's name can add header lines, on which the readers of commits disagree (`CommitCodec.InjectedTree`; exactly when: `CommitCodec.ReadersAgreeIff`).
- An empty upload chunk before the end makes reassembly fail although every byte is covered once (`Uploads.EmptyChunkBlocks`).
- An empty chunk list opens to the empty file under every key (`Sealing.EmptyListOpens`).
- The calendar overflows 32 bits for the earliest years that a 32-bit year can hold (`Calendar.RepresentableTight`).

## Model

| member | source | states |
|---|---|---|
| `Paths.CanonicalUnique` | crates/omp-core/src/paths.rs:111-217 | Two trees without empty directories that show the same leaves at all paths are the same object, hash included. |
| `Paths.PutLeaf` | crates/omp-core/src/paths.rs:125-159 | Put replaces the path and everything below it and leaves every other path as it was. |
| `Paths.PutOutcome` | crates/omp-core/src/paths.rs:125-159 | Put conflicts exactly when a proper prefix is a leaf, else fails exactly on an invalid name, else succeeds. |
| `Paths.PutCanonical` | crates/omp-core/src/paths.rs:125-159 | Put never creates an empty directory. |
| `Paths.DeleteLeaf` | crates/omp-core/src/paths.rs:180-217 | Delete drops the path and everything below it and leaves every other path as it was. |
| `Paths.DeleteCanonical` | crates/omp-core/src/paths.rs:180-217 | Delete prunes every directory it empties. |
| `Walk.ListExact` | crates/omp-core/src/paths.rs:236-256 | The walk lists a leaf exactly where looking up its path finds it. |
| `Walk.ListInOrder` | crates/omp-core/src/paths.rs:236-256 | The walk lists each leaf once, in lexicographic order of the path components. |
| `Order.LessIff` | crates/omp-core/src/paths.rs:236-256 | One name is before another when it has the lesser character at their first difference, or is a proper prefix. |
| `Walk.SplitJoin` | crates/omp-core/src/paths.rs:14-26 | A path of valid components splits back from its joined text. |
| `Walk.SplitSame` | crates/omp-core/src/paths.rs:14-26 | Two accepted strings name one path exactly when they differ only in outer slashes. |
| `ValidPaths.ValidPathIff` | crates/omp-core/src/api.rs:2695-2711 | A text can be staged exactly when it is the text of a path of components, with at most one slash after it, that does not begin at `.omp`. |
| `StorePaths.ObjectStore.GetAt` | crates/omp-core/src/paths.rs:64-93 | The loop over components is the lookup function on every store, and never fails on a readable tree. |
| `StorePaths.ObjectStore.PutInner` | crates/omp-core/src/paths.rs:125-159 | Editing loaded trees and storing them computes the pure put and only adds objects; on a readable tree it stores exactly the trees of the pure put and fails exactly as it does. |
| `StorePaths.ObjectStore.DeleteInner` | crates/omp-core/src/paths.rs:180-217 | The same for delete, which succeeds on every readable tree. |
| `StorePaths.ObjectStore.WalkInner` | crates/omp-core/src/paths.rs:236-256 | On every store, pushing rows onto the output appends exactly the rows of the pure listing, or stops with the error of the first directory that cannot be loaded. |
| `StorePaths.ObjectStore.Walk` | crates/omp-core/src/paths.rs:222-234 | Walk returns the rows of the listing with joined paths, or that error, and succeeds on readable trees. |
| `StorePaths.FaultIff` | crates/omp-core/src/paths.rs:236-256 | A walk meets no error exactly when every directory under the entry is readable. |
| `StorePaths.FindInReadable` | crates/omp-core/src/paths.rs:64-93 | On a readable tree the store-backed lookup is the pure one. |
| `Edits.RunIsLastWrite` | crates/omp-core/src/api.rs:1441-1471 | After any successful sequence of edits each path shows what the last edit at or above it put there. |
| `Edits.CanonicalRoots` | crates/omp-core/src/paths.rs:111-217 | Two edit sequences from the empty tree give the same root hash exactly when they give the same flat map. |
| `Edits.RunSucceeds` | crates/omp-core/src/api.rs:1441-1471 | A sequence of compatible edits succeeds exactly when each edit alone would, on the tree it starts from. |
| `Edits.CommitOrder` | crates/omp-core/src/api.rs:1441-1471 | Every order of compatible edits gives the same root or every order fails, and the new leaves are those of the base with exactly the edits applied. |
| `Edits.OrderMatters` | crates/omp-core/src/api.rs:1441-1471 | Two edits that are not compatible, done last, never give one result in both orders when both orders succeed. |
| `CommitOrders.CommitAnyOrder` | crates/omp-core/src/api.rs:1401-1494 | In a sound repository with compatible changes, rebuilt manifests included, commit fails in every iteration order or gives one tree in all, with each change at its path and HEAD's leaves elsewhere; it succeeds exactly when the reprobe pass does and each change applies to HEAD. |
| `CommitOrders.CommitOrderIff` | crates/omp-core/src/api.rs:1401-1494 | If some iteration order succeeds, all orders agree exactly when every two changes are apart, both removals, the same upsert, or an upsert and a removal strictly below it. |
| `CommitOrders.RebuiltExact` | crates/omp-core/src/api.rs:1536-1611 | After a pass that succeeds, the rebuilt manifests are exactly those HEAD shows for whose file type a changed schema is staged, which were not made under that schema, whose source is a blob, and which rebuilding succeeds for. |
| `CommitOrders.PassFailsIff` | crates/omp-core/src/api.rs:1500-1560 | The whole pass fails exactly when a schema is staged and the set-up fails, or a staged schema does not parse. |
| `CommitOrders.MergedAt` | crates/omp-core/src/api.rs:1604-1611 | A commit carries out a staged change as it is, unless the manifest at its path is rebuilt, which then takes its place. |
| `CommitOrders.StagedShows` | crates/omp-core/src/api.rs:1604-1611 | What was staged at a key shows in the new commit exactly when the manifest there is not rebuilt, by the tests on file type, changed schema, schema hash and source, or is rebuilt to what was staged. |
| `Scenarios.ReprobeOverwrites` | crates/omp-core/src/api.rs:1604-1611 | A run in which a staged deletion is undone by the reprobe for a changed schema staged beside it. |
| `Scenarios.OrderMattersOnOnePath` | crates/omp-core/src/api.rs:2695-2711 | A run that stages the file `a` and its deletion as `a/`: one iteration order commits the file, the other finds the commit empty. |
| `Refs.NthAncestor` | crates/omp-core/src/refs.rs:85-105 | The cursor loop follows first parents, with its three errors. |
| `Refs.AncestorAdds` | crates/omp-core/src/refs.rs:85-105 | Going back m and then n commits is going back m + n. |
| `Refs.AncestorStored` | crates/omp-core/src/refs.rs:85-105 | In a sound store an ancestor of a stored commit is a stored commit. |
| `RefText.ReadHex` | crates/omp-core/src/refs.rs:54-84 | The hexadecimal form of a hash reads as a literal without a bar, and as that hash when it reads back. |
| `RefText.ReadName` | crates/omp-core/src/refs.rs:54-84 | A name without `~` that is no hash reads as itself, and with `~n` as that name and count. |
| `RefText.ReadNoCount` | crates/omp-core/src/refs.rs:76-84 | What follows `~` and does not read as a number counts as 1, the empty text included. |
| `Repository.Repo.constructor` | crates/omp-core/src/api.rs:286-300 | A new repository is sound, with HEAD on an unborn main. |
| `Repository.Repo.AddBlob` | crates/omp-core/src/api.rs:423-455 | Adding a schema, probe or configuration stores one blob and stages it, exactly on valid paths and accepted contents, and changes nothing else. |
| `Repository.Repo.AddFile` | crates/omp-core/src/api.rs:423-545 | Adding a file stages a manifest whose source holds the bytes, whole or in chunks; plain reading returns them exactly when they were not chunked. |
| `Repository.Repo.PutChunks` | crates/omp-core/src/api.rs:488-545 | The chunks in the list put together are the file. |
| `ValidPaths.ChunkSizes` | crates/omp-core/src/api.rs:505-530 | Every chunk of a file but the last has the chunk size, no chunk is empty, and each entry says the length of its chunk. |
| `Repository.Repo.Remove` | crates/omp-core/src/api.rs:1064-1077 | Removing stages a deletion, exactly on valid paths, and changes nothing else. |
| `Repository.Repo.RunAutoReprobe` | crates/omp-core/src/api.rs:1500-1637 | Finding the staged schemas, skipping unchanged ones, walking HEAD and rebuilding the manifests concerned gives the specified rows, or the error that ends the pass, and stores exactly the objects rebuilt by then. |
| `Repository.Repo.BuildTree` | crates/omp-core/src/api.rs:1441-1471 | The loop over the changes computes the run of their edits on HEAD's tree, failing exactly when the run fails, and stores exactly the trees of that run. |
| `Repository.Repo.Commit` | crates/omp-core/src/api.rs:1401-1494 | Commit, with its reprobe pass or without, moves a sound repository to the specified state; it succeeds exactly when something is staged, the pass and the edits succeed and the tree is not empty. The stored commit then has the text given, the root of the run as its tree and the commit HEAD was at, if any, as its parent; only HEAD's branch, or a detached HEAD, moves to it, and the index is cleared. On failure refs, HEAD and index are unchanged. |
| `Repository.Repo.Branch` | crates/omp-core/src/api.rs:1854-1866 | Branch succeeds exactly when its start resolves and the name is free, adds one ref, and keeps the repository sound exactly when that is a stored commit. |
| `Repository.Repo.Checkout` | crates/omp-core/src/api.rs:1868-1880 | Checkout attaches HEAD to a short branch name, else detaches it at what the expression resolves to, fails exactly when neither is possible, and changes nothing else. |
| `Soundness.ResolvesToCommit` | crates/omp-core/src/refs.rs:54-105 | In a sound repository a ref expression resolves to a stored commit, except exactly a bare literal hash that names none. |
| `Soundness.PutSound` | crates/omp-core/src/paths.rs:125-159 | The trees a put stores, also when it fails half-way, keep the store sound. |
| `Soundness.DeleteSound` | crates/omp-core/src/paths.rs:180-217 | The same for delete. |
| `Soundness.CommitKeeps` | crates/omp-core/src/api.rs:1401-1494 | A commit, also one that fails, keeps the repository sound and moves only HEAD's branch, to a child of its tip. |
| `Soundness.NextKeeps` | crates/omp-core/src/api.rs:423-545 | Every operation keeps a sound repository sound, only adds objects and moves a branch only to a child of its tip; excepted are adding a file at a path whose names do not print, and literals that name no stored commit. |
| `Runs.Do` | crates/omp-core/src/api.rs:423-545 | Every operation moves a sound repository to the state specified for it. |
| `Runs.Perform` | crates/omp-core/src/api.rs:1401-1494 | Any list of operations carried out on a new repository leaves the state that the theorems about runs speak of. |
| `Runs.RunSafety` | crates/omp-core/src/api.rs:1401-1494 | Through every run nothing points to a missing or mistyped object, every branch only moves forward along first parents, and what a stored commit shows at any path never changes. |
| `Records.CommitsRecorded` | crates/omp-core/src/api.rs:1473-1494 | In every run, every commit in the store was written by a commit operation of the run: it holds the author and message that operation was given, the tree it built, and the commit HEAD was then at. |
| `Records.NextWrites` | crates/omp-core/src/api.rs:1473-1480 | No other operation writes a commit. |
| `Records.CommitMakes` | crates/omp-core/src/api.rs:1480-1491 | A commit operation that succeeds stores such a commit, moves only HEAD's branch or a detached HEAD to it, and clears the index. |
| `Runs.ShowStable` | crates/omp-core/src/api.rs:2301-2317 | More objects do not change what a stored commit shows, and it is always readable. |
| `Runs.DanglingBranch` | crates/omp-core/src/refs.rs:63-64 | A literal hash that is not stored resolves, and a branch there breaks soundness. |
| `Gc.LiveSet.WalkSource` | crates/omp-core/src/gc.rs:199-223 | A source adds itself and its chunks, or fails and adds nothing. |
| `Gc.LiveSet.WalkManifest` | crates/omp-core/src/gc.rs:148-194 | Adds the manifest, the probes it records, its source and its chunks; it fails exactly when the manifest or its source cannot be looked into. |
| `Gc.LiveSet.WalkTree` | crates/omp-core/src/gc.rs:116-146 | The same for trees; it terminates on cyclic stores. |
| `Gc.LiveSet.Walk` | crates/omp-core/src/gc.rs:71-114 | On every store the walk terminates; it fails only if a reachable object cannot be read, and else the live set is exactly what is reachable from the roots. |
| `Gc.ClosedContains` | crates/omp-core/src/gc.rs:71-114 | A set closed under references contains all that its members reach. |
| `LiveSets.LiveExact` | crates/omp-core/src/gc.rs:71-223 | In terms of the stored objects: the live set is the least one with the roots in it that has, for every commit, its tree and parents; for every tree, its entries; for every manifest, its source and each probe it records; and for every chunk list, its chunks. |
| `LiveSets.SweepExact` | crates/omp-core/src/gc.rs:71-223 | Deleting what is not live keeps, unchanged, exactly the stored objects that are live. |
| `LiveSets.SweepKeepsInputs` | crates/omp-core/src/gc.rs:148-223 | The probes that a live manifest records are live, and they, its source and its chunks are kept. |
| `History.Log` | crates/omp-core/src/refs.rs:111-134 | The stack loop terminates on every store and is the log function. |
| `History.LogExact` | crates/omp-core/src/refs.rs:111-134 | When no parent is missing the log has no repeats, lists only live commits, and lists all of them unless cut off at its maximum. |
| `History.LogComplete` | crates/omp-core/src/refs.rs:111-134 | With a maximum above the number of objects the log lists exactly the live commits. |
| `History.LogChain` | crates/omp-core/src/refs.rs:85-134 | Entry i of the log is the i-th first-parent ancestor, all along that chain. |
| `LogOrder.WalkOrderIff` | crates/omp-core/src/refs.rs:107-134 | The depth-first walk lists every commit before its parents exactly when no reachable merge has a parent that reaches a commit which the parents before it do not, while they reach a parent of that commit. |
| `History.LogOfIsWalk` | crates/omp-core/src/refs.rs:111-134 | On a closed store the log is that walk, cut off at its maximum. |
| `History.LogOrderIff` | crates/omp-core/src/refs.rs:107-134 | On a closed store the log lists children before parents, at every maximum, exactly under that condition. |
| `LinearHistory.NextLinear` | crates/omp-core/src/api.rs:1473-1479 | No operation writes a commit with two parents. |
| `LinearHistory.LogChildrenFirst` | crates/omp-core/src/refs.rs:107-134 | In every run from a new repository the log of every commit lists children before parents. |
| `History.LogOrderOnMerge` | crates/omp-core/src/refs.rs:107-134 | After a merge whose second parent is a child of the first, a parent comes before its child. |
| `History.SoundParents` | crates/omp-core/src/refs.rs:111-134 | A sound store meets the hypothesis of the log theorem. |
| `History.SweepSafe` | crates/omp-core/src/gc.rs:71-223 | Deleting all that is not live changes no lookup, no listing, no ancestor, no log, no bytes of a manifest or blob entry and no chunk reachable from the roots. |
| `Diff.DiffListings` | crates/omp-core/src/api.rs:1816-1850 | The loop gives one entry per differing path, in order, within the filter. |
| `Diff.DiffEntries` | crates/omp-core/src/api.rs:1816-1850 | A diff holds exactly the added, removed and modified paths under the filter, each with the hashes of the two listings. |
| `Diff.DiffAscends` | crates/omp-core/src/api.rs:1816-1850 | Its entries are in ascending order of their paths, one to a path. |
| `Diff.DiffPatches` | crates/omp-core/src/api.rs:1801-1852 | Patching the first listing with the unfiltered diff gives the second, modes included when the types fix them. |
| `Diff.ListingTyped` | crates/omp-core/src/api.rs:2604-2619 | In a sound store they do, for the listing of every commit. |
| `Diff.DiffEmpty` | crates/omp-core/src/api.rs:1801-1852 | Though modes are ignored, the diff of two canonical trees with typed leaves is empty exactly when their hashes are equal. |
| `Diff.DiffOfCommits` | crates/omp-core/src/api.rs:2604-2619 | The same for any two commits of a sound store, because an object's type fixes its mode. |
| `Diff.ListingIsLeaf` | crates/omp-core/src/paths.rs:222-256 | The collected listing is the flat view of the tree under joined paths. |
| `Sealing.AadInjective` | crates/omp-core/src/api.rs:667-730 | The associated data of a chunk determines its index and the number of chunks, and is never that of a single blob. |
| `Sealing.SliceCount` | crates/omp-core/src/api.rs:667-730 | The number of slices is the rounded-up quotient. |
| `Sealing.SliceSizes` | crates/omp-core/src/api.rs:690-700 | Every slice has the chunk size, but for the last one, which is not empty. |
| `Sealing.SealSingleBlob` | crates/omp-core/src/api.rs:639-665 | What was sealed opens to the plaintext in every later store. |
| `Sealing.SealChunked` | crates/omp-core/src/api.rs:666-747 | The stored chunks open to the plaintext in every later store, no two of them share a nonce, and each entry says the stored length; it fails exactly when there are more than 32 bits can count. |
| `Sealing.DecryptSource` | crates/omp-core/src/api.rs:774-825 | The loop over the chunk list opens each chunk at its own index and count, with all its errors. |
| `Sealing.Binding` | crates/omp-core/src/api.rs:667-825 | A non-empty list of ciphertexts of one sealing that opens fully is the original list, in order and complete. |
| `Sealing.EmptyListOpens` | crates/omp-core/src/api.rs:774-825 | The empty list opens to nothing under every key. |
| `Engine.ProbeOutputCache.IngestWithCache` | crates/omp-core/src/engine.rs:146-204 | The field loop with the shared cache computes the ingest function, cache included. |
| `IngestLaws.IngestExact` | crates/omp-core/src/engine.rs:146-204 | Ingest, with any cache, succeeds exactly when there is a table in which every field shows the value its source gives from the fields before it, each allowed by its type and by being required, and no user field is undeclared unless extras are allowed. That table is unique; the manifest shows it and the extras, and records exactly the probes that were asked. Otherwise the error is that of the first field without an allowed value, or of the stray field. |
| `IngestLaws.UserShown` | crates/omp-core/src/engine.rs:323-327 | A user-provided field shows the user's non-null value, normalized. |
| `IngestLaws.ConstantShown` | crates/omp-core/src/engine.rs:243 | A constant field shows its constant, normalized. |
| `IngestLaws.FromShown` | crates/omp-core/src/engine.rs:329-332 | A field copied from an earlier one shows that one's value; a string is transformed. |
| `IngestLaws.ProbeShown` | crates/omp-core/src/engine.rs:245-321 | With a sound cache a probe field within the limit shows what the probe finds in the bytes, given its arguments and the path, and the manifest records the probe. |
| `IngestLaws.BuiltinShown` | crates/omp-core/src/engine.rs:271-287 | For a chunked file the two built-in probes show its size and hash. |
| `IngestLaws.FallbackShown` | crates/omp-core/src/engine.rs:206-231 | A field whose own source says nothing, above the limit of its probe included, is null without a fallback and otherwise shows its fallback. |
| `IngestLaws.ExtrasShown` | crates/omp-core/src/engine.rs:171-189 | Undeclared user fields are kept exactly where extras are allowed, and elsewhere make the ingest fail. |
| `IngestLaws.IngestRefuses` | crates/omp-core/src/engine.rs:154-169 | A missing or failing probe, a required field without a value and a value of the wrong type make the ingest fail. |
| `IngestLaws.TypeTakes` | crates/omp-core/src/schema.rs:102-132 | The values that each field type takes. |
| `IngestLaws.NormalizedValue` | crates/omp-core/src/engine.rs:356-372 | Under a float type integers are shown as floats of the same value; nothing else changes. |
| `IngestLaws.SlugExact` | crates/omp-core/src/schema.rs:189-205 | A slug is the words of the text, in lower case, joined by single dashes. |
| `Engine.SourceTransparent` | crates/omp-core/src/engine.rs:233-337 | When no field of a type can tell the cached values from the probes' outputs, a source resolves, as far as such a field can tell, as with an empty cache, and the cache stays like that. |
| `Engine.FieldTransparent` | crates/omp-core/src/engine.rs:206-231 | The same through any chain of fallbacks. |
| `Engine.CacheTransparent` | crates/omp-core/src/engine.rs:146-204 | With any cache whose entries no field that looks them up can tell from the probes' outputs, ingest returns the same manifest or error as with none, and leaves such a cache. |
| `Engine.SoundTransparent` | crates/omp-core/src/engine.rs:146-204 | The same for caches that hold the probes' outputs. |
| `Reprobe.GenuineValue` | crates/omp-core/src/api.rs:1689-1721 | A reused value of a manifest the engine built is not null and of the old type; the probe succeeded, and its output is null, with a fallback, or is stored up to promotion. |
| `Reprobe.ReprobeIsFresh` | crates/omp-core/src/api.rs:1644-1778 | When no field of the pass can tell a reused value from the probe's output, reprobing is a fresh ingest of the same bytes and carried fields, and leaves the shared cache fit for the next file. |
| `Reprobe.ReprobeFreshIff` | crates/omp-core/src/api.rs:1644-1778 | For a manifest the engine built, reprobing is a fresh ingest under every new schema of its file type, with the same probes, if and only if, for every old probe field whose value can be reused and read, the probe found something and the old type did not promote an integer or a list of integers. |
| `Reprobe.KeptIff` | crates/omp-core/src/engine.rs:155-168 | That is when no field type can tell the stored value from the output. |
| `Reprobe.PlainUnnoticed` | crates/omp-core/src/api.rs:1689-1748 | A condition the schemas decide: reused fields without a fallback, and without a float type unless every field that may read the value has that type. |
| `Reprobe.PassIsFresh` | crates/omp-core/src/api.rs:1563-1630 | In a whole pass with one cache every file gets its fresh ingest, whatever the files before it left in the cache. |
| `Reprobe.PassAnyOrder` | crates/omp-core/src/api.rs:1563-1630 | Under either of these conditions on each file, that holds for the files in any order. |
| `Reprobe.ReprobeInto` | crates/omp-core/src/api.rs:1644-1778 | Seeding the shared cache field by field and ingesting with it computes the reprobe function, cache included. |
| `Reprobe.CarriedShown` | crates/omp-core/src/api.rs:1674-1686 | A field that the user provided under the old schema and provides under the new one shows the old value, normalized. |
| `Reprobe.OthersNotCarried` | crates/omp-core/src/api.rs:1674-1686 | No other value of the old manifest becomes the user's: a field that is user-provided only now is null without a fallback. |
| `Reprobe.DroppedFields` | crates/omp-core/src/engine.rs:173-189 | A field that the new schema does not declare is kept exactly when the user provided it and extras are allowed; if they are not, its value makes the reprobe fail. |
| `Reprobe.ReprobedHead` | crates/omp-core/src/api.rs:1750-1767 | The source is kept, and type, schema and time are the new ones. |
| `Reprobe.ReprobedProbe` | crates/omp-core/src/api.rs:1644-1778 | When no field can tell, a reprobed probe field shows what the probe finds in the stored bytes, given its arguments and the path. |
| `Reprobe.RunPass` | crates/omp-core/src/api.rs:1563-1630 | The loop over the files computes the pass. |
| `Reprobe.StaleFallback` | crates/omp-core/src/api.rs:1731-1748 | With a fallback it is not: the old fallback value is taken for the probe's. |
| `Reprobe.FloatPromoted` | crates/omp-core/src/api.rs:1731-1748 | With a float type it is not: a promoted integer is rejected where a fresh ingest succeeds. |
| `TopoSort.TopoExact` | crates/omp-core/src/schema.rs:551-601 | Sorting succeeds exactly when every primary chain of references stays in the map and ends; the result is a permutation with each reference first. |
| `TopoSort.TopoChoice` | crates/omp-core/src/schema.rs:569-594 | The next field is the greatest of those that can be resolved; but once a field that is out has given its value to another, it is the least. |
| `TopoSort.BuildGraph` | crates/omp-core/src/schema.rs:553-568 | Whatever the iteration order, the graph has exactly the primary references as edges and in-degrees. |
| `TopoSort.Drain` | crates/omp-core/src/schema.rs:578-595 | The loop over the ready list computes a function of the field map alone. |
| `TopoSort.Sort` | crates/omp-core/src/schema.rs:551-601 | The whole method does not depend on the iteration order. |
| `TopoSort.ResolvedBefore` | crates/omp-core/src/engine.rs:154-169 | A reference, fallbacks included, reads a resolved value exactly when its field comes earlier in the order. |
| `TopoSort.FromIsResolved` | crates/omp-core/src/engine.rs:329-332 | Ingest reads every primary reference after it is resolved, with any cache. |
| `TopoSort.SameOrderSameFields` | crates/omp-core/src/api.rs:2752-2770 | Two schemas compare equal position by position exactly when their field maps are equal. |
| `TopoSort.SelfReference` | crates/omp-core/src/schema.rs:559-564 | A field that refers to itself makes sorting fail. |
| `TopoSort.FallbackNotOrdered` | crates/omp-core/src/schema.rs:558-567 | A fallback can be resolved before the field it refers to, and then reads null. |
| `QueryParser.ParseExact` | crates/omp-core/src/query.rs:361-481 | The parser returns an expression exactly for the renderings, redundant parentheses allowed, of trees of the grammar that stand for it. |
| `QueryParser.RoundTrip` | crates/omp-core/src/query.rs:80-95 | Rendering with minimal parentheses parses back, and no rendering is shorter. |
| `QueryParser.ParseComplete` | crates/omp-core/src/query.rs:361-437 | Every rendering of a tree of the grammar is accepted, with the expression it stands for. |
| `QueryParser.Parser.ParseAll` | crates/omp-core/src/query.rs:80-95 | The parser with its position accepts exactly what the parsing function accepts, consuming all tokens. |
| `QueryParser.Parser.Disjunction` | crates/omp-core/src/query.rs:366-375 | The loop builds the left-associated disjunction of the function. |
| `QueryParser.Parser.Conjunction` | crates/omp-core/src/query.rs:377-386 | The same for conjunctions. |
| `QueryParser.Parser.Negation` | crates/omp-core/src/query.rs:388-396 | The same for negations. |
| `QueryParser.Parser.Primary` | crates/omp-core/src/query.rs:398-437 | The same for parentheses, `exists` and comparisons. |
| `QueryParser.Parser.Path` | crates/omp-core/src/query.rs:439-481 | The same for dotted paths. |
| `Pagination.PageSplits` | crates/omp-core/src/api.rs:2055-2096 | A page is the next stretch of the filtered listing and its cursor points past it. |
| `Pagination.QueryLoop` | crates/omp-core/src/api.rs:2055-2096 | The loop that loads manifests computes the scan, on every store, errors included. |
| `Pagination.RunQuery` | crates/omp-core/src/api.rs:2014-2096 | Resolving, walking, sorting and loading manifests from a store computes the query, errors included. |
| `Pagination.ScanExact` | crates/omp-core/src/api.rs:2055-2096 | The scan fails exactly on a row that cannot be read and comes before the page is full; else it gives the page. |
| `Pagination.QueryReads` | crates/omp-core/src/api.rs:2030-2096 | In a sound store every tree and manifest of a page can be read, and the page is the next stretch of the listing. |
| `Pagination.QueryExact` | crates/omp-core/src/api.rs:2055-2090 | In a sound store a page from any row on holds the next matching rows, as many as there are up to the limit, which is brought between 1 and 1000; it has a cursor exactly when it is full and its last match is not the last row, and the cursor points past that match. |
| `Pagination.QueryRows` | crates/omp-core/src/api.rs:2041-2066 | The matching rows are exactly the manifests of the listing that pass the predicate, in ascending order of their paths. |
| `Pagination.PagesAreSnapshot` | crates/omp-core/src/api.rs:2014-2096 | For HEAD by default, a literal hash with or without `~n`, or a ref no commit can move, with pages fetched by following cursor texts with any limits at any moments of any run: every page succeeds if and only if the text has no bar or no second page is needed, and fails as an invalid path otherwise; the pages so far and the rows still to come are the sorted, filtered listing of the first snapshot; and after at most one page per row there is no cursor. |
| `Pagination.AnchorStays` | crates/omp-core/src/api.rs:2156-2164 | What such an expression means does not change during a run. |
| `Pagination.HeadAnchored` | crates/omp-core/src/api.rs:2156-2164 | HEAD by default is pinned to HEAD's commit, provided its hexadecimal form reads back. |
| `Unpinned.UnpinnedRepeats` | crates/omp-core/src/api.rs:2156-2164 | For HEAD by name or any branch that commits can move, with any `~n`, there is a run on which one commit between two pages makes a row appear twice, or the second page fail when there is a bar in the text. |
| `Unpinned.BarredBranch` | crates/omp-core/src/query.rs:536-566 | A run that makes a branch with a slash and a bar in its name, after which, with nothing changed, its second page is refused. |
| `Pagination.ManifestsExact` | crates/omp-core/src/api.rs:2043-2053 | The listing is sorted by path and holds exactly the manifests under the prefix. |
| `Pagination.CursorRoundTrip` | crates/omp-core/src/query.rs:536-566 | A cursor reads back exactly when its commit text is not empty and has no bar. |
| `Pagination.BarredCursor` | crates/omp-core/src/query.rs:546-566 | A cursor for a commit text with a bar is refused. |
| `Hex.RoundTrip` | crates/omp-core/src/hash.rs:20-61 | A hash reads back from its 64 digits. |
| `Hex.DecodeIff` | crates/omp-core/src/hash.rs:49-70 | A text reads as a hash exactly when it is its hexadecimal form, in any case of letters. |
| `Hex.FromStr` | crates/omp-core/src/hash.rs:49-61 | The byte loop accepts exactly 64 digits of either case. |
| `ObjectCodec.FrameRoundTrip` | crates/omp-core/src/object.rs:58-115 | A framed object reads back as its type and content. |
| `ObjectCodec.FrameInjective` | crates/omp-core/src/object.rs:58-69 | The hashed bytes determine type and content. |
| `ObjectCodec.FrameText` | crates/omp-core/src/object.rs:58-75 | The hashed bytes are the type, a space, the decimal length, a zero byte and the content. |
| `ObjectCodec.ChunksRoundTrip` | crates/omp-core/src/chunks.rs:37-73 | A chunk list reads back in order. |
| `ObjectCodec.ParseBody` | crates/omp-core/src/chunks.rs:46-73 | The line loop computes the parsing function, errors included. |
| `ObjectCodec.SerializeBody` | crates/omp-core/src/chunks.rs:37-43 | The loop prints one line per entry, in order. |
| `ObjectCodec.ParseChunksIff` | crates/omp-core/src/chunks.rs:46-73 | A text reads as a list exactly when its lines that are not blank read as the entries. |
| `ObjectCodec.ParsePartsIff` | crates/omp-core/src/chunks.rs:46-73 | A line reads as an entry exactly when it has the hash, in any case of letters, and the length, with a plus sign or leading zeros allowed. |
| `ObjectCodec.SerializationIff` | crates/omp-core/src/chunks.rs:37-73 | A text is the serialization of a list, up to its final line feed, exactly when its lines, none blank, are printed lines of the entries. |
| `TreeCodec.TreeRoundTrip` | crates/omp-core/src/tree.rs:96-203 | A tree reads back from its text, names plain or sealed, listed in any order. |
| `TreeCodec.PlainRoundTripIff` | crates/omp-core/src/tree.rs:142-216 | The plain text reads back exactly when no name has a line feed or ends in a carriage return. |
| `TreeCodec.TreeText` | crates/omp-core/src/tree.rs:96-140 | The text of a tree: a line of mode, hash and name per entry, after a marker line when names are sealed. |
| `TreeCodec.ParseTree` | crates/omp-core/src/tree.rs:146-203 | The line loop computes the parsing function, marker line and errors included. |
| `CommitCodec.AuthorRoundTripIff` | crates/omp-core/src/commit.rs:31-62 | An author reads back exactly when its name is trimmed, its email has no `<` and its timestamp is one word. |
| `CommitCodec.ParsedAuthor` | crates/omp-core/src/commit.rs:36-61 | Only such authors are ever read. |
| `CommitCodec.SerializeWithCommitKey` | crates/omp-core/src/commit.rs:82-113 | The pushes build header lines, an empty line and the body, plain or sealed. |
| `CommitCodec.CommitText` | crates/omp-core/src/commit.rs:70-100 | The text of a commit with at most one parent, header by header. |
| `CommitCodec.BodyForm` | crates/omp-core/src/commit.rs:85-100 | The message goes in without its final line feeds, as it is or sealed behind a marker. |
| `CommitCodec.ParseWithCommitKey` | crates/omp-core/src/commit.rs:119-181 | The header loop computes the parsing function, errors included. |
| `CommitCodec.ParseCommitHeaders` | crates/omp-core/src/gc.rs:229-270 | The reader of garbage collection computes its function. |
| `CommitCodec.CommitTree` | crates/omp-core/src/api.rs:2323-2353 | The tree lookup returns the first tree line before the first empty line. |
| `CommitCodec.CommitRoundTripIff` | crates/omp-core/src/commit.rs:82-181 | A commit reads back, plain or sealed, exactly when its author does and has no line feed, its message does not end in one and, when plain, does not look sealed. |
| `CommitCodec.GcAgrees` | crates/omp-core/src/gc.rs:229-270 | On every text that parses under some key, garbage collection reads the same tree, parents and author without it. |
| `CommitCodec.GcSerialized` | crates/omp-core/src/gc.rs:229-270 | On every serialized commit, sealed or not and whatever its author, it succeeds exactly when it takes every header line the author makes; it then finds the commit's tree exactly when the last tree line among these is absent or names that tree, and the parents exactly when there is no parent line among them. |
| `CommitCodec.GcOneLine` | crates/omp-core/src/gc.rs:229-270 | For an author without line feeds it finds the commit's tree and parents exactly when the author line parses. |
| `CommitCodec.ReadersAgreeIff` | crates/omp-core/src/commit.rs:119-181 | When the full parser reads a serialized commit, it agrees with the tree lookup, and with the commit, exactly under that condition on the author's lines. |
| `CommitCodec.TreeFirst` | crates/omp-core/src/api.rs:2323-2353 | On every serialized commit, sealed or not and whatever its author, the tree lookup finds the commit's tree. |
| `CommitCodec.TreeFound` | crates/omp-core/src/api.rs:2323-2353 | The tree lookup finds a tree in every text that parses. |
| `CommitCodec.InjectedTree` | crates/omp-core/src/commit.rs:119-181 | With line feeds in the author's name the full parser and the tree lookup return different trees. |
| `Uploads.ChainExact` | crates/omp-core/src/uploads.rs:137-185 | Reassembly succeeds exactly when the chunks cover each byte once and no empty one comes early, and puts each at its offset. |
| `Uploads.PlacedUnique` | crates/omp-core/src/uploads.rs:137-185 | At most one byte string has every chunk of a tiling in its place. |
| `Uploads.StoredIsLast` | crates/omp-core/src/uploads.rs:102-131 | After any writes an offset holds what was last accepted there. |
| `Uploads.WritesCommute` | crates/omp-core/src/uploads.rs:99-131 | Sequences of writes with the same last write at every offset leave the same session. |
| `Uploads.SwapWrites` | crates/omp-core/src/uploads.rs:99-131 | Neighbouring writes at different offsets can be exchanged. |
| `Uploads.UploadExact` | crates/omp-core/src/uploads.rs:102-185 | Whatever was written to a new session, reassembly succeeds exactly when the last accepted writes tile the declared size. |
| `Uploads.UploadRoundTrip` | crates/omp-core/src/uploads.rs:102-185 | When each offset was last written as in sending a file in pieces of one size, in whatever order and however often, reassembly gives back the file. |
| `Uploads.EmptyChunkBlocks` | crates/omp-core/src/uploads.rs:137-185 | An empty chunk inside another makes reassembly fail. |
| `Uploads.SortOffsets` | crates/omp-core/src/uploads.rs:146-159 | Sorting gives the listed offsets in ascending order. |
| `Uploads.Splice` | crates/omp-core/src/uploads.rs:161-185 | The loop over sorted chunks with its cursor computes the chain. |
| `Uploads.UploadManager.WriteChunk` | crates/omp-core/src/uploads.rs:102-130 | A write is accepted exactly when its session exists and it ends within the declared size, and within 64 bits; it then sets one offset, and refused writes change nothing. |
| `Uploads.UploadManager.Assemble` | crates/omp-core/src/uploads.rs:137-185 | Whatever the directory order, the result has every chunk in place exactly when they tile the declared size, and is an error otherwise. |
| `Uploads.UploadManager.Remove` | crates/omp-core/src/uploads.rs:188-194 | Removing a session touches no other and never fails. |
| `Jobs.JobsTable.CreateJob` | crates/omp-builder/src/jobs.rs:132-156 | A new job is queued with an empty log. |
| `Jobs.JobsTable.View` | crates/omp-builder/src/jobs.rs:158-167 | A tenant sees its own jobs, and others' look like none. |
| `Jobs.JobsTable.UpdateJob` | crates/omp-builder/src/jobs.rs:169-175 | An update changes one existing record. |
| `Jobs.JobsTable.Append` | crates/omp-builder/src/jobs.rs:177-184 | Log and channel grow by the same line. |
| `Jobs.JobsTable.SubscribeLog` | crates/omp-builder/src/jobs.rs:188-199 | The replay is exactly what the channel carried before the subscription. |
| `Jobs.JobsTable.DeleteJob` | crates/omp-builder/src/jobs.rs:201-211 | Only the owner's job goes, and no other tenant's view changes. |
| `Builder.BuildsBounded` | crates/omp-builder/src/builder.rs:143-213 | In every interleaving at most `max_concurrent_builds` jobs are building. |
| `Builder.RecordsConsistent` | crates/omp-builder/src/builder.rs:143-223 | In every interleaving artifacts exist exactly in `Ok` and errors exactly in `Failed`, nothing is `Cancelled`, a failure is the last log line, and the log is what the channel carried. |
| `Builder.ReplayPlusTail` | crates/omp-builder/src/jobs.rs:177-199 | In every interleaving a receiver has shown exactly the first lines of the log if and only if it never lagged. |
| `Builder.NeverLags` | crates/omp-builder/src/jobs.rs:132-156 | A receiver that stays within the 256 lines of its channel never lags. |
| `Builder.VerdictFinal` | crates/omp-builder/src/builder.rs:143-223 | The verdict and artifacts of a finished job never change while it exists. |
| `BuildStory.JobStory` | crates/omp-builder/src/builder.rs:143-223 | In every interleaving a job belongs to who submitted it; a built job has the artifacts of the success of its running build; a failed one has the reason its running build failed with, or was refused at shutdown while it waited. |
| `BuildStory.LogStory` | crates/omp-builder/src/jobs.rs:177-184 | The log of a job is what its build logged while it ran and the line that reports its end, each once and in order. |
| `BuildStory.Removal` | crates/omp-builder/src/jobs.rs:201-211 | A job goes exactly when its own tenant removes it. |
| `BuildStory.ShutdownStays` | crates/omp-builder/src/builder.rs:143-160 | Once the service shuts down no waiting build starts. |
| `Builder.Progress` | crates/omp-builder/src/builder.rs:143-213 | While a build is unfinished some task can take a step. |
| `Builder.StepKeeps` | crates/omp-builder/src/builder.rs:143-223 | Every step keeps permits plus holders equal to the maximum, and all records and receivers consistent. |
| `Calendar.DayByDay` | crates/omp-builder/src/jobs.rs:236-250 | Day 0 is 1970-01-01 and each day is followed by the next date of the calendar. |
| `Calendar.FromDaysValid` | crates/omp-builder/src/jobs.rs:236-250 | Every day count gives a valid Gregorian date. |
| `Calendar.ToDaysFromDays` | crates/omp-builder/src/jobs.rs:236-250 | The date of a day count has that day number. |
| `Calendar.FromDaysToDays` | crates/omp-builder/src/jobs.rs:236-250 | Every valid date is the date of its day number. |
| `Calendar.DaysSinceEpochToYmd` | crates/omp-builder/src/jobs.rs:236-250 | In 32- and 64-bit integers no step underflows or overflows, and the result is that date. |
| `Calendar.RepresentableTight` | crates/omp-builder/src/jobs.rs:240-245 | The range is exact: one day earlier the year fits 32 bits but the first year of its era does not. |
| `Calendar.SecondsRoundTrip` | crates/omp-builder/src/jobs.rs:226-234 | The fields of a second are a valid time from which the second can be computed. |
| `Calendar.TimesRoundTrip` | crates/omp-builder/src/jobs.rs:226-234 | Every valid time is the time of its second. |

## Left out

- How a manifest is rebuilt inside `commit`: it is a function of the path, the old manifest and the staged schema there; rebuilding a file, and a pass that shares a cache, are modelled on their own in `Reprobe`, whose theorems say when the result is such a function.
- Trees whose names the plain text does not read back: `StorePaths.Load` refuses them where the code may read another tree; runs that would make one are excluded by `Soundness.Harmless`.
- Encryption of trees, commits and manifests inside `Repo` and garbage collection, and shares between tenants; sealed names and messages are modelled in the codecs, sealed files in `Sealing`.
- Quotas, `patch_fields`, staged views, tenant set-up, `omp.toml` handling and starter files: map updates and lookups.
- The text of manifests and schemas, which rests on a TOML library; in `Engine` a manifest is its fields and hashes, in a repository its source, file type, schema hash, probe hashes and the rest as text.
- The tokenizer, `evaluate` and `compare` of queries; a query's predicate is any function of the manifest.
- Base64 of cursors. The text of a ref expression is read in `RefText` for queries; `branch` and `checkout` are given it read, and a branch with `~` in its name is checked out by its name.
- `glob_inner`, `check_field_refs` and the conversion of raw schema fields.
- The disk store, compression, file locking and expiry of uploads by wall clock.
- HTTP, the gateway, sign-in, metrics, the command line and the web frontend.
- `cargo` itself in the build service: a running build may log any lines and then succeed or fail.
- Builder.Progress: does not prove that a build ends, because a running `cargo` may log any number of lines; `run_cargo` awaits its log readers before it drops the child, so they can come even after the wall-clock limit.
- Calendar.SecondsRoundTrip: is about the numeric fields; padding them with zeros is not modelled.
