/**
 The `Repo` object (crates/omp-core/src/api.rs): its operations work on the store,
 the refs, HEAD and the index in place, and each is proved to do what `Next` says.
 */
module Repository {
  import opened Objects
  import opened Paths
  import opened Walk
  import opened Writes
  import opened StorePaths
  import opened Edits
  import opened Refs
  import opened Contents
  import opened States
  import opened Soundness
  import Diff

  class Repo {
    const store: ObjectStore
    var refs: RefMap
    var head: Head
    var index: Index

    ghost predicate Valid()
      reads this, store
    {
      store.Valid()
    }

    function Now(): State
      reads this, store
    {
      State(store.objects, refs, head, index)
    }

    /** `init`. */
    constructor ()
      ensures Valid() && Now() == INIT && Inv(INIT) && fresh(store)
    {
      store := new ObjectStore();
      refs, head, index := map[], OnBranch(BranchRef("main")), map[];
    }

    /**
     `add` of a schema, a probe or `omp.toml`: a blob. `accepted` is what validating it says,
     true where nothing is validated.
     */
    method AddBlob(path: string, bytes: seq<Byte>, accepted: bool) returns (r: Result<Hash>)
      requires Valid()
      modifies this, store
      ensures Valid() && Now() == Next(old(Now()), Event.AddBlob(path, bytes, accepted))
      ensures r.Ok? <==> ValidPath(path) && accepted
      ensures r.Err? ==> r.error == if ValidPath(path) then SchemaValidation else InvalidPath
      ensures r.Ok? ==> r.value == BlobHash(bytes) && index == old(index)[path := StageUpsert(r.value)]
      ensures r.Err? ==> Now() == old(Now())
    {
      if !ValidPath(path) {
        return Err(InvalidPath);
      }
      if !accepted {
        return Err(SchemaValidation);
      }
      var h := store.Put(BlobObj(Plain(bytes)));
      index := index[path := StageUpsert(h)];
      r := Ok(h);
    }

    /**
     `add` of a user file. `details` is what the ingest engine makes of it, `None`
     when ingest fails; a file of at least `chunkSize` bytes is stored in chunks,
     before ingest is attempted.
     */
    method AddFile(path: string, bytes: seq<Byte>, chunkSize: nat, details: Option<Details>)
      returns (r: Result<Hash>)
      requires Valid() && chunkSize > 0
      modifies this, store
      ensures Valid() && Now() == AddFileNext(old(Now()), path, bytes, chunkSize, details)
      ensures r.Ok? <==> ValidPath(path) && details.Some?
      ensures r.Err? ==> r.error == if ValidPath(path) then IngestValidation else InvalidPath
      ensures refs == old(refs) && head == old(head) && (r.Err? ==> index == old(index))
      ensures r.Err? && (!ValidPath(path) || |bytes| < chunkSize) ==> store.objects == old(store.objects)
      ensures r.Ok? ==> r.value in store.objects && index == old(index)[path := StageUpsert(r.value)]
      ensures r.Ok? ==> r.value.obj.ManifestObj? && r.value.obj.details == details.value
      ensures r.Ok? ==> Holds(store.objects, r.value.obj.source, bytes)
      ensures r.Ok? ==> (BytesOf(store.objects, r.value) == Ok(Content(BlobObj(Plain(bytes)))) <==> |bytes| < chunkSize)
    {
      if !ValidPath(path) {
        return Err(InvalidPath);
      }
      r := StageFile(path, bytes, chunkSize, details);
    }

    /** `add` of a user file, at a valid path. */
    method StageFile(path: string, bytes: seq<Byte>, chunkSize: nat, details: Option<Details>)
      returns (r: Result<Hash>)
      requires Valid() && chunkSize > 0
      modifies this, store
      ensures Valid() && Now() == StageFileNext(old(Now()), path, bytes, chunkSize, details)
      ensures r.Ok? <==> details.Some?
      ensures r.Err? ==> r.error == IngestValidation
      ensures r.Ok? ==> r.value in store.objects && index == old(index)[path := StageUpsert(r.value)]
      ensures r.Ok? ==> r.value.obj.ManifestObj? && r.value.obj.details == details.value
      ensures r.Ok? ==> Holds(store.objects, r.value.obj.source, bytes)
      ensures r.Ok? ==> (BytesOf(store.objects, r.value) == Ok(Content(BlobObj(Plain(bytes)))) <==> |bytes| < chunkSize)
    {
      if details.None? {
        if |bytes| >= chunkSize {
          var _ := PutSource(bytes, chunkSize);
        }
        return Err(IngestValidation);
      }
      var h := PutFile(bytes, chunkSize, details.value);
      index := index[path := StageUpsert(h)];
      r := Ok(h);
    }

    /** Stores the source of a file, and its manifest. */
    method PutFile(bytes: seq<Byte>, chunkSize: nat, details: Details) returns (h: Hash)
      requires Valid() && chunkSize > 0
      modifies store
      ensures Valid() && h == Digest(ManifestObj(SourceOf(bytes, chunkSize), details))
      ensures store.objects == StoreAll(old(store.objects), SourceHashes(bytes, chunkSize) + [h])
      ensures Holds(store.objects, h.obj.source, bytes)
      ensures BytesOf(store.objects, h) == Ok(Content(BlobObj(Plain(bytes)))) <==> |bytes| < chunkSize
    {
      var source := PutSource(bytes, chunkSize);
      ghost var mid := store.objects;
      h := store.Put(ManifestObj(source, details));
      StoreAllAppend(old(store.objects), SourceHashes(bytes, chunkSize), [h]);
      HoldsGrows(mid, store.objects, source, bytes);
    }

    /** Stores the bytes as a blob, or in chunks. */
    method PutSource(bytes: seq<Byte>, size: nat) returns (h: Hash)
      requires Valid() && size > 0
      modifies store
      ensures Valid() && Grows(old(store.objects), store.objects)
      ensures h == SourceOf(bytes, size) && store.objects == StoreAll(old(store.objects), SourceHashes(bytes, size))
      ensures Holds(store.objects, h, bytes)
    {
      if |bytes| >= size {
        h := PutChunks(bytes, size);
      } else {
        h := store.Put(BlobObj(Plain(bytes)));
        assert [] + [h] == [h];
      }
    }

    /** The chunk loop of `add_chunked`. */
    method PutChunks(bytes: seq<Byte>, size: nat) returns (h: Hash)
      requires Valid() && size > 0
      modifies store
      ensures Valid() && Grows(old(store.objects), store.objects)
      ensures h == Digest(ChunksObj(ChunkList(bytes, size)))
      ensures store.objects == StoreAll(old(store.objects), ChunkHashes(ChunkList(bytes, size)) + [h])
      ensures Holds(store.objects, h, bytes)
    {
      var entries: seq<ChunkEntry>, i := [], 0;
      NoChunks(store.objects, bytes, size);
      while i < |bytes|
        invariant 0 <= i <= |bytes| && Valid() && Grows(old(store.objects), store.objects)
        invariant Chunking(old(store.objects), store.objects, bytes, size, entries, i)
      {
        var j := if i + size <= |bytes| then i + size else |bytes|;
        ghost var before := store.objects;
        var c := store.Put(BlobObj(Plain(bytes[i..j])));
        OneMoreChunk(old(store.objects), before, store.objects, bytes, size, entries, i, j);
        entries := entries + [ChunkEntry(c, j - i)];
        i := j;
      }
      AllChunks(old(store.objects), store.objects, bytes, size, entries);
      ghost var before := store.objects;
      h := store.Put(ChunksObj(entries));
      StoreAllAppend(old(store.objects), ChunkHashes(entries), [h]);
      ChunkBytesGrows(before, store.objects, entries);
    }

    /** `remove`: stages a deletion. */
    method Remove(path: string) returns (r: Result<()>)
      requires Valid()
      modifies this
      ensures Valid() && Now() == Next(old(Now()), Event.Remove(path))
      ensures r.Ok? <==> ValidPath(path)
      ensures r.Ok? ==> index == old(index)[path := StageDelete]
      ensures r.Err? ==> r.error == InvalidPath && index == old(index)
    {
      if !ValidPath(path) {
        return Err(InvalidPath);
      }
      index := index[path := StageDelete];
      r := Ok(());
    }

    /**
     `run_auto_reprobe`: rebuilds the manifests in HEAD that the changed staged schemas
     concern. A pass that fails has stored what it had rebuilt by then.
     */
    method RunAutoReprobe(reprobe: Reprobe) returns (r: Result<seq<Row>>)
      requires Valid()
      modifies store
      ensures Valid() && Grows(old(store.objects), store.objects)
      ensures old(Inv(Now())) ==>
                && r == Ended(AutoReprobe(old(Now()), reprobe))
                && store.objects == StoreAll(old(store.objects), RowHashes(Rebuilt(old(Now()), reprobe)))
    {
      if reprobe.Deferred? {
        return Ok([]);
      }
      var staged := FindStaged(reprobe.order);
      if staged == [] {
        return Ok([]);
      }
      var _ :- reprobe.setup;
      var root :- HeadRoot(Now());
      var rows: seq<Row> := [];
      if Inv(Now()) {
        HeadRootGood(Now());
        if root.Some? {
          SoundReadable(store.objects, Entry(Tree, root.value));
          HeadRowsStored(Now(), root.value);
        }
      }
      if root.Some? {
        rows :- store.Walk(root.value);
      }
      r := RunStaged(staged, rows, reprobe);
    }

    /** The loop that finds the staged schemas. */
    method FindStaged(order: seq<string>) returns (staged: seq<Staged>)
      ensures staged == StagedSchemas(index, order)
    {
      staged := [];
      var i := 0;
      assert order[0..] == order;
      while i < |order|
        invariant 0 <= i <= |order| && staged + StagedSchemas(index, order[i..]) == StagedSchemas(index, order)
      {
        var k := order[i];
        assert order[i..][0] == k && order[i..][1..] == order[i + 1..];
        if k in index && index[k].StageUpsert? && SchemaPath(k) {
          staged := staged + [Staged(FileTypeOf(k), index[k].hash)];
        }
        i := i + 1;
      }
    }

    /** The loop of `run_auto_reprobe` over the staged schemas. */
    method RunStaged(staged: seq<Staged>, rows: seq<Row>, reprobe: Reprobe) returns (r: Result<seq<Row>>)
      requires Valid() && reprobe.Pass?
      modifies store
      ensures Valid() && Grows(old(store.objects), store.objects)
      ensures RowsStored(old(store.objects), rows) ==>
                var pass := RunSchemas(staged, rows, reprobe);
                r == Ended(pass) && store.objects == StoreAll(old(store.objects), RowHashes(pass.rows))
    {
      var out: seq<Row>, i := [], 0;
      ghost var s, ready := store.objects, RowsStored(store.objects, rows);
      assert ready ==> Passing(s, staged, 0, rows, reprobe, out, s);
      while i < |staged|
        invariant 0 <= i <= |staged| && Valid() && Grows(s, store.objects)
        invariant ready ==> Passing(s, staged, i, rows, reprobe, out, store.objects)
      {
        if reprobe.changed(staged[i]).Err? {
          if ready {
            PassStops(s, staged, i, rows, reprobe, out, store.objects);
          }
          return Err(reprobe.changed(staged[i]).error);
        }
        if reprobe.changed(staged[i]).value {
          ghost var before, done := store.objects, out;
          out := RebuildAll(rows, staged[i], reprobe, out, s);
          if ready {
            PassGoes(s, staged, i, rows, reprobe, done, before, out, store.objects);
          }
        } else if ready {
          PassSkips(s, staged, i, rows, reprobe, out, store.objects);
        }
        i := i + 1;
      }
      assert staged[..i] == staged;
      r := Ok(out);
    }

    /** The loop of `run_auto_reprobe` over the manifests of HEAD, for one schema. */
    method RebuildAll(rows: seq<Row>, x: Staged, reprobe: Reprobe, out: seq<Row>, ghost s: Objects)
      returns (all: seq<Row>)
      requires Valid() && reprobe.Pass?
      modifies store
      ensures Valid() && Grows(old(store.objects), store.objects)
      ensures RowsStored(old(store.objects), rows) && Holding(s, out, old(store.objects)) ==>
                all == out + RebuildRows(rows, x, reprobe) && Holding(s, all, store.objects)
    {
      all := out;
      ghost var ready := RowsStored(store.objects, rows) && Holding(s, out, store.objects);
      assert ready ==> Rebuilding(s, out, rows, 0, x, reprobe, all, store.objects) by {
        assert rows[..0] == [] && out + [] == out;
      }
      for i := 0 to |rows|
        invariant Valid() && Grows(old(store.objects), store.objects)
        invariant ready ==> Rebuilding(s, out, rows, i, x, reprobe, all, store.objects)
      {
        ghost var before := store.objects;
        var new_row := RebuildOne(rows[i], x, reprobe);
        if ready {
          assert rows[i] in rows && RowStored(old(store.objects), rows[i]);
          RebuildingMore(s, out, rows, i, x, reprobe, all, before, new_row, store.objects);
        }
        all := all + new_row;
      }
      assert rows[..|rows|] == rows;
    }

    /**
     One manifest: skipped when the schema does not concern it, when it or its source cannot be
     read, or when rebuilding fails.
     */
    method RebuildOne(row: Row, x: Staged, reprobe: Reprobe) returns (out: seq<Row>)
      requires Valid() && reprobe.Pass?
      modifies store
      ensures Valid() && Grows(old(store.objects), store.objects)
      ensures RowStored(old(store.objects), row) ==> out == RebuildRow(row, x, reprobe)
      ensures store.objects == StoreAll(old(store.objects), RowHashes(out))
    {
      var h := row.entry.hash;
      if row.entry.mode != Manifest || h !in store.objects || !store.objects[h].ManifestObj? {
        return [];
      }
      var o := store.objects[h];
      if o.details.fileType != x.fileType || o.details.schema == x.hash {
        return [];
      }
      if o.source !in store.objects || !store.objects[o.source].BlobObj? {
        return [];
      }
      var b := reprobe.rebuild(row.path, o, x);
      if b.None? {
        return [];
      }
      var new_hash := store.Put(RebuiltManifest(o, x, b.value));
      out := [Row(row.path, Entry(Manifest, new_hash))];
      assert RowHashes(out) == [new_hash];
    }

    /** The loop of `commit_with_keys` over the changes. */
    method BuildTree(base: Option<Hash>, changes: Index, order: seq<string>) returns (r: Result<Option<Hash>>)
      requires Valid() && forall k | k in order :: k in changes
      modifies store
      ensures Valid() && Grows(old(store.objects), store.objects)
      ensures old(ReadyFor(store.objects, base, changes)) ==>
                var run := Run(AsEntry(base), EditsOf(changes, order));
                && store.objects == StoreAll(old(store.objects), RunHashes(AsEntry(base), EditsOf(changes, order)))
                && (r.Ok? <==> run.Ok?)
                && (r.Ok? ==> AsEntry(r.value) == run.value)
                && (r.Err? ==> r.error == run.error)
    {
      var root, i := base, 0;
      ghost var edits, s := EditsOf(changes, order), store.objects;
      ghost var ready := ReadyFor(s, base, changes);
      assert ready ==> Built(s, AsEntry(base), edits, 0, AsEntry(base), s) by {
        assert edits[..0] == [];
      }
      while i < |order|
        invariant 0 <= i <= |order| && Valid() && Grows(s, store.objects)
        invariant ready ==> Built(s, AsEntry(base), edits, i, AsEntry(root), store.objects)
      {
        root :- BuildStep(root, changes, order, i, s, base);
        i := i + 1;
      }
      assert edits[..i] == edits;
      r := Ok(root);
    }

    /** One round of that loop, within the run of all the edits. */
    method BuildStep(root: Option<Hash>, changes: Index, order: seq<string>, i: nat, ghost s: Objects,
                     ghost base: Option<Hash>)
      returns (r: Result<Option<Hash>>)
      requires Valid() && i < |order| && forall k | k in order :: k in changes
      modifies store
      ensures Valid() && Grows(old(store.objects), store.objects)
      ensures ReadyFor(s, base, changes)
              && Built(s, AsEntry(base), EditsOf(changes, order), i, AsEntry(root), old(store.objects)) ==>
                if r.Ok? then Built(s, AsEntry(base), EditsOf(changes, order), i + 1, AsEntry(r.value), store.objects)
                else Failed(s, AsEntry(base), EditsOf(changes, order), r.error, store.objects)
    {
      assert order[i] in order;
      ghost var ready := ReadyFor(s, base, changes)
          && Built(s, AsEntry(base), EditsOf(changes, order), i, AsEntry(root), store.objects);
      if ready {
        ReadyStep(s, base, root, changes, order, i, store.objects);
      }
      r := ApplyChange(root, order[i], changes[order[i]]);
      if ready {
        StepDone(s, AsEntry(base), EditsOf(changes, order), i, AsEntry(root), store.objects);
      }
    }

    /** Carries out one change. */
    method ApplyChange(root: Option<Hash>, path: string, change: Change) returns (r: Result<Option<Hash>>)
      requires Valid()
      modifies store
      ensures Valid() && Grows(old(store.objects), store.objects)
      ensures old(ReadableRoot(store.objects, root) && StagedOk(store.objects, path, change)) ==>
                var done := Apply(AsEntry(root), EditOf(path, change));
                && store.objects == StoreAll(old(store.objects), ApplyHashes(AsEntry(root), EditOf(path, change)))
                && (r.Ok? <==> done.Ok?)
                && (r.Ok? ==> AsEntry(r.value) == done.value)
                && (r.Err? ==> r.error == done.error)
    {
      match change
      case StageUpsert(h) =>
        if h !in store.objects {
          return Err(NotFound);
        }
        var mode :- StoredMode(store.objects[h]);
        var parts :- Split(path);
        if parts == [] {
          return Err(InvalidPath);
        }
        r := PutAt(root, parts, Entry(mode, h));
      case StageDelete =>
        if root.None? {
          return Ok(None);
        }
        var parts :- Split(path);
        if parts == [] {
          return Err(InvalidPath);
        }
        r := DeleteAt(root.value, parts);
    }

    /** `put_at`. */
    method PutAt(root: Option<Hash>, p: Path, x: Entry) returns (r: Result<Option<Hash>>)
      requires Valid() && p != []
      modifies store
      ensures Valid() && Grows(old(store.objects), store.objects)
      ensures old(ReadableRoot(store.objects, root)) ==>
                && store.objects == StoreAll(old(store.objects), ApplyHashes(AsEntry(root), Upsert(p, x)))
                && (r.Ok? <==> Apply(AsEntry(root), Upsert(p, x)).Ok?)
                && (r.Ok? ==> AsEntry(r.value) == Apply(AsEntry(root), Upsert(p, x)).value)
                && (r.Err? ==> r.error == Apply(AsEntry(root), Upsert(p, x)).error)
    {
      assert RootEntry(root) == if AsEntry(root).Some? then AsEntry(root).value else EMPTY;
      var h :- store.PutInner(root, p, x);
      r := Ok(Some(h));
    }

    /** `delete_at`. */
    method DeleteAt(root: Hash, p: Path) returns (r: Result<Option<Hash>>)
      requires Valid() && p != []
      modifies store
      ensures Valid() && Grows(old(store.objects), store.objects)
      ensures old(ReadableRoot(store.objects, Some(root))) ==>
                && store.objects == StoreAll(old(store.objects), ApplyHashes(Some(Entry(Tree, root)), Edit.Remove(p)))
                && r.Ok? && Ok(AsEntry(r.value)) == Apply(Some(Entry(Tree, root)), Edit.Remove(p))
    {
      r := store.DeleteInner(root, p);
    }

    /** `commit`; `order` is the iteration order of the changes and `text` the author and message. */
    method Commit(order: seq<string>, text: string, reprobe: Reprobe) returns (r: Result<Hash>)
      requires Valid() && Iterates(order, Merged(Now(), reprobe)) && Visits(Now(), reprobe)
      modifies this, store
      ensures Valid() && Grows(old(store.objects), store.objects)
      ensures r.Err? ==> refs == old(refs) && head == old(head) && index == old(index)
      ensures old(Inv(Now())) && r.Err? ==>
                var run := CommitRun(old(Now()), order, reprobe);
                r.error == if old(index) == map[] || run.Ok? then Conflict else run.error
      ensures old(Inv(Now())) ==> old(HeadRoot(Now())).Ok? && Now() == CommitNext(old(Now()), order, text, reprobe)
      ensures old(Inv(Now())) ==>
                var run := CommitRun(old(Now()), order, reprobe);
                && (r.Ok? <==> old(index) != map[] && run.Ok? && run.value.Some?)
                && (r.Ok? ==>
                      && r.value in store.objects && store.objects[r.value].CommitObj?
                      && store.objects[r.value].tree == run.value.value.hash)
      ensures r.Ok? ==> Committed(old(refs), old(head), r.value, text)
    {
      if Inv(Now()) {
        HeadRootGood(Now());
      }
      if index == map[] {
        return Err(Conflict);
      }
      var root :- CommitTree(order, reprobe);
      if root.None? {
        return Err(Conflict);
      }
      var h := Finish(root.value, text);
      r := Ok(h);
    }

    /**
     A commit with this text is stored. Its parent is the commit that HEAD was at, if any;
     only HEAD's branch, or a detached HEAD, has moved to it; and nothing is staged any more.
     */
    ghost predicate Committed(refs0: RefMap, head0: Head, h: Hash, text: string)
      reads this, store
    {
      && h in store.objects && store.objects[h].CommitObj? && store.objects[h].text == text && index == map[]
      && (head0.Detached? ==>
            store.objects[h].parents == [head0.hash] && head == Detached(h) && refs == refs0)
      && (head0.OnBranch? ==>
            && store.objects[h].parents == (if head0.ref in refs0 then [refs0[head0.ref]] else [])
            && head == head0 && refs == refs0[head0.ref := h])
    }

    /** The tree of the next commit: rebuilds manifests, then carries out the changes on HEAD's tree. */
    method CommitTree(order: seq<string>, reprobe: Reprobe) returns (r: Result<Option<Hash>>)
      requires Valid() && Iterates(order, Merged(Now(), reprobe))
      modifies store
      ensures Valid() && Grows(old(store.objects), store.objects)
      ensures old(Inv(Now())) ==>
                && old(HeadRoot(Now())).Ok?
                && store.objects == StoreAll(old(store.objects), CommitWrites(old(Now()), order, reprobe))
                && (r.Ok? <==> CommitRun(old(Now()), order, reprobe).Ok?)
                && (r.Ok? ==> AsEntry(r.value) == CommitRun(old(Now()), order, reprobe).value)
                && (r.Err? ==> r.error == CommitRun(old(Now()), order, reprobe).error)
    {
      ghost var st := Now();
      if Inv(st) {
        HeadRootGood(st);
        CommitReady(st, reprobe);
      }
      assert RowHashes(Rebuilt(st, reprobe)) + [] == RowHashes(Rebuilt(st, reprobe));
      var rows :- RunAutoReprobe(reprobe);
      var base :- HeadRoot(Now());
      var changes := Merge(index, rows);
      // The order is one of the changes; only on a corrupt store can the rows differ from the rebuilt ones.
      if exists k | k in order :: k !in changes {
        return Err(Internal);
      }
      r := BuildTree(base, changes, order);
      if Inv(st) {
        StoreAllAppend(st.objects, RowHashes(rows), RunHashes(AsEntry(base), EditsOf(changes, order)));
      }
    }

    /** The end of `commit`: stores the commit, moves HEAD's branch to it and clears the index. */
    method Finish(root: Hash, text: string) returns (h: Hash)
      requires Valid()
      modifies this, store
      ensures Valid() && h == CommitHash(old(Now()), root, text) && index == map[]
      ensures Committed(old(refs), old(head), h, text) && store.objects[h].tree == root
      ensures Grows(old(store.objects), store.objects)
      ensures Now() == Advance(old(Now()), StoreAll(old(store.objects), [h]), h)
    {
      h := store.Put(CommitObj(root, Parents(Now()), text));
      match head {
        case OnBranch(name) => refs := refs[name := h];
        case Detached(_) => head := Detached(h);
      }
      index := map[];
    }

    /** `branch`. */
    method Branch(name: string, start: Option<RefExpr>) returns (r: Result<()>)
      requires Valid()
      modifies this
      ensures Valid() && Now() == Next(old(Now()), Event.Branch(name, start))
      ensures r.Ok? <==> BranchRef(name) !in old(refs) && Start(old(Now()), start).Ok?
      ensures head == old(head) && index == old(index) && (r.Err? ==> refs == old(refs))
      ensures start.Some? && Resolve(store.objects, old(refs), head, start.value).Err? ==>
                r == Err(Resolve(store.objects, old(refs), head, start.value).error)
      ensures start.None? && ResolveHead(old(refs), head).None? ==> r == Err(Conflict)
      ensures r.Err? && Start(old(Now()), start).Ok? ==> r == Err(Conflict) && "refs/heads/" + name in old(refs)
      ensures r.Ok? ==> refs == old(refs)["refs/heads/" + name := Start(old(Now()), start).value]
      ensures r.Ok? && start.None? && head.OnBranch? ==>
              head.ref in old(refs) && refs["refs/heads/" + name] == old(refs)[head.ref]
      ensures r.Ok? && start.None? && head.Detached? ==> refs["refs/heads/" + name] == head.hash
      ensures old(Inv(Now())) && r.Ok? ==> (Inv(Now()) <==> IsCommit(store.objects, Start(old(Now()), start).value))
    {
      var h: Hash;
      match start {
        case Some(x) =>
          h :- ResolveRef(x);
        case None =>
          var tip := ResolveHead(refs, head);
          if tip.None? {
            return Err(Conflict);
          }
          h := tip.value;
      }
      if BranchRef(name) in refs {
        return Err(Conflict);
      }
      NewRef(Now(), BranchRef(name), h);
      refs := refs[BranchRef(name) := h];
      r := Ok(());
    }

    method ResolveRef(x: RefExpr) returns (r: Result<Hash>)
      ensures r == Resolve(store.objects, refs, head, x)
    {
      var start :- ResolveBase(refs, head, x.base);
      r := NthAncestor(store.objects, start, if x.back.Some? then x.back.value else 0);
    }

    /** `checkout`: a plain branch name attaches HEAD, everything else detaches it. */
    method Checkout(x: RefExpr) returns (r: Result<()>)
      requires Valid()
      modifies this
      ensures Valid() && Now() == Next(old(Now()), Event.Checkout(x))
      ensures r.Ok? <==> old(Attaches(Now(), x)) || Resolve(old(store.objects), old(refs), old(head), x).Ok?
      ensures refs == old(refs) && index == old(index) && (r.Err? ==> head == old(head))
      ensures r.Err? ==> r.error == Resolve(store.objects, refs, head, x).error
      ensures r.Ok? ==>
                if x.back.None? && x.base.Named? && '/' !in x.base.name && "refs/heads/" + x.base.name in refs
                then head == OnBranch("refs/heads/" + x.base.name)
                else head.Detached? && Resolve(store.objects, refs, old(head), x) == Ok(head.hash)
      ensures old(Inv(Now())) && r.Ok? ==> (Inv(Now()) <==> (head.Detached? ==> IsCommit(store.objects, head.hash)))
    {
      NewHead(Now(), Target(Now(), x));
      if Attaches(Now(), x) {
        head := OnBranch(BranchRef(x.base.name));
        return Ok(());
      }
      var h :- ResolveRef(x);
      head := Detached(h);
      r := Ok(());
    }
  }

  // ---- The reprobe pass ----

  function Ended(pass: Passed): Result<seq<Row>> {
    if pass.result.Err? then Err(pass.result.error) else Ok(pass.rows)
  }

  /** The store `now` holds the rows besides what was in `s`. */
  ghost predicate Holding(s: Objects, rows: seq<Row>, now: Objects) {
    now == StoreAll(s, RowHashes(rows))
  }

  /** The first `i` rows have been rebuilt where the schema concerns them. */
  ghost predicate Rebuilding(s: Objects, out: seq<Row>, rows: seq<Row>, i: nat, x: Staged, p: Reprobe, all: seq<Row>,
                             now: Objects)
    requires i <= |rows| && p.Pass?
  {
    all == out + RebuildRows(rows[..i], x, p) && Holding(s, all, now)
  }

  lemma RebuildingMore(s: Objects, out: seq<Row>, rows: seq<Row>, i: nat, x: Staged, p: Reprobe, all: seq<Row>,
                       before: Objects, more: seq<Row>, now: Objects)
    requires i < |rows| && p.Pass? && Rebuilding(s, out, rows, i, x, p, all, before)
    requires more == RebuildRow(rows[i], x, p) && now == StoreAll(before, RowHashes(more))
    ensures Rebuilding(s, out, rows, i + 1, x, p, all + more, now)
  {
    assert rows[..i + 1][..i] == rows[..i];
    assert out + RebuildRows(rows[..i], x, p) + more == out + (RebuildRows(rows[..i], x, p) + more);
    HoldingMore(s, all, more, before, now);
  }

  lemma HoldingMore(s: Objects, rows: seq<Row>, more: seq<Row>, before: Objects, now: Objects)
    requires now == StoreAll(before, RowHashes(more))
    ensures Holding(s, rows, before) ==> Holding(s, rows + more, now)
  {
    assert RowHashes(rows + more) == RowHashes(rows) + RowHashes(more);
    StoreAllAppend(s, RowHashes(rows), RowHashes(more));
  }

  /** The first `i` schemas have given the manifests `out`, and the store `now`. */
  ghost predicate Passing(s: Objects, staged: seq<Staged>, i: nat, rows: seq<Row>, p: Reprobe, out: seq<Row>,
                          now: Objects)
    requires i <= |staged| && p.Pass?
  {
    RunSchemas(staged[..i], rows, p) == Passed(Ok(()), out) && now == StoreAll(s, RowHashes(out))
  }

  lemma PassGoes(s: Objects, staged: seq<Staged>, i: nat, rows: seq<Row>, p: Reprobe, out: seq<Row>, now: Objects,
                 all: seq<Row>, next: Objects)
    requires i < |staged| && p.Pass? && Passing(s, staged, i, rows, p, out, now) && p.changed(staged[i]) == Ok(true)
    requires all == out + RebuildRows(rows, staged[i], p) && next == StoreAll(s, RowHashes(all))
    ensures Passing(s, staged, i + 1, rows, p, all, next)
  {
    assert staged[..i + 1][..i] == staged[..i];
  }

  lemma PassSkips(s: Objects, staged: seq<Staged>, i: nat, rows: seq<Row>, p: Reprobe, out: seq<Row>, now: Objects)
    requires i < |staged| && p.Pass? && Passing(s, staged, i, rows, p, out, now) && p.changed(staged[i]) == Ok(false)
    ensures Passing(s, staged, i + 1, rows, p, out, now)
  {
    assert staged[..i + 1][..i] == staged[..i] && out + [] == out;
  }

  /** A schema that does not parse ends the pass with what was rebuilt before it. */
  lemma PassStops(s: Objects, staged: seq<Staged>, i: nat, rows: seq<Row>, p: Reprobe, out: seq<Row>, now: Objects)
    requires i < |staged| && p.Pass? && Passing(s, staged, i, rows, p, out, now) && p.changed(staged[i]).Err?
    ensures RunSchemas(staged, rows, p) == Passed(Err(p.changed(staged[i]).error), out)
  {
    assert staged[..i + 1][..i] == staged[..i];
    SameFailure(staged, rows, p, i + 1);
  }

  lemma {:induction false} SameFailure(staged: seq<Staged>, rows: seq<Row>, p: Reprobe, n: nat)
    requires p.Pass? && n <= |staged| && RunSchemas(staged[..n], rows, p).result.Err?
    ensures RunSchemas(staged, rows, p) == RunSchemas(staged[..n], rows, p)
    decreases |staged|
  {
    if n == |staged| {
      assert staged[..n] == staged;
    } else {
      var init := staged[..|staged| - 1];
      assert init[..n] == staged[..n];
      SameFailure(init, rows, p, n);
    }
  }

  // ---- Building the tree ----

  /** What `BuildTree` relies on: a sound store, a good root and changes that can be staged. */
  ghost predicate ReadyFor(s: Objects, base: Option<Hash>, changes: Index) {
    SoundStore(s) && IndexOk(s, changes) && GoodRoot(AsEntry(base)) && LinkedRoot(s, AsEntry(base))
  }

  lemma CommitReady(st: State, reprobe: Reprobe)
    requires Inv(st) && HeadRoot(st).Ok?
    ensures var s := StoreAll(st.objects, RowHashes(Rebuilt(st, reprobe)));
            && ReadyFor(s, HeadRoot(st).value, Merged(st, reprobe))
            && HeadRoot(st.(objects := s)) == HeadRoot(st)
  {
    MergedOk(st, reprobe);
    HeadRootGood(st);
  }

  /** The first `i` edits have given `root`, and the store `now`. */
  ghost predicate Built(s: Objects, base: Option<Entry>, edits: seq<Edit>, i: nat, root: Option<Entry>, now: Objects)
    requires i <= |edits|
  {
    Run(base, edits[..i]) == Ok(root) && now == StoreAll(s, RunHashes(base, edits[..i]))
  }

  /** The run fails, and has left what it wrote until then. */
  ghost predicate Failed(s: Objects, base: Option<Entry>, edits: seq<Edit>, e: Error, now: Objects) {
    Run(base, edits) == Err(e) && now == StoreAll(s, RunHashes(base, edits))
  }

  lemma ReadyStep(s: Objects, base: Option<Hash>, root: Option<Hash>, changes: Index, order: seq<string>, i: nat,
                  now: Objects)
    requires ReadyFor(s, base, changes) && (forall k | k in order :: k in changes) && i < |order|
    requires Built(s, AsEntry(base), EditsOf(changes, order), i, AsEntry(root), now)
    ensures ReadableRoot(now, root) && order[i] in changes && StagedOk(now, order[i], changes[order[i]])
  {
    var edits := EditsOf(changes, order);
    var hs := RunHashes(AsEntry(base), edits[..i]);
    EditsOfGood(s, changes, order);
    assert GoodEdits(edits[..i]) && forall d | d in edits[..i] :: d in edits;
    RunSound(s, AsEntry(base), edits[..i]);
    RunGood(AsEntry(base), edits[..i]);
    StoreAllGrows(s, hs);
    assert order[i] in order;
    IndexGrows(s, StoreAll(s, hs), changes);
    assert StagedOk(StoreAll(s, hs), order[i], changes[order[i]]);
    if root.Some? {
      SoundReadable(StoreAll(s, hs), Entry(Tree, root.value));
    }
  }

  /** What one more edit does to a run: to its result, to its writes, and to the whole run if it fails. */
  lemma StepDone(s: Objects, base: Option<Entry>, edits: seq<Edit>, i: nat, root: Option<Entry>, now: Objects)
    requires i < |edits| && Run(base, edits[..i]) == Ok(root)
    requires now == StoreAll(StoreAll(s, RunHashes(base, edits[..i])), ApplyHashes(root, edits[i]))
    ensures Apply(root, edits[i]).Ok? ==> Built(s, base, edits, i + 1, Apply(root, edits[i]).value, now)
    ensures Apply(root, edits[i]).Err? ==> Failed(s, base, edits, Apply(root, edits[i]).error, now)
  {
    var e := edits[..i + 1];
    assert e[..i] == edits[..i] && e[i] == edits[i];
    StoreAllAppend(s, RunHashes(base, edits[..i]), ApplyHashes(root, edits[i]));
    if Run(base, e).Err? {
      PrefixFails(base, edits, i + 1);
    }
  }

  /** A run fails when one of its steps does, and writes nothing after it. */
  lemma {:induction false} PrefixFails(base: Option<Entry>, edits: seq<Edit>, n: nat)
    requires n <= |edits| && Run(base, edits[..n]).Err?
    ensures Run(base, edits) == Run(base, edits[..n]) && RunHashes(base, edits) == RunHashes(base, edits[..n])
  {
    if n < |edits| {
      var init := edits[..|edits| - 1];
      assert init[..n] == edits[..n];
      PrefixFails(base, init, n);
      assert RunHashes(base, init) + [] == RunHashes(base, init);
    } else {
      assert edits[..n] == edits;
    }
  }

  // ---- Rows of HEAD ----

  /** The manifest of the row is stored, and so is its source. */
  ghost predicate RowStored(s: Objects, row: Row) {
    && Addressed(s)
    && row.entry.hash in s
    && (row.entry.hash.obj.ManifestObj? ==> row.entry.hash.obj.source in s)
  }

  ghost predicate RowsStored(s: Objects, rows: seq<Row>) {
    forall row | row in rows :: RowStored(s, row)
  }

  // ---- Chunks ----

  /** The first `i` bytes are stored, in the chunks `done`. */
  ghost predicate Chunking(s: Objects, now: Objects, bytes: seq<Byte>, size: nat, done: seq<ChunkEntry>, i: nat)
    requires size > 0 && i <= |bytes|
  {
    && done + ChunkList(bytes[i..], size) == ChunkList(bytes, size)
    && now == StoreAll(s, ChunkHashes(done))
    && ChunkBytes(now, done) == Some(bytes[..i])
  }

  lemma NoChunks(s: Objects, bytes: seq<Byte>, size: nat)
    requires size > 0
    ensures Chunking(s, s, bytes, size, [], 0)
  {
    assert bytes[0..] == bytes && [] + ChunkList(bytes, size) == ChunkList(bytes, size);
  }

  lemma AllChunks(s: Objects, now: Objects, bytes: seq<Byte>, size: nat, done: seq<ChunkEntry>)
    requires size > 0 && Chunking(s, now, bytes, size, done, |bytes|)
    ensures done == ChunkList(bytes, size) && ChunkBytes(now, done) == Some(bytes)
  {
    assert bytes[|bytes|..] == [] && done + [] == done && bytes[..|bytes|] == bytes;
  }

  lemma OneMoreChunk(s: Objects, before: Objects, now: Objects, bytes: seq<Byte>, size: nat, done: seq<ChunkEntry>,
                     i: nat, j: nat)
    requires size > 0 && i < |bytes| && j == (if i + size <= |bytes| then i + size else |bytes|)
    requires Chunking(s, before, bytes, size, done, i) && Addressed(now) && Grows(before, now)
    requires now == StoreAll(before, [BlobHash(bytes[i..j])]) && BlobHash(bytes[i..j]) in now
    ensures Chunking(s, now, bytes, size, done + [ChunkEntry(BlobHash(bytes[i..j]), j - i)], j)
  {
    var c := BlobHash(bytes[i..j]);
    var entry := ChunkEntry(c, j - i);
    NextChunk(bytes, size, i, j);
    assert done + ([entry] + ChunkList(bytes[j..], size)) == done + [entry] + ChunkList(bytes[j..], size);
    assert ChunkHashes(done + [entry]) == ChunkHashes(done) + [c];
    StoreAllAppend(s, ChunkHashes(done), [c]);
    MoreBytes(before, now, done, entry, bytes, i, j);
  }

  lemma NextChunk(bytes: seq<Byte>, size: nat, i: nat, j: nat)
    requires size > 0 && i < |bytes| && j == if i + size <= |bytes| then i + size else |bytes|
    ensures ChunkList(bytes[i..], size) == [ChunkEntry(BlobHash(bytes[i..j]), j - i)] + ChunkList(bytes[j..], size)
  {
    var rest := bytes[i..];
    assert rest[..j - i] == bytes[i..j] && rest[j - i..] == bytes[j..];
  }

  lemma MoreBytes(s: Objects, s': Objects, cs: seq<ChunkEntry>, c: ChunkEntry, bytes: seq<Byte>, i: nat, j: nat)
    requires Grows(s, s') && i <= j <= |bytes| && ChunkBytes(s, cs) == Some(bytes[..i])
    requires c.hash in s' && s'[c.hash] == BlobObj(Plain(bytes[i..j]))
    ensures ChunkBytes(s', cs + [c]) == Some(bytes[..j])
  {
    ChunkBytesGrows(s, s', cs);
    assert (cs + [c])[..|cs|] == cs && bytes[..j] == bytes[..i] + bytes[i..j];
  }

  /** The bytes a chunk list stands for. */
  ghost function ChunkBytes(s: Objects, cs: seq<ChunkEntry>): Option<seq<Byte>> {
    if cs == [] then Some([])
    else
      var n := |cs| - 1;
      var init, last := ChunkBytes(s, cs[..n]), cs[n].hash;
      if init.Some? && last in s && s[last].BlobObj? && s[last].payload.Plain?
      then Some(init.value + s[last].payload.bytes) else None
  }

  ghost predicate Holds(s: Objects, source: Hash, bytes: seq<Byte>) {
    && source in s
    && (s[source] == BlobObj(Plain(bytes)) || (s[source].ChunksObj? && ChunkBytes(s, s[source].chunks) == Some(bytes)))
  }

  lemma {:induction false} ChunkBytesGrows(s: Objects, s': Objects, cs: seq<ChunkEntry>)
    requires Grows(s, s') && ChunkBytes(s, cs).Some?
    ensures ChunkBytes(s', cs) == ChunkBytes(s, cs)
  {
    if cs != [] {
      ChunkBytesGrows(s, s', cs[..|cs| - 1]);
    }
  }

  lemma HoldsGrows(s: Objects, s': Objects, source: Hash, bytes: seq<Byte>)
    requires Grows(s, s') && Holds(s, source, bytes)
    ensures Holds(s', source, bytes)
  {
    if s[source].ChunksObj? {
      ChunkBytesGrows(s, s', s[source].chunks);
    }
  }

  /** Every row of HEAD's tree is stored. */
  lemma HeadRowsStored(st: State, root: Hash)
    requires Inv(st) && HeadRoot(st) == Ok(Some(root))
    ensures RowsStored(st.objects, Rows([], List(Entry(Tree, root))))
  {
    HeadRootGood(st);
    var e := Entry(Tree, root);
    forall row | row in Rows([], List(e)) ensures RowStored(st.objects, row) {
      var items := List(e);
      var i :| 0 <= i < |items| && Rows([], items)[i] == row;
      assert items[i] in items;
      ListExact(e, items[i]);
      Diff.SoundLeaf(st.objects, e, items[i].path);
      assert Sound(st.objects, st.objects[row.entry.hash]);
    }
  }
}
