/**
 What commits record (crates/omp-core/src/api.rs:1473-1494): each one in the store
 was written by a commit operation, and holds the tree that this operation built,
 the commit HEAD was at, and the author and message it was given.
 */
module Records {
  import opened Objects
  import opened Paths
  import opened Writes
  import opened StorePaths
  import opened Edits
  import opened Refs
  import opened States
  import opened Soundness
  import opened Runs

  ghost predicate NoCommit(hs: seq<Hash>) {
    forall h | h in hs :: !h.obj.CommitObj?
  }

  lemma {:induction false} PutNoCommit(e: Entry, p: Path, x: Entry)
    requires p != []
    ensures NoCommit(PutHashes(e, p, x))
    decreases |p|
  {
    var n, m := p[0], Children(e);
    if |p| > 1 && !(n in m && m[n].mode != Tree) {
      PutNoCommit(if n in m then m[n] else EMPTY, p[1..], x);
    }
  }

  lemma {:induction false} DeleteNoCommit(e: Entry, p: Path)
    requires p != []
    ensures NoCommit(DeleteHashes(e, p))
    decreases |p|
  {
    var n, m := p[0], Children(e);
    if |p| > 1 && n in m && m[n].mode == Tree {
      DeleteNoCommit(m[n], p[1..]);
    }
  }

  lemma {:induction false} RunNoCommit(base: Option<Entry>, edits: seq<Edit>)
    ensures NoCommit(RunHashes(base, edits))
  {
    if edits != [] {
      var init, d := edits[..|edits| - 1], edits[|edits| - 1];
      RunNoCommit(base, init);
      if Run(base, init).Ok? && d.path != [] {
        var r := Run(base, init).value;
        if d.Upsert? {
          PutNoCommit(if r.Some? then r.value else EMPTY, d.path, d.entry);
        } else if r.Some? {
          DeleteNoCommit(r.value, d.path);
        }
      }
    }
  }

  lemma {:induction false} RowsNoCommit(rows: seq<Row>, x: Staged, reprobe: Reprobe)
    requires reprobe.Pass?
    ensures forall row | row in RebuildRows(rows, x, reprobe) :: row.entry.hash.obj.ManifestObj?
    decreases |rows|
  {
    if rows != [] {
      RowsNoCommit(rows[..|rows| - 1], x, reprobe);
    }
  }

  lemma SourceNoCommit(bytes: seq<Byte>, size: nat)
    requires size > 0
    ensures NoCommit(SourceHashes(bytes, size))
  {
    ChunkListBlobs(bytes, size);
  }

  lemma CommitNoCommit(st: State, order: seq<string>, reprobe: Reprobe)
    requires HeadRoot(st).Ok? && Iterates(order, Merged(st, reprobe))
    ensures NoCommit(CommitWrites(st, order, reprobe))
  {
    RunNoCommit(AsEntry(HeadRoot(st).value), EditsOf(Merged(st, reprobe), order));
    if reprobe.Pass? {
      forall x, row | row in RebuildRows(HeadRows(st), x, reprobe) ensures row.entry.hash.obj.ManifestObj? {
        RowsNoCommit(HeadRows(st), x, reprobe);
      }
      RunSchemasAll(StagedSchemas(st.index, reprobe.order), HeadRows(st), reprobe,
                    (row: Row) => row.entry.hash.obj.ManifestObj?);
    }
    var rows := Rebuilt(st, reprobe);
    forall h | h in RowHashes(rows) ensures !h.obj.CommitObj? {
      var i :| 0 <= i < |rows| && RowHashes(rows)[i] == h;
      assert rows[i] in rows;
    }
  }

  // ---- One operation ----

  /** The commits that the next one is a child of: the one HEAD is at, if any. */
  ghost predicate AtHead(refs: RefMap, head: Head, parents: seq<Hash>) {
    match head
    case Detached(h) => parents == [h]
    case OnBranch(r) => parents == if r in refs then [refs[r]] else []
  }

  /** The commit operation, from state `st`, wrote this object. */
  ghost predicate Wrote(st: State, ev: Event, o: Object) {
    && ev.Commit? && HeadRoot(st).Ok? && Iterates(ev.order, Merged(st, ev.reprobe))
    && o.CommitObj?
    && o.text == ev.text
    && AtHead(st.refs, st.head, o.parents)
    && var run := CommitRun(st, ev.order, ev.reprobe);
       run.Ok? && run.value.Some? && o.tree == run.value.value.hash
  }

  lemma OldOrNew(s: Objects, hs: seq<Hash>, h: Hash)
    requires Addressed(s) && NoCommit(hs) && h in StoreAll(s, hs) && h.obj.CommitObj?
    ensures h in s
  {
    StoreAllExact(s, hs, h);
  }

  lemma AddFileNoCommit(st: State, path: string, bytes: seq<Byte>, size: nat, details: Option<Details>, h: Hash)
    requires Addressed(st.objects) && size > 0
    requires h in AddFileNext(st, path, bytes, size, details).objects && h.obj.CommitObj?
    ensures h in st.objects
  {
    var hs := SourceHashes(bytes, size);
    SourceNoCommit(bytes, size);
    if ValidPath(path) && details.Some? {
      OldOrNew(st.objects, hs + [Digest(ManifestObj(SourceOf(bytes, size), details.value))], h);
    } else if ValidPath(path) && |bytes| >= size {
      OldOrNew(st.objects, hs, h);
    }
  }

  /** Only a commit operation writes a commit, and this is what it writes. */
  lemma NextWrites(st: State, ev: Event, h: Hash)
    requires Inv(st) && Possible(st, ev) && h in Next(st, ev).objects && h !in st.objects && h.obj.CommitObj?
    ensures Wrote(st, ev, h.obj)
  {
    match ev
    case AddBlob(path, bytes, accepted) =>
      if ValidPath(path) && accepted {
        OldOrNew(st.objects, [States.BlobHash(bytes)], h);
      }
    case AddFile(path, bytes, size, details) => AddFileNoCommit(st, path, bytes, size, details, h);
    case Commit(order, text, reprobe) => CommitWrote(st, order, text, reprobe, h);
    case _ =>
  }

  lemma CommitWrote(st: State, order: seq<string>, text: string, reprobe: Reprobe, h: Hash)
    requires Inv(st) && HeadRoot(st).Ok? && Iterates(order, Merged(st, reprobe))
    requires h in CommitNext(st, order, text, reprobe).objects && h !in st.objects && h.obj.CommitObj?
    ensures Wrote(st, Commit(order, text, reprobe), h.obj)
  {
    CommitNoCommit(st, order, reprobe);
    CommitWritesSound(st, order, reprobe);
    var s, run := StoreAll(st.objects, CommitWrites(st, order, reprobe)), CommitRun(st, order, reprobe);
    if h in s {
      OldOrNew(st.objects, CommitWrites(st, order, reprobe), h);
    }
    if run.Ok? && run.value.Some? {
      StoreAllExact(s, [CommitHash(st, run.value.value.hash, text)], h);
    }
  }

  /** A commit operation that succeeds stores its commit, leaves HEAD at it and clears the index. */
  lemma CommitMakes(st: State, ev: Event)
    requires Inv(st) && Possible(st, ev) && ev.Commit? && st.index != map[]
    requires CommitRun(st, ev.order, ev.reprobe).Ok? && CommitRun(st, ev.order, ev.reprobe).value.Some?
    ensures var b := Next(st, ev);
            exists h :: h in b.objects && Wrote(st, ev, b.objects[h]) && MovesHead(st, b, h) && b.index == map[]
  {
    CommitWritesSound(st, ev.order, ev.reprobe);
    var s := StoreAll(st.objects, CommitWrites(st, ev.order, ev.reprobe));
    var h := CommitHash(st, CommitRun(st, ev.order, ev.reprobe).value.value.hash, ev.text);
    StoreAllExact(s, [h], h);
    assert Wrote(st, ev, h.obj) && MovesHead(st, Next(st, ev), h);
  }

  /** Only HEAD's branch, or a detached HEAD itself, now is at `h`. */
  ghost predicate MovesHead(a: State, b: State, h: Hash) {
    match a.head
    case Detached(_) => b.head == Detached(h) && b.refs == a.refs
    case OnBranch(r) =>
      && b.head == a.head && r in b.refs && b.refs[r] == h
      && (forall k | k != r :: k in b.refs <==> k in a.refs)
      && (forall k | k in a.refs && k != r :: b.refs[k] == a.refs[k])
  }

  // ---- Whole runs ----

  /**
   In every run, every commit in the store that was not there at the start was written by
   a commit operation of the run, and holds what that operation was given and built.
   */
  lemma {:induction false} CommitsRecorded(st: State, events: seq<Event>, j: nat, h: Hash)
    requires Legal(st, events) && Inv(st) && j <= |events|
    requires h in Runs.Now(st, events, j).objects && h !in st.objects && h.obj.CommitObj?
    ensures exists i :: 0 <= i < j && Wrote(Runs.Now(st, events, i), events[i], Runs.Now(st, events, j).objects[h])
    decreases j
  {
    assert events[..0] == [];
    if j > 0 {
      InvThroughout(st, events, j - 1);
      InvThroughout(st, events, j);
      NowStep(st, events, j - 1);
      var before := Runs.Now(st, events, j - 1);
      if h in before.objects {
        CommitsRecorded(st, events, j - 1, h);
      } else {
        NextWrites(before, events[j - 1], h);
      }
    }
  }
}
