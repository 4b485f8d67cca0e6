/**
 Every operation of the repository keeps it sound: nothing ever points to a
 missing or mistyped object.
 */
module Soundness {
  import opened Objects
  import opened Paths
  import opened Walk
  import opened Writes
  import opened StorePaths
  import opened Edits
  import opened Refs
  import opened States
  import Diff

  // ---- Writing keeps a store sound ----

  ghost predicate Linked(s: Objects, e: Entry) {
    e.hash in s && StoredMode(e.hash.obj) == Ok(e.mode)
  }

  lemma StoreAllGrows(s: Objects, hs: seq<Hash>)
    requires Addressed(s)
    ensures Addressed(StoreAll(s, hs)) && Grows(s, StoreAll(s, hs))
    ensures forall h | h in hs :: h in StoreAll(s, hs)
  {
    StoreAllExact(s, hs, Digest(TreeObj(map[])));
    forall h ensures h in StoreAll(s, hs) <==> h in s || h in hs {
      StoreAllExact(s, hs, h);
    }
    forall h | h in s ensures StoreAll(s, hs)[h] == s[h] {
      StoreAllExact(s, hs, h);
    }
  }

  lemma SoundStep(s: Objects, hs: seq<Hash>, h: Hash)
    requires SoundStore(StoreAll(s, hs)) && Sound(StoreAll(s, hs), h.obj)
    ensures SoundStore(StoreAll(s, hs + [h]))
  {
    StoreAllAppend(s, hs, [h]);
    StoreOne(StoreAll(s, hs), h);
    SoundPut(StoreAll(s, hs), h.obj);
    assert h == Digest(h.obj);
  }

  lemma TreeSound(s: Objects, s': Objects, m: map<string, Entry>, n: string, y: Entry)
    requires Sound(s, TreeObj(m)) && Grows(s, s') && Linked(s', y)
    ensures Sound(s', TreeObj(m[n := y]))
  {
  }

  lemma TreeSoundWithout(s: Objects, s': Objects, m: map<string, Entry>, n: string)
    requires Sound(s, TreeObj(m)) && Grows(s, s')
    ensures Sound(s', TreeObj(m - {n}))
  {
  }

  /** A stored directory, or one that does not exist yet. */
  ghost predicate Dir(s: Objects, e: Entry) {
    e.mode == Tree && (e == EMPTY || (e.hash in s && e.hash.obj.TreeObj?))
  }

  lemma DirSound(s: Objects, e: Entry)
    requires SoundStore(s) && Dir(s, e)
    ensures Sound(s, TreeObj(Children(e)))
  {
    if e != EMPTY {
      assert Sound(s, s[e.hash]);
    }
  }

  lemma ChildDir(s: Objects, e: Entry, n: string)
    requires SoundStore(s) && Dir(s, e) && (n in Children(e) ==> Children(e)[n].mode == Tree)
    ensures Dir(s, if n in Children(e) then Children(e)[n] else EMPTY)
  {
    DirSound(s, e);
  }

  lemma {:induction false} PutSound(s: Objects, e: Entry, p: Path, x: Entry)
    requires SoundStore(s) && p != [] && Dir(s, e) && Linked(s, x)
    ensures SoundStore(StoreAll(s, PutHashes(e, p, x)))
    ensures Put(e, p, x).Ok? ==> Linked(StoreAll(s, PutHashes(e, p, x)), Put(e, p, x).value)
    decreases |p|
  {
    var n, m := p[0], Children(e);
    DirSound(s, e);
    if |p| == 1 {
      StoreAllGrows(s, []);
      if ValidName(n) {
        TreeSound(s, s, m, n, x);
        SoundStep(s, [], TreeHash(m[n := x]));
        StoreAllGrows(s, [TreeHash(m[n := x])]);
        assert [] + [TreeHash(m[n := x])] == [TreeHash(m[n := x])];
      }
    } else if !(n in m && m[n].mode != Tree) {
      var child := if n in m then m[n] else EMPTY;
      ChildDir(s, e, n);
      PutSound(s, child, p[1..], x);
      var below, r := PutHashes(child, p[1..], x), Put(child, p[1..], x);
      if r.Ok? && ValidName(n) {
        StoreAllGrows(s, below);
        TreeSound(s, StoreAll(s, below), m, n, r.value);
        SoundStep(s, below, TreeHash(m[n := r.value]));
        StoreAllGrows(s, below + [TreeHash(m[n := r.value])]);
      }
    }
  }

  lemma {:induction false} DeleteSound(s: Objects, e: Entry, p: Path)
    requires SoundStore(s) && p != [] && Dir(s, e) && e.hash in s
    ensures SoundStore(StoreAll(s, DeleteHashes(e, p)))
    ensures Delete(e, p).Some? ==> Linked(StoreAll(s, DeleteHashes(e, p)), Delete(e, p).value)
    decreases |p|
  {
    var n, m := p[0], Children(e);
    DirSound(s, e);
    if |p| == 1 {
      TreeSoundWithout(s, s, m, n);
      LastTree(s, [], m - {n});
      assert [] + NonEmptyTree(m - {n}) == NonEmptyTree(m - {n});
    } else if n in m && m[n].mode == Tree {
      ChildDir(s, e, n);
      DeleteSound(s, m[n], p[1..]);
      var below, r := DeleteHashes(m[n], p[1..]), Delete(m[n], p[1..]);
      StoreAllGrows(s, below);
      if r.Some? {
        TreeSound(s, StoreAll(s, below), m, n, r.value);
        LastTree(s, below, m[n := r.value]);
      } else {
        TreeSoundWithout(s, StoreAll(s, below), m, n);
        LastTree(s, below, m - {n});
      }
    }
  }

  lemma LastTree(s: Objects, below: seq<Hash>, m: map<string, Entry>)
    requires Addressed(s) && SoundStore(StoreAll(s, below)) && Sound(StoreAll(s, below), TreeObj(m))
    ensures SoundStore(StoreAll(s, below + NonEmptyTree(m)))
    ensures m != map[] ==> Linked(StoreAll(s, below + NonEmptyTree(m)), Node(m))
  {
    if m == map[] {
      assert below + NonEmptyTree(m) == below;
    } else {
      SoundStep(s, below, TreeHash(m));
      StoreAllGrows(s, below + [TreeHash(m)]);
    }
  }

  ghost predicate LinkedRoot(s: Objects, r: Option<Entry>) {
    r.Some? ==> Linked(s, r.value)
  }

  ghost predicate LinkedEdits(s: Objects, edits: seq<Edit>) {
    forall d | d in edits && d.Upsert? :: Linked(s, d.entry)
  }

  lemma ApplySound(s: Objects, root: Option<Entry>, d: Edit)
    requires SoundStore(s) && GoodRoot(root) && LinkedRoot(s, root) && (d.Upsert? ==> Linked(s, d.entry))
    ensures SoundStore(StoreAll(s, ApplyHashes(root, d)))
    ensures Apply(root, d).Ok? ==> LinkedRoot(StoreAll(s, ApplyHashes(root, d)), Apply(root, d).value)
  {
    if d.path != [] {
      if d.Upsert? {
        PutSound(s, if root.Some? then root.value else EMPTY, d.path, d.entry);
      } else if root.Some? {
        DeleteSound(s, root.value, d.path);
      }
    }
  }

  /** Whatever edits a commit carries out, and wherever they fail, the store stays sound. */
  lemma {:induction false} RunSound(s: Objects, base: Option<Entry>, edits: seq<Edit>)
    requires SoundStore(s) && GoodRoot(base) && LinkedRoot(s, base) && GoodEdits(edits) && LinkedEdits(s, edits)
    ensures SoundStore(StoreAll(s, RunHashes(base, edits)))
    ensures Run(base, edits).Ok? ==> LinkedRoot(StoreAll(s, RunHashes(base, edits)), Run(base, edits).value)
  {
    if edits != [] {
      var n := |edits| - 1;
      var init, last := edits[..n], edits[n];
      assert edits == init + [last] && last in edits;
      RunSound(s, base, init);
      if Run(base, init).Ok? {
        var r, done := Run(base, init).value, RunHashes(base, init);
        RunGood(base, init);
        StoreAllGrows(s, done);
        ApplySound(StoreAll(s, done), r, last);
        StoreAllAppend(s, done, ApplyHashes(r, last));
      } else {
        assert RunHashes(base, edits) == RunHashes(base, init);
      }
    }
  }

  // ---- The operations keep the repository sound ----

  lemma IndexGrows(s: Objects, s': Objects, index: Index)
    requires IndexOk(s, index) && Grows(s, s')
    ensures IndexOk(s', index)
  {
    forall k | k in index ensures StagedOk(s', k, index[k]) {
      assert StagedOk(s, k, index[k]);
    }
  }

  lemma IndexAdd(s: Objects, index: Index, path: string, c: Change)
    requires IndexOk(s, index) && StagedOk(s, path, c)
    ensures IndexOk(s, index[path := c])
  {
    var next := index[path := c];
    forall k | k in next ensures StagedOk(s, k, next[k]) {
      if k != path {
        assert StagedOk(s, k, index[k]);
      }
    }
  }

  lemma GrowKeeps(st: State, s: Objects)
    requires Inv(st) && Grows(st.objects, s) && SoundStore(s)
    ensures Inv(st.(objects := s)) && Moves(st, st.(objects := s))
  {
    IndexGrows(st.objects, s, st.index);
  }

  lemma StageKeeps(st: State, hs: seq<Hash>, path: string, h: Hash)
    requires Inv(st) && SoundStore(StoreAll(st.objects, hs)) && h in hs && Stageable(h.obj)
    requires ValidPath(path) && Printables(Split(path).value)
    ensures Inv(st.(objects := StoreAll(st.objects, hs), index := st.index[path := StageUpsert(h)]))
  {
    StoreAllGrows(st.objects, hs);
    GrowKeeps(st, StoreAll(st.objects, hs));
    ValidPathNonEmpty(path);
    IndexAdd(StoreAll(st.objects, hs), st.index, path, StageUpsert(h));
  }

  lemma {:induction false} ChunksSound(s: Objects, cs: seq<ChunkEntry>)
    requires SoundStore(s) && forall i | 0 <= i < |cs| :: cs[i].hash.obj.BlobObj?
    ensures SoundStore(StoreAll(s, ChunkHashes(cs)))
  {
    if cs != [] {
      var n := |cs| - 1;
      ChunksSound(s, cs[..n]);
      assert ChunkHashes(cs) == ChunkHashes(cs[..n]) + [cs[n].hash];
      SoundStep(s, ChunkHashes(cs[..n]), cs[n].hash);
    }
  }

  lemma {:induction false} ChunkListBlobs(bytes: seq<Byte>, size: nat)
    requires size > 0
    ensures forall i | 0 <= i < |ChunkList(bytes, size)| :: ChunkList(bytes, size)[i].hash.obj.BlobObj?
    decreases |bytes|
  {
    if bytes != [] {
      ChunkListBlobs(bytes[if size <= |bytes| then size else |bytes|..], size);
    }
  }

  lemma SourceSound(s: Objects, bytes: seq<Byte>, size: nat)
    requires SoundStore(s) && size > 0
    ensures SoundStore(StoreAll(s, SourceHashes(bytes, size)))
    ensures SourceOf(bytes, size) in StoreAll(s, SourceHashes(bytes, size))
  {
    var before := if |bytes| >= size then ChunkHashes(ChunkList(bytes, size)) else [];
    var cs := ChunkList(bytes, size);
    if |bytes| >= size {
      ChunkListBlobs(bytes, size);
      ChunksSound(s, cs);
      StoreAllGrows(s, before);
      assert forall i | 0 <= i < |cs| :: ChunkHashes(cs)[i] in before;
      assert forall i | 0 <= i < |cs| :: cs[i].hash in StoreAll(s, before);
      assert Sound(StoreAll(s, before), ChunksObj(cs));
    }
    SoundStep(s, before, SourceOf(bytes, size));
    StoreAllGrows(s, SourceHashes(bytes, size));
  }

  lemma AddFileKeeps(st: State, path: string, bytes: seq<Byte>, size: nat, details: Option<Details>)
    requires Inv(st) && size > 0 && (ValidPath(path) ==> Printables(Split(path).value))
    ensures Inv(AddFileNext(st, path, bytes, size, details)) && Moves(st, AddFileNext(st, path, bytes, size, details))
  {
    var hs := SourceHashes(bytes, size);
    SourceSound(st.objects, bytes, size);
    StoreAllGrows(st.objects, hs);
    GrowKeeps(st, StoreAll(st.objects, hs));
    if ValidPath(path) && details.Some? {
      var h := Digest(ManifestObj(SourceOf(bytes, size), details.value));
      SoundStep(st.objects, hs, h);
      StoreAllGrows(st.objects, hs + [h]);
      StageKeeps(st, hs + [h], path, h);
    }
  }

  lemma NewRef(st: State, name: string, h: Hash)
    requires name !in st.refs
    ensures Moves(st, st.(refs := st.refs[name := h]))
    ensures Inv(st) ==> (Inv(st.(refs := st.refs[name := h])) <==> IsCommit(st.objects, h))
  {
    var r := st.refs[name := h];
    assert r[name] == h;
    assert forall k | k in st.refs :: r[k] == st.refs[k];
  }

  lemma NewHead(st: State, head: Head)
    ensures Moves(st, st.(head := head))
    ensures Inv(st) ==> (Inv(st.(head := head)) <==> (head.Detached? ==> IsCommit(st.objects, head.hash)))
  {
  }

  lemma AdvanceKeeps(st: State, s: Objects, h: Hash)
    requires Grows(st.objects, s) && IsCommit(s, h) && s[h].parents == Parents(st)
    ensures Moves(st, Advance(st, s, h))
    ensures Inv(st) && SoundStore(s) ==> Inv(Advance(st, s, h))
  {
  }

  lemma HeadRootGood(st: State)
    requires Inv(st)
    ensures HeadRoot(st).Ok? && GoodRoot(AsEntry(HeadRoot(st).value))
            && LinkedRoot(st.objects, AsEntry(HeadRoot(st).value))
    ensures forall i | 0 <= i < |Parents(st)| :: IsCommit(st.objects, Parents(st)[i])
  {
    var tip := ResolveHead(st.refs, st.head);
    if tip.Some? {
      assert Sound(st.objects, st.objects[tip.value]);
    }
  }

  // ---- Commit, with what it rebuilds ----

  /** A row that can be staged as it is: a manifest at a printable path, with a stored source. */
  ghost predicate RowOk(s: Objects, row: Row) {
    && Split(row.path).Ok? && Split(row.path).value != [] && Printables(Split(row.path).value)
    && row.entry.hash.obj.ManifestObj? && row.entry.hash.obj.source in s && row.entry.hash.obj.source.obj.BlobObj?
  }

  lemma {:induction false} LeafPrintable(e: Entry, p: Path)
    requires Canonical(e) && Leaf(e, p).Some?
    ensures Printables(p) && Components(p)
    decreases |p|
  {
    if p != [] {
      LeafPrintable(Children(e)[p[0]], p[1..]);
      assert forall i | 0 < i < |p| :: p[i] == p[1..][i - 1];
    }
  }

  lemma RowOfHead(s: Objects, root: Entry, row: Row, x: Staged, reprobe: Reprobe, out: Row)
    requires SoundStore(s) && Linked(s, root) && Canonical(root) && root.mode == Tree && reprobe.Pass?
    requires row in Rows([], List(root)) && out in RebuildRow(row, x, reprobe)
    ensures RowOk(s, out) && out.path == row.path
  {
    var items := List(root);
    var i :| 0 <= i < |items| && Rows([], items)[i] == row;
    var p := items[i].path;
    assert [] + p == p && items[i] in items;
    ListExact(root, items[i]);
    LeafPrintable(root, p);
    SplitJoin(p);
    Diff.SoundLeaf(s, root, p);
    assert Sound(s, s[row.entry.hash]);
  }

  lemma {:induction false} RebuildRowsOk(s: Objects, root: Entry, rows: seq<Row>, x: Staged, reprobe: Reprobe)
    requires SoundStore(s) && Linked(s, root) && Canonical(root) && root.mode == Tree && reprobe.Pass?
    requires forall row | row in rows :: row in Rows([], List(root))
    ensures forall out | out in RebuildRows(rows, x, reprobe) :: RowOk(s, out)
    decreases |rows|
  {
    if rows != [] {
      var n := |rows| - 1;
      assert rows == rows[..n] + [rows[n]];
      RebuildRowsOk(s, root, rows[..n], x, reprobe);
      forall out | out in RebuildRow(rows[n], x, reprobe) ensures RowOk(s, out) {
        RowOfHead(s, root, rows[n], x, reprobe, out);
      }
    }
  }

  /** Whatever holds of the rows rebuilt for any one schema holds of the rows of a pass. */
  lemma {:induction false} RunSchemasAll(xs: seq<Staged>, rows: seq<Row>, reprobe: Reprobe, ok: Row -> bool)
    requires reprobe.Pass? && forall x, out | out in RebuildRows(rows, x, reprobe) :: ok(out)
    ensures forall out | out in RunSchemas(xs, rows, reprobe).rows :: ok(out)
    decreases |xs|
  {
    if xs != [] {
      RunSchemasAll(xs[..|xs| - 1], rows, reprobe, ok);
    }
  }

  lemma {:induction false} NoRows(xs: seq<Staged>, reprobe: Reprobe)
    requires reprobe.Pass?
    ensures RunSchemas(xs, [], reprobe).rows == []
    decreases |xs|
  {
    if xs != [] {
      NoRows(xs[..|xs| - 1], reprobe);
    }
  }

  lemma RebuiltOk(st: State, reprobe: Reprobe)
    requires Inv(st)
    ensures forall out | out in Rebuilt(st, reprobe) :: RowOk(st.objects, out)
  {
    HeadRootGood(st);
    var root := HeadRoot(st).value;
    if reprobe.Pass? {
      if root.Some? {
        var e := Entry(Tree, root.value);
        forall x, out | out in RebuildRows(Rows([], List(e)), x, reprobe) ensures RowOk(st.objects, out) {
          RebuildRowsOk(st.objects, e, Rows([], List(e)), x, reprobe);
        }
        RunSchemasAll(StagedSchemas(st.index, reprobe.order), HeadRows(st), reprobe, out => RowOk(st.objects, out));
      } else {
        NoRows(StagedSchemas(st.index, reprobe.order), reprobe);
      }
    }
  }

  lemma {:induction false} ManifestsSound(s: Objects, rows: seq<Row>)
    requires SoundStore(s) && forall row | row in rows :: RowOk(s, row)
    ensures SoundStore(StoreAll(s, RowHashes(rows)))
  {
    if rows != [] {
      var n := |rows| - 1;
      assert rows == rows[..n] + [rows[n]] && rows[n] in rows;
      ManifestsSound(s, rows[..n]);
      assert RowHashes(rows) == RowHashes(rows[..n]) + [rows[n].entry.hash];
      StoreAllGrows(s, RowHashes(rows[..n]));
      SoundStep(s, RowHashes(rows[..n]), rows[n].entry.hash);
    }
  }

  lemma {:induction false} MergeOk(s: Objects, s': Objects, index: Index, rows: seq<Row>)
    requires IndexOk(s, index) && Grows(s, s')
    requires forall row | row in rows :: RowOk(s, row) && row.entry.hash in s'
    ensures IndexOk(s', Merge(index, rows))
  {
    if rows == [] {
      IndexGrows(s, s', index);
    } else {
      var n := |rows| - 1;
      assert rows == rows[..n] + [rows[n]] && rows[n] in rows;
      MergeOk(s, s', index, rows[..n]);
      IndexAdd(s', Merge(index, rows[..n]), rows[n].path, StageUpsert(rows[n].entry.hash));
    }
  }

  lemma EditsOfGood(s: Objects, index: Index, order: seq<string>)
    requires IndexOk(s, index) && forall k | k in order :: k in index
    ensures GoodEdits(EditsOf(index, order)) && LinkedEdits(s, EditsOf(index, order))
            && StagesFiles(EditsOf(index, order))
  {
    forall i | 0 <= i < |order|
      ensures GoodEdit(EditsOf(index, order)[i])
      ensures EditsOf(index, order)[i].Upsert? ==>
              Linked(s, EditsOf(index, order)[i].entry) && EditsOf(index, order)[i].entry.mode != Tree
    {
      assert order[i] in order && StagedOk(s, order[i], index[order[i]]);
    }
  }

  /** The store with the rebuilt manifests in it, and the index a commit works on. */
  lemma MergedOk(st: State, reprobe: Reprobe)
    requires Inv(st)
    ensures var s := StoreAll(st.objects, RowHashes(Rebuilt(st, reprobe)));
            SoundStore(s) && Grows(st.objects, s) && IndexOk(s, Merged(st, reprobe))
  {
    var rows := Rebuilt(st, reprobe);
    RebuiltOk(st, reprobe);
    ManifestsSound(st.objects, rows);
    StoreAllGrows(st.objects, RowHashes(rows));
    forall row | row in rows ensures row.entry.hash in StoreAll(st.objects, RowHashes(rows)) {
      var i :| 0 <= i < |rows| && rows[i] == row;
      assert RowHashes(rows)[i] == row.entry.hash;
    }
    MergeOk(st.objects, StoreAll(st.objects, RowHashes(rows)), st.index, rows);
  }

  /** What a commit leaves behind, whether or not it succeeds, and the tree it makes. */
  lemma CommitWritesSound(st: State, order: seq<string>, reprobe: Reprobe)
    requires Inv(st) && HeadRoot(st).Ok? && Iterates(order, Merged(st, reprobe))
    ensures var s := StoreAll(st.objects, CommitWrites(st, order, reprobe));
            && SoundStore(s) && Grows(st.objects, s)
            && (CommitRun(st, order, reprobe).Ok? ==>
                  LinkedRoot(s, CommitRun(st, order, reprobe).value) && GoodRoot(CommitRun(st, order, reprobe).value))
  {
    var rows, merged := Rebuilt(st, reprobe), Merged(st, reprobe);
    var s := StoreAll(st.objects, RowHashes(rows));
    var base, edits := AsEntry(HeadRoot(st).value), EditsOf(merged, order);
    MergedOk(st, reprobe);
    HeadRootGood(st);
    EditsOfGood(s, merged, order);
    RunSound(s, base, edits);
    StoreAllAppend(st.objects, RowHashes(rows), RunHashes(base, edits));
    StoreAllGrows(st.objects, CommitWrites(st, order, reprobe));
    assert RowHashes(rows) + [] == RowHashes(rows);
    if Run(base, edits).Ok? {
      RunGood(base, edits);
    }
  }

  lemma CommitKeeps(st: State, order: seq<string>, text: string, reprobe: Reprobe)
    requires Inv(st) && HeadRoot(st).Ok? && Iterates(order, Merged(st, reprobe))
    ensures Inv(CommitNext(st, order, text, reprobe)) && Moves(st, CommitNext(st, order, text, reprobe))
  {
    CommitWritesSound(st, order, reprobe);
    var run := CommitRun(st, order, reprobe);
    var s := StoreAll(st.objects, CommitWrites(st, order, reprobe));
    GrowKeeps(st, s);
    if run.Ok? && run.value.Some? {
      var h := CommitHash(st, run.value.value.hash, text);
      CommitSound(st, s, run.value.value.hash, text);
      AdvanceKeeps(st, StoreAll(s, [h]), h);
    }
  }

  lemma CommitSound(st: State, s: Objects, tree: Hash, text: string)
    requires Inv(st) && SoundStore(s) && Grows(st.objects, s) && tree in s && Canonical(Entry(Tree, tree))
    ensures var h := CommitHash(st, tree, text);
            SoundStore(StoreAll(s, [h])) && Grows(st.objects, StoreAll(s, [h])) && h in StoreAll(s, [h])
                && StoreAll(s, [h])[h] == h.obj
  {
    var h := CommitHash(st, tree, text);
    HeadRootGood(st);
    assert StoreAll(s, []) == s;
    SoundStep(s, [], h);
    assert [] + [h] == [h];
    StoreAllGrows(s, [h]);
    StoreAllExact(s, [h], h);
  }

  // ---- Every operation ----

  predicate PrintablePath(path: string) {
    ValidPath(path) ==> forall i | 0 <= i < |Split(path).value| :: Printable(Split(path).value[i])
  }

  ghost predicate NotDangling(st: State, x: RefExpr) {
    x.base.Literal? && (x.back.None? || x.back.value == 0) ==> IsCommit(st.objects, x.base.hash)
  }

  /**
   Not the inputs that the code accepts but should not: a file whose path has a
   component with a line feed or a final carriage return, and a literal hash that
   names no stored commit.
   */
  ghost predicate Harmless(st: State, ev: Event) {
    match ev
    case AddBlob(path, _, _) => PrintablePath(path)
    case AddFile(path, _, _, _) => PrintablePath(path)
    case Remove(_) => true
    case Commit(_, _, _) => true
    case Branch(_, start) => start.Some? ==> NotDangling(st, start.value)
    case Checkout(target) => NotDangling(st, target)
  }

  /** Names, and literals followed by `~n` with n > 0, resolve only to stored commits. */
  lemma ResolvesToCommit(st: State, x: RefExpr)
    requires Inv(st) && Resolve(st.objects, st.refs, st.head, x).Ok?
    ensures IsCommit(st.objects, Resolve(st.objects, st.refs, st.head, x).value) <==> NotDangling(st, x)
  {
    var n := if x.back.Some? then x.back.value else 0;
    var start := ResolveBase(st.refs, st.head, x.base).value;
    if n > 0 || x.base.Named? {
      AncestorStored(st.objects, start, n);
    }
  }

  lemma BranchKeeps(st: State, name: string, start: Option<RefExpr>)
    requires Inv(st)
    ensures var b := Next(st, Branch(name, start));
            Moves(st, b) && ((start.Some? ==> NotDangling(st, start.value)) ==> Inv(b))
  {
    if Start(st, start).Ok? && BranchRef(name) !in st.refs {
      NewRef(st, BranchRef(name), Start(st, start).value);
      if start.Some? {
        ResolvesToCommit(st, start.value);
      }
    }
  }

  lemma CheckoutKeeps(st: State, x: RefExpr)
    requires Inv(st)
    ensures var b := Next(st, Checkout(x));
            Moves(st, b) && (NotDangling(st, x) ==> Inv(b))
  {
    NewHead(st, Target(st, x));
    if !Attaches(st, x) && Resolve(st.objects, st.refs, st.head, x).Ok? {
      ResolvesToCommit(st, x);
    }
  }

  lemma AddBlobKeeps(st: State, path: string, bytes: seq<Byte>, accepted: bool)
    requires Inv(st)
    ensures var b := Next(st, AddBlob(path, bytes, accepted));
            Moves(st, b) && (PrintablePath(path) ==> Inv(b))
  {
    if ValidPath(path) && accepted {
      var h := BlobHash(bytes);
      assert StoreAll(st.objects, []) == st.objects;
      SoundStep(st.objects, [], h);
      assert [] + [h] == [h];
      StoreAllGrows(st.objects, [h]);
      if PrintablePath(path) {
        StageKeeps(st, [h], path, h);
      }
    }
  }

  lemma RemoveKeeps(st: State, path: string)
    requires Inv(st)
    ensures var b := Next(st, Event.Remove(path));
            Moves(st, b) && Inv(b)
  {
    if ValidPath(path) {
      ValidPathNonEmpty(path);
      IndexAdd(st.objects, st.index, path, StageDelete);
    }
  }

  /** Every operation, on harmless inputs, keeps a sound repository sound and moves branches only forward. */
  lemma NextKeeps(st: State, ev: Event)
    requires Inv(st) && Possible(st, ev) && Harmless(st, ev)
    ensures Inv(Next(st, ev)) && Moves(st, Next(st, ev))
  {
    match ev {
      case AddBlob(path, bytes, accepted) => AddBlobKeeps(st, path, bytes, accepted);
      case AddFile(path, bytes, size, details) => AddFileKeeps(st, path, bytes, size, details);
      case Remove(path) => RemoveKeeps(st, path);
      case Commit(order, text, reprobe) => CommitKeeps(st, order, text, reprobe);
      case Branch(name, start) => BranchKeeps(st, name, start);
      case Checkout(target) => CheckoutKeeps(st, target);
    }
  }
}
