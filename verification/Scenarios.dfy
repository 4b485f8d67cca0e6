/**
 Concrete runs of the repository: commits of small files, and the inputs on which
 `commit` (crates/omp-core/src/api.rs:1401-1494) does not do what was staged.
 */
module Scenarios {
  import opened Objects
  import opened Paths
  import opened Walk
  import opened Writes
  import opened StorePaths
  import opened Edits
  import opened Refs
  import opened States
  import opened Soundness
  import opened Runs
  import opened CommitOrders

  // ---- Committing one file ----

  /** The reprobe pass is switched off. */
  const NoReprobe: Reprobe := Deferred

  /** A file of type `t`, made under an empty schema. */
  const DETAILS := Details("t", BlobHash([]), map[], "")

  /** The manifest of an empty file. */
  const FILE := Digest(ManifestObj(BlobHash([]), DETAILS))

  const LEAF := Entry(Manifest, FILE)

  /** A name that is also a path. */
  predicate FileName(n: string) {
    GoodName(n) && n != ".omp"
  }

  lemma NamePath(n: string)
    requires FileName(n)
    ensures ValidPath(n) && Split(n) == Ok([n]) && PrintablePath(n)
  {
    SplitJoin([n]);
    assert Join([n]) == n;
    assert '/' in ".omp/" by {
      assert ".omp/"[4] == '/';
    }
    assert ".omp/" <= n ==> '/' in n;
  }

  /** Adds an empty file and commits it. */
  function AddAndCommit(n: string): seq<Event> {
    [AddFile(n, [], 1, Some(DETAILS)), Commit([n], "", NoReprobe)]
  }

  /** On a branch, with nothing staged. */
  ghost predicate Clean(st: State) {
    Inv(st) && st.index == map[] && st.head.OnBranch?
  }

  /** The children of HEAD's tree. */
  function HeadFiles(st: State): map<string, Entry> {
    if HeadRoot(st).Ok? && HeadRoot(st).value.Some? then Children(Entry(Tree, HeadRoot(st).value.value)) else map[]
  }

  function NewHash(st: State, n: string): Hash {
    CommitHash(st, TreeHash(HeadFiles(st)[n := LEAF]), "")
  }

  /** The state with the file staged. */
  ghost function Added(st: State, n: string): State {
    st.(objects := StoreAll(st.objects, [BlobHash([])] + [FILE]), index := st.index[n := StageUpsert(FILE)])
  }

  lemma AddStep(st: State, n: string)
    requires Clean(st) && FileName(n)
    ensures Next(st, AddAndCommit(n)[0]) == Added(st, n) && Inv(Added(st, n)) && Harmless(st, AddAndCommit(n)[0])
    ensures Added(st, n).index == map[n := StageUpsert(FILE)]
    ensures HeadRoot(Added(st, n)) == HeadRoot(st) && Parents(Added(st, n)) == Parents(st)
  {
    NamePath(n);
    NextKeeps(st, AddAndCommit(n)[0]);
    assert SourceHashes([], 1) == [BlobHash([])];
    StoreAllGrows(st.objects, [BlobHash([])] + [FILE]);
    HeadRootGood(st);
  }

  lemma OnlyChange(st: State, n: string)
    requires Clean(st) && FileName(n)
    ensures Merged(Added(st, n), NoReprobe) == map[n := StageUpsert(FILE)]
    ensures Iterates([n], Merged(Added(st, n), NoReprobe))
    ensures EditsOf(map[n := StageUpsert(FILE)], [n]) == [Upsert([n], LEAF)]
  {
    AddStep(st, n);
    NamePath(n);
  }

  lemma OneUpsert(base: Option<Entry>, n: string)
    requires ValidName(n)
    ensures Run(base, [Upsert([n], LEAF)]) ==
            Ok(Some(Node(Children(if base.Some? then base.value else EMPTY)[n := LEAF])))
  {
    var edits := [Upsert([n], LEAF)];
    assert edits[..0] == [];
  }

  /** The commit succeeds: HEAD's branch moves to a child that shows one more file. */
  lemma FileCommitted(st: State, n: string)
    requires Clean(st) && FileName(n)
    ensures Legal(st, AddAndCommit(n))
    ensures var b := After(st, AddAndCommit(n));
            && Clean(b) && Moves(st, b) && b.head == st.head
            && b.refs == st.refs[st.head.ref := NewHash(st, n)]
            && NewHash(st, n) in b.objects && b.objects[NewHash(st, n)] == NewHash(st, n).obj
            && Grows(st.objects, b.objects)
  {
    var ev := Commit([n], "", NoReprobe);
    AddStep(st, n);
    CommitStep(st, n);
    RunTwo(st, AddAndCommit(n)[0], ev);
    NextKeeps(st, AddAndCommit(n)[0]);
    NextKeeps(Added(st, n), ev);
  }

  lemma CommitStep(st: State, n: string)
    requires Clean(st) && FileName(n)
    ensures Possible(Added(st, n), Commit([n], "", NoReprobe)) && Inv(Added(st, n))
    ensures var b, h := Next(Added(st, n), Commit([n], "", NoReprobe)), NewHash(st, n);
            && b == State(b.objects, st.refs[st.head.ref := h], st.head, map[])
            && h in b.objects && b.objects[h] == h.obj && Grows(Added(st, n).objects, b.objects)
  {
    var a := Added(st, n);
    AddStep(st, n);
    OnlyChange(st, n);
    HeadRootGood(a);
    OneUpsert(AsEntry(HeadRoot(a).value), n);
    assert CommitRun(a, [n], NoReprobe) == Ok(Some(Node(HeadFiles(st)[n := LEAF])));
    CommitMoves(a, [n], NoReprobe, HeadFiles(st)[n := LEAF]);
  }

  lemma CommitMoves(a: State, order: seq<string>, reprobe: Reprobe, m: map<string, Entry>)
    requires Inv(a) && a.index != map[] && HeadRoot(a).Ok? && Iterates(order, Merged(a, reprobe))
    requires CommitRun(a, order, reprobe) == Ok(Some(Node(m)))
    ensures var h, b := CommitHash(a, TreeHash(m), ""), CommitNext(a, order, "", reprobe);
            b == Advance(a, b.objects, h) && h in b.objects && b.objects[h] == h.obj && Grows(a.objects, b.objects)
  {
    var s, h := StoreAll(a.objects, CommitWrites(a, order, reprobe)), CommitHash(a, TreeHash(m), "");
    CommitWritesSound(a, order, reprobe);
    StoreAllGrows(s, [h]);
    StoreAllExact(s, [h], h);
  }

  /** The new HEAD is one step from the old one, and shows one more file. */
  lemma FileShown(st: State, n: string)
    requires Clean(st) && FileName(n)
    ensures Legal(st, AddAndCommit(n))
    ensures var b := After(st, AddAndCommit(n));
            && ResolveHead(b.refs, b.head) == Some(NewHash(st, n))
            && HeadFiles(b) == HeadFiles(st)[n := LEAF]
            && (ResolveHead(st.refs, st.head).Some? ==>
                Ancestor(b.objects, NewHash(st, n), 1) == Ok(ResolveHead(st.refs, st.head).value))
  {
    FileCommitted(st, n);
  }

  /** HEAD is at `h`, on a branch, with nothing staged. */
  ghost predicate Tip(st: State, h: Hash) {
    Clean(st) && ResolveHead(st.refs, st.head) == Some(h)
  }

  /** One more file, one commit on. */
  ghost predicate OneMore(st: State, h: Hash, n: string, b: State) {
    && Tip(b, NewHash(st, n)) && b.head == st.head && Grows(st.objects, b.objects)
    && b.refs == st.refs[b.head.ref := NewHash(st, n)]
    && HeadFiles(b) == HeadFiles(st)[n := LEAF]
    && Ancestor(b.objects, NewHash(st, n), 1) == Ok(h)
  }

  lemma OneMoreCommit(st: State, h: Hash, n: string)
    requires Tip(st, h) && FileName(n)
    ensures Legal(st, AddAndCommit(n)) && OneMore(st, h, n, After(st, AddAndCommit(n)))
  {
    FileCommitted(st, n);
    FileShown(st, n);
  }

  // ---- One path under two keys ----

  lemma JoinValid(p: Path)
    requires p != [] && Components(p) && Printables(p) && p[0][0] != '.'
    ensures ValidPath(Join(p)) && Split(Join(p)) == Ok(p) && PrintablePath(Join(p))
  {
    JoinNoDouble(p);
    JoinPieces(p);
    SplitJoin(p);
    assert Join(p)[0] == p[0][0];
  }

  const SLASHED := "a/"

  lemma SlashedPath()
    ensures ValidPath(SLASHED) && Split(SLASHED) == Ok(["a"]) && PrintablePath(SLASHED)
  {
    NamePath("a");
    assert SLASHED[..1] == "a";
    assert TrimStart(SLASHED) == SLASHED && TrimEnd(SLASHED) == TrimEnd("a") == "a";
    assert TrimStart("a") == "a";
  }

  /** The file `a` is added and, under the key `a/`, deleted. */
  function TwoKeys(): seq<Event> {
    [AddBlob("a", [], true), Event.Remove(SLASHED)]
  }

  ghost function TwoKeysState(): State {
    State(StoreAll(map[], [BlobHash([])]), map[], OnBranch(BranchRef("main")),
          map["a" := StageUpsert(BlobHash([])), SLASHED := StageDelete])
  }

  lemma TwoKeysRun()
    ensures Legal(INIT, TwoKeys()) && After(INIT, TwoKeys()) == TwoKeysState() && Inv(TwoKeysState())
  {
    NamePath("a");
    SlashedPath();
    var st := Next(INIT, TwoKeys()[0]);
    NextKeeps(INIT, TwoKeys()[0]);
    NextKeeps(st, TwoKeys()[1]);
    RunTwo(INIT, TwoKeys()[0], TwoKeys()[1]);
    assert map["a" := StageUpsert(BlobHash([]))][SLASHED := StageDelete] ==
        map["a" := StageUpsert(BlobHash([])), SLASHED := StageDelete];
  }

  /**
   `validate_path` accepts both "a" and "a/", which are two keys of the index and one
   path, so an upsert and a removal of the same file can be staged together; then the
   iteration order decides whether the commit holds the file or fails as empty.
   */
  lemma OrderMattersOnOnePath()
    ensures Legal(INIT, TwoKeys())
    ensures var st := After(INIT, TwoKeys());
            && Split("a") == Split(SLASHED) && Inv(st)
            && Iterates(["a", SLASHED], Merged(st, NoReprobe)) && Iterates([SLASHED, "a"], Merged(st, NoReprobe))
            && CommitRun(st, ["a", SLASHED], NoReprobe) == Ok(None)
            && CommitRun(st, [SLASHED, "a"], NoReprobe) == Ok(Some(Node(map["a" := Entry(Blob, BlobHash([]))])))
  {
    NamePath("a");
    SlashedPath();
    TwoKeysRun();
    assert Merged(TwoKeysState(), NoReprobe) == TwoKeysState().index;
    TwoKeysEdits(TwoKeysState().index);
    UpsertRemove(Entry(Blob, BlobHash([])));
  }

  lemma TwoKeysEdits(index: Index)
    requires index == map["a" := StageUpsert(BlobHash([])), SLASHED := StageDelete]
    ensures Iterates(["a", SLASHED], index) && Iterates([SLASHED, "a"], index)
    ensures EditsOf(index, ["a", SLASHED]) == [Upsert(["a"], Entry(Blob, BlobHash([]))), Edit.Remove(["a"])]
    ensures EditsOf(index, [SLASHED, "a"]) == [Edit.Remove(["a"]), Upsert(["a"], Entry(Blob, BlobHash([])))]
  {
    NamePath("a");
    SlashedPath();
    assert |SLASHED| != |"a"|;
    KeysEdits("a", SLASHED, index);
  }

  lemma KeysEdits(j: string, k: string, index: Index)
    requires j != k && Split(j) == Ok(["a"]) && Split(k) == Ok(["a"])
             && index == map[j := StageUpsert(BlobHash([])), k := StageDelete]
    ensures Iterates([j, k], index) && Iterates([k, j], index)
    ensures EditsOf(index, [j, k]) == [Upsert(["a"], Entry(Blob, BlobHash([]))), Edit.Remove(["a"])]
    ensures EditsOf(index, [k, j]) == [Edit.Remove(["a"]), Upsert(["a"], Entry(Blob, BlobHash([])))]
  {
  }

  lemma UpsertRemove(x: Entry)
    ensures Run(None, [Upsert(["a"], x), Edit.Remove(["a"])]) == Ok(None)
    ensures Run(None, [Edit.Remove(["a"]), Upsert(["a"], x)]) == Ok(Some(Node(map["a" := x])))
  {
    var up, down := Upsert(["a"], x), Edit.Remove(["a"]);
    assert [up, down][..1] == [up] && [down, up][..1] == [down] && [up][..0] == [] && [down][..0] == [];
    assert Run(None, [up]) == Ok(Some(Node(map["a" := x])));
    assert map["a" := x] - {"a"} == map[];
    assert Run(None, [down]) == Ok(None);
  }

  // ---- A staged deletion undone by the automatic reprobe ----

  const SCHEMA := ["schemas", "t", "schema.toml"]

  const SCHEMA_BYTES: seq<Byte> := [0]

  function Changed(x: Staged): Result<bool> {
    Ok(true)
  }

  function Anew(path: string, o: Object, x: Staged): Option<Rebuild> {
    Some(Rebuild(map[], "new"))
  }

  /** A pass in which every schema has changed and every rebuild succeeds. */
  const AGAIN: Reprobe := Pass([Join(SCHEMA), "a"], Ok(()), Changed, Anew)

  const REBUILT := Digest(ManifestObj(BlobHash([]), Details("t", BlobHash(SCHEMA_BYTES), map[], "new")))

  lemma SchemaText()
    ensures SchemaPath(Join(SCHEMA)) && ValidPath(Join(SCHEMA)) && Split(Join(SCHEMA)) == Ok(SCHEMA)
            && PrintablePath(Join(SCHEMA))
    ensures Join(SCHEMA) == SchemaKey("t") && Join(SCHEMA) != "a"
  {
    JoinValid(SCHEMA);
    SchemaKeyOf("t");
    JoinedSchema();
  }

  lemma JoinedSchema()
    ensures Join(SCHEMA) == SchemaKey("t") && |Join(SCHEMA)| > 1
  {
    assert SCHEMA[1..] == ["t", "schema.toml"] && ["t", "schema.toml"][1..] == ["schema.toml"];
    assert Join(SCHEMA) == "schemas" + "/" + ("t" + "/" + "schema.toml");
  }

  /** After `a` was committed: a changed schema is added and `a` is deleted. */
  function SchemaAndDelete(): seq<Event> {
    [AddBlob(Join(SCHEMA), SCHEMA_BYTES, true), Event.Remove("a")]
  }

  ghost function WithSchema(st: State): State {
    st.(objects := StoreAll(st.objects, [BlobHash(SCHEMA_BYTES)]),
        index := map[Join(SCHEMA) := StageUpsert(BlobHash(SCHEMA_BYTES)), "a" := StageDelete])
  }

  lemma StagedTogether(st: State)
    requires Clean(st)
    ensures Legal(st, SchemaAndDelete()) && After(st, SchemaAndDelete()) == WithSchema(st) && Inv(WithSchema(st))
  {
    SchemaText();
    NamePath("a");
    var evs := SchemaAndDelete();
    NextKeeps(st, evs[0]);
    NextKeeps(Next(st, evs[0]), evs[1]);
    RunTwo(st, evs[0], evs[1]);
    assert map[Join(SCHEMA) := StageUpsert(BlobHash(SCHEMA_BYTES))]["a" := StageDelete] == WithSchema(st).index;
  }

  lemma SameHead(st: State)
    requires Clean(st)
    ensures HeadRoot(WithSchema(st)) == HeadRoot(st)
  {
    HeadRootGood(st);
    StoreAllGrows(st.objects, [BlobHash(SCHEMA_BYTES)]);
  }

  /** HEAD shows just the file `a`. */
  ghost predicate ShowsA(st: State) {
    Inv(st) && HeadRoot(st) == Ok(Some(TreeHash(map["a" := LEAF])))
  }

  lemma RebuildsA(st: State)
    requires ShowsA(st) && HeadRoot(WithSchema(st)) == HeadRoot(st)
    ensures Rebuilds(WithSchema(st), AGAIN, "a", REBUILT)
  {
    SchemaText();
    LeafA();
    RebuiltA(WithSchema(st).index);
  }

  lemma RebuiltA(index: Index)
    requires SchemaPath(Join(SCHEMA)) && Join(SCHEMA) == SchemaKey("t")
    requires Join(SCHEMA) in index && index[Join(SCHEMA)] == StageUpsert(BlobHash(SCHEMA_BYTES))
    ensures RebuiltTo(index, AGAIN, "a", FILE.obj, REBUILT)
  {
    assert SCHEMA_BYTES != [];
  }

  lemma LeafA()
    ensures Split("a") == Ok(["a"]) && Join(["a"]) == "a" && Leaf(Node(map["a" := LEAF]), ["a"]) == Some(LEAF)
  {
    NamePath("a");
    assert ["a"][1..] == [] && Find(LEAF, []) == Some(LEAF);
  }

  lemma RebuiltOnlyA(st: State, k: string)
    requires ShowsA(st) && (exists h :: Rebuilds(st, AGAIN, k, h))
    ensures k == "a"
  {
    var h :| Rebuilds(st, AGAIN, k, h);
    var p, tree := Split(k).value, Node(map["a" := LEAF]);
    assert Leaf(tree, p).Some?;
    assert p != [] && p[0] == "a" && Find(tree, p) == Find(LEAF, p[1..]);
    assert p[1..] == [];
    assert p == ["a"] && Join(["a"]) == "a";
  }

  /** The pass visits both staged changes and succeeds. */
  lemma PassSucceeds(st: State)
    requires st.index == map[Join(SCHEMA) := StageUpsert(BlobHash(SCHEMA_BYTES)), "a" := StageDelete]
    ensures Visits(st, AGAIN) && AutoReprobe(st, AGAIN).result.Ok?
  {
    SchemaText();
    OrderOfTwo(Join(SCHEMA), "a", st.index);
    PassFailsIff(st, AGAIN);
  }

  lemma OrderOfTwo(j: string, k: string, index: Index)
    requires j != k && index.Keys == {j, k}
    ensures Iterates([j, k], index)
  {
  }

  ghost function Changes(): Index {
    map[Join(SCHEMA) := StageUpsert(BlobHash(SCHEMA_BYTES)), "a" := StageUpsert(REBUILT)]
  }

  lemma MergedChanges(st: State)
    requires ShowsA(st) && st.index == map[Join(SCHEMA) := StageUpsert(BlobHash(SCHEMA_BYTES)), "a" := StageDelete]
    requires Rebuilds(st, AGAIN, "a", REBUILT)
    ensures Merged(st, AGAIN) == Changes()
  {
    forall k ensures SameAt(Merged(st, AGAIN), Changes(), k) {
      MergedChange(st, k);
    }
    SameMaps(Merged(st, AGAIN), Changes());
  }

  lemma SameMaps(a: Index, b: Index)
    requires forall k :: SameAt(a, b, k)
    ensures a == b
  {
    assert forall k :: SameAt(a, b, k) ==> (k in a <==> k in b);
  }

  ghost predicate SameAt(a: Index, b: Index, k: string) {
    (k in a <==> k in b) && (k in a && k in b ==> a[k] == b[k])
  }

  lemma MergedChange(st: State, k: string)
    requires ShowsA(st) && st.index == map[Join(SCHEMA) := StageUpsert(BlobHash(SCHEMA_BYTES)), "a" := StageDelete]
    requires Rebuilds(st, AGAIN, "a", REBUILT)
    ensures SameAt(Merged(st, AGAIN), Changes(), k)
  {
    SchemaText();
    PassSucceeds(st);
    MergedAt(st, AGAIN, k);
    if exists h :: Rebuilds(st, AGAIN, k, h) {
      RebuiltOnlyA(st, k);
    }
  }

  lemma ChangesApply()
    ensures CompatibleIndex(Changes()) && Applies(Some(Node(map["a" := LEAF])), Changes())
            && Iterates([Join(SCHEMA), "a"], Changes())
  {
    SchemaText();
    NamePath("a");
    TwoChanges(Join(SCHEMA), SCHEMA, BlobHash(SCHEMA_BYTES));
  }

  lemma TwoChanges(k: string, p: Path, h: Hash)
    requires Split(k) == Ok(p) && Split("a") == Ok(["a"]) && k != "a" && p == SCHEMA
    ensures var index := map[k := StageUpsert(h), "a" := StageUpsert(REBUILT)];
            CompatibleIndex(index) && Applies(Some(Node(map["a" := LEAF])), index) && Iterates([k, "a"], index)
  {
    SchemaApplies();
    var d, e := EditOf(k, StageUpsert(h)), EditOf("a", StageUpsert(REBUILT));
    assert d.path == p && e.path == ["a"];
    assert Compatible(d, e) && Compatible(e, d);
    assert Applicable(Some(Node(map["a" := LEAF])), e);
    assert [k, "a"][0] == k && [k, "a"][1] == "a";
  }

  lemma SchemaApplies()
    ensures Apart(SCHEMA, ["a"])
    ensures !BlockedIn(Some(Node(map["a" := LEAF])), SCHEMA) && forall i | 0 <= i < |SCHEMA| :: ValidName(SCHEMA[i])
  {
    var base := Some(Node(map["a" := LEAF]));
    assert |SCHEMA[0]| != |"a"| && ["a"][0] == "a";
    forall i | 0 < i < |SCHEMA| ensures LeafOpt(base, SCHEMA[..i]).None? {
      assert SCHEMA[..i][0] == SCHEMA[0];
    }
  }

  /**
   The deletion of `a` was staged, but the commit rebuilds the manifest of `a` for the
   schema staged beside it, and still shows it.
   */
  lemma ReprobeOverwrites()
    ensures Legal(INIT, AddAndCommit("a") + SchemaAndDelete())
    ensures var st := After(INIT, AddAndCommit("a") + SchemaAndDelete());
            var order := [Join(SCHEMA), "a"];
            && Inv(st) && HeadRoot(st).Ok? && "a" in st.index && st.index["a"] == StageDelete
            && Visits(st, AGAIN) && Iterates(order, Merged(st, AGAIN))
            && CommitRun(st, order, AGAIN).Ok?
            && LeafOpt(CommitRun(st, order, AGAIN).value, ["a"]) == Some(Entry(Manifest, REBUILT))
  {
    FileCommitted(INIT, "a");
    FileShown(INIT, "a");
    var head := After(INIT, AddAndCommit("a"));
    StagedTogether(head);
    LegalAppend(INIT, AddAndCommit("a"), SchemaAndDelete());
    SameHead(head);
    assert map[]["a" := LEAF] == map["a" := LEAF];
    assert ShowsA(head);
    RebuildsA(head);
    PassSucceeds(WithSchema(head));
    DeletionUndone(WithSchema(head));
  }

  lemma DeletionUndone(st: State)
    requires ShowsA(st) && st.index == map[Join(SCHEMA) := StageUpsert(BlobHash(SCHEMA_BYTES)), "a" := StageDelete]
    requires Rebuilds(st, AGAIN, "a", REBUILT)
    ensures Iterates([Join(SCHEMA), "a"], Merged(st, AGAIN)) && CommitRun(st, [Join(SCHEMA), "a"], AGAIN).Ok?
    ensures LeafOpt(CommitRun(st, [Join(SCHEMA), "a"], AGAIN).value, ["a"]) == Some(Entry(Manifest, REBUILT))
  {
    MergedChanges(st);
    PassSucceeds(st);
    ChangesApply();
    LeafA();
    ChangeLands(st, AGAIN, Changes(), [Join(SCHEMA), "a"], "a", ["a"], REBUILT);
  }

  /** A change of the merged index shows in the commit. */
  lemma ChangeLands(st: State, p: Reprobe, index: Index, order: seq<string>, k: string, path: Path, h: Hash)
    requires Inv(st) && HeadRoot(st).Ok? && AutoReprobe(st, p).result.Ok? && Merged(st, p) == index
             && Iterates(order, index)
    requires CompatibleIndex(index) && Applies(AsEntry(HeadRoot(st).value), index)
    requires k in index && index[k] == StageUpsert(h) && Split(k) == Ok(path) && h.obj.ManifestObj?
    ensures CommitRun(st, order, p).Ok? && LeafOpt(CommitRun(st, order, p).value, path) == Some(Entry(Manifest, h))
  {
    CommitAnyOrder(st, order, order, p);
    ChangeShows(st, order, p, k);
  }
}
