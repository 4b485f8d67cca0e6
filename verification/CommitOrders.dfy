/**
 What a commit makes of the index (crates/omp-core/src/api.rs:1401-1494): exactly
 when the iteration order of the changes does not matter, and what the automatic
 reprobe before the commit does to what was staged.
 */
module CommitOrders {
  import opened Objects
  import opened Paths
  import opened Walk
  import opened Writes
  import opened StorePaths
  import opened Edits
  import opened States
  import opened Soundness
  import Diff

  // ---- The iteration order ----

  /** Any two changes can be carried out in either order. */
  ghost predicate CompatibleIndex(index: Index) {
    forall j, k | j in index && k in index :: Compatible(EditOf(j, index[j]), EditOf(k, index[k]))
  }

  lemma EditsFromIndex(index: Index, order: seq<string>, d: Edit)
    requires Iterates(order, index)
    ensures d in EditsOf(index, order) <==> exists k :: k in index && d == EditOf(k, index[k])
  {
    var edits := EditsOf(index, order);
    if d in edits {
      var i :| 0 <= i < |edits| && edits[i] == d;
      assert order[i] in order;
    }
    if k :| k in index && d == EditOf(k, index[k]) {
      assert k in order;
      var i :| 0 <= i < |order| && order[i] == k;
      assert edits[i] == d;
    }
  }

  lemma OrdersAgree(index: Index, xs: seq<string>, ys: seq<string>)
    requires Iterates(xs, index) && Iterates(ys, index)
    ensures SameEdits(EditsOf(index, xs), EditsOf(index, ys))
    ensures CompatibleIndex(index) ==> AllCompatible(EditsOf(index, xs))
  {
    forall d ensures d in EditsOf(index, xs) <==> d in EditsOf(index, ys) {
      EditsFromIndex(index, xs, d);
      EditsFromIndex(index, ys, d);
    }
    if CompatibleIndex(index) {
      forall d, e | d in EditsOf(index, xs) && e in EditsOf(index, xs) ensures Compatible(d, e) {
        EditsFromIndex(index, xs, d);
        EditsFromIndex(index, xs, e);
      }
    }
  }

  /** The store a commit builds its tree in, and the edits it carries out there. */
  lemma CommitEdits(st: State, order: seq<string>, reprobe: Reprobe)
    requires Inv(st) && Iterates(order, Merged(st, reprobe))
    ensures HeadRoot(st).Ok? && GoodRoot(AsEntry(HeadRoot(st).value))
    ensures GoodEdits(EditsOf(Merged(st, reprobe), order)) && StagesFiles(EditsOf(Merged(st, reprobe), order))
  {
    HeadRootGood(st);
    MergedOk(st, reprobe);
    EditsOfGood(StoreAll(st.objects, RowHashes(Rebuilt(st, reprobe))), Merged(st, reprobe), order);
  }

  /** The leaf a change leaves at its own path. */
  function ChangeLeaf(path: string, c: Change): Option<Entry> {
    match EditOf(path, c)
    case Upsert(_, x) => Some(x)
    case Remove(_) => None
  }

  /** A change is made at `q` or above it. */
  ghost predicate Touches(changes: Index, q: Path) {
    exists k | k in changes :: EditOf(k, changes[k]).path <= q
  }

  ghost predicate Applies(base: Option<Entry>, changes: Index) {
    forall k | k in changes :: Applicable(base, EditOf(k, changes[k]))
  }

  lemma IndexOrder(base: Option<Entry>, changes: Index, xs: seq<string>, ys: seq<string>)
    requires GoodRoot(base) && CompatibleIndex(changes) && Iterates(xs, changes) && Iterates(ys, changes)
    requires GoodEdits(EditsOf(changes, xs)) && StagesFiles(EditsOf(changes, xs)) && GoodEdits(EditsOf(changes, ys))
    ensures var a, b := Run(base, EditsOf(changes, xs)), Run(base, EditsOf(changes, ys));
            (a.Ok? <==> b.Ok?) && (a.Ok? ==> a == b)
    ensures Run(base, EditsOf(changes, xs)).Ok? <==> Applies(base, changes)
  {
    OrdersAgree(changes, xs, ys);
    CommitOrder(base, EditsOf(changes, xs), EditsOf(changes, ys));
    AllApplicable(base, changes, xs);
  }

  lemma AllApplicable(base: Option<Entry>, changes: Index, order: seq<string>)
    requires Iterates(order, changes)
    ensures (forall d | d in EditsOf(changes, order) :: Applicable(base, d)) <==> Applies(base, changes)
  {
    forall k | k in changes ensures EditOf(k, changes[k]) in EditsOf(changes, order) {
      EditsFromIndex(changes, order, EditOf(k, changes[k]));
    }
    forall d | d in EditsOf(changes, order) ensures exists k :: k in changes && d == EditOf(k, changes[k]) {
      EditsFromIndex(changes, order, d);
    }
  }

  lemma IndexShows(base: Option<Entry>, changes: Index, order: seq<string>, k: string)
    requires GoodRoot(base) && CompatibleIndex(changes) && Iterates(order, changes) && k in changes
    requires GoodEdits(EditsOf(changes, order)) && StagesFiles(EditsOf(changes, order))
             && Run(base, EditsOf(changes, order)).Ok?
    ensures LeafOpt(Run(base, EditsOf(changes, order)).value, EditOf(k, changes[k]).path) == ChangeLeaf(k, changes[k])
  {
    OrdersAgree(changes, order, order);
    var edits, d := EditsOf(changes, order), EditOf(k, changes[k]);
    CommitOrder(base, edits, edits);
    EditsFromIndex(changes, order, d);
    assert d in edits && d.path <= d.path && d.path[|d.path|..] == [];
    assert LeafOpt(Run(base, edits).value, d.path) == Effect(d, d.path);
  }

  lemma IndexKeeps(base: Option<Entry>, changes: Index, order: seq<string>, q: Path)
    requires GoodRoot(base) && CompatibleIndex(changes) && Iterates(order, changes) && !Touches(changes, q)
    requires GoodEdits(EditsOf(changes, order)) && StagesFiles(EditsOf(changes, order))
             && Run(base, EditsOf(changes, order)).Ok?
    ensures LeafOpt(Run(base, EditsOf(changes, order)).value, q) == LeafOpt(base, q)
  {
    OrdersAgree(changes, order, order);
    var edits := EditsOf(changes, order);
    CommitOrder(base, edits, edits);
    forall d | d in edits ensures !(d.path <= q) {
      EditsFromIndex(changes, order, d);
    }
  }

  /**
   In a sound repository with compatible changes, `commit` either fails in every
   iteration order or yields the same tree in every order, namely when the reprobe pass
   succeeds and every change can be applied to HEAD's tree; that tree shows each change at
   its path and HEAD's leaves everywhere else.
   */
  lemma CommitAnyOrder(st: State, xs: seq<string>, ys: seq<string>, reprobe: Reprobe)
    requires Inv(st) && CompatibleIndex(Merged(st, reprobe)) && Iterates(xs, Merged(st, reprobe))
             && Iterates(ys, Merged(st, reprobe))
    ensures HeadRoot(st).Ok?
    ensures var base, changes := AsEntry(HeadRoot(st).value), Merged(st, reprobe);
            var a, b := CommitRun(st, xs, reprobe), CommitRun(st, ys, reprobe);
            && (a.Ok? <==> b.Ok?)
            && (a.Ok? ==> a == b)
            && (a.Ok? <==> AutoReprobe(st, reprobe).result.Ok? && Applies(base, changes))
            && (a.Ok? ==> forall k | k in changes ::
                LeafOpt(a.value, EditOf(k, changes[k]).path) == ChangeLeaf(k, changes[k]))
            && (a.Ok? ==> forall q | !Touches(changes, q) :: LeafOpt(a.value, q) == LeafOpt(base, q))
  {
    CommitEdits(st, xs, reprobe);
    CommitEdits(st, ys, reprobe);
    var base, changes := AsEntry(HeadRoot(st).value), Merged(st, reprobe);
    var edits := EditsOf(changes, xs);
    IndexOrder(base, changes, xs, ys);
    if Run(base, edits).Ok? {
      forall k | k in changes
        ensures LeafOpt(Run(base, edits).value, EditOf(k, changes[k]).path) == ChangeLeaf(k, changes[k])
      {
        IndexShows(base, changes, xs, k);
      }
      forall q | !Touches(changes, q) ensures LeafOpt(Run(base, edits).value, q) == LeafOpt(base, q) {
        IndexKeeps(base, changes, xs, q);
      }
    }
  }

  // ---- The condition is exact ----

  function Without(order: seq<string>, j: string, k: string): seq<string> {
    if order == [] then []
    else
      var n := |order| - 1;
      Without(order[..n], j, k) + if order[n] == j || order[n] == k then [] else [order[n]]
  }

  ghost predicate Distinct(order: seq<string>) {
    forall a, b | 0 <= a < b < |order| :: order[a] != order[b]
  }

  lemma DistinctPush(order: seq<string>, x: string)
    ensures Distinct(order + [x]) <==> Distinct(order) && x !in order
  {
    var all := order + [x];
    if Distinct(all) {
      assert forall a | 0 <= a < |order| :: all[a] == order[a] && all[|order|] == x;
    }
  }

  lemma {:induction false} WithoutExact(order: seq<string>, j: string, k: string)
    requires Distinct(order)
    ensures forall x :: x in Without(order, j, k) <==> x in order && x != j && x != k
    ensures Distinct(Without(order, j, k))
  {
    if order != [] {
      var n := |order| - 1;
      assert order == order[..n] + [order[n]];
      DistinctPush(order[..n], order[n]);
      WithoutExact(order[..n], j, k);
      DistinctPush(Without(order[..n], j, k), order[n]);
    }
  }

  /** An order of all the changes but two. */
  ghost predicate Rest(rest: seq<string>, index: Index, j: string, k: string) {
    Distinct(rest) && forall x :: x in rest <==> x in index && x != j && x != k
  }

  lemma LastTwo(index: Index, rest: seq<string>, j: string, k: string)
    requires Rest(rest, index, j, k) && j in index && k in index && j != k
    ensures Iterates(rest + [j] + [k], index) && forall x | x in rest :: x in index
    ensures EditsOf(index, rest + [j] + [k]) == EditsOf(index, rest) + [EditOf(j, index[j])] + [EditOf(k, index[k])]
  {
    AllButTwo(index, rest, j, k);
    PushTwo(index, rest, j, k);
  }

  lemma AllButTwo(index: Index, rest: seq<string>, j: string, k: string)
    requires Rest(rest, index, j, k) && j in index && k in index && j != k
    ensures Iterates(rest + [j] + [k], index)
  {
    var all := rest + [j] + [k];
    DistinctPush(rest, j);
    DistinctPush(rest + [j], k);
    forall x ensures x in all <==> x in index {
      assert x in all <==> x in rest || x == j || x == k;
    }
  }

  lemma PushTwo(index: Index, rest: seq<string>, j: string, k: string)
    requires (forall x | x in rest :: x in index) && j in index && k in index
    ensures forall x | x in rest + [j] + [k] :: x in index
    ensures EditsOf(index, rest + [j] + [k]) == EditsOf(index, rest) + [EditOf(j, index[j])] + [EditOf(k, index[k])]
  {
  }

  /**
   If some iteration order succeeds, all of them agree exactly when every two changes
   are apart, both removals, the same upsert, or an upsert and a removal strictly below it.
   */
  lemma CommitOrderIff(st: State, xs: seq<string>, reprobe: Reprobe)
    requires Inv(st) && Iterates(xs, Merged(st, reprobe)) && HeadRoot(st).Ok? && CommitRun(st, xs, reprobe).Ok?
    ensures (forall ys | Iterates(ys, Merged(st, reprobe)) ::
             CommitRun(st, ys, reprobe) == CommitRun(st, xs, reprobe)) <==> CompatibleIndex(Merged(st, reprobe))
  {
    var changes := Merged(st, reprobe);
    if CompatibleIndex(changes) {
      forall ys | Iterates(ys, changes) ensures CommitRun(st, ys, reprobe) == CommitRun(st, xs, reprobe) {
        CommitAnyOrder(st, xs, ys, reprobe);
      }
    } else {
      var j, k :| j in changes && k in changes && !Compatible(EditOf(j, changes[j]), EditOf(k, changes[k]));
      var ys, zs := Disagreeing(st, xs, reprobe, j, k);
    }
  }

  lemma Disagreeing(st: State, xs: seq<string>, reprobe: Reprobe, j: string, k: string)
    returns (ys: seq<string>, zs: seq<string>)
    requires Inv(st) && Iterates(xs, Merged(st, reprobe)) && HeadRoot(st).Ok?
    requires j in Merged(st, reprobe) && k in Merged(st, reprobe)
    requires !Compatible(EditOf(j, Merged(st, reprobe)[j]), EditOf(k, Merged(st, reprobe)[k]))
    ensures Iterates(ys, Merged(st, reprobe)) && Iterates(zs, Merged(st, reprobe))
    ensures CommitRun(st, ys, reprobe).Err? || CommitRun(st, zs, reprobe).Err?
            || CommitRun(st, ys, reprobe) != CommitRun(st, zs, reprobe)
  {
    var changes, rest := Merged(st, reprobe), Without(xs, j, k);
    WithoutExact(xs, j, k);
    LastTwo(changes, rest, j, k);
    LastTwo(changes, rest, k, j);
    ys, zs := rest + [j] + [k], rest + [k] + [j];
    CommitEdits(st, ys, reprobe);
    RunsDisagree(AsEntry(HeadRoot(st).value), EditsOf(changes, rest), EditOf(j, changes[j]), EditOf(k, changes[k]));
  }

  lemma RunsDisagree(base: Option<Entry>, init: seq<Edit>, d: Edit, e: Edit)
    requires GoodRoot(base) && GoodEdits(init + [d] + [e]) && StagesFiles(init + [d] + [e]) && !Compatible(d, e)
    ensures var a, b := Run(base, init + [d] + [e]), Run(base, init + [e] + [d]); a.Err? || b.Err? || a != b
  {
    GoodParts(init, d, e);
    if Run(base, init + [d] + [e]).Ok? && Run(base, init + [e] + [d]).Ok? {
      OrderMatters(base, init, d, e);
    }
  }

  lemma GoodParts(init: seq<Edit>, d: Edit, e: Edit)
    requires GoodEdits(init + [d] + [e]) && StagesFiles(init + [d] + [e])
    ensures GoodEdits(init) && GoodEdit(d) && GoodEdit(e) && StagesFiles([d, e])
  {
    var all := init + [d] + [e];
    assert all[|init|] == d && all[|init| + 1] == e && d in all && e in all;
    assert forall i | 0 <= i < |init| :: all[i] == init[i];
  }

  // ---- What the automatic reprobe does to the index ----

  function SchemaKey(fileType: string): string {
    SCHEMA_PREFIX + (fileType + SCHEMA_SUFFIX)
  }

  lemma SchemaKeyOf(fileType: string)
    ensures SchemaPath(SchemaKey(fileType)) <==> fileType != "" && '/' !in fileType
    ensures SchemaPath(SchemaKey(fileType)) ==> FileTypeOf(SchemaKey(fileType)) == fileType
  {
    var rest := SchemaKey(fileType)[|SCHEMA_PREFIX|..];
    assert rest == fileType + SCHEMA_SUFFIX;
    assert rest[|rest| - |SCHEMA_SUFFIX|..] == SCHEMA_SUFFIX && rest[..|rest| - |SCHEMA_SUFFIX|] == fileType;
  }

  lemma KeyOfSchema(k: string)
    requires SchemaPath(k)
    ensures SchemaKey(FileTypeOf(k)) == k
  {
    var rest := k[|SCHEMA_PREFIX|..];
    assert k == SCHEMA_PREFIX + rest;
    assert rest == rest[..|rest| - |SCHEMA_SUFFIX|] + SCHEMA_SUFFIX;
    assert rest[..|rest| - |SCHEMA_SUFFIX|] == FileTypeOf(k);
  }

  /** This schema is staged for its file type. */
  ghost predicate IsStaged(index: Index, x: Staged) {
    var k := SchemaKey(x.fileType);
    SchemaPath(k) && k in index && index[k] == StageUpsert(x.hash)
  }

  lemma {:induction false} StagedExact(index: Index, order: seq<string>, x: Staged)
    ensures x in StagedSchemas(index, order) <==> IsStaged(index, x) && SchemaKey(x.fileType) in order
  {
    if order != [] {
      var k := order[0];
      StagedExact(index, order[1..], x);
      assert order == [k] + order[1..];
      if SchemaPath(k) {
        KeyOfSchema(k);
      }
      SchemaKeyOf(x.fileType);
    }
  }

  lemma {:induction false} RunSchemasExact(xs: seq<Staged>, rows: seq<Row>, p: Reprobe, out: Row)
    requires p.Pass?
    ensures RunSchemas(xs, rows, p).result.Err? <==> exists x :: x in xs && p.changed(x).Err?
    ensures RunSchemas(xs, rows, p).result.Ok? ==>
              (out in RunSchemas(xs, rows, p).rows <==> exists x ::
               x in xs && p.changed(x) == Ok(true) && out in RebuildRows(rows, x, p))
    decreases |xs|
  {
    if xs != [] {
      var n := |xs| - 1;
      assert xs == xs[..n] + [xs[n]];
      RunSchemasExact(xs[..n], rows, p, out);
      assert forall x :: x in xs <==> x in xs[..n] || x == xs[n];
    }
  }

  /** The whole pass fails exactly when schemas are staged and it cannot be set up, or one of them does not parse. */
  lemma PassFailsIff(st: State, p: Reprobe)
    requires Visits(st, p)
    ensures AutoReprobe(st, p).result.Err? <==>
            && p.Pass?
            && (exists x :: IsStaged(st.index, x))
            && (p.setup.Err? || exists x :: IsStaged(st.index, x) && p.changed(x).Err?)
  {
    if p.Pass? {
      var xs := StagedSchemas(st.index, p.order);
      forall x ensures x in xs <==> IsStaged(st.index, x) {
        StagedExact(st.index, p.order, x);
      }
      assert xs != [] <==> exists x :: x in xs by {
        if xs != [] {
          assert xs[0] in xs;
        }
      }
      RunSchemasExact(xs, HeadRows(st), p, Row("", EMPTY));
    }
  }

  /**
   The manifest `o` at `path` is rebuilt to `h`: a changed schema for its file type is
   staged, it was not made under that schema, its source is not chunked, and `reprobe_one`
   succeeds.
   */
  ghost predicate RebuiltTo(index: Index, p: Reprobe, path: string, o: Object, h: Hash)
    requires p.Pass?
  {
    && o.ManifestObj?
    && var k := SchemaKey(o.details.fileType);
    && SchemaPath(k) && k in index && index[k].StageUpsert?
    && var x := Staged(o.details.fileType, index[k].hash);
    && p.changed(x) == Ok(true)
    && o.details.schema != x.hash
    && o.source.obj.BlobObj?
    && p.rebuild(path, o, x).Some?
    && h == Digest(RebuiltManifest(o, x, p.rebuild(path, o, x).value))
  }

  /** HEAD shows such a manifest at `path`. */
  ghost predicate Rebuilds(st: State, p: Reprobe, path: string, h: Hash) {
    && p.Pass? && HeadRoot(st).Ok? && HeadRoot(st).value.Some?
    && Split(path).Ok? && Join(Split(path).value) == path
    && var leaf := Leaf(Entry(Tree, HeadRoot(st).value.value), Split(path).value);
    leaf.Some? && leaf.value.mode == Manifest && RebuiltTo(st.index, p, path, leaf.value.hash.obj, h)
  }

  lemma {:induction false} RebuildRowsExact(rows: seq<Row>, x: Staged, p: Reprobe, out: Row)
    requires p.Pass?
    ensures out in RebuildRows(rows, x, p) <==> exists row :: row in rows && out in RebuildRow(row, x, p)
    decreases |rows|
  {
    if rows != [] {
      var n := |rows| - 1;
      assert rows == rows[..n] + [rows[n]];
      RebuildRowsExact(rows[..n], x, p, out);
      assert rows[n] in rows;
    }
  }

  /** A row is rebuilt for some changed staged schema exactly when it is for the one of its file type. */
  lemma RowRebuilt(index: Index, p: Reprobe, row: Row, e: Entry)
    requires p.Pass?
    ensures (exists x ::
             IsStaged(index, x) && p.changed(x) == Ok(true) && Row(row.path, e) in RebuildRow(row, x, p)) <==>
            e.mode == Manifest && row.entry.mode == Manifest
                && RebuiltTo(index, p, row.path, row.entry.hash.obj, e.hash)
  {
    var o := row.entry.hash.obj;
    if e.mode == Manifest && row.entry.mode == Manifest && RebuiltTo(index, p, row.path, o, e.hash) {
      var x := Staged(o.details.fileType, index[SchemaKey(o.details.fileType)].hash);
      assert IsStaged(index, x) && p.changed(x) == Ok(true) && Row(row.path, e) in RebuildRow(row, x, p);
    }
  }

  /** The rebuilt rows are those of the manifests in HEAD that the pass rebuilds. */
  lemma RebuiltExact(st: State, p: Reprobe, path: string, e: Entry)
    requires Inv(st) && Visits(st, p) && AutoReprobe(st, p).result.Ok?
    ensures Row(path, e) in Rebuilt(st, p) <==> e.mode == Manifest && Rebuilds(st, p, path, e.hash)
  {
    HeadRootGood(st);
    if p.Pass? {
      RebuiltStaged(st, p, path, e);
      if HeadRoot(st).value.Some? {
        LeafRebuilt(st, Entry(Tree, HeadRoot(st).value.value), p, path, e);
      }
    }
  }

  /** Some row of HEAD is rebuilt to this one for some changed staged schema. */
  ghost predicate FromRow(index: Index, rows: seq<Row>, p: Reprobe, out: Row)
    requires p.Pass?
  {
    exists row, x :: row in rows && IsStaged(index, x) && p.changed(x) == Ok(true) && out in RebuildRow(row, x, p)
  }

  lemma RebuiltStaged(st: State, p: Reprobe, path: string, e: Entry)
    requires p.Pass? && Visits(st, p) && AutoReprobe(st, p).result.Ok?
    ensures Row(path, e) in Rebuilt(st, p) <==> FromRow(st.index, HeadRows(st), p, Row(path, e))
  {
    var xs, rows := StagedSchemas(st.index, p.order), HeadRows(st);
    RunSchemasExact(xs, rows, p, Row(path, e));
    forall x ensures x in xs <==> IsStaged(st.index, x) {
      StagedExact(st.index, p.order, x);
    }
    forall x
      ensures Row(path, e) in RebuildRows(rows, x, p) <==> exists row ::
              row in rows && Row(path, e) in RebuildRow(row, x, p)
    {
      RebuildRowsExact(rows, x, p, Row(path, e));
    }
  }

  lemma LeafRebuilt(st: State, tree: Entry, p: Reprobe, path: string, e: Entry)
    requires p.Pass? && Canonical(tree) && tree.mode == Tree && HeadRoot(st) == Ok(Some(tree.hash))
    ensures FromRow(st.index, Rows([], List(tree)), p, Row(path, e)) <==>
            e.mode == Manifest && Rebuilds(st, p, path, e.hash)
  {
    assert tree == Entry(Tree, tree.hash);
    if FromRow(st.index, Rows([], List(tree)), p, Row(path, e)) {
      RowToLeaf(st.index, tree, p, path, e);
    }
    if e.mode == Manifest && Rebuilds(st, p, path, e.hash) {
      LeafToRow(st.index, tree, p, path, e);
    }
  }

  lemma RowToLeaf(index: Index, tree: Entry, p: Reprobe, path: string, e: Entry)
    requires p.Pass? && Canonical(tree) && FromRow(index, Rows([], List(tree)), p, Row(path, e))
    ensures e.mode == Manifest && Split(path).Ok? && Join(Split(path).value) == path
    ensures var leaf := Leaf(tree, Split(path).value);
            leaf.Some? && leaf.value.mode == Manifest && RebuiltTo(index, p, path, leaf.value.hash.obj, e.hash)
  {
    var row, x :| row in Rows([], List(tree)) && IsStaged(index, x) && p.changed(x) == Ok(true)
        && Row(path, e) in RebuildRow(row, x, p);
    RowLeaf(tree, row);
    RowRebuilt(index, p, row, e);
  }

  lemma LeafToRow(index: Index, tree: Entry, p: Reprobe, path: string, e: Entry)
    requires p.Pass? && Canonical(tree) && e.mode == Manifest && Split(path).Ok? && Join(Split(path).value) == path
    requires var leaf := Leaf(tree, Split(path).value);
             leaf.Some? && leaf.value.mode == Manifest && RebuiltTo(index, p, path, leaf.value.hash.obj, e.hash)
    ensures FromRow(index, Rows([], List(tree)), p, Row(path, e))
  {
    LeafRow(tree, path);
    var row := Row(path, Leaf(tree, Split(path).value).value);
    RowRebuilt(index, p, row, e);
    var x :| IsStaged(index, x) && p.changed(x) == Ok(true) && Row(row.path, e) in RebuildRow(row, x, p);
  }

  lemma RowLeaf(tree: Entry, row: Row)
    requires Canonical(tree) && row in Rows([], List(tree))
    ensures Split(row.path).Ok? && Join(Split(row.path).value) == row.path
            && Leaf(tree, Split(row.path).value) == Some(row.entry)
  {
    var p := RowPath(tree, row);
    SplitJoin(p);
    Diff.RowIsLeaf(tree, p, row.entry);
  }

  lemma LeafRow(tree: Entry, path: string)
    requires Canonical(tree) && Split(path).Ok? && Join(Split(path).value) == path
             && Leaf(tree, Split(path).value).Some?
    ensures Row(path, Leaf(tree, Split(path).value).value) in Rows([], List(tree))
  {
    var p := Split(path).value;
    LeafPrintable(tree, p);
    Diff.RowIsLeaf(tree, p, Leaf(tree, p).value);
  }

  lemma RowPath(tree: Entry, row: Row) returns (p: Path)
    requires Canonical(tree) && row in Rows([], List(tree))
    ensures Components(p) && row.path == Join(p)
  {
    var items := List(tree);
    var i :| 0 <= i < |items| && Rows([], items)[i] == row;
    p := items[i].path;
    assert [] + p == p && items[i] in items;
    ListExact(tree, items[i]);
    LeafPrintable(tree, p);
  }

  lemma {:induction false} MergeExact(index: Index, rows: seq<Row>, k: string)
    ensures k in Merge(index, rows) <==> k in index || exists e :: Row(k, e) in rows
    ensures (forall e :: Row(k, e) !in rows) && k in index ==> Merge(index, rows)[k] == index[k]
    ensures (exists e :: Row(k, e) in rows) ==> exists e ::
            Row(k, e) in rows && Merge(index, rows)[k] == StageUpsert(e.hash)
  {
    if rows != [] {
      var n := |rows| - 1;
      assert rows == rows[..n] + [rows[n]];
      MergeExact(index, rows[..n], k);
      assert rows[n] == Row(rows[n].path, rows[n].entry) && rows[n] in rows;
      assert forall e :: Row(k, e) in rows <==> Row(k, e) in rows[..n] || Row(k, e) == rows[n];
    }
  }

  /** A commit carries out a staged change as it is, unless the manifest at its path is rebuilt. */
  lemma MergedAt(st: State, reprobe: Reprobe, k: string)
    requires Inv(st) && Visits(st, reprobe) && AutoReprobe(st, reprobe).result.Ok?
    ensures k in Merged(st, reprobe) <==> k in st.index || exists h :: Rebuilds(st, reprobe, k, h)
    ensures k in st.index && (forall h :: !Rebuilds(st, reprobe, k, h)) ==> Merged(st, reprobe)[k] == st.index[k]
    ensures forall h | Rebuilds(st, reprobe, k, h) :: Merged(st, reprobe)[k] == StageUpsert(h)
  {
    var rows := Rebuilt(st, reprobe);
    MergeExact(st.index, rows, k);
    forall e ensures Row(k, e) in rows <==> e.mode == Manifest && Rebuilds(st, reprobe, k, e.hash) {
      RebuiltExact(st, reprobe, k, e);
    }
    forall h | Rebuilds(st, reprobe, k, h) ensures Row(k, Entry(Manifest, h)) in rows {
      RebuiltExact(st, reprobe, k, Entry(Manifest, h));
    }
  }

  /**
   What was staged at `k` shows in the new commit exactly when the manifest there is not
   rebuilt, or is rebuilt to what was staged. So a staged deletion or edit of a
   manifest that is rebuilt is lost.
   */
  lemma StagedShows(st: State, order: seq<string>, reprobe: Reprobe, k: string)
    requires Inv(st) && CompatibleIndex(Merged(st, reprobe)) && Iterates(order, Merged(st, reprobe)) && k in st.index
    requires HeadRoot(st).Ok? && Visits(st, reprobe) && CommitRun(st, order, reprobe).Ok?
    ensures LeafOpt(CommitRun(st, order, reprobe).value, PathOf(k)) == ChangeLeaf(k, st.index[k])
            <==> forall h | Rebuilds(st, reprobe, k, h) :: st.index[k] == StageUpsert(h)
  {
    MergedAt(st, reprobe, k);
    ChangeShows(st, order, reprobe, k);
    if h :| Rebuilds(st, reprobe, k, h) {
      StagedIsStageable(st, k);
      SameChange(k, st.index[k], h);
    }
  }

  lemma StagedIsStageable(st: State, k: string)
    requires Inv(st) && k in st.index
    ensures st.index[k].StageUpsert? ==> Stageable(st.index[k].hash.obj)
  {
    assert StagedOk(st.objects, k, st.index[k]);
  }

  lemma SameChange(k: string, c: Change, h: Hash)
    requires h.obj.ManifestObj? && (c.StageUpsert? ==> Stageable(c.hash.obj))
    ensures ChangeLeaf(k, StageUpsert(h)) == ChangeLeaf(k, c) <==> c == StageUpsert(h)
  {
  }

  lemma ChangeShows(st: State, order: seq<string>, reprobe: Reprobe, k: string)
    requires Inv(st) && CompatibleIndex(Merged(st, reprobe)) && Iterates(order, Merged(st, reprobe))
             && k in Merged(st, reprobe)
    requires HeadRoot(st).Ok? && CommitRun(st, order, reprobe).Ok?
    ensures LeafOpt(CommitRun(st, order, reprobe).value, PathOf(k)) == ChangeLeaf(k, Merged(st, reprobe)[k])
  {
    CommitEdits(st, order, reprobe);
    IndexShows(AsEntry(HeadRoot(st).value), Merged(st, reprobe), order, k);
  }

  function PathOf(k: string): Path {
    if Split(k).Ok? then Split(k).value else []
  }
}
