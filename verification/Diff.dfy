/**
 `diff` between two trees (crates/omp-core/src/api.rs:1801-1852): it compares
 the hashes of two flat listings and ignores the modes.
 */
module Diff {
  import opened Objects
  import opened Order
  import opened Paths
  import opened Walk
  import opened StorePaths

  datatype Status = Added | Removed | Modified

  datatype DiffEntry = DiffEntry(path: string, status: Status, before: Option<Hash>, after: Option<Hash>)

  type FlatListing = map<string, Entry>

  function HashAt(m: FlatListing, p: string): Option<Hash> {
    if p in m then Some(m[p].hash) else None
  }

  /** The status of one path; an unchanged path gives no entry. */
  function Compare(p: string, before: Option<Hash>, after: Option<Hash>): seq<DiffEntry> {
    if before == after then []
    else [DiffEntry(p, if before.None? then Added else if after.None? then Removed else Modified, before, after)]
  }

  /** The diff over the given paths, restricted to those that start with the filter. */
  function Changes(a: FlatListing, b: FlatListing, names: seq<string>, filter: string): seq<DiffEntry> {
    if names == [] then []
    else
      var n := |names| - 1;
      Changes(a, b, names[..n], filter)
      + if filter <= names[n] then Compare(names[n], HashAt(a, names[n]), HashAt(b, names[n])) else []
  }

  /** The paths that `diff` visits: those of either listing, in ascending order. */
  ghost predicate Visits(names: seq<string>, a: FlatListing, b: FlatListing) {
    Ascending(names) && forall p :: p in names <==> p in a || p in b
  }

  /** The loop of `diff` over the paths of either listing; an absent filter is the empty prefix. */
  method DiffListings(a: FlatListing, b: FlatListing, names: seq<string>, filter: string) returns (out: seq<DiffEntry>)
    ensures out == Changes(a, b, names, filter)
  {
    out := [];
    for i := 0 to |names|
      invariant out == Changes(a, b, names[..i], filter)
    {
      var p := names[i];
      assert names[..i + 1][..i] == names[..i];
      if !(filter <= p) {
        continue;
      }
      out := out + Compare(p, HashAt(a, p), HashAt(b, p));
    }
    assert names[..|names|] == names;
  }

  /** What applying a diff to a listing leaves at a path: the last entry for it wins. */
  function Patched(a: FlatListing, d: seq<DiffEntry>, p: string): Option<Hash> {
    if d == [] then HashAt(a, p)
    else if d[|d| - 1].path == p then d[|d| - 1].after
    else Patched(a, d[..|d| - 1], p)
  }

  lemma {:induction false} PatchedChanges(a: FlatListing, b: FlatListing, names: seq<string>, filter: string, p: string)
    requires Ascending(names)
    ensures Patched(a, Changes(a, b, names, filter), p) ==
            if p in names && filter <= p then HashAt(b, p) else HashAt(a, p)
  {
    if names != [] {
      var n := |names| - 1;
      var init, x := names[..n], names[n];
      assert names == init + [x];
      PatchedChanges(a, b, init, filter, p);
      assert x !in init by {
        LessTrichotomy(x, x);
      }
      var d, rest := Changes(a, b, names, filter), Changes(a, b, init, filter);
      if d != rest {
        assert d[..|d| - 1] == rest;
      }
    }
  }

  /** The entry of a path that is in one listing only, or in both with different hashes. */
  ghost predicate Differs(a: FlatListing, b: FlatListing, e: DiffEntry) {
    || (e.path !in a && e.path in b && e.status == Added && e.before == None && e.after == Some(b[e.path].hash))
    || (e.path in a && e.path !in b && e.status == Removed && e.before == Some(a[e.path].hash) && e.after == None)
    || (e.path in a && e.path in b && a[e.path].hash != b[e.path].hash
        && e.status == Modified && e.before == Some(a[e.path].hash) && e.after == Some(b[e.path].hash))
  }

  lemma CompareExact(a: FlatListing, b: FlatListing, p: string, e: DiffEntry)
    ensures var d := Compare(p, HashAt(a, p), HashAt(b, p));
            && (e in d <==> e.path == p && Differs(a, b, e))
            && |d| <= 1 && forall i | 0 <= i < |d| :: d[i].path == p
  {
  }

  /** A diff holds exactly these entries, of the paths under the filter. */
  lemma {:induction false} DiffEntries(a: FlatListing, b: FlatListing, names: seq<string>, filter: string, e: DiffEntry)
    ensures e in Changes(a, b, names, filter) <==> e.path in names && filter <= e.path && Differs(a, b, e)
  {
    if names != [] {
      var n := |names| - 1;
      assert names == names[..n] + [names[n]];
      DiffEntries(a, b, names[..n], filter, e);
      CompareExact(a, b, names[n], e);
    }
  }

  /** Its entries are in ascending order of their paths, one to a path. */
  lemma {:induction false} DiffAscends(a: FlatListing, b: FlatListing, names: seq<string>, filter: string)
    requires Ascending(names)
    ensures forall i, j | 0 <= i < j < |Changes(a, b, names, filter)| ::
              Less(Changes(a, b, names, filter)[i].path, Changes(a, b, names, filter)[j].path)
  {
    if names != [] {
      var n := |names| - 1;
      DiffAscends(a, b, names[..n], filter);
      forall e | e in Changes(a, b, names[..n], filter) ensures Less(e.path, names[n]) {
        DiffEntries(a, b, names[..n], filter, e);
      }
      var d := Compare(names[n], HashAt(a, names[n]), HashAt(b, names[n]));
      assert |d| <= 1 && forall i | 0 <= i < |d| :: d[i].path == names[n];
    }
  }

  /** The mode that the type of an object fixes. */
  function EntryOf(h: Option<Hash>): Option<Entry> {
    match h
    case None => None
    case Some(x) => if StoredMode(x.obj).Ok? then Some(Entry(StoredMode(x.obj).value, x)) else None
  }

  function EntryAt(m: FlatListing, p: string): Option<Entry> {
    if p in m then Some(m[p]) else None
  }

  ghost predicate Typed(m: FlatListing) {
    forall p | p in m :: StoredMode(m[p].hash.obj) == Ok(m[p].mode)
  }

  /**
   Patching the `from` listing with the unfiltered diff gives the `to` listing, hashes and, as
   types fix them, modes.
   */
  lemma DiffPatches(a: FlatListing, b: FlatListing, names: seq<string>, p: string)
    requires Visits(names, a, b)
    ensures Patched(a, Changes(a, b, names, ""), p) == HashAt(b, p)
    ensures Typed(b) ==> EntryOf(Patched(a, Changes(a, b, names, ""), p)) == EntryAt(b, p)
  {
    PatchedChanges(a, b, names, "", p);
  }

  lemma {:induction false} NoChanges(a: FlatListing, b: FlatListing, names: seq<string>)
    ensures Changes(a, b, names, "") == [] <==> forall p | p in names :: HashAt(a, p) == HashAt(b, p)
  {
    if names != [] {
      var n := |names| - 1;
      assert names == names[..n] + [names[n]];
      NoChanges(a, b, names[..n]);
      assert forall p :: p in names <==> p in names[..n] || p == names[n];
    }
  }

  // ---- The listing of a tree ----

  /** `walk` collected into a map. */
  function Collect(rows: seq<Row>): FlatListing {
    if rows == [] then map[] else Collect(rows[..|rows| - 1])[rows[|rows| - 1].path := rows[|rows| - 1].entry]
  }

  function ListingOf(root: Hash): FlatListing {
    Collect(Rows([], List(Entry(Tree, root))))
  }

  lemma {:induction false} CollectExact(rows: seq<Row>, p: string)
    requires forall i, j | 0 <= i < j < |rows| :: rows[i].path != rows[j].path
    ensures p in Collect(rows) ==> Row(p, Collect(rows)[p]) in rows
    ensures forall e | Row(p, e) in rows :: p in Collect(rows) && Collect(rows)[p] == e
  {
    if rows != [] {
      assert rows == rows[..|rows| - 1] + [rows[|rows| - 1]];
      CollectExact(rows[..|rows| - 1], p);
    }
  }

  lemma {:induction false} LeafComponents(e: Entry, p: Path)
    requires Canonical(e) && Leaf(e, p).Some?
    ensures Components(p)
    decreases |p|
  {
    if p != [] {
      LeafComponents(Children(e)[p[0]], p[1..]);
      assert forall i | 0 < i < |p| :: p[i] == p[1..][i - 1];
    }
  }

  lemma RowsDistinct(e: Entry)
    requires Canonical(e)
    ensures forall i, j | 0 <= i < j < |List(e)| :: Rows([], List(e))[i].path != Rows([], List(e))[j].path
  {
    var items := List(e);
    ListInOrder(e);
    forall i, j | 0 <= i < j < |items| ensures Join([] + items[i].path) != Join([] + items[j].path) {
      ListExact(e, items[i]);
      ListExact(e, items[j]);
      LeafComponents(e, items[i].path);
      LeafComponents(e, items[j].path);
      PathLessIrreflexive(items[i].path, items[j].path);
      SplitJoin(items[i].path);
      SplitJoin(items[j].path);
      assert [] + items[i].path == items[i].path && [] + items[j].path == items[j].path;
    }
  }

  lemma RowIsLeaf(e: Entry, p: Path, x: Entry)
    requires Canonical(e) && Components(p)
    ensures Row(Join(p), x) in Rows([], List(e)) <==> Leaf(e, p) == Some(x)
  {
    ListExact(e, Item(p, x));
    if Row(Join(p), x) in Rows([], List(e)) {
      RowItem(e, p, x);
    }
    if Item(p, x) in List(e) {
      ItemRow(List(e), p, x);
    }
  }

  lemma ItemRow(items: seq<Item>, p: Path, x: Entry)
    requires Item(p, x) in items
    ensures Row(Join(p), x) in Rows([], items)
  {
    var i :| 0 <= i < |items| && items[i] == Item(p, x);
    assert Rows([], items)[i] == Row(Join([] + p), x) && [] + p == p;
  }

  lemma RowItem(e: Entry, p: Path, x: Entry)
    requires Canonical(e) && Components(p) && Row(Join(p), x) in Rows([], List(e))
    ensures Item(p, x) in List(e)
  {
    var items := List(e);
    var i :| 0 <= i < |items| && Rows([], items)[i] == Row(Join(p), x);
    var q := items[i].path;
    assert [] + q == q && items[i] in items;
    ListExact(e, items[i]);
    LeafComponents(e, q);
    SplitJoin(q);
    SplitJoin(p);
  }

  /** The listing of a canonical tree is its flat view, with joined paths as keys. */
  lemma ListingIsLeaf(root: Hash, p: Path)
    requires Canonical(Entry(Tree, root)) && Components(p)
    ensures Leaf(Entry(Tree, root), p) == if Join(p) in ListingOf(root) then Some(ListingOf(root)[Join(p)]) else None
  {
    var e := Entry(Tree, root);
    RowsDistinct(e);
    CollectExact(Rows([], List(e)), Join(p));
    if Leaf(e, p).Some? {
      RowIsLeaf(e, p, Leaf(e, p).value);
    }
    if Join(p) in ListingOf(root) {
      RowIsLeaf(e, p, ListingOf(root)[Join(p)]);
    }
  }

  ghost predicate TypedLeaves(e: Entry) {
    forall p | Leaf(e, p).Some? :: StoredMode(Leaf(e, p).value.hash.obj) == Ok(Leaf(e, p).value.mode)
  }

  /** In a sound store the type of an object fixes the mode of every leaf. */
  lemma {:induction false} SoundLeaf(s: Objects, e: Entry, p: Path)
    requires SoundStore(s) && e.hash in s && StoredMode(e.hash.obj) == Ok(e.mode) && Leaf(e, p).Some?
    ensures Leaf(e, p).value.hash in s && StoredMode(Leaf(e, p).value.hash.obj) == Ok(Leaf(e, p).value.mode)
    decreases |p|
  {
    if p != [] {
      assert Sound(s, e.hash.obj);
      SoundLeaf(s, Children(e)[p[0]], p[1..]);
    }
  }

  /**
   Diff soundness: although it looks only at hashes, the diff of two commits'
   trees is empty exactly when the two root hashes are equal.
   */
  lemma DiffEmpty(a: Hash, b: Hash, names: seq<string>)
    requires Visits(names, ListingOf(a), ListingOf(b))
    requires Canonical(Entry(Tree, a)) && Canonical(Entry(Tree, b))
    requires TypedLeaves(Entry(Tree, a)) && TypedLeaves(Entry(Tree, b))
    ensures Changes(ListingOf(a), ListingOf(b), names, "") == [] <==> a == b
  {
    var la, lb, ea, eb := ListingOf(a), ListingOf(b), Entry(Tree, a), Entry(Tree, b);
    NoChanges(la, lb, names);
    if forall p | p in names :: HashAt(la, p) == HashAt(lb, p) {
      forall q ensures Leaf(ea, q) == Leaf(eb, q) {
        SameLeaf(a, b, names, q);
      }
      CanonicalUnique(ea, eb);
    }
  }

  lemma SameLeaf(a: Hash, b: Hash, names: seq<string>, q: Path)
    requires Visits(names, ListingOf(a), ListingOf(b)) && forall p | p in names ::
             HashAt(ListingOf(a), p) == HashAt(ListingOf(b), p)
    requires Canonical(Entry(Tree, a)) && Canonical(Entry(Tree, b))
    requires TypedLeaves(Entry(Tree, a)) && TypedLeaves(Entry(Tree, b))
    ensures Leaf(Entry(Tree, a), q) == Leaf(Entry(Tree, b), q)
  {
    var ea, eb := Entry(Tree, a), Entry(Tree, b);
    if Leaf(ea, q).Some? || Leaf(eb, q).Some? {
      if Leaf(ea, q).Some? {
        LeafComponents(ea, q);
      } else {
        LeafComponents(eb, q);
      }
      ListingIsLeaf(a, q);
      ListingIsLeaf(b, q);
      assert Join(q) in names;
    }
  }

  /** The same for any two commits of a sound store. */
  lemma DiffOfCommits(s: Objects, a: Hash, b: Hash, names: seq<string>)
    requires SoundStore(s) && a in s && s[a].CommitObj? && b in s && s[b].CommitObj?
    requires Visits(names, ListingOf(s[a].tree), ListingOf(s[b].tree))
    ensures Changes(ListingOf(s[a].tree), ListingOf(s[b].tree), names, "") == [] <==> s[a].tree == s[b].tree
  {
    CommitLeaves(s, a);
    CommitLeaves(s, b);
    DiffEmpty(s[a].tree, s[b].tree, names);
  }

  lemma CommitLeaves(s: Objects, c: Hash)
    requires SoundStore(s) && c in s && s[c].CommitObj?
    ensures Canonical(Entry(Tree, s[c].tree)) && TypedLeaves(Entry(Tree, s[c].tree))
  {
    assert Sound(s, s[c]);
    var e := Entry(Tree, s[c].tree);
    forall p | Leaf(e, p).Some? ensures StoredMode(Leaf(e, p).value.hash.obj) == Ok(Leaf(e, p).value.mode) {
      SoundLeaf(s, e, p);
    }
  }

  /** The listing of a commit of a sound store holds stored objects, and the type of each fixes its mode. */
  lemma ListingStored(s: Objects, c: Hash, p: string)
    requires SoundStore(s) && c in s && s[c].CommitObj? && p in ListingOf(s[c].tree)
    ensures var e := ListingOf(s[c].tree)[p]; e.hash in s && StoredMode(e.hash.obj) == Ok(e.mode)
  {
    assert Sound(s, s[c]);
    var e, l := Entry(Tree, s[c].tree), ListingOf(s[c].tree);
    var items := List(e);
    RowsDistinct(e);
    CollectExact(Rows([], items), p);
    var i :| 0 <= i < |items| && Rows([], items)[i] == Row(p, l[p]);
    assert items[i] in items;
    ListExact(e, items[i]);
    SoundLeaf(s, e, items[i].path);
  }

  /** The listing of a commit of a sound store is typed. */
  lemma ListingTyped(s: Objects, c: Hash)
    requires SoundStore(s) && c in s && s[c].CommitObj?
    ensures Typed(ListingOf(s[c].tree))
  {
    forall p | p in ListingOf(s[c].tree)
      ensures var e := ListingOf(s[c].tree)[p]; StoredMode(e.hash.obj) == Ok(e.mode)
    {
      ListingStored(s, c, p);
    }
  }
}
