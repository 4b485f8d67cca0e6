/**
 The grow-only object store and the store-backed path operations of
 crates/omp-core/src/paths.rs: each loads the trees it passes through, changes
 the loaded copy and stores it, and each is proved to compute what the function
 of the same name in Paths computes on the root entry.
 */
module StorePaths {
  import opened Objects
  import opened Order
  import opened Paths
  import opened Walk
  import opened Writes

  ghost predicate Grows(s: Objects, s': Objects) {
    forall h | h in s :: h in s' && s'[h] == s[h]
  }

  /** The object points only to stored objects, each of the type it is used as. */
  ghost predicate Sound(s: Objects, o: Object) {
    match o
    case TreeObj(m) => forall n | n in m :: m[n].hash in s && StoredMode(m[n].hash.obj) == Ok(m[n].mode)
    case ManifestObj(source, _) => source in s && (source.obj.BlobObj? || source.obj.ChunksObj?)
    case ChunksObj(cs) => forall i | 0 <= i < |cs| :: cs[i].hash in s && cs[i].hash.obj.BlobObj?
    case CommitObj(tree, parents, _) =>
      && tree in s
      && Canonical(Entry(Tree, tree))
      && forall i | 0 <= i < |parents| :: parents[i] in s && parents[i].obj.CommitObj?
    case _ => true
  }

  ghost predicate SoundStore(s: Objects) {
    Addressed(s) && forall h {:trigger Sound(s, s[h])} | h in s :: Sound(s, s[h])
  }

  lemma SoundPut(s: Objects, o: Object)
    requires SoundStore(s) && Sound(s, o)
    ensures SoundStore(s[Digest(o) := o])
  {
    var s' := s[Digest(o) := o];
    forall h | h in s' ensures Sound(s', s'[h]) {
      if h != Digest(o) {
        assert Sound(s, s[h]);
      }
    }
  }

  /** `load_tree`: what reading a tree object gives. */
  function Load(s: Objects, h: Hash): Result<map<string, Entry>> {
    if h !in s then Err(NotFound)
    else if !s[h].TreeObj? then Err(Corrupt)
    else if exists n | n in s[h].entries :: !GoodName(n) then Err(Corrupt)
    else Ok(s[h].entries)
  }

  /** Every directory under the entry can be loaded. */
  ghost predicate Readable(s: Objects, e: Entry) {
    e.mode == Tree ==>
      && e.hash in s
      && e.hash.obj.TreeObj?
      && forall n | n in e.hash.obj.entries :: GoodName(n) && Readable(s, e.hash.obj.entries[n])
  }

  ghost predicate ReadableRoot(s: Objects, cur: Option<Hash>) {
    cur.Some? ==> Readable(s, Entry(Tree, cur.value))
  }

  function RootEntry(cur: Option<Hash>): Entry {
    if cur.Some? then Entry(Tree, cur.value) else EMPTY
  }

  lemma {:induction false} SoundReadable(s: Objects, e: Entry)
    requires SoundStore(s) && e.hash in s && Canonical(e)
    ensures Readable(s, e)
  {
    if e.mode == Tree {
      forall n | n in e.hash.obj.entries ensures Readable(s, e.hash.obj.entries[n]) {
        assert Sound(s, e.hash.obj);
        SoundReadable(s, e.hash.obj.entries[n]);
      }
    }
  }

  /** `get_at` read off an arbitrary store, missing and corrupt objects included. */
  function FindIn(s: Objects, e: Entry, p: Path): Result<Option<Entry>>
    decreases |p|
  {
    if p == [] then Ok(Some(e))
    else if e.mode != Tree then Ok(None)
    else
      var m :- Load(s, e.hash);
      if p[0] !in m then Ok(None) else FindIn(s, m[p[0]], p[1..])
  }

  lemma {:induction false} FindInReadable(s: Objects, e: Entry, p: Path)
    requires Addressed(s) && Readable(s, e)
    ensures FindIn(s, e, p) == Ok(Find(e, p))
    decreases |p|
  {
    if p != [] && p[0] in Children(e) {
      FindInReadable(s, Children(e)[p[0]], p[1..]);
    }
  }

  /** The error at which a walk of the entry stops, if any: that of the first directory it cannot load. */
  function Fault(s: Objects, e: Entry): Option<Error>
    decreases e
  {
    if e.mode != Tree then None
    else if e.hash !in s then Some(NotFound)
    else if !e.hash.obj.TreeObj? || exists n | n in e.hash.obj.entries :: !GoodName(n) then Some(Corrupt)
    else FaultAmong(s, e, Listing(Children(e).Keys))
  }

  function FaultAmong(s: Objects, e: Entry, names: seq<string>): Option<Error>
    requires forall n | n in names :: n in Children(e)
    decreases e, |names|
  {
    if names == [] then None
    else
      var first := Fault(s, Children(e)[names[0]]);
      if first.Some? then first else FaultAmong(s, e, names[1..])
  }

  lemma {:induction false} FaultIff(s: Objects, e: Entry)
    ensures Fault(s, e).None? <==> Readable(s, e)
    decreases e
  {
    if e.mode == Tree && e.hash in s && e.hash.obj.TreeObj? && forall n | n in e.hash.obj.entries :: GoodName(n) {
      FaultAmongIff(s, e, Listing(Children(e).Keys));
    }
  }

  lemma {:induction false} FaultAmongIff(s: Objects, e: Entry, names: seq<string>)
    requires forall n | n in names :: n in Children(e)
    ensures FaultAmong(s, e, names).None? <==> forall n | n in names :: Readable(s, Children(e)[n])
    decreases e, |names|
  {
    if names != [] {
      FaultIff(s, Children(e)[names[0]]);
      FaultAmongIff(s, e, names[1..]);
      assert forall n :: n in names <==> n == names[0] || n in names[1..];
    }
  }

  /** A row of `walk`: the joined path and the leaf. */
  datatype Row = Row(path: string, entry: Entry)

  function Rows(at: Path, items: seq<Item>): seq<Row> {
    seq(|items|, i requires 0 <= i < |items| => Row(Join(at + items[i].path), items[i].entry))
  }

  lemma {:induction false} JoinSnoc(at: Path, n: string)
    requires Components(at)
    ensures Join(at + [n]) == if Join(at) == "" then n else Join(at) + "/" + n
  {
    if |at| == 1 {
      assert at + [n] == [at[0]] + [n];
      JoinCons(at[0], [n]);
    } else if at != [] {
      var rest := at[1..];
      assert at + [n] == [at[0]] + (rest + [n]) && at == [at[0]] + rest && Components(rest);
      JoinSnoc(rest, n);
      JoinPieces(rest);
      JoinCons(at[0], rest);
      JoinCons(at[0], rest + [n]);
    }
  }

  lemma JoinCons(a: string, p: Path)
    requires p != [] && Component(a)
    ensures Join([a] + p) == a + "/" + Join(p) && Join([a]) != ""
  {
    assert ([a] + p)[1..] == p;
  }

  /** What a walk appends to `out`, or the error it stops at. */
  function Outcome(fault: Option<Error>, out: seq<Row>, rows: seq<Row>): Result<seq<Row>> {
    if fault.Some? then Err(fault.value) else Ok(out + rows)
  }

  /** `walk` on any store: the rows of the tree, or the error. */
  function WalkIn(s: Objects, root: Hash): Result<seq<Row>> {
    Outcome(Fault(s, Entry(Tree, root)), [], Rows([], List(Entry(Tree, root))))
  }

  lemma WalkInReadable(s: Objects, root: Hash)
    requires Readable(s, Entry(Tree, root))
    ensures WalkIn(s, root) == Ok(Rows([], List(Entry(Tree, root))))
  {
    FaultIff(s, Entry(Tree, root));
    assert [] + Rows([], List(Entry(Tree, root))) == Rows([], List(Entry(Tree, root)));
  }

  ghost function RowsFrom(at: Path, e: Entry, names: seq<string>): seq<Row>
    requires forall n | n in names :: n in Children(e)
  {
    Rows(at, ListNames(e, names))
  }

  lemma RowsFromStep(at: Path, e: Entry, names: seq<string>, i: nat)
    requires i < |names| && forall n | n in names :: n in Children(e)
    ensures RowsFrom(at, e, names[i..]) ==
            Rows(at + [names[i]], List(Children(e)[names[i]])) + RowsFrom(at, e, names[i + 1..])
  {
    var n := names[i];
    var sub := List(Children(e)[n]);
    assert names[i..][0] == n && names[i..][1..] == names[i + 1..];
    assert forall i | 0 <= i < |sub| :: at + ([n] + sub[i].path) == at + [n] + sub[i].path;
  }

  class ObjectStore {
    var objects: Objects

    ghost predicate Valid()
      reads this
    {
      Addressed(objects)
    }

    constructor ()
      ensures Valid() && objects == map[]
    {
      objects := map[];
    }

    /** Content-addressed: a second `put` of the same object changes nothing. */
    method Put(o: Object) returns (h: Hash)
      requires Valid()
      modifies this
      ensures Valid() && h == Digest(o) && objects == StoreAll(old(objects), [h]) && h in objects
      ensures Grows(old(objects), objects)
      ensures old(h in objects) ==> objects == old(objects)
    {
      h := Digest(o);
      if h !in objects {
        objects := objects[h := o];
      }
      assert objects == old(objects)[h := o];
      StoreOne(old(objects), h);
    }

    method LoadTree(h: Hash) returns (r: Result<map<string, Entry>>)
      ensures r == Load(objects, h)
    {
      if h !in objects {
        return Err(NotFound);
      }
      var o := objects[h];
      if !o.TreeObj? {
        return Err(Corrupt);
      }
      if exists n | n in o.entries :: !GoodName(n) {
        return Err(Corrupt);
      }
      return Ok(o.entries);
    }

    /** `get_at`. */
    method GetAt(path: string, root: Hash) returns (r: Result<Option<Entry>>)
      ensures Split(path).Err? ==> r == Err(InvalidPath)
      ensures Split(path).Ok? ==> r == FindIn(objects, Entry(Tree, root), Split(path).value)
      ensures Valid() && Readable(objects, Entry(Tree, root)) && Split(path).Ok? ==>
                r == Ok(Find(Entry(Tree, root), Split(path).value))
    {
      var parts :- Split(path);
      if Valid() && Readable(objects, Entry(Tree, root)) {
        FindInReadable(objects, Entry(Tree, root), parts);
      }
      if parts == [] {
        return Ok(Some(Entry(Tree, root)));
      }
      r := Descend(parts, root);
    }

    /** The loop of `get_at` over the components. */
    method Descend(parts: Path, root: Hash) returns (r: Result<Option<Entry>>)
      requires parts != []
      ensures r == FindIn(objects, Entry(Tree, root), parts)
    {
      var current :- LoadTree(root);
      var i := 0;
      while true
        invariant 0 <= i < |parts| && Load(objects, root).Ok?
        invariant FindIn(objects, Entry(Tree, root), parts) ==
                  if parts[i] !in current then Ok(None) else FindIn(objects, current[parts[i]], parts[i + 1..])
        decreases |parts| - i
      {
        if parts[i] !in current {
          return Ok(None);
        }
        var entry := current[parts[i]];
        if i == |parts| - 1 {
          return Ok(Some(entry));
        }
        if entry.mode != Tree {
          return Ok(None);
        }
        current :- LoadTree(entry.hash);
        i := i + 1;
        assert parts[i..][1..] == parts[i + 1..];
      }
    }

    /** `put_inner`, below a directory that may not exist yet. */
    method PutInner(cur: Option<Hash>, p: Path, x: Entry) returns (r: Result<Hash>)
      requires Valid() && p != []
      modifies this
      ensures Valid() && Grows(old(objects), objects)
      ensures r.Ok? ==> Paths.Put(RootEntry(cur), p, x) == Ok(Entry(Tree, r.value)) && r.value in objects
      ensures ReadableRoot(old(objects), cur) ==> objects == StoreAll(old(objects), PutHashes(RootEntry(cur), p, x))
      ensures ReadableRoot(old(objects), cur) && r.Err? ==> Paths.Put(RootEntry(cur), p, x) == Err(r.error)
      decreases |p|
    {
      var m: map<string, Entry> := map[];
      if cur.Some? {
        m :- LoadTree(cur.value);
      }
      assert m == Children(RootEntry(cur));
      var n, y := p[0], x;
      if |p| > 1 {
        if n in m && m[n].mode != Tree {
          return Err(Conflict);
        }
        assert n in m ==> RootEntry(Some(m[n].hash)) == m[n];
        var child :- PutInner(if n in m then Some(m[n].hash) else None, p[1..], x);
        y := Entry(Tree, child);
      }
      if !ValidName(n) {
        return Err(InvalidPath);
      }
      var h := Put(TreeObj(m[n := y]));
      if |p| > 1 {
        StoreAllAppend(old(objects), PutHashes(if n in m then m[n] else EMPTY, p[1..], x), [h]);
      }
      r := Ok(h);
    }

    /** `delete_inner`. */
    method DeleteInner(cur: Hash, p: Path) returns (r: Result<Option<Hash>>)
      requires Valid() && p != []
      modifies this
      ensures Valid() && Grows(old(objects), objects)
      ensures r.Ok? && r.value.None? ==> Paths.Delete(Entry(Tree, cur), p) == None
      ensures r.Ok? && r.value.Some? ==>
              Paths.Delete(Entry(Tree, cur), p) == Some(Entry(Tree, r.value.value)) && r.value.value in objects
      ensures Readable(old(objects), Entry(Tree, cur)) ==>
              r.Ok? && objects == StoreAll(old(objects), DeleteHashes(Entry(Tree, cur), p))
      decreases |p|
    {
      var m :- LoadTree(cur);
      assert m == Children(Entry(Tree, cur));
      var n := p[0];
      ghost var below: seq<Hash> := [];
      if |p| == 1 {
        m := m - {n};
      } else {
        if n !in m || m[n].mode != Tree {
          return Ok(Some(cur));
        }
        assert m[n] == Entry(Tree, m[n].hash);
        below := DeleteHashes(m[n], p[1..]);
        var child :- DeleteInner(m[n].hash, p[1..]);
        m := if child.Some? then m[n := Entry(Tree, child.value)] else m - {n};
        assert child.Some? ==> n in m;
      }
      StoreAllAppend(old(objects), below, NonEmptyTree(m));
      if m == map[] {
        assert below + [] == below;
        return Ok(None);
      }
      var h := Put(TreeObj(m));
      assert [] + NonEmptyTree(m) == NonEmptyTree(m);
      r := Ok(Some(h));
    }

    /** `walk_inner`: appends the leaves under a tree to `out`. */
    method WalkInner(h: Hash, prefix: string, out: seq<Row>, ghost at: Path) returns (r: Result<seq<Row>>)
      requires Valid() && Components(at) && prefix == Join(at)
      ensures r == Outcome(Fault(objects, Entry(Tree, h)), out, Rows(at, List(Entry(Tree, h))))
      decreases h, 1
    {
      var m :- LoadTree(h);
      ghost var e := Entry(Tree, h);
      assert m == Children(e);
      r := WalkNames(m, Listing(m.Keys), prefix, out, h, at);
    }

    /** The loop of `walk_inner` over the entries of the tree `h`. */
    method WalkNames(m: map<string, Entry>, names: seq<string>, prefix: string, out: seq<Row>, ghost h: Hash,
                     ghost at: Path)
      returns (r: Result<seq<Row>>)
      requires Valid() && Components(at) && prefix == Join(at)
      requires m == Children(Entry(Tree, h)) && forall n | n in names :: n in m && GoodName(n)
      ensures r == Outcome(FaultAmong(objects, Entry(Tree, h), names), out, RowsFrom(at, Entry(Tree, h), names))
      decreases h, 0
    {
      ghost var e := Entry(Tree, h);
      var i, acc := 0, out;
      assert names[0..] == names;
      while i < |names|
        invariant 0 <= i <= |names|
        invariant acc + RowsFrom(at, e, names[i..]) == out + RowsFrom(at, e, names)
        invariant FaultAmong(objects, e, names[i..]) == FaultAmong(objects, e, names)
      {
        var n := names[i];
        assert n in names;
        var path := if prefix == "" then n else prefix + "/" + n;
        JoinSnoc(at, n);
        RowsFromStep(at, e, names, i);
        assert names[i..][0] == n && names[i..][1..] == names[i + 1..];
        acc :- WalkEntry(m[n], path, acc, at + [n]);
        i := i + 1;
      }
      assert acc + RowsFrom(at, e, []) == acc;
      r := Ok(acc);
    }

    method WalkEntry(e: Entry, path: string, out: seq<Row>, ghost at: Path) returns (r: Result<seq<Row>>)
      requires Valid() && Components(at) && path == Join(at)
      ensures r == Outcome(Fault(objects, e), out, Rows(at, List(e)))
      decreases e
    {
      if e.mode == Tree {
        assert e == Entry(Tree, e.hash);
        r := WalkInner(e.hash, path, out, at);
      } else {
        assert Rows(at, List(e)) == [Row(Join(at + []), e)] && at + [] == at;
        r := Ok(out + [Row(path, e)]);
      }
    }

    /** `walk`: lists each leaf once, and agrees with `get_at` on every path. */
    method Walk(root: Hash) returns (r: Result<seq<Row>>)
      requires Valid()
      ensures r == WalkIn(objects, root)
      ensures Readable(objects, Entry(Tree, root)) ==> r == Ok(Rows([], List(Entry(Tree, root))))
    {
      if Readable(objects, Entry(Tree, root)) {
        WalkInReadable(objects, root);
      }
      r := WalkInner(root, "", [], []);
    }
  }
}
