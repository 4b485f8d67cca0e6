/**
 Edits of immutable nested trees by path (crates/omp-core/src/paths.rs), as
 functions of the root entry, and their refinement of a flat map from path to
 leaf. `Run` is a whole sequence of edits; `LastWrite` is its specification,
 which knows nothing of trees.
 */
module Paths {
  import opened Objects

  type Path = seq<string>

  /** The entry of a tree with the given children. */
  function Node(m: map<string, Entry>): Entry {
    Entry(Tree, Digest(TreeObj(m)))
  }

  function Children(e: Entry): map<string, Entry> {
    if e.mode == Tree && e.hash.obj.TreeObj? then e.hash.obj.entries else map[]
  }

  /** `Tree::new()`; stands for a root that has not been created. */
  const EMPTY: Entry := Node(map[])

  /** `get_at`: the entry found at a path, a directory included. */
  function Find(e: Entry, p: Path): Option<Entry> {
    if p == [] then Some(e)
    else if p[0] in Children(e) then Find(Children(e)[p[0]], p[1..])
    else None
  }

  /** The flat view of a tree: the leaf stored at a path, if any. */
  function Leaf(e: Entry, p: Path): Option<Entry> {
    var r := Find(e, p);
    if r.Some? && r.value.mode != Tree then r else None
  }

  /** `Tree::insert` followed by storing the tree. */
  function Insert(m: map<string, Entry>, n: string, x: Entry): Result<Entry> {
    if ValidName(n) then Ok(Node(m[n := x])) else Err(InvalidPath)
  }

  /** `put_inner`. */
  function Put(e: Entry, p: Path, x: Entry): Result<Entry>
    requires p != []
    decreases |p|
  {
    var n, m := p[0], Children(e);
    if |p| == 1 then Insert(m, n, x)
    else if n in m && m[n].mode != Tree then Err(Conflict)
    else
      var child :- Put(if n in m then m[n] else EMPTY, p[1..], x);
      Insert(m, n, child)
  }

  function NodeOrNone(m: map<string, Entry>): Option<Entry> {
    if m == map[] then None else Some(Node(m))
  }

  /** `delete_inner`: `None` when the tree collapses to empty. */
  function Delete(e: Entry, p: Path): Option<Entry>
    requires p != []
    decreases |p|
  {
    var n, m := p[0], Children(e);
    if |p| == 1 then NodeOrNone(m - {n})
    else if n !in m || m[n].mode != Tree then Some(e)
    else match Delete(m[n], p[1..])
      case Some(child) => NodeOrNone(m[n := child])
      case None => NodeOrNone(m - {n})
  }

  // ---- Canonical form ----

  /** No empty directory, and only names that can be read back. */
  ghost predicate Canonical(e: Entry) {
    e.mode == Tree ==>
      && e.hash.obj.TreeObj?
      && e.hash.obj.entries != map[]
      && forall n | n in e.hash.obj.entries :: GoodName(n) && Canonical(e.hash.obj.entries[n])
  }

  ghost predicate CanonicalRoot(e: Entry) {
    e.mode == Tree && (e == EMPTY || Canonical(e))
  }

  ghost predicate Printables(p: Path) {
    forall i | 0 <= i < |p| :: Printable(p[i])
  }

  lemma {:induction false} CanonicalHasLeaf(e: Entry) returns (p: Path)
    requires Canonical(e)
    ensures Leaf(e, p).Some?
  {
    if e.mode == Tree {
      var n :| n in Children(e);
      var q := CanonicalHasLeaf(Children(e)[n]);
      p := [n] + q;
      assert p[1..] == q;
    } else {
      p := [];
    }
  }

  /** The flat view determines a canonical tree, hash and all. */
  lemma {:induction false} CanonicalUnique(a: Entry, b: Entry)
    requires Canonical(a) && Canonical(b)
    requires forall q :: Leaf(a, q) == Leaf(b, q)
    ensures a == b
    decreases a
  {
    assert Leaf(a, []) == Leaf(b, []);
    if a.mode == Tree {
      SameNames(a, b);
      SameNames(b, a);
      forall n | n in Children(a) ensures Children(a)[n] == Children(b)[n] {
        forall q ensures Leaf(Children(a)[n], q) == Leaf(Children(b)[n], q) {
          assert ([n] + q)[1..] == q;
          assert Leaf(a, [n] + q) == Leaf(b, [n] + q);
        }
        CanonicalUnique(Children(a)[n], Children(b)[n]);
      }
      assert Children(a) == Children(b);
    }
  }

  lemma SameNames(a: Entry, b: Entry)
    requires Canonical(a) && Canonical(b) && a.mode == Tree && b.mode == Tree
    requires forall q :: Leaf(a, q) == Leaf(b, q)
    ensures Children(a).Keys <= Children(b).Keys
  {
    forall n | n in Children(a) ensures n in Children(b) {
      var q := CanonicalHasLeaf(Children(a)[n]);
      assert ([n] + q)[1..] == q;
      assert Leaf(a, [n] + q) == Leaf(b, [n] + q);
    }
  }

  // ---- Put refines replacement of everything at and below a path ----

  lemma {:induction false} PutLeaf(e: Entry, p: Path, x: Entry, q: Path)
    requires p != [] && e.mode == Tree && Put(e, p, x).Ok?
    ensures Put(e, p, x).value.mode == Tree
    ensures Leaf(Put(e, p, x).value, q) == if p <= q then Leaf(x, q[|p|..]) else Leaf(e, q)
    decreases |p|
  {
    var n, m := p[0], Children(e);
    if q == [] || q[0] != n {
    } else if |p| == 1 {
      assert p <= q && q[|p|..] == q[1..];
    } else {
      PutLeaf(if n in m then m[n] else EMPTY, p[1..], x, q[1..]);
      assert p <= q <==> p[1..] <= q[1..] by {
        assert p == [n] + p[1..] && q == [n] + q[1..];
      }
      if p <= q {
        assert q[1..][|p| - 1..] == q[|p|..];
      }
    }
  }

  lemma FirstStep(e: Entry, p: Path)
    requires p != []
    ensures Find(e, p[..1]) == if p[0] in Children(e) then Some(Children(e)[p[0]]) else None
  {
    var q := p[..1];
    assert q[0] == p[0] && q[1..] == [];
    assert p[0] in Children(e) ==> Find(Children(e)[p[0]], q[1..]) == Some(Children(e)[p[0]]);
  }

  /** A proper prefix of `p` is a leaf. */
  ghost predicate Blocked(e: Entry, p: Path) {
    exists i | 0 < i < |p| :: Leaf(e, p[..i]).Some?
  }

  /** `put` fails exactly on a leaf in the way, or else on an invalid name. */
  lemma {:induction false} PutOutcome(e: Entry, p: Path, x: Entry)
    requires p != [] && e.mode == Tree
    ensures Put(e, p, x) == Err(Conflict) <==> Blocked(e, p)
    ensures Put(e, p, x) == Err(InvalidPath) <==> !Blocked(e, p) && exists i | 0 <= i < |p| :: !ValidName(p[i])
    ensures Put(e, p, x).Ok? <==> !Blocked(e, p) && forall i | 0 <= i < |p| :: ValidName(p[i])
    decreases |p|
  {
    var n, m := p[0], Children(e);
    if |p| > 1 {
      var child := if n in m then m[n] else EMPTY;
      if child.mode != Tree {
        FirstStep(e, p);
        assert Leaf(e, p[..1]).Some?;
      } else {
        PutOutcome(child, p[1..], x);
        BlockedBelow(e, p, child);
        assert forall i | 0 < i < |p| :: p[i] == p[1..][i - 1];
        assert forall i | 0 <= i < |p| - 1 :: p[1..][i] == p[i + 1];
      }
    }
  }

  lemma BlockedBelow(e: Entry, p: Path, child: Entry)
    requires |p| > 1 && e.mode == Tree && child.mode == Tree
    requires child == if p[0] in Children(e) then Children(e)[p[0]] else EMPTY
    ensures Blocked(e, p) <==> Blocked(child, p[1..])
  {
    forall i | 0 < i < |p| ensures p[..i][1..] == p[1..][..i - 1] {}
    FirstStep(e, p);
    if Blocked(e, p) {
      var i :| 0 < i < |p| && Leaf(e, p[..i]).Some?;
      assert Leaf(child, p[1..][..i - 1]).Some?;
    }
    if Blocked(child, p[1..]) {
      var i :| 0 < i < |p| - 1 && Leaf(child, p[1..][..i]).Some?;
      assert p[..i + 1][1..] == p[1..][..i];
      assert Leaf(e, p[..i + 1]).Some?;
    }
  }

  lemma {:induction false} PutCanonical(e: Entry, p: Path, x: Entry)
    requires p != [] && CanonicalRoot(e) && Canonical(x) && Printables(p)
    requires Put(e, p, x).Ok?
    ensures Canonical(Put(e, p, x).value) && Put(e, p, x).value.mode == Tree
    decreases |p|
  {
    var n, m := p[0], Children(e);
    var y := x;
    if |p| > 1 {
      assert Printables(p[1..]);
      var child := if n in m then m[n] else EMPTY;
      assert CanonicalRoot(child);
      PutCanonical(child, p[1..], x);
      y := Put(child, p[1..], x).value;
    }
    NodeCanonical(m, n, y);
  }

  /** A directory with one more canonical entry is canonical. */
  lemma NodeCanonical(m: map<string, Entry>, n: string, y: Entry)
    requires (forall k | k in m :: GoodName(k) && Canonical(m[k])) && GoodName(n) && Canonical(y)
    ensures Canonical(Node(m[n := y]))
  {
    var next := m[n := y];
    assert n in next;
    forall k | k in next ensures GoodName(k) && Canonical(next[k]) {
      if k != n {
        assert k in m && next[k] == m[k];
      }
    }
  }

  // ---- Delete refines removal of everything at and below a path ----

  function LeafOpt(r: Option<Entry>, q: Path): Option<Entry> {
    if r.Some? then Leaf(r.value, q) else None
  }

  lemma {:induction false} DeleteLeaf(e: Entry, p: Path, q: Path)
    requires p != [] && e.mode == Tree
    ensures Delete(e, p).Some? ==> Delete(e, p).value.mode == Tree
    ensures LeafOpt(Delete(e, p), q) == if p <= q then None else Leaf(e, q)
    decreases |p|
  {
    var n, m := p[0], Children(e);
    assert q != [] && q[0] != n && q[0] in m ==> q[0] in m - {n};
    if q != [] && q[0] == n {
      assert p <= q <==> p[1..] <= q[1..] by {
        assert p == [n] + p[1..] && q == [n] + q[1..];
      }
    }
    if |p| > 1 && n in m && m[n].mode == Tree {
      DeleteLeaf(m[n], p[1..], if q != [] then q[1..] else []);
      var r := Delete(m[n], p[1..]);
      assert r.Some? ==> n in m[n := r.value];
    } else if |p| > 1 && q != [] && q[0] == n && n in m && p <= q {
      assert q[1..] != [] && Find(m[n], q[1..]) == None;
    }
  }

  lemma {:induction false} DeleteCanonical(e: Entry, p: Path)
    requires p != [] && Canonical(e) && e.mode == Tree
    ensures Delete(e, p).Some? ==> Canonical(Delete(e, p).value)
    decreases |p|
  {
    var n, m := p[0], Children(e);
    if |p| > 1 && n in m && m[n].mode == Tree {
      DeleteCanonical(m[n], p[1..]);
    }
  }
}
