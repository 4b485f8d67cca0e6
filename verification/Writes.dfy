/**
 What the path operations write: the objects that `put_inner` and `delete_inner`
 (crates/omp-core/src/paths.rs:125-217) store, in the order in which they store them.
 */
module Writes {
  import opened Objects
  import opened Paths

  /** The store after the objects with these hashes were put, one after the other. */
  function StoreAll(s: Objects, hs: seq<Hash>): Objects {
    if hs == [] then s else StoreAll(s, hs[..|hs| - 1])[hs[|hs| - 1] := hs[|hs| - 1].obj]
  }

  lemma {:induction false} StoreAllAppend(s: Objects, a: seq<Hash>, b: seq<Hash>)
    ensures StoreAll(s, a + b) == StoreAll(StoreAll(s, a), b)
  {
    if b == [] {
      assert a + b == a;
    } else {
      var n := |b| - 1;
      assert (a + b)[..|a + b| - 1] == a + b[..n];
      StoreAllAppend(s, a, b[..n]);
    }
  }

  lemma StoreOne(s: Objects, h: Hash)
    ensures StoreAll(s, [h]) == s[h := h.obj]
  {
    assert [h][..0] == [];
  }

  /** Nothing is lost or changed, and nothing else is added. */
  lemma {:induction false} StoreAllExact(s: Objects, hs: seq<Hash>, h: Hash)
    requires Addressed(s)
    ensures Addressed(StoreAll(s, hs))
    ensures h in StoreAll(s, hs) <==> h in s || h in hs
    ensures h in StoreAll(s, hs) ==> StoreAll(s, hs)[h] == h.obj
  {
    if hs != [] {
      var n := |hs| - 1;
      assert hs == hs[..n] + [hs[n]];
      StoreAllExact(s, hs[..n], h);
      assert Addressed(StoreAll(s, hs));
    }
  }

  function TreeHash(m: map<string, Entry>): Hash {
    Digest(TreeObj(m))
  }

  /** The trees `put_inner` stores, innermost first; those below stay behind when it fails. */
  function PutHashes(e: Entry, p: Path, x: Entry): seq<Hash>
    requires p != []
    decreases |p|
  {
    var n, m := p[0], Children(e);
    if |p| == 1 then (if ValidName(n) then [TreeHash(m[n := x])] else [])
    else if n in m && m[n].mode != Tree then []
    else
      var child := if n in m then m[n] else EMPTY;
      var below, r := PutHashes(child, p[1..], x), Put(child, p[1..], x);
      if r.Ok? && ValidName(n) then below + [TreeHash(m[n := r.value])] else below
  }

  function NonEmptyTree(m: map<string, Entry>): seq<Hash> {
    if m == map[] then [] else [TreeHash(m)]
  }

  /** The trees `delete_inner` stores, innermost first. */
  function DeleteHashes(e: Entry, p: Path): seq<Hash>
    requires p != []
    decreases |p|
  {
    var n, m := p[0], Children(e);
    if |p| == 1 then NonEmptyTree(m - {n})
    else if n !in m || m[n].mode != Tree then []
    else
      var below, r := DeleteHashes(m[n], p[1..]), Delete(m[n], p[1..]);
      below + NonEmptyTree(if r.Some? then m[n := r.value] else m - {n})
  }
}
