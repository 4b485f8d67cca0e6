/**
 Sequences of tree edits: the loop that `commit_with_keys` runs over the staged
 changes (crates/omp-core/src/api.rs:1441-1471). The index is a `HashMap`, so
 the loop may visit the changes in any order.
 */
module Edits {
  import opened Objects
  import opened Paths

  datatype Edit = Upsert(path: Path, entry: Entry) | Remove(path: Path)

  /** One iteration of the loop on `root: Option<Hash>`. */
  function Apply(root: Option<Entry>, d: Edit): Result<Option<Entry>> {
    match d
    case Upsert(p, x) =>
      if p == [] then Err(InvalidPath)
      else
        var e :- Put(if root.Some? then root.value else EMPTY, p, x);
        Ok(Some(e))
    case Remove(p) =>
      if root.None? then Ok(None)
      else if p == [] then Err(InvalidPath)
      else Ok(Delete(root.value, p))
  }

  function Run(root: Option<Entry>, edits: seq<Edit>): Result<Option<Entry>> {
    if edits == [] then Ok(root)
    else
      var r :- Run(root, edits[..|edits| - 1]);
      Apply(r, edits[|edits| - 1])
  }

  /** What an edit leaves at a path it covers. */
  function Effect(d: Edit, q: Path): Option<Entry>
    requires d.path <= q
  {
    if d.Upsert? then Leaf(d.entry, q[|d.path|..]) else None
  }

  /**
   The specification of a run, without trees: the last edit at `q` or above it
   decides what is at `q`.
   */
  function LastWrite(base: Option<Entry>, edits: seq<Edit>, q: Path): Option<Entry> {
    if edits == [] then LeafOpt(base, q)
    else
      var d := edits[|edits| - 1];
      if d.path <= q then Effect(d, q) else LastWrite(base, edits[..|edits| - 1], q)
  }

  ghost predicate GoodEdit(d: Edit) {
    d.path != [] && (d.Upsert? ==> Printables(d.path) && Canonical(d.entry))
  }

  ghost predicate GoodEdits(edits: seq<Edit>) {
    forall i | 0 <= i < |edits| :: GoodEdit(edits[i])
  }

  ghost predicate GoodRoot(r: Option<Entry>) {
    r.Some? ==> r.value.mode == Tree && Canonical(r.value)
  }

  lemma {:induction false} RunGood(base: Option<Entry>, edits: seq<Edit>)
    requires GoodRoot(base) && GoodEdits(edits) && Run(base, edits).Ok?
    ensures GoodRoot(Run(base, edits).value)
  {
    if edits != [] {
      var n := |edits| - 1;
      RunGood(base, edits[..n]);
      var r, d := Run(base, edits[..n]).value, edits[n];
      if d.Upsert? {
        PutCanonical(if r.Some? then r.value else EMPTY, d.path, d.entry);
      } else if r.Some? {
        DeleteCanonical(r.value, d.path);
        DeleteLeaf(r.value, d.path, []);
      }
    }
  }

  /** Refinement: a successful run leaves at every path what its last writer put there. */
  lemma {:induction false} RunIsLastWrite(base: Option<Entry>, edits: seq<Edit>, q: Path)
    requires GoodRoot(base) && GoodEdits(edits) && Run(base, edits).Ok?
    ensures LeafOpt(Run(base, edits).value, q) == LastWrite(base, edits, q)
  {
    if edits != [] {
      var n := |edits| - 1;
      RunIsLastWrite(base, edits[..n], q);
      RunGood(base, edits[..n]);
      var r, d := Run(base, edits[..n]).value, edits[n];
      if d.Upsert? {
        PutLeaf(if r.Some? then r.value else EMPTY, d.path, d.entry, q);
      } else if r.Some? {
        DeleteLeaf(r.value, d.path, q);
      }
    }
  }

  /** Two good roots are the same hash exactly when they show the same leaves. */
  lemma RootsAgree(a: Option<Entry>, b: Option<Entry>)
    requires GoodRoot(a) && GoodRoot(b)
    ensures a == b <==> forall q :: LeafOpt(a, q) == LeafOpt(b, q)
  {
    if forall q :: LeafOpt(a, q) == LeafOpt(b, q) {
      if a.Some? {
        var p := CanonicalHasLeaf(a.value);
        assert LeafOpt(a, p) == LeafOpt(b, p);
      }
      if b.Some? {
        var p := CanonicalHasLeaf(b.value);
        assert LeafOpt(a, p) == LeafOpt(b, p);
      }
      if a.Some? {
        forall q ensures Leaf(a.value, q) == Leaf(b.value, q) {
          assert LeafOpt(a, q) == LeafOpt(b, q);
        }
        CanonicalUnique(a.value, b.value);
      }
    }
  }

  /** Canonical roots: the history of edits leaves no trace in the root hash. */
  lemma CanonicalRoots(xs: seq<Edit>, ys: seq<Edit>)
    requires GoodEdits(xs) && GoodEdits(ys)
    requires Run(None, xs).Ok? && Run(None, ys).Ok?
    ensures Run(None, xs) == Run(None, ys) <==> forall q :: LastWrite(None, xs, q) == LastWrite(None, ys, q)
  {
    var a, b := Run(None, xs).value, Run(None, ys).value;
    assert Run(None, xs) == Ok(a) && Run(None, ys) == Ok(b);
    RunGood(None, xs);
    RunGood(None, ys);
    if a == b {
      forall q ensures LastWrite(None, xs, q) == LastWrite(None, ys, q) {
        RunIsLastWrite(None, xs, q);
        RunIsLastWrite(None, ys, q);
      }
    } else {
      RootsAgree(a, b);
      var q :| LeafOpt(a, q) != LeafOpt(b, q);
      RunIsLastWrite(None, xs, q);
      RunIsLastWrite(None, ys, q);
      assert LastWrite(None, xs, q) != LastWrite(None, ys, q);
    }
  }

  // ---- Order independence ----

  ghost predicate Apart(p: Path, q: Path) {
    !(p <= q) && !(q <= p)
  }

  ghost predicate Under(p: Path, q: Path) {
    p <= q && p != q
  }

  /** Two staged changes that can be carried out in either order. */
  ghost predicate Compatible(d: Edit, e: Edit) {
    || Apart(d.path, e.path)
    || (d.Remove? && e.Remove?)
    || d == e
    || (d.Upsert? && e.Remove? && Under(d.path, e.path))
    || (d.Remove? && e.Upsert? && Under(e.path, d.path))
  }

  ghost predicate AllCompatible(edits: seq<Edit>) {
    forall d, e | d in edits && e in edits :: Compatible(d, e)
  }

  /** What is staged is a file, not a directory. */
  ghost predicate StagesFiles(edits: seq<Edit>) {
    forall d | d in edits && d.Upsert? :: d.entry.mode != Tree
  }

  /** Compatible edits that cover the same path leave the same there. */
  lemma SameEffect(d: Edit, e: Edit, q: Path)
    requires Compatible(d, e) && d.path <= q && e.path <= q
    requires (d.Upsert? ==> d.entry.mode != Tree) && (e.Upsert? ==> e.entry.mode != Tree)
    ensures Effect(d, q) == Effect(e, q)
  {
    PrefixesMeet(d.path, e.path, q);
    if d.Upsert? && Under(d.path, e.path) {
      assert q[|d.path|..] != [];
    } else if e.Upsert? && Under(e.path, d.path) {
      assert q[|e.path|..] != [];
    }
  }

  lemma PrefixesMeet(p: Path, r: Path, q: Path)
    requires p <= q && r <= q
    ensures p <= r || r <= p
  {
    assert p == q[..|p|] && r == q[..|r|];
    if |p| <= |r| {
      assert r[..|p|] == p;
    } else {
      assert p[..|r|] == r;
    }
  }

  /** Among compatible edits it does not matter which of those that cover a path comes last. */
  lemma {:induction false} CompatibleLastWrite(base: Option<Entry>, edits: seq<Edit>, q: Path)
    requires AllCompatible(edits) && StagesFiles(edits)
    ensures forall d | d in edits && d.path <= q :: LastWrite(base, edits, q) == Effect(d, q)
    ensures (forall d | d in edits :: !(d.path <= q)) ==> LastWrite(base, edits, q) == LeafOpt(base, q)
  {
    if edits != [] {
      var n := |edits| - 1;
      var init, last := edits[..n], edits[n];
      assert edits == init + [last];
      CompatibleLastWrite(base, init, q);
      if last.path <= q {
        forall d | d in edits && d.path <= q ensures Effect(last, q) == Effect(d, q) {
          SameEffect(last, d, q);
        }
      }
    }
  }

  ghost predicate BlockedIn(base: Option<Entry>, p: Path) {
    exists i | 0 < i < |p| :: LeafOpt(base, p[..i]).Some?
  }

  /** The guard an edit meets, evaluated on the tree the run starts from. */
  ghost predicate Applicable(base: Option<Entry>, d: Edit) {
    d.Upsert? ==> (forall i | 0 <= i < |d.path| :: ValidName(d.path[i])) && !BlockedIn(base, d.path)
  }

  lemma {:induction false} RunSucceeds(base: Option<Entry>, edits: seq<Edit>)
    requires GoodRoot(base) && GoodEdits(edits) && StagesFiles(edits) && AllCompatible(edits)
    ensures Run(base, edits).Ok? <==> forall d | d in edits :: Applicable(base, d)
  {
    if edits != [] {
      var n := |edits| - 1;
      var init, last := edits[..n], edits[n];
      assert edits == init + [last];
      RunSucceeds(base, init);
      assert (forall d | d in edits :: Applicable(base, d)) <==>
          (forall d | d in init :: Applicable(base, d)) && Applicable(base, last);
      if Run(base, init).Ok? {
        LastApplies(base, init, last);
      }
    }
  }

  lemma LastApplies(base: Option<Entry>, init: seq<Edit>, last: Edit)
    requires GoodRoot(base) && GoodEdits(init) && GoodEdit(last) && StagesFiles(init + [last])
             && AllCompatible(init + [last])
    requires Run(base, init).Ok?
    ensures Apply(Run(base, init).value, last).Ok? <==> Applicable(base, last)
  {
    if last.Upsert? {
      var r := Run(base, init).value;
      RunGood(base, init);
      UpsertApplies(r, last);
      forall i | 0 < i < |last.path| ensures LeafOpt(r, last.path[..i]) == LeafOpt(base, last.path[..i]) {
        PrefixUntouched(base, init, last, i);
      }
      assert BlockedIn(r, last.path) <==> BlockedIn(base, last.path);
    }
  }

  lemma UpsertApplies(r: Option<Entry>, d: Edit)
    requires GoodRoot(r) && d.Upsert? && d.path != []
    ensures Apply(r, d).Ok? <==> Applicable(r, d)
  {
    var e := if r.Some? then r.value else EMPTY;
    PutOutcome(e, d.path, d.entry);
    if r.None? {
      forall i | 0 < i < |d.path| ensures Leaf(EMPTY, d.path[..i]).None? {
        assert d.path[..i] != [];
      }
    } else {
      assert forall i | 0 < i < |d.path| :: Leaf(e, d.path[..i]) == LeafOpt(r, d.path[..i]);
    }
    assert Blocked(e, d.path) <==> BlockedIn(r, d.path);
  }

  lemma PrefixUntouched(base: Option<Entry>, init: seq<Edit>, last: Edit, i: int)
    requires GoodRoot(base) && GoodEdits(init) && last.Upsert? && 0 < i < |last.path|
    requires StagesFiles(init + [last]) && AllCompatible(init + [last]) && Run(base, init).Ok?
    ensures LeafOpt(Run(base, init).value, last.path[..i]) == LeafOpt(base, last.path[..i])
  {
    var q := last.path[..i];
    assert forall d | d in init :: d in init + [last];
    RunIsLastWrite(base, init, q);
    CompatibleLastWrite(base, init, q);
    forall d | d in init ensures !(d.path <= q) {
      assert d in init + [last] && last in init + [last] && Compatible(d, last);
      assert |q| < |last.path| && forall k | 0 <= k < |q| :: q[k] == last.path[k];
    }
  }

  /** The two lists hold the same edits, in whatever order. */
  ghost predicate SameEdits(xs: seq<Edit>, ys: seq<Edit>) {
    forall d :: d in xs <==> d in ys
  }

  /**
   Commit order independence: over pairwise compatible edits every order gives
   the same root or every order fails, and the new leaves are those of the base
   with exactly the staged changes applied.
   */
  lemma CommitOrder(base: Option<Entry>, xs: seq<Edit>, ys: seq<Edit>)
    requires GoodRoot(base) && GoodEdits(xs) && GoodEdits(ys) && SameEdits(xs, ys) && StagesFiles(xs)
             && AllCompatible(xs)
    ensures Run(base, xs).Ok? <==> forall d | d in xs :: Applicable(base, d)
    ensures Run(base, xs).Ok? <==> Run(base, ys).Ok?
    ensures Run(base, xs).Ok? ==> Run(base, xs) == Run(base, ys)
    ensures Run(base, xs).Ok? ==> forall d, q | d in xs && d.path <= q ::
            LeafOpt(Run(base, xs).value, q) == Effect(d, q)
    ensures Run(base, xs).Ok? ==> forall q | (forall d | d in xs :: !(d.path <= q)) ::
            LeafOpt(Run(base, xs).value, q) == LeafOpt(base, q)
  {
    RunSucceeds(base, xs);
    RunSucceeds(base, ys);
    if Run(base, xs).Ok? {
      var a, b := Run(base, xs).value, Run(base, ys).value;
      RunGood(base, xs);
      RunGood(base, ys);
      forall q
        ensures LeafOpt(a, q) == LeafOpt(b, q)
        ensures forall d | d in xs && d.path <= q :: LeafOpt(a, q) == Effect(d, q)
        ensures (forall d | d in xs :: !(d.path <= q)) ==> LeafOpt(a, q) == LeafOpt(base, q)
      {
        RunIsLastWrite(base, xs, q);
        RunIsLastWrite(base, ys, q);
        CompatibleLastWrite(base, xs, q);
        CompatibleLastWrite(base, ys, q);
      }
      RootsAgree(a, b);
    }
  }

  // ---- The condition is exact ----

  /** The edit `d`, carried out last, shows at its own path. */
  lemma LastShows(base: Option<Entry>, init: seq<Edit>, d: Edit)
    requires GoodRoot(base) && GoodEdits(init) && GoodEdit(d) && (d.Upsert? ==> d.entry.mode != Tree)
    requires Run(base, init + [d]).Ok?
    ensures LeafOpt(Run(base, init + [d]).value, d.path) == if d.Upsert? then Some(d.entry) else None
  {
    var edits := init + [d];
    assert edits[..|init|] == init && edits[|init|] == d;
    RunIsLastWrite(base, edits, d.path);
    assert d.path[|d.path|..] == [];
  }

  /** A removal at or above an upsert hides it. */
  lemma RemovedAfter(base: Option<Entry>, init: seq<Edit>, d: Edit, q: Path)
    requires GoodRoot(base) && GoodEdits(init) && GoodEdit(d) && d.Remove? && d.path <= q
    requires Run(base, init + [d]).Ok?
    ensures LeafOpt(Run(base, init + [d]).value, q).None?
  {
    var edits := init + [d];
    assert edits[..|init|] == init && edits[|init|] == d;
    RunIsLastWrite(base, edits, q);
  }

  /** Nothing can be put below a file that was just put. */
  lemma BlockedAfter(base: Option<Entry>, init: seq<Edit>, d: Edit, e: Edit)
    requires GoodRoot(base) && GoodEdits(init) && GoodEdit(d) && GoodEdit(e) && d.Upsert? && e.Upsert?
    requires d.entry.mode != Tree && Under(d.path, e.path)
    ensures Run(base, init + [d] + [e]).Err?
  {
    var edits := init + [d];
    assert (edits + [e])[..|edits|] == edits && (edits + [e])[|edits|] == e;
    if Run(base, edits).Ok? {
      LastShows(base, init, d);
      RunGood(base, edits);
      var r := Run(base, edits).value;
      UpsertApplies(r, e);
      assert e.path[..|d.path|] == d.path && 0 < |d.path| < |e.path|;
    }
  }

  /** Two edits that are not compatible, done last, do not give one result in both orders. */
  lemma OrderMatters(base: Option<Entry>, init: seq<Edit>, d: Edit, e: Edit)
    requires GoodRoot(base) && GoodEdits(init) && GoodEdit(d) && GoodEdit(e) && StagesFiles([d, e]) && !Compatible(d, e)
    requires Run(base, init + [d] + [e]).Ok? && Run(base, init + [e] + [d]).Ok?
    ensures Run(base, init + [d] + [e]) != Run(base, init + [e] + [d])
  {
    assert d in [d, e] && e in [d, e];
    assert GoodEdits(init + [d]) && GoodEdits(init + [e]);
    LastShows(base, init + [e], d);
    LastShows(base, init + [d], e);
    if d.Upsert? && e.Upsert? {
      if Under(d.path, e.path) {
        BlockedAfter(base, init, d, e);
      } else if Under(e.path, d.path) {
        BlockedAfter(base, init, e, d);
      }
    } else if d.Upsert? {
      RemovedAfter(base, init + [d], e, d.path);
    } else {
      RemovedAfter(base, init + [e], d, e.path);
    }
  }
}
