/**
 Queries at HEAD or at a branch that commits can move are not pinned to a snapshot
 (crates/omp-core/src/api.rs:2156-2164): for every such expression there is a run of
 the repository on which two pages give the same row.
 */
module Unpinned {
  import opened Objects
  import opened Order
  import opened Paths
  import opened Walk
  import opened Writes
  import opened StorePaths
  import opened Refs
  import opened States
  import opened Soundness
  import opened Runs
  import opened Scenarios
  import opened Pagination
  import opened RefText
  import Diff
  import Hex

  // ---- The listing of a tree without directories ----

  /** A non-empty tree of manifests. */
  ghost predicate Flat(m: map<string, Entry>) {
    m != map[] && forall n | n in m :: GoodName(n) && m[n].mode == Manifest
  }

  lemma FlatCanonical(m: map<string, Entry>)
    requires Flat(m)
    ensures Canonical(Node(m))
  {
  }

  lemma FlatLeaf(m: map<string, Entry>, p: Path)
    requires Flat(m)
    ensures Leaf(Node(m), p) == if |p| == 1 && p[0] in m then Some(m[p[0]]) else None
  {
    if p != [] && p[0] in m {
      var x := m[p[0]];
      assert Find(Node(m), p) == Find(x, p[1..]);
      assert p[1..] != [] ==> Find(x, p[1..]) == None;
    }
  }

  lemma FlatListing(m: map<string, Entry>, k: string)
    requires Flat(m)
    ensures k in Diff.ListingOf(TreeHash(m)) <==> k in m
    ensures k in m ==> Diff.ListingOf(TreeHash(m))[k] == m[k]
  {
    var l, tree := Diff.ListingOf(TreeHash(m)), Node(m);
    FlatCanonical(m);
    if k in m {
      FlatLeaf(m, [k]);
      assert Join([k]) == k;
      Diff.ListingIsLeaf(TreeHash(m), [k]);
    }
    if k in l {
      Diff.RowsDistinct(tree);
      Diff.CollectExact(Rows([], List(tree)), k);
      CommitOrders.RowLeaf(tree, Row(k, l[k]));
      FlatLeaf(m, Split(k).value);
      assert Join([Split(k).value[0]]) == Split(k).value[0];
    }
  }

  lemma {:induction false} ListingUnique(names: seq<string>, s: set<string>)
    requires Ascending(names) && forall x :: x in names <==> x in s
    ensures Listing(s) == names
    decreases |names|
  {
    if names == [] {
      assert s == {};
    } else {
      var n := names[0];
      assert names == [n] + names[1..] && n in names;
      assert IsLeast(s, n);
      LeastExists(s);
      assert Least(s) == n;
      forall x ensures x in names[1..] <==> x in s - {n} {
        LessTrichotomy(n, n);
      }
      ListingUnique(names[1..], s - {n});
    }
  }

  /** The rows of a tree of manifests, for its names in order. */
  function FlatRows(m: map<string, Entry>, names: seq<string>): seq<Row>
    requires forall x | x in names :: x in m
  {
    seq(|names|, i requires 0 <= i < |names| => assert names[i] in names; Row(names[i], m[names[i]]))
  }

  lemma FlatManifests(m: map<string, Entry>, names: seq<string>)
    requires Flat(m) && Ascending(names) && forall x :: x in names <==> x in m
    ensures Manifests(TreeHash(m), "") == FlatRows(m, names)
  {
    var l := Diff.ListingOf(TreeHash(m));
    forall k ensures k in l <==> k in m {
      FlatListing(m, k);
    }
    forall k | k in m ensures l[k] == m[k] {
      FlatListing(m, k);
    }
    assert l == m;
    FlatShown(m, names);
  }

  lemma FlatShown(m: map<string, Entry>, names: seq<string>)
    requires Flat(m) && Ascending(names) && forall x :: x in names <==> x in m
    ensures Listing(Shown(m, "")) == names && RowsFor(m, names) == FlatRows(m, names)
  {
    assert forall x :: x in Shown(m, "") <==> x in m;
    ListingUnique(names, Shown(m, ""));
  }

  lemma TwoNames(b: string, c: string)
    requires GoodName(b) && GoodName(c) && Less(b, c)
    ensures var m, names := map[b := LEAF, c := LEAF], [b, c];
            && Flat(m) && Ascending(names) && (forall x :: x in names <==> x in m)
            && FlatRows(m, names) == [Row(b, LEAF), Row(c, LEAF)]
  {
    assert b in map[b := LEAF, c := LEAF];
  }

  lemma ThreeNames(a: string, b: string, c: string)
    requires GoodName(a) && GoodName(b) && GoodName(c) && Less(a, b) && Less(b, c)
    ensures var m, names := map[a := LEAF, b := LEAF, c := LEAF], [a, b, c];
            && Flat(m) && Ascending(names) && (forall x :: x in names <==> x in m)
            && FlatRows(m, names) == [Row(a, LEAF), Row(b, LEAF), Row(c, LEAF)]
  {
    LessTransitive(a, b, c);
    assert a in map[a := LEAF, b := LEAF, c := LEAF];
  }

  lemma TwoRows(b: string, c: string)
    requires GoodName(b) && GoodName(c) && Less(b, c)
    ensures Manifests(TreeHash(map[b := LEAF, c := LEAF]), "") == [Row(b, LEAF), Row(c, LEAF)]
  {
    TwoNames(b, c);
    FlatManifests(map[b := LEAF, c := LEAF], [b, c]);
  }

  lemma ThreeRows(a: string, b: string, c: string)
    requires GoodName(a) && GoodName(b) && GoodName(c) && Less(a, b) && Less(b, c)
    ensures Manifests(TreeHash(map[a := LEAF, b := LEAF, c := LEAF]), "") == [Row(a, LEAF), Row(b, LEAF), Row(c, LEAF)]
  {
    ThreeNames(a, b, c);
    FlatManifests(map[a := LEAF, b := LEAF, c := LEAF], [a, b, c]);
  }

  // ---- The run ----

  /** What the argument needs to know of runs: one list of events after another. */
  ghost predicate IsRunner(go: (State, seq<Event>) -> Option<State>) {
    && (forall st :: go(st, []) == Some(st))
    && forall st, a, b {:trigger go(st, a + b)} :: go(st, a + b) == Then(go, go(st, a), b)
  }

  function Then(go: (State, seq<Event>) -> Option<State>, r: Option<State>, b: seq<Event>): Option<State> {
    if r.Some? then go(r.value, b) else None
  }

  ghost function Go(st: State, events: seq<Event>): Option<State> {
    if Legal(st, events) then Some(After(st, events)) else None
  }

  lemma GoRuns()
    ensures IsRunner(Go)
  {
    forall st, a, b ensures Go(st, a + b) == Then(Go, Go(st, a), b) {
      LegalAppend(st, a, b);
    }
  }

  /** Events that, in any clean state, add the file `n` in one commit. */
  ghost predicate Adds(go: (State, seq<Event>) -> Option<State>, evs: seq<Event>, n: string) {
    forall st, h {:trigger go(st, evs), NewHash(st, n), Tip(st, h)} :: Tip(st, h) ==>
        go(st, evs).Some? && OneMore(st, h, n, go(st, evs).value)
  }

  lemma AddsTo(go: (State, seq<Event>) -> Option<State>, evs: seq<Event>, n: string, st: State, h: Hash)
    requires Adds(go, evs, n) && Tip(st, h)
    ensures go(st, evs).Some? && OneMore(st, h, n, go(st, evs).value)
  {
    var _ := (go(st, evs), NewHash(st, n));
  }

  lemma AddAndCommitAdds(n: string)
    requires FileName(n)
    ensures Adds(Go, AddAndCommit(n), n)
  {
    forall st, h | Tip(st, h)
      ensures Go(st, AddAndCommit(n)).Some? && OneMore(st, h, n, Go(st, AddAndCommit(n)).value)
    {
      OneMoreCommit(st, h, n);
    }
  }

  function Times(evs: seq<Event>, k: nat): seq<Event> {
    if k == 0 then [] else evs + Times(evs, k - 1)
  }

  lemma {:induction false} TimesSwap(evs: seq<Event>, k: nat)
    ensures Times(evs, k) + evs == evs + Times(evs, k)
  {
    if k > 0 {
      TimesSwap(evs, k - 1);
      assert Times(evs, k) + evs == evs + (Times(evs, k - 1) + evs);
    } else {
      assert [] + evs == evs + [];
    }
  }

  /** HEAD is still on the same branch, and its `k`-th ancestor is `h`. */
  ghost predicate Back(st: State, b: State, h: Hash, k: nat) {
    && Clean(b) && b.head == st.head && Grows(st.objects, b.objects)
    && ResolveHead(b.refs, b.head).Some? && Ancestor(b.objects, ResolveHead(b.refs, b.head).value, k) == Ok(h)
  }

  /** After `k` more commits HEAD's `k`-th ancestor is the old HEAD. */
  lemma {:induction false} Filled(go: (State, seq<Event>) -> Option<State>, st: State, h: Hash, evs: seq<Event>,
                                  n: string, k: nat)
    requires IsRunner(go) && Adds(go, evs, n) && Tip(st, h)
    ensures go(st, Times(evs, k)).Some? && Back(st, go(st, Times(evs, k)).value, h, k)
    decreases k
  {
    if k > 0 {
      AddsTo(go, evs, n, st, h);
      var next, h' := go(st, evs).value, NewHash(st, n);
      Filled(go, next, h', evs, n, k - 1);
      assert go(st, evs + Times(evs, k - 1)) == go(next, Times(evs, k - 1));
      FurtherBack(st, next, go(next, Times(evs, k - 1)).value, h, n, k);
    }
  }

  lemma FurtherBack(st: State, next: State, b: State, h: Hash, n: string, k: nat)
    requires k > 0 && OneMore(st, h, n, next) && Back(next, b, NewHash(st, n), k - 1)
    ensures Back(st, b, h, k)
  {
    var h', tip := NewHash(st, n), ResolveHead(b.refs, b.head).value;
    AncestorGrows(next.objects, b.objects, h', 1);
    AncestorAdds(b.objects, tip, k - 1, 1);
  }

  /** Puts HEAD on the branch `r`, created at HEAD unless it is there. */
  function Attach(r: string): seq<Event>
    requires HEADS <= r
  {
    if r == BranchRef("main") then []
    else [Branch(r[|HEADS|..], None), Checkout(RefExpr(Named(r[|HEADS|..]), None))]
  }

  lemma Attached(st: State, h: Hash, r: string)
    requires OnlyMain(st, h) && Attachable(r)
    ensures Go(st, Attach(r)).Some?
    ensures var b := Go(st, Attach(r)).value; Tip(b, h) && b.head == OnBranch(r) && HeadFiles(b) == HeadFiles(st)
  {
    if r != BranchRef("main") {
      var m := r[|HEADS|..];
      BranchName(m);
      assert BranchRef(m) == r;
      var evs := Attach(r);
      BranchAdded(st, h, m);
      BranchTaken(Next(st, evs[0]), h, m);
      RunTwo(st, evs[0], evs[1]);
    }
  }

  lemma BranchAdded(st: State, h: Hash, m: string)
    requires OnlyMain(st, h) && BranchRef(m) != BranchRef("main")
    ensures Next(st, Branch(m, None)) == st.(refs := st.refs[BranchRef(m) := h]) && Inv(Next(st, Branch(m, None)))
    ensures HeadFiles(Next(st, Branch(m, None))) == HeadFiles(st)
    ensures Tip(Next(st, Branch(m, None)), h)
  {
    NextKeeps(st, Branch(m, None));
  }

  lemma BranchTaken(st: State, h: Hash, m: string)
    requires Tip(st, h) && BranchRef(m) in st.refs && st.refs[BranchRef(m)] == h && '/' !in m
    ensures var b := Next(st, Checkout(RefExpr(Named(m), None)));
            b == st.(head := OnBranch(BranchRef(m))) && Tip(b, h) && HeadFiles(b) == HeadFiles(st)
  {
    NextKeeps(st, Checkout(RefExpr(Named(m), None)));
  }

  /** The only branch is main, and HEAD is on it. */
  ghost predicate OnlyMain(st: State, h: Hash) {
    Tip(st, h) && st.head == OnBranch(BranchRef("main")) && st.refs.Keys == {BranchRef("main")}
  }

  /** The branch `r` holds the files of `one` and `two`. */
  function Prepare(r: string, one: seq<Event>, two: seq<Event>): seq<Event>
    requires HEADS <= r
  {
    one + Attach(r) + two
  }

  lemma FirstFile(n: string)
    requires FileName(n)
    ensures Go(INIT, AddAndCommit(n)).Some?
    ensures var st := Go(INIT, AddAndCommit(n)).value;
            OnlyMain(st, NewHash(INIT, n)) && HeadFiles(st) == map[n := LEAF]
  {
    FileCommitted(INIT, n);
    FileShown(INIT, n);
    assert HeadFiles(INIT) == map[];
  }

  ghost predicate Holds(st: State, h: Hash, r: string, m: map<string, Entry>) {
    Tip(st, h) && st.head == OnBranch(r) && HeadFiles(st) == m
  }

  lemma Prepared(go: (State, seq<Event>) -> Option<State>, st: State, mid: State, r: string, m: map<string, Entry>,
                 one: seq<Event>, two: seq<Event>, b: string, h: Hash)
    requires IsRunner(go) && HEADS <= r && go(INIT, one) == Some(st) && go(st, Attach(r)) == Some(mid)
    requires Holds(mid, h, r, m) && Adds(go, two, b)
    ensures go(INIT, Prepare(r, one, two)).Some?
    ensures Holds(go(INIT, Prepare(r, one, two)).value, NewHash(mid, b), r, m[b := LEAF])
  {
    assert go(INIT, one + Attach(r)) == go(st, Attach(r));
    AddsTo(go, two, b, mid, h);
    assert go(INIT, one + Attach(r) + two) == go(mid, two);
  }

  // ---- The two pages ----

  /** The expression follows the branch `r`, or HEAD. */
  predicate Tracks(x: RefExpr, r: string) {
    Movable(x) && (x.base.name == "HEAD" || RefNamed(x.base.name) == r)
  }

  function Steps(x: RefExpr): nat {
    if x.back.Some? then x.back.value else 0
  }

  /** The expression means the ancestor of the commit HEAD is at. */
  lemma MeansAncestor(st: State, b: State, x: RefExpr, r: string, h: Hash)
    requires Tracks(x, r) && Back(st, b, h, Steps(x)) && b.head == OnBranch(r)
    ensures Resolve(b.objects, b.refs, b.head, x) == Ok(h)
  {
  }

  lemma HeadTree(st: State, h: Hash, m: map<string, Entry>)
    requires Tip(st, h) && HeadFiles(st) == m && m != map[]
    ensures CommitTree(st.objects, h) == Ok(TreeHash(m))
  {
    HeadRootGood(st);
  }

  /** After as many further commits as the expression goes back, it means what HEAD was. */
  lemma Anchor(go: (State, seq<Event>) -> Option<State>, st: State, h: Hash, r: string, m: map<string, Entry>,
               evs: seq<Event>, n: string, x: RefExpr)
    requires IsRunner(go) && Adds(go, evs, n) && Holds(st, h, r, m) && m != map[] && Tracks(x, r)
    ensures go(st, Times(evs, Steps(x))).Some? && AnchoredAt(go(st, Times(evs, Steps(x))).value, x, h, TreeHash(m))
  {
    Filled(go, st, h, evs, n, Steps(x));
    HeadTree(st, h, m);
    MeansAncestor(st, go(st, Times(evs, Steps(x))).value, x, r, h);
  }

  lemma TwoAnchors(go: (State, seq<Event>) -> Option<State>, st: State, h: Hash, r: string, m: map<string, Entry>,
                   evs: seq<Event>, n: string, x: RefExpr)
    requires IsRunner(go) && Adds(go, evs, n) && Holds(st, h, r, m) && m != map[] && Tracks(x, r)
    ensures go(st, Times(evs, Steps(x))).Some? && AnchoredAt(go(st, Times(evs, Steps(x))).value, x, h, TreeHash(m))
    ensures var end := go(st, Times(evs, Steps(x)) + evs);
            end.Some? && AnchoredAt(end.value, x, NewHash(st, n), TreeHash(m[n := LEAF]))
  {
    Anchor(go, st, h, r, m, evs, n, x);
    AddsTo(go, evs, n, st, h);
    Anchor(go, go(st, evs).value, NewHash(st, n), r, m[n := LEAF], evs, n, x);
    TimesSwap(evs, Steps(x));
    assert go(st, evs + Times(evs, Steps(x))) == go(go(st, evs).value, Times(evs, Steps(x)));
  }

  /** With limit 1, a page that starts at a row shows that row. */
  lemma PageAt(k: Digits, st: State, q: Request, cursor: Option<string>, text: string, c: Hash, tree: Hash, offset: nat)
    requires ReadsFrom(k, st, q, cursor, text, offset) && AnchoredAt(st, ReadRef(k, text), c, tree)
    requires offset < |Manifests(tree, q.prefix)| && Keep(q.pass)(Manifests(tree, q.prefix)[offset])
    ensures var rows := Manifests(tree, q.prefix);
            Query(k, st, q, cursor, 1) ==
            Ok(AnswerOf(Page([rows[offset]], if offset + 1 < |rows| then Some(offset + 1) else None), text))
  {
    QueryReads(k, st, q, cursor, 1, text, c, tree, offset);
    PageOne(Manifests(tree, q.prefix), Keep(q.pass), offset);
    assert Clamp(1) == 1;
  }

  function Everything(text: string): Request {
    Request(Some(text), "", _ => true)
  }

  /** The page fetched with limit 1 in the first state gives the row `y` and a cursor. */
  ghost predicate StartsWith(k: Digits, st: State, text: string, y: Row) {
    var first := Query(k, st, Everything(text), None, 1);
    first.Ok? && first.value.matches == [y] && first.value.next.Some?
  }

  /** What following that cursor in the second state gives. */
  ghost function Second(k: Digits, st: State, st': State, text: string, y: Row): Result<Answer>
    requires StartsWith(k, st, text, y)
  {
    Query(k, st', Everything(text), Query(k, st, Everything(text), None, 1).value.next, 1)
  }

  /** The second page gives the row of the first again; or, with a bar in the text, there is no second page. */
  ghost predicate Repeats(k: Digits, st: State, st': State, text: string, y: Row) {
    && StartsWith(k, st, text, y)
    && var second := Second(k, st, st', text, y);
    if '|' in text then second == Err(InvalidPath) else second.Ok? && second.value.matches == [y]
  }

  lemma PagesRepeat(k: Digits, st: State, st': State, text: string, h: Hash, h': Hash, t: Hash, t': Hash, w: Row,
                    y: Row, z: Row)
    requires AnchoredAt(st, ReadRef(k, text), h, t) && AnchoredAt(st', ReadRef(k, text), h', t')
    requires Manifests(t, "") == [y, z] && Manifests(t', "") == [w, y, z]
    ensures Repeats(k, st, st', text, y)
  {
    FirstPage(k, st, text, h, t, y, z);
    if '|' !in text {
      NextPage(k, st', text, h', t', w, y, z);
    } else {
      NoPage(k, st', text, 1);
    }
  }

  lemma NextPage(k: Digits, st: State, text: string, h: Hash, t: Hash, w: Row, y: Row, z: Row)
    requires AnchoredAt(st, ReadRef(k, text), h, t) && Manifests(t, "") == [w, y, z] && '|' !in text
    ensures var r := Query(k, st, Everything(text), Some(EncodeCursor(Some(text), 1)), 1);
            r.Ok? && r.value.matches == [y]
  {
    CursorLeads(k, st, Everything(text), text, 1);
    PageAt(k, st, Everything(text), Some(EncodeCursor(Some(text), 1)), text, h, t, 1);
  }

  lemma NoPage(k: Digits, st: State, text: string, offset: nat)
    requires '|' in text
    ensures Query(k, st, Everything(text), Some(EncodeCursor(Some(text), offset)), 1) == Err(InvalidPath)
  {
    BarredCursor(text, offset);
  }

  lemma FirstPage(k: Digits, st: State, text: string, h: Hash, t: Hash, y: Row, z: Row)
    requires AnchoredAt(st, ReadRef(k, text), h, t) && Manifests(t, "") == [y, z]
    ensures Query(k, st, Everything(text), None, 1) == Ok(Answer([y], Some(EncodeCursor(Some(text), 1))))
  {
    var q := Everything(text);
    assert q.prefix == "" && Keep(q.pass)(y) && ReadsFrom(k, st, q, None, text, 0);
    FirstOfMore(k, st, q, text, h, t, [y, z]);
  }

  lemma FirstOfMore(k: Digits, st: State, q: Request, text: string, h: Hash, t: Hash, rows: seq<Row>)
    requires ReadsFrom(k, st, q, None, text, 0) && AnchoredAt(st, ReadRef(k, text), h, t)
    requires Manifests(t, q.prefix) == rows && |rows| > 1 && Keep(q.pass)(rows[0])
    ensures Query(k, st, q, None, 1) == Ok(Answer([rows[0]], Some(EncodeCursor(Some(text), 1))))
  {
    PageAt(k, st, q, None, text, h, t, 0);
  }

  /** A branch for an expression to follow. */
  function BranchFor(x: RefExpr): string
    requires Movable(x)
  {
    if x.base.name == "HEAD" then BranchRef("main") else RefNamed(x.base.name)
  }

  lemma BranchForAttachable(x: RefExpr)
    requires Movable(x)
    ensures Attachable(BranchFor(x)) && Tracks(x, BranchFor(x))
  {
    BranchName("main");
  }

  /**
   For every text of a movable expression, with any `~n`, some run breaks the snapshot: one
   commit between two pages makes the second give the row of the first again, or fail when
   there is a bar in the text. The files may have any three names in order.
   */
  lemma UnpinnedRepeats(k: Digits, text: string, a: string, b: string, c: string)
    requires Movable(ReadRef(k, text)) && FileName(a) && FileName(b) && FileName(c) && Less(a, b) && Less(b, c)
    ensures HEADS <= BranchFor(ReadRef(k, text))
    ensures var x := ReadRef(k, text);
            var before := Prepare(BranchFor(x), AddAndCommit(c), AddAndCommit(b)) + Times(AddAndCommit(a), Steps(x));
            && Legal(INIT, before) && Legal(INIT, before + AddAndCommit(a))
            && Repeats(k, After(INIT, before), After(INIT, before + AddAndCommit(a)), text, Row(b, LEAF))
  {
    var x := ReadRef(k, text);
    BranchForAttachable(x);
    AddAndCommitAdds(a);
    AddAndCommitAdds(b);
    FirstFile(c);
    GoRuns();
    var r, st := BranchFor(x), Go(INIT, AddAndCommit(c)).value;
    Attached(st, NewHash(INIT, c), r);
    RunRepeats(Go, st, Go(st, Attach(r)).value, k, text, r, AddAndCommit(c), AddAndCommit(b), AddAndCommit(a), a, b, c,
               NewHash(INIT, c));
  }

  lemma RunRepeats(go: (State, seq<Event>) -> Option<State>, st: State, mid: State, k: Digits, text: string, r: string,
                   one: seq<Event>, two: seq<Event>, three: seq<Event>, a: string, b: string, c: string, h: Hash)
    requires IsRunner(go) && HEADS <= r && Tracks(ReadRef(k, text), r) && Adds(go, two, b) && Adds(go, three, a)
    requires go(INIT, one) == Some(st) && go(st, Attach(r)) == Some(mid) && Holds(mid, h, r, map[c := LEAF])
    requires FileName(a) && FileName(b) && FileName(c) && Less(a, b) && Less(b, c)
    ensures var before := Prepare(r, one, two) + Times(three, Steps(ReadRef(k, text)));
            && go(INIT, before).Some? && go(INIT, before + three).Some?
            && Repeats(k, go(INIT, before).value, go(INIT, before + three).value, text, Row(b, LEAF))
  {
    var x, m := ReadRef(k, text), map[c := LEAF][b := LEAF];
    assert b in m && m != map[];
    Prepared(go, st, mid, r, map[c := LEAF], one, two, b, h);
    var pre, more := Prepare(r, one, two), Times(three, Steps(x));
    var end := go(INIT, pre).value;
    TwoAnchors(go, end, NewHash(mid, b), r, m, three, a, x);
    InParts(go, INIT, pre, more, three);
    TreesOf(a, b, c);
    var first, second, t, t' := go(end, more).value, go(end, more + three).value, TreeHash(m), TreeHash(m[a := LEAF]);
    assert AnchoredAt(first, x, NewHash(mid, b), t) && AnchoredAt(second, x, NewHash(end, a), t');
    PagesRepeat(k, first, second, text, NewHash(mid, b), NewHash(end, a), t, t', Row(a, LEAF), Row(b, LEAF),
                Row(c, LEAF));
    assert Repeats(k, first, second, text, Row(b, LEAF));
  }

  /**
   A pinned ref with a bar in its name: two files are committed, a branch of that name is
   made, and its second page fails with the cursor of the first, although nothing has changed.
   */
  lemma BarredBranch(k: Digits, name: string, b: string, c: string)
    requires Faithful(k) && '|' in name && '/' in name && '~' !in name && !("refs/" <= name)
    requires FileName(b) && FileName(c) && Less(b, c)
    ensures var evs := AddAndCommit(c) + AddAndCommit(b) + [Branch(name, None)];
            Pinned(k, Everything(name)) && Legal(INIT, evs) && Stops(k, After(INIT, evs), name, Row(b, LEAF))
  {
    SlashedName(k, name);
    BarredRun(Go, AddAndCommit(c) + AddAndCommit(b), [Branch(name, None)], k, name, b, c) by {
      GoRuns();
      TwoCommits(b, c);
      assert b in map[b := LEAF, c := LEAF];
      BranchMade(Go(INIT, AddAndCommit(c) + AddAndCommit(b)).value, name, map[b := LEAF, c := LEAF]);
    }
  }

  lemma BarredRun(go: (State, seq<Event>) -> Option<State>, one: seq<Event>, two: seq<Event>, k: Digits, name: string,
                  b: string, c: string)
    requires IsRunner(go) && '|' in name && FileName(b) && FileName(c) && Less(b, c)
    requires go(INIT, one).Some? && go(go(INIT, one).value, two).Some?
    requires var h := ResolveHead(go(INIT, one).value.refs, go(INIT, one).value.head);
             h.Some? && AnchoredAt(go(go(INIT, one).value, two).value, ReadRef(k, name), h.value,
                                   TreeHash(map[b := LEAF, c := LEAF]))
    ensures go(INIT, one + two).Some? && Stops(k, go(INIT, one + two).value, name, Row(b, LEAF))
  {
    var mid := go(INIT, one).value;
    BarredPages(k, go(mid, two).value, name, ResolveHead(mid.refs, mid.head).value, b, c);
    assert go(INIT, one + two) == go(mid, two);
  }

  /** The first page gives a row and a cursor, and the cursor is refused. */
  ghost predicate Stops(k: Digits, st: State, text: string, y: Row) {
    StartsWith(k, st, text, y) && Second(k, st, st, text, y) == Err(InvalidPath)
  }

  lemma BarredPages(k: Digits, st: State, name: string, h: Hash, b: string, c: string)
    requires '|' in name && FileName(b) && FileName(c) && Less(b, c)
    requires AnchoredAt(st, ReadRef(k, name), h, TreeHash(map[b := LEAF, c := LEAF]))
    ensures Stops(k, st, name, Row(b, LEAF))
  {
    TwoRows(b, c);
    FirstPage(k, st, name, h, TreeHash(map[b := LEAF, c := LEAF]), Row(b, LEAF), Row(c, LEAF));
    NoPage(k, st, name, 1);
  }

  /** Two files on main, which is the only branch. */
  lemma TwoCommits(b: string, c: string)
    requires FileName(b) && FileName(c)
    ensures Go(INIT, AddAndCommit(c) + AddAndCommit(b)).Some?
    ensures var st := Go(INIT, AddAndCommit(c) + AddAndCommit(b)).value;
            && ResolveHead(st.refs, st.head).Some?
            && OnlyMain(st, ResolveHead(st.refs, st.head).value)
            && HeadFiles(st) == map[b := LEAF, c := LEAF]
  {
    AddAndCommitAdds(b);
    FirstFile(c);
    GoRuns();
    AfterFirst(Go, Go(INIT, AddAndCommit(c)).value, NewHash(INIT, c), AddAndCommit(c), AddAndCommit(b), b, c);
  }

  lemma AfterFirst(go: (State, seq<Event>) -> Option<State>, st: State, h: Hash, one: seq<Event>, two: seq<Event>,
                   b: string, c: string)
    requires IsRunner(go) && go(INIT, one) == Some(st) && OnlyMain(st, h) && HeadFiles(st) == map[c := LEAF]
             && Adds(go, two, b)
    ensures go(INIT, one + two).Some?
    ensures var end := go(INIT, one + two).value;
            OnlyMain(end, NewHash(st, b)) && HeadFiles(end) == map[b := LEAF, c := LEAF]
  {
    AddsTo(go, two, b, st, h);
    assert map[c := LEAF][b := LEAF] == map[b := LEAF, c := LEAF];
    assert go(INIT, one + two) == go(st, two);
  }

  lemma SlashedName(k: Digits, name: string)
    requires Faithful(k) && '/' in name && '~' !in name && !("refs/" <= name)
    ensures ReadRef(k, name) == RefExpr(Named(name), None) && !Movable(ReadRef(k, name))
  {
    Hex.DecodedDigits(name);
    ReadName(k, name, 0);
    SlashedFixed(name);
  }

  lemma SlashedFixed(name: string)
    requires '/' in name
    ensures !Attachable(BranchRef(name)) && name != "HEAD"
  {
    BranchName(name);
  }

  lemma BranchMade(st: State, name: string, m: map<string, Entry>)
    requires ResolveHead(st.refs, st.head).Some? && OnlyMain(st, ResolveHead(st.refs, st.head).value)
    requires HeadFiles(st) == m && m != map[] && '/' in name && !("refs/" <= name)
    ensures Go(st, [Branch(name, None)]).Some?
    ensures AnchoredAt(Go(st, [Branch(name, None)]).value, RefExpr(Named(name), None),
                       ResolveHead(st.refs, st.head).value, TreeHash(m))
  {
    BranchName(name);
    BranchName("main");
    RunOne(st, Branch(name, None));
    NextKeeps(st, Branch(name, None));
    HeadTree(st, ResolveHead(st.refs, st.head).value, m);
  }

  lemma InParts(go: (State, seq<Event>) -> Option<State>, st: State, a: seq<Event>, b: seq<Event>, c: seq<Event>)
    requires IsRunner(go) && go(st, a).Some?
    ensures go(st, a + b) == go(go(st, a).value, b)
    ensures go(st, a + b + c) == go(go(st, a).value, b + c)
  {
    assert a + b + c == a + (b + c);
    assert go(st, a + (b + c)) == Then(go, go(st, a), b + c);
  }

  lemma TreesOf(a: string, b: string, c: string)
    requires FileName(a) && FileName(b) && FileName(c) && Less(a, b) && Less(b, c)
    ensures Manifests(TreeHash(map[c := LEAF][b := LEAF]), "") == [Row(b, LEAF), Row(c, LEAF)]
    ensures Manifests(TreeHash(map[c := LEAF][b := LEAF][a := LEAF]), "") == [Row(a, LEAF), Row(b, LEAF), Row(c, LEAF)]
  {
    assert map[c := LEAF][b := LEAF] == map[b := LEAF, c := LEAF];
    assert map[c := LEAF][b := LEAF][a := LEAF] == map[a := LEAF, b := LEAF, c := LEAF];
    TwoRows(b, c);
    ThreeRows(a, b, c);
  }
}
