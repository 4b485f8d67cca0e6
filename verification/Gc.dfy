/**
 The live-set walker (crates/omp-core/src/gc.rs:71-223) on an arbitrary store,
 which may be incomplete, mistyped or even cyclic. A node is a hash together
 with the kind it is reached as; the walker keeps one set per kind.
 */
module Gc {
  import opened Objects
  import opened StorePaths

  datatype Kind = CommitK | TreeK | ManifestK | ChunksK | BlobK

  datatype Node = Node(kind: Kind, hash: Hash)

  function EntryNode(e: Entry): Node {
    Node(match e.mode case Tree => TreeK case Manifest => ManifestK case Blob => BlobK, e.hash)
  }

  /** A source is a chunk list or a blob, according to what is stored. */
  function SourceNode(s: Objects, h: Hash): Node {
    Node(if h in s && s[h].ChunksObj? then ChunksK else BlobK, h)
  }

  /** The edges of the reference graph. */
  ghost function Succ(s: Objects, n: Node): set<Node> {
    if n.hash !in s then {}
    else match (n.kind, s[n.hash])
      case (CommitK, CommitObj(tree, parents, _)) => {Node(TreeK, tree)} + set p | p in parents :: Node(CommitK, p)
      case (TreeK, TreeObj(m)) => set e | e in m.Values :: EntryNode(e)
      case (ManifestK, ManifestObj(source, details)) =>
        {SourceNode(s, source)} + set p | p in details.probes.Values :: Node(BlobK, p)
      case (ChunksK, ChunksObj(cs)) => set c | c in cs :: Node(BlobK, c.hash)
      case _ => {}
  }

  /** The walker can look inside the node; blobs are not looked into. */
  ghost predicate Expandable(s: Objects, n: Node) {
    match n.kind
    case CommitK => n.hash in s && s[n.hash].CommitObj?
    case TreeK => Load(s, n.hash).Ok?
    case ManifestK =>
      && n.hash in s
      && s[n.hash].ManifestObj?
      && s[n.hash].source in s
      && (s[s[n.hash].source].BlobObj? || s[s[n.hash].source].ChunksObj?)
    case ChunksK => n.hash in s && s[n.hash].ChunksObj?
    case BlobK => true
  }

  ghost predicate Steps(s: Objects, a: Node, b: Node, k: nat)
    decreases k
  {
    if k == 0 then a == b else exists m :: Steps(s, a, m, k - 1) && b in Succ(s, m)
  }

  ghost predicate Reach(s: Objects, a: Node, b: Node) {
    exists k: nat :: Steps(s, a, b, k)
  }

  lemma ReachSelf(s: Objects, a: Node)
    ensures Reach(s, a, a)
  {
    assert Steps(s, a, a, 0);
  }

  lemma ReachStep(s: Objects, a: Node, b: Node, c: Node)
    requires Reach(s, a, b) && c in Succ(s, b)
    ensures Reach(s, a, c)
  {
    var k: nat :| Steps(s, a, b, k);
    assert Steps(s, a, c, k + 1);
  }

  lemma {:induction false} StepsThen(s: Objects, a: Node, b: Node, c: Node, k: nat)
    requires Reach(s, a, b) && Steps(s, b, c, k)
    ensures Reach(s, a, c)
    decreases k
  {
    if k > 0 {
      var m :| Steps(s, b, m, k - 1) && c in Succ(s, m);
      StepsThen(s, a, b, m, k - 1);
      ReachStep(s, a, m, c);
    }
  }

  /** What is found from a successor is found from the node itself. */
  lemma ReachVia(s: Objects, a: Node, b: Node, c: Node)
    requires b in Succ(s, a) && Reach(s, b, c)
    ensures Reach(s, a, c)
  {
    ReachSelf(s, a);
    ReachStep(s, a, a, b);
    var k: nat :| Steps(s, b, c, k);
    StepsThen(s, a, b, c, k);
  }

  ghost predicate ClosedSet(s: Objects, l: set<Node>) {
    forall n {:trigger Succ(s, n)} | n in l :: Succ(s, n) <= l
  }

  lemma ClosedStep(s: Objects, l: set<Node>, m: Node, b: Node)
    requires ClosedSet(s, l) && m in l && b in Succ(s, m)
    ensures b in l
  {
  }

  lemma {:induction false} ClosedContains(s: Objects, l: set<Node>, a: Node, b: Node, k: nat)
    requires ClosedSet(s, l) && a in l && Steps(s, a, b, k)
    ensures b in l
    decreases k
  {
    if k > 0 {
      var m :| Steps(s, a, m, k - 1) && b in Succ(s, m);
      ClosedContains(s, l, a, m, k - 1);
      ClosedStep(s, l, m, b);
    }
  }

  /** `b` was found on the way from `a`. */
  ghost predicate AllFrom(s: Objects, a: Node, l: set<Node>) {
    forall n | n in l :: Reach(s, a, n)
  }

  /** Everything in `l` has been expanded into `all`. */
  ghost predicate Done(s: Objects, l: set<Node>, all: set<Node>) {
    forall n | n in l :: Expandable(s, n) && Succ(s, n) <= all
  }

  ghost predicate Stuck(s: Objects, a: Node) {
    exists n :: Reach(s, a, n) && !Expandable(s, n)
  }

  lemma FromSuccessor(s: Objects, a: Node, b: Node, l: set<Node>)
    requires b in Succ(s, a)
    ensures AllFrom(s, b, l) ==> AllFrom(s, a, l)
    ensures Stuck(s, b) ==> Stuck(s, a)
  {
    forall n | Reach(s, b, n) ensures Reach(s, a, n) {
      ReachVia(s, a, b, n);
    }
  }

  lemma SelfStuck(s: Objects, a: Node)
    requires !Expandable(s, a)
    ensures Stuck(s, a)
  {
    ReachSelf(s, a);
  }

  /** `now` extends `before` by nodes on the way from `a`, none of them a commit. */
  ghost predicate Found(s: Objects, a: Node, before: set<Node>, now: set<Node>) {
    before <= now && AllFrom(s, a, now - before) && forall n | n in now - before :: n.kind != CommitK
  }

  lemma FoundMore(s: Objects, a: Node, b: Node, before: set<Node>, mid: set<Node>, now: set<Node>)
    requires Found(s, a, before, mid) && b in Succ(s, a) && Found(s, b, mid, now)
    ensures Found(s, a, before, now)
    ensures Done(s, mid - before - {a}, mid) && Done(s, now - mid, now) ==> Done(s, now - before - {a}, now)
  {
    FromSuccessor(s, a, b, now - mid);
    assert now - before == (mid - before) + (now - mid);
  }

  /** Reachable from one of the root commits. */
  ghost predicate ReachAny(s: Objects, roots: seq<Hash>, n: Node) {
    exists h | h in roots :: Reach(s, Node(CommitK, h), n)
  }

  ghost predicate Traced(s: Objects, roots: seq<Hash>, l: set<Node>) {
    forall n | n in l :: ReachAny(s, roots, n)
  }

  /** Every live node has been expanded, up to the commits still in the queue. */
  ghost predicate Awaiting(s: Objects, l: set<Node>, queue: seq<Hash>) {
    forall n | n in l :: Expandable(s, n) && forall m | m in Succ(s, n) ::
        m in l || (m.kind == CommitK && m.hash in queue)
  }

  lemma ReachAnyThen(s: Objects, roots: seq<Hash>, a: Node, b: Node)
    requires ReachAny(s, roots, a) && Reach(s, a, b)
    ensures ReachAny(s, roots, b)
  {
    var h :| h in roots && Reach(s, Node(CommitK, h), a);
    var k: nat :| Steps(s, a, b, k);
    StepsThen(s, Node(CommitK, h), a, b, k);
  }

  /** The invariant of the queue loop. */
  ghost predicate Progress(s: Objects, roots: seq<Hash>, l: set<Node>, queue: seq<Hash>) {
    && Traced(s, roots, l)
    && Awaiting(s, l, queue)
    && (forall h | h in queue :: ReachAny(s, roots, Node(CommitK, h)))
    && forall h | h in roots :: Node(CommitK, h) in l || h in queue
  }

  lemma Started(s: Objects, roots: seq<Hash>)
    ensures Progress(s, roots, {}, roots)
  {
    forall h | h in roots ensures ReachAny(s, roots, Node(CommitK, h)) {
      ReachSelf(s, Node(CommitK, h));
    }
  }

  lemma CommitExpanded(s: Objects, roots: seq<Hash>, before: set<Node>, now: set<Node>, rest: seq<Hash>, h: Hash)
    requires Progress(s, roots, before, rest + [h]) && h in s && s[h].CommitObj?
    requires Found(s, Node(TreeK, s[h].tree), before + {Node(CommitK, h)}, now)
    ensures Stuck(s, Node(TreeK, s[h].tree)) ==> Unreadable(s, roots)
    ensures Node(TreeK, s[h].tree) in now && Done(s, now - (before + {Node(CommitK, h)}), now) ==>
            Progress(s, roots, now, rest + s[h].parents)
  {
    var me, tree := Node(CommitK, h), Node(TreeK, s[h].tree);
    assert h in rest + [h];
    ReachSelf(s, me);
    forall n | Reach(s, tree, n) ensures ReachAny(s, roots, n) {
      ReachVia(s, me, tree, n);
      ReachAnyThen(s, roots, me, n);
    }
    forall p | p in s[h].parents ensures ReachAny(s, roots, Node(CommitK, p)) {
      ReachStep(s, me, me, Node(CommitK, p));
      ReachAnyThen(s, roots, me, Node(CommitK, p));
    }
    assert now == before + {me} + (now - (before + {me}));
  }

  lemma CommitSkipped(s: Objects, roots: seq<Hash>, l: set<Node>, rest: seq<Hash>, h: Hash)
    requires Progress(s, roots, l, rest + [h]) && Node(CommitK, h) in l
    ensures Progress(s, roots, l, rest)
  {
    assert forall x | x in rest :: x in rest + [h];
  }

  lemma AllReached(s: Objects, roots: seq<Hash>, l: set<Node>)
    requires Progress(s, roots, l, [])
    ensures forall n :: n in l <==> ReachAny(s, roots, n)
  {
    assert ClosedSet(s, l);
    forall n | ReachAny(s, roots, n) ensures n in l {
      var h :| h in roots && Reach(s, Node(CommitK, h), n);
      var k: nat :| Steps(s, Node(CommitK, h), n, k);
      ClosedContains(s, l, Node(CommitK, h), n, k);
    }
  }

  ghost function Unvisited(s: Objects, kind: Kind, nodes: set<Node>): set<Hash> {
    set h | h in s && Node(kind, h) !in nodes
  }

  class LiveSet {
    var nodes: set<Node>

    constructor ()
      ensures nodes == {}
    {
      nodes := {};
    }

    /** `walk_source`, for the source of the manifest `m`. */
    method WalkSource(s: Objects, h: Hash) returns (r: Result<()>)
      modifies this
      ensures old(nodes) <= nodes
      ensures r.Ok? <==> h in s && (s[h].BlobObj? || s[h].ChunksObj?)
      ensures r.Err? ==> nodes == old(nodes)
      ensures r.Ok? ==> nodes == old(nodes) + {SourceNode(s, h)} + Succ(s, SourceNode(s, h))
    {
      if h !in s {
        return Err(NotFound);
      }
      match s[h]
      case BlobObj(_) =>
        nodes := nodes + {Node(BlobK, h)};
        return Ok(());
      case ChunksObj(cs) =>
        nodes := nodes + {Node(ChunksK, h)};
        for i := 0 to |cs|
          invariant nodes == old(nodes) + {Node(ChunksK, h)} + set c | c in cs[..i] :: Node(BlobK, c.hash)
        {
          assert cs[..i + 1] == cs[..i] + [cs[i]];
          nodes := nodes + {Node(BlobK, cs[i].hash)};
        }
        assert cs[..|cs|] == cs;
        return Ok(());
      case _ =>
        return Err(Corrupt);
    }

    /** `walk_manifest`. */
    method WalkManifest(s: Objects, h: Hash) returns (r: Result<()>)
      modifies this
      ensures Found(s, Node(ManifestK, h), old(nodes), nodes)
      ensures r.Ok? ==> Node(ManifestK, h) in nodes && Done(s, nodes - old(nodes), nodes)
      ensures r.Err? ==> Stuck(s, Node(ManifestK, h))
    {
      var me := Node(ManifestK, h);
      ReachSelf(s, me);
      if me in nodes {
        return Ok(());
      }
      nodes := nodes + {me};
      if h !in s {
        SelfStuck(s, me);
        return Err(NotFound);
      }
      if !s[h].ManifestObj? {
        SelfStuck(s, me);
        return Err(Corrupt);
      }
      var found := set p | p in s[h].details.probes.Values :: Node(BlobK, p);
      nodes := nodes + found;
      ghost var source := SourceNode(s, s[h].source);
      var res := WalkSource(s, s[h].source);
      forall n | n in Succ(s, me) ensures Reach(s, me, n) {
        ReachStep(s, me, me, n);
      }
      forall n | n in Succ(s, source) ensures Reach(s, me, n) {
        ReachStep(s, me, source, n);
      }
      if res.Err? {
        SelfStuck(s, me);
      }
      r := res;
    }

    /** `walk_tree`: terminates because each tree object of the store is entered once. */
    method WalkTree(s: Objects, h: Hash) returns (r: Result<()>)
      modifies this
      ensures Found(s, Node(TreeK, h), old(nodes), nodes)
      ensures r.Ok? ==> Node(TreeK, h) in nodes && Done(s, nodes - old(nodes), nodes)
      ensures r.Err? ==> Stuck(s, Node(TreeK, h))
      decreases Unvisited(s, TreeK, nodes), 0
    {
      var me := Node(TreeK, h);
      ReachSelf(s, me);
      if me in nodes {
        return Ok(());
      }
      nodes := nodes + {me};
      var m := Load(s, h);
      if m.Err? {
        SelfStuck(s, me);
        return Err(m.error);
      }
      var rest := m.value.Keys;
      ghost var before := old(nodes);
      while rest != {}
        invariant rest <= m.value.Keys && me in nodes
        invariant Found(s, me, before, nodes) && Done(s, nodes - before - {me}, nodes)
        invariant forall n | n in m.value.Keys - rest :: EntryNode(m.value[n]) in nodes
        decreases rest
      {
        var n :| n in rest;
        rest := rest - {n};
        var e := m.value[n];
        assert e in m.value.Values && EntryNode(e) in Succ(s, me);
        ghost var mid := nodes;
        assert Unvisited(s, TreeK, mid) < Unvisited(s, TreeK, before) by {
          assert h in Unvisited(s, TreeK, before) && h !in Unvisited(s, TreeK, mid);
        }
        var res := WalkEntry(s, e);
        FoundMore(s, me, EntryNode(e), before, mid, nodes);
        if res.Err? {
          FromSuccessor(s, me, EntryNode(e), {});
          return res;
        }
      }
      forall n | n in Succ(s, me) ensures n in nodes {
        var e :| e in m.value.Values && n == EntryNode(e);
        var k :| k in m.value && m.value[k] == e;
        assert k in m.value.Keys - rest;
      }
      r := Ok(());
    }

    method WalkEntry(s: Objects, e: Entry) returns (r: Result<()>)
      modifies this
      ensures Found(s, EntryNode(e), old(nodes), nodes)
      ensures r.Ok? ==> EntryNode(e) in nodes && Done(s, nodes - old(nodes), nodes)
      ensures r.Err? ==> Stuck(s, EntryNode(e))
      decreases Unvisited(s, TreeK, nodes), 1
    {
      match e.mode
      case Tree => r := WalkTree(s, e.hash);
      case Manifest => r := WalkManifest(s, e.hash);
      case Blob =>
        nodes := nodes + {Node(BlobK, e.hash)};
        ReachSelf(s, Node(BlobK, e.hash));
        r := Ok(());
    }

    /**
     `walk`. It succeeds exactly when every reachable node can be looked into,
     and the live set is then exactly what is reachable from the roots.
     */
    method Walk(s: Objects, roots: seq<Hash>) returns (r: Result<()>)
      requires nodes == {}
      modifies this
      ensures r.Ok? ==> forall n :: n in nodes <==> ReachAny(s, roots, n)
      ensures r.Ok? ==> forall n | n in nodes :: Expandable(s, n)
      ensures r.Err? ==> Unreadable(s, roots)
    {
      var queue := roots;
      Started(s, roots);
      while queue != []
        invariant Progress(s, roots, nodes, queue)
        decreases Unvisited(s, CommitK, nodes), |queue|
      {
        var rest, h := queue[..|queue| - 1], queue[|queue| - 1];
        assert queue == rest + [h];
        queue := rest;
        if Node(CommitK, h) in nodes {
          CommitSkipped(s, roots, nodes, rest, h);
          continue;
        }
        ghost var before := nodes;
        var parents :- WalkCommit(s, roots, rest, h);
        FewerLeft(s, before, nodes, h);
        queue := rest + parents;
      }
      AllReached(s, roots, nodes);
      r := Ok(());
    }

    /** One round of the queue loop, at a commit not seen before. */
    method WalkCommit(s: Objects, ghost roots: seq<Hash>, ghost rest: seq<Hash>, h: Hash) returns (r: Result<seq<Hash>>)
      requires Progress(s, roots, nodes, rest + [h]) && Node(CommitK, h) !in nodes
      modifies this
      ensures r.Ok? ==>
              h in s && Node(CommitK, h) in nodes && old(nodes) <= nodes && Progress(s, roots, nodes, rest + r.value)
      ensures r.Err? ==> Unreadable(s, roots)
    {
      var me := Node(CommitK, h);
      ghost var before := nodes;
      assert h in rest + [h] && ReachAny(s, roots, me);
      nodes := nodes + {me};
      if h !in s {
        assert !Expandable(s, me);
        return Err(NotFound);
      }
      if !s[h].CommitObj? {
        assert !Expandable(s, me);
        return Err(Corrupt);
      }
      var res := WalkTree(s, s[h].tree);
      CommitExpanded(s, roots, before, nodes, rest, h);
      if res.Err? {
        return Err(res.error);
      }
      r := Ok(s[h].parents);
    }
  }

  /** Something reachable cannot be looked into. */
  ghost predicate Unreadable(s: Objects, roots: seq<Hash>) {
    exists n :: ReachAny(s, roots, n) && !Expandable(s, n)
  }

  lemma FewerLeft(s: Objects, before: set<Node>, now: set<Node>, h: Hash)
    requires h in s && Node(CommitK, h) !in before && Node(CommitK, h) in now && before <= now
    ensures Unvisited(s, CommitK, now) < Unvisited(s, CommitK, before)
  {
    assert h in Unvisited(s, CommitK, before) && h !in Unvisited(s, CommitK, now);
  }
}
