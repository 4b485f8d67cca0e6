/**
 Which objects a successful walk of garbage collection finds
 (crates/omp-core/src/gc.rs:71-223), and a sweep keeps, in terms of the stored
 objects alone.
 */
module LiveSets {
  import opened Objects
  import opened Gc
  import opened History

  /**
   Closed under what the stored objects refer to: a commit to its tree and parents, a tree
   to its entries, a manifest to its source and to the probes it records, a chunk list to
   its chunks.
   */
  ghost predicate Complete(s: Objects, l: set<Node>) {
    && (forall h | Node(CommitK, h) in l && h in s && s[h].CommitObj? ::
          Node(TreeK, s[h].tree) in l && forall p | p in s[h].parents :: Node(CommitK, p) in l)
    && (forall h, n | Node(TreeK, h) in l && h in s && s[h].TreeObj? && n in s[h].entries ::
          && (s[h].entries[n].mode == Tree ==> Node(TreeK, s[h].entries[n].hash) in l)
          && (s[h].entries[n].mode == Manifest ==> Node(ManifestK, s[h].entries[n].hash) in l)
          && (s[h].entries[n].mode == Blob ==> Node(BlobK, s[h].entries[n].hash) in l))
    && (forall m | Node(ManifestK, m) in l && m in s && s[m].ManifestObj? ::
          if s[m].source in s && s[s[m].source].ChunksObj? then Node(ChunksK, s[m].source) in l
          else Node(BlobK, s[m].source) in l)
    && (forall m, p | Node(ManifestK, m) in l && m in s && s[m].ManifestObj? && p in s[m].details.probes ::
          Node(BlobK, s[m].details.probes[p]) in l)
    && (forall h, i | Node(ChunksK, h) in l && h in s && s[h].ChunksObj? && 0 <= i < |s[h].chunks| ::
          Node(BlobK, s[h].chunks[i].hash) in l)
  }

  lemma CommitRefs(s: Objects, l: set<Node>, h: Hash)
    requires ClosedSet(s, l) && Node(CommitK, h) in l && h in s && s[h].CommitObj?
    ensures Node(TreeK, s[h].tree) in l && forall p | p in s[h].parents :: Node(CommitK, p) in l
  {
    var me := Node(CommitK, h);
    assert Node(TreeK, s[h].tree) in Succ(s, me);
    forall p | p in s[h].parents ensures Node(CommitK, p) in l {
      ClosedStep(s, l, me, Node(CommitK, p));
    }
  }

  lemma TreeRef(s: Objects, l: set<Node>, h: Hash, n: string)
    requires ClosedSet(s, l) && Node(TreeK, h) in l && h in s && s[h].TreeObj? && n in s[h].entries
    ensures EntryNode(s[h].entries[n]) in l
  {
    assert s[h].entries[n] in s[h].entries.Values;
    ClosedStep(s, l, Node(TreeK, h), EntryNode(s[h].entries[n]));
  }

  lemma ManifestRefs(s: Objects, l: set<Node>, m: Hash)
    requires ClosedSet(s, l) && Node(ManifestK, m) in l && m in s && s[m].ManifestObj?
    ensures SourceNode(s, s[m].source) in l
    ensures forall p | p in s[m].details.probes :: Node(BlobK, s[m].details.probes[p]) in l
  {
    ClosedStep(s, l, Node(ManifestK, m), SourceNode(s, s[m].source));
    forall p | p in s[m].details.probes ensures Node(BlobK, s[m].details.probes[p]) in l {
      assert s[m].details.probes[p] in s[m].details.probes.Values;
      ClosedStep(s, l, Node(ManifestK, m), Node(BlobK, s[m].details.probes[p]));
    }
  }

  lemma ChunkRef(s: Objects, l: set<Node>, h: Hash, i: nat)
    requires ClosedSet(s, l) && Node(ChunksK, h) in l && h in s && s[h].ChunksObj? && i < |s[h].chunks|
    ensures Node(BlobK, s[h].chunks[i].hash) in l
  {
    assert s[h].chunks[i] in s[h].chunks;
    ClosedStep(s, l, Node(ChunksK, h), Node(BlobK, s[h].chunks[i].hash));
  }

  lemma ClosedComplete(s: Objects, l: set<Node>)
    requires ClosedSet(s, l)
    ensures Complete(s, l)
  {
    forall h | Node(CommitK, h) in l && h in s && s[h].CommitObj?
      ensures Node(TreeK, s[h].tree) in l && forall p | p in s[h].parents :: Node(CommitK, p) in l
    {
      CommitRefs(s, l, h);
    }
    forall h, n | Node(TreeK, h) in l && h in s && s[h].TreeObj? && n in s[h].entries
      ensures EntryNode(s[h].entries[n]) in l
    {
      TreeRef(s, l, h, n);
    }
    forall m | Node(ManifestK, m) in l && m in s && s[m].ManifestObj?
      ensures SourceNode(s, s[m].source) in l
      ensures forall p | p in s[m].details.probes :: Node(BlobK, s[m].details.probes[p]) in l
    {
      ManifestRefs(s, l, m);
    }
    forall h, i | Node(ChunksK, h) in l && h in s && s[h].ChunksObj? && 0 <= i < |s[h].chunks|
      ensures Node(BlobK, s[h].chunks[i].hash) in l
    {
      ChunkRef(s, l, h, i);
    }
  }

  /** The references are no more than these. */
  lemma CompleteClosed(s: Objects, l: set<Node>)
    requires Complete(s, l)
    ensures ClosedSet(s, l)
  {
    forall a | a in l ensures Succ(s, a) <= l {
      forall b | b in Succ(s, a) ensures b in l {
        CompleteStep(s, l, a, b);
      }
    }
  }

  lemma CompleteStep(s: Objects, l: set<Node>, a: Node, b: Node)
    requires Complete(s, l) && a in l && b in Succ(s, a)
    ensures b in l
  {
    assert a == Node(a.kind, a.hash);
    match s[a.hash]
    case TreeObj(m) =>
      var e :| e in m.Values && b == EntryNode(e);
      var n :| n in m && m[n] == e;
    case ManifestObj(source, details) =>
      if b != SourceNode(s, source) {
        var h :| h in details.probes.Values && b == Node(BlobK, h);
        var p :| p in details.probes && details.probes[p] == h;
      }
    case ChunksObj(cs) =>
      var c :| c in cs && b == Node(BlobK, c.hash);
      var i :| 0 <= i < |cs| && cs[i] == c;
    case _ =>
  }

  /** The live set of a successful walk is the least one that has the roots in it and is complete. */
  lemma LiveExact(s: Objects, roots: seq<Hash>, live: set<Node>)
    requires forall n :: n in live <==> ReachAny(s, roots, n)
    ensures Complete(s, live) && forall r | r in roots :: Node(CommitK, r) in live
    ensures forall l | Complete(s, l) && (forall r | r in roots :: Node(CommitK, r) in l) :: live <= l
  {
    forall n | n in live ensures Succ(s, n) <= live {
      forall b | b in Succ(s, n) ensures b in live {
        ReachSelf(s, n);
        ReachStep(s, n, n, b);
        ReachAnyThen(s, roots, n, b);
      }
    }
    ClosedComplete(s, live);
    forall r | r in roots ensures Node(CommitK, r) in live {
      ReachSelf(s, Node(CommitK, r));
    }
    forall l | Complete(s, l) && (forall r | r in roots :: Node(CommitK, r) in l) ensures live <= l {
      CompleteClosed(s, l);
      forall n | n in live ensures n in l {
        var r :| r in roots && Reach(s, Node(CommitK, r), n);
        var k: nat :| Steps(s, Node(CommitK, r), n, k);
        ClosedContains(s, l, Node(CommitK, r), n, k);
      }
    }
  }

  /** The sweep keeps, unchanged, exactly the stored objects that are live as something. */
  lemma SweepExact(s: Objects, live: set<Node>, h: Hash)
    ensures h in Sweep(s, live) <==> h in s && exists k :: Node(k, h) in live
    ensures h in Sweep(s, live) ==> Sweep(s, live)[h] == s[h]
  {
    if k :| Node(k, h) in live {
      assert Node(k, h).hash == h;
    }
    if n :| n in live && n.hash == h {
      assert n == Node(n.kind, h);
    }
  }

  /** Every probe that a live manifest records is live. */
  lemma ProbesLive(s: Objects, live: set<Node>, m: Hash, h: Hash)
    requires Complete(s, live) && Node(ManifestK, m) in live && m in s && s[m].ManifestObj?
    requires h in s[m].details.probes.Values
    ensures Node(BlobK, h) in live
  {
    var p :| p in s[m].details.probes && s[m].details.probes[p] == h;
  }

  /** So is every chunk of its source. */
  lemma ChunksLive(s: Objects, live: set<Node>, m: Hash, i: nat)
    requires Complete(s, live) && Node(ManifestK, m) in live && m in s && s[m].ManifestObj?
    requires s[m].source in s && s[s[m].source].ChunksObj? && i < |s[s[m].source].chunks|
    ensures Node(BlobK, s[s[m].source].chunks[i].hash) in live
  {
    assert Node(ChunksK, s[m].source) in live;
  }

  /**
   The probes that a live manifest records, its source and its chunks survive the sweep
   unchanged: an ingest can be repeated from them.
   */
  lemma SweepKeepsInputs(s: Objects, roots: seq<Hash>, live: set<Node>, m: Hash)
    requires forall n :: n in live <==> ReachAny(s, roots, n)
    requires Node(ManifestK, m) in live && m in s && s[m].ManifestObj?
    ensures forall h | h in s[m].details.probes.Values ::
              Node(BlobK, h) in live && (h in s ==> h in Sweep(s, live) && Sweep(s, live)[h] == s[h])
    ensures s[m].source in s ==> s[m].source in Sweep(s, live) && Sweep(s, live)[s[m].source] == s[s[m].source]
    ensures s[m].source in s && s[s[m].source].ChunksObj? ==>
              forall i | 0 <= i < |s[s[m].source].chunks| && s[s[m].source].chunks[i].hash in s ::
                var h := s[s[m].source].chunks[i].hash; h in Sweep(s, live) && Sweep(s, live)[h] == s[h]
  {
    LiveExact(s, roots, live);
    forall h | h in s[m].details.probes.Values ensures Node(BlobK, h) in live {
      ProbesLive(s, live, m, h);
    }
    forall h ensures h in s && (exists k :: Node(k, h) in live) ==> h in Sweep(s, live) && Sweep(s, live)[h] == s[h] {
      SweepExact(s, live, h);
    }
    if s[m].source in s && s[s[m].source].ChunksObj? {
      forall i | 0 <= i < |s[s[m].source].chunks| ensures Node(BlobK, s[s[m].source].chunks[i].hash) in live {
        ChunksLive(s, live, m, i);
      }
    }
  }
}
