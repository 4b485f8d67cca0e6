/**
 The commit log (crates/omp-core/src/refs.rs:111-134), its agreement with the
 live set and with first-parent ancestry, and what reads see after everything
 that is not live has been deleted.
 */
module History {
  import opened Objects
  import opened Paths
  import opened StorePaths
  import opened Refs
  import opened Gc
  import opened Contents
  import LogOrder

  function Reverse(xs: seq<Hash>): seq<Hash> {
    seq(|xs|, i requires 0 <= i < |xs| => xs[|xs| - 1 - i])
  }

  /** The rest of a `log` walk from a given stack, seen set and output. */
  function LogFrom(s: Objects, stack: seq<Hash>, seen: set<Hash>, out: seq<Hash>, max: nat): seq<Hash>
    decreases s.Keys - seen, |stack|
  {
    if stack == [] || |out| >= max then out
    else
      var rest, h := stack[..|stack| - 1], stack[|stack| - 1];
      if h in seen then LogFrom(s, rest, seen, out, max)
      else if h !in s || !s[h].CommitObj? then out
      else LogFrom(s, rest + Reverse(s[h].parents), seen + {h}, out + [h], max)
  }

  function LogOf(s: Objects, head: Hash, max: nat): seq<Hash> {
    LogFrom(s, [head], {}, [], max)
  }

  method Log(s: Objects, head: Hash, max: nat) returns (out: seq<Hash>)
    ensures out == LogOf(s, head, max)
  {
    var queue, seen := [head], {};
    out := [];
    while queue != []
      invariant LogFrom(s, queue, seen, out, max) == LogOf(s, head, max)
      decreases s.Keys - seen, |queue|
    {
      var h := queue[|queue| - 1];
      queue := queue[..|queue| - 1];
      if |out| >= max {
        break;
      }
      if h in seen {
        continue;
      }
      if h !in s || !s[h].CommitObj? {
        break;
      }
      seen := seen + {h};
      queue := queue + Reverse(s[h].parents);
      out := out + [h];
    }
  }

  // ---- The log lists each reachable commit once ----

  ghost predicate Distinct(xs: seq<Hash>) {
    forall i, j | 0 <= i < j < |xs| :: xs[i] != xs[j]
  }

  ghost predicate IsParent(s: Objects, h: Hash, p: Hash) {
    h in s && s[h].CommitObj? && p in s[h].parents
  }

  ghost predicate ParentsStored(s: Objects) {
    forall h, p | IsParent(s, h, p) :: p in s && s[p].CommitObj?
  }

  lemma SoundParents(s: Objects)
    requires SoundStore(s)
    ensures ParentsStored(s)
  {
    forall h, p | IsParent(s, h, p) ensures p in s && s[p].CommitObj? {
      assert Sound(s, s[h]);
    }
  }

  /** `h` is reached from `head` in `k` steps to a parent, first or not. */
  ghost predicate Generations(s: Objects, head: Hash, h: Hash, k: nat)
    decreases k
  {
    if k == 0 then head == h else exists m :: Generations(s, head, m, k - 1) && IsParent(s, m, h)
  }

  ghost predicate CommitReach(s: Objects, head: Hash, h: Hash) {
    exists k: nat :: Generations(s, head, h, k)
  }

  lemma {:induction false} GenerationsAreSteps(s: Objects, head: Hash, b: Node, k: nat)
    requires b.kind == CommitK
    ensures Generations(s, head, b.hash, k) <==> Steps(s, Node(CommitK, head), b, k)
    decreases k
  {
    if k > 0 {
      forall m | IsParent(s, m, b.hash) ensures b in Succ(s, Node(CommitK, m)) {
      }
      forall m | b in Succ(s, m) ensures m.kind == CommitK && IsParent(s, m.hash, b.hash) {
      }
      forall m: Node | m.kind == CommitK
        ensures Generations(s, head, m.hash, k - 1) <==> Steps(s, Node(CommitK, head), m, k - 1)
      {
        GenerationsAreSteps(s, head, m, k - 1);
      }
      if Generations(s, head, b.hash, k) {
        var m :| Generations(s, head, m, k - 1) && IsParent(s, m, b.hash);
        assert Steps(s, Node(CommitK, head), Node(CommitK, m), k - 1);
      }
    }
  }

  /** Reaching a commit through its descendants is reaching it in the reference graph. */
  lemma CommitReachIsReach(s: Objects, head: Hash, h: Hash)
    ensures CommitReach(s, head, h) <==> Reach(s, Node(CommitK, head), Node(CommitK, h))
  {
    forall k: nat ensures Generations(s, head, h, k) <==> Steps(s, Node(CommitK, head), Node(CommitK, h), k) {
      GenerationsAreSteps(s, head, Node(CommitK, h), k);
    }
  }

  ghost predicate LogState(s: Objects, head: Hash, stack: seq<Hash>, seen: set<Hash>, out: seq<Hash>) {
    && Distinct(out)
    && (forall h :: h in seen <==> h in out)
    && (forall h | h in out || h in stack :: h in s && s[h].CommitObj? && CommitReach(s, head, h))
    && (forall h, p | h in out && IsParent(s, h, p) :: p in out || p in stack)
    && (head in out || head in stack)
  }

  lemma {:induction false} CommitsClosed(s: Objects, out: seq<Hash>, head: Hash, h: Hash, k: nat)
    requires head in out && forall x, p | x in out && IsParent(s, x, p) :: p in out
    requires Generations(s, head, h, k)
    ensures h in out
    decreases k
  {
    if k > 0 {
      var m :| Generations(s, head, m, k - 1) && IsParent(s, m, h);
      CommitsClosed(s, out, head, m, k - 1);
    }
  }

  lemma {:induction false} LogFromExact(s: Objects, head: Hash, stack: seq<Hash>, seen: set<Hash>, out: seq<Hash>,
                                        max: nat)
    requires ParentsStored(s) && LogState(s, head, stack, seen, out)
    ensures var r := LogFrom(s, stack, seen, out, max);
            && Distinct(r)
            && (forall h | h in r :: CommitReach(s, head, h))
            && (|r| < max ==> forall h | CommitReach(s, head, h) :: h in r)
    decreases s.Keys - seen, |stack|
  {
    if stack == [] {
      forall h | CommitReach(s, head, h) ensures h in out {
        var k: nat :| Generations(s, head, h, k);
        CommitsClosed(s, out, head, h, k);
      }
    } else if |out| < max {
      var rest, h := stack[..|stack| - 1], stack[|stack| - 1];
      assert stack == rest + [h] && h in stack;
      if h in seen {
        LogFromExact(s, head, rest, seen, out, max);
      } else {
        LogStateStep(s, head, rest, h, seen, out);
        LogFromExact(s, head, rest + Reverse(s[h].parents), seen + {h}, out + [h], max);
      }
    }
  }

  lemma LogStateStep(s: Objects, head: Hash, rest: seq<Hash>, h: Hash, seen: set<Hash>, out: seq<Hash>)
    requires ParentsStored(s) && LogState(s, head, rest + [h], seen, out) && h !in seen
    ensures h in s && s[h].CommitObj?
    ensures LogState(s, head, rest + Reverse(s[h].parents), seen + {h}, out + [h])
  {
    assert h in rest + [h];
    var ps, next := s[h].parents, rest + Reverse(s[h].parents);
    var k: nat :| Generations(s, head, h, k);
    forall p ensures IsParent(s, h, p) <==> p in Reverse(ps) {
      if p in ps {
        var i :| 0 <= i < |ps| && ps[i] == p;
        assert Reverse(ps)[|ps| - 1 - i] == p;
      }
    }
    forall p | p in Reverse(ps) ensures CommitReach(s, head, p) {
      assert Generations(s, head, p, k + 1);
    }
    forall x, p | x in out + [h] && IsParent(s, x, p) ensures p in out + [h] || p in next {
      if x != h {
        assert p in out || p in rest + [h];
      }
    }
  }

  /**
   When no parent is missing, `log` gives each commit at most once, gives only commits
   that the live-set walker reaches, and gives all of them unless it was cut
   off at `max`.
   */
  lemma LogExact(s: Objects, head: Hash, max: nat)
    requires ParentsStored(s) && head in s && s[head].CommitObj?
    ensures Distinct(LogOf(s, head, max))
    ensures forall h | h in LogOf(s, head, max) :: ReachAny(s, [head], Node(CommitK, h))
    ensures |LogOf(s, head, max)| < max ==> forall h | ReachAny(s, [head], Node(CommitK, h)) :: h in LogOf(s, head, max)
  {
    assert Generations(s, head, head, 0);
    LogFromExact(s, head, [head], {}, [], max);
    forall h ensures ReachAny(s, [head], Node(CommitK, h)) <==> CommitReach(s, head, h) {
      CommitReachIsReach(s, head, h);
    }
  }

  /** With room for every object the log is complete. */
  lemma LogComplete(s: Objects, head: Hash, max: nat)
    requires ParentsStored(s) && head in s && s[head].CommitObj? && max > |s|
    ensures forall h :: h in LogOf(s, head, max) <==> ReachAny(s, [head], Node(CommitK, h))
  {
    LogExact(s, head, max);
    LogStored(s, [head], {}, [], max);
    DistinctSize(LogOf(s, head, max), s.Keys);
  }

  lemma {:induction false} LogStored(s: Objects, stack: seq<Hash>, seen: set<Hash>, out: seq<Hash>, max: nat)
    requires forall h | h in out :: h in s
    ensures forall h | h in LogFrom(s, stack, seen, out, max) :: h in s
    decreases s.Keys - seen, |stack|
  {
    if stack != [] && |out| < max {
      var rest, h := stack[..|stack| - 1], stack[|stack| - 1];
      if h in seen {
        LogStored(s, rest, seen, out, max);
      } else if h in s && s[h].CommitObj? {
        LogStored(s, rest + Reverse(s[h].parents), seen + {h}, out + [h], max);
      }
    }
  }

  lemma {:induction false} DistinctSize(xs: seq<Hash>, keys: set<Hash>)
    requires Distinct(xs) && forall x | x in xs :: x in keys
    ensures |xs| <= |keys|
    decreases |xs|
  {
    if xs != [] {
      var n := |xs| - 1;
      assert xs[n] in xs && xs == xs[..n] + [xs[n]];
      forall x | x in xs[..n] ensures x in keys - {xs[n]} {
        var i :| 0 <= i < n && xs[i] == x;
      }
      DistinctSize(xs[..n], keys - {xs[n]});
    }
  }

  // ---- The log begins with the first-parent chain ----

  ghost function Height(h: Hash): nat {
    if h.obj.CommitObj? && h.obj.parents != [] then 1 + Height(h.obj.parents[0]) else 0
  }

  lemma {:induction false} LogFromExtends(s: Objects, stack: seq<Hash>, seen: set<Hash>, out: seq<Hash>, max: nat)
    ensures out <= LogFrom(s, stack, seen, out, max)
    decreases s.Keys - seen, |stack|
  {
    if stack != [] && |out| < max {
      var rest, h := stack[..|stack| - 1], stack[|stack| - 1];
      if h in seen {
        LogFromExtends(s, rest, seen, out, max);
      } else if h in s && s[h].CommitObj? {
        LogFromExtends(s, rest + Reverse(s[h].parents), seen + {h}, out + [h], max);
      }
    }
  }

  lemma {:induction false} LogFromChain(s: Objects, stack: seq<Hash>, seen: set<Hash>, out: seq<Hash>, max: nat, n: nat)
    requires Addressed(s) && stack != [] && |out| + n < max
    requires forall h | h in seen :: Height(h) > Height(stack[|stack| - 1])
    requires Ancestor(s, stack[|stack| - 1], n).Ok?
    requires Ancestor(s, stack[|stack| - 1], n).value in s && s[Ancestor(s, stack[|stack| - 1], n).value].CommitObj?
    ensures |LogFrom(s, stack, seen, out, max)| > |out| + n
    ensures LogFrom(s, stack, seen, out, max)[|out| + n] == Ancestor(s, stack[|stack| - 1], n).value
    decreases n
  {
    var rest, h := stack[..|stack| - 1], stack[|stack| - 1];
    var next := rest + Reverse(s[h].parents);
    if n == 0 {
      LogFromExtends(s, next, seen + {h}, out + [h], max);
    } else {
      assert next[|next| - 1] == s[h].parents[0];
      LogFromChain(s, next, seen + {h}, out + [h], max, n - 1);
    }
  }

  /** `log[i]` is `HEAD~i`, all along the first-parent chain. */
  lemma LogChain(s: Objects, head: Hash, max: nat, i: nat)
    requires Addressed(s) && i < max && Ancestor(s, head, i).Ok?
    requires Ancestor(s, head, i).value in s && s[Ancestor(s, head, i).value].CommitObj?
    ensures |LogOf(s, head, max)| > i && LogOf(s, head, max)[i] == Ancestor(s, head, i).value
  {
    LogFromChain(s, [head], {}, [], max, i);
  }

  // ---- When the log lists children before parents ----

  /** What the walk gives for a stack of commits, the last one first. */
  function VisitStack(stack: seq<Hash>, out: seq<Hash>): seq<Hash> {
    if stack == [] then out else VisitStack(stack[..|stack| - 1], LogOrder.Visit(stack[|stack| - 1], out))
  }

  function Take(r: seq<Hash>, max: nat): seq<Hash> {
    if |r| <= max then r else r[..max]
  }

  lemma {:induction false} StackExtends(stack: seq<Hash>, out: seq<Hash>)
    ensures out <= VisitStack(stack, out)
  {
    if stack != [] {
      var n := |stack| - 1;
      LogOrder.VisitFresh(stack[n], out);
      StackExtends(stack[..n], LogOrder.Visit(stack[n], out));
      LogOrder.PrefixTrans(out, LogOrder.Visit(stack[n], out), VisitStack(stack, out));
    }
  }

  /** Parents pushed in reverse are walked in order. */
  lemma {:induction false} StackParents(h: Hash, k: nat, rest: seq<Hash>, out: seq<Hash>)
    requires k <= |LogOrder.Parents(h)|
    ensures VisitStack(rest + Reverse(LogOrder.Parents(h)[k..]), out) == VisitStack(rest, LogOrder.VisitFrom(h, k, out))
    decreases |LogOrder.Parents(h)| - k
  {
    var ps := LogOrder.Parents(h);
    if k == |ps| {
      assert rest + Reverse(ps[k..]) == rest;
    } else {
      var stack := rest + Reverse(ps[k..]);
      assert stack[|stack| - 1] == ps[k] && stack[..|stack| - 1] == rest + Reverse(ps[k + 1..]);
      StackParents(h, k + 1, rest, LogOrder.Visit(ps[k], out));
    }
  }

  /** On a closed store the log is the walk, cut off at `max`. */
  lemma {:induction false} LogIsWalk(s: Objects, stack: seq<Hash>, seen: set<Hash>, out: seq<Hash>, max: nat)
    requires Addressed(s) && ParentsStored(s) && (forall h | h in stack :: h in s && s[h].CommitObj?)
    requires (forall h :: h in seen <==> h in out) && |out| <= max
    ensures LogFrom(s, stack, seen, out, max) == Take(VisitStack(stack, out), max)
    decreases s.Keys - seen, |stack|
  {
    StackExtends(stack, out);
    if stack != [] && |out| < max {
      var rest, h := stack[..|stack| - 1], stack[|stack| - 1];
      assert stack == rest + [h] && h in stack;
      if h in seen {
        LogIsWalk(s, rest, seen, out, max);
      } else {
        var ps := LogOrder.Parents(h);
        assert s[h] == h.obj && ps == s[h].parents && ps[0..] == ps;
        forall p | p in Reverse(ps) ensures p in s && s[p].CommitObj? {
          assert IsParent(s, h, p);
        }
        LogIsWalk(s, rest + Reverse(ps), seen + {h}, out + [h], max);
        StackParents(h, 0, rest, out + [h]);
      }
    }
  }

  lemma LogOfIsWalk(s: Objects, head: Hash, max: nat)
    requires Addressed(s) && ParentsStored(s) && head in s && s[head].CommitObj?
    ensures LogOf(s, head, max) == Take(LogOrder.Visit(head, []), max)
  {
    LogIsWalk(s, [head], {}, [], max);
    assert [head][..0] == [];
  }

  lemma TakeOrdered(r: seq<Hash>, max: nat)
    requires LogOrder.ChildrenFirst(r)
    ensures LogOrder.ChildrenFirst(Take(r, max))
  {
    var t := Take(r, max);
    forall i | 0 <= i < |t| ensures LogOrder.ParentsAfter(t, 0, i) {
      assert LogOrder.ParentsAfter(r, 0, i) && t[0..i] == r[0..i];
    }
  }

  /**
   The comment on `log` promises children before parents. On a closed store that holds
   exactly when no reachable merge crosses: none of its parents reaches a commit that the
   parents before it do not, while they do reach a parent of that commit.
   */
  lemma LogOrderIff(s: Objects, head: Hash)
    requires Addressed(s) && ParentsStored(s) && head in s && s[head].CommitObj?
    ensures (forall max: nat :: LogOrder.ChildrenFirst(LogOf(s, head, max))) <==> LogOrder.NoCrossing(head)
  {
    var r := LogOrder.Visit(head, []);
    LogOrder.WalkOrderIff(head);
    forall max: nat ensures LogOf(s, head, max) == Take(r, max) {
      LogOfIsWalk(s, head, max);
    }
    if LogOrder.NoCrossing(head) {
      forall max: nat ensures LogOrder.ChildrenFirst(LogOf(s, head, max)) {
        TakeOrdered(r, max);
      }
    } else {
      assert LogOf(s, head, |r|) == r;
    }
  }

  /** A merge that crosses: its second parent is a child of its first. */
  lemma LogOrderOnMerge(s: Objects, m: Hash, a: Hash, b: Hash, max: nat)
    requires m != a && m != b && a != b && m in s && a in s && b in s && max >= 4
    requires s[m].CommitObj? && s[m].parents == [a, b]
    requires s[a].CommitObj? && s[a].parents == []
    requires s[b].CommitObj? && s[b].parents == [a]
    ensures LogOf(s, m, max) == [m, a, b]
  {
    ReverseSmall(a, b);
    LogPop(s, [m], [], m, {}, {m}, [], [m], max, [b, a]);
    LogPop(s, [b, a], [b], a, {m}, {m, a}, [m], [m, a], max, [b]);
    LogPop(s, [b], [], b, {m, a}, {m, a, b}, [m, a], [m, a, b], max, [a]);
    LogSkip(s, a, {m, a, b}, [m, a, b], max);
  }

  lemma ReverseSmall(a: Hash, b: Hash)
    ensures Reverse([a, b]) == [b, a] && Reverse([a]) == [a]
  {
  }

  /** One step of the walk at a commit not seen yet. */
  lemma LogPop(s: Objects, stack: seq<Hash>, rest: seq<Hash>, h: Hash, seen: set<Hash>, seen': set<Hash>,
               out: seq<Hash>, out': seq<Hash>, max: nat, next: seq<Hash>)
    requires h in s && s[h].CommitObj? && h !in seen && |out| < max && next == rest + Reverse(s[h].parents)
    requires stack == rest + [h] && seen' == seen + {h} && out' == out + [h]
    ensures LogFrom(s, stack, seen, out, max) == LogFrom(s, next, seen', out', max)
  {
    assert stack[..|stack| - 1] == rest && stack[|stack| - 1] == h;
  }

  lemma LogSkip(s: Objects, h: Hash, seen: set<Hash>, out: seq<Hash>, max: nat)
    requires h in seen
    ensures LogFrom(s, [h], seen, out, max) == out
  {
    var none: seq<Hash> := [];
    assert [h][..0] == none;
    assert LogFrom(s, none, seen, out, max) == out;
  }

  // ---- Deleting what is not live ----

  ghost function Sweep(s: Objects, live: set<Node>): Objects {
    var keep := set n | n in live :: n.hash;
    map h | h in s && h in keep :: s[h]
  }

  lemma {:induction false} SweepFind(s: Objects, live: set<Node>, e: Entry, p: Path)
    requires Done(s, live, live) && EntryNode(e) in live
    ensures FindIn(Sweep(s, live), e, p) == FindIn(s, e, p)
    ensures FindIn(s, e, p).Ok? && FindIn(s, e, p).value.Some? ==> EntryNode(FindIn(s, e, p).value.value) in live
    decreases |p|
  {
    if p != [] && e.mode == Tree {
      var m := Load(s, e.hash).value;
      assert Load(Sweep(s, live), e.hash) == Load(s, e.hash);
      if p[0] in m {
        assert m[p[0]] in m.Values;
        SweepFind(s, live, m[p[0]], p[1..]);
      }
    }
  }

  lemma {:induction false} SweepReadable(s: Objects, live: set<Node>, e: Entry)
    requires Addressed(s) && Done(s, live, live) && EntryNode(e) in live && Readable(s, e)
    ensures Readable(Sweep(s, live), e)
  {
    if e.mode == Tree {
      var m := e.hash.obj.entries;
      forall n | n in m ensures Readable(Sweep(s, live), m[n]) {
        assert m[n] in m.Values && EntryNode(m[n]) in Succ(s, EntryNode(e));
        SweepReadable(s, live, m[n]);
      }
    }
  }

  lemma {:induction false} SweepAncestor(s: Objects, live: set<Node>, h: Hash, n: nat)
    requires Done(s, live, live) && Node(CommitK, h) in live
    ensures Ancestor(Sweep(s, live), h, n) == Ancestor(s, h, n)
    decreases n
  {
    if n > 0 && s[h].parents != [] {
      assert s[h].parents[0] in s[h].parents;
      SweepAncestor(s, live, s[h].parents[0], n - 1);
    }
  }

  lemma {:induction false} SweepLog(s: Objects, live: set<Node>, stack: seq<Hash>, seen: set<Hash>, out: seq<Hash>,
                                    max: nat)
    requires Done(s, live, live) && forall h | h in stack :: Node(CommitK, h) in live
    ensures LogFrom(Sweep(s, live), stack, seen, out, max) == LogFrom(s, stack, seen, out, max)
    decreases s.Keys - seen, |stack|
  {
    if stack != [] && |out| < max {
      var rest, h := stack[..|stack| - 1], stack[|stack| - 1];
      assert h in stack && forall x | x in rest :: x in stack;
      if h in seen {
        SweepLog(s, live, rest, seen, out, max);
      } else {
        assert Expandable(s, Node(CommitK, h)) && Sweep(s, live)[h] == s[h];
        var ps := s[h].parents;
        assert forall p | p in Reverse(ps) :: p in ps;
        assert forall p | p in ps :: Node(CommitK, p) in Succ(s, Node(CommitK, h));
        SweepLog(s, live, rest + Reverse(ps), seen + {h}, out + [h], max);
      }
    }
  }

  /** The live set of a successful walk is closed under references. */
  lemma LiveDone(s: Objects, roots: seq<Hash>, live: set<Node>)
    requires forall n :: n in live <==> ReachAny(s, roots, n)
    requires forall n | n in live :: Expandable(s, n)
    ensures Done(s, live, live)
  {
    forall n | n in live ensures Succ(s, n) <= live {
      forall b | b in Succ(s, n) ensures b in live {
        ReachSelf(s, n);
        ReachStep(s, n, n, b);
        ReachAnyThen(s, roots, n, b);
      }
    }
  }

  lemma LiveTree(s: Objects, live: set<Node>, c: Hash)
    requires Done(s, live, live) && Node(CommitK, c) in live
    ensures c in s && s[c].CommitObj? && EntryNode(Entry(Tree, s[c].tree)) in live
  {
    assert Node(TreeK, s[c].tree) in Succ(s, Node(CommitK, c));
  }

  /** Every stored chunk of the manifest's chunk list is still stored. */
  ghost predicate ChunksKept(s: Objects, s': Objects, m: Hash) {
    && m in s && s[m].ManifestObj? && s[m].source in s
    && (s[s[m].source].ChunksObj? ==>
          forall c | c in s[s[m].source].chunks && c.hash in s :: c.hash in s' && s'[c.hash] == s[c.hash])
  }

  /** The source of a live manifest survives, and so do the stored chunks of a live chunk list. */
  lemma SweepSource(s: Objects, live: set<Node>, m: Hash)
    requires Done(s, live, live) && Node(ManifestK, m) in live
    ensures BytesOf(Sweep(s, live), m) == BytesOf(s, m) && ChunksKept(s, Sweep(s, live), m)
  {
    var src := SourceNode(s, s[m].source);
    assert src in Succ(s, Node(ManifestK, m));
    assert Succ(s, src) <= live;
    if s[s[m].source].ChunksObj? {
      forall c | c in s[s[m].source].chunks ensures Node(BlobK, c.hash) in live {
        assert Node(BlobK, c.hash) in Succ(s, src);
      }
    }
  }

  /**
   Collecting garbage is safe: with the live set of a successful walk, deleting
   every other object changes no path lookup, no listing, no ancestor, no log,
   no file and no chunk of anything reachable from the roots.
   */
  lemma SweepSafe(s: Objects, roots: seq<Hash>, live: set<Node>)
    requires forall n :: n in live <==> ReachAny(s, roots, n)
    requires forall n | n in live :: Expandable(s, n)
    ensures forall c, p | Node(CommitK, c) in live ::
            c in s && s[c].CommitObj? && SameAt(s, Sweep(s, live), s[c].tree, p)
    ensures forall c | Node(CommitK, c) in live && c in s && s[c].CommitObj? && Addressed(s)
            && Readable(s, Entry(Tree, s[c].tree)) :: Readable(Sweep(s, live), Entry(Tree, s[c].tree))
    ensures forall c, n: nat | Node(CommitK, c) in live :: Ancestor(Sweep(s, live), c, n) == Ancestor(s, c, n)
    ensures forall c, max: nat | Node(CommitK, c) in live :: LogOf(Sweep(s, live), c, max) == LogOf(s, c, max)
    ensures forall c, p | Node(CommitK, c) in live && c in s && s[c].CommitObj? ::
            SameBytes(s, Sweep(s, live), s[c].tree, p)
    ensures forall m | Node(ManifestK, m) in live :: ChunksKept(s, Sweep(s, live), m)
  {
    LiveDone(s, roots, live);
    forall c, p | Node(CommitK, c) in live
      ensures c in s && s[c].CommitObj? && SameAt(s, Sweep(s, live), s[c].tree, p)
    {
      LiveTree(s, live, c);
      SweepFind(s, live, Entry(Tree, s[c].tree), p);
    }
    forall c | Node(CommitK, c) in live && c in s && s[c].CommitObj? && Addressed(s)
        && Readable(s, Entry(Tree, s[c].tree))
      ensures Readable(Sweep(s, live), Entry(Tree, s[c].tree))
    {
      LiveTree(s, live, c);
      SweepReadable(s, live, Entry(Tree, s[c].tree));
    }
    forall c, n: nat | Node(CommitK, c) in live ensures Ancestor(Sweep(s, live), c, n) == Ancestor(s, c, n) {
      SweepAncestor(s, live, c, n);
    }
    forall c, max: nat | Node(CommitK, c) in live ensures LogOf(Sweep(s, live), c, max) == LogOf(s, c, max) {
      SweepLog(s, live, [c], {}, [], max);
    }
    forall c, p | Node(CommitK, c) in live && c in s && s[c].CommitObj?
      ensures SameBytes(s, Sweep(s, live), s[c].tree, p)
    {
      LiveTree(s, live, c);
      SweepBytes(s, live, s[c].tree, p);
    }
    forall m | Node(ManifestK, m) in live ensures ChunksKept(s, Sweep(s, live), m) {
      SweepSource(s, live, m);
    }
  }

  /** `bytes_of` answers the same in both stores, at every path of a tree. */
  ghost predicate SameBytes(s: Objects, s': Objects, tree: Hash, p: Path) {
    var at := FindIn(s, Entry(Tree, tree), p);
    at.Ok? && at.value.Some? ==> BytesAt(s', at.value.value) == BytesAt(s, at.value.value)
  }

  lemma SweepBytes(s: Objects, live: set<Node>, tree: Hash, p: Path)
    requires Done(s, live, live) && EntryNode(Entry(Tree, tree)) in live
    ensures SameBytes(s, Sweep(s, live), tree, p)
  {
    SweepFind(s, live, Entry(Tree, tree), p);
    var at := FindIn(s, Entry(Tree, tree), p);
    if at.Ok? && at.value.Some? && at.value.value.mode == Manifest {
      SweepSource(s, live, at.value.value.hash);
    }
  }

  /** `get_at` answers the same in both stores, at every path of a tree. */
  ghost predicate SameAt(s: Objects, s': Objects, tree: Hash, p: Path) {
    FindIn(s', Entry(Tree, tree), p) == FindIn(s, Entry(Tree, tree), p)
  }
}
