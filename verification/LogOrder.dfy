/**
 The order of the commit log (crates/omp-core/src/refs.rs:107-134), whose comment
 promises children before parents. The log is a depth-first walk, first parents first;
 this module gives the exact condition under which that order keeps the promise.
 */
module LogOrder {
  import opened Objects

  /** The parents of a commit, as its hash fixes them. */
  function Parents(h: Hash): seq<Hash> {
    if h.obj.CommitObj? then h.obj.parents else []
  }

  // ---- The walk, on the commits themselves ----

  function Visit(h: Hash, out: seq<Hash>): seq<Hash>
    decreases h, |Parents(h)| + 1
  {
    if h in out then out else VisitFrom(h, 0, out + [h])
  }

  /** The parents of `h` from the `k`-th on, one after the other. */
  function VisitFrom(h: Hash, k: nat, out: seq<Hash>): seq<Hash>
    requires k <= |Parents(h)|
    decreases h, |Parents(h)| - k
  {
    if k == |Parents(h)| then out else VisitFrom(h, k + 1, Visit(Parents(h)[k], out))
  }

  // ---- Ancestry ----

  /** `x` is `h` or an ancestor of it. */
  ghost predicate Below(h: Hash, x: Hash)
    decreases h
  {
    x == h || exists k | 0 <= k < |Parents(h)| :: Below(Parents(h)[k], x)
  }

  /** `x` is reached through one of the first `k` parents of `h`. */
  ghost predicate BelowFirst(h: Hash, k: nat, x: Hash)
    requires k <= |Parents(h)|
  {
    exists j | 0 <= j < k :: Below(Parents(h)[j], x)
  }

  lemma {:induction false} BelowTrans(a: Hash, b: Hash, c: Hash)
    requires Below(a, b) && Below(b, c)
    ensures Below(a, c)
    decreases a
  {
    if a != b {
      var k :| 0 <= k < |Parents(a)| && Below(Parents(a)[k], b);
      BelowTrans(Parents(a)[k], b, c);
    }
  }

  /** No commit is an ancestor of its parent. */
  lemma {:induction false} NoCycle(h: Hash, k: nat)
    requires k < |Parents(h)| && Below(Parents(h)[k], h)
    ensures false
    decreases h
  {
    var p := Parents(h)[k];
    if p != h {
      var j :| 0 <= j < |Parents(p)| && Below(Parents(p)[j], h);
      assert Below(p, p) && Below(h, p);
      BelowTrans(Parents(p)[j], h, p);
      NoCycle(p, j);
    }
  }

  lemma ParentBelow(x: Hash, y: Hash)
    requires y in Parents(x)
    ensures Below(x, y)
  {
    var k :| 0 <= k < |Parents(x)| && Parents(x)[k] == y;
    assert Below(Parents(x)[k], y);
  }

  lemma ParentNotAbove(x: Hash, y: Hash)
    requires y in Parents(x) && Below(y, x)
    ensures false
  {
    var k :| 0 <= k < |Parents(x)| && Parents(x)[k] == y;
    NoCycle(x, k);
  }

  // ---- What the walk reaches ----

  ghost predicate ClosedIn(v: Hash, out: seq<Hash>) {
    forall u | Below(v, u) :: u in out
  }

  /** Of the ancestors of `h`, those already out are out with all their own ancestors. */
  ghost predicate Ready(h: Hash, out: seq<Hash>) {
    forall v | v in out && Below(h, v) :: ClosedIn(v, out)
  }

  ghost predicate AllReady(h: Hash, k: nat, out: seq<Hash>)
    requires k <= |Parents(h)|
  {
    forall j | k <= j < |Parents(h)| :: Ready(Parents(h)[j], out)
  }

  /** Exactly what was out, and `h` with its ancestors. */
  ghost predicate Reached(h: Hash, out: seq<Hash>, r: seq<Hash>) {
    forall u :: u in r <==> u in out || Below(h, u)
  }

  lemma ReadyParents(h: Hash, out: seq<Hash>)
    requires Ready(h, out)
    ensures AllReady(h, 0, out + [h])
  {
    forall j, v | 0 <= j < |Parents(h)| && v in out + [h] && Below(Parents(h)[j], v) ensures ClosedIn(v, out + [h]) {
      if v == h {
        NoCycle(h, j);
      } else {
        assert Below(h, v) && ClosedIn(v, out);
      }
    }
  }

  lemma ReadyNext(h: Hash, k: nat, out: seq<Hash>, next: seq<Hash>)
    requires k < |Parents(h)| && AllReady(h, k, out) && Reached(Parents(h)[k], out, next)
    ensures AllReady(h, k + 1, next)
  {
    var p := Parents(h)[k];
    forall j, v | k + 1 <= j < |Parents(h)| && v in next && Below(Parents(h)[j], v) ensures ClosedIn(v, next) {
      if v in out {
        assert Ready(Parents(h)[j], out) && ClosedIn(v, out);
      } else {
        forall u | Below(v, u) ensures u in next {
          BelowTrans(p, v, u);
        }
      }
    }
  }

  lemma {:induction false} VisitReaches(h: Hash, out: seq<Hash>)
    requires Ready(h, out)
    ensures out <= Visit(h, out) && Reached(h, out, Visit(h, out))
    decreases h, |Parents(h)| + 1
  {
    if h in out {
      assert Below(h, h) && ClosedIn(h, out);
    } else {
      ReadyParents(h, out);
      VisitFromReaches(h, 0, out + [h]);
      forall u ensures u in Visit(h, out) <==> u in out || Below(h, u) {
        assert Below(h, u) <==> u == h || exists j | 0 <= j < |Parents(h)| :: Below(Parents(h)[j], u);
      }
    }
  }

  lemma {:induction false} VisitFromReaches(h: Hash, k: nat, out: seq<Hash>)
    requires k <= |Parents(h)| && AllReady(h, k, out)
    ensures out <= VisitFrom(h, k, out)
    ensures forall u :: u in VisitFrom(h, k, out) <==> u in out || exists j | k <= j < |Parents(h)| ::
            Below(Parents(h)[j], u)
    decreases h, |Parents(h)| - k
  {
    if k < |Parents(h)| {
      var p := Parents(h)[k];
      assert Ready(p, out);
      VisitReaches(p, out);
      ReadyNext(h, k, out, Visit(p, out));
      VisitFromReaches(h, k + 1, Visit(p, out));
    }
  }

  // ---- Nothing is listed twice ----

  ghost predicate FreshFrom(out: seq<Hash>, r: seq<Hash>) {
    out <= r && forall i | |out| <= i < |r| :: r[i] !in r[..i]
  }

  lemma FreshTrans(a: seq<Hash>, b: seq<Hash>, c: seq<Hash>)
    requires FreshFrom(a, b) && FreshFrom(b, c)
    ensures FreshFrom(a, c)
  {
    forall i | |a| <= i < |c| ensures c[i] !in c[..i] {
      if i < |b| {
        assert c[i] == b[i] && c[..i] == b[..i];
      }
    }
  }

  lemma {:induction false} VisitFresh(h: Hash, out: seq<Hash>)
    ensures FreshFrom(out, Visit(h, out))
    decreases h, |Parents(h)| + 1
  {
    if h !in out {
      VisitFromFresh(h, 0, out + [h]);
      assert (out + [h])[..|out|] == out;
      FreshTrans(out, out + [h], Visit(h, out));
    }
  }

  lemma {:induction false} VisitFromFresh(h: Hash, k: nat, out: seq<Hash>)
    requires k <= |Parents(h)|
    ensures FreshFrom(out, VisitFrom(h, k, out))
    decreases h, |Parents(h)| - k
  {
    if k < |Parents(h)| {
      var next := Visit(Parents(h)[k], out);
      VisitFresh(Parents(h)[k], out);
      VisitFromFresh(h, k + 1, next);
      FreshTrans(out, next, VisitFrom(h, k, out));
    }
  }

  // ---- The condition ----

  /** `x` is reached through the `j`-th parent of `c` and through none before it, but a parent of `x` is. */
  ghost predicate Crossing(c: Hash, j: nat, x: Hash, y: Hash) {
    && j < |Parents(c)| && Below(Parents(c)[j], x) && !BelowFirst(c, j, x)
    && y in Parents(x) && BelowFirst(c, j, y)
  }

  /** No merge reaches a commit later than it reaches one of the commit's parents. */
  ghost predicate NoCrossing(h: Hash) {
    forall c, j, x, y | Below(h, c) :: !Crossing(c, j, x, y)
  }

  /** Every commit comes before its parents. */
  ghost predicate ChildrenFirst(r: seq<Hash>) {
    forall i | 0 <= i < |r| :: ParentsAfter(r, 0, i)
  }

  /** No parent of the commit at `i` stands between `from` and it. */
  ghost predicate ParentsAfter(r: seq<Hash>, from: nat, i: nat)
    requires from <= i < |r|
  {
    forall y | y in Parents(r[i]) :: y !in r[from..i]
  }

  ghost predicate LaterFrom(out: seq<Hash>, r: seq<Hash>) {
    out <= r && forall i | |out| <= i < |r| :: ParentsAfter(r, |out|, i)
  }

  // ---- It is sufficient ----

  lemma {:induction false} VisitLater(h: Hash, out: seq<Hash>)
    requires Ready(h, out) && NoCrossing(h)
    ensures LaterFrom(out, Visit(h, out))
    decreases h, |Parents(h)| + 1
  {
    if h !in out {
      ReadyParents(h, out);
      assert LaterFrom(out, out + [h]);
      assert forall u | u in (out + [h])[|out|..] :: u == h;
      VisitFromLater(h, 0, out, out + [h]);
    }
  }

  /** The walk of `h` began after `out`, and has come to its `k`-th parent. */
  ghost predicate Walked(h: Hash, k: nat, out: seq<Hash>, now: seq<Hash>)
    requires k <= |Parents(h)|
  {
    && out <= now
    && (forall u | u in now[|out|..] :: u == h || BelowFirst(h, k, u))
    && (forall u | BelowFirst(h, k, u) :: u in now)
  }

  lemma {:induction false} VisitFromLater(h: Hash, k: nat, out: seq<Hash>, now: seq<Hash>)
    requires k <= |Parents(h)| && AllReady(h, k, now) && NoCrossing(h) && Walked(h, k, out, now) && LaterFrom(out, now)
    ensures LaterFrom(out, VisitFrom(h, k, now))
    decreases h, |Parents(h)| - k
  {
    if k < |Parents(h)| {
      var p := Parents(h)[k];
      var next := Visit(p, now);
      assert Ready(p, now);
      NoCrossingBelow(h, k);
      VisitLater(p, now);
      VisitReaches(p, now);
      VisitFresh(p, now);
      ReadyNext(h, k, now, next);
      WalkedNext(h, k, out, now, next);
      forall i | |out| <= i < |next| ensures ParentsAfter(next, |out|, i) {
        if i < |now| {
          assert ParentsAfter(now, |out|, i) && next[i] == now[i] && next[|out|..i] == now[|out|..i];
        } else {
          LaterStep(h, k, out, now, next, i);
        }
      }
      VisitFromLater(h, k + 1, out, next);
    }
  }

  lemma NoCrossingBelow(h: Hash, k: nat)
    requires k < |Parents(h)| && NoCrossing(h)
    ensures NoCrossing(Parents(h)[k])
  {
    forall c | Below(Parents(h)[k], c) ensures Below(h, c) {
    }
  }

  lemma WalkedNext(h: Hash, k: nat, out: seq<Hash>, now: seq<Hash>, next: seq<Hash>)
    requires k < |Parents(h)| && Walked(h, k, out, now) && now <= next && Reached(Parents(h)[k], now, next)
             && FreshFrom(now, next)
    ensures Walked(h, k + 1, out, next)
  {
    forall u | u in next[|out|..] ensures u == h || BelowFirst(h, k + 1, u) {
      var i :| |out| <= i < |next| && next[i] == u;
      if i < |now| {
        assert now[|out|..][i - |out|] == u;
        assert u == h || BelowFirst(h, k, u);
      } else {
        assert u !in next[..i] && next[..|now|] == now;
        assert forall v | v in now :: v in next[..i];
        assert Below(Parents(h)[k], u);
      }
    }
    forall u | BelowFirst(h, k + 1, u) ensures u in next {
      var j :| 0 <= j < k + 1 && Below(Parents(h)[j], u);
      if j < k {
        assert BelowFirst(h, k, u);
      }
    }
  }

  /** A commit found through the `k`-th parent comes before its own parents, as far as those are new. */
  lemma LaterStep(h: Hash, k: nat, out: seq<Hash>, now: seq<Hash>, next: seq<Hash>, i: nat)
    requires k < |Parents(h)| && NoCrossing(h) && Walked(h, k, out, now)
    requires Reached(Parents(h)[k], now, next) && FreshFrom(now, next) && LaterFrom(now, next) && |now| <= i < |next|
    ensures ParentsAfter(next, |out|, i)
  {
    var x := next[i];
    assert next[..|now|] == now && x !in next[..i];
    assert forall v | v in now :: v in next[..i];
    assert x in next && Below(Parents(h)[k], x) && !BelowFirst(h, k, x);
    forall y | y in Parents(x) ensures y !in next[|out|..i] {
      assert ParentsAfter(next, |now|, i);
      assert next[|out|..i] == now[|out|..] + next[|now|..i];
      if y in now[|out|..] {
        if y == h {
          assert Below(h, x);
          ParentNotAbove(x, h);
        } else {
          assert Below(h, h) && Crossing(h, k, x, y);
        }
      }
    }
  }

  // ---- It is necessary ----

  lemma VisitFromPrefix(h: Hash, k: nat, out: seq<Hash>)
    requires k <= |Parents(h)|
    ensures out <= VisitFrom(h, k, out)
  {
    VisitFromFresh(h, k, out);
  }

  /** Where the walk of `c` begins, within the walk of `h`. */
  ghost predicate WalkStarts(c: Hash, o: seq<Hash>, r: seq<Hash>) {
    c !in o && AllReady(c, 0, o + [c]) && VisitFrom(c, 0, o + [c]) <= r
  }

  lemma {:induction false} FindWalk(h: Hash, out: seq<Hash>, c: Hash) returns (o: seq<Hash>)
    requires Ready(h, out) && Below(h, c) && c !in out
    ensures WalkStarts(c, o, Visit(h, out))
    decreases h, |Parents(h)| + 1
  {
    assert Below(h, h) && (h in out ==> ClosedIn(h, out));
    if h in out {
      assert false;
    } else if c == h {
      ReadyParents(h, out);
      o := out;
    } else {
      ReadyParents(h, out);
      o := FindWalkFrom(h, 0, out + [h], c);
    }
  }

  lemma {:induction false} FindWalkFrom(h: Hash, k: nat, out: seq<Hash>, c: Hash) returns (o: seq<Hash>)
    requires k <= |Parents(h)| && AllReady(h, k, out) && c !in out && exists j | k <= j < |Parents(h)| ::
             Below(Parents(h)[j], c)
    ensures WalkStarts(c, o, VisitFrom(h, k, out))
    decreases h, |Parents(h)| - k
  {
    var p := Parents(h)[k];
    var next := Visit(p, out);
    assert Ready(p, out);
    VisitReaches(p, out);
    ReadyNext(h, k, out, next);
    if Below(p, c) {
      o := FindWalk(p, out, c);
      VisitFromPrefix(h, k + 1, next);
      PrefixTrans(VisitFrom(c, 0, o + [c]), next, VisitFrom(h, k, out));
    } else {
      o := FindWalkFrom(h, k + 1, next, c);
    }
  }

  lemma PrefixTrans(a: seq<Hash>, b: seq<Hash>, c: seq<Hash>)
    requires a <= b && b <= c
    ensures a <= c
  {
    assert c[..|a|] == b[..|a|];
  }

  /** The walk of `c` up to its `j`-th parent. */
  function VisitFirst(c: Hash, j: nat, out: seq<Hash>): seq<Hash>
    requires j <= |Parents(c)|
  {
    if j == 0 then out else Visit(Parents(c)[j - 1], VisitFirst(c, j - 1, out))
  }

  lemma {:induction false} FirstReaches(c: Hash, j: nat, out: seq<Hash>)
    requires j <= |Parents(c)| && AllReady(c, 0, out)
    ensures AllReady(c, j, VisitFirst(c, j, out))
    ensures forall u :: u in VisitFirst(c, j, out) <==> u in out || BelowFirst(c, j, u)
    ensures VisitFrom(c, 0, out) == VisitFrom(c, j, VisitFirst(c, j, out))
    decreases j
  {
    if j > 0 {
      FirstReaches(c, j - 1, out);
      var before, p := VisitFirst(c, j - 1, out), Parents(c)[j - 1];
      assert Ready(p, before);
      VisitReaches(p, before);
      ReadyNext(c, j - 1, before, Visit(p, before));
    }
  }

  /** If every commit comes before its parents, it comes before all its ancestors. */
  lemma {:induction false} AncestorsAfter(r: seq<Hash>, i: nat, x: Hash)
    requires ChildrenFirst(r) && i < |r| && Below(r[i], x) && x != r[i]
    requires forall u, v | u in r && Below(u, v) :: v in r
    ensures x !in r[..i + 1]
    decreases r[i]
  {
    var c := r[i];
    var k :| 0 <= k < |Parents(c)| && Below(Parents(c)[k], x);
    var p := Parents(c)[k];
    assert p in Parents(c) && ParentsAfter(r, 0, i) && r[0..i] == r[..i];
    ParentBelow(c, p);
    assert r[i] in r && p in r;
    var m :| 0 <= m < |r| && r[m] == p;
    assert p !in r[..i] && forall t | 0 <= t < i :: r[..i][t] == r[t];
    assert p != c;
    var upto := r[..i + 1];
    assert forall t | 0 <= t < |upto| :: upto[t] == r[t];
    if p != x {
      AncestorsAfter(r, m, x);
      assert forall t | 0 <= t < |upto| :: upto[t] == r[..m + 1][t];
    } else {
      assert forall t | 0 <= t < |upto| :: upto[t] != p;
    }
  }

  lemma CrossingBreaks(h: Hash, c: Hash, j: nat, x: Hash, y: Hash)
    requires Below(h, c) && Crossing(c, j, x, y)
    ensures !ChildrenFirst(Visit(h, []))
  {
    var r := Visit(h, []);
    assert Ready(h, []);
    VisitReaches(h, []);
    if ChildrenFirst(r) {
      var o := FindWalk(h, [], c);
      var start := o + [c];
      var upto := VisitFirst(c, j, start);
      FirstReaches(c, j, start);
      FirstPrefix(c, j, start);
      VisitFromPrefix(c, j, upto);
      PrefixTrans(upto, VisitFrom(c, 0, start), r);
      PrefixTrans(start, upto, r);
      assert r[|o|] == start[|o|] == c && r[..|o| + 1] == start;
      assert Below(c, x);
      if x == c {
        NoCycle(c, j);
      }
      ReachedClosed(h, r);
      AncestorsAfter(r, |o|, x);
      assert x !in start && x !in upto;
      BelowTrans(h, c, x);
      LateParent(r, upto, x, y);
    }
  }

  lemma {:induction false} FirstPrefix(c: Hash, j: nat, out: seq<Hash>)
    requires j <= |Parents(c)|
    ensures out <= VisitFirst(c, j, out)
  {
    if j > 0 {
      FirstPrefix(c, j - 1, out);
      VisitFresh(Parents(c)[j - 1], VisitFirst(c, j - 1, out));
      PrefixTrans(out, VisitFirst(c, j - 1, out), VisitFirst(c, j, out));
    }
  }

  lemma ReachedClosed(h: Hash, r: seq<Hash>)
    requires Reached(h, [], r)
    ensures forall u, v | u in r && Below(u, v) :: v in r
  {
    forall u, v | u in r && Below(u, v) ensures v in r {
      BelowTrans(h, u, v);
    }
  }

  lemma LateParent(r: seq<Hash>, upto: seq<Hash>, x: Hash, y: Hash)
    requires upto <= r && x in r && x !in upto && y in upto && y in Parents(x)
    ensures !ChildrenFirst(r)
  {
    var i :| 0 <= i < |r| && r[i] == x;
    assert forall t | 0 <= t < |upto| :: r[t] == upto[t];
    var m :| 0 <= m < |upto| && upto[m] == y;
    assert r[0..i][m] == y;
    assert !ParentsAfter(r, 0, i);
  }

  /** The walk lists every commit before its parents exactly when no merge crosses. */
  lemma WalkOrderIff(h: Hash)
    ensures ChildrenFirst(Visit(h, [])) <==> NoCrossing(h)
  {
    assert Ready(h, []);
    if NoCrossing(h) {
      VisitLater(h, []);
      assert Visit(h, [])[0..] == Visit(h, []);
    } else {
      var c, j, x, y :| Below(h, c) && Crossing(c, j, x, y);
      CrossingBreaks(h, c, j, x, y);
    }
  }
}
