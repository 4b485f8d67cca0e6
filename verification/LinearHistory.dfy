/**
 Every commit the repository writes has at most one parent
 (crates/omp-core/src/api.rs:1473-1479), so in every run the log lists children
 before parents.
 */
module LinearHistory {
  import opened Objects
  import opened States
  import opened Soundness
  import opened Runs
  import opened Records
  import LogOrder
  import History

  /** No stored commit is a merge. */
  ghost predicate Linear(s: Objects) {
    forall h | h in s && h.obj.CommitObj? :: |h.obj.parents| <= 1
  }

  /** No operation writes a merge. */
  lemma NextLinear(st: State, ev: Event)
    requires Inv(st) && Linear(st.objects) && Possible(st, ev)
    ensures Linear(Next(st, ev).objects)
  {
    forall h | h in Next(st, ev).objects && h.obj.CommitObj? ensures |h.obj.parents| <= 1 {
      if h !in st.objects {
        NextWrites(st, ev, h);
      }
    }
  }

  lemma {:induction false} LinearThroughout(st: State, events: seq<Event>, j: nat)
    requires Legal(st, events) && Inv(st) && Linear(st.objects) && j <= |events|
    ensures Linear(Runs.Now(st, events, j).objects)
    decreases j
  {
    if j == 0 {
      assert events[..0] == [];
    } else {
      LinearThroughout(st, events, j - 1);
      InvThroughout(st, events, j - 1);
      NowStep(st, events, j - 1);
      NextLinear(Runs.Now(st, events, j - 1), events[j - 1]);
    }
  }

  lemma {:induction false} BelowStored(s: Objects, h: Hash, c: Hash)
    requires Addressed(s) && History.ParentsStored(s) && h in s && h.obj.CommitObj? && LogOrder.Below(h, c)
    ensures c in s
    decreases h
  {
    if c != h {
      var k :| 0 <= k < |LogOrder.Parents(h)| && LogOrder.Below(LogOrder.Parents(h)[k], c);
      assert History.IsParent(s, h, LogOrder.Parents(h)[k]);
      BelowStored(s, LogOrder.Parents(h)[k], c);
    }
  }

  lemma LinearNoCrossing(s: Objects, head: Hash)
    requires Addressed(s) && History.ParentsStored(s) && Linear(s) && head in s && head.obj.CommitObj?
    ensures LogOrder.NoCrossing(head)
  {
    forall c, j, x, y | LogOrder.Below(head, c) ensures !LogOrder.Crossing(c, j, x, y) {
      BelowStored(s, head, c);
    }
  }

  /** In every run from a new repository, the log of every stored commit lists children before parents. */
  lemma LogChildrenFirst(events: seq<Event>, j: nat, head: Hash, max: nat)
    requires Legal(INIT, events) && j <= |events| && IsCommit(Runs.Now(INIT, events, j).objects, head)
    ensures LogOrder.ChildrenFirst(History.LogOf(Runs.Now(INIT, events, j).objects, head, max))
  {
    var s := Runs.Now(INIT, events, j).objects;
    InvThroughout(INIT, events, j);
    LinearThroughout(INIT, events, j);
    History.SoundParents(s);
    LinearNoCrossing(s, head);
    History.LogOrderIff(s, head);
  }
}
