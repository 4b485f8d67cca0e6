/**
 Whole runs of the repository: any sequence of its operations on any inputs.
 `After` is the state that such a sequence leaves, and `Perform` carries one out
 on a `Repo`.
 */
module Runs {
  import opened Objects
  import opened Paths
  import opened StorePaths
  import opened Refs
  import opened States
  import opened Soundness
  import opened Repository
  import Hex

  /** A base that reads as a hash is a literal, so it is never the name of a branch to check out. */
  predicate Expressible(ev: Event) {
    ev.Checkout? && ev.target.base.Named? ==> Hex.Decode(ev.target.base.name).None?
  }

  /** Every event can happen, and is harmless, in the state it meets. */
  ghost predicate Legal(st: State, events: seq<Event>)
    decreases |events|
  {
    events == [] || (Possible(st, events[0]) && Harmless(st, events[0]) && Expressible(events[0])
                     && Legal(Next(st, events[0]), events[1..]))
  }

  ghost function After(st: State, events: seq<Event>): State
    requires Legal(st, events)
    decreases |events|
  {
    if events == [] then st else After(Next(st, events[0]), events[1..])
  }

  /** One event, carried out by the operation it names. */
  method Do(repo: Repo, ev: Event)
    requires repo.Valid() && Inv(repo.Now()) && Possible(repo.Now(), ev) && Harmless(repo.Now(), ev)
    modifies repo, repo.store
    ensures repo.Valid() && repo.Now() == Next(old(repo.Now()), ev) && Inv(repo.Now())
  {
    NextKeeps(repo.Now(), ev);
    match ev
    case AddBlob(path, bytes, accepted) =>
      var _ := repo.AddBlob(path, bytes, accepted);
    case AddFile(path, bytes, chunkSize, details) =>
      var _ := repo.AddFile(path, bytes, chunkSize, details);
    case Remove(path) =>
      var _ := repo.Remove(path);
    case Commit(order, text, reprobe) =>
      var _ := repo.Commit(order, text, reprobe);
    case Branch(name, start) =>
      var _ := repo.Branch(name, start);
    case Checkout(target) =>
      var _ := repo.Checkout(target);
  }

  /** Carries out any run on a new repository; the state it leaves is the one the theorems speak of. */
  method Perform(events: seq<Event>) returns (repo: Repo)
    requires Legal(INIT, events)
    ensures repo.Valid() && repo.Now() == After(INIT, events) && Inv(repo.Now())
  {
    repo := new Repo();
    var i := 0;
    assert events[0..] == events;
    while i < |events|
      invariant 0 <= i <= |events| && repo.Valid() && Inv(repo.Now()) && fresh(repo) && fresh(repo.store)
      invariant Legal(repo.Now(), events[i..]) && After(repo.Now(), events[i..]) == After(INIT, events)
    {
      assert events[i..][0] == events[i] && events[i..][1..] == events[i + 1..];
      Do(repo, events[i]);
      i := i + 1;
    }
  }

  // ---- Prefixes of a run ----

  lemma {:induction false} LegalAppend(st: State, a: seq<Event>, b: seq<Event>)
    ensures Legal(st, a + b) <==> Legal(st, a) && Legal(After(st, a), b)
    ensures Legal(st, a + b) ==> After(st, a + b) == After(After(st, a), b)
    decreases |a|
  {
    if a == [] {
      assert a + b == b;
    } else {
      assert (a + b)[0] == a[0] && (a + b)[1..] == a[1..] + b;
      if Possible(st, a[0]) {
        LegalAppend(Next(st, a[0]), a[1..], b);
      }
    }
  }

  lemma RunOne(st: State, ev: Event)
    requires Possible(st, ev) && Harmless(st, ev) && Expressible(ev)
    ensures Legal(st, [ev]) && After(st, [ev]) == Next(st, ev)
  {
    assert [ev][1..] == [];
    assert Legal(Next(st, ev), []) && After(Next(st, ev), []) == Next(st, ev);
  }

  lemma RunTwo(st: State, ev: Event, ev': Event)
    requires Possible(st, ev) && Harmless(st, ev) && Expressible(ev)
    requires Possible(Next(st, ev), ev') && Harmless(Next(st, ev), ev') && Expressible(ev')
    ensures Legal(st, [ev, ev']) && After(st, [ev, ev']) == Next(Next(st, ev), ev')
  {
    RunOne(Next(st, ev), ev');
    assert [ev, ev'][1..] == [ev'];
  }

  /** The state after the first `i` events. */
  ghost function Now(st: State, events: seq<Event>, i: nat): State
    requires Legal(st, events) && i <= |events|
  {
    assert events == events[..i] + events[i..];
    LegalAppend(st, events[..i], events[i..]);
    After(st, events[..i])
  }

  lemma NowStep(st: State, events: seq<Event>, i: nat)
    requires Legal(st, events) && i < |events|
    ensures Possible(Now(st, events, i), events[i]) && Harmless(Now(st, events, i), events[i]) && Expressible(events[i])
    ensures Now(st, events, i + 1) == Next(Now(st, events, i), events[i])
  {
    var a := events[..i];
    assert events == a + events[i..] && events[..i + 1] == a + [events[i]]
        && events == events[..i + 1] + events[i + 1..];
    LegalAppend(st, a, events[i..]);
    LegalAppend(st, a, [events[i]]);
    LegalAppend(st, events[..i + 1], events[i + 1..]);
    RunOne(After(st, a), events[i]);
  }

  // ---- Safety ----

  lemma {:induction false} InvThroughout(st: State, events: seq<Event>, j: nat)
    requires Legal(st, events) && Inv(st) && j <= |events|
    ensures Inv(Now(st, events, j))
    decreases j
  {
    if j == 0 {
      assert events[..0] == [];
    } else {
      InvThroughout(st, events, j - 1);
      NowStep(st, events, j - 1);
      NextKeeps(Now(st, events, j - 1), events[j - 1]);
    }
  }

  ghost predicate Descends(s: Objects, h: Hash, from: Hash) {
    exists n: nat :: Ancestor(s, h, n) == Ok(from)
  }

  /** Every branch of `a` is still there in `b`, at the same commit or further on. */
  ghost predicate Forward(a: State, b: State) {
    Grows(a.objects, b.objects) && forall r | r in a.refs :: r in b.refs && Descends(b.objects, b.refs[r], a.refs[r])
  }

  lemma ForwardStep(a: State, b: State, c: State)
    requires Forward(a, b) && Moves(b, c)
    ensures Forward(a, c)
  {
    forall r | r in a.refs ensures r in c.refs && Descends(c.objects, c.refs[r], a.refs[r]) {
      var n: nat :| Ancestor(b.objects, b.refs[r], n) == Ok(a.refs[r]);
      AncestorGrows(b.objects, c.objects, b.refs[r], n);
      if c.refs[r] == b.refs[r] {
        assert Ancestor(c.objects, c.refs[r], n) == Ok(a.refs[r]);
      } else {
        assert Ancestor(c.objects, c.refs[r], n + 1) == Ok(a.refs[r]);
      }
    }
  }

  lemma {:induction false} ForwardThroughout(st: State, events: seq<Event>, i: nat, j: nat)
    requires Legal(st, events) && Inv(st) && i <= j <= |events|
    ensures Forward(Now(st, events, i), Now(st, events, j))
    decreases j
  {
    var a := Now(st, events, i);
    if i == j {
      assert forall r | r in a.refs :: Ancestor(a.objects, a.refs[r], 0) == Ok(a.refs[r]);
    } else {
      ForwardThroughout(st, events, i, j - 1);
      InvThroughout(st, events, j - 1);
      NowStep(st, events, j - 1);
      NextKeeps(Now(st, events, j - 1), events[j - 1]);
      ForwardStep(a, Now(st, events, j - 1), Now(st, events, j));
    }
  }

  lemma {:induction false} FindInGrows(s: Objects, s': Objects, e: Entry, p: Path)
    requires Grows(s, s') && FindIn(s, e, p).Ok?
    ensures FindIn(s', e, p) == FindIn(s, e, p)
    decreases |p|
  {
    if p != [] && e.mode == Tree {
      assert Load(s', e.hash) == Load(s, e.hash);
      if p[0] in Load(s, e.hash).value {
        FindInGrows(s, s', Load(s, e.hash).value[p[0]], p[1..]);
      }
    }
  }

  /** What a stored commit shows is readable, and more objects do not change it. */
  lemma ShowStable(s: Objects, s': Objects, c: Hash, p: Path)
    requires SoundStore(s) && Grows(s, s') && IsCommit(s, c)
    ensures Show(s, c, p) == Ok(Find(Entry(Tree, s[c].tree), p))
    ensures Show(s', c, p) == Show(s, c, p)
  {
    assert Sound(s, s[c]);
    var e := Entry(Tree, s[c].tree);
    SoundReadable(s, e);
    FindInReadable(s, e, p);
    FindInGrows(s, s', e, p);
  }

  /**
   Whole-run safety: from any sound state, through any run, nothing ever points
   to a missing or mistyped object, every branch only moves forward along first
   parents, and what a stored commit shows at a path never changes.
   */
  lemma RunSafety(st: State, events: seq<Event>, i: nat, j: nat)
    requires Legal(st, events) && Inv(st) && i <= j <= |events|
    ensures Inv(Now(st, events, j))
    ensures Forward(Now(st, events, i), Now(st, events, j))
    ensures forall c, p | IsCommit(Now(st, events, i).objects, c) ::
              && Show(Now(st, events, j).objects, c, p) == Show(Now(st, events, i).objects, c, p)
              && Show(Now(st, events, i).objects, c, p) == Ok(Find(Entry(Tree, c.obj.tree), p))
  {
    InvThroughout(st, events, i);
    InvThroughout(st, events, j);
    ForwardThroughout(st, events, i, j);
    var a, b := Now(st, events, i), Now(st, events, j);
    forall c, p | IsCommit(a.objects, c)
      ensures Show(b.objects, c, p) == Show(a.objects, c, p) == Ok(Find(Entry(Tree, c.obj.tree), p))
    {
      ShowStable(a.objects, b.objects, c, p);
    }
  }

  /** The hypothesis on literals is needed: a branch can be created at a hash that is not stored. */
  lemma DanglingBranch(h: Hash)
    ensures var ev := Branch("b", Some(RefExpr(Literal(h), None)));
            Inv(INIT) && Possible(INIT, ev) && !Inv(Next(INIT, ev)) && Next(INIT, ev).refs == map[BranchRef("b") := h]
  {
    NewRef(INIT, BranchRef("b"), h);
  }
}
