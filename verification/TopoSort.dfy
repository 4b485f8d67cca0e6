/**
 The order in which a schema's fields are resolved (`topo_sort`,
 crates/omp-core/src/schema.rs:551-601): Kahn's algorithm over the primary
 `from` of each field, with a sorted ready list. `fields` is a `HashMap`.
 */
module TopoSort {
  import opened Objects
  import opened Order
  import opened Engine

  type FieldMap = map<string, Field>

  function Dep(f: Field): Option<string> {
    if f.source.FromField? then Some(f.source.from) else None
  }

  function Dependents(fields: FieldMap, n: string): set<string> {
    set m | m in fields && Dep(fields[m]) == Some(n)
  }

  function SetOf(s: seq<string>): set<string> {
    set x | x in s
  }

  ghost predicate Distinct(s: seq<string>) {
    forall i, j | 0 <= i < j < |s| :: s[i] != s[j]
  }

  /** `sort_by(|a, b| b.cmp(a))` on distinct names. */
  function Descending(s: set<string>): (r: seq<string>)
    ensures forall x :: x in r <==> x in s
    ensures Distinct(r)
  {
    if s == {} then [] else Descending(s - {Least(s)}) + [Least(s)]
  }

  /** A field is ready or out exactly when its `from` is out. */
  ghost predicate Kahn(fields: FieldMap, ready: seq<string>, out: seq<string>) {
    && Distinct(ready)
    && Distinct(out)
    && (forall m | m in ready :: m in fields && m !in out)
    && (forall m | m in out :: m in fields)
    && (forall m | m in fields :: m in out || m in ready <==> Free(fields, out, m))
    && InOrder(fields, out)
  }

  ghost predicate Free(fields: FieldMap, out: seq<string>, m: string)
    requires m in fields
  {
    Dep(fields[m]).None? || Dep(fields[m]).value in out
  }

  /** Each field comes after its `from`. */
  ghost predicate InOrder(fields: FieldMap, out: seq<string>) {
    forall i | 0 <= i < |out| && out[i] in fields :: Free(fields, out[..i], out[i])
  }

  function Unlock(fields: FieldMap, rest: seq<string>, n: string): seq<string> {
    if Dependents(fields, n) == {} then rest else Descending(SetOf(rest) + Dependents(fields, n))
  }

  lemma UnlockExact(fields: FieldMap, rest: seq<string>, n: string)
    requires Distinct(rest)
    ensures Distinct(Unlock(fields, rest, n))
    ensures forall x :: x in Unlock(fields, rest, n) <==> x in rest || x in Dependents(fields, n)
  {
  }

  lemma KahnStep(fields: FieldMap, rest: seq<string>, n: string, out: seq<string>)
    requires Kahn(fields, rest + [n], out)
    ensures Kahn(fields, Unlock(fields, rest, n), out + [n])
    ensures n in fields && n !in out
  {
    var ready := rest + [n];
    assert ready[|rest|] == n && forall i | 0 <= i < |rest| :: ready[i] == rest[i];
    assert n in ready && forall x :: x in ready <==> x in rest || x == n;
    assert Distinct(rest) && n !in rest;
    UnlockExact(fields, rest, n);
    forall d | d in Dependents(fields, n) ensures d !in out && d !in rest && d != n {
      assert !Free(fields, out, d);
    }
    forall m | m in fields ensures Free(fields, out + [n], m) <==> Free(fields, out, m) || m in Dependents(fields, n) {
    }
    forall i | 0 <= i < |out + [n]| ensures Free(fields, (out + [n])[..i], (out + [n])[i]) {
      assert (out + [n])[..i] == out[..i];
      if i == |out| {
        assert out[..i] == out && Free(fields, out, n);
      }
    }
  }

  /** The loop of `topo_sort`, as a function of the field map alone. */
  function TopoFrom(fields: FieldMap, ready: seq<string>, out: seq<string>): seq<string>
    requires Kahn(fields, ready, out)
    decreases fields.Keys - SetOf(out)
  {
    if ready == [] then out
    else
      var rest, n := ready[..|ready| - 1], ready[|ready| - 1];
      assert ready == rest + [n];
      KahnStep(fields, rest, n, out);
      assert n in fields.Keys - SetOf(out);
      TopoFrom(fields, Unlock(fields, rest, n), out + [n])
  }

  function Roots(fields: FieldMap): set<string> {
    set m | m in fields && Dep(fields[m]).None?
  }

  lemma KahnStart(fields: FieldMap)
    ensures Kahn(fields, Listing(Roots(fields)), [])
  {
    var up := Listing(Roots(fields));
    forall i, j | 0 <= i < j < |up| ensures up[i] != up[j] {
      LessTrichotomy(up[i], up[i]);
    }
  }

  function TopoNames(fields: FieldMap): seq<string> {
    KahnStart(fields);
    TopoFrom(fields, Listing(Roots(fields)), [])
  }

  lemma {:induction false} TopoFromKahn(fields: FieldMap, ready: seq<string>, out: seq<string>)
    requires Kahn(fields, ready, out)
    ensures Kahn(fields, [], TopoFrom(fields, ready, out))
    decreases fields.Keys - SetOf(out)
  {
    if ready != [] {
      var rest, n := ready[..|ready| - 1], ready[|ready| - 1];
      assert ready == rest + [n];
      KahnStep(fields, rest, n, out);
      assert n in fields.Keys - SetOf(out);
      TopoFromKahn(fields, Unlock(fields, rest, n), out + [n]);
    }
  }

  // ---- Which ready field comes next ----

  ghost predicate Falling(s: seq<string>) {
    forall i, j | 0 <= i < j < |s| :: Less(s[j], s[i])
  }

  lemma {:induction false} DescendingFalls(s: set<string>)
    ensures Falling(Descending(s))
  {
    if s != {} {
      var m := Least(s);
      LeastExists(s);
      DescendingFalls(s - {m});
      forall x | x in s - {m} ensures Less(m, x) {
        assert LessEq(m, x);
      }
    }
  }

  /** Some field that is out has given its value to another one. */
  ghost predicate Giving(fields: FieldMap, out: seq<string>) {
    exists n, m :: n in out && m in fields && Dep(fields[m]) == Some(n)
  }

  /** The ready list is ascending until the first release, and descending from then on. */
  ghost predicate ReadyOrder(fields: FieldMap, ready: seq<string>, out: seq<string>) {
    if Giving(fields, out) then Falling(ready) else Ascending(ready)
  }

  lemma OrderStep(fields: FieldMap, rest: seq<string>, n: string, out: seq<string>)
    requires n in fields && ReadyOrder(fields, rest + [n], out)
    ensures ReadyOrder(fields, Unlock(fields, rest, n), out + [n])
  {
    var ready := rest + [n];
    assert forall i | 0 <= i < |rest| :: ready[i] == rest[i];
    if Dependents(fields, n) != {} {
      var m :| m in Dependents(fields, n);
      assert n in out + [n];
      DescendingFalls(SetOf(rest) + Dependents(fields, n));
    } else {
      assert Giving(fields, out + [n]) <==> Giving(fields, out) by {
        if k, m :| k in out && m in fields && Dep(fields[m]) == Some(k) {
          assert k in out + [n];
        }
        if k, m :| k in out + [n] && m in fields && Dep(fields[m]) == Some(k) {
          assert k == n ==> m in Dependents(fields, n);
        }
      }
    }
  }

  /** At position `i` of the order comes the last of the ready list there. */
  lemma {:induction false} OrderFrom(fields: FieldMap, ready: seq<string>, out: seq<string>, i: nat)
    requires Kahn(fields, ready, out) && ReadyOrder(fields, ready, out)
    ensures out <= TopoFrom(fields, ready, out)
    ensures |out| <= i < |TopoFrom(fields, ready, out)| ==>
              exists rest :: Kahn(fields, rest + [TopoFrom(fields, ready, out)[i]], TopoFrom(fields, ready, out)[..i])
                             && ReadyOrder(fields, rest + [TopoFrom(fields, ready, out)[i]],
                                           TopoFrom(fields, ready, out)[..i])
    decreases fields.Keys - SetOf(out)
  {
    if ready != [] {
      var rest, n := ready[..|ready| - 1], ready[|ready| - 1];
      assert ready == rest + [n];
      KahnStep(fields, rest, n, out);
      OrderStep(fields, rest, n, out);
      assert n in fields.Keys - SetOf(out);
      OrderFrom(fields, Unlock(fields, rest, n), out + [n], i);
      var all := TopoFrom(fields, ready, out);
      assert out + [n] <= all && out <= out + [n];
      if i == |out| {
        assert all[..i] == out && all[i] == n;
        assert Kahn(fields, rest + [all[i]], all[..i]) && ReadyOrder(fields, rest + [all[i]], all[..i]);
      }
    }
  }

  /**
   The next field is the greatest of those whose `from` is out or that have none; but from
   the first release on, when a field that is out has given its value to another, it is the
   least of them.
   */
  lemma TopoChoice(fields: FieldMap, i: nat, m: string)
    requires i < |TopoNames(fields)| && m in fields && m !in TopoNames(fields)[..i] && m != TopoNames(fields)[i]
    requires fields[m].source.FromField? ==> fields[m].source.from in TopoNames(fields)[..i]
    ensures var names := TopoNames(fields);
            if exists n, d ::
                n in names[..i] && d in fields && fields[d].source.FromField? && fields[d].source.from == n
            then Less(names[i], m) else Less(m, names[i])
  {
    KahnStart(fields);
    var start: seq<string> := [];
    assert !Giving(fields, start);
    OrderFrom(fields, Listing(Roots(fields)), start, i);
    var names := TopoNames(fields);
    var rest :| Kahn(fields, rest + [names[i]], names[..i]) && ReadyOrder(fields, rest + [names[i]], names[..i]);
    var ready := rest + [names[i]];
    assert Free(fields, names[..i], m);
    assert m in ready;
    var j :| 0 <= j < |ready| && ready[j] == m;
    assert ready[|rest|] == names[i] && j < |rest|;
    assert Giving(fields, names[..i]) <==>
        exists n, d :: n in names[..i] && d in fields && fields[d].source.FromField? && fields[d].source.from == n by {
      if n, d :| n in names[..i] && d in fields && fields[d].source.FromField? && fields[d].source.from == n {
        assert Dep(fields[d]) == Some(n);
      }
      if n, d :| n in names[..i] && d in fields && Dep(fields[d]) == Some(n) {
        assert fields[d].source.FromField? && fields[d].source.from == n;
      }
    }
  }

  /** The chain of primary `from`s ends, within the map, after at most `k` steps. */
  ghost predicate Grounded(fields: FieldMap, n: string, k: nat)
    decreases k
  {
    n in fields && (Dep(fields[n]).None? || (k > 0 && Grounded(fields, Dep(fields[n]).value, k - 1)))
  }

  lemma {:induction false} GroundedIsOut(fields: FieldMap, out: seq<string>, n: string, k: nat)
    requires Kahn(fields, [], out) && Grounded(fields, n, k)
    ensures n in out
    decreases k
  {
    if Dep(fields[n]).Some? {
      GroundedIsOut(fields, out, Dep(fields[n]).value, k - 1);
    }
  }

  lemma {:induction false} OutIsGrounded(fields: FieldMap, out: seq<string>, i: nat)
    requires (forall m | m in out :: m in fields) && InOrder(fields, out) && i < |out|
    ensures Grounded(fields, out[i], i)
  {
    assert out[i] in out && Free(fields, out[..i], out[i]);
    if Dep(fields[out[i]]).Some? {
      var j :| 0 <= j < i && out[..i][j] == Dep(fields[out[i]]).value;
      OutIsGrounded(fields, out, j);
      GroundedMore(fields, out[j], j, i - 1);
    }
  }

  lemma {:induction false} GroundedMore(fields: FieldMap, n: string, j: nat, k: nat)
    requires Grounded(fields, n, j) && j <= k
    ensures Grounded(fields, n, k)
    decreases k
  {
    if Dep(fields[n]).Some? {
      GroundedMore(fields, Dep(fields[n]).value, j - 1, k - 1);
    }
  }

  /** `topo_sort`: the fields in dependency order, or an error. */
  function Topo(fields: FieldMap): Result<seq<Field>> {
    var names := TopoNames(fields);
    if |names| == |fields| && forall n | n in names :: n in fields
    then Ok(seq(|names|, i requires 0 <= i < |names| => assert names[i] in names; fields[names[i]]))
    else Err(SchemaValidation)
  }

  /**
   `topo_sort` succeeds exactly when every primary `from` chain stays in the
   map and ends; its result then lists each field once, after its `from`.
   */
  lemma TopoExact(fields: FieldMap)
    ensures Topo(fields).Ok? <==> AllGrounded(fields)
    ensures var names := TopoNames(fields);
            && Distinct(names)
            && (forall n | n in names :: n in fields)
            && InOrder(fields, names)
            && (Topo(fields).Ok? <==> SetOf(names) == fields.Keys)
  {
    KahnStart(fields);
    TopoFromKahn(fields, Listing(Roots(fields)), []);
    FinalExact(fields, TopoNames(fields));
  }

  ghost predicate AllGrounded(fields: FieldMap) {
    forall n | n in fields :: exists k: nat :: Grounded(fields, n, k)
  }

  /** When nothing is ready any more, what is out is what is grounded. */
  lemma FinalExact(fields: FieldMap, names: seq<string>)
    requires Kahn(fields, [], names)
    ensures |names| == |fields| <==> SetOf(names) == fields.Keys
    ensures |names| == |fields| <==> AllGrounded(fields)
  {
    DistinctSize(names);
    if |names| == |fields| {
      SameSize(SetOf(names), fields.Keys);
      forall n | n in fields ensures exists k: nat :: Grounded(fields, n, k) {
        assert n in SetOf(names);
        var i :| 0 <= i < |names| && names[i] == n;
        OutIsGrounded(fields, names, i);
      }
    }
    if AllGrounded(fields) {
      forall n | n in fields ensures n in names {
        var k: nat :| Grounded(fields, n, k);
        GroundedIsOut(fields, names, n, k);
      }
      assert SetOf(names) == fields.Keys;
    }
  }

  lemma {:induction false} DistinctSize(s: seq<string>)
    requires Distinct(s)
    ensures |SetOf(s)| == |s|
  {
    if s != [] {
      var init, x := s[..|s| - 1], s[|s| - 1];
      DistinctSize(init);
      assert s == init + [x];
      assert SetOf(s) == SetOf(init) + {x};
    }
  }

  lemma SameSize(a: set<string>, b: set<string>)
    requires a <= b && |a| == |b|
    ensures a == b
  {
    assert b == a + (b - a);
  }

  // ---- The imperative algorithm ----

  /** `deps` maps each name to the fields that wait for it, in no particular order. */
  ghost predicate DepsExact(fields: FieldMap, deps: map<string, seq<string>>) {
    && (forall n | n in deps :: Distinct(deps[n]) && deps[n] != [])
    && forall n, m :: n in deps && m in deps[n] <==> m in Dependents(fields, n)
  }

  /** `indeg` counts, for each field, the `from`s that are not out yet. */
  ghost predicate InDegrees(fields: FieldMap, indeg: map<string, nat>, out: seq<string>) {
    indeg.Keys == fields.Keys && forall m | m in fields :: indeg[m] == if Free(fields, out, m) then 0 else 1
  }

  lemma {:induction false} SelfNotGrounded(fields: FieldMap, n: string, k: nat)
    requires n in fields && Dep(fields[n]) == Some(n)
    ensures !Grounded(fields, n, k)
    decreases k
  {
    if k > 0 {
      SelfNotGrounded(fields, n, k - 1);
    }
  }

  /** The graph over the fields visited so far. */
  ghost predicate Partial(fields: FieldMap, deps: map<string, seq<string>>, indeg: map<string, nat>,
                          done: seq<string>) {
    && indeg.Keys == fields.Keys
    && (forall n | n in deps :: Distinct(deps[n]) && deps[n] != [])
    && (forall n, m :: n in deps && m in deps[n] <==> m in Dependents(fields, n) && m in done)
    && forall m | m in fields :: indeg[m] == if Dep(fields[m]).Some? && m in done then 1 else 0
  }

  function Waiting(deps: map<string, seq<string>>, n: string): seq<string> {
    if n in deps then deps[n] else []
  }

  lemma PartialStep(fields: FieldMap, deps: map<string, seq<string>>, indeg: map<string, nat>, done: seq<string>,
                    name: string)
    requires Partial(fields, deps, indeg, done) && name in fields && name !in done
    ensures var d := Dep(fields[name]);
            if d.Some? then
              Partial(fields, deps[d.value := Waiting(deps, d.value) + [name]], indeg[name := indeg[name] + 1],
                      done + [name])
            else Partial(fields, deps, indeg, done + [name])
  {
    var d := Dep(fields[name]);
    if d.Some? {
      var more := Waiting(deps, d.value) + [name];
      assert Distinct(more) by {
        assert d.value in deps ==> name !in deps[d.value];
      }
      assert forall m :: m in more <==> m in Waiting(deps, d.value) || m == name;
    }
  }

  /** The first loops of `topo_sort`; a field that names itself is an error. */
  method BuildGraph(fields: FieldMap, order: seq<string>)
    returns (selfRef: bool, deps: map<string, seq<string>>, indeg: map<string, nat>)
    requires Distinct(order) && SetOf(order) == fields.Keys
    ensures selfRef ==> exists n | n in fields :: Dep(fields[n]) == Some(n)
    ensures !selfRef ==> DepsExact(fields, deps) && InDegrees(fields, indeg, [])
  {
    deps, indeg, selfRef := map[], map n | n in fields :: 0, false;
    for i := 0 to |order|
      invariant Partial(fields, deps, indeg, order[..i])
    {
      var name := order[i];
      NextInOrder(fields, order, i);
      PartialStep(fields, deps, indeg, order[..i], name);
      match Dep(fields[name])
      case None =>
      case Some(from) =>
        if from == name {
          return true, deps, indeg;
        }
        deps, indeg := deps[from := Waiting(deps, from) + [name]], indeg[name := indeg[name] + 1];
    }
    assert order[..|order|] == order;
    PartialAll(fields, deps, indeg, order);
  }

  lemma NextInOrder(fields: FieldMap, order: seq<string>, i: nat)
    requires Distinct(order) && SetOf(order) == fields.Keys && i < |order|
    ensures order[i] in fields && order[i] !in order[..i] && order[..i + 1] == order[..i] + [order[i]]
  {
    assert order[i] in SetOf(order);
  }

  lemma PartialAll(fields: FieldMap, deps: map<string, seq<string>>, indeg: map<string, nat>, order: seq<string>)
    requires Partial(fields, deps, indeg, order) && SetOf(order) == fields.Keys
    ensures DepsExact(fields, deps) && InDegrees(fields, indeg, [])
  {
    assert forall m :: m in order <==> m in SetOf(order);
  }

  /** Takes one from the in-degree of each waiting field and collects those that reach zero. */
  method Release(waiting: seq<string>, before: map<string, nat>)
    returns (indeg: map<string, nat>, unlocked: seq<string>)
    requires Distinct(waiting) && forall m | m in waiting :: m in before && before[m] == 1
    ensures indeg.Keys == before.Keys && SetOf(unlocked) == SetOf(waiting)
    ensures forall m | m in before :: indeg[m] == if m in waiting then 0 else before[m]
  {
    indeg, unlocked := before, [];
    for i := 0 to |waiting|
      invariant indeg.Keys == before.Keys && unlocked == waiting[..i]
      invariant forall m | m in before :: indeg[m] == if m in waiting[..i] then 0 else before[m]
    {
      var m := waiting[i];
      assert waiting[..i + 1] == waiting[..i] + [m] && m !in waiting[..i];
      indeg := indeg[m := indeg[m] - 1];
      if indeg[m] == 0 {
        unlocked := unlocked + [m];
      }
    }
    assert waiting[..|waiting|] == waiting;
  }

  lemma Released(fields: FieldMap, deps: map<string, seq<string>>, indeg: map<string, nat>, next: map<string, nat>,
                 rest: seq<string>, n: string, out: seq<string>)
    requires Kahn(fields, rest + [n], out) && DepsExact(fields, deps) && InDegrees(fields, indeg, out)
    ensures n in deps <==> Dependents(fields, n) != {}
    ensures n in deps ==>
              SetOf(deps[n]) == Dependents(fields, n) && forall m | m in deps[n] :: m in indeg && indeg[m] == 1
    ensures && next.Keys == indeg.Keys
            && (forall m | m in indeg :: next[m] == if m in Dependents(fields, n) then 0 else indeg[m]) ==>
              InDegrees(fields, next, out + [n])
  {
    KahnStep(fields, rest, n, out);
    assert n in deps ==> deps[n][0] in Dependents(fields, n);
    forall m | m in Dependents(fields, n) ensures m in indeg && indeg[m] == 1 {
      assert !Free(fields, out, m);
    }
    forall m | m in fields ensures Free(fields, out + [n], m) <==> Free(fields, out, m) || m in Dependents(fields, n) {
    }
  }

  lemma SelfReference(fields: FieldMap)
    requires exists n | n in fields :: Dep(fields[n]) == Some(n)
    ensures Topo(fields) == Err(SchemaValidation)
  {
    TopoExact(fields);
    var n :| n in fields && Dep(fields[n]) == Some(n);
    forall k: nat ensures !Grounded(fields, n, k) {
      SelfNotGrounded(fields, n, k);
    }
  }

  /** `topo_sort`, for any iteration order of the `HashMap`: the result does not depend on it. */
  method Sort(fields: FieldMap, order: seq<string>) returns (r: Result<seq<Field>>)
    requires Distinct(order) && SetOf(order) == fields.Keys
    ensures r == Topo(fields)
  {
    var selfRef, deps, indeg := BuildGraph(fields, order);
    if selfRef {
      SelfReference(fields);
      return Err(SchemaValidation);
    }
    var names := SortNames(fields, deps, indeg);
    if |names| != |fields| {
      return Err(SchemaValidation);
    }
    r := Ok(seq(|names|, i requires 0 <= i < |names| => assert names[i] in names; fields[names[i]]));
  }

  method SortNames(fields: FieldMap, deps: map<string, seq<string>>, indeg: map<string, nat>)
    returns (names: seq<string>)
    requires DepsExact(fields, deps) && InDegrees(fields, indeg, [])
    ensures names == TopoNames(fields) && forall n | n in names :: n in fields
  {
    KahnStart(fields);
    assert Roots(fields) == set m | m in indeg && indeg[m] == 0;
    var ready := Listing(set m | m in indeg && indeg[m] == 0);
    TopoFromKahn(fields, ready, []);
    names := Drain(fields, deps, indeg, ready);
  }

  /** The main loop. */
  method Drain(fields: FieldMap, deps: map<string, seq<string>>, before: map<string, nat>, start: seq<string>)
    returns (out: seq<string>)
    requires Kahn(fields, start, []) && DepsExact(fields, deps) && InDegrees(fields, before, [])
    ensures out == TopoFrom(fields, start, [])
  {
    var ready, indeg := start, before;
    out := [];
    while ready != []
      invariant Kahn(fields, ready, out) && InDegrees(fields, indeg, out)
      invariant TopoFrom(fields, ready, out) == TopoFrom(fields, start, [])
      decreases fields.Keys - SetOf(out)
    {
      var rest, n := ready[..|ready| - 1], ready[|ready| - 1];
      assert ready == rest + [n];
      KahnStep(fields, rest, n, out);
      assert n in fields.Keys - SetOf(out);
      Released(fields, deps, indeg, indeg, rest, n, out);
      ghost var was := indeg;
      if n in deps {
        var unlocked;
        indeg, unlocked := Release(deps[n], indeg);
        ready := Descending(SetOf(rest) + SetOf(unlocked));
      } else {
        ready := rest;
      }
      Released(fields, deps, was, indeg, rest, n, out);
      assert ready == Unlock(fields, rest, n);
      out := out + [n];
    }
  }

  // ---- What the order is for ----

  lemma {:induction false} LoopResolves(w: World, fields: seq<Field>, input: Input, view: View, st: State)
    requires st.result.Ok? && Loop(w, fields, input, view, st).result.Ok?
    ensures Loop(w, fields, input, view, st).resolved.Keys == st.resolved.Keys + set f | f in fields :: f.name
    decreases |fields|
  {
    if fields != [] {
      LoopResolves(w, fields[1..], input, view, Step(w, fields[0], input, view, st));
      assert fields == [fields[0]] + fields[1..];
    }
  }

  ghost predicate Named(fields: FieldMap) {
    forall n | n in fields :: fields[n].name == n
  }

  /** What ingest has resolved, with any cache, when it comes to the field at `i`: exactly the names before it. */
  lemma ResolvedBefore(w: World, m: FieldMap, input: Input, view: View, cache: Cache, i: nat, x: string)
    requires Named(m) && Topo(m) == Ok(view.schema.fields) && i < |view.schema.fields|
    requires Loop(w, view.schema.fields[..i], input, view, START.(cache := cache)).result.Ok?
    ensures x in Loop(w, view.schema.fields[..i], input, view, START.(cache := cache)).resolved <==>
            x in TopoNames(m)[..i]
  {
    TopoExact(m);
    var names, fields := TopoNames(m), view.schema.fields;
    LoopResolves(w, fields[..i], input, view, START.(cache := cache));
    forall k | 0 <= k < i ensures fields[..i][k].name == names[..i][k] {
      assert names[k] in names;
    }
    if x in names[..i] {
      var k :| 0 <= k < i && names[..i][k] == x;
      assert fields[..i][k] in fields[..i];
    }
  }

  /** Ingest never reads a field that is not resolved yet, as far as primary sources go. */
  lemma FromIsResolved(w: World, m: FieldMap, input: Input, view: View, cache: Cache, i: nat)
    requires Named(m) && Topo(m) == Ok(view.schema.fields) && i < |view.schema.fields|
    requires Loop(w, view.schema.fields[..i], input, view, START.(cache := cache)).result.Ok?
             && view.schema.fields[i].source.FromField?
    ensures view.schema.fields[i].source.from in Loop(w, view.schema.fields[..i], input, view,
                                                      START.(cache := cache)).resolved
  {
    TopoExact(m);
    var names := TopoNames(m);
    assert names[i] in names && Free(m, names[..i], names[i]);
    ResolvedBefore(w, m, input, view, cache, i, view.schema.fields[i].source.from);
  }

  /** `schemas_equal` compares position by position; that is comparing the field maps. */
  lemma SameOrderSameFields(a: FieldMap, b: FieldMap)
    requires Named(a) && Named(b) && Topo(a).Ok? && Topo(b).Ok?
    ensures Topo(a) == Topo(b) <==> a == b
  {
    TopoExact(a);
    TopoExact(b);
    if Topo(a) == Topo(b) {
      FieldsDetermine(a, b);
      FieldsDetermine(b, a);
      SameFields(a, b);
    }
  }

  lemma SameFields(a: FieldMap, b: FieldMap)
    requires forall n | n in a :: n in b && a[n] == b[n]
    requires forall n | n in b :: n in a && b[n] == a[n]
    ensures a == b
  {
  }

  lemma FieldsDetermine(a: FieldMap, b: FieldMap)
    requires Named(a) && Named(b) && Topo(a).Ok? && Topo(a) == Topo(b)
    requires SetOf(TopoNames(a)) == a.Keys && forall n | n in TopoNames(b) :: n in b
    ensures forall n | n in a :: n in b && a[n] == b[n]
  {
    forall n | n in a ensures n in b && a[n] == b[n] {
      assert n in SetOf(TopoNames(a));
      var i :| 0 <= i < |TopoNames(a)| && TopoNames(a)[i] == n;
      assert Topo(a).value[i] == a[n] && Topo(b).value[i] == b[TopoNames(b)[i]];
      assert TopoNames(b)[i] in TopoNames(b);
    }
  }

  /**
   References inside a fallback are not dependencies. Of two independent
   fields the one with the greater name is resolved first, so its fallback
   reads a null from the other, and not the value it would read after it.
   */
  lemma FallbackNotOrdered(w: World, input: Input, view: View, x: string, y: string, v: FieldValue, fields: FieldMap)
    requires Less(x, y) && fields.Keys == {x, y} && Dep(fields[x]).None?
    requires fields[y].name == y && fields[y].source.UserProvided? && y !in input.user
    requires fields[y].fallback == Some(Field(y + ".fallback", FromField(x, Identity), fields[y].ty, false, None))
    ensures TopoNames(fields) == [y, x]
    ensures ResolveField(w, fields[y], input, view, map[], map[], map[]).value == Ok(Null)
    ensures ResolveField(w, fields[y], input, view, map[x := v], map[], map[]).value == Ok(v)
  {
    KahnStart(fields);
    assert Roots(fields) == {x, y};
    TwoNames(x, y);
    TwoReady(x, y, fields);
    FallbackReads(w, input, view, fields[y], x, map[]);
    FallbackReads(w, input, view, fields[y], x, map[x := v]);
  }

  lemma FallbackReads(w: World, input: Input, view: View, f: Field, x: string, resolved: Fields)
    requires f.source.UserProvided? && f.name !in input.user
    requires f.fallback == Some(Field(f.name + ".fallback", FromField(x, Identity), f.ty, false, None))
    ensures ResolveField(w, f, input, view, resolved, map[], map[]).value ==
            Ok(if x in resolved then resolved[x] else Null)
  {
    var g := f.fallback.value;
    assert ResolveSource(w, f, input, view, resolved, map[], map[]) == Out(Ok(Null), map[], map[]);
    assert ResolveField(w, g, input, view, resolved, map[], map[]) ==
        ResolveSource(w, g, input, view, resolved, map[], map[]);
  }

  lemma TwoReady(x: string, y: string, fields: FieldMap)
    requires Kahn(fields, [x, y], []) && Dependents(fields, x) == Dependents(fields, y) == {}
    ensures TopoFrom(fields, [x, y], []) == [y, x]
  {
    assert [x] + [y] == [x, y] && [] + [y] == [y] && [] + [x] == [x] && [y] + [x] == [y, x];
    NoDependents(fields, [x], y, []);
    NoDependents(fields, [], x, [y]);
  }

  lemma NoDependents(fields: FieldMap, rest: seq<string>, n: string, out: seq<string>)
    requires Kahn(fields, rest + [n], out) && Dependents(fields, n) == {}
    ensures Kahn(fields, rest, out + [n])
    ensures TopoFrom(fields, rest + [n], out) == TopoFrom(fields, rest, out + [n])
  {
    KahnStep(fields, rest, n, out);
    assert (rest + [n])[..|rest|] == rest;
  }

  lemma TwoNames(x: string, y: string)
    requires Less(x, y)
    ensures Listing({x, y}) == [x, y]
  {
    var r := Listing({x, y});
    LessTrichotomy(x, y);
    assert x in r && y in r && |r| == |{x, y}| == 2;
    assert Less(r[0], r[1]);
    assert r[0] in r && r[1] in r;
  }
}
