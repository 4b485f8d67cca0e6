/**
 What an ingest makes of a file (`ingest_with_cache`,
 crates/omp-core/src/engine.rs:146-337), stated on the schema and the input
 alone: no loop, no growing cache and no field resolved before another.
 */
module IngestLaws {
  import opened Objects
  import opened Engine

  ghost predicate DistinctNames(fields: seq<Field>) {
    forall i, k | 0 <= i < k < |fields| :: fields[i].name != fields[k].name
  }

  // ---- What one field is to show ----

  /** What a probe that may run has to say: the cached value, or else its output. */
  function Asked(w: World, source: Source, input: Input, view: View, cache: Cache): Result<FieldValue>
    requires Consults(source, input, view)
  {
    if KeyOf(source, input, view) in cache then Ok(cache[KeyOf(source, input, view)])
    else w.run(view.probes[source.probe].wasm, input.bytes, WireArgs(source.args, input.path), view.limits)
  }

  function Or(m: Fields, k: string): FieldValue {
    if k in m then m[k] else Null
  }

  /** The built-in values of a chunked file. */
  function BuiltinOf(b: Builtins, probe: string): FieldValue {
    if probe == "file.size" then Int(b.size) else if probe == "file.sha256" then Str(b.sha256) else Null
  }

  /** What the source of a field says, `earlier` being what the fields before it show. */
  function Primary(w: World, f: Field, input: Input, view: View, earlier: Fields, cache: Cache): Result<FieldValue> {
    match f.source
    case Constant(v) => Ok(v)
    case UserProvided => Ok(Or(input.user, f.name))
    case FromField(from, t) => Ok(Transformed(w, t, Or(earlier, from)))
    case Probe(probe, _) =>
      if probe !in view.probes then Err(SchemaValidation)
      else if input.builtins.Some? then Ok(BuiltinOf(input.builtins.value, probe))
      else if Consults(f.source, input, view) then Asked(w, f.source, input, view, cache)
      else Ok(Null)
  }

  /** The first non-null value down the fallbacks. */
  function Value(w: World, f: Field, input: Input, view: View, earlier: Fields, cache: Cache): Result<FieldValue>
    decreases f
  {
    var p := Primary(w, f, input, view, earlier, cache);
    if p == Ok(Null) && f.fallback.Some? then Value(w, f.fallback.value, input, view, earlier, cache) else p
  }

  /** The field, or a fallback that is reached, asks this probe. */
  ghost predicate Asks(w: World, f: Field, input: Input, view: View, earlier: Fields, cache: Cache, probe: string)
    decreases f
  {
    || (Consults(f.source, input, view) && f.source.probe == probe)
    || (Primary(w, f, input, view, earlier, cache) == Ok(Null) && f.fallback.Some?
        && Asks(w, f.fallback.value, input, view, earlier, cache, probe))
  }

  // ---- What the fields show together ----

  ghost predicate NameAmong(fields: seq<Field>, n: nat, k: string)
    requires n <= |fields|
  {
    exists j | 0 <= j < n :: fields[j].name == k
  }

  /** What the first `n` fields show. */
  ghost function Before(fields: seq<Field>, n: nat, shown: Fields): Fields
    requires n <= |fields|
  {
    map k | k in shown && NameAmong(fields, n, k) :: shown[k]
  }

  /** The value fits the field. */
  predicate Allowed(f: Field, v: FieldValue) {
    (f.required ==> !v.Null?) && Accepts(f.ty, v)
  }

  /** Field `i` shows its value, which is allowed. */
  ghost predicate Shows(w: World, fields: seq<Field>, input: Input, view: View, cache: Cache, shown: Fields, i: nat)
    requires i < |fields|
  {
    var f, v := fields[i], Value(w, fields[i], input, view, Before(fields, i, shown), cache);
    v.Ok? && Allowed(f, v.value) && f.name in shown && shown[f.name] == Normalize(v.value, f.ty)
  }

  /** The first `n` fields, and only these, show what they are to show. */
  ghost predicate ShowsTo(w: World, fields: seq<Field>, input: Input, view: View, cache: Cache, shown: Fields, n: nat)
    requires n <= |fields|
  {
    && (forall k :: k in shown <==> NameAmong(fields, n, k))
    && (forall i | 0 <= i < n :: Shows(w, fields, input, view, cache, shown, i))
  }

  ghost predicate Explains(w: World, input: Input, view: View, cache: Cache, shown: Fields) {
    ShowsTo(w, view.schema.fields, input, view, cache, shown, |view.schema.fields|)
  }

  // ---- The engine finds these values ----

  /** A cache that has grown during an ingest answers like the one it started with. */
  ghost predicate Answers(w: World, input: Input, view: View, cache: Cache, now: Cache) {
    forall source | Consults(source, input, view) ::
      Asked(w, source, input, view, now) == Asked(w, source, input, view, cache)
  }

  lemma SameRun(w: World, a: Source, b: Source, input: Input, view: View)
    requires Consults(a, input, view) && Consults(b, input, view) && KeyOf(a, input, view) == KeyOf(b, input, view)
    ensures view.probes[a.probe].wasm == view.probes[b.probe].wasm
    ensures WireArgs(a.args, input.path) == WireArgs(b.args, input.path)
  {
  }

  lemma SourceFound(w: World, f: Field, input: Input, view: View, resolved: Fields, hashes: map<string, Hash>,
                    cache: Cache, now: Cache)
    requires Answers(w, input, view, cache, now)
    ensures var o := ResolveSource(w, f, input, view, resolved, hashes, now);
            && o.value == Primary(w, f, input, view, resolved, cache)
            && Answers(w, input, view, cache, o.cache)
            && (o.value.Ok? ==>
                  o.hashes == if Consults(f.source, input, view)
                              then hashes[f.source.probe := BlobHash(view.probes[f.source.probe].wasm)]
                              else hashes)
  {
    if Consults(f.source, input, view) {
      var o := ResolveSource(w, f, input, view, resolved, hashes, now);
      assert Asked(w, f.source, input, view, now) == Asked(w, f.source, input, view, cache);
      forall source | Consults(source, input, view)
        ensures Asked(w, source, input, view, o.cache) == Asked(w, source, input, view, cache)
      {
        assert Asked(w, source, input, view, now) == Asked(w, source, input, view, cache);
        if KeyOf(source, input, view) == KeyOf(f.source, input, view) {
          SameRun(w, source, f.source, input, view);
        }
      }
    }
  }

  /** The recorded hashes after a field: those of the probes it asked are added. */
  ghost predicate Recorded(w: World, f: Field, input: Input, view: View, earlier: Fields, cache: Cache,
                           hashes: map<string, Hash>, after: map<string, Hash>) {
    forall p ::
      && (p in after <==> p in hashes || Asks(w, f, input, view, earlier, cache, p))
      && (Asks(w, f, input, view, earlier, cache, p) ==> p in view.probes && after[p] == BlobHash(view.probes[p].wasm))
      && (p in hashes && !Asks(w, f, input, view, earlier, cache, p) ==> after[p] == hashes[p])
  }

  lemma {:induction false} FieldFound(w: World, f: Field, input: Input, view: View, resolved: Fields,
                                      hashes: map<string, Hash>, cache: Cache, now: Cache)
    requires Answers(w, input, view, cache, now)
    ensures var o := ResolveField(w, f, input, view, resolved, hashes, now);
            && o.value == Value(w, f, input, view, resolved, cache)
            && Answers(w, input, view, cache, o.cache)
            && (o.value.Ok? ==> Recorded(w, f, input, view, resolved, cache, hashes, o.hashes))
    decreases f
  {
    SourceFound(w, f, input, view, resolved, hashes, cache, now);
    var p := ResolveSource(w, f, input, view, resolved, hashes, now);
    if p.value == Ok(Null) && f.fallback.Some? {
      FieldFound(w, f.fallback.value, input, view, resolved, p.hashes, cache, p.cache);
    }
  }

  // ---- The loop over the fields ----

  lemma BeforePush(fields: seq<Field>, n: nat, i: nat, shown: Fields, v: FieldValue)
    requires DistinctNames(fields) && n <= i < |fields|
    ensures Before(fields, n, shown[fields[i].name := v]) == Before(fields, n, shown)
  {
  }

  lemma BeforeAll(fields: seq<Field>, n: nat, shown: Fields)
    requires n <= |fields| && forall k | k in shown :: NameAmong(fields, n, k)
    ensures Before(fields, n, shown) == shown
  {
  }

  /** One more field shows its value. */
  lemma ShowsMore(w: World, fields: seq<Field>, input: Input, view: View, cache: Cache, shown: Fields, i: nat,
                  v: FieldValue)
    requires DistinctNames(fields) && i < |fields| && ShowsTo(w, fields, input, view, cache, shown, i)
    requires Value(w, fields[i], input, view, shown, cache) == Ok(v) && Allowed(fields[i], v)
    ensures ShowsTo(w, fields, input, view, cache, shown[fields[i].name := Normalize(v, fields[i].ty)], i + 1)
  {
    var next := shown[fields[i].name := Normalize(v, fields[i].ty)];
    forall k ensures k in next <==> NameAmong(fields, i + 1, k) {
      assert k in shown <==> NameAmong(fields, i, k);
      assert NameAmong(fields, i + 1, k) <==> NameAmong(fields, i, k) || k == fields[i].name by {
        assert fields[i].name == k ==> NameAmong(fields, i + 1, k);
      }
    }
    BeforeAll(fields, i, shown);
    forall j | 0 <= j <= i ensures Shows(w, fields, input, view, cache, next, j) {
      BeforePush(fields, j, i, shown, Normalize(v, fields[i].ty));
      if j < i {
        assert Shows(w, fields, input, view, cache, shown, j) && fields[j].name != fields[i].name;
      }
    }
  }

  /** The fields before `i` show what they are to show, and field `i` has no value that is allowed. */
  ghost predicate StopsAt(w: World, fields: seq<Field>, input: Input, view: View, cache: Cache, shown: Fields, i: nat,
                          e: Error) {
    && i < |fields|
    && ShowsTo(w, fields, input, view, cache, shown, i)
    && var v := Value(w, fields[i], input, view, shown, cache);
    if v.Err? then e == v.error else !Allowed(fields[i], v.value) && e == IngestValidation
  }

  ghost predicate Stops(w: World, input: Input, view: View, cache: Cache, e: Error) {
    exists shown, i :: StopsAt(w, view.schema.fields, input, view, cache, shown, i, e)
  }

  /** The hashes are those of the probes that the first `n` fields ask. */
  ghost predicate HashesTo(w: World, fields: seq<Field>, input: Input, view: View, cache: Cache, shown: Fields,
                           hashes: map<string, Hash>, n: nat)
    requires n <= |fields|
  {
    && (forall p :: p in hashes <==> AskedBy(w, fields, input, view, cache, shown, p, n))
    && (forall p | p in hashes :: p in view.probes && hashes[p] == BlobHash(view.probes[p].wasm))
  }

  /** One of the first `n` fields asks the probe. */
  ghost predicate AskedBy(w: World, fields: seq<Field>, input: Input, view: View, cache: Cache, shown: Fields,
                          probe: string, n: nat)
    requires n <= |fields|
  {
    exists i | 0 <= i < n :: Asks(w, fields[i], input, view, Before(fields, i, shown), cache, probe)
  }

  lemma AskedMore(w: World, fields: seq<Field>, input: Input, view: View, cache: Cache, shown: Fields, i: nat,
                  v: FieldValue, p: string)
    requires DistinctNames(fields) && i < |fields| && Before(fields, i, shown) == shown
    ensures AskedBy(w, fields, input, view, cache, shown[fields[i].name := v], p, i + 1) <==>
            (AskedBy(w, fields, input, view, cache, shown, p, i) || Asks(w, fields[i], input, view, shown, cache, p))
  {
    var next := shown[fields[i].name := v];
    BeforePush(fields, i, i, shown, v);
    if j :| 0 <= j < i && Asks(w, fields[j], input, view, Before(fields, j, shown), cache, p) {
      BeforePush(fields, j, i, shown, v);
      assert Asks(w, fields[j], input, view, Before(fields, j, next), cache, p);
    }
    if j :| 0 <= j < i + 1 && Asks(w, fields[j], input, view, Before(fields, j, next), cache, p) {
      BeforePush(fields, j, i, shown, v);
    }
    if Asks(w, fields[i], input, view, shown, cache, p) {
      assert Asks(w, fields[i], input, view, Before(fields, i, next), cache, p);
    }
  }

  lemma HashesMore(w: World, fields: seq<Field>, input: Input, view: View, cache: Cache, shown: Fields, i: nat,
                   v: FieldValue, hashes: map<string, Hash>, after: map<string, Hash>)
    requires DistinctNames(fields) && i < |fields| && Before(fields, i, shown) == shown
    requires HashesTo(w, fields, input, view, cache, shown, hashes, i)
    requires Recorded(w, fields[i], input, view, shown, cache, hashes, after)
    ensures HashesTo(w, fields, input, view, cache, shown[fields[i].name := v], after, i + 1)
  {
    forall p
      ensures AskedBy(w, fields, input, view, cache, shown[fields[i].name := v], p, i + 1) <==>
              (AskedBy(w, fields, input, view, cache, shown, p, i) || Asks(w, fields[i], input, view, shown, cache, p))
    {
      AskedMore(w, fields, input, view, cache, shown, i, v, p);
    }
  }

  /** What the loop has found when it is at field `i`. */
  ghost predicate Found(w: World, fields: seq<Field>, input: Input, view: View, cache: Cache, st: State, i: nat)
    requires i <= |fields|
  {
    && st.result.Ok?
    && ShowsTo(w, fields, input, view, cache, st.resolved, i)
    && HashesTo(w, fields, input, view, cache, st.resolved, st.hashes, i)
    && Answers(w, input, view, cache, st.cache)
  }

  lemma StepFound(w: World, fields: seq<Field>, input: Input, view: View, cache: Cache, st: State, i: nat)
    requires DistinctNames(fields) && i < |fields| && Found(w, fields, input, view, cache, st, i)
    ensures var next := Step(w, fields[i], input, view, st);
            if next.result.Ok? then Found(w, fields, input, view, cache, next, i + 1)
            else StopsAt(w, fields, input, view, cache, st.resolved, i, next.result.error)
  {
    var f := fields[i];
    FieldFound(w, f, input, view, st.resolved, st.hashes, cache, st.cache);
    BeforeAll(fields, i, st.resolved);
    var next := Step(w, f, input, view, st);
    if next.result.Ok? {
      var o := ResolveField(w, f, input, view, st.resolved, st.hashes, st.cache);
      ShowsMore(w, fields, input, view, cache, st.resolved, i, o.value.value);
      HashesMore(w, fields, input, view, cache, st.resolved, i, Normalize(o.value.value, f.ty), st.hashes, o.hashes);
    }
  }

  lemma {:induction false} LoopFound(w: World, fields: seq<Field>, input: Input, view: View, cache: Cache, st: State,
                                     i: nat)
    requires DistinctNames(fields) && i <= |fields| && Found(w, fields, input, view, cache, st, i)
    ensures var end := Loop(w, fields[i..], input, view, st);
            if end.result.Ok? then Found(w, fields, input, view, cache, end, |fields|)
            else exists shown, k :: StopsAt(w, fields, input, view, cache, shown, k, end.result.error)
    decreases |fields| - i
  {
    if i < |fields| {
      StepFound(w, fields, input, view, cache, st, i);
      assert fields[i..][0] == fields[i] && fields[i..][1..] == fields[i + 1..];
      var next := Step(w, fields[i], input, view, st);
      if next.result.Ok? {
        LoopFound(w, fields, input, view, cache, next, i + 1);
      }
    }
  }

  /** Only one table of values can be shown. */
  lemma {:induction false} ShownUnique(w: World, fields: seq<Field>, input: Input, view: View, cache: Cache,
                                       a: Fields, b: Fields, n: nat, m: nat)
    requires n <= m <= |fields|
    requires ShowsTo(w, fields, input, view, cache, a, n) && ShowsTo(w, fields, input, view, cache, b, m)
    ensures Before(fields, n, b) == a
    decreases n
  {
    var c := Before(fields, n, b);
    forall k ensures k in c <==> k in a {
      assert k in a <==> NameAmong(fields, n, k);
      assert k in b <==> NameAmong(fields, m, k);
      if NameAmong(fields, n, k) {
        var j :| 0 <= j < n && fields[j].name == k;
        assert j < m;
      }
    }
    forall k | k in a ensures c[k] == a[k] {
      var j :| 0 <= j < n && fields[j].name == k;
      SameBefore(w, fields, input, view, cache, a, b, j, n, m);
      assert Shows(w, fields, input, view, cache, a, j) && Shows(w, fields, input, view, cache, b, j);
    }
  }

  lemma {:induction false} SameBefore(w: World, fields: seq<Field>, input: Input, view: View, cache: Cache,
                                      a: Fields, b: Fields, j: nat, n: nat, m: nat)
    requires j < n <= m <= |fields|
    requires ShowsTo(w, fields, input, view, cache, a, n) && ShowsTo(w, fields, input, view, cache, b, m)
    ensures Before(fields, j, a) == Before(fields, j, b)
    decreases j
  {
    forall k | NameAmong(fields, j, k) ensures k in a && k in b && a[k] == b[k] {
      var i :| 0 <= i < j && fields[i].name == k;
      SameBefore(w, fields, input, view, cache, a, b, i, n, m);
      assert Shows(w, fields, input, view, cache, a, i) && Shows(w, fields, input, view, cache, b, i);
    }
  }

  /** A table for all fields excludes stopping at one of them. */
  lemma ExplainedGoesOn(w: World, input: Input, view: View, cache: Cache, shown: Fields, part: Fields, i: nat, e: Error)
    requires Explains(w, input, view, cache, shown)
    ensures !StopsAt(w, view.schema.fields, input, view, cache, part, i, e)
  {
    var fields := view.schema.fields;
    if i < |fields| && ShowsTo(w, fields, input, view, cache, part, i) {
      ShownUnique(w, fields, input, view, cache, part, shown, i, |fields|);
      assert Shows(w, fields, input, view, cache, shown, i);
    }
  }

  // ---- The manifest ----

  /** A user field that the schema does not declare, where none is allowed. */
  ghost predicate Stray(input: Input, schema: Schema) {
    !schema.allowExtra && exists k | k in input.user :: !exists f | f in schema.fields :: f.name == k
  }

  /** Exactly these probes, declared fields and, when allowed, extras are in the manifest; its head is the input's. */
  ghost predicate Manifested(w: World, input: Input, view: View, cache: Cache, shown: Fields, m: FileManifest) {
    && m.source == (if input.overrideSource.Some? then input.overrideSource.value else BlobHash(input.bytes))
    && m.fileType == view.schema.fileType && m.schemaHash == BlobHash(view.schemaBlob) && m.at == input.at
    && HashesTo(w, view.schema.fields, input, view, cache, shown, m.probes, |view.schema.fields|)
    && (forall k :: k in m.fields <==> k in shown || (view.schema.allowExtra && k in input.user))
    && (forall k | k in m.fields :: m.fields[k] == if k in shown then shown[k] else input.user[k])
  }

  /**
   Ingest succeeds exactly when there is a table in which every field shows its value, no
   probe being missing or failing, no required field null and every value of its type, and
   no user field is undeclared unless extras are allowed. The manifest then shows that
   table, which is the only one, and the extras. Otherwise the error is that of the first
   field without an allowed value, or of the stray user field.
   */
  lemma IngestExact(w: World, input: Input, view: View, cache: Cache)
    requires DistinctNames(view.schema.fields)
    ensures var r := Ingest(w, input, view, cache).0;
            && (r.Ok? <==> (exists shown :: Explains(w, input, view, cache, shown)) && !Stray(input, view.schema))
            && (r.Ok? ==> forall shown | Explains(w, input, view, cache, shown) ::
                Manifested(w, input, view, cache, shown, r.value))
            && (r.Err? ==>
                  || Stops(w, input, view, cache, r.error)
                  || (r.error == IngestValidation && Stray(input, view.schema)))
  {
    var fields, st := view.schema.fields, START.(cache := cache);
    assert fields[0..] == fields;
    LoopFound(w, fields, input, view, cache, st, 0);
    var end := Loop(w, fields, input, view, st);
    if end.result.Ok? {
      FinishExact(w, input, view, cache, end);
    } else {
      forall shown ensures !Explains(w, input, view, cache, shown) {
        var part, k :| StopsAt(w, fields, input, view, cache, part, k, end.result.error);
        if Explains(w, input, view, cache, shown) {
          ExplainedGoesOn(w, input, view, cache, shown, part, k, end.result.error);
        }
      }
    }
  }

  lemma FinishExact(w: World, input: Input, view: View, cache: Cache, end: State)
    requires DistinctNames(view.schema.fields)
    requires Found(w, view.schema.fields, input, view, cache, end, |view.schema.fields|)
    ensures Explains(w, input, view, cache, end.resolved)
    ensures var r := Finish(input, view, end.resolved, end.hashes);
            && (r.Ok? <==> !Stray(input, view.schema))
            && (r.Ok? ==> forall shown | Explains(w, input, view, cache, shown) ::
                Manifested(w, input, view, cache, shown, r.value))
            && (r.Err? ==> r.error == IngestValidation)
  {
    FinishManifest(w, input, view, cache, end);
    forall shown | Explains(w, input, view, cache, shown) ensures shown == end.resolved {
      OneTable(w, input, view, cache, end.resolved, shown);
    }
  }

  lemma OneTable(w: World, input: Input, view: View, cache: Cache, a: Fields, b: Fields)
    requires Explains(w, input, view, cache, a) && Explains(w, input, view, cache, b)
    ensures a == b
  {
    var fields := view.schema.fields;
    ShownUnique(w, fields, input, view, cache, a, b, |fields|, |fields|);
    BeforeAll(fields, |fields|, b);
  }

  lemma FinishManifest(w: World, input: Input, view: View, cache: Cache, end: State)
    requires Found(w, view.schema.fields, input, view, cache, end, |view.schema.fields|)
    ensures var r := Finish(input, view, end.resolved, end.hashes);
            && (r.Ok? <==> !Stray(input, view.schema))
            && (r.Ok? ==> Manifested(w, input, view, cache, end.resolved, r.value))
            && (r.Err? ==> r.error == IngestValidation)
  {
    assert forall k :: Declared(view.schema, k) <==> exists f | f in view.schema.fields :: f.name == k;
  }

  // ---- Field by field ----

  /** The manifest shows, for every declared field, its value, which is allowed. */
  lemma FieldShown(w: World, input: Input, view: View, cache: Cache, i: nat)
    requires DistinctNames(view.schema.fields) && i < |view.schema.fields|
    requires Ingest(w, input, view, cache).0.Ok?
    ensures var m, f := Ingest(w, input, view, cache).0.value, view.schema.fields[i];
            var v := Value(w, f, input, view, Before(view.schema.fields, i, m.fields), cache);
            && v.Ok? && (f.required ==> !v.value.Null?) && Accepts(f.ty, v.value)
            && f.name in m.fields && m.fields[f.name] == Normalize(v.value, f.ty)
    ensures var m, f := Ingest(w, input, view, cache).0.value, view.schema.fields[i];
            forall p | Asks(w, f, input, view, Before(view.schema.fields, i, m.fields), cache, p) ::
              p in m.probes && p in view.probes && m.probes[p] == Digest(BlobObj(Plain(view.probes[p].wasm)))
  {
    IngestExact(w, input, view, cache);
    var m, fields := Ingest(w, input, view, cache).0.value, view.schema.fields;
    var shown :| Explains(w, input, view, cache, shown);
    assert Shows(w, fields, input, view, cache, shown, i);
    SameTable(fields, i, shown, m.fields);
    forall p | Asks(w, fields[i], input, view, Before(fields, i, shown), cache, p) ensures p in m.probes {
      assert AskedBy(w, fields, input, view, cache, shown, p, |fields|);
    }
  }

  lemma SameTable(fields: seq<Field>, i: nat, shown: Fields, all: Fields)
    requires i <= |fields| && (forall k :: k in shown <==> NameAmong(fields, |fields|, k))
    requires forall k | k in shown :: k in all && all[k] == shown[k]
    ensures Before(fields, i, shown) == Before(fields, i, all)
  {
    forall k | NameAmong(fields, i, k) ensures k in shown {
      var j :| 0 <= j < i && fields[j].name == k;
      assert NameAmong(fields, |fields|, k);
    }
  }

  /** A user-provided field shows the user's value. */
  lemma UserShown(w: World, input: Input, view: View, cache: Cache, i: nat)
    requires DistinctNames(view.schema.fields) && i < |view.schema.fields|
    requires Ingest(w, input, view, cache).0.Ok? && view.schema.fields[i].source.UserProvided?
    requires view.schema.fields[i].name in input.user && !input.user[view.schema.fields[i].name].Null?
    ensures var m, f := Ingest(w, input, view, cache).0.value, view.schema.fields[i];
            f.name in m.fields && m.fields[f.name] == Normalize(input.user[f.name], f.ty)
                && Accepts(f.ty, input.user[f.name])
  {
    FieldShown(w, input, view, cache, i);
  }

  /** A constant field shows its constant. */
  lemma ConstantShown(w: World, input: Input, view: View, cache: Cache, i: nat, c: FieldValue)
    requires DistinctNames(view.schema.fields) && i < |view.schema.fields|
    requires Ingest(w, input, view, cache).0.Ok? && view.schema.fields[i].source == Constant(c) && !c.Null?
    ensures var m, f := Ingest(w, input, view, cache).0.value, view.schema.fields[i];
            f.name in m.fields && m.fields[f.name] == Normalize(c, f.ty) && Accepts(f.ty, c)
  {
    FieldShown(w, input, view, cache, i);
  }

  /** A field copied from an earlier one shows that one's value, a string being transformed. */
  lemma FromShown(w: World, input: Input, view: View, cache: Cache, i: nat, j: nat, t: Transform)
    requires DistinctNames(view.schema.fields) && j < i < |view.schema.fields|
    requires Ingest(w, input, view, cache).0.Ok?
    requires view.schema.fields[i].source == FromField(view.schema.fields[j].name, t)
    ensures var m, f, from := Ingest(w, input, view, cache).0.value, view.schema.fields[i], view.schema.fields[j].name;
            && f.name in m.fields && from in m.fields
            && var x := m.fields[from];
            && (!x.Null? && !x.Str? ==> m.fields[f.name] == Normalize(x, f.ty))
            && (x.Str? && t.Identity? ==> m.fields[f.name] == x)
            && (x.Str? && t.Lower? ==> m.fields[f.name] == Str(w.lower(x.s)))
            && (x.Str? && t.Slugify? ==> m.fields[f.name] == Str(Slug(x.s)))
  {
    FieldShown(w, input, view, cache, i);
    FieldShown(w, input, view, cache, j);
    var m, fields := Ingest(w, input, view, cache).0.value, view.schema.fields;
    assert NameAmong(fields, i, fields[j].name);
    assert Or(Before(fields, i, m.fields), fields[j].name) == m.fields[fields[j].name];
  }

  /** What a probe is sent: the declared arguments, and the path of the file unless they have one. */
  ghost predicate Sent(args: Fields, path: string, sent: Fields) {
    && (forall k :: k in sent <==> k in args || k == "path")
    && (forall k | k in args :: sent[k] == Wire(args[k]))
    && ("path" !in args ==> sent["path"] == Str(path))
  }

  lemma SentArgs(args: Fields, path: string, sent: Fields)
    requires Sent(args, path, sent)
    ensures WireArgs(args, path) == sent
  {
  }

  /** The input is not longer than the probe's own limit or, without one, the memory it is given. */
  predicate Within(length: nat, blob: ProbeBlob, limits: Limits) {
    match blob.maxInput
    case Some(n) => length <= n
    case None => length <= limits.memoryMb * 0x10_0000
  }

  /**
   With a sound cache a probe field shows what its probe finds in the bytes, and the
   manifest records the probe.
   */
  lemma ProbeShown(w: World, input: Input, view: View, cache: Cache, i: nat, probe: string, args: Fields, sent: Fields)
    requires DistinctNames(view.schema.fields) && i < |view.schema.fields|
    requires Ingest(w, input, view, cache).0.Ok? && Honest(input) && Sound(w, view.limits, cache)
    requires view.schema.fields[i].source == Probe(probe, args) && Sent(args, input.path, sent)
    requires input.builtins.None? && (probe in view.probes ==> Within(input.length, view.probes[probe], view.limits))
    ensures probe in view.probes
    ensures var m, f := Ingest(w, input, view, cache).0.value, view.schema.fields[i];
            var out := w.run(view.probes[probe].wasm, input.bytes, sent, view.limits);
            && probe in m.probes && m.probes[probe] == Digest(BlobObj(Plain(view.probes[probe].wasm)))
            && out.Ok? && f.name in m.fields
            && (!out.value.Null? ==> m.fields[f.name] == Normalize(out.value, f.ty))
            && (out.value.Null? && f.fallback.None? ==> m.fields[f.name] == Null)
  {
    var f := view.schema.fields[i];
    SentArgs(args, input.path, sent);
    FieldShown(w, input, view, cache, i);
    assert Consults(f.source, input, view);
    AskedSound(w, f.source, input, view, cache);
    var m := Ingest(w, input, view, cache).0.value;
    assert Asks(w, f, input, view, Before(view.schema.fields, i, m.fields), cache, probe);
  }

  lemma AskedSound(w: World, source: Source, input: Input, view: View, cache: Cache)
    requires Consults(source, input, view) && Honest(input) && Sound(w, view.limits, cache)
    ensures Asked(w, source, input, view, cache) ==
            w.run(view.probes[source.probe].wasm, input.bytes, WireArgs(source.args, input.path), view.limits)
  {
    var k := KeyOf(source, input, view);
    if k in cache {
      assert Key(BlobHash(input.bytes), BlobHash(view.probes[source.probe].wasm), k.args) in cache;
    }
  }

  /** For a chunked file the two built-in probes show its size and hash. */
  lemma BuiltinShown(w: World, input: Input, view: View, cache: Cache, i: nat)
    requires DistinctNames(view.schema.fields) && i < |view.schema.fields|
    requires Ingest(w, input, view, cache).0.Ok? && view.schema.fields[i].source.Probe? && input.builtins.Some?
    ensures var m, f := Ingest(w, input, view, cache).0.value, view.schema.fields[i];
            && f.name in m.fields
            && (f.source.probe == "file.size" ==> m.fields[f.name] == Normalize(Int(input.builtins.value.size), f.ty))
            && (f.source.probe == "file.sha256" ==> m.fields[f.name] == Str(input.builtins.value.sha256))
  {
    FieldShown(w, input, view, cache, i);
  }

  /** A field whose own source says nothing. */
  ghost predicate Silent(w: World, f: Field, input: Input, view: View, earlier: Fields) {
    match f.source
    case Constant(c) => c.Null?
    case UserProvided => f.name !in input.user || input.user[f.name].Null?
    case FromField(from, _) => from !in earlier || earlier[from].Null?
    case Probe(probe, args) =>
      && probe in view.probes
      && if input.builtins.Some? then probe != "file.size" && probe != "file.sha256"
         else Within(input.length, view.probes[probe], view.limits) ==>
                w.run(view.probes[probe].wasm, input.bytes, WireArgs(args, input.path), view.limits) == Ok(Null)
  }

  /** A silent field is null without a fallback, and otherwise has the value of its fallback. */
  lemma SilentValue(w: World, f: Field, input: Input, view: View, earlier: Fields, cache: Cache)
    requires Honest(input) && Sound(w, view.limits, cache)
    requires Silent(w, f, input, view, earlier)
    ensures Value(w, f, input, view, earlier, cache) ==
            if f.fallback.None? then Ok(Null) else Value(w, f.fallback.value, input, view, earlier, cache)
  {
    if Consults(f.source, input, view) {
      AskedSound(w, f.source, input, view, cache);
    }
  }

  /**
   A silent field shows its fallback: the user's value under the fallback's name, a constant, or
   what comes after it.
   */
  lemma FallbackShown(w: World, input: Input, view: View, cache: Cache, i: nat)
    requires DistinctNames(view.schema.fields) && i < |view.schema.fields|
    requires Ingest(w, input, view, cache).0.Ok? && Honest(input) && Sound(w, view.limits, cache)
    requires Silent(w, view.schema.fields[i], input, view,
                    Before(view.schema.fields, i, Ingest(w, input, view, cache).0.value.fields))
    ensures var m, f := Ingest(w, input, view, cache).0.value, view.schema.fields[i];
            var earlier := Before(view.schema.fields, i, m.fields);
            && f.name in m.fields
            && (f.fallback.None? ==> m.fields[f.name] == Null && !f.required)
            && (f.fallback.Some? ==>
                  var g := f.fallback.value;
                  && (g.source.Constant? && !g.source.value.Null? ==>
                      m.fields[f.name] == Normalize(g.source.value, f.ty))
                  && (g.source.UserProvided? && g.name in input.user && !input.user[g.name].Null? ==>
                        m.fields[f.name] == Normalize(input.user[g.name], f.ty))
                  && var v := Value(w, g, input, view, earlier, cache);
                     v.Ok? && m.fields[f.name] == Normalize(v.value, f.ty))
  {
    var m := Ingest(w, input, view, cache).0.value;
    FieldShown(w, input, view, cache, i);
    SilentValue(w, view.schema.fields[i], input, view, Before(view.schema.fields, i, m.fields), cache);
  }

  /**
   User fields that the schema does not declare are kept where extras are allowed, and make the
   ingest fail elsewhere.
   */
  lemma ExtrasShown(w: World, input: Input, view: View, cache: Cache, k: string)
    requires DistinctNames(view.schema.fields) && forall f | f in view.schema.fields :: f.name != k
    ensures var r := Ingest(w, input, view, cache).0;
            && (r.Ok? && view.schema.allowExtra && k in input.user ==>
                k in r.value.fields && r.value.fields[k] == input.user[k])
            && (r.Ok? && k in r.value.fields ==> view.schema.allowExtra && k in input.user)
            && (!view.schema.allowExtra && k in input.user ==> r.Err?)
  {
    IngestExact(w, input, view, cache);
    if Ingest(w, input, view, cache).0.Ok? {
      var shown :| Explains(w, input, view, cache, shown);
      assert k in shown <==> NameAmong(view.schema.fields, |view.schema.fields|, k);
      assert NameAmong(view.schema.fields, |view.schema.fields|, k) ==> exists f | f in view.schema.fields ::
          f.name == k;
    }
  }

  /**
   A missing or failing probe, a required field without a value and a value of the wrong type
   make the ingest fail.
   */
  lemma IngestRefuses(w: World, input: Input, view: View, cache: Cache, i: nat)
    requires DistinctNames(view.schema.fields) && i < |view.schema.fields| && Honest(input)
             && Sound(w, view.limits, cache)
    ensures var f := view.schema.fields[i];
            && (f.source.Probe? && f.source.probe !in view.probes ==> Ingest(w, input, view, cache).0.Err?)
            && (f.source.Probe? && f.source.probe in view.probes && input.builtins.None?
                && Within(input.length, view.probes[f.source.probe], view.limits)
                && w.run(view.probes[f.source.probe].wasm, input.bytes, WireArgs(f.source.args, input.path),
                         view.limits).Err? ==>
                  Ingest(w, input, view, cache).0.Err?)
            && (f.source.UserProvided? && f.name !in input.user && f.fallback.None? && f.required ==>
                  Ingest(w, input, view, cache).0.Err?)
            && (f.source.UserProvided? && f.name in input.user && !Accepts(f.ty, input.user[f.name]) ==>
                  Ingest(w, input, view, cache).0.Err?)
  {
    var f := view.schema.fields[i];
    if Ingest(w, input, view, cache).0.Ok? {
      FieldShown(w, input, view, cache, i);
    }
    if Consults(f.source, input, view) {
      AskedSound(w, f.source, input, view, cache);
    }
  }

  // ---- Types and texts ----

  /** The values that each type takes. */
  lemma TypeTakes(v: FieldValue)
    ensures Accepts(TString, v) <==> v.Null? || v.Str?
    ensures Accepts(TInt, v) <==> v.Null? || v.Int?
    ensures Accepts(TFloat, v) <==> v.Null? || v.Float? || v.Int?
    ensures Accepts(TBool, v) <==> v.Null? || v.Bool?
    ensures Accepts(TDatetime, v) <==> v.Null? || v.Datetime? || v.Str?
    ensures Accepts(TObject, v) <==> v.Null? || v.Table?
    ensures Accepts(TListString, v) <==> v.Null? || (v.List? && forall x | x in v.items :: x.Str?)
    ensures Accepts(TListInt, v) <==> v.Null? || (v.List? && forall x | x in v.items :: x.Int?)
    ensures Accepts(TListFloat, v) <==> v.Null? || (v.List? && forall x | x in v.items :: x.Float? || x.Int?)
    ensures Accepts(TListBool, v) <==> v.Null? || (v.List? && forall x | x in v.items :: x.Bool?)
    ensures Accepts(TListDatetime, v) <==> v.Null? || (v.List? && forall x | x in v.items :: x.Datetime? || x.Str?)
  {
  }

  /** Under a float type integers are shown as floats of the same value; nothing else is changed by its type. */
  lemma NormalizedValue(v: FieldValue, ty: FieldType)
    ensures ty == TFloat && v.Int? ==> Normalize(v, ty) == Float(v.i as real)
    ensures ty == TListFloat && v.List? ==>
              && Normalize(v, ty).List? && |Normalize(v, ty).items| == |v.items|
              && forall i | 0 <= i < |v.items| ::
                   Normalize(v, ty).items[i] == if v.items[i].Int? then Float(v.items[i].i as real) else v.items[i]
    ensures !(ty == TFloat && v.Int?) && !(ty == TListFloat && v.List?) ==> Normalize(v, ty) == v
  {
  }

  /** A value without datetimes in it. */
  predicate Undated(v: FieldValue) {
    match v
    case Datetime(_) => false
    case List(xs) => forall x | x in xs :: Undated(x)
    case Table(m) => forall k | k in m :: Undated(m[k])
    case _ => true
  }

  /** A probe is sent texts for datetimes, and everything else as it is. */
  lemma {:induction false} WireSame(v: FieldValue)
    ensures Undated(Wire(v))
    ensures Undated(v) ==> Wire(v) == v
    ensures v.Datetime? ==> Wire(v) == Str(v.t)
    ensures v.List? ==> Wire(v).List? && |Wire(v).items| == |v.items| && forall i | 0 <= i < |v.items| ::
            Wire(v).items[i] == Wire(v.items[i])
    ensures v.Table? ==> Wire(v).Table? && Wire(v).members.Keys == v.members.Keys && forall k | k in v.members ::
            Wire(v).members[k] == Wire(v.members[k])
  {
    match v
    case List(xs) =>
      forall i | 0 <= i < |xs| ensures Undated(Wire(xs[i])) && (Undated(xs[i]) ==> Wire(xs[i]) == xs[i]) {
        WireSame(xs[i]);
      }
      assert Undated(v) ==> forall i | 0 <= i < |xs| :: xs[i] in xs && Wire(v).items[i] == xs[i];
    case Table(m) =>
      forall k | k in m ensures Undated(Wire(m[k])) && (Undated(m[k]) ==> Wire(m[k]) == m[k]) {
        WireSame(m[k]);
      }
    case _ =>
  }

  /** The maximal runs of ASCII letters and digits, in lower case. */
  function Words(s: string): seq<string> {
    if s == "" then []
    else if !AsciiAlnum(s[0]) then Words(s[1..])
    else if |s| > 1 && AsciiAlnum(s[1]) && Words(s[1..]) != [] then
      [[AsciiLower(s[0])] + Words(s[1..])[0]] + Words(s[1..])[1..]
    else [[AsciiLower(s[0])]] + Words(s[1..])
  }

  /** The characters of words: ASCII letters, which are written small, and digits. */
  lemma WordChars(c: char)
    ensures AsciiAlnum(c) <==> 'a' <= c <= 'z' || 'A' <= c <= 'Z' || '0' <= c <= '9'
    ensures 'A' <= c <= 'Z' ==>
            'a' <= AsciiLower(c) <= 'z' && AsciiLower(c) as int - 'a' as int == c as int - 'A' as int
    ensures !('A' <= c <= 'Z') ==> AsciiLower(c) == c
  {
  }

  function Dashed(words: seq<string>): string {
    if words == [] then "" else if |words| == 1 then words[0] else words[0] + ['-'] + Dashed(words[1..])
  }

  function ChopDash(s: string): string {
    if s != "" && s[|s| - 1] == '-' then s[..|s| - 1] else s
  }

  /** How the loop of `slugify` ends when it has `out` and reads `s`. */
  function Slugged(out: string, dash: bool, s: string): string {
    if out == "" || dash || (s != "" && AsciiAlnum(s[0])) then
      if Words(s) == [] then ChopDash(out) else out + Dashed(Words(s))
    else if Words(s) == [] then out
    else out + ['-'] + Dashed(Words(s))
  }

  lemma {:induction false} SlugFromExact(s: string, out: string, dash: bool)
    requires dash <==> out != "" && out[|out| - 1] == '-'
    ensures ChopDash(SlugFrom(s, out, dash)) == Slugged(out, dash, s)
    decreases |s|
  {
    if s != "" {
      if AsciiAlnum(s[0]) {
        var c := [AsciiLower(s[0])];
        SlugFromExact(s[1..], out + c, false);
        DashedPush(s, out);
      } else if !dash && out != "" {
        SlugFromExact(s[1..], out + ['-'], true);
        assert (out + ['-'])[..|out|] == out;
      } else {
        SlugFromExact(s[1..], out, dash);
      }
    }
  }

  /** A letter or digit starts a word, or goes before the first letter of one. */
  lemma DashedPush(s: string, out: string)
    requires s != "" && AsciiAlnum(s[0])
    ensures Slugged(out + [AsciiLower(s[0])], false, s[1..]) == out + Dashed(Words(s))
  {
    var c, rest := [AsciiLower(s[0])], Words(s[1..]);
    if |s| > 1 && AsciiAlnum(s[1]) {
      assert rest != [] && Words(s) == [c + rest[0]] + rest[1..];
      GrowWord(c, rest, out);
    } else {
      assert Words(s) == [c] + rest;
      NewWord(c, rest, out);
    }
  }

  lemma GrowWord(c: string, words: seq<string>, out: string)
    requires words != []
    ensures out + c + Dashed(words) == out + Dashed([c + words[0]] + words[1..])
  {
    var grown := [c + words[0]] + words[1..];
    assert grown[1..] == words[1..];
    if |words| == 1 {
      Regroup(out, c, words[0], "");
    } else {
      Regroup(out, c, words[0], ['-'] + Dashed(words[1..]));
      assert Dashed(words) == words[0] + (['-'] + Dashed(words[1..]));
      assert Dashed(grown) == c + words[0] + (['-'] + Dashed(words[1..]));
    }
  }

  lemma Regroup(a: string, b: string, c: string, d: string)
    ensures a + b + (c + d) == a + (b + c + d) && c + "" == c && b + c + "" == b + c
  {
  }

  lemma NewWord(c: string, words: seq<string>, out: string)
    ensures words == [] ==> out + c == out + Dashed([c] + words)
    ensures words != [] ==> out + c + ['-'] + Dashed(words) == out + Dashed([c] + words)
  {
    assert ([c] + words)[1..] == words;
  }

  /** A slug is the words of the text, joined by dashes. */
  lemma SlugExact(s: string)
    ensures Slug(s) == Dashed(Words(s))
  {
    SlugFromExact(s, "", false);
    assert "" + Dashed(Words(s)) == Dashed(Words(s));
  }
}
