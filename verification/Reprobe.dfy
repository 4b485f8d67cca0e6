/**
 Rebuilding a manifest under a changed schema (`reprobe_one`,
 crates/omp-core/src/api.rs:1644-1778). The probe cache is first seeded with
 values taken from the old manifest.
 */
module Reprobe {
  import opened Objects
  import opened Engine
  import opened IngestLaws

  /** A manifest as read back from the store: null fields are not printed. */
  function Stored(m: FileManifest): FileManifest {
    m.(fields := map k | k in m.fields && !m.fields[k].Null? :: m.fields[k])
  }

  function FieldNamed(fields: seq<Field>, name: string): Option<Field> {
    if fields == [] then None else if fields[0].name == name then Some(fields[0]) else FieldNamed(fields[1..], name)
  }

  /** What the reprobe of one file is given besides the cache. */
  datatype Job = Job(path: string, at: string, prev: FileManifest, oldSchema: Option<Schema>, view: View)

  /** The field of the old schema with a given name. */
  function OldField(j: Job, name: string): Option<Field> {
    if j.oldSchema.Some? then FieldNamed(j.oldSchema.value.fields, name) else None
  }

  /** User-provided values are carried over by name. */
  function Carried(j: Job): Fields {
    map k | k in j.prev.fields && OldField(j, k).Some? && OldField(j, k).value.source.UserProvided? :: j.prev.fields[k]
  }

  /** The old value of a probe field is reused: same source, same probe. */
  predicate Reused(j: Job, f: Field) {
    && OldField(j, f.name).Some?
    && OldField(j, f.name).value.source == f.source
    && f.name in j.prev.fields
    && f.source.Probe?
    && f.source.probe in j.view.probes
    && f.source.probe in j.prev.probes
    && j.prev.probes[f.source.probe] == BlobHash(j.view.probes[f.source.probe].wasm)
  }

  function SeedKey(j: Job, f: Field): Key
    requires Reused(j, f)
  {
    Key(j.prev.source, BlobHash(j.view.probes[f.source.probe].wasm), WireArgs(f.source.args, j.path))
  }

  function SeedOne(j: Job, f: Field, cache: Cache): Cache {
    if Reused(j, f) then cache[SeedKey(j, f) := j.prev.fields[f.name]] else cache
  }

  function Seed(j: Job, fields: seq<Field>, cache: Cache): Cache {
    if fields == [] then cache else Seed(j, fields[1..], SeedOne(j, fields[0], cache))
  }

  function FreshInput(j: Job, bytes: seq<Byte>): Input {
    Input(bytes, Carried(j), j.path, j.at, None, |bytes|, Some(j.prev.source))
  }

  /** `reprobe_one`: the new manifest or error, and the cache afterwards. */
  function ReprobeOne(w: World, s: Objects, j: Job, cache: Cache): (Result<FileManifest>, Cache) {
    if j.prev.source !in s then (Err(NotFound), cache)
    else if !s[j.prev.source].BlobObj? || !s[j.prev.source].payload.Plain? then (Err(IngestValidation), cache)
    else Ingest(w, FreshInput(j, s[j.prev.source].payload.bytes), j.view, Seed(j, j.view.schema.fields, cache))
  }

  /** The files of a pass share one cache: the outcomes in turn, and the cache at the end. */
  function Pass(w: World, s: Objects, jobs: seq<Job>, cache: Cache): (r: (seq<Result<FileManifest>>, Cache))
    ensures |r.0| == |jobs|
  {
    if jobs == [] then ([], cache)
    else
      var first := ReprobeOne(w, s, jobs[0], cache);
      var rest := Pass(w, s, jobs[1..], first.1);
      ([first.0] + rest.0, rest.1)
  }

  /** `reprobe_one` on the cache that the pass shares. */
  method ReprobeInto(w: World, s: Objects, j: Job, cache: ProbeOutputCache) returns (r: Result<FileManifest>)
    modifies cache
    ensures (r, cache.entries) == ReprobeOne(w, s, j, old(cache.entries))
  {
    if j.prev.source !in s {
      return Err(NotFound);
    }
    if !s[j.prev.source].BlobObj? || !s[j.prev.source].payload.Plain? {
      return Err(IngestValidation);
    }
    var fields := j.view.schema.fields;
    assert fields[0..] == fields;
    for i := 0 to |fields|
      invariant Seed(j, fields[i..], cache.entries) == Seed(j, fields, old(cache.entries))
    {
      assert fields[i..][0] == fields[i] && fields[i..][1..] == fields[i + 1..];
      if Reused(j, fields[i]) {
        cache.entries := cache.entries[SeedKey(j, fields[i]) := j.prev.fields[fields[i].name]];
      }
    }
    r := cache.IngestWithCache(w, FreshInput(j, s[j.prev.source].payload.bytes), j.view);
  }

  /** The file loop of `run_auto_reprobe`. */
  method RunPass(w: World, s: Objects, jobs: seq<Job>) returns (rs: seq<Result<FileManifest>>)
    ensures rs == Pass(w, s, jobs, map[]).0
  {
    var cache := new ProbeOutputCache();
    rs := [];
    assert jobs[0..] == jobs;
    for i := 0 to |jobs|
      invariant fresh(cache)
      invariant rs + Pass(w, s, jobs[i..], cache.entries).0 == Pass(w, s, jobs, map[]).0
    {
      assert jobs[i..][0] == jobs[i] && jobs[i..][1..] == jobs[i + 1..];
      var r := ReprobeInto(w, s, jobs[i], cache);
      rs := rs + [r];
    }
  }

  // ---- What an ingest leaves in the manifest ----

  /** The recorded hashes are those of probes that were allowed to run. */
  ghost predicate HashesFit(view: View, length: nat, hashes: map<string, Hash>) {
    forall p | p in hashes ::
      && p in view.probes
      && hashes[p] == BlobHash(view.probes[p].wasm)
      && length <= Cap(view.probes[p], view.limits)
  }

  lemma {:induction false} FieldHashesFit(w: World, f: Field, input: Input, view: View,
                                          resolved: Fields, hashes: map<string, Hash>, cache: Cache)
    requires HashesFit(view, input.length, hashes)
    ensures HashesFit(view, input.length, ResolveField(w, f, input, view, resolved, hashes, cache).hashes)
    decreases f
  {
    var o := ResolveSource(w, f, input, view, resolved, hashes, cache);
    assert HashesFit(view, input.length, o.hashes);
    if f.fallback.Some? {
      FieldHashesFit(w, f.fallback.value, input, view, resolved, o.hashes, o.cache);
    }
  }

  lemma {:induction false} LoopHashesFit(w: World, fields: seq<Field>, input: Input, view: View, st: State)
    requires HashesFit(view, input.length, st.hashes)
    ensures HashesFit(view, input.length, Loop(w, fields, input, view, st).hashes)
    decreases |fields|
  {
    if st.result.Ok? && fields != [] {
      FieldHashesFit(w, fields[0], input, view, st.resolved, st.hashes, st.cache);
      LoopHashesFit(w, fields[1..], input, view, Step(w, fields[0], input, view, st));
    }
  }

  lemma {:induction false} LoopKeeps(w: World, fields: seq<Field>, input: Input, view: View, st: State, name: string)
    requires name in st.resolved && forall f | f in fields :: f.name != name
    ensures name in Loop(w, fields, input, view, st).resolved
    ensures Loop(w, fields, input, view, st).resolved[name] == st.resolved[name]
    decreases |fields|
  {
    if st.result.Ok? && fields != [] {
      LoopKeeps(w, fields[1..], input, view, Step(w, fields[0], input, view, st), name);
    }
  }

  /** What the probe of a source gives for these bytes. */
  function Output(w: World, source: Source, path: string, bytes: seq<Byte>, view: View): Result<FieldValue>
    requires source.Probe? && source.probe in view.probes
  {
    w.run(view.probes[source.probe].wasm, bytes, WireArgs(source.args, path), view.limits)
  }

  /** A value of its type, which is the probe's own, up to promotion, unless a fallback gave it. */
  ghost predicate Probed(w: World, f: Field, input: Input, view: View, v: FieldValue) {
    && Accepts(f.ty, v)
    && (Consults(f.source, input, view) ==>
          var out := Output(w, f.source, input.path, input.bytes, view);
          && out.Ok?
          && (!out.value.Null? || f.fallback.None? ==> Accepts(f.ty, out.value) && v == Normalize(out.value, f.ty)))
  }

  lemma NormalizeAccepted(v: FieldValue, ty: FieldType)
    requires Accepts(ty, v)
    ensures Accepts(ty, Normalize(v, ty)) && Normalize(Normalize(v, ty), ty) == Normalize(v, ty)
  {
  }

  lemma {:induction false} LoopProbed(w: World, fields: seq<Field>, input: Input, view: View, st: State, f: Field)
    requires Honest(input) && Engine.Sound(w, view.limits, st.cache) && DistinctNames(fields) && f in fields
    requires st.result.Ok? && Loop(w, fields, input, view, st).result.Ok?
    ensures f.name in Loop(w, fields, input, view, st).resolved
    ensures Probed(w, f, input, view, Loop(w, fields, input, view, st).resolved[f.name])
    decreases |fields|
  {
    var st' := Step(w, fields[0], input, view, st);
    FieldTransparent(w, Equal, fields[0], fields[0].ty, input, view, st.resolved, st.hashes, st.cache, map[]);
    if f == fields[0] {
      StepProbed(w, f, input, view, st);
      forall g | g in fields[1..] ensures g.name != f.name {
        var i :| 0 <= i < |fields[1..]| && fields[1..][i] == g;
        assert fields[0].name != fields[i + 1].name;
      }
      LoopKeeps(w, fields[1..], input, view, st', f.name);
    } else {
      LoopProbed(w, fields[1..], input, view, st', f);
    }
  }

  lemma StepProbed(w: World, f: Field, input: Input, view: View, st: State)
    requires Honest(input) && Engine.Sound(w, view.limits, st.cache)
    requires Step(w, f, input, view, st).result.Ok?
    ensures f.name in Step(w, f, input, view, st).resolved
    ensures Probed(w, f, input, view, Step(w, f, input, view, st).resolved[f.name])
  {
    var o := ResolveField(w, f, input, view, st.resolved, st.hashes, st.cache);
    NormalizeAccepted(o.value.value, f.ty);
    if Consults(f.source, input, view) {
      var out, k := Output(w, f.source, input.path, input.bytes, view), KeyOf(f.source, input, view);
      assert k in st.cache ==> out == Ok(st.cache[k]);
      assert ResolveSource(w, f, input, view, st.resolved, st.hashes, st.cache).value == out;
    }
  }

  // ---- What a reused value is ----

  /** The old manifest was built at this path, from these bytes, under the old schema and the same limits. */
  ghost predicate BuiltUnder(w: World, j: Job, input: Input, view: View) {
    && j.oldSchema == Some(view.schema)
    && DistinctNames(view.schema.fields)
    && view.limits == j.view.limits
    && input.path == j.path
    && input.builtins.None?
    && Honest(input)
    && Ingest(w, input, view, map[]).0.Ok?
    && j.prev == Stored(Ingest(w, input, view, map[]).0.value)
  }

  lemma {:induction false} FieldNamedIn(fields: seq<Field>, name: string)
    requires FieldNamed(fields, name).Some?
    ensures FieldNamed(fields, name).value in fields && FieldNamed(fields, name).value.name == name
  {
    if fields[0].name != name {
      FieldNamedIn(fields[1..], name);
    }
  }

  /** The probe has run: either it found nothing, or what it found was stored, up to promotion. */
  ghost predicate StoredFrom(was: Field, v: FieldValue, out: FieldValue) {
    && !v.Null?
    && Accepts(was.ty, v)
    && (out.Null? ==> was.fallback.Some?)
    && (!out.Null? ==> Accepts(was.ty, out) && v == Normalize(out, was.ty))
  }

  lemma ReusedValue(w: World, j: Job, input: Input, view: View, f: Field)
    requires BuiltUnder(w, j, input, view) && Reused(j, f)
    ensures j.prev.source == BlobHash(input.bytes)
    ensures var out := Output(w, f.source, j.path, input.bytes, j.view);
            out.Ok? && StoredFrom(OldField(j, f.name).value, j.prev.fields[f.name], out.value)
  {
    var o := OldField(j, f.name).value;
    FieldNamedIn(view.schema.fields, f.name);
    var st := Loop(w, view.schema.fields, input, view, START);
    LoopProbed(w, view.schema.fields, input, view, START, o);
    LoopHashesFit(w, view.schema.fields, input, view, START);
    assert j.prev.probes == st.hashes && j.prev.fields[f.name] == st.resolved[f.name];
    assert Consults(o.source, input, view);
  }

  /** Storing `out` in a field of type `ty` keeps every type's view of it. */
  predicate Kept(out: FieldValue, ty: FieldType) {
    && !out.Null?
    && !(ty.TFloat? && out.Int?)
    && !(ty.TListFloat? && out.List? && out.items != [] && forall x | x in out.items :: x.Int?)
  }

  lemma KeptIff(was: Field, v: FieldValue, out: FieldValue)
    requires StoredFrom(was, v, out)
    ensures (forall ty :: Alike(v, out, ty)) <==> Kept(out, was.ty)
  {
    if Kept(out, was.ty) {
      forall ty ensures Alike(v, out, ty) {
        KeptAlike(out, was.ty, ty);
      }
    } else if out.Int? {
      assert !Alike(v, out, TInt);
    } else if out.List? {
      assert !Accepts(TListInt, v) by { assert v.items[0].Float? && v.items[0] in v.items; }
      assert !Alike(v, out, TListInt);
    } else {
      assert !Alike(v, out, TInt);
    }
  }

  lemma KeptAlike(out: FieldValue, stored: FieldType, ty: FieldType)
    requires Kept(out, stored) && Accepts(stored, out)
    ensures Alike(Normalize(out, stored), out, ty)
  {
    var v := Normalize(out, stored);
    if stored.TListFloat? && v != out {
      var i :| 0 <= i < |out.items| && !out.items[i].Float?;
      var k :| 0 <= k < |out.items| && !out.items[k].Int?;
      assert v.items[i].Float? && v.items[i] in v.items && out.items[i] in out.items && out.items[k] in out.items;
      NormalizeAccepted(out, stored);
    }
  }

  // ---- Reprobe is a fresh ingest ----

  /** The bytes of the source that a reprobe reads. */
  function BytesOf(s: Objects, j: Job): seq<Byte> {
    if j.prev.source in s && s[j.prev.source].BlobObj? && s[j.prev.source].payload.Plain?
    then s[j.prev.source].payload.bytes
    else []
  }

  /** The outcome of ingesting the same bytes, with the carried user fields, under the new schema. */
  function Fresh(w: World, s: Objects, j: Job): Result<FileManifest> {
    Ingest(w, FreshInput(j, BytesOf(s, j)), j.view, map[]).0
  }

  /** The source is stored, and the old manifest is what the engine made of it under the old schema. */
  ghost predicate Genuine(w: World, s: Objects, j: Job) {
    && j.prev.source in s
    && s[j.prev.source] == BlobObj(Plain(BytesOf(s, j)))
    && exists input: Input, view: View :: input.bytes == BytesOf(s, j) && BuiltUnder(w, j, input, view)
  }

  /** A reused value, in terms of what the reprobe is given. */
  lemma GenuineValue(w: World, s: Objects, j: Job, f: Field)
    requires Genuine(w, s, j) && Reused(j, f)
    ensures j.prev.source == BlobHash(BytesOf(s, j))
    ensures var out := Output(w, f.source, j.path, BytesOf(s, j), j.view);
            out.Ok? && StoredFrom(OldField(j, f.name).value, j.prev.fields[f.name], out.value)
  {
    var input: Input, view: View :| input.bytes == BytesOf(s, j) && BuiltUnder(w, j, input, view);
    ReusedValue(w, j, input, view, f);
  }

  /** Some file of the pass has a field of type `ty` that may look `k` up. */
  ghost predicate ReadAs(s: Objects, jobs: set<Job>, k: Key, ty: FieldType) {
    exists j, f :: j in jobs && f in j.view.schema.fields && f.ty == ty
                   && LooksUp(f, FreshInput(j, BytesOf(s, j)), j.view, k)
  }

  /** No field of the pass that may look `k` up can tell `v` from `o`. */
  ghost predicate Unseen(s: Objects, jobs: set<Job>, k: Key, v: FieldValue, o: FieldValue) {
    forall ty | ReadAs(s, jobs, k, ty) :: Alike(v, o, ty)
  }

  ghost function PassLikeness(s: Objects, jobs: set<Job>): Likeness {
    (k, v, o) => Unseen(s, jobs, k, v, o)
  }

  /** No field of the pass can tell the value reused for `f`, if any, from what the probe gives. */
  ghost predicate UnnoticedField(w: World, s: Objects, jobs: set<Job>, j: Job, f: Field) {
    Reused(j, f) ==>
      var out := Output(w, f.source, j.path, BytesOf(s, j), j.view);
      out.Ok? ==> Unseen(s, jobs, SeedKey(j, f), j.prev.fields[f.name], out.value)
  }

  ghost predicate Unnoticed(w: World, s: Objects, jobs: set<Job>, j: Job) {
    forall f | f in j.view.schema.fields :: UnnoticedField(w, s, jobs, j, f)
  }

  lemma SeedOneFits(w: World, s: Objects, jobs: set<Job>, j: Job, f: Field, cache: Cache)
    requires Genuine(w, s, j) && UnnoticedField(w, s, jobs, j, f)
    requires Fits(w, j.view.limits, PassLikeness(s, jobs), cache)
    ensures Fits(w, j.view.limits, PassLikeness(s, jobs), SeedOne(j, f, cache))
  {
    if Reused(j, f) {
      GenuineValue(w, s, j, f);
      RecordFits(w, j.view.limits, PassLikeness(s, jobs), cache, j.view.probes[f.source.probe].wasm, BytesOf(s, j),
                 WireArgs(f.source.args, j.path), j.prev.fields[f.name]);
    }
  }

  lemma {:induction false} SeedFits(w: World, s: Objects, jobs: set<Job>, j: Job, fields: seq<Field>, cache: Cache)
    requires Genuine(w, s, j) && forall f | f in fields :: UnnoticedField(w, s, jobs, j, f)
    requires Fits(w, j.view.limits, PassLikeness(s, jobs), cache)
    ensures Fits(w, j.view.limits, PassLikeness(s, jobs), Seed(j, fields, cache))
    decreases |fields|
  {
    if fields != [] {
      SeedOneFits(w, s, jobs, j, fields[0], cache);
      SeedFits(w, s, jobs, j, fields[1..], SeedOne(j, fields[0], cache));
    }
  }

  lemma PassBlind(s: Objects, jobs: set<Job>, j: Job)
    requires j in jobs
    ensures Blind(PassLikeness(s, jobs), j.view.schema.fields, FreshInput(j, BytesOf(s, j)), j.view)
  {
    forall f | f in j.view.schema.fields
      ensures FieldBlind(PassLikeness(s, jobs), f, f.ty, FreshInput(j, BytesOf(s, j)), j.view)
    {
      forall k, v, o | LooksUp(f, FreshInput(j, BytesOf(s, j)), j.view, k) && PassLikeness(s, jobs)(k, v, o)
        ensures Alike(v, o, f.ty)
      {
        assert ReadAs(s, jobs, k, f.ty);
      }
    }
  }

  /**
   When no field can tell the reused values from what the probes give, reprobe
   equals a fresh ingest of the same bytes with the carried user fields, and
   leaves the shared cache fit for the next file.
   */
  lemma ReprobeIsFresh(w: World, s: Objects, jobs: set<Job>, j: Job, cache: Cache)
    requires j in jobs && Genuine(w, s, j) && Unnoticed(w, s, jobs, j)
    requires Fits(w, j.view.limits, PassLikeness(s, jobs), cache)
    ensures ReprobeOne(w, s, j, cache).0 == Fresh(w, s, j)
    ensures Fits(w, j.view.limits, PassLikeness(s, jobs), ReprobeOne(w, s, j, cache).1)
  {
    SeedFits(w, s, jobs, j, j.view.schema.fields, cache);
    PassBlind(s, jobs, j);
    assert j.prev.source == BlobHash(BytesOf(s, j)) by {
      var input: Input, view: View :| input.bytes == BytesOf(s, j) && BuiltUnder(w, j, input, view);
    }
    CacheTransparent(w, PassLikeness(s, jobs), FreshInput(j, BytesOf(s, j)), j.view,
                     Seed(j, j.view.schema.fields, cache));
  }

  /** The fresh ingest of every file. */
  function AllFresh(w: World, s: Objects, jobs: seq<Job>): (r: seq<Result<FileManifest>>)
    ensures |r| == |jobs| && forall i | 0 <= i < |jobs| :: r[i] == Fresh(w, s, jobs[i])
  {
    if jobs == [] then [] else [Fresh(w, s, jobs[0])] + AllFresh(w, s, jobs[1..])
  }

  /** In a whole pass every file gets its fresh ingest, whatever the files before it left in the cache. */
  lemma {:induction false} PassIsFresh(w: World, s: Objects, all: set<Job>, limits: Limits, jobs: seq<Job>,
                                       cache: Cache)
    requires forall j | j in jobs :: j in all && j.view.limits == limits && Genuine(w, s, j) && Unnoticed(w, s, all, j)
    requires Fits(w, limits, PassLikeness(s, all), cache)
    ensures Pass(w, s, jobs, cache).0 == AllFresh(w, s, jobs)
    decreases |jobs|
  {
    if jobs != [] {
      assert jobs[0] in jobs;
      ReprobeIsFresh(w, s, all, jobs[0], cache);
      PassIsFresh(w, s, all, limits, jobs[1..], ReprobeOne(w, s, jobs[0], cache).1);
    }
  }

  // ---- A guard that the schemas decide ----

  /** A reused field had no fallback, and no float type unless every field that may read its value has that type. */
  ghost predicate PlainProbe(s: Objects, jobs: set<Job>, j: Job, f: Field) {
    Reused(j, f) ==>
      var o := OldField(j, f.name).value;
      && o.fallback.None?
      && (o.ty.TFloat? || o.ty.TListFloat? ==> forall ty | ReadAs(s, jobs, SeedKey(j, f), ty) :: ty == o.ty)
  }

  lemma PlainAlike(was: Field, v: FieldValue, out: FieldValue, ty: FieldType)
    requires StoredFrom(was, v, out) && was.fallback.None?
    requires was.ty.TFloat? || was.ty.TListFloat? ==> ty == was.ty
    ensures Alike(v, out, ty)
  {
    NormalizeAccepted(out, was.ty);
  }

  lemma PlainField(w: World, s: Objects, jobs: set<Job>, j: Job, f: Field)
    requires Genuine(w, s, j) && Reused(j, f) && PlainProbe(s, jobs, j, f)
    ensures UnnoticedField(w, s, jobs, j, f)
  {
    GenuineValue(w, s, j, f);
    var out := Output(w, f.source, j.path, BytesOf(s, j), j.view).value;
    forall ty | ReadAs(s, jobs, SeedKey(j, f), ty) ensures Alike(j.prev.fields[f.name], out, ty) {
      PlainAlike(OldField(j, f.name).value, j.prev.fields[f.name], out, ty);
    }
  }

  lemma PlainUnnoticed(w: World, s: Objects, jobs: set<Job>, j: Job)
    requires Genuine(w, s, j) && forall f | f in j.view.schema.fields :: PlainProbe(s, jobs, j, f)
    ensures Unnoticed(w, s, jobs, j)
  {
    forall f | f in j.view.schema.fields ensures UnnoticedField(w, s, jobs, j, f) {
      if Reused(j, f) {
        PlainField(w, s, jobs, j, f);
      }
    }
  }

  // ---- Exactly when reprobe is fresh under every new schema ----

  function WithSchema(j: Job, schema: Schema, blob: seq<Byte>): Job {
    j.(view := j.view.(schema := schema, schemaBlob := blob))
  }

  /** Some probe with this wasm is allowed to run on input of this length. */
  ghost predicate Runnable(view: View, wasm: Hash, length: nat) {
    exists p :: p in view.probes && BlobHash(view.probes[p].wasm) == wasm && length <= Cap(view.probes[p], view.limits)
  }

  /** Every value that a new schema can reuse and read is the probe's output, not nothing and not promoted. */
  ghost predicate AllKept(w: World, s: Objects, j: Job) {
    forall f | j.oldSchema.Some? && f in j.oldSchema.value.fields && Reused(j, f)
               && Runnable(j.view, j.prev.probes[f.source.probe], |BytesOf(s, j)|) ::
      var out := Output(w, f.source, j.path, BytesOf(s, j), j.view);
      out.Ok? && Kept(out.value, f.ty)
  }

  lemma {:induction false} LookedUpRunnable(f: Field, input: Input, view: View, k: Key)
    requires LooksUp(f, input, view, k)
    ensures k.source == SourceHash(input) && Runnable(view, k.probe, input.length)
    decreases f
  {
    if !(Consults(f.source, input, view) && k == KeyOf(f.source, input, view)) {
      LookedUpRunnable(f.fallback.value, input, view, k);
    }
  }

  /** The files of a pass see the same probes under the same limits. */
  ghost predicate OnePass(jobs: set<Job>, view: View) {
    forall j | j in jobs :: j.view.probes == view.probes && j.view.limits == view.limits
  }

  lemma ReadRunnable(s: Objects, jobs: set<Job>, j: Job, k: Key, ty: FieldType)
    requires OnePass(jobs, j.view) && ReadAs(s, jobs, k, ty) && k.source == j.prev.source
    ensures Runnable(j.view, k.probe, |BytesOf(s, j)|)
  {
    var i, f :| i in jobs && f in i.view.schema.fields && LooksUp(f, FreshInput(i, BytesOf(s, i)), i.view, k);
    LookedUpRunnable(f, FreshInput(i, BytesOf(s, i)), i.view, k);
    assert BytesOf(s, i) == BytesOf(s, j);
    var p :| p in i.view.probes && BlobHash(i.view.probes[p].wasm) == k.probe
             && |BytesOf(s, j)| <= Cap(i.view.probes[p], i.view.limits);
    assert p in j.view.probes && |BytesOf(s, j)| <= Cap(j.view.probes[p], j.view.limits);
  }

  lemma KeptField(w: World, s: Objects, jobs: set<Job>, j: Job, f: Field)
    requires OnePass(jobs, j.view) && Genuine(w, s, j) && Reused(j, f) && AllKept(w, s, j)
    ensures UnnoticedField(w, s, jobs, j, f)
  {
    GenuineValue(w, s, j, f);
    var o, out := OldField(j, f.name).value, Output(w, f.source, j.path, BytesOf(s, j), j.view).value;
    FieldNamedIn(j.oldSchema.value.fields, f.name);
    assert Reused(j, o);
    KeptIff(o, j.prev.fields[f.name], out);
    forall ty | ReadAs(s, jobs, SeedKey(j, f), ty) ensures Alike(j.prev.fields[f.name], out, ty) {
      ReadRunnable(s, jobs, j, SeedKey(j, f), ty);
    }
  }

  lemma KeptUnnoticed(w: World, s: Objects, jobs: set<Job>, j: Job)
    requires OnePass(jobs, j.view) && Genuine(w, s, j) && AllKept(w, s, j)
    ensures Unnoticed(w, s, jobs, j)
  {
    forall f | f in j.view.schema.fields ensures UnnoticedField(w, s, jobs, j, f) {
      if Reused(j, f) {
        KeptField(w, s, jobs, j, f);
      }
    }
  }

  lemma GenuineWith(w: World, s: Objects, j: Job, schema: Schema, blob: seq<Byte>)
    requires Genuine(w, s, j)
    ensures Genuine(w, s, WithSchema(j, schema, blob))
  {
    var input: Input, view: View :| input.bytes == BytesOf(s, j) && BuiltUnder(w, j, input, view);
    assert BuiltUnder(w, WithSchema(j, schema, blob), input, view);
  }

  lemma AllKeptWith(w: World, s: Objects, j: Job, schema: Schema, blob: seq<Byte>)
    requires AllKept(w, s, j)
    ensures AllKept(w, s, WithSchema(j, schema, blob))
  {
    var k := WithSchema(j, schema, blob);
    forall f ensures Reused(j, f) <==> Reused(k, f) {
    }
    forall h, n ensures Runnable(j.view, h, n) <==> Runnable(k.view, h, n) {
    }
  }

  /** Two fields that read one value: one under another name, and the old one, which seeds it last. */
  function Readers(f: Field, probe: string, ty: FieldType): seq<Field>
    requires f.source.Probe?
  {
    [Field(f.name + "+", Probe(probe, f.source.args), ty, false, None), Field(f.name, f.source, ty, false, None)]
  }

  /** What the source of a field resolves to is `x`: a cached value, the probe's output, or nothing above the cap. */
  ghost predicate Yields(w: World, source: Source, input: Input, view: View, cache: Cache, x: FieldValue)
    requires source.Probe? && source.probe in view.probes && input.builtins.None?
  {
    if !Consults(source, input, view) then x.Null?
    else if KeyOf(source, input, view) in cache then x == cache[KeyOf(source, input, view)]
    else Output(w, source, input.path, input.bytes, view) == Ok(x)
  }

  /** One field without a fallback. */
  lemma ReaderStep(w: World, input: Input, view: View, g: Field, st: State, x: FieldValue)
    requires g.source.Probe? && g.source.probe in view.probes && input.builtins.None? && !g.required && g.fallback.None?
    requires Yields(w, g.source, input, view, st.cache, x)
    ensures var next := Step(w, g, input, view, st);
            && (next.result.Ok? <==> Accepts(g.ty, x))
            && (next.result.Ok? ==> next.resolved == st.resolved[g.name := Normalize(x, g.ty)])
            && (Consults(g.source, input, view) ==>
                  var k := KeyOf(g.source, input, view);
                  k in next.cache && next.cache[k] == x)
  {
    assert ResolveSource(w, g, input, view, st.resolved, st.hashes, st.cache).value == Ok(x);
  }

  lemma TwoSteps(w: World, f: Field, g: Field, input: Input, view: View, st: State)
    requires st.result.Ok?
    ensures var next := Step(w, f, input, view, st);
            Loop(w, [f, g], input, view, st) == if next.result.Ok? then Step(w, g, input, view, next) else next
  {
    var next := Step(w, f, input, view, st);
    assert [f, g][1..] == [g] && [g][1..] == [];
    assert Loop(w, [g], input, view, next) == if next.result.Ok? then Step(w, g, input, view, next) else next;
  }

  lemma TwoFields(fields: Fields, a: string, b: string, x: FieldValue, y: FieldValue)
    requires a in fields && fields[a] == x && |a| != |b|
    ensures a in fields[b := y] && fields[b := y][a] == x
  {
  }

  /** A cached value, or else the probe's output, decides the outcome and shows in it. */
  lemma ReadersIngest(w: World, input: Input, view: View, f: Field, probe: string, ty: FieldType, cache: Cache,
                      x: FieldValue)
    requires f.source.Probe? && f.source.probe in view.probes && probe in view.probes
    requires view.probes[f.source.probe].wasm == view.probes[probe].wasm
    requires view.schema == Schema(view.schema.fileType, true, Readers(f, probe, ty))
    requires Consults(Probe(probe, f.source.args), input, view)
    requires Yields(w, Probe(probe, f.source.args), input, view, cache, x)
    ensures var r := Ingest(w, input, view, cache).0;
            && (r.Ok? <==> Accepts(ty, x))
            && (r.Ok? ==> f.name + "+" in r.value.fields && r.value.fields[f.name + "+"] == Normalize(x, ty))
  {
    var fields, st := view.schema.fields, START.(cache := cache);
    TwoSteps(w, fields[0], fields[1], input, view, st);
    ReaderStep(w, input, view, fields[0], st, x);
    var next := Step(w, fields[0], input, view, st);
    var y := if Consults(f.source, input, view) then x else Null;
    ReaderStep(w, input, view, fields[1], next, y);
    if next.result.Ok? {
      TwoFields(next.resolved, f.name + "+", f.name, Normalize(x, ty), Normalize(y, ty));
    }
  }

  /** What is seeded last is found. */
  lemma ReadersSeed(j: Job, f: Field, probe: string, ty: FieldType, cache: Cache)
    requires Reused(j, f)
    ensures var seeded := Seed(j, Readers(f, probe, ty), cache);
            SeedKey(j, f) in seeded && seeded[SeedKey(j, f)] == j.prev.fields[f.name]
  {
    var fields := Readers(f, probe, ty);
    var c := SeedOne(j, fields[0], cache);
    assert fields[1..][1..] == [] && fields[1..][0] == fields[1];
    assert Seed(j, fields, cache) == Seed(j, fields[1..], c) == Seed(j, [], SeedOne(j, fields[1], c));
  }

  /** Under this schema the outcome of the reprobe is that of a fresh ingest. */
  ghost predicate FreshUnder(w: World, s: Objects, j: Job, cache: Cache, schema: Schema, blob: seq<Byte>) {
    ReprobeOne(w, s, WithSchema(j, schema, blob), cache).0 == Fresh(w, s, WithSchema(j, schema, blob))
  }

  /** Reprobe gives the fresh ingest under every new schema of the file type. */
  ghost predicate AlwaysFresh(w: World, s: Objects, j: Job, cache: Cache) {
    forall schema: Schema, blob | schema.fileType == j.prev.fileType :: FreshUnder(w, s, j, cache, schema, blob)
  }

  /** Fields of type `ty` take both values or neither, and show the same of them. */
  predicate Untold(v: FieldValue, out: FieldValue, ty: FieldType) {
    && (Accepts(ty, v) <==> Accepts(ty, out))
    && (Accepts(ty, v) ==> Normalize(v, ty) == Normalize(out, ty))
  }

  lemma ReadersTell(w: World, s: Objects, j: Job, cache: Cache, f: Field, probe: string, ty: FieldType)
    requires Genuine(w, s, j) && Reused(j, f) && probe in j.view.probes
    requires j.view.probes[f.source.probe].wasm == j.view.probes[probe].wasm
    requires |BytesOf(s, j)| <= Cap(j.view.probes[probe], j.view.limits)
    requires FreshUnder(w, s, j, cache, Schema(j.prev.fileType, true, Readers(f, probe, ty)), [])
    ensures var out := Output(w, f.source, j.path, BytesOf(s, j), j.view);
            out.Ok? && Untold(j.prev.fields[f.name], out.value, ty)
  {
    GenuineValue(w, s, j, f);
    var schema := Schema(j.prev.fileType, true, Readers(f, probe, ty));
    var k := WithSchema(j, schema, []);
    var input := FreshInput(k, BytesOf(s, j));
    var out := Output(w, f.source, j.path, BytesOf(s, j), j.view);
    assert Reused(k, f) && SeedKey(k, f) == KeyOf(Probe(probe, f.source.args), input, k.view);
    ReadersSeed(k, f, probe, ty, cache);
    ReadersIngest(w, input, k.view, f, probe, ty, Seed(k, schema.fields, cache), j.prev.fields[f.name]);
    ReadersIngest(w, input, k.view, f, probe, ty, map[], out.value);
  }

  lemma FreshUntold(w: World, s: Objects, j: Job, cache: Cache, f: Field, ty: FieldType)
    requires Genuine(w, s, j) && Reused(j, f) && AlwaysFresh(w, s, j, cache)
    requires Runnable(j.view, j.prev.probes[f.source.probe], |BytesOf(s, j)|)
    ensures var out := Output(w, f.source, j.path, BytesOf(s, j), j.view);
            out.Ok? && Untold(j.prev.fields[f.name], out.value, ty)
  {
    var probe :| probe in j.view.probes && BlobHash(j.view.probes[probe].wasm) == j.prev.probes[f.source.probe]
                 && |BytesOf(s, j)| <= Cap(j.view.probes[probe], j.view.limits);
    ReadersTell(w, s, j, cache, f, probe, ty);
  }

  lemma UntoldKept(was: Field, v: FieldValue, out: FieldValue)
    requires StoredFrom(was, v, out) && forall ty :: Untold(v, out, ty)
    ensures Kept(out, was.ty)
  {
    assert Untold(v, out, was.ty);
    forall ty ensures Alike(v, out, ty) {
      assert Untold(v, out, ty);
    }
    KeptIff(was, v, out);
  }

  /** Some new schema of the same file type tells a value that was not kept from the probe's output. */
  lemma FreshKept(w: World, s: Objects, j: Job, cache: Cache, f: Field)
    requires Genuine(w, s, j) && Reused(j, f) && OldField(j, f.name) == Some(f)
    requires Runnable(j.view, j.prev.probes[f.source.probe], |BytesOf(s, j)|) && AlwaysFresh(w, s, j, cache)
    ensures var out := Output(w, f.source, j.path, BytesOf(s, j), j.view); out.Ok? && Kept(out.value, f.ty)
  {
    GenuineValue(w, s, j, f);
    var v, out := j.prev.fields[f.name], Output(w, f.source, j.path, BytesOf(s, j), j.view).value;
    forall ty ensures Untold(v, out, ty) {
      FreshUntold(w, s, j, cache, f, ty);
    }
    UntoldKept(f, v, out);
  }

  lemma {:induction false} FieldNamedSelf(fields: seq<Field>, f: Field)
    requires DistinctNames(fields) && f in fields
    ensures FieldNamed(fields, f.name) == Some(f)
  {
    if fields[0] != f {
      var i :| 0 < i < |fields| && fields[i] == f;
      assert fields[0].name != fields[i].name;
      assert f in fields[1..] by { assert fields[1..][i - 1] == f; }
      FieldNamedSelf(fields[1..], f);
    }
  }

  /**
   For a manifest that the engine built, reprobe gives a fresh ingest under
   every new schema of its file type if and only if, for every old probe field
   whose value can be reused and read, the probe found something and storing it
   in the old field's type did not promote an integer or a list of integers.
   */
  lemma ReprobeFreshIff(w: World, s: Objects, j: Job, cache: Cache)
    requires Genuine(w, s, j) && Engine.Sound(w, j.view.limits, cache)
    ensures AlwaysFresh(w, s, j, cache) <==> AllKept(w, s, j)
  {
    if AllKept(w, s, j) {
      forall schema: Schema, blob | schema.fileType == j.prev.fileType
        ensures FreshUnder(w, s, j, cache, schema, blob)
      {
        var k := WithSchema(j, schema, blob);
        GenuineWith(w, s, j, schema, blob);
        AllKeptWith(w, s, j, schema, blob);
        KeptUnnoticed(w, s, {k}, k);
        SoundFits(w, j.view.limits, PassLikeness(s, {k}), cache);
        ReprobeIsFresh(w, s, {k}, k, cache);
      }
    }
    if AlwaysFresh(w, s, j, cache) {
      forall f | j.oldSchema.Some? && f in j.oldSchema.value.fields && Reused(j, f)
                 && Runnable(j.view, j.prev.probes[f.source.probe], |BytesOf(s, j)|)
        ensures var out := Output(w, f.source, j.path, BytesOf(s, j), j.view); out.Ok? && Kept(out.value, f.ty)
      {
        FieldNamedSelf(j.oldSchema.value.fields, f);
        FreshKept(w, s, j, cache, f);
      }
    }
  }

  /**
   A whole pass over files whose stored values were kept, or whose fields are
   plain probe fields, gives every file its fresh ingest, in any order.
   */
  lemma PassAnyOrder(w: World, s: Objects, all: set<Job>, view: View, jobs: seq<Job>)
    requires OnePass(all, view) && forall j | j in jobs :: j in all
    requires forall j | j in jobs ::
               Genuine(w, s, j)
                   && (AllKept(w, s, j) || forall f | f in j.view.schema.fields :: PlainProbe(s, all, j, f))
    ensures Pass(w, s, jobs, map[]).0 == AllFresh(w, s, jobs)
  {
    forall j | j in jobs ensures Unnoticed(w, s, all, j) {
      if AllKept(w, s, j) {
        KeptUnnoticed(w, s, all, j);
      } else {
        PlainUnnoticed(w, s, all, j);
      }
    }
    PassIsFresh(w, s, all, view.limits, jobs, map[]);
  }

  // ---- What a reprobe keeps of the old manifest ----

  /** The old schema declares this field, and the user provides it. */
  ghost predicate WasUser(j: Job, name: string) {
    j.oldSchema.Some? && exists f | f in j.oldSchema.value.fields :: f.name == name && f.source.UserProvided?
  }

  ghost predicate OldDistinct(j: Job) {
    j.oldSchema.Some? ==> DistinctNames(j.oldSchema.value.fields)
  }

  lemma CarriedExact(j: Job, name: string)
    requires OldDistinct(j)
    ensures name in Carried(j) <==> name in j.prev.fields && WasUser(j, name)
    ensures name in Carried(j) ==> Carried(j)[name] == j.prev.fields[name]
  {
    if OldField(j, name).Some? {
      FieldNamedIn(j.oldSchema.value.fields, name);
    }
    if WasUser(j, name) {
      var f :| f in j.oldSchema.value.fields && f.name == name && f.source.UserProvided?;
      FieldNamedSelf(j.oldSchema.value.fields, f);
    }
  }

  /** A field that the user provided under the old schema and provides under the new one shows the old value. */
  lemma CarriedShown(w: World, s: Objects, j: Job, cache: Cache, i: nat)
    requires OldDistinct(j) && DistinctNames(j.view.schema.fields) && i < |j.view.schema.fields|
    requires ReprobeOne(w, s, j, cache).0.Ok? && j.view.schema.fields[i].source.UserProvided?
    requires WasUser(j, j.view.schema.fields[i].name) && j.view.schema.fields[i].name in j.prev.fields
    requires !j.prev.fields[j.view.schema.fields[i].name].Null?
    ensures var m, f := ReprobeOne(w, s, j, cache).0.value, j.view.schema.fields[i];
            && f.name in m.fields
            && m.fields[f.name] == Normalize(j.prev.fields[f.name], f.ty)
            && Accepts(f.ty, j.prev.fields[f.name])
  {
    CarriedExact(j, j.view.schema.fields[i].name);
    UserShown(w, FreshInput(j, BytesOf(s, j)), j.view, Seed(j, j.view.schema.fields, cache), i);
  }

  /**
   Nothing else of the old manifest becomes the user's: a field that the user provides now
   but did not before is null without a fallback, whatever the old manifest shows for it.
   */
  lemma OthersNotCarried(w: World, s: Objects, j: Job, cache: Cache, i: nat)
    requires OldDistinct(j) && DistinctNames(j.view.schema.fields) && i < |j.view.schema.fields|
    requires ReprobeOne(w, s, j, cache).0.Ok? && j.view.schema.fields[i].source.UserProvided?
    requires !WasUser(j, j.view.schema.fields[i].name) && j.view.schema.fields[i].fallback.None?
    ensures var m, f := ReprobeOne(w, s, j, cache).0.value, j.view.schema.fields[i];
            f.name in m.fields && m.fields[f.name] == Null && !f.required
  {
    CarriedExact(j, j.view.schema.fields[i].name);
    FieldShown(w, FreshInput(j, BytesOf(s, j)), j.view, Seed(j, j.view.schema.fields, cache), i);
  }

  /**
   An old field that the new schema does not declare is kept exactly when the user provided
   it and extras are allowed. If they are not, a stored user value makes the reprobe fail.
   */
  lemma DroppedFields(w: World, s: Objects, j: Job, cache: Cache, k: string)
    requires OldDistinct(j) && DistinctNames(j.view.schema.fields) && forall f | f in j.view.schema.fields ::
             f.name != k
    ensures var r := ReprobeOne(w, s, j, cache).0;
            && (r.Ok? ==> (k in r.value.fields <==> j.view.schema.allowExtra && k in j.prev.fields && WasUser(j, k)))
            && (r.Ok? && k in r.value.fields ==> r.value.fields[k] == j.prev.fields[k])
            && (!j.view.schema.allowExtra && k in j.prev.fields && WasUser(j, k) ==> r.Err?)
  {
    CarriedExact(j, k);
    if j.prev.source in s && s[j.prev.source].BlobObj? && s[j.prev.source].payload.Plain? {
      ExtrasShown(w, FreshInput(j, BytesOf(s, j)), j.view, Seed(j, j.view.schema.fields, cache), k);
    }
  }

  /** The source is kept; type, schema and time are the new ones. */
  lemma ReprobedHead(w: World, s: Objects, j: Job, cache: Cache)
    requires DistinctNames(j.view.schema.fields) && ReprobeOne(w, s, j, cache).0.Ok?
    ensures var m := ReprobeOne(w, s, j, cache).0.value;
            && m.source == j.prev.source && m.at == j.at
            && m.fileType == j.view.schema.fileType && m.schemaHash == Digest(BlobObj(Plain(j.view.schemaBlob)))
  {
    var input, c := FreshInput(j, BytesOf(s, j)), Seed(j, j.view.schema.fields, cache);
    IngestExact(w, input, j.view, c);
    var shown :| Explains(w, input, j.view, c, shown);
  }

  /** A reprobe that no field can tell from a fresh ingest shows what the probes find in the stored bytes. */
  lemma ReprobedProbe(w: World, s: Objects, jobs: set<Job>, j: Job, cache: Cache, i: nat, probe: string, args: Fields,
                      sent: Fields)
    requires j in jobs && Genuine(w, s, j) && Unnoticed(w, s, jobs, j)
    requires Fits(w, j.view.limits, PassLikeness(s, jobs), cache)
    requires DistinctNames(j.view.schema.fields) && i < |j.view.schema.fields| && ReprobeOne(w, s, j, cache).0.Ok?
    requires j.view.schema.fields[i].source == Probe(probe, args) && Sent(args, j.path, sent)
    requires probe in j.view.probes && Within(|s[j.prev.source].payload.bytes|, j.view.probes[probe], j.view.limits)
    ensures var m, f := ReprobeOne(w, s, j, cache).0.value, j.view.schema.fields[i];
            var out := w.run(j.view.probes[probe].wasm, s[j.prev.source].payload.bytes, sent, j.view.limits);
            && out.Ok? && f.name in m.fields
            && (!out.value.Null? ==> m.fields[f.name] == Normalize(out.value, f.ty))
            && probe in m.probes && m.probes[probe] == Digest(BlobObj(Plain(j.view.probes[probe].wasm)))
  {
    ReprobeIsFresh(w, s, jobs, j, cache);
    assert Honest(FreshInput(j, BytesOf(s, j))) by {
      var input: Input, view: View :| input.bytes == BytesOf(s, j) && BuiltUnder(w, j, input, view);
    }
    ProbeShown(w, FreshInput(j, BytesOf(s, j)), j.view, map[], i, probe, args, sent);
  }

  /** Above the limit of its probe a field is null, with no fallback to show, whatever the old manifest shows for it. */
  lemma ReprobedAboveLimit(w: World, s: Objects, j: Job, cache: Cache, i: nat)
    requires DistinctNames(j.view.schema.fields) && i < |j.view.schema.fields| && ReprobeOne(w, s, j, cache).0.Ok?
    requires j.view.schema.fields[i].source.Probe? && j.view.schema.fields[i].fallback.None?
    requires j.view.schema.fields[i].source.probe in j.view.probes
    requires j.prev.source in s && s[j.prev.source].BlobObj? && s[j.prev.source].payload.Plain?
    requires !Within(|s[j.prev.source].payload.bytes|, j.view.probes[j.view.schema.fields[i].source.probe],
                     j.view.limits)
    ensures var m, f := ReprobeOne(w, s, j, cache).0.value, j.view.schema.fields[i];
            f.name in m.fields && m.fields[f.name] == Null && !f.required
  {
    FieldShown(w, FreshInput(j, BytesOf(s, j)), j.view, Seed(j, j.view.schema.fields, cache), i);
  }

  // ---- The guard is needed ----

  function Nothing(wasm: seq<Byte>, bytes: seq<Byte>, args: Fields, limits: Limits): Result<FieldValue> {
    Ok(Null)
  }

  /** A string field from a probe, with a constant to fall back on. */
  function TitleOr(v: string): Schema {
    var fallback := Field("title.fallback", Constant(Str(v)), TString, false, None);
    Schema("text", false, [Field("title", Probe("text.title", map[]), TString, false, Some(fallback))])
  }

  function TitleView(v: string): View {
    View(TitleOr(v), [], map["text.title" := ProbeBlob([], None)], Limits(1, 1, 1))
  }

  function TitleKey(input: Input): Key {
    Key(SourceHash(input), BlobHash([]), WireArgs(map[], input.path))
  }

  /** A cached value wins over the probe and over the fallback. */
  lemma TitleField(w: World, input: Input, v: string, cache: Cache)
    requires w.run == Nothing && input.builtins.None? && input.length <= 1024
    requires forall k | k in cache :: cache[k].Str?
    ensures var o := ResolveField(w, TitleOr(v).fields[0], input, TitleView(v), map[], map[], cache);
            && o.value == Ok(if TitleKey(input) in cache then cache[TitleKey(input)] else Str(v))
            && o.hashes == map["text.title" := BlobHash([])]
  {
    var view, f := TitleView(v), TitleOr(v).fields[0];
    var p := ResolveSource(w, f, input, view, map[], map[], cache);
    assert p.value == Ok(if TitleKey(input) in cache then cache[TitleKey(input)] else Null);
    if TitleKey(input) !in cache {
      var o := ResolveField(w, f.fallback.value, input, view, map[], p.hashes, p.cache);
      assert o == Out(Ok(Str(v)), p.hashes, p.cache);
    }
  }

  lemma TitleIngest(w: World, input: Input, v: string, cache: Cache)
    requires w.run == Nothing && input.builtins.None? && input.user == map[] && input.length <= 1024
    requires forall k | k in cache :: cache[k].Str?
    ensures Ingest(w, input, TitleView(v), cache).0 ==
            Ok(FileManifest(SourceHash(input), "text", BlobHash([]), input.at, map["text.title" := BlobHash([])],
                            map["title" := if TitleKey(input) in cache then cache[TitleKey(input)] else Str(v)]))
  {
    TitleField(w, input, v, cache);
    var view, st := TitleView(v), START.(cache := cache);
    var next := Step(w, view.schema.fields[0], input, view, st);
    assert view.schema.fields[1..] == [];
    assert Loop(w, view.schema.fields, input, view, st) == Loop(w, [], input, view, next) == next;
  }

  /**
   When the probe found nothing and the old fallback was stored, reprobe takes
   that value for the probe's and ignores the new fallback.
   */
  lemma StaleFallback(w: World, bytes: seq<Byte>, path: string, at: string)
    requires w.run == Nothing && |bytes| <= 1024
    ensures var input := Input(bytes, map[], path, at, None, |bytes|, None);
            var m := Ingest(w, input, TitleView("x"), map[]).0;
            && m.Ok?
            && var j := Job(path, at, Stored(m.value), Some(TitleOr("x")), TitleView("y"));
               && BuiltUnder(w, j, input, TitleView("x"))
               && ReprobeOne(w, map[BlobHash(bytes) := BlobObj(Plain(bytes))], j, map[]).0 !=
                  Ingest(w, FreshInput(j, bytes), j.view, map[]).0
  {
    var input := Input(bytes, map[], path, at, None, |bytes|, None);
    TitleIngest(w, input, "x", map[]);
    var j := Job(path, at, Stored(Ingest(w, input, TitleView("x"), map[]).0.value), Some(TitleOr("x")), TitleView("y"));
    TitleSeed(j, bytes);
    TitleIngest(w, FreshInput(j, bytes), "y", Seed(j, j.view.schema.fields, map[]));
    TitleIngest(w, FreshInput(j, bytes), "y", map[]);
    assert map["title" := Str("x")]["title"] != map["title" := Str("y")]["title"];
  }

  lemma TitleSeed(j: Job, bytes: seq<Byte>)
    requires j.prev.source == BlobHash(bytes) && j.prev.fields == map["title" := Str("x")]
    requires j.prev.probes == map["text.title" := BlobHash([])]
    requires j.oldSchema == Some(TitleOr("x")) && j.view == TitleView("y")
    ensures Carried(j) == map[]
    ensures Seed(j, j.view.schema.fields, map[]) == map[TitleKey(FreshInput(j, bytes)) := Str("x")]
  {
    var f := j.view.schema.fields[0];
    assert FieldNamed(TitleOr("x").fields, "title") == Some(TitleOr("x").fields[0]);
    assert Reused(j, f) && j.view.schema.fields[1..] == [];
    assert Seed(j, j.view.schema.fields, map[]) == Seed(j, [], map[SeedKey(j, f) := Str("x")]);
  }

  function One(wasm: seq<Byte>, bytes: seq<Byte>, args: Fields, limits: Limits): Result<FieldValue> {
    Ok(Int(1))
  }

  /** A number from a probe, without a fallback. */
  function CountView(ty: FieldType): View {
    var schema := Schema("text", false, [Field("n", Probe("text.count", map[]), ty, false, None)]);
    View(schema, [], map["text.count" := ProbeBlob([], None)], Limits(1, 1, 1))
  }

  lemma CountIngest(w: World, input: Input, ty: FieldType, cache: Cache)
    requires w.run == One && input.builtins.None? && input.user == map[] && input.length <= 1024
    ensures var v := if TitleKey(input) in cache then cache[TitleKey(input)] else Int(1);
            var r := Ingest(w, input, CountView(ty), cache).0;
            && (r.Ok? <==> Accepts(ty, v))
            && (r.Ok? ==>
                  r.value ==
                  FileManifest(SourceHash(input), "text", BlobHash([]), input.at, map["text.count" := BlobHash([])],
                               map["n" := Normalize(v, ty)]))
  {
    var view, st := CountView(ty), START.(cache := cache);
    var f := view.schema.fields[0];
    var o := ResolveSource(w, f, input, view, map[], map[], cache);
    assert o.value == Ok(if TitleKey(input) in cache then cache[TitleKey(input)] else Int(1))
        && o.hashes == map["text.count" := BlobHash([])];
    var next := Step(w, f, input, view, st);
    assert view.schema.fields[1..] == [];
    assert Loop(w, view.schema.fields, input, view, st) == Loop(w, [], input, view, next) == next;
  }

  /**
   An integer stored in a float field is promoted; when the field becomes an integer field,
   reprobe takes the float for the probe's output and rejects it, where a fresh ingest succeeds.
   */
  lemma FloatPromoted(w: World, bytes: seq<Byte>, path: string, at: string)
    requires w.run == One && |bytes| <= 1024
    ensures var input := Input(bytes, map[], path, at, None, |bytes|, None);
            var m := Ingest(w, input, CountView(TFloat), map[]).0;
            && m.Ok?
            && var j := Job(path, at, Stored(m.value), Some(CountView(TFloat).schema), CountView(TInt));
               && BuiltUnder(w, j, input, CountView(TFloat))
               && ReprobeOne(w, map[BlobHash(bytes) := BlobObj(Plain(bytes))], j, map[]).0.Err?
               && Ingest(w, FreshInput(j, bytes), j.view, map[]).0.Ok?
  {
    var input := Input(bytes, map[], path, at, None, |bytes|, None);
    CountIngest(w, input, TFloat, map[]);
    var j := Job(path, at, Stored(Ingest(w, input, CountView(TFloat), map[]).0.value), Some(CountView(TFloat).schema),
                 CountView(TInt));
    CountSeed(j, bytes);
    CountIngest(w, FreshInput(j, bytes), TInt, Seed(j, j.view.schema.fields, map[]));
    CountIngest(w, FreshInput(j, bytes), TInt, map[]);
  }

  lemma CountSeed(j: Job, bytes: seq<Byte>)
    requires j.prev.source == BlobHash(bytes) && j.prev.fields == map["n" := Float(1.0)]
    requires j.prev.probes == map["text.count" := BlobHash([])]
    requires j.oldSchema == Some(CountView(TFloat).schema) && j.view == CountView(TInt)
    ensures Carried(j) == map[]
    ensures Seed(j, j.view.schema.fields, map[]) == map[TitleKey(FreshInput(j, bytes)) := Float(1.0)]
  {
    var f := j.view.schema.fields[0];
    assert FieldNamed(CountView(TFloat).schema.fields, "n") == Some(CountView(TFloat).schema.fields[0]);
    assert Reused(j, f) && j.view.schema.fields[1..] == [];
    assert Seed(j, j.view.schema.fields, map[]) == Seed(j, [], map[SeedKey(j, f) := Float(1.0)]);
  }
}
