/**
 The ingest engine (crates/omp-core/src/engine.rs) with its probe-output cache,
 and the schema types it reads (crates/omp-core/src/schema.rs). Running a probe
 is a deterministic function of the wasm, the bytes, the arguments and the limits.
 */
module Engine {
  import opened Objects

  datatype FieldValue =
    | Null
    | Str(s: string)
    | Int(i: int)
    | Float(f: real)
    | Bool(b: bool)
    | Datetime(t: string)
    | List(items: seq<FieldValue>)
    | Table(members: map<string, FieldValue>)

  type Fields = map<string, FieldValue>

  datatype FieldType =
    | TString | TInt | TFloat | TBool | TDatetime
    | TListString | TListInt | TListFloat | TListBool | TListDatetime
    | TObject

  /** `FieldType::accepts`. */
  predicate Accepts(ty: FieldType, v: FieldValue) {
    || v.Null?
    || match (ty, v)
       case (TString, Str(_)) => true
       case (TInt, Int(_)) => true
       case (TFloat, Float(_)) => true
       case (TFloat, Int(_)) => true
       case (TBool, Bool(_)) => true
       case (TDatetime, Str(_)) => true
       case (TDatetime, Datetime(_)) => true
       case (TObject, Table(_)) => true
       case (TListString, List(xs)) => forall x | x in xs :: x.Str?
       case (TListInt, List(xs)) => forall x | x in xs :: x.Int?
       case (TListFloat, List(xs)) => forall x | x in xs :: x.Float? || x.Int?
       case (TListBool, List(xs)) => forall x | x in xs :: x.Bool?
       case (TListDatetime, List(xs)) => forall x | x in xs :: x.Str? || x.Datetime?
       case _ => false
  }

  function Promote(v: FieldValue): FieldValue {
    if v.Int? then Float(v.i as real) else v
  }

  /** `normalize_value`. */
  function Normalize(v: FieldValue, ty: FieldType): FieldValue {
    if ty.TFloat? then Promote(v)
    else if ty.TListFloat? && v.List? then List(seq(|v.items|, i requires 0 <= i < |v.items| => Promote(v.items[i])))
    else v
  }

  datatype Transform = Identity | Slugify | Lower

  datatype Source =
    | Constant(value: FieldValue)
    | Probe(probe: string, args: Fields)
    | UserProvided
    | FromField(from: string, transform: Transform)

  datatype Field = Field(name: string, source: Source, ty: FieldType, required: bool, fallback: Option<Field>)

  datatype Schema = Schema(fileType: string, allowExtra: bool, fields: seq<Field>)

  datatype Limits = Limits(fuel: nat, memoryMb: nat, wallClock: nat)

  datatype ProbeBlob = ProbeBlob(wasm: seq<Byte>, maxInput: Option<nat>)

  datatype View = View(schema: Schema, schemaBlob: seq<Byte>, probes: map<string, ProbeBlob>, limits: Limits)

  datatype Builtins = Builtins(sha256: string, size: nat)

  datatype Input = Input(bytes: seq<Byte>, user: Fields, path: string, at: string,
                         builtins: Option<Builtins>, length: nat, overrideSource: Option<Hash>)

  datatype FileManifest = FileManifest(source: Hash, fileType: string, schemaHash: Hash, at: string,
                                       probes: map<string, Hash>, fields: Fields)

  /** The parts of the world the engine calls out to. */
  datatype World = World(run: (seq<Byte>, seq<Byte>, Fields, Limits) -> Result<FieldValue>, lower: string -> string)

  function BlobHash(bytes: seq<Byte>): Hash {
    Digest(BlobObj(Plain(bytes)))
  }

  predicate AsciiAlnum(c: char) {
    'a' <= c <= 'z' || 'A' <= c <= 'Z' || '0' <= c <= '9'
  }

  function AsciiLower(c: char): char {
    if 'A' <= c <= 'Z' then c - 'A' + 'a' else c
  }

  function SlugFrom(s: string, out: string, dash: bool): string {
    if s == [] then out
    else if AsciiAlnum(s[0]) then SlugFrom(s[1..], out + [AsciiLower(s[0])], false)
    else if !dash && out != [] then SlugFrom(s[1..], out + ['-'], true)
    else SlugFrom(s[1..], out, dash)
  }

  function Slug(s: string): string {
    var out := SlugFrom(s, [], false);
    if out != [] && out[|out| - 1] == '-' then out[..|out| - 1] else out
  }

  function Transformed(w: World, t: Transform, v: FieldValue): FieldValue {
    if !v.Str? then v
    else match t
      case Identity => v
      case Lower => Str(w.lower(v.s))
      case Slugify => Str(Slug(v.s))
  }

  /** What a probe, and the cache key, see of an argument: both write a datetime as text. */
  function Wire(v: FieldValue): FieldValue {
    match v
    case Datetime(t) => Str(t)
    case List(xs) => List(seq(|xs|, i requires 0 <= i < |xs| => Wire(xs[i])))
    case Table(m) => Table(map k | k in m :: Wire(m[k]))
    case _ => v
  }

  function WireArgs(args: Fields, path: string): Fields {
    var all := if "path" in args then args else args["path" := Str(path)];
    map k | k in all :: Wire(all[k])
  }

  datatype Key = Key(source: Hash, probe: Hash, args: Fields)

  type Cache = map<Key, FieldValue>

  function SourceHash(input: Input): Hash {
    if input.overrideSource.Some? then input.overrideSource.value else BlobHash(input.bytes)
  }

  /** A value, the probe hashes recorded so far and the cache, as they thread through the engine. */
  datatype Out = Out(value: Result<FieldValue>, hashes: map<string, Hash>, cache: Cache)

  function Cap(blob: ProbeBlob, limits: Limits): nat {
    if blob.maxInput.Some? then blob.maxInput.value else limits.memoryMb * 1024 * 1024
  }

  /** `resolve_source`. */
  function ResolveSource(w: World, f: Field, input: Input, view: View, resolved: Fields, hashes: map<string, Hash>,
                         cache: Cache): Out {
    match f.source
    case Constant(v) => Out(Ok(v), hashes, cache)
    case UserProvided => Out(Ok(if f.name in input.user then input.user[f.name] else Null), hashes, cache)
    case FromField(from, t) =>
      Out(Ok(Transformed(w, t, if from in resolved then resolved[from] else Null)), hashes, cache)
    case Probe(probe, args) =>
      if probe !in view.probes then Out(Err(SchemaValidation), hashes, cache)
      else
        var blob := view.probes[probe];
        if input.builtins.Some? then
          var v := if probe == "file.size" then Int(input.builtins.value.size)
                   else if probe == "file.sha256" then Str(input.builtins.value.sha256)
                   else Null;
          Out(Ok(v), hashes, cache)
        else if input.length > Cap(blob, view.limits) then Out(Ok(Null), hashes, cache)
        else
          var effective := WireArgs(args, input.path);
          var key := Key(SourceHash(input), BlobHash(blob.wasm), effective);
          var hashes' := hashes[probe := BlobHash(blob.wasm)];
          if key in cache then Out(Ok(cache[key]), hashes', cache)
          else match w.run(blob.wasm, input.bytes, effective, view.limits)
            case Err(e) => Out(Err(e), hashes, cache)
            case Ok(v) => Out(Ok(v), hashes', cache[key := v])
  }

  /** `resolve_field`. */
  function ResolveField(w: World, f: Field, input: Input, view: View, resolved: Fields, hashes: map<string, Hash>,
                        cache: Cache): Out
    decreases f
  {
    var primary := ResolveSource(w, f, input, view, resolved, hashes, cache);
    if primary.value.Err? || !primary.value.value.Null? || f.fallback.None? then primary
    else ResolveField(w, f.fallback.value, input, view, resolved, primary.hashes, primary.cache)
  }

  /** The resolved fields, the probe hashes and the cache; or the error, which keeps the cache. */
  datatype State = State(result: Result<()>, resolved: Fields, hashes: map<string, Hash>, cache: Cache)

  /** One iteration of the field loop. */
  function Step(w: World, f: Field, input: Input, view: View, st: State): State {
    var o := ResolveField(w, f, input, view, st.resolved, st.hashes, st.cache);
    if o.value.Err? then State(Err(o.value.error), st.resolved, o.hashes, o.cache)
    else if (f.required && o.value.value.Null?) || !Accepts(f.ty, o.value.value) then
      State(Err(IngestValidation), st.resolved, o.hashes, o.cache)
    else State(Ok(()), st.resolved[f.name := Normalize(o.value.value, f.ty)], o.hashes, o.cache)
  }

  function Loop(w: World, fields: seq<Field>, input: Input, view: View, st: State): State {
    if st.result.Err? || fields == [] then st
    else Loop(w, fields[1..], input, view, Step(w, fields[0], input, view, st))
  }

  predicate Declared(schema: Schema, k: string) {
    exists f | f in schema.fields :: f.name == k
  }

  function Finish(input: Input, view: View, resolved: Fields, hashes: map<string, Hash>): Result<FileManifest> {
    if !view.schema.allowExtra && exists k | k in input.user :: !Declared(view.schema, k) then Err(IngestValidation)
    else
      var fields := if view.schema.allowExtra then input.user + resolved else resolved;
      Ok(FileManifest(SourceHash(input), view.schema.fileType, BlobHash(view.schemaBlob), input.at, hashes, fields))
  }

  const START := State(Ok(()), map[], map[], map[])

  /** `ingest_with_cache`: the manifest or error, and the cache afterwards. */
  function Ingest(w: World, input: Input, view: View, cache: Cache): (Result<FileManifest>, Cache) {
    var st := Loop(w, view.schema.fields, input, view, START.(cache := cache));
    if st.result.Err? then (Err(st.result.error), st.cache) else (Finish(input, view, st.resolved, st.hashes), st.cache)
  }

  /** The mutable cache that a reprobe pass shares across files. */
  class ProbeOutputCache {
    var entries: Cache

    constructor ()
      ensures entries == map[]
    {
      entries := map[];
    }

    /** The loop of `ingest_with_cache`. */
    method IngestWithCache(w: World, input: Input, view: View) returns (r: Result<FileManifest>)
      modifies this
      ensures (r, entries) == Ingest(w, input, view, old(entries))
    {
      var resolved: Fields, hashes: map<string, Hash>, i := map[], map[], 0;
      var fields := view.schema.fields;
      assert fields[0..] == fields;
      while i < |fields|
        invariant 0 <= i <= |fields|
        invariant Loop(w, fields[i..], input, view, State(Ok(()), resolved, hashes, entries)) ==
                  Loop(w, fields, input, view, START.(cache := old(entries)))
      {
        var f := fields[i];
        assert fields[i..][0] == f && fields[i..][1..] == fields[i + 1..];
        var o := ResolveField(w, f, input, view, resolved, hashes, entries);
        entries := o.cache;
        if o.value.Err? {
          return Err(o.value.error);
        }
        if f.required && o.value.value.Null? {
          return Err(IngestValidation);
        }
        if !Accepts(f.ty, o.value.value) {
          return Err(IngestValidation);
        }
        resolved, hashes := resolved[f.name := Normalize(o.value.value, f.ty)], o.hashes;
        i := i + 1;
      }
      r := Finish(input, view, resolved, hashes);
    }
  }

  // ---- Cache transparency ----

  /** A field of type `ty` cannot tell `v` from `o`. */
  predicate Alike(v: FieldValue, o: FieldValue, ty: FieldType) {
    && (v.Null? <==> o.Null?)
    && (Accepts(ty, v) <==> Accepts(ty, o))
    && (Accepts(ty, v) ==> Normalize(v, ty) == Normalize(o, ty))
  }

  /** When a cached value may stand for the output of the probe, key by key. */
  type Likeness = (Key, FieldValue, FieldValue) -> bool

  predicate Equal(k: Key, v: FieldValue, o: FieldValue) {
    v == o
  }

  /** Every entry stands for what running the probe now would give. */
  ghost predicate Fits(w: World, limits: Limits, same: Likeness, cache: Cache) {
    forall bytes, wasm, args | Key(BlobHash(bytes), BlobHash(wasm), args) in cache ::
      var k, out := Key(BlobHash(bytes), BlobHash(wasm), args), w.run(wasm, bytes, args, limits);
      out.Ok? && same(k, cache[k], out.value)
  }

  /** Every entry is what running the probe now would give. */
  ghost predicate Sound(w: World, limits: Limits, cache: Cache) {
    Fits(w, limits, Equal, cache)
  }

  /** The source hash given to the engine is that of the bytes it may show to a probe. */
  ghost predicate Honest(input: Input) {
    input.builtins.None? ==> SourceHash(input) == BlobHash(input.bytes)
  }

  /** The engine consults the cache for the probe of this source. */
  predicate Consults(source: Source, input: Input, view: View) {
    && source.Probe?
    && source.probe in view.probes
    && input.builtins.None?
    && input.length <= Cap(view.probes[source.probe], view.limits)
  }

  function KeyOf(source: Source, input: Input, view: View): Key
    requires Consults(source, input, view)
  {
    Key(SourceHash(input), BlobHash(view.probes[source.probe].wasm), WireArgs(source.args, input.path))
  }

  /** The field may look `k` up, for its own source or down its fallbacks. */
  ghost predicate LooksUp(f: Field, input: Input, view: View, k: Key)
    decreases f
  {
    || (Consults(f.source, input, view) && k == KeyOf(f.source, input, view))
    || (f.fallback.Some? && LooksUp(f.fallback.value, input, view, k))
  }

  /** A field of type `ty` resolved like `f` cannot tell apart two values that are the same under its keys. */
  ghost predicate FieldBlind(same: Likeness, f: Field, ty: FieldType, input: Input, view: View) {
    forall k, v, o | LooksUp(f, input, view, k) && same(k, v, o) :: Alike(v, o, ty)
  }

  /** No field can tell apart two values that are the same under a key it looks up. */
  ghost predicate Blind(same: Likeness, fields: seq<Field>, input: Input, view: View) {
    && (forall k, o :: same(k, o, o))
    && (forall f | f in fields :: FieldBlind(same, f, f.ty, input, view))
  }

  /** Recording a value that stands for what the probe returns keeps a cache fit. */
  lemma RecordFits(w: World, limits: Limits, same: Likeness, c: Cache,
                   wasm: seq<Byte>, bytes: seq<Byte>, args: Fields, v: FieldValue)
    requires Fits(w, limits, same, c) && w.run(wasm, bytes, args, limits).Ok?
    requires same(Key(BlobHash(bytes), BlobHash(wasm), args), v, w.run(wasm, bytes, args, limits).value)
    ensures Fits(w, limits, same, c[Key(BlobHash(bytes), BlobHash(wasm), args) := v])
  {
  }

  /** A sound cache is fit under every reflexive likeness. */
  lemma SoundFits(w: World, limits: Limits, same: Likeness, c: Cache)
    requires Sound(w, limits, c) && forall k, o :: same(k, o, o)
    ensures Fits(w, limits, same, c)
  {
  }

  /** Two outcomes that a field of type `ty` cannot tell apart. */
  ghost predicate AlikeOut(x: Out, y: Out, ty: FieldType) {
    && x.hashes == y.hashes
    && (x.value.Ok? <==> y.value.Ok?)
    && (x.value.Err? ==> x.value == y.value)
    && (x.value.Ok? ==> Alike(x.value.value, y.value.value, ty))
  }

  /** One source resolves alike from a fit cache and from an empty one. */
  lemma SourceTransparent(w: World, same: Likeness, f: Field, ty: FieldType, input: Input, view: View,
                          resolved: Fields, hashes: map<string, Hash>, c: Cache)
    requires Honest(input) && Fits(w, view.limits, same, c)
    requires (forall k, o :: same(k, o, o)) && FieldBlind(same, f, ty, input, view)
    ensures var x := ResolveSource(w, f, input, view, resolved, hashes, c);
            && AlikeOut(x, ResolveSource(w, f, input, view, resolved, hashes, map[]), ty)
            && Fits(w, view.limits, same, x.cache)
  {
    if Consults(f.source, input, view) {
      var wasm, args := view.probes[f.source.probe].wasm, WireArgs(f.source.args, input.path);
      var k, out := KeyOf(f.source, input, view), w.run(wasm, input.bytes, args, view.limits);
      assert LooksUp(f, input, view, k);
      if k in c {
        assert out.Ok? && same(k, c[k], out.value);
      } else if out.Ok? {
        RecordFits(w, view.limits, same, c, wasm, input.bytes, args, out.value);
      }
    }
  }

  lemma {:induction false} FieldTransparent(w: World, same: Likeness, f: Field, ty: FieldType, input: Input, view: View,
                                            resolved: Fields, hashes: map<string, Hash>, c: Cache, d: Cache)
    requires Honest(input) && Fits(w, view.limits, same, c) && Fits(w, view.limits, same, d)
    requires (forall k, o :: same(k, o, o)) && FieldBlind(same, f, ty, input, view)
    ensures var x, y := ResolveField(w, f, input, view, resolved, hashes, c),
                        ResolveField(w, f, input, view, resolved, hashes, d);
            AlikeOut(x, y, ty) && Fits(w, view.limits, same, x.cache) && Fits(w, view.limits, same, y.cache)
    decreases f
  {
    SourceTransparent(w, same, f, ty, input, view, resolved, hashes, c);
    SourceTransparent(w, same, f, ty, input, view, resolved, hashes, d);
    var x, y := ResolveSource(w, f, input, view, resolved, hashes, c),
                ResolveSource(w, f, input, view, resolved, hashes, d);
    if x.value.Ok? && x.value.value.Null? && f.fallback.Some? {
      FallbackBlind(same, f, ty, input, view);
      FieldTransparent(w, same, f.fallback.value, ty, input, view, resolved, x.hashes, x.cache, y.cache);
    }
  }

  lemma FallbackBlind(same: Likeness, f: Field, ty: FieldType, input: Input, view: View)
    requires f.fallback.Some? && FieldBlind(same, f, ty, input, view)
    ensures FieldBlind(same, f.fallback.value, ty, input, view)
  {
    forall k, v, o | LooksUp(f.fallback.value, input, view, k) && same(k, v, o) ensures Alike(v, o, ty) {
      assert LooksUp(f, input, view, k);
    }
  }

  lemma {:induction false} LoopTransparent(w: World, same: Likeness, fields: seq<Field>, input: Input, view: View,
                                           st: State, d: Cache)
    requires Honest(input) && Fits(w, view.limits, same, st.cache) && Fits(w, view.limits, same, d)
    requires Blind(same, fields, input, view)
    ensures var x, y := Loop(w, fields, input, view, st), Loop(w, fields, input, view, st.(cache := d));
            && y == x.(cache := y.cache)
            && Fits(w, view.limits, same, x.cache)
            && Fits(w, view.limits, same, y.cache)
    decreases |fields|
  {
    if st.result.Ok? && fields != [] {
      FieldTransparent(w, same, fields[0], fields[0].ty, input, view, st.resolved, st.hashes, st.cache, d);
      var x, y := Step(w, fields[0], input, view, st), Step(w, fields[0], input, view, st.(cache := d));
      assert y == x.(cache := y.cache);
      LoopTransparent(w, same, fields[1..], input, view, x, y.cache);
    }
  }

  /**
   With any cache whose entries no field of the schema can tell from the
   outputs of the probes, the engine returns what it returns with an empty
   one, and leaves such a cache.
   */
  lemma CacheTransparent(w: World, same: Likeness, input: Input, view: View, cache: Cache)
    requires Honest(input) && Fits(w, view.limits, same, cache)
    requires Blind(same, view.schema.fields, input, view)
    ensures Ingest(w, input, view, cache).0 == Ingest(w, input, view, map[]).0
    ensures Fits(w, view.limits, same, Ingest(w, input, view, cache).1)
  {
    LoopTransparent(w, same, view.schema.fields, input, view, START.(cache := cache), map[]);
  }

  /** With any sound cache the engine returns what it returns with an empty one, and leaves the cache sound. */
  lemma SoundTransparent(w: World, input: Input, view: View, cache: Cache)
    requires Honest(input) && Sound(w, view.limits, cache)
    ensures Ingest(w, input, view, cache).0 == Ingest(w, input, view, map[]).0
    ensures Sound(w, view.limits, Ingest(w, input, view, cache).1)
  {
    CacheTransparent(w, Equal, input, view, cache);
  }
}
