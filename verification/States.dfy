/**
 The repository as a state machine (`Repo`, crates/omp-core/src/api.rs): what
 staging, commit, branch and checkout do to the object store, the refs, HEAD and
 the index. `Next` gives the whole state after an operation.
 */
module States {
  import opened Objects
  import opened Paths
  import opened Walk
  import opened Writes
  import opened StorePaths
  import opened Edits
  import opened Refs

  datatype Change = StageUpsert(hash: Hash) | StageDelete

  type Index = map<string, Change>

  /** What a repository is at one moment. */
  datatype State = State(objects: Objects, refs: RefMap, head: Head, index: Index)

  /** `init`: no objects, no refs, HEAD on `refs/heads/main`. */
  const INIT := State(map[], map[], OnBranch(BranchRef("main")), map[])

  ghost predicate IsCommit(s: Objects, h: Hash) {
    h in s && s[h].CommitObj?
  }

  predicate Stageable(o: Object) {
    o.BlobObj? || o.ManifestObj?
  }

  ghost predicate StagedOk(s: Objects, path: string, c: Change) {
    && Split(path).Ok?
    && Split(path).value != []
    && (c.StageUpsert? ==> c.hash in s && Stageable(c.hash.obj) && Printables(Split(path).value))
  }

  ghost predicate IndexOk(s: Objects, index: Index) {
    forall k {:trigger StagedOk(s, k, index[k])} | k in index :: StagedOk(s, k, index[k])
  }

  /** Every ref, commit, tree, manifest, chunk list and staged change points to stored objects. */
  ghost predicate Inv(st: State) {
    && SoundStore(st.objects)
    && (forall r | r in st.refs :: IsCommit(st.objects, st.refs[r]))
    && (st.head.Detached? ==> IsCommit(st.objects, st.head.hash))
    && IndexOk(st.objects, st.index)
  }

  /** What one operation may do: objects are only added, a branch only moves to a child of its tip. */
  ghost predicate Moves(a: State, b: State) {
    && Grows(a.objects, b.objects)
    && forall r | r in a.refs :: r in b.refs && (b.refs[r] == a.refs[r] || Advanced(b.objects, a.refs[r], b.refs[r]))
  }

  ghost predicate Advanced(s: Objects, tip: Hash, h: Hash) {
    IsCommit(s, h) && s[h].parents == [tip]
  }

  // ---- Paths and staged changes ----

  /** `validate_path`. */
  predicate ValidPath(path: string) {
    && path != ""
    && path[0] != '/'
    && (forall i | 0 <= i < |path| - 1 :: !(path[i] == '/' && path[i + 1] == '/'))
    && !(".omp/" <= path) && path != ".omp"
    && Split(path).Ok?
  }

  lemma {:induction false} ValidPathNonEmpty(path: string)
    requires ValidPath(path)
    ensures Split(path).value != []
  {
    assert TrimStart(path) == path;
    TrimEndKeeps(path);
  }

  lemma {:induction false} TrimEndKeeps(s: string)
    requires s != [] && s[0] != '/'
    ensures TrimEnd(s) != []
  {
    if s[|s| - 1] == '/' {
      TrimEndKeeps(s[..|s| - 1]);
    }
  }

  /** The tree edit that a staged change stands for. */
  function EditOf(path: string, c: Change): Edit {
    var p := if Split(path).Ok? then Split(path).value else [];
    match c
    case StageDelete => Edits.Remove(p)
    case StageUpsert(h) => Upsert(p, Entry(if StoredMode(h.obj).Ok? then StoredMode(h.obj).value else Blob, h))
  }

  function EditsOf(index: Index, order: seq<string>): seq<Edit>
    requires forall k | k in order :: k in index
  {
    seq(|order|, i requires 0 <= i < |order| => assert order[i] in order; EditOf(order[i], index[order[i]]))
  }

  /** A `HashMap` iteration order of the index. */
  ghost predicate Iterates(order: seq<string>, index: Index) {
    && (forall k :: k in order <==> k in index)
    && forall i, j | 0 <= i < j < |order| :: order[i] != order[j]
  }

  /** The reprobe pass, if there is one, visits every staged change once. */
  ghost predicate Visits(st: State, reprobe: Reprobe) {
    reprobe.Pass? ==> Iterates(reprobe.order, st.index)
  }

  // ---- Reading ----

  function Parents(st: State): seq<Hash> {
    match ResolveHead(st.refs, st.head)
    case None => []
    case Some(h) => [h]
  }

  /** The tree HEAD shows, as `head_tree` reads it. */
  function HeadRoot(st: State): Result<Option<Hash>> {
    match ResolveHead(st.refs, st.head)
    case None => Ok(None)
    case Some(h) =>
      if h !in st.objects then Err(NotFound)
      else if !st.objects[h].CommitObj? then Err(Corrupt)
      else Ok(Some(st.objects[h].tree))
  }

  function AsEntry(r: Option<Hash>): Option<Entry> {
    if r.Some? then Some(Entry(Tree, r.value)) else None
  }

  /** `root_tree` then `get_at`: what a commit shows at a path. */
  function Show(s: Objects, commit: Hash, p: Path): Result<Option<Entry>> {
    if commit !in s then Err(NotFound)
    else if !s[commit].CommitObj? then Err(Corrupt)
    else FindIn(s, Entry(Tree, s[commit].tree), p)
  }

  // ---- Automatic reprobing ----

  const SCHEMA_PREFIX := "schemas/"
  const SCHEMA_SUFFIX := "/schema.toml"

  /** `schema_file_type_from_path` finds a file type. */
  predicate SchemaPath(path: string) {
    && SCHEMA_PREFIX <= path
    && var rest := path[|SCHEMA_PREFIX|..];
    && |rest| > |SCHEMA_SUFFIX|
    && rest[|rest| - |SCHEMA_SUFFIX|..] == SCHEMA_SUFFIX
    && '/' !in rest[..|rest| - |SCHEMA_SUFFIX|]
  }

  function FileTypeOf(path: string): string
    requires SchemaPath(path)
  {
    path[|SCHEMA_PREFIX|..|path| - |SCHEMA_SUFFIX|]
  }

  /** A staged schema: the file type in its path, and the blob. */
  datatype Staged = Staged(fileType: string, hash: Hash)

  /** The staged schemas, in the order in which the index is iterated. */
  function StagedSchemas(index: Index, order: seq<string>): seq<Staged> {
    if order == [] then []
    else
      var k := order[0];
      (if k in index && index[k].StageUpsert? && SchemaPath(k) then [Staged(FileTypeOf(k), index[k].hash)] else [])
      + StagedSchemas(index, order[1..])
  }

  /** What rebuilding a manifest changes besides its schema; its source and file type are kept. */
  datatype Rebuild = Rebuild(probes: map<string, Hash>, meta: string)

  /**
   The reprobe pass of a commit, which can be switched off. It iterates the index in
   `order`. `setup` loads the schemas at HEAD, the probes and the configuration;
   `changed` parses a staged schema and compares it with the one at HEAD; `rebuild` is
   `reprobe_one`, and gives nothing for a file that it has to skip.
   */
  datatype Reprobe =
    | Deferred
    | Pass(order: seq<string>, setup: Result<()>, changed: Staged -> Result<bool>,
           rebuild: (string, Object, Staged) -> Option<Rebuild>)

  function RebuiltManifest(o: Object, x: Staged, b: Rebuild): Object
    requires o.ManifestObj?
  {
    ManifestObj(o.source, Details(x.fileType, x.hash, b.probes, b.meta))
  }

  /** The manifest is of the file type, was made under another schema, and its source is not chunked. */
  predicate Concerns(o: Object, x: Staged) {
    o.ManifestObj? && o.details.fileType == x.fileType && o.details.schema != x.hash && o.source.obj.BlobObj?
  }

  /** The new manifest at one row of HEAD. */
  function RebuildRow(row: Row, x: Staged, p: Reprobe): seq<Row>
    requires p.Pass?
  {
    var o := row.entry.hash.obj;
    if row.entry.mode == Manifest && Concerns(o, x) && p.rebuild(row.path, o, x).Some? then
      [Row(row.path, Entry(Manifest, Digest(RebuiltManifest(o, x, p.rebuild(row.path, o, x).value))))]
    else []
  }

  function RebuildRows(rows: seq<Row>, x: Staged, p: Reprobe): seq<Row>
    requires p.Pass?
  {
    if rows == [] then [] else RebuildRows(rows[..|rows| - 1], x, p) + RebuildRow(rows[|rows| - 1], x, p)
  }

  /** How the pass ends, and the manifests it has rebuilt by then. */
  datatype Passed = Passed(result: Result<()>, rows: seq<Row>)

  /** A staged schema that does not parse ends the pass. */
  function RunSchemas(xs: seq<Staged>, rows: seq<Row>, p: Reprobe): Passed
    requires p.Pass?
    decreases |xs|
  {
    if xs == [] then Passed(Ok(()), [])
    else
      var init, x := RunSchemas(xs[..|xs| - 1], rows, p), xs[|xs| - 1];
      if init.result.Err? then init
      else if p.changed(x).Err? then init.(result := Err(p.changed(x).error))
      else init.(rows := init.rows + if p.changed(x).value then RebuildRows(rows, x, p) else [])
  }

  /** The leaves of HEAD's tree. */
  function HeadRows(st: State): seq<Row> {
    var root := HeadRoot(st);
    if root.Ok? && root.value.Some? then Rows([], List(Entry(Tree, root.value.value))) else []
  }

  /** `run_auto_reprobe`. */
  function AutoReprobe(st: State, p: Reprobe): Passed {
    if p.Deferred? || StagedSchemas(st.index, p.order) == [] then Passed(Ok(()), [])
    else if p.setup.Err? then Passed(p.setup, [])
    else RunSchemas(StagedSchemas(st.index, p.order), HeadRows(st), p)
  }

  /** The manifests rebuilt before a commit. */
  function Rebuilt(st: State, reprobe: Reprobe): seq<Row> {
    AutoReprobe(st, reprobe).rows
  }

  /** Each rebuilt manifest is staged over whatever was staged at its path. */
  function Merge(index: Index, rows: seq<Row>): Index {
    if rows == [] then index
    else Merge(index, rows[..|rows| - 1])[rows[|rows| - 1].path := StageUpsert(rows[|rows| - 1].entry.hash)]
  }

  /** The changes a commit carries out. */
  function Merged(st: State, reprobe: Reprobe): Index {
    Merge(st.index, Rebuilt(st, reprobe))
  }

  function RowHashes(rows: seq<Row>): seq<Hash> {
    seq(|rows|, i requires 0 <= i < |rows| => rows[i].entry.hash)
  }

  // ---- What the operations write ----

  function ApplyHashes(root: Option<Entry>, d: Edit): seq<Hash> {
    match d
    case Upsert(p, x) => if p == [] then [] else PutHashes(if root.Some? then root.value else EMPTY, p, x)
    case Remove(p) => if root.None? || p == [] then [] else DeleteHashes(root.value, p)
  }

  /** The trees stored by a run of edits, up to the edit that fails. */
  function RunHashes(base: Option<Entry>, edits: seq<Edit>): seq<Hash> {
    if edits == [] then []
    else
      var init := edits[..|edits| - 1];
      RunHashes(base, init) + if Run(base, init).Ok? then ApplyHashes(Run(base, init).value, edits[|edits| - 1]) else []
  }

  function BlobHash(bytes: seq<Byte>): Hash {
    Digest(BlobObj(Plain(bytes)))
  }

  /** The chunks of a file, in order. */
  function ChunkList(bytes: seq<Byte>, size: nat): seq<ChunkEntry>
    requires size > 0
    decreases |bytes|
  {
    if bytes == [] then []
    else
      var k := if size <= |bytes| then size else |bytes|;
      [ChunkEntry(BlobHash(bytes[..k]), k)] + ChunkList(bytes[k..], size)
  }

  function ChunkHashes(cs: seq<ChunkEntry>): seq<Hash> {
    seq(|cs|, i requires 0 <= i < |cs| => cs[i].hash)
  }

  /** The source of a file, and what is stored for it. */
  function SourceOf(bytes: seq<Byte>, size: nat): Hash
    requires size > 0
  {
    if |bytes| >= size then Digest(ChunksObj(ChunkList(bytes, size))) else BlobHash(bytes)
  }

  function SourceHashes(bytes: seq<Byte>, size: nat): seq<Hash>
    requires size > 0
  {
    (if |bytes| >= size then ChunkHashes(ChunkList(bytes, size)) else []) + [SourceOf(bytes, size)]
  }

  // ---- The operations ----

  datatype Event =
    | AddBlob(path: string, bytes: seq<Byte>, accepted: bool)
    | AddFile(path: string, bytes: seq<Byte>, chunkSize: nat, details: Option<Details>)
    | Remove(path: string)
    | Commit(order: seq<string>, text: string, reprobe: Reprobe)
    | Branch(name: string, start: Option<RefExpr>)
    | Checkout(target: RefExpr)

  predicate ShortName(x: RefExpr) {
    x.back.None? && x.base.Named? && '/' !in x.base.name
  }

  predicate Attaches(st: State, x: RefExpr) {
    ShortName(x) && BranchRef(x.base.name) in st.refs
  }

  function Start(st: State, start: Option<RefExpr>): Result<Hash> {
    match start
    case Some(x) => Resolve(st.objects, st.refs, st.head, x)
    case None =>
      var tip := ResolveHead(st.refs, st.head);
      if tip.Some? then Ok(tip.value) else Err(Conflict)
  }

  function Target(st: State, x: RefExpr): Head {
    if Attaches(st, x) then OnBranch(BranchRef(x.base.name))
    else
      var h := Resolve(st.objects, st.refs, st.head, x);
      if h.Ok? then Detached(h.value) else st.head
  }

  /** The state after HEAD moves to commit `h`, stored in `s`, and the index is cleared. */
  function Advance(st: State, s: Objects, h: Hash): State {
    match st.head
    case OnBranch(name) => State(s, st.refs[name := h], st.head, map[])
    case Detached(_) => State(s, st.refs, Detached(h), map[])
  }

  function AddFileNext(st: State, path: string, bytes: seq<Byte>, size: nat, details: Option<Details>): State
    requires size > 0
  {
    if ValidPath(path) then StageFileNext(st, path, bytes, size, details) else st
  }

  function StageFileNext(st: State, path: string, bytes: seq<Byte>, size: nat, details: Option<Details>): State
    requires size > 0
  {
    if details.None? then
      // A chunked file is stored before ingest is attempted.
      if |bytes| >= size then st.(objects := StoreAll(st.objects, SourceHashes(bytes, size))) else st
    else
      var h := Digest(ManifestObj(SourceOf(bytes, size), details.value));
      st.(objects := StoreAll(st.objects, SourceHashes(bytes, size) + [h]), index := st.index[path := StageUpsert(h)])
  }

  /** The edits a commit carries out, on HEAD's tree, unless the reprobe pass fails. */
  ghost function CommitRun(st: State, order: seq<string>, reprobe: Reprobe): Result<Option<Entry>>
    requires HeadRoot(st).Ok? && Iterates(order, Merged(st, reprobe))
  {
    var pass := AutoReprobe(st, reprobe).result;
    if pass.Err? then Err(pass.error) else Run(AsEntry(HeadRoot(st).value), EditsOf(Merged(st, reprobe), order))
  }

  ghost function CommitWrites(st: State, order: seq<string>, reprobe: Reprobe): seq<Hash>
    requires HeadRoot(st).Ok? && Iterates(order, Merged(st, reprobe))
  {
    RowHashes(Rebuilt(st, reprobe)) +
    if AutoReprobe(st, reprobe).result.Err? then []
    else RunHashes(AsEntry(HeadRoot(st).value), EditsOf(Merged(st, reprobe), order))
  }

  function CommitHash(st: State, tree: Hash, text: string): Hash {
    Digest(CommitObj(tree, Parents(st), text))
  }

  ghost function CommitNext(st: State, order: seq<string>, text: string, reprobe: Reprobe): State
    requires HeadRoot(st).Ok? && Iterates(order, Merged(st, reprobe))
  {
    if st.index == map[] then st
    else
      var run := CommitRun(st, order, reprobe);
      var s := StoreAll(st.objects, CommitWrites(st, order, reprobe));
      if run.Err? || run.value.None? then st.(objects := s)
      else
        var h := CommitHash(st, run.value.value.hash, text);
        Advance(st, StoreAll(s, [h]), h)
  }

  /** The chunk size is positive, and a commit visits every change once, as does its reprobe pass. */
  ghost predicate Possible(st: State, ev: Event) {
    && (ev.AddFile? ==> ev.chunkSize > 0)
    && (ev.Commit? ==> HeadRoot(st).Ok? && Iterates(ev.order, Merged(st, ev.reprobe)) && Visits(st, ev.reprobe))
  }

  /** The state after an operation. */
  ghost function Next(st: State, ev: Event): State
    requires Possible(st, ev)
  {
    match ev
    case AddBlob(path, bytes, accepted) =>
      if ValidPath(path) && accepted then
        st.(objects := StoreAll(st.objects, [BlobHash(bytes)]), index := st.index[path := StageUpsert(BlobHash(bytes))])
      else st
    case AddFile(path, bytes, chunkSize, details) => AddFileNext(st, path, bytes, chunkSize, details)
    case Remove(path) => if ValidPath(path) then st.(index := st.index[path := StageDelete]) else st
    case Commit(order, text, reprobe) => CommitNext(st, order, text, reprobe)
    case Branch(name, start) =>
      if Start(st, start).Ok? && BranchRef(name) !in st.refs then
        st.(refs := st.refs[BranchRef(name) := Start(st, start).value])
      else st
    case Checkout(target) => st.(head := Target(st, target))
  }
}
