/**
 Cursor pagination of queries (`Repo::query`, crates/omp-core/src/api.rs:2014-2096;
 cursors, crates/omp-core/src/query.rs:536-566).
 */
module Pagination {
  import opened Objects
  import opened Order
  import opened Walk
  import opened StorePaths
  import opened Refs
  import opened RefText
  import opened States
  import opened Runs
  import Diff
  import Decimal
  import Text
  import Hex

  // ---- One page ----

  datatype Page = Page(matches: seq<Row>, next: Option<nat>)

  /** The loop of `query` from row `idx` on, with the matches found so far. */
  function PageFrom(rows: seq<Row>, keep: Row -> bool, idx: nat, limit: nat, found: seq<Row>): Page
    decreases |rows| - idx
  {
    if idx >= |rows| then Page(found, None)
    else if !keep(rows[idx]) then PageFrom(rows, keep, idx + 1, limit, found)
    else
      var more := found + [rows[idx]];
      if |more| >= limit then Page(more, if idx + 1 < |rows| then Some(idx + 1) else None)
      else PageFrom(rows, keep, idx + 1, limit, more)
  }

  /** `limit.clamp(1, 1000)`. */
  function Clamp(limit: nat): nat {
    if limit < 1 then 1 else if limit > 1000 then 1000 else limit
  }

  function Filter(rows: seq<Row>, keep: Row -> bool): seq<Row> {
    if rows == [] then [] else (if keep(rows[0]) then [rows[0]] else []) + Filter(rows[1..], keep)
  }

  /** A page is the next stretch of the filtered listing, and its cursor points past it. */
  lemma {:induction false} PageSplits(rows: seq<Row>, keep: Row -> bool, idx: nat, limit: nat, found: seq<Row>)
    requires idx <= |rows|
    ensures var p := PageFrom(rows, keep, idx, limit, found);
            && (p.next.Some? ==> idx < p.next.value < |rows|)
            && p.matches + (if p.next.Some? then Filter(rows[p.next.value..], keep) else []) ==
                found + Filter(rows[idx..], keep)
    decreases |rows| - idx
  {
    if idx < |rows| {
      assert rows[idx..][0] == rows[idx] && rows[idx..][1..] == rows[idx + 1..];
      var more := if keep(rows[idx]) then found + [rows[idx]] else found;
      PageSplits(rows, keep, idx + 1, limit, more);
      assert more + Filter(rows[idx + 1..], keep) == found + Filter(rows[idx..], keep);
      assert idx + 1 == |rows| ==> rows[idx + 1..] == [];
    }
  }

  lemma WholePage(rows: seq<Row>, keep: Row -> bool, idx: nat, limit: nat)
    requires idx <= |rows|
    ensures var p := PageFrom(rows, keep, idx, limit, []);
            && (p.next.None? ==> p.matches == Filter(rows[idx..], keep))
            && (p.next.Some? ==>
                idx < p.next.value < |rows|
                    && p.matches + Filter(rows[p.next.value..], keep) == Filter(rows[idx..], keep))
  {
    PageSplits(rows, keep, idx, limit, []);
    var p := PageFrom(rows, keep, idx, limit, []);
    assert p.matches + [] == p.matches && [] + Filter(rows[idx..], keep) == Filter(rows[idx..], keep);
  }

  lemma PageOne(rows: seq<Row>, keep: Row -> bool, offset: nat)
    requires offset < |rows| && keep(rows[offset])
    ensures PageFrom(rows, keep, offset, 1, []) ==
            Page([rows[offset]], if offset + 1 < |rows| then Some(offset + 1) else None)
  {
    assert [] + [rows[offset]] == [rows[offset]];
  }

  // ---- The same page, read from a store ----

  function ReadManifest(s: Objects, h: Hash): Result<Object> {
    if h !in s then Err(NotFound) else if !s[h].ManifestObj? then Err(Corrupt) else Ok(s[h])
  }

  /** The loop of `query` over a store: it loads a manifest before it tests it. */
  function Scan(s: Objects, rows: seq<Row>, pass: Object -> bool, idx: nat, limit: nat, found: seq<Row>): Result<Page>
    decreases |rows| - idx
  {
    if idx >= |rows| then Ok(Page(found, None))
    else
      var o :- ReadManifest(s, rows[idx].entry.hash);
      if !pass(o) then Scan(s, rows, pass, idx + 1, limit, found)
      else
        var more := found + [rows[idx]];
        if |more| >= limit then Ok(Page(more, if idx + 1 < |rows| then Some(idx + 1) else None))
        else Scan(s, rows, pass, idx + 1, limit, more)
  }

  /** The row at `i` is reached before the page is full. */
  ghost predicate Reached(rows: seq<Row>, keep: Row -> bool, idx: nat, i: nat, limit: nat, found: seq<Row>) {
    idx <= i < |rows| && (i > idx ==> |found| + |Filter(rows[idx..i], keep)| < limit)
  }

  ghost predicate Broken(s: Objects, rows: seq<Row>, keep: Row -> bool, idx: nat, limit: nat, found: seq<Row>) {
    exists i: nat :: Reached(rows, keep, idx, i, limit, found) && ReadManifest(s, rows[i].entry.hash).Err?
  }

  /** Reading fails exactly on a row that cannot be read and comes before the page is full; else it gives the page. */
  lemma {:induction false} ScanExact(s: Objects, rows: seq<Row>, pass: Object -> bool, idx: nat, limit: nat,
                                     found: seq<Row>)
    requires Addressed(s) && idx <= |rows| && |found| < limit
    ensures Scan(s, rows, pass, idx, limit, found).Err? <==> Broken(s, rows, Keep(pass), idx, limit, found)
    ensures Scan(s, rows, pass, idx, limit, found).Ok? ==>
            Scan(s, rows, pass, idx, limit, found).value == PageFrom(rows, Keep(pass), idx, limit, found)
    decreases |rows| - idx
  {
    if idx < |rows| {
      var h := rows[idx].entry.hash;
      if ReadManifest(s, h).Err? {
        assert Reached(rows, Keep(pass), idx, idx, limit, found);
      } else {
        var kept := pass(s[h]);
        var more := if kept then found + [rows[idx]] else found;
        if kept && |more| >= limit {
          FullPage(s, rows, Keep(pass), idx, limit, found);
        } else {
          ScanExact(s, rows, pass, idx + 1, limit, more);
          BrokenLater(s, rows, Keep(pass), idx, limit, found, more);
        }
      }
    }
  }

  lemma FilterFirst(rows: seq<Row>, keep: Row -> bool, idx: nat, i: nat)
    requires idx < i <= |rows|
    ensures Filter(rows[idx..i], keep) == (if keep(rows[idx]) then [rows[idx]] else []) + Filter(rows[idx + 1..i], keep)
  {
    assert rows[idx..i][0] == rows[idx] && rows[idx..i][1..] == rows[idx + 1..i];
  }

  lemma FullPage(s: Objects, rows: seq<Row>, keep: Row -> bool, idx: nat, limit: nat, found: seq<Row>)
    requires idx < |rows| && keep(rows[idx]) && |found| + 1 >= limit && ReadManifest(s, rows[idx].entry.hash).Ok?
    ensures !Broken(s, rows, keep, idx, limit, found)
  {
    forall i: nat | Reached(rows, keep, idx, i, limit, found) ensures i == idx {
      if i > idx {
        FilterFirst(rows, keep, idx, i);
      }
    }
  }

  lemma BrokenLater(s: Objects, rows: seq<Row>, keep: Row -> bool, idx: nat, limit: nat, found: seq<Row>,
                    more: seq<Row>)
    requires idx < |rows| && ReadManifest(s, rows[idx].entry.hash).Ok? && |found| < limit
    requires more == (if keep(rows[idx]) then found + [rows[idx]] else found) && (keep(rows[idx]) ==> |more| < limit)
    ensures Broken(s, rows, keep, idx + 1, limit, more) <==> Broken(s, rows, keep, idx, limit, found)
  {
    forall i | idx < i < |rows|
      ensures |found| + |Filter(rows[idx..i], keep)| == |more| + |Filter(rows[idx + 1..i], keep)|
    {
      FilterFirst(rows, keep, idx, i);
    }
    if Broken(s, rows, keep, idx, limit, found) {
      var i: nat :| Reached(rows, keep, idx, i, limit, found) && ReadManifest(s, rows[i].entry.hash).Err?;
      assert Reached(rows, keep, idx + 1, i, limit, more);
    }
    if Broken(s, rows, keep, idx + 1, limit, more) {
      var i: nat :| Reached(rows, keep, idx + 1, i, limit, more) && ReadManifest(s, rows[i].entry.hash).Err?;
      assert i == idx + 1 ==> rows[idx + 1..i] == [];
      assert Reached(rows, keep, idx, i, limit, found);
    }
  }

  /** The loop of `query`. */
  method QueryLoop(s: Objects, rows: seq<Row>, pass: Object -> bool, start: nat, limit: nat) returns (r: Result<Page>)
    ensures r == Scan(s, rows, pass, start, Clamp(limit), [])
  {
    var matches: seq<Row>, idx := [], start;
    while idx < |rows|
      invariant Scan(s, rows, pass, idx, Clamp(limit), matches) == Scan(s, rows, pass, start, Clamp(limit), [])
    {
      var h := rows[idx].entry.hash;
      if h !in s {
        return Err(NotFound);
      }
      if !s[h].ManifestObj? {
        return Err(Corrupt);
      }
      if pass(s[h]) {
        matches := matches + [rows[idx]];
        if |matches| >= Clamp(limit) {
          return Ok(Page(matches, if idx + 1 < |rows| then Some(idx + 1) else None));
        }
      }
      idx := idx + 1;
    }
    r := Ok(Page(matches, None));
  }

  /** The predicate of a query, as a predicate on rows. */
  function Keep(pass: Object -> bool): Row -> bool {
    (r: Row) => pass(r.entry.hash.obj)
  }

  // ---- The text of a cursor, inside its base64 ----

  function EncodeCursor(commit: Option<string>, offset: nat): string {
    (if commit.Some? then commit.value else "") + ['|'] + Decimal.Show(offset)
  }

  function DecodeCursor(s: string): Result<(Option<string>, nat)> {
    var i := Text.Find(s, '|');
    if i == |s| then Err(InvalidPath)
    else match Decimal.Read(s[i + 1..], Decimal.USIZE_MAX)
      case Bad => Err(InvalidPath)
      case Number(n) => Ok((if i == 0 then None else Some(s[..i]), n))
  }

  /** A cursor survives the round trip exactly when its commit text is non-empty and has no bar in it. */
  lemma CursorRoundTrip(commit: Option<string>, offset: nat)
    requires offset <= Decimal.USIZE_MAX
    ensures DecodeCursor(EncodeCursor(commit, offset)) == Ok((commit, offset)) <==>
            commit.None? || (commit.value != "" && '|' !in commit.value)
  {
    var c := if commit.Some? then commit.value else "";
    if '|' !in c {
      Text.FindIn(c, '|', Decimal.Show(offset));
      Decimal.ReadShow(offset, Decimal.USIZE_MAX);
    }
  }

  /** A cursor for a text with a bar is refused. */
  lemma BarredCursor(commit: string, offset: nat)
    requires '|' in commit
    ensures DecodeCursor(EncodeCursor(Some(commit), offset)) == Err(InvalidPath)
  {
    var s, i := EncodeCursor(Some(commit), offset), Text.Find(EncodeCursor(Some(commit), offset), '|');
    var j :| 0 <= j < |commit| && commit[j] == '|';
    assert forall l | 0 <= l < i :: s[l] == s[..i][l] && s[..i][l] in s[..i];
    assert s[j] == '|' && i <= j;
    assert s[|commit|] == '|' && s[i + 1..][|commit| - i - 1] == s[|commit|];
    BarIsBad(s[i + 1..], |commit| - i - 1);
  }

  lemma BarIsBad(text: string, j: nat)
    requires j < |text| && text[j] == '|'
    ensures Decimal.Read(text, Decimal.USIZE_MAX) == Decimal.Bad
  {
    var s := Decimal.Unsigned(text);
    assert s == text || (j > 0 && s[j - 1] == '|');
  }

  // ---- A query against a repository state ----

  /** `at`, the path prefix and the predicate of a query. */
  datatype Request = Request(at: Option<string>, prefix: string, pass: Object -> bool)

  datatype Answer = Answer(matches: seq<Row>, next: Option<string>)

  /** `resolve_at`: HEAD becomes a literal hash, everything else stays as written. */
  function ResolveAt(k: Digits, st: State, at: Option<string>): Option<string> {
    if at.Some? then at
    else match ResolveHead(st.refs, st.head)
      case None => None
      case Some(h) => Some(k.hex(h))
  }

  function CommitTree(s: Objects, c: Hash): Result<Hash> {
    if c !in s then Err(NotFound) else if !s[c].CommitObj? then Err(Corrupt) else Ok(s[c].tree)
  }

  /** The rows of a walk that are manifests under a prefix, sorted by path. */
  function Sorted(rows: seq<Row>, prefix: string): seq<Row> {
    RowsFor(Diff.Collect(rows), Listing(Shown(Diff.Collect(rows), prefix)))
  }

  /** The manifests of a tree under a prefix, sorted by path. */
  function Manifests(root: Hash, prefix: string): seq<Row> {
    Sorted(Rows([], List(Entry(Tree, root))), prefix)
  }

  function Shown(l: Diff.FlatListing, prefix: string): set<string> {
    set p | p in l && l[p].mode == Manifest && prefix <= p
  }

  function RowsFor(l: Diff.FlatListing, names: seq<string>): seq<Row>
    requires forall n | n in names :: n in l
  {
    seq(|names|, i requires 0 <= i < |names| => assert names[i] in names; Row(names[i], l[names[i]]))
  }

  /** The text that decides the commit, and the row to start at. */
  function StartOf(k: Digits, st: State, q: Request, cursor: Option<string>): Result<(Option<string>, nat)> {
    var resolved := ResolveAt(k, st, q.at);
    if cursor.None? then Ok((resolved, 0))
    else
      var start :- DecodeCursor(cursor.value);
      Ok((if start.0.Some? then start.0 else resolved, start.1))
  }

  function AnswerOf(p: Page, text: string): Answer {
    Answer(p.matches, if p.next.Some? then Some(EncodeCursor(Some(text), p.next.value)) else None)
  }

  /** One page at the commit that `text` means, from row `offset` on. */
  function PageOf(k: Digits, st: State, q: Request, text: string, offset: nat, limit: nat): Result<Answer> {
    var c :- Resolve(st.objects, st.refs, st.head, ReadRef(k, text));
    var root :- CommitTree(st.objects, c);
    var rows :- WalkIn(st.objects, root);
    var page :- Scan(st.objects, Sorted(rows, q.prefix), q.pass, offset, Clamp(limit), []);
    Ok(AnswerOf(page, text))
  }

  /** `query`. Without a commit there is nothing to show. */
  function Query(k: Digits, st: State, q: Request, cursor: Option<string>, limit: nat): Result<Answer> {
    var start :- StartOf(k, st, q, cursor);
    if start.0.None? then Ok(Answer([], None)) else PageOf(k, st, q, start.0.value, start.1, limit)
  }

  /** `query`, reading the trees and manifests from a store. */
  method RunQuery(k: Digits, store: ObjectStore, refs: RefMap, head: Head, q: Request, cursor: Option<string>,
                  limit: nat)
    returns (r: Result<Answer>)
    requires store.Valid()
    ensures r == Query(k, State(store.objects, refs, head, map[]), q, cursor, limit)
  {
    var st := State(store.objects, refs, head, map[]);
    var start :- StartOf(k, st, q, cursor);
    if start.0.None? {
      return Ok(Answer([], None));
    }
    var c :- Resolve(st.objects, refs, head, ReadRef(k, start.0.value));
    var root :- CommitTree(st.objects, c);
    var rows :- store.Walk(root);
    var page :- QueryLoop(st.objects, Sorted(rows, q.prefix), q.pass, start.1, limit);
    r := Ok(AnswerOf(page, start.0.value));
  }

  // ---- In a sound store a page can be read ----

  lemma RowsReadable(s: Objects, c: Hash, prefix: string, i: nat)
    requires SoundStore(s) && IsCommit(s, c) && i < |Manifests(s[c].tree, prefix)|
    ensures ReadManifest(s, Manifests(s[c].tree, prefix)[i].entry.hash).Ok?
  {
    var tree := s[c].tree;
    var row := Manifests(tree, prefix)[i];
    ManifestsExact(tree, prefix, row);
    Diff.ListingStored(s, c, row.path);
  }

  lemma ScanReads(s: Objects, c: Hash, q: Request, offset: nat, limit: nat)
    requires SoundStore(s) && IsCommit(s, c) && offset <= |Manifests(s[c].tree, q.prefix)| && limit > 0
    ensures Scan(s, Manifests(s[c].tree, q.prefix), q.pass, offset, limit, []) ==
            Ok(PageFrom(Manifests(s[c].tree, q.prefix), Keep(q.pass), offset, limit, []))
  {
    var rows := Manifests(s[c].tree, q.prefix);
    ScanExact(s, rows, q.pass, offset, limit, []);
    forall i: nat | Reached(rows, Keep(q.pass), offset, i, limit, []) ensures ReadManifest(s, rows[i].entry.hash).Ok? {
      RowsReadable(s, c, q.prefix, i);
    }
  }

  // ---- How many rows a page has ----

  /** Filtering keeps exactly the rows that pass, and their order. */
  lemma {:induction false} FilterExact(rows: seq<Row>, keep: Row -> bool)
    ensures forall r :: r in Filter(rows, keep) <==> r in rows && keep(r)
    ensures PathsAscend(rows) ==> PathsAscend(Filter(rows, keep))
  {
    if rows != [] {
      assert rows == [rows[0]] + rows[1..];
      FilterExact(rows[1..], keep);
      var rest := Filter(rows[1..], keep);
      if PathsAscend(rows) {
        assert PathsAscend(rows[1..]);
        forall r | r in rest ensures Less(rows[0].path, r.path) {
          var i :| 0 <= i < |rows[1..]| && rows[1..][i] == r;
          assert rows[i + 1] == r;
        }
      }
    }
  }

  ghost predicate PathsAscend(rows: seq<Row>) {
    forall i, j | 0 <= i < j < |rows| :: Less(rows[i].path, rows[j].path)
  }

  lemma ManifestsAscend(root: Hash, prefix: string)
    ensures PathsAscend(Manifests(root, prefix))
  {
    var rows := Manifests(root, prefix);
    if rows != [] {
      ManifestsExact(root, prefix, rows[0]);
    }
    var names := seq(|rows|, i requires 0 <= i < |rows| => rows[i].path);
    forall i, j | 0 <= i < j < |rows| ensures Less(rows[i].path, rows[j].path) {
      assert Less(names[i], names[j]);
    }
  }

  function Min(a: nat, b: nat): nat {
    if a < b then a else b
  }

  /**
   A page with a cursor is full and ends before the row the cursor points to; a full one without
   ends at the last row.
   */
  lemma {:induction false} PageFull(rows: seq<Row>, keep: Row -> bool, idx: nat, limit: nat, found: seq<Row>)
    requires idx <= |rows| && |found| < limit
    ensures var p := PageFrom(rows, keep, idx, limit, found);
            && |p.matches| <= limit
            && (p.next.Some? ==>
                  |p.matches| == limit && 0 < p.next.value < |rows| && p.matches[limit - 1] == rows[p.next.value - 1])
            && (p.next.None? && |p.matches| == limit ==> rows != [] && p.matches[limit - 1] == rows[|rows| - 1])
    decreases |rows| - idx
  {
    if idx < |rows| {
      var more := if keep(rows[idx]) then found + [rows[idx]] else found;
      if |more| < limit {
        PageFull(rows, keep, idx + 1, limit, more);
      }
    }
  }

  lemma PageSize(rows: seq<Row>, keep: Row -> bool, offset: nat, limit: nat)
    requires offset <= |rows| && limit > 0 && PathsAscend(rows)
    ensures var p, all := PageFrom(rows, keep, offset, limit, []), Filter(rows[offset..], keep);
            && |p.matches| == Min(limit, |all|)
            && p.matches == all[..|p.matches|]
            && (p.next.Some? <==> |p.matches| == limit && p.matches[limit - 1] != rows[|rows| - 1])
            && (p.next.Some? ==> 0 < p.next.value < |rows| && p.matches[limit - 1] == rows[p.next.value - 1])
  {
    WholePage(rows, keep, offset, limit);
    PageFull(rows, keep, offset, limit, []);
    var p := PageFrom(rows, keep, offset, limit, []);
    if p.next.Some? {
      assert Less(rows[p.next.value - 1].path, rows[|rows| - 1].path);
      LessTrichotomy(rows[|rows| - 1].path, rows[|rows| - 1].path);
    }
  }

  /**
   The page holds the first of the matching rows `all`, as many as there are up to `n`. It has
   a cursor exactly when it is full and its last match is not the last of the `rows`; the
   cursor then points to the row after that match.
   */
  ghost predicate ExactPage(a: Answer, rows: seq<Row>, all: seq<Row>, n: nat, text: string) {
    && |a.matches| == (if n < |all| then n else |all|)
    && a.matches == all[..|a.matches|]
    && (a.next.Some? <==> |a.matches| == n > 0 && |rows| > 0 && a.matches[n - 1] != rows[|rows| - 1])
    && (a.next.Some? ==>
          exists i :: 0 < i < |rows| && a.matches[n - 1] == rows[i - 1] && a.next == Some(EncodeCursor(Some(text), i)))
  }

  lemma ExactAnswer(rows: seq<Row>, keep: Row -> bool, offset: nat, n: nat, text: string)
    requires offset <= |rows| && n > 0 && PathsAscend(rows)
    ensures ExactPage(AnswerOf(PageFrom(rows, keep, offset, n, []), text), rows, Filter(rows[offset..], keep), n, text)
  {
    PageSize(rows, keep, offset, n);
    var p := PageFrom(rows, keep, offset, n, []);
    PageFull(rows, keep, offset, n, []);
    assert p.next.Some? ==> p.matches[n - 1] == rows[p.next.value - 1];
  }

  /** In a sound store, a page from row `offset` on is exact for the limit, brought between 1 and 1000. */
  lemma QueryExact(k: Digits, st: State, q: Request, cursor: Option<string>, limit: nat, text: string, c: Hash,
                   tree: Hash, offset: nat)
    requires ReadsFrom(k, st, q, cursor, text, offset) && AnchoredAt(st, ReadRef(k, text), c, tree)
    requires offset <= |Manifests(tree, q.prefix)|
    ensures var r, rows := Query(k, st, q, cursor, limit), Manifests(tree, q.prefix);
            && r.Ok?
            && ExactPage(r.value, rows, Filter(rows[offset..], Keep(q.pass)),
                         if limit == 0 then 1 else if limit > 1000 then 1000 else limit, text)
  {
    ManifestsAscend(tree, q.prefix);
    QueryReads(k, st, q, cursor, limit, text, c, tree, offset);
    ExactAnswer(Manifests(tree, q.prefix), Keep(q.pass), offset, Clamp(limit), text);
  }

  /** The rows of a page are manifests of the commit under the prefix that pass the predicate, in ascending order. */
  lemma QueryRows(k: Digits, st: State, q: Request, cursor: Option<string>, limit: nat, text: string, c: Hash,
                  tree: Hash, offset: nat, row: Row)
    requires ReadsFrom(k, st, q, cursor, text, offset) && AnchoredAt(st, ReadRef(k, text), c, tree)
    requires offset <= |Manifests(tree, q.prefix)|
    ensures var rows := Manifests(tree, q.prefix);
            && (row in Filter(rows[offset..], Keep(q.pass)) <==> row in rows[offset..] && q.pass(row.entry.hash.obj))
            && PathsAscend(Filter(rows[offset..], Keep(q.pass)))
            && (row in rows ==> row.entry.hash in st.objects && st.objects[row.entry.hash] == row.entry.hash.obj)
  {
    var rows := Manifests(tree, q.prefix);
    ManifestsAscend(tree, q.prefix);
    FilterExact(rows[offset..], Keep(q.pass));
    if row in rows {
      var i :| 0 <= i < |rows| && rows[i] == row;
      RowsReadable(st.objects, c, q.prefix, i);
    }
  }

  // ---- Following cursors ----

  /**
   The pages fetched one after another, each with the cursor of the page before it and
   its own limit, in whatever states the repository is by then. It stops at the first
   page without a cursor, at the first error, or when the states are used up.
   */
  function Fetch(k: Digits, states: seq<State>, q: Request, limits: seq<nat>,
                 cursor: Option<string>): Result<seq<Answer>>
    requires |states| == |limits|
    decreases |states|
  {
    if states == [] then Ok([])
    else
      var a :- Query(k, states[0], q, cursor, limits[0]);
      if a.next.None? then Ok([a])
      else
        var rest :- Fetch(k, states[1..], q, limits[1..], a.next);
        Ok([a] + rest)
  }

  predicate Ended(answers: seq<Answer>) {
    answers != [] && answers[|answers| - 1].next.None?
  }

  function Concat(answers: seq<Answer>): seq<Row> {
    if answers == [] then [] else answers[0].matches + Concat(answers[1..])
  }

  /** The row a cursor points to. */
  function OffsetOf(cursor: string): nat {
    var c := DecodeCursor(cursor);
    if c.Ok? then c.value.1 else 0
  }

  /** Where the next page would go on, the first one being asked for from `offset`; `row` is what a cursor points to. */
  function Resume(row: string -> nat, answers: seq<Answer>, offset: nat, end: nat): nat {
    if answers == [] then offset
    else if Ended(answers) then end
    else row(answers[|answers| - 1].next.value)
  }

  /** The expression means one commit of a sound store, with one tree, in all these states. */
  ghost predicate Anchored(states: seq<State>, x: RefExpr, c: Hash, tree: Hash) {
    forall i | 0 <= i < |states| :: AnchoredAt(states[i], x, c, tree)
  }

  ghost predicate AnchoredAt(st: State, x: RefExpr, c: Hash, tree: Hash) {
    && SoundStore(st.objects)
    && Resolve(st.objects, st.refs, st.head, x) == Ok(c)
    && CommitTree(st.objects, c) == Ok(tree)
  }

  /** The cursor, or its absence, makes a page start at row `offset` of what `text` means. */
  ghost predicate ReadsFrom(k: Digits, st: State, q: Request, cursor: Option<string>, text: string, offset: nat) {
    StartOf(k, st, q, cursor) == Ok((Some(text), offset))
  }

  /** The text of the request, or of a commit; an empty one is not carried by cursors but asked for again. */
  predicate Follows(q: Request, text: string) {
    text == "" ==> q.at == Some("")
  }

  lemma QueryReads(k: Digits, st: State, q: Request, cursor: Option<string>, limit: nat, text: string, c: Hash,
                   tree: Hash, offset: nat)
    requires ReadsFrom(k, st, q, cursor, text, offset) && AnchoredAt(st, ReadRef(k, text), c, tree)
    requires offset <= |Manifests(tree, q.prefix)|
    ensures Query(k, st, q, cursor, limit) ==
            Ok(AnswerOf(PageFrom(Manifests(tree, q.prefix), Keep(q.pass), offset, Clamp(limit), []), text))
  {
    var s := st.objects;
    assert Sound(s, s[c]);
    SoundReadable(s, Entry(Tree, tree));
    WalkInReadable(s, tree);
    ScanReads(s, c, q, offset, Clamp(limit));
  }

  /** The cursor of a page leads on to the row after it, unless the text has a bar in it. */
  lemma CursorLeads(k: Digits, st: State, q: Request, text: string, offset: nat)
    requires '|' !in text && Follows(q, text) && offset <= Decimal.USIZE_MAX
    ensures ReadsFrom(k, st, q, Some(EncodeCursor(Some(text), offset)), text, offset)
    ensures OffsetOf(EncodeCursor(Some(text), offset)) == offset
  {
    Text.FindIn(text, '|', Decimal.Show(offset));
    Decimal.ReadShow(offset, Decimal.USIZE_MAX);
  }

  /** What the fetched pages and the rows still to come make up, and how many pages there can be. */
  ghost predicate Progress(row: string -> nat, answers: seq<Answer>, rows: seq<Row>, keep: Row -> bool, offset: nat,
                           pages: nat) {
    && offset <= |rows| && Resume(row, answers, offset, |rows|) <= |rows|
    && Concat(answers) + Filter(rows[Resume(row, answers, offset, |rows|)..], keep) == Filter(rows[offset..], keep)
    && (!Ended(answers) ==> |answers| == pages && offset + |answers| <= Resume(row, answers, offset, |rows|))
    && (!Ended(answers) && answers != [] ==> Resume(row, answers, offset, |rows|) < |rows|)
    && (Ended(answers) ==> offset + |answers| <= |rows| + 1)
  }

  /** A page that holds all the rows still to come, or the next ones and a cursor to the rest. */
  ghost predicate IsPage(k: Digits, q: Request, text: string, rows: seq<Row>, offset: nat, a: Answer)
    requires offset <= |rows|
  {
    if a.next.None? then a.matches == Filter(rows[offset..], Keep(q.pass))
    else
      var row := OffsetOf(a.next.value);
      && offset < row < |rows|
      && a.matches + Filter(rows[row..], Keep(q.pass)) == Filter(rows[offset..], Keep(q.pass))
      && forall st :: ReadsFrom(k, st, q, a.next, text, row)
  }

  lemma QueryPage(k: Digits, st: State, q: Request, cursor: Option<string>, limit: nat, text: string, c: Hash,
                  tree: Hash, offset: nat)
    requires ReadsFrom(k, st, q, cursor, text, offset) && AnchoredAt(st, ReadRef(k, text), c, tree)
    requires '|' !in text && Follows(q, text) && offset <= |Manifests(tree, q.prefix)| <= Decimal.USIZE_MAX
    ensures var r := Query(k, st, q, cursor, limit);
            r.Ok? && IsPage(k, q, text, Manifests(tree, q.prefix), offset, r.value)
  {
    var rows, keep := Manifests(tree, q.prefix), Keep(q.pass);
    QueryReads(k, st, q, cursor, limit, text, c, tree, offset);
    WholePage(rows, keep, offset, Clamp(limit));
    PageLeads(k, q, text, rows, offset, PageFrom(rows, keep, offset, Clamp(limit), []));
  }

  lemma PageLeads(k: Digits, q: Request, text: string, rows: seq<Row>, offset: nat, p: Page)
    requires '|' !in text && Follows(q, text) && offset <= |rows| <= Decimal.USIZE_MAX
    requires p.next.None? ==> p.matches == Filter(rows[offset..], Keep(q.pass))
    requires p.next.Some? ==>
               && offset < p.next.value < |rows|
               && p.matches + Filter(rows[p.next.value..], Keep(q.pass)) == Filter(rows[offset..], Keep(q.pass))
    ensures IsPage(k, q, text, rows, offset, AnswerOf(p, text))
  {
    if p.next.Some? {
      forall st ensures ReadsFrom(k, st, q, Some(EncodeCursor(Some(text), p.next.value)), text, p.next.value) {
        CursorLeads(k, st, q, text, p.next.value);
      }
      CursorLeads(k, INIT, q, text, p.next.value);
    }
  }

  lemma {:induction false} FetchFrom(k: Digits, states: seq<State>, q: Request, limits: seq<nat>,
                                     cursor: Option<string>, text: string, c: Hash, tree: Hash, offset: nat)
    requires |states| == |limits| && Anchored(states, ReadRef(k, text), c, tree) && '|' !in text && Follows(q, text)
    requires offset <= |Manifests(tree, q.prefix)| <= Decimal.USIZE_MAX
    requires states != [] ==> ReadsFrom(k, states[0], q, cursor, text, offset)
    ensures Fetch(k, states, q, limits, cursor).Ok?
    ensures Progress(OffsetOf, Fetch(k, states, q, limits, cursor).value, Manifests(tree, q.prefix), Keep(q.pass),
                     offset,
                     |states|)
    decreases |states|
  {
    var rows, keep := Manifests(tree, q.prefix), Keep(q.pass);
    if states != [] {
      assert AnchoredAt(states[0], ReadRef(k, text), c, tree);
      QueryPage(k, states[0], q, cursor, limits[0], text, c, tree, offset);
      var a := Query(k, states[0], q, cursor, limits[0]).value;
      if a.next.None? {
        OnePage(OffsetOf, a, rows, keep, offset, |states|);
      } else {
        AnchoredLater(states, ReadRef(k, text), c, tree);
        FetchFrom(k, states[1..], q, limits[1..], a.next, text, c, tree, OffsetOf(a.next.value));
        MorePages(OffsetOf, a, Fetch(k, states[1..], q, limits[1..], a.next).value, rows, keep, offset, |states|);
      }
    }
  }

  lemma AnchoredLater(states: seq<State>, x: RefExpr, c: Hash, tree: Hash)
    requires states != [] && Anchored(states, x, c, tree)
    ensures Anchored(states[1..], x, c, tree)
  {
    assert forall i | 0 <= i < |states| - 1 :: states[1..][i] == states[i + 1];
  }

  lemma OnePage(row: string -> nat, a: Answer, rows: seq<Row>, keep: Row -> bool, offset: nat, pages: nat)
    requires a.next.None? && offset <= |rows| && a.matches == Filter(rows[offset..], keep)
    ensures Progress(row, [a], rows, keep, offset, pages)
  {
    assert [a][1..] == [] && rows[|rows|..] == [];
    assert a.matches + [] + [] == a.matches;
  }

  lemma MorePages(row: string -> nat, a: Answer, rest: seq<Answer>, rows: seq<Row>, keep: Row -> bool, offset: nat,
                  pages: nat)
    requires pages > 0 && a.next.Some? && offset < row(a.next.value) < |rows|
    requires a.matches + Filter(rows[row(a.next.value)..], keep) == Filter(rows[offset..], keep)
    requires Progress(row, rest, rows, keep, row(a.next.value), pages - 1)
    ensures Progress(row, [a] + rest, rows, keep, offset, pages)
  {
    var next := row(a.next.value);
    ResumeMore(row, a, rest, offset, |rows|);
    ConcatMore(a, rest, Filter(rows[Resume(row, rest, next, |rows|)..], keep));
  }

  lemma ResumeMore(row: string -> nat, a: Answer, rest: seq<Answer>, offset: nat, end: nat)
    requires a.next.Some?
    ensures Ended([a] + rest) <==> Ended(rest)
    ensures Resume(row, [a] + rest, offset, end) == Resume(row, rest, row(a.next.value), end)
  {
    assert rest != [] ==> ([a] + rest)[|rest|] == rest[|rest| - 1];
  }

  lemma ConcatMore(a: Answer, rest: seq<Answer>, left: seq<Row>)
    ensures Concat([a] + rest) + left == a.matches + (Concat(rest) + left)
  {
    assert ([a] + rest)[1..] == rest;
  }

  /** With a bar in the text only the first page can be had. */
  lemma FetchBarred(k: Digits, states: seq<State>, q: Request, limits: seq<nat>, text: string, c: Hash, tree: Hash)
    requires |states| == |limits| > 0 && AnchoredAt(states[0], ReadRef(k, text), c, tree) && '|' in text
    requires ReadsFrom(k, states[0], q, None, text, 0)
    ensures var first := PageFrom(Manifests(tree, q.prefix), Keep(q.pass), 0, Clamp(limits[0]), []);
            Fetch(k, states, q, limits, None) ==
            if first.next.None? || |states| == 1 then Ok([AnswerOf(first, text)]) else Err(InvalidPath)
  {
    QueryReads(k, states[0], q, None, limits[0], text, c, tree, 0);
    var first := PageFrom(Manifests(tree, q.prefix), Keep(q.pass), 0, Clamp(limits[0]), []);
    if first.next.Some? {
      BarredCursor(text, first.next.value);
      assert |states| == 1 ==> states[1..] == [];
      assert [AnswerOf(first, text)] + [] == [AnswerOf(first, text)];
    }
  }

  // ---- Which requests are pinned to a snapshot ----

  const HEADS := "refs/heads/"

  /** A branch that `checkout` can attach HEAD to: its name has no slash and does not read as a hash. */
  predicate Attachable(r: string) {
    HEADS <= r && '/' !in r[|HEADS|..] && Hex.Decode(r[|HEADS|..]).None?
  }

  function RefNamed(n: string): string {
    if "refs/" <= n then n else BranchRef(n)
  }

  /** The expression follows HEAD or a branch that commits can move. */
  predicate Movable(x: RefExpr) {
    x.base.Named? && (x.base.name == "HEAD" || Attachable(RefNamed(x.base.name)))
  }

  /** HEAD by default, a literal hash with or without `~n`, or a ref that no commit can move. */
  predicate Pinned(k: Digits, q: Request) {
    q.at.Some? ==> !Movable(ReadRef(k, q.at.value))
  }

  ghost predicate HeadAttached(st: State) {
    st.head.OnBranch? ==> Attachable(st.head.ref)
  }

  lemma BranchName(n: string)
    ensures HEADS <= BranchRef(n) && BranchRef(n)[|HEADS|..] == n
  {
  }

  lemma HeadStays(st: State, ev: Event)
    requires HeadAttached(st) && Possible(st, ev) && Expressible(ev)
    ensures HeadAttached(Next(st, ev))
    ensures forall r | r in st.refs && !Attachable(r) :: r in Next(st, ev).refs && Next(st, ev).refs[r] == st.refs[r]
  {
    if ev.Checkout? && Attaches(st, ev.target) {
      BranchName(ev.target.base.name);
    }
  }

  lemma {:induction false} FixedRefs(st: State, events: seq<Event>, i: nat, j: nat)
    requires Legal(st, events) && HeadAttached(st) && i <= j <= |events|
    ensures HeadAttached(Runs.Now(st, events, j))
    ensures forall r | r in Runs.Now(st, events, i).refs && !Attachable(r) ::
              r in Runs.Now(st, events, j).refs && Runs.Now(st, events, j).refs[r] == Runs.Now(st, events, i).refs[r]
    decreases j, i
  {
    if j == 0 {
      assert events[..0] == [];
    } else if i == j {
      FixedRefs(st, events, j - 1, j - 1);
      NowStep(st, events, j - 1);
      HeadStays(Runs.Now(st, events, j - 1), events[j - 1]);
    } else {
      FixedRefs(st, events, i, j - 1);
      NowStep(st, events, j - 1);
      HeadStays(Runs.Now(st, events, j - 1), events[j - 1]);
    }
  }

  /** What an expression that is not movable means does not change during a run. */
  lemma AnchorStays(st: State, events: seq<Event>, i: nat, j: nat, x: RefExpr, c: Hash, tree: Hash)
    requires Legal(st, events) && Inv(st) && HeadAttached(st) && i <= j <= |events| && !Movable(x)
    requires AnchoredAt(Runs.Now(st, events, i), x, c, tree)
    ensures AnchoredAt(Runs.Now(st, events, j), x, c, tree)
  {
    var a, b := Runs.Now(st, events, i), Runs.Now(st, events, j);
    InvThroughout(st, events, i);
    InvThroughout(st, events, j);
    ForwardThroughout(st, events, i, j);
    FixedRefs(st, events, i, j);
    var start := ResolveBase(a.refs, a.head, x.base).value;
    AncestorGrows(a.objects, b.objects, start, if x.back.Some? then x.back.value else 0);
  }

  ghost function StatesAt(st: State, events: seq<Event>, at: seq<nat>): seq<State>
    requires Legal(st, events) && forall i | 0 <= i < |at| :: at[i] <= |events|
  {
    seq(|at|, i requires 0 <= i < |at| => Runs.Now(st, events, at[i]))
  }

  /** The text that a pinned request starts from is pinned too. */
  lemma PinnedText(k: Digits, st: State, q: Request, text: string)
    requires Faithful(k) && Pinned(k, q) && ResolveAt(k, st, q.at) == Some(text)
    ensures !Movable(ReadRef(k, text)) && Follows(q, text) && (q.at.None? ==> '|' !in text)
  {
    if q.at.None? {
      ReadHex(k, ResolveHead(st.refs, st.head).value);
    }
  }

  /** HEAD's commit is what its hexadecimal form means, provided that form reads back. */
  lemma HeadAnchored(k: Digits, st: State, q: Request, h: Hash)
    requires Faithful(k) && k.unhex(k.hex(h)) == Some(h) && Inv(st) && q.at.None?
             && ResolveHead(st.refs, st.head) == Some(h)
    ensures ResolveAt(k, st, q.at) == Some(k.hex(h)) && AnchoredAt(st, ReadRef(k, k.hex(h)), h, st.objects[h].tree)
  {
    ReadHex(k, h);
  }

  /**
   Pagination: for HEAD by default, a literal hash with or without `~n`, or a ref that no
   commit can move, pages are fetched with any limits at any moments of any run. Every
   page succeeds if and only if the text has no bar in it or no second page is needed; the
   pages so far and the rows still to come are then exactly the sorted, filtered listing of
   the first snapshot; and at the latest after one page per row there is no cursor any more.
   */
  lemma PagesAreSnapshot(k: Digits, st: State, events: seq<Event>, at: seq<nat>, q: Request, limits: seq<nat>,
                         text: string, c: Hash, tree: Hash)
    requires Faithful(k) && Legal(st, events) && Inv(st) && HeadAttached(st) && Pinned(k, q)
    requires |at| == |limits| > 0 && (forall i | 0 <= i < |at| :: at[0] <= at[i] <= |events|)
    requires ResolveAt(k, Runs.Now(st, events, at[0]), q.at) == Some(text)
    requires AnchoredAt(Runs.Now(st, events, at[0]), ReadRef(k, text), c, tree)
    requires |Manifests(tree, q.prefix)| <= Decimal.USIZE_MAX
    ensures var r := Fetch(k, StatesAt(st, events, at), q, limits, None);
            var rows, keep := Manifests(tree, q.prefix), Keep(q.pass);
            var first := PageFrom(rows, keep, 0, Clamp(limits[0]), []);
            && (r.Ok? <==> '|' !in text || first.next.None? || |at| == 1)
            && (r.Err? ==> r.error == InvalidPath)
            && (r.Ok? && Ended(r.value) ==> Concat(r.value) == Filter(rows, keep) && |r.value| <= |rows| + 1)
            && (r.Ok? && '|' !in text ==>
                  && Resume(OffsetOf, r.value, 0, |rows|) <= |rows|
                  && Concat(r.value) + Filter(rows[Resume(OffsetOf, r.value, 0, |rows|)..], keep) == Filter(rows, keep)
                  && (|at| >= |rows| ==> Ended(r.value)))
  {
    var states := StatesAt(st, events, at);
    PinnedText(k, states[0], q, text);
    if '|' in text {
      BarredPages(k, states, q, limits, text, c, tree);
    } else {
      forall i | 0 <= i < |states| ensures AnchoredAt(states[i], ReadRef(k, text), c, tree) {
        AnchorStays(st, events, at[0], at[i], ReadRef(k, text), c, tree);
      }
      UnbarredPages(k, states, q, limits, text, c, tree);
    }
  }

  lemma BarredPages(k: Digits, states: seq<State>, q: Request, limits: seq<nat>, text: string, c: Hash, tree: Hash)
    requires |states| == |limits| > 0 && AnchoredAt(states[0], ReadRef(k, text), c, tree) && '|' in text
    requires ReadsFrom(k, states[0], q, None, text, 0)
    ensures var r, rows, keep := Fetch(k, states, q, limits, None), Manifests(tree, q.prefix), Keep(q.pass);
            && (r.Ok? <==> PageFrom(rows, keep, 0, Clamp(limits[0]), []).next.None? || |states| == 1)
            && (r.Err? ==> r.error == InvalidPath)
            && (r.Ok? && Ended(r.value) ==> Concat(r.value) == Filter(rows, keep) && |r.value| <= |rows| + 1)
  {
    var rows, keep := Manifests(tree, q.prefix), Keep(q.pass);
    FetchBarred(k, states, q, limits, text, c, tree);
    WholePage(rows, keep, 0, Clamp(limits[0]));
    SinglePage(AnswerOf(PageFrom(rows, keep, 0, Clamp(limits[0]), []), text), rows, keep);
  }

  lemma SinglePage(a: Answer, rows: seq<Row>, keep: Row -> bool)
    requires a.next.None? ==> a.matches == Filter(rows[0..], keep)
    ensures Ended([a]) ==> Concat([a]) == Filter(rows, keep)
  {
    assert [a][1..] == [] && Concat([a]) == a.matches + [] == a.matches && rows[0..] == rows;
  }

  lemma UnbarredPages(k: Digits, states: seq<State>, q: Request, limits: seq<nat>, text: string, c: Hash, tree: Hash)
    requires |states| == |limits| > 0 && Anchored(states, ReadRef(k, text), c, tree) && '|' !in text && Follows(q, text)
    requires |Manifests(tree, q.prefix)| <= Decimal.USIZE_MAX && ReadsFrom(k, states[0], q, None, text, 0)
    ensures var r, rows, keep := Fetch(k, states, q, limits, None), Manifests(tree, q.prefix), Keep(q.pass);
            && r.Ok?
            && (Ended(r.value) ==> Concat(r.value) == Filter(rows, keep) && |r.value| <= |rows| + 1)
            && Resume(OffsetOf, r.value, 0, |rows|) <= |rows|
            && Concat(r.value) + Filter(rows[Resume(OffsetOf, r.value, 0, |rows|)..], keep) == Filter(rows, keep)
            && (|states| >= |rows| ==> Ended(r.value))
  {
    FetchFrom(k, states, q, limits, None, text, c, tree, 0);
    AllPages(OffsetOf, Fetch(k, states, q, limits, None).value, Manifests(tree, q.prefix), Keep(q.pass), |states|);
  }

  lemma AllPages(row: string -> nat, r: seq<Answer>, rows: seq<Row>, keep: Row -> bool, pages: nat)
    requires pages > 0 && Progress(row, r, rows, keep, 0, pages)
    ensures Ended(r) ==> Concat(r) == Filter(rows, keep) && |r| <= |rows| + 1
    ensures Resume(row, r, 0, |rows|) <= |rows|
    ensures Concat(r) + Filter(rows[Resume(row, r, 0, |rows|)..], keep) == Filter(rows, keep)
    ensures pages >= |rows| ==> Ended(r)
  {
    assert rows[0..] == rows && rows[|rows|..] == [] && Concat(r) + [] == Concat(r);
  }

  /** The listing is sorted by path and holds exactly the manifests under the prefix. */
  lemma ManifestsExact(root: Hash, prefix: string, r: Row)
    ensures Ascending(seq(|Manifests(root, prefix)|,
                          i requires 0 <= i < |Manifests(root, prefix)| => Manifests(root, prefix)[i].path))
    ensures r in Manifests(root, prefix) <==>
            r.path in Diff.ListingOf(root) && Diff.ListingOf(root)[r.path] == r.entry && r.entry.mode == Manifest
                && prefix <= r.path
  {
    var l := Diff.ListingOf(root);
    var names := Listing(Shown(l, prefix));
    var rows := Manifests(root, prefix);
    assert seq(|rows|, i requires 0 <= i < |rows| => rows[i].path) == names;
    if r.path in names && l[r.path] == r.entry {
      var i :| 0 <= i < |names| && names[i] == r.path;
      assert rows[i] == r;
    }
  }
}
