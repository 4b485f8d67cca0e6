/**
 Which paths can be staged (`validate_path`, crates/omp-core/src/api.rs:2695-2711), and
 how a file is cut into chunks (crates/omp-core/src/api.rs:547-637).
 */
module ValidPaths {
  import opened Objects
  import opened Paths
  import opened Walk
  import opened States

  /** A component is a name that can be inserted, up to the zero character. */
  lemma NameIff(n: string)
    ensures ValidName(n) <==> Component(n) && '\0' !in n
  {
  }

  lemma {:induction false} TrimEndSlashes(s: string)
    requires forall i | 0 <= i < |s| - 1 :: !(s[i] == '/' && s[i + 1] == '/')
    requires s != "" && s[0] != '/'
    ensures s == TrimEnd(s) || s == TrimEnd(s) + "/"
  {
    var n := |s| - 1;
    if s[n] == '/' {
      assert n > 0 && s[n - 1] != '/';
      assert s[..n][n - 1] == s[n - 1] && s == s[..n] + "/";
    }
  }

  /** The path of a text that can be staged. */
  ghost predicate Names(path: string, p: Path) {
    p != [] && Components(p) && p[0] != ".omp" && (path == Join(p) || path == Join(p) + "/")
  }

  lemma ValidNames(path: string)
    requires ValidPath(path)
    ensures Names(path, Split(path).value)
  {
    var t, p := TrimEnd(path), Split(path).value;
    ValidPathNonEmpty(path);
    assert TrimStart(path) == path;
    PiecesJoin(t);
    TrimEndSlashes(path);
    assert p == Pieces(t);
    FirstPiece(path, p);
  }

  lemma FirstOfJoin(p: Path)
    requires p != []
    ensures Join(p) == p[0] || (p[0] + "/") <= Join(p)
  {
  }

  lemma NamesValid(path: string, p: Path)
    requires Names(path, p)
    ensures ValidPath(path) && Split(path) == Ok(p)
  {
    var t := Join(p);
    JoinPieces(p);
    JoinNoDouble(p);
    FirstOfJoin(p);
    assert TrimStart(path) == path;
    TrimmedOnce(t);
    assert TrimEnd(path) == t;
    FirstPiece(path, p);
  }

  lemma TrimmedOnce(t: string)
    requires t != "" && t[|t| - 1] != '/'
    ensures TrimEnd(t) == t && TrimEnd(t + "/") == t
  {
    assert (t + "/")[..|t|] == t;
  }

  /** The first component is the first piece of the text. */
  lemma PieceBefore(path: string, n: string)
    requires '/' !in n && (path == n || (n + "/") <= path)
    ensures Pieces(path)[0] == n
  {
    if path == n {
      PiecesOne(n);
    } else {
      assert path == n + "/" + path[|n| + 1..];
      PiecesSlash(n, path[|n| + 1..]);
    }
  }

  lemma FirstPiece(path: string, p: Path)
    requires p != [] && Components(p) && (path == Join(p) || path == Join(p) + "/")
    ensures ".omp/" <= path || path == ".omp" <==> p[0] == ".omp"
  {
    FirstOfJoin(p);
    PieceBefore(path, p[0]);
    if ".omp/" <= path || path == ".omp" {
      assert ".omp" + "/" == ".omp/";
      PieceBefore(path, ".omp");
    }
  }

  /**
   A text can be staged exactly when it is the text of a path of components, with at most
   one slash after it, that does not begin at `.omp`.
   */
  lemma ValidPathIff(path: string)
    ensures ValidPath(path) <==> exists p :: Names(path, p)
    ensures forall p | Names(path, p) :: Split(path) == Ok(p)
  {
    if ValidPath(path) {
      ValidNames(path);
    }
    forall p | Names(path, p) ensures ValidPath(path) && Split(path) == Ok(p) {
      NamesValid(path, p);
    }
  }

  /** Every chunk of a file has the chunk size, but for the last one, which is not empty, and says its length. */
  lemma {:induction false} ChunkSizes(bytes: seq<Byte>, size: nat, i: nat)
    requires size > 0 && i < |ChunkList(bytes, size)|
    ensures var cs := ChunkList(bytes, size);
            && cs[i].hash.obj.BlobObj? && cs[i].hash.obj.payload.Plain?
            && cs[i].length == |cs[i].hash.obj.payload.bytes|
            && if i < |cs| - 1 then cs[i].length == size else 0 < cs[i].length <= size
    decreases |bytes|
  {
    var k := if size <= |bytes| then size else |bytes|;
    if i > 0 {
      ChunkSizes(bytes[k..], size, i - 1);
    }
  }

  /** A file is stored in chunks exactly when it is at least as long as one. */
  lemma ChunkedIff(bytes: seq<Byte>, size: nat)
    requires size > 0
    ensures SourceOf(bytes, size).obj == if |bytes| >= size then ChunksObj(ChunkList(bytes, size))
            else BlobObj(Plain(bytes))
  {
  }
}
