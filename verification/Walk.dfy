/**
 The depth-first listing of a tree (`walk`, crates/omp-core/src/paths.rs:222-256)
 and the slash-separated form of paths (`split`, same file, 14-26).
 */
module Walk {
  import opened Objects
  import opened Order
  import opened Paths

  datatype Item = Item(path: Path, entry: Entry)

  function Under(n: string, items: seq<Item>): seq<Item> {
    seq(|items|, i requires 0 <= i < |items| => Item([n] + items[i].path, items[i].entry))
  }

  function List(e: Entry): seq<Item>
    decreases e
  {
    if e.mode != Tree then [Item([], e)] else ListNames(e, Listing(Children(e).Keys))
  }

  function ListNames(e: Entry, names: seq<string>): seq<Item>
    requires forall n | n in names :: n in Children(e)
    decreases e, |names|
  {
    if names == [] then []
    else Under(names[0], List(Children(e)[names[0]])) + ListNames(e, names[1..])
  }

  /** The listing holds exactly the leaves. */
  lemma {:induction false} ListExact(e: Entry, x: Item)
    ensures x in List(e) <==> Leaf(e, x.path) == Some(x.entry)
    decreases e
  {
    if e.mode != Tree {
      assert x.path != [] ==> Find(e, x.path) == None;
    } else {
      ListNamesExact(e, Listing(Children(e).Keys), x);
    }
  }

  lemma {:induction false} ListNamesExact(e: Entry, names: seq<string>, x: Item)
    requires e.mode == Tree && forall n | n in names :: n in Children(e)
    ensures x in ListNames(e, names) <==> x.path != [] && x.path[0] in names && Leaf(e, x.path) == Some(x.entry)
    decreases e, |names|
  {
    if names != [] {
      var n := names[0];
      var sub := List(Children(e)[n]);
      ListNamesExact(e, names[1..], x);
      if x.path != [] && x.path[0] == n {
        ListExact(Children(e)[n], Item(x.path[1..], x.entry));
        assert x in Under(n, sub) <==> Item(x.path[1..], x.entry) in sub by {
          if Item(x.path[1..], x.entry) in sub {
            var i :| 0 <= i < |sub| && sub[i] == Item(x.path[1..], x.entry);
            assert Under(n, sub)[i] == x;
          }
        }
      }
    }
  }

  ghost predicate InOrder(items: seq<Item>) {
    forall i, j | 0 <= i < j < |items| :: PathLess(items[i].path, items[j].path)
  }

  /** The listing is strictly ascending by components, so no leaf comes twice. */
  lemma {:induction false} ListInOrder(e: Entry)
    ensures InOrder(List(e))
    decreases e
  {
    if e.mode == Tree {
      ListNamesInOrder(e, Listing(Children(e).Keys));
    }
  }

  lemma {:induction false} ListNamesInOrder(e: Entry, names: seq<string>)
    requires e.mode == Tree && (forall n | n in names :: n in Children(e)) && Ascending(names)
    ensures InOrder(ListNames(e, names))
    decreases e, |names|
  {
    if names != [] {
      var n := names[0];
      var here, rest := Under(n, List(Children(e)[n])), ListNames(e, names[1..]);
      ListInOrder(Children(e)[n]);
      ListNamesInOrder(e, names[1..]);
      forall x | x in rest ensures x.path != [] && Less(n, x.path[0]) {
        ListNamesExact(e, names[1..], x);
      }
      forall i, j | 0 <= i < j < |here + rest| ensures PathLess((here + rest)[i].path, (here + rest)[j].path) {
        if j < |here| {
          assert here[i].path[1..] == List(Children(e)[n])[i].path;
          assert here[j].path[1..] == List(Children(e)[n])[j].path;
        } else {
          assert (here + rest)[j] in rest;
        }
      }
    }
  }

  // ---- Slash-separated paths ----

  function TrimStart(s: string): string {
    if s != [] && s[0] == '/' then TrimStart(s[1..]) else s
  }

  function TrimEnd(s: string): string {
    if s != [] && s[|s| - 1] == '/' then TrimEnd(s[..|s| - 1]) else s
  }

  /** `str::split('/')`. */
  function Pieces(s: string): (r: seq<string>)
    ensures |r| >= 1
  {
    if s == [] then [""]
    else
      var r := Pieces(s[1..]);
      if s[0] == '/' then [""] + r else [[s[0]] + r[0]] + r[1..]
  }

  predicate Component(n: string) {
    n != "" && n != "." && n != ".." && '/' !in n
  }

  predicate Components(p: Path) {
    forall i | 0 <= i < |p| :: Component(p[i])
  }

  function Split(path: string): Result<Path> {
    var t := TrimEnd(TrimStart(path));
    if t == [] then Ok([])
    else if forall i | 0 <= i < |Pieces(t)| :: Pieces(t)[i] != "" && Pieces(t)[i] != "." && Pieces(t)[i] != ".."
      then Ok(Pieces(t))
    else Err(InvalidPath)
  }

  function Join(p: Path): string {
    if p == [] then "" else if |p| == 1 then p[0] else p[0] + "/" + Join(p[1..])
  }

  lemma {:induction false} PiecesJoin(s: string)
    ensures Join(Pieces(s)) == s
    ensures forall i | 0 <= i < |Pieces(s)| :: '/' !in Pieces(s)[i]
  {
    if s != [] {
      var r := Pieces(s[1..]);
      PiecesJoin(s[1..]);
      assert s == [s[0]] + s[1..];
      if s[0] == '/' {
        assert ([""] + r)[1..] == r;
      } else {
        assert ([[s[0]] + r[0]] + r[1..])[1..] == r[1..];
      }
    }
  }

  lemma {:induction false} PiecesOne(n: string)
    requires '/' !in n
    ensures Pieces(n) == [n]
  {
    if n != [] {
      PiecesOne(n[1..]);
      assert n == [n[0]] + n[1..];
    }
  }

  lemma {:induction false} PiecesSlash(n: string, rest: string)
    requires '/' !in n
    ensures Pieces(n + "/" + rest) == [n] + Pieces(rest)
  {
    var s := n + "/" + rest;
    if n == [] {
      assert s[1..] == rest;
    } else {
      assert s[1..] == n[1..] + "/" + rest;
      PiecesSlash(n[1..], rest);
      assert n == [n[0]] + n[1..];
      assert Pieces(s[1..])[1..] == Pieces(rest);
    }
  }

  lemma {:induction false} JoinPieces(p: Path)
    requires p != [] && Components(p)
    ensures Pieces(Join(p)) == p
    ensures Join(p) != [] && Join(p)[0] != '/' && Join(p)[|Join(p)| - 1] != '/'
  {
    if |p| == 1 {
      PiecesOne(p[0]);
    } else {
      assert Components(p[1..]);
      JoinPieces(p[1..]);
      PiecesSlash(p[0], Join(p[1..]));
      assert p == [p[0]] + p[1..];
    }
  }

  /** `split` undoes joining; hence `walk` gives distinct strings for distinct leaves. */
  lemma SplitJoin(p: Path)
    requires Components(p)
    ensures Split(Join(p)) == Ok(p)
  {
    if p != [] {
      JoinPieces(p);
      assert TrimEnd(TrimStart(Join(p))) == Join(p);
    }
  }

  /** Two accepted path strings name one path exactly when they differ only in outer slashes. */
  lemma SplitSame(a: string, b: string)
    requires Split(a).Ok? && Split(b).Ok?
    ensures Components(Split(a).value)
    ensures Split(a) == Split(b) <==> TrimEnd(TrimStart(a)) == TrimEnd(TrimStart(b))
  {
    PiecesJoin(TrimEnd(TrimStart(a)));
    PiecesJoin(TrimEnd(TrimStart(b)));
  }

  /** The text of a path has no two slashes in a row. */
  lemma {:induction false} JoinNoDouble(p: Path)
    requires p != [] && Components(p)
    ensures forall i | 0 <= i < |Join(p)| - 1 :: !(Join(p)[i] == '/' && Join(p)[i + 1] == '/')
  {
    if |p| > 1 {
      var tail := Join(p[1..]);
      JoinNoDouble(p[1..]);
      JoinPieces(p[1..]);
      var s := Join(p);
      assert s == p[0] + "/" + tail && s[|p[0]|] == '/';
      forall i | 0 <= i < |s| - 1 ensures !(s[i] == '/' && s[i + 1] == '/') {
        if i < |p[0]| {
          assert s[i] == p[0][i] && p[0][i] in p[0];
        } else if i > |p[0]| {
          assert s[i] == tail[i - |p[0]| - 1] && s[i + 1] == tail[i - |p[0]|];
        } else {
          assert s[i + 1] == tail[0];
        }
      }
    }
  }
}
