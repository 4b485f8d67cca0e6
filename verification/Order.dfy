/**
 Lexicographic order on strings and on paths (sequences of strings), and the
 ascending listing of a finite set of strings. Rust orders `String` by UTF-8
 bytes, which is the order of the code points compared here.
 */
module Order {

  predicate Less(a: string, b: string) {
    b != [] && (a == [] || a[0] < b[0] || (a[0] == b[0] && Less(a[1..], b[1..])))
  }

  /** The first difference decides; a proper prefix is less. */
  ghost predicate Precedes(a: string, b: string, i: nat) {
    i <= |a| && i < |b| && a[..i] == b[..i] && (i == |a| || a[i] < b[i])
  }

  lemma SameHead(a: string, b: string)
    ensures forall i: nat | Precedes(a, b, i) && i > 0 ::
            a != [] && b != [] && a[0] == b[0] && Precedes(a[1..], b[1..], i - 1)
  {
    forall i: nat | Precedes(a, b, i) && i > 0
      ensures a != [] && b != [] && a[0] == b[0] && Precedes(a[1..], b[1..], i - 1)
    {
      assert a[0] == a[..i][0] && b[0] == b[..i][0];
      assert a[1..][..i - 1] == a[..i][1..] && b[1..][..i - 1] == b[..i][1..];
    }
  }

  lemma {:induction false} LessIff(a: string, b: string)
    ensures Less(a, b) <==> exists i: nat :: Precedes(a, b, i)
  {
    SameHead(a, b);
    if a != [] && b != [] && a[0] == b[0] {
      LessIff(a[1..], b[1..]);
      if i: nat :| Precedes(a[1..], b[1..], i) {
        assert a[..i + 1] == [a[0]] + a[1..][..i] && b[..i + 1] == [b[0]] + b[1..][..i];
        assert Precedes(a, b, i + 1);
      }
    } else if Less(a, b) {
      assert Precedes(a, b, 0);
    }
  }

  predicate LessEq(a: string, b: string) {
    a == b || Less(a, b)
  }

  lemma {:induction false} LessTrichotomy(a: string, b: string)
    ensures a == b || Less(a, b) || Less(b, a)
    ensures !(Less(a, b) && Less(b, a))
    ensures !Less(a, a)
  {
    if a != [] && b != [] {
      LessTrichotomy(a[1..], b[1..]);
      LessTrichotomy(a[1..], a[1..]);
      if a[0] == b[0] && a[1..] == b[1..] {
        assert a == [a[0]] + a[1..] && b == [b[0]] + b[1..];
      }
    } else if a != [] {
      LessTrichotomy(a[1..], a[1..]);
    }
  }

  lemma {:induction false} LessTransitive(a: string, b: string, c: string)
    requires Less(a, b) && Less(b, c)
    ensures Less(a, c)
  {
    if a != [] && a[0] == b[0] == c[0] {
      LessTransitive(a[1..], b[1..], c[1..]);
    }
  }

  /** Strictly ascending, hence without repeats. */
  ghost predicate Ascending(s: seq<string>) {
    forall i, j | 0 <= i < j < |s| :: Less(s[i], s[j])
  }

  predicate IsLeast(s: set<string>, m: string) {
    m in s && forall x | x in s :: LessEq(m, x)
  }

  lemma LeastExists(s: set<string>)
    requires s != {}
    ensures exists m :: IsLeast(s, m)
    ensures forall x, y | IsLeast(s, x) && IsLeast(s, y) :: x == y
  {
    var a :| a in s;
    var rest := s - {a};
    if rest == {} {
      assert s == {a} && IsLeast(s, a);
    } else {
      LeastExists(rest);
      var b :| IsLeast(rest, b);
      LessTrichotomy(a, b);
      assert s == rest + {a};
      if Less(b, a) {
        assert IsLeast(s, b);
      } else {
        forall x | x in rest && x != b ensures Less(a, x) {
          assert x in rest && Less(b, x);
          LessTransitive(a, b, x);
        }
        assert IsLeast(s, a);
      }
    }
    forall x, y | IsLeast(s, x) && IsLeast(s, y) ensures x == y {
      LessTrichotomy(x, y);
    }
  }

  /** The least string of a non-empty set. */
  function Least(s: set<string>): (m: string)
    requires s != {}
    ensures IsLeast(s, m)
  {
    LeastExists(s);
    var m :| m in s && IsLeast(s, m);
    m
  }

  /** The elements of a set in ascending order, as a `BTreeMap` iterates its keys. */
  function Listing(s: set<string>): (r: seq<string>)
    ensures Ascending(r)
    ensures forall x :: x in r <==> x in s
    ensures |r| == |s|
  {
    if s == {} then []
    else
      var m := Least(s);
      var rest := Listing(s - {m});
      assert forall x | x in rest :: Less(m, x);
      [m] + rest
  }

  /** Component-wise lexicographic order on paths. */
  predicate PathLess(a: seq<string>, b: seq<string>) {
    b != [] && (a == [] || Less(a[0], b[0]) || (a[0] == b[0] && PathLess(a[1..], b[1..])))
  }

  lemma {:induction false} PathLessIrreflexive(a: seq<string>, b: seq<string>)
    requires PathLess(a, b)
    ensures a != b
  {
    if a != [] {
      LessTrichotomy(a[0], a[0]);
      if a[0] == b[0] {
        PathLessIrreflexive(a[1..], b[1..]);
      }
    }
  }
}
