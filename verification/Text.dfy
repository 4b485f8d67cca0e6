/** The string operations that the text codecs use: `split_once`, `lines` and `trim_end_matches`. */
module Text {

  /** The position of the first `c`, or the length. */
  function Find(s: string, c: char): (i: nat)
    ensures i <= |s| && c !in s[..i] && (i < |s| ==> s[i] == c)
  {
    if s == [] then 0
    else if s[0] == c then 0
    else
      var i := 1 + Find(s[1..], c);
      assert s[..i] == [s[0]] + s[1..][..i - 1];
      i
  }

  lemma FindIn(a: string, c: char, b: string)
    requires c !in a
    ensures Find(a + [c] + b, c) == |a|
    ensures (a + [c] + b)[..|a|] == a && (a + [c] + b)[|a| + 1..] == b
  {
    var s := a + [c] + b;
    assert forall k | 0 <= k < |a| :: s[k] == a[k];
    assert s[|a|] == c;
  }

  /** `str::split('\n')`. */
  function Split(s: string): (r: seq<string>)
    ensures |r| >= 1
    decreases |s|
  {
    var i := Find(s, '\n');
    if i == |s| then [s] else [s[..i]] + Split(s[i + 1..])
  }

  /** `str::lines`: split at line feeds, drop a final empty piece and one carriage return before each line feed. */
  function Lines(s: string): seq<string>
    decreases |s|
  {
    if s == [] then []
    else
      var i := Find(s, '\n');
      if i == |s| then [s] else [ChopCr(s[..i])] + Lines(s[i + 1..])
  }

  function ChopCr(l: string): string {
    if l != [] && l[|l| - 1] == '\r' then l[..|l| - 1] else l
  }

  function ChopAll(ls: seq<string>): seq<string> {
    if ls == [] then [] else [ChopCr(ls[0])] + ChopAll(ls[1..])
  }

  /** The text of the given lines, each ended by a line feed. */
  function Unlines(ls: seq<string>): string {
    if ls == [] then "" else ls[0] + ['\n'] + Unlines(ls[1..])
  }

  lemma LinesCons(l: string, rest: string)
    requires '\n' !in l
    ensures Lines(l + ['\n'] + rest) == [ChopCr(l)] + Lines(rest)
  {
    FindIn(l, '\n', rest);
  }

  lemma {:induction false} LinesUnlines(ls: seq<string>)
    requires forall i | 0 <= i < |ls| :: '\n' !in ls[i]
    ensures Lines(Unlines(ls)) == ChopAll(ls)
  {
    if ls != [] {
      LinesCons(ls[0], Unlines(ls[1..]));
      LinesUnlines(ls[1..]);
    }
  }

  lemma {:induction false} UnlinesPush(ls: seq<string>, l: string)
    ensures Unlines(ls + [l]) == Unlines(ls) + l + ['\n']
  {
    if ls == [] {
      assert [] + [l] == [l] && [l][1..] == [];
    } else {
      UnlinesPush(ls[1..], l);
      assert (ls + [l])[1..] == ls[1..] + [l] && (ls + [l])[0] == ls[0];
    }
  }
}
