/**
 The text of tree objects (crates/omp-core/src/tree.rs:96-216): one line
 `<mode> <hash>\t<name>` per entry, names plain or sealed.
 */
module TreeCodec {
  import opened Objects
  import Text
  import Hex

  datatype TextEntry = TextEntry(mode: Mode, hash: Hex.Sha)

  type TextTree = map<string, TextEntry>

  const MARKER := "!encrypted-path v1"

  /** How names are written: as they are, or sealed under the tenant's path key and printed in hex. */
  datatype Names = PlainNames | SealedNames(seal: string -> string, open: string -> Option<string>)

  /** An ideal cipher: what was sealed opens, and a sealed name is a non-empty hex string. */
  ghost predicate Ideal(k: Names) {
    k.SealedNames? ==> forall n ::
        k.open(k.seal(n)) == Some(n) && '\n' !in k.seal(n) && '\r' !in k.seal(n) && k.seal(n) != ""
  }

  function ModeText(m: Mode): string {
    match m
    case Blob => "blob"
    case Manifest => "manifest"
    case Tree => "tree"
  }

  function ParseMode(s: string): Option<Mode> {
    if s == "blob" then Some(Blob)
    else if s == "manifest" then Some(Manifest) else if s == "tree" then Some(Tree) else None
  }

  function Line(e: TextEntry, field: string): string {
    ModeText(e.mode) + [' '] + Hex.Encode(e.hash) + ['\t'] + field
  }

  function NameField(k: Names, n: string): string {
    if k.PlainNames? then n else k.seal(n)
  }

  function EntryLines(k: Names, t: TextTree, names: seq<string>): seq<string>
    requires forall n | n in names :: n in t
  {
    if names == [] then [] else [Line(t[names[0]], NameField(k, names[0]))] + EntryLines(k, t, names[1..])
  }

  /** `serialize_with_path_key`, over the entries in name order. */
  function Serialize(k: Names, t: TextTree, names: seq<string>): string
    requires forall n | n in names :: n in t
  {
    Text.Unlines((if k.PlainNames? then [] else [MARKER]) + EntryLines(k, t, names))
  }

  /** The text of a tree: a line per entry, after a marker line when names are sealed. */
  lemma TreeText(k: Names, t: TextTree, names: seq<string>)
    requires forall n | n in names :: n in t
    ensures Serialize(k, t, names) ==
            (if k.PlainNames? then "" else "!encrypted-path v1" + ['\n']) + Text.Unlines(EntryLines(k, t, names))
    ensures names == [] ==> Text.Unlines(EntryLines(k, t, names)) == ""
    ensures names != [] ==>
              var n, e := names[0], t[names[0]];
              Text.Unlines(EntryLines(k, t, names)) ==
              (if e.mode == Blob then "blob" else if e.mode == Manifest then "manifest" else "tree")
              + [' '] + Hex.Encode(e.hash) + ['\t'] + (if k.PlainNames? then n else k.seal(n)) + ['\n']
              + Text.Unlines(EntryLines(k, t, names[1..]))
  {
    var ls := EntryLines(k, t, names);
    if k.PlainNames? {
      assert [] + ls == ls && "" + Text.Unlines(ls) == Text.Unlines(ls);
    } else {
      assert ([MARKER] + ls)[1..] == ls;
    }
    if names != [] {
      var l, rest := Line(t[names[0]], NameField(k, names[0])), EntryLines(k, t, names[1..]);
      assert ls == [l] + rest && ls[1..] == rest;
    }
  }

  datatype Item = Item(name: string, entry: TextEntry)

  function ReadName(k: Names, field: string): Result<string> {
    if k.PlainNames? then Ok(field)
    else match k.open(field)
      case None => Err(Unauthorized)
      case Some(n) => Ok(n)
  }

  function ParseLine(k: Names, l: string): Result<Item> {
    var t := Text.Find(l, '\t');
    if t == |l| then Err(Corrupt)
    else
      var meta := l[..t];
      var sp := Text.Find(meta, ' ');
      if sp == |meta| then Err(Corrupt)
      else
        var mode, hash := ParseMode(meta[..sp]), Hex.Decode(meta[sp + 1..]);
        if mode.None? || hash.None? then Err(Corrupt)
        else
          var name :- ReadName(k, l[t + 1..]);
          if ValidName(name) then Ok(Item(name, TextEntry(mode.value, hash.value))) else Err(InvalidPath)
  }

  function ParseLines(k: Names, ls: seq<string>, t: TextTree): Result<TextTree> {
    if ls == [] then Ok(t)
    else if ls[0] == "" then ParseLines(k, ls[1..], t)
    else
      var i :- ParseLine(k, ls[0]);
      ParseLines(k, ls[1..], t[i.name := i.entry])
  }

  /** `parse_with_path_key`; the marker line decides whether names are sealed. */
  function Parse(k: Names, text: string): Result<TextTree> {
    var ls := Text.Lines(text);
    if ls != [] && ls[0] == MARKER then
      if k.PlainNames? then Err(Unauthorized) else ParseLines(k, ls[1..], map[])
    else ParseLines(PlainNames, ls, map[])
  }

  /** The loop of `parse_with_path_key`. */
  method ParseTree(k: Names, text: string) returns (r: Result<TextTree>)
    ensures r == Parse(k, text)
  {
    var ls := Text.Lines(text);
    var key := PlainNames;
    if ls != [] && ls[0] == MARKER {
      if k.PlainNames? {
        return Err(Unauthorized);
      }
      key, ls := k, ls[1..];
    }
    var out: TextTree, i := map[], 0;
    assert ls[0..] == ls;
    while i < |ls|
      invariant 0 <= i <= |ls|
      invariant ParseLines(key, ls[i..], out) == ParseLines(key, ls, map[])
    {
      assert ls[i..][0] == ls[i] && ls[i..][1..] == ls[i + 1..];
      if ls[i] != "" {
        var item :- ParseLine(key, ls[i]);
        out := out[item.name := item.entry];
      }
      i := i + 1;
    }
    r := Ok(out);
  }

  // ---- One line ----

  lemma ModeRead(m: Mode)
    ensures ParseMode(ModeText(m)) == Some(m) && ' ' !in ModeText(m) && '\t' !in ModeText(m) && '\n' !in ModeText(m)
            && ModeText(m) != ""
  {
  }

  lemma HexPlain(b: Hex.Sha, c: char)
    requires Hex.DigitValue(c).None?
    ensures c !in Hex.Encode(b)
  {
  }

  /** A line reads back as the entry and whatever name its field holds. */
  lemma LineRead(k: Names, e: TextEntry, field: string)
    ensures Line(e, field) != ""
    ensures ParseLine(k, Line(e, field)) ==
            match ReadName(k, field)
            case Err(x) => Err(x)
            case Ok(n) => if ValidName(n) then Ok(Item(n, e)) else Err(InvalidPath)
  {
    var mode, hex := ModeText(e.mode), Hex.Encode(e.hash);
    ModeRead(e.mode);
    HexPlain(e.hash, '\t');
    HexPlain(e.hash, ' ');
    Hex.RoundTrip(e.hash);
    var meta := mode + [' '] + hex;
    assert Line(e, field) == meta + ['\t'] + field;
    Text.FindIn(meta, '\t', field);
    Text.FindIn(mode, ' ', hex);
  }

  /** Line ends only reach the name field. */
  lemma LineEnds(e: TextEntry, field: string)
    requires field != ""
    ensures '\n' in Line(e, field) <==> '\n' in field
    ensures Text.ChopCr(Line(e, field)) == Line(e, Text.ChopCr(field))
    ensures Line(e, field) != MARKER
  {
    ModeRead(e.mode);
    HexPlain(e.hash, '\n');
    var l := Line(e, field);
    assert l[|l| - 1] == field[|field| - 1];
    assert l[0] == ModeText(e.mode)[0] && MARKER[0] == '!';
  }

  // ---- Whole trees ----

  ghost predicate ReadBack(k: Names, n: string) {
    k.SealedNames? || Printable(n)
  }

  lemma FieldRead(k: Names, n: string)
    requires Ideal(k) && ValidName(n) && ReadBack(k, n)
    ensures var f := NameField(k, n);
            f != "" && '\n' !in f && Text.ChopCr(f) == f && ReadName(k, f) == Ok(n)
  {
  }

  lemma {:induction false} EntryLinesKept(k: Names, t: TextTree, names: seq<string>)
    requires Ideal(k)
    requires forall n | n in names :: n in t && ValidName(n) && ReadBack(k, n)
    ensures forall l | l in EntryLines(k, t, names) :: '\n' !in l && l != MARKER
    ensures Text.ChopAll(EntryLines(k, t, names)) == EntryLines(k, t, names)
    decreases |names|
  {
    if names != [] {
      FieldRead(k, names[0]);
      LineEnds(t[names[0]], NameField(k, names[0]));
      EntryLinesKept(k, t, names[1..]);
      assert EntryLines(k, t, names)[1..] == EntryLines(k, t, names[1..]);
    }
  }

  lemma EntryRead(k: Names, e: TextEntry, n: string)
    requires Ideal(k) && ValidName(n) && ReadBack(k, n)
    ensures Line(e, NameField(k, n)) != "" && ParseLine(k, Line(e, NameField(k, n))) == Ok(Item(n, e))
  {
    FieldRead(k, n);
    LineRead(k, e, NameField(k, n));
  }

  ghost function AddAll(acc: TextTree, t: TextTree, names: seq<string>): TextTree
    requires forall n | n in names :: n in t
    decreases |names|
  {
    if names == [] then acc else AddAll(acc[names[0] := t[names[0]]], t, names[1..])
  }

  lemma {:induction false} EntriesRead(k: Names, t: TextTree, names: seq<string>, acc: TextTree)
    requires Ideal(k)
    requires forall n | n in names :: n in t && ValidName(n) && ReadBack(k, n)
    ensures ParseLines(k, EntryLines(k, t, names), acc) == Ok(AddAll(acc, t, names))
    decreases |names|
  {
    if names != [] {
      var n := names[0];
      EntryRead(k, t[n], n);
      assert EntryLines(k, t, names)[1..] == EntryLines(k, t, names[1..]);
      EntriesRead(k, t, names[1..], acc[n := t[n]]);
    }
  }

  lemma {:induction false} AddAllExact(acc: TextTree, t: TextTree, names: seq<string>, n: string)
    requires forall m | m in names :: m in t
    ensures n in AddAll(acc, t, names) <==> n in acc || n in names
    ensures n in names ==> AddAll(acc, t, names)[n] == t[n]
    ensures n in acc && n !in names ==> AddAll(acc, t, names)[n] == acc[n]
    decreases |names|
  {
    if names != [] {
      AddAllExact(acc[names[0] := t[names[0]]], t, names[1..], n);
      assert names == [names[0]] + names[1..];
    }
  }

  ghost predicate Lists(names: seq<string>, t: TextTree) {
    forall n :: n in names <==> n in t
  }

  /** A tree reads back from its text, provided its names are valid and, when plain, printable. */
  lemma TreeRoundTrip(k: Names, t: TextTree, names: seq<string>)
    requires Ideal(k) && Lists(names, t) && forall n | n in t :: ValidName(n) && ReadBack(k, n)
    ensures Parse(k, Serialize(k, t, names)) == Ok(t)
  {
    var body := EntryLines(k, t, names);
    EntriesRead(k, t, names, map[]);
    EntryLinesKept(k, t, names);
    AllAdded(t, names);
    ParseBody(k, body, t);
  }

  lemma ParseBody(k: Names, body: seq<string>, t: TextTree)
    requires (forall l | l in body :: '\n' !in l && l != MARKER) && Text.ChopAll(body) == body
    requires ParseLines(k, body, map[]) == Ok(t)
    ensures Parse(k, Text.Unlines((if k.PlainNames? then [] else [MARKER]) + body)) == Ok(t)
  {
    SerializedLines(k, body);
    assert body != [] ==> body[0] in body;
    assert [] + body == body && ([MARKER] + body)[1..] == body;
  }

  lemma AllAdded(t: TextTree, names: seq<string>)
    requires Lists(names, t)
    ensures AddAll(map[], t, names) == t
  {
    forall n ensures n in AddAll(map[], t, names) <==> n in t {
      AddAllExact(map[], t, names, n);
    }
    forall n | n in t ensures AddAll(map[], t, names)[n] == t[n] {
      AddAllExact(map[], t, names, n);
    }
  }

  lemma SerializedLines(k: Names, body: seq<string>)
    requires (forall l | l in body :: '\n' !in l) && Text.ChopAll(body) == body
    ensures Text.Lines(Text.Unlines((if k.PlainNames? then [] else [MARKER]) + body)) ==
            (if k.PlainNames? then [] else [MARKER]) + body
  {
    var ls := (if k.PlainNames? then [] else [MARKER]) + body;
    forall i | 0 <= i < |ls| ensures '\n' !in ls[i] {
      assert ls[i] in body || ls[i] == MARKER;
    }
    assert k.PlainNames? ==> ls == body;
    assert k.SealedNames? ==> ls[1..] == body;
    Text.LinesUnlines(ls);
  }

  // ---- The condition is exact ----

  lemma {:induction false} LinesHaveNoLineFeed(s: string, l: string)
    requires l in Text.Lines(s)
    ensures '\n' !in l
    decreases |s|
  {
    var i := Text.Find(s, '\n');
    if i < |s| {
      if l in Text.Lines(s[i + 1..]) {
        LinesHaveNoLineFeed(s[i + 1..], l);
      }
    } else {
      assert s[..i] == s;
    }
  }

  /** Every name that is read comes from the name field of some line. */
  lemma {:induction false} NamesFromLines(ls: seq<string>, acc: TextTree, n: string)
    requires ParseLines(PlainNames, ls, acc).Ok? && n in ParseLines(PlainNames, ls, acc).value && n !in acc
    ensures exists l, i | l in ls && ParseLine(PlainNames, l) == Ok(i) :: i.name == n
    decreases |ls|
  {
    if ls[0] != "" && ParseLine(PlainNames, ls[0]).value.name == n {
      assert ls[0] in ls;
    } else {
      var next := if ls[0] == "" then acc
          else acc[ParseLine(PlainNames, ls[0]).value.name := ParseLine(PlainNames, ls[0]).value.entry];
      NamesFromLines(ls[1..], next, n);
      assert forall l | l in ls[1..] :: l in ls;
    }
  }

  lemma ReadNamesHaveNoLineFeed(text: string, n: string)
    requires Parse(PlainNames, text).Ok? && n in Parse(PlainNames, text).value
    ensures '\n' !in n
  {
    NamesFromLines(Text.Lines(text), map[], n);
    var l, i :| l in Text.Lines(text) && ParseLine(PlainNames, l) == Ok(i) && i.name == n;
    LinesHaveNoLineFeed(text, l);
  }

  lemma {:induction false} ChoppedNames(t: TextTree, names: seq<string>, acc: TextTree, n: string)
    requires forall m | m in names :: m in t && ValidName(m) && '\n' !in m
    requires ParseLines(PlainNames, Text.ChopAll(EntryLines(PlainNames, t, names)), acc).Ok?
    requires n in ParseLines(PlainNames, Text.ChopAll(EntryLines(PlainNames, t, names)), acc).value && n !in acc
    ensures exists m | m in names :: n == Text.ChopCr(m)
    decreases |names|
  {
    var m := names[0];
    LineEnds(t[m], m);
    LineRead(PlainNames, t[m], Text.ChopCr(m));
    var ls := Text.ChopAll(EntryLines(PlainNames, t, names));
    assert EntryLines(PlainNames, t, names)[1..] == EntryLines(PlainNames, t, names[1..]);
    assert ls[0] == Line(t[m], Text.ChopCr(m)) && ls[1..] == Text.ChopAll(EntryLines(PlainNames, t, names[1..]));
    assert m in names && forall x | x in names[1..] :: x in names;
    if n != Text.ChopCr(m) {
      ChoppedNames(t, names[1..], acc[Text.ChopCr(m) := t[m]], n);
    }
  }

  lemma {:induction false} EntryLinesPlain(t: TextTree, names: seq<string>)
    requires forall m | m in names :: m in t && ValidName(m) && '\n' !in m
    ensures forall i | 0 <= i < |EntryLines(PlainNames, t, names)| :: '\n' !in EntryLines(PlainNames, t, names)[i]
    ensures EntryLines(PlainNames, t, names) != [] ==> Text.ChopAll(EntryLines(PlainNames, t, names))[0] != MARKER
  {
    if names != [] {
      LineEnds(t[names[0]], names[0]);
      EntryLinesPlain(t, names[1..]);
      assert Line(t[names[0]], Text.ChopCr(names[0]))[0] == ModeText(t[names[0]].mode)[0];
      ModeRead(t[names[0]].mode);
    }
  }

  /** Reading back gives every name without one final carriage return. */
  lemma ReadIsChopped(t: TextTree, names: seq<string>, n: string)
    requires Lists(names, t) && forall m | m in t :: ValidName(m) && '\n' !in m
    requires Parse(PlainNames, Serialize(PlainNames, t, names)).Ok?
             && n in Parse(PlainNames, Serialize(PlainNames, t, names)).value
    ensures ChoppedFrom(t, n)
  {
    var body := EntryLines(PlainNames, t, names);
    assert [] + body == body;
    EntryLinesPlain(t, names);
    Text.LinesUnlines(body);
    ChoppedNames(t, names, map[], n);
  }

  ghost predicate ChoppedFrom(t: TextTree, n: string) {
    exists m | m in t :: n == Text.ChopCr(m)
  }

  /** A tree equal to its chopped self would hold ever longer names. */
  lemma {:induction false} NoLongestName(t: TextTree, n: string, bound: nat)
    requires n in t && n != "" && n[|n| - 1] == '\r'
    requires forall m | m in t :: |m| <= bound && ChoppedFrom(t, m)
    ensures false
    decreases bound - |n|
  {
    assert ChoppedFrom(t, n);
    var x :| x in t && n == Text.ChopCr(x);
    LongerName(n, x);
    NoLongestName(t, x, bound);
  }

  lemma LongerName(n: string, x: string)
    requires n == Text.ChopCr(x) && n != "" && n[|n| - 1] == '\r'
    ensures |x| == |n| + 1 && x[|x| - 1] == '\r'
  {
  }

  lemma {:induction false} LongestName(t: TextTree, names: seq<string>) returns (bound: nat)
    ensures forall m | m in names :: |m| <= bound
  {
    if names == [] {
      bound := 0;
    } else {
      bound := LongestName(t, names[1..]);
      if bound < |names[0]| {
        bound := |names[0]|;
      }
    }
  }

  /** The plain codec reads a tree back exactly when no name holds a line feed or ends in a carriage return. */
  lemma PlainRoundTripIff(t: TextTree, names: seq<string>)
    requires Lists(names, t) && forall n | n in t :: ValidName(n)
    ensures Parse(PlainNames, Serialize(PlainNames, t, names)) == Ok(t) <==> forall n | n in t :: Printable(n)
  {
    if forall n | n in t :: Printable(n) {
      TreeRoundTrip(PlainNames, t, names);
    } else if Parse(PlainNames, Serialize(PlainNames, t, names)) == Ok(t) {
      forall n | n in t ensures '\n' !in n {
        ReadNamesHaveNoLineFeed(Serialize(PlainNames, t, names), n);
      }
      forall n | n in t ensures ChoppedFrom(t, n) {
        ReadIsChopped(t, names, n);
      }
      var n :| n in t && !Printable(n);
      var bound := LongestName(t, names);
      NoLongestName(t, n, bound);
    }
  }
}
