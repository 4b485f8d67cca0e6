/**
 The framing of objects (crates/omp-core/src/object.rs:58-115) and the text of
 chunk lists (crates/omp-core/src/chunks.rs:37-73). Bytes are characters here.
 */
module ObjectCodec {
  import opened Objects
  import opened Appending
  import Decimal
  import Text
  import Hex

  datatype ObjectType = BlobT | TreeT | ManifestT | CommitT | ChunksT | ShareT | AuditT

  function TypeText(t: ObjectType): string {
    match t
    case BlobT => "blob"
    case TreeT => "tree"
    case ManifestT => "manifest"
    case CommitT => "commit"
    case ChunksT => "chunks"
    case ShareT => "share"
    case AuditT => "audit"
  }

  function ParseType(s: string): Option<ObjectType> {
    if s == "blob" then Some(BlobT)
    else if s == "tree" then Some(TreeT)
    else if s == "manifest" then Some(ManifestT)
    else if s == "commit" then Some(CommitT)
    else if s == "chunks" then Some(ChunksT)
    else if s == "share" then Some(ShareT)
    else if s == "audit" then Some(AuditT)
    else None
  }

  function Frame(t: ObjectType, content: string): string {
    TypeText(t) + [' '] + Decimal.Show(|content|) + ['\0'] + content
  }

  datatype Framed = Framed(kind: ObjectType, content: string)

  function ParseFramed(s: string): Result<Framed> {
    var nul := Text.Find(s, '\0');
    if nul == |s| then Err(Corrupt)
    else
      var header, content := s[..nul], s[nul + 1..];
      var sp := Text.Find(header, ' ');
      if sp == |header| then Err(Corrupt)
      else
        var size, kind := Decimal.Read(header[sp + 1..], Decimal.USIZE_MAX), ParseType(header[..sp]);
        if size.Bad? || kind.None? || size.n != |content| then Err(Corrupt) else Ok(Framed(kind.value, content))
  }

  lemma TypeRead(t: ObjectType)
    ensures ParseType(TypeText(t)) == Some(t) && ' ' !in TypeText(t) && '\0' !in TypeText(t)
  {
  }

  lemma DigitsPlain(n: nat, c: char)
    requires !Decimal.IsDigit(c)
    ensures c !in Decimal.Show(n)
  {
  }

  /** The bytes that are hashed and stored: type, space, decimal length, a zero byte, content. */
  lemma FrameText(t: ObjectType, content: string)
    ensures Frame(t, content) == TypeText(t) + " " + Decimal.Show(|content|) + "\0" + content
    ensures TypeText(BlobT) == "blob" && TypeText(TreeT) == "tree" && TypeText(ManifestT) == "manifest"
    ensures TypeText(CommitT) == "commit" && TypeText(ChunksT) == "chunks"
    ensures TypeText(ShareT) == "share" && TypeText(AuditT) == "audit"
  {
  }

  /** A framed object reads back as its type and content. */
  lemma FrameRoundTrip(t: ObjectType, content: string)
    requires |content| <= Decimal.USIZE_MAX
    ensures ParseFramed(Frame(t, content)) == Ok(Framed(t, content))
  {
    var size := Decimal.Show(|content|);
    TypeRead(t);
    DigitsPlain(|content|, '\0');
    Decimal.ReadShow(|content|, Decimal.USIZE_MAX);
    var header := TypeText(t) + [' '] + size;
    assert Frame(t, content) == header + ['\0'] + content;
    Text.FindIn(header, '\0', content);
    Text.FindIn(TypeText(t), ' ', size);
  }

  /** The hashed bytes determine type and content, so the type of an object fixes the mode it can have. */
  lemma FrameInjective(t: ObjectType, a: string, u: ObjectType, b: string)
    requires |a| <= Decimal.USIZE_MAX && |b| <= Decimal.USIZE_MAX
    ensures Frame(t, a) == Frame(u, b) <==> t == u && a == b
  {
    FrameRoundTrip(t, a);
    FrameRoundTrip(u, b);
  }

  // ---- Lines ----

  /** The texts of some values, one line each. */
  function ShowLines<T>(show: T -> string, xs: seq<T>): seq<string> {
    seq(|xs|, i requires 0 <= i < |xs| => show(xs[i]))
  }

  /** Reads every line that is not blank. */
  function ReadLines<T>(parse: string -> Result<T>, ls: seq<string>): Result<seq<T>> {
    if ls == [] then Ok([])
    else if ls[0] == "" then ReadLines(parse, ls[1..])
    else
      var x :- parse(ls[0]);
      var rest :- ReadLines(parse, ls[1..]);
      Ok([x] + rest)
  }

  function NonBlank(ls: seq<string>): seq<string> {
    if ls == [] then [] else (if ls[0] == "" then [] else [ls[0]]) + NonBlank(ls[1..])
  }

  ghost predicate ReadAs<T(!new)>(parse: string -> Result<T>, ls: seq<string>, xs: seq<T>) {
    |ls| == |xs| && forall i | 0 <= i < |ls| :: parse(ls[i]) == Ok(xs[i])
  }

  lemma {:induction false} ReadLinesIff<T(!new)>(parse: string -> Result<T>, ls: seq<string>, xs: seq<T>)
    ensures ReadLines(parse, ls) == Ok(xs) <==> ReadAs(parse, NonBlank(ls), xs)
    decreases |ls|
  {
    if ls != [] {
      if ls[0] == "" {
        ReadLinesIff(parse, ls[1..], xs);
        assert [] + NonBlank(ls[1..]) == NonBlank(ls[1..]);
      } else if xs != [] {
        ReadLinesIff(parse, ls[1..], xs[1..]);
        ReadAsCons(parse, ls[0], NonBlank(ls[1..]), xs);
        assert xs == [xs[0]] + xs[1..];
      }
    }
  }

  lemma ReadAsCons<T(!new)>(parse: string -> Result<T>, l: string, ls: seq<string>, xs: seq<T>)
    requires xs != []
    ensures ReadAs(parse, [l] + ls, xs) <==> parse(l) == Ok(xs[0]) && ReadAs(parse, ls, xs[1..])
  {
    var all := [l] + ls;
    assert forall i | 0 <= i < |ls| :: all[i + 1] == ls[i];
    assert forall i | 0 <= i < |xs| - 1 :: xs[1..][i] == xs[i + 1];
    if ReadAs(parse, all, xs) {
      assert all[0] == l;
      forall i | 0 <= i < |ls| ensures parse(ls[i]) == Ok(xs[1..][i]) {
        assert parse(all[i + 1]) == Ok(xs[i + 1]);
      }
    }
    if parse(l) == Ok(xs[0]) && ReadAs(parse, ls, xs[1..]) {
      forall i | 0 <= i < |all| ensures parse(all[i]) == Ok(xs[i]) {
        if i > 0 {
          assert parse(ls[i - 1]) == Ok(xs[1..][i - 1]);
        }
      }
    }
  }

  lemma {:induction false} NonBlankSame(ls: seq<string>)
    requires forall i | 0 <= i < |ls| :: ls[i] != ""
    ensures NonBlank(ls + [""]) == ls && NonBlank(ls) == ls
  {
    if ls == [] {
      assert ([] + [""])[1..] == [];
    } else {
      assert (ls + [""])[1..] == ls[1..] + [""] && (ls + [""])[0] == ls[0];
      NonBlankSame(ls[1..]);
    }
  }

  lemma SplitCons(l: string, rest: string)
    requires '\n' !in l
    ensures Text.Split(l + ['\n'] + rest) == [l] + Text.Split(rest)
  {
    Text.FindIn(l, '\n', rest);
  }

  lemma SplitOne(s: string)
    requires '\n' !in s
    ensures Text.Split(s) == [s]
  {
    assert s[..|s|] == s;
  }

  lemma UnlinesCons(l: string, ls: seq<string>)
    ensures Text.Unlines([l] + ls) == l + ['\n'] + Text.Unlines(ls)
  {
    assert ([l] + ls)[0] == l && ([l] + ls)[1..] == ls;
  }

  lemma {:induction false} SplitUnlines(ls: seq<string>)
    requires forall i | 0 <= i < |ls| :: '\n' !in ls[i]
    ensures Text.Split(Text.Unlines(ls)) == ls + [""]
  {
    if ls == [] {
      SplitOne("");
    } else {
      assert ls == [ls[0]] + ls[1..];
      UnlinesCons(ls[0], ls[1..]);
      SplitCons(ls[0], Text.Unlines(ls[1..]));
      SplitUnlines(ls[1..]);
      assert [ls[0]] + (ls[1..] + [""]) == ls + [""];
    }
  }

  lemma {:induction false} UnlinesSplit(s: string)
    ensures Text.Unlines(Text.Split(s)) == s + ['\n']
    decreases |s|
  {
    var i := Text.Find(s, '\n');
    if i == |s| {
      SplitOne(s);
      UnlinesCons(s, []);
      assert [s] + [] == [s];
    } else {
      var head, tail := s[..i], s[i + 1..];
      assert s == head + ['\n'] + tail;
      SplitCons(head, tail);
      UnlinesSplit(tail);
      UnlinesCons(head, Text.Split(tail));
      assert head + ['\n'] + (tail + ['\n']) == s + ['\n'];
    }
  }

  lemma {:induction false} SplitNoFeed(s: string, l: string)
    requires l in Text.Split(s)
    ensures '\n' !in l
    decreases |s|
  {
    var i := Text.Find(s, '\n');
    if i < |s| && l != s[..i] {
      SplitNoFeed(s[i + 1..], l);
    }
  }

  lemma SplitLast(s: string)
    ensures Text.Split(s + ['\n']) == Text.Split(s) + [""]
  {
    UnlinesSplit(s);
    forall i | 0 <= i < |Text.Split(s)| ensures '\n' !in Text.Split(s)[i] {
      SplitNoFeed(s, Text.Split(s)[i]);
    }
    SplitUnlines(Text.Split(s));
  }

  /** A text has these lines exactly when it is their text, with or without the final line feed. */
  lemma SameText(s: string, ls: seq<string>)
    requires forall i | 0 <= i < |ls| :: '\n' !in ls[i]
    ensures s == Text.Unlines(ls) <==> Text.Split(s) == ls + [""]
    ensures ls != [] ==> (s + ['\n'] == Text.Unlines(ls) <==> Text.Split(s) == ls)
  {
    UnlinesSplit(s);
    SplitUnlines(ls);
    Text.UnlinesPush(ls, "");
    if Text.Split(s) == ls + [""] {
      assert s + ['\n'] == Text.Unlines(ls) + ['\n'];
      assert (s + ['\n'])[..|s|] == s;
    }
    if ls != [] && s + ['\n'] == Text.Unlines(ls) {
      SplitLast(s);
      assert Text.Split(s) + [""] == ls + [""];
      assert (Text.Split(s) + [""])[..|ls|] == ls;
    }
  }

  /** The lines of a text, without the empty piece after a final line feed. */
  function BodyLines(s: string): seq<string> {
    var ls := Text.Split(s);
    if ls[|ls| - 1] == "" then ls[..|ls| - 1] else ls
  }

  lemma BodyLinesAre(s: string, body: seq<string>)
    requires forall i | 0 <= i < |body| :: body[i] != ""
    ensures BodyLines(s) == body <==> Text.Split(s) == body + [""] || (body != [] && Text.Split(s) == body)
  {
    var ls := Text.Split(s);
    assert ls == ls[..|ls| - 1] + [ls[|ls| - 1]];
    assert (body + [""])[..|body|] == body;
  }

  // ---- Chunk lists ----

  datatype Chunk = Chunk(hash: Hex.Sha, length: nat)

  function ChunkLine(c: Chunk): string {
    Hex.Encode(c.hash) + [' '] + Decimal.Show(c.length)
  }

  function SerializeChunks(cs: seq<Chunk>): string {
    Text.Unlines(ShowLines(ChunkLine, cs))
  }

  /** The text of a chunk list: a line of hash and length per chunk. */
  lemma ChunksText(cs: seq<Chunk>)
    ensures cs == [] ==> SerializeChunks(cs) == ""
    ensures cs != [] ==>
              SerializeChunks(cs) ==
              Hex.Encode(cs[0].hash) + " " + Decimal.Show(cs[0].length) + ['\n'] + SerializeChunks(cs[1..])
  {
    if cs != [] {
      assert ShowLines(ChunkLine, cs)[1..] == ShowLines(ChunkLine, cs[1..]);
    }
  }

  function ParseChunk(l: string): Result<Chunk> {
    var sp := Text.Find(l, ' ');
    if sp == |l| then Err(Corrupt) else ParseParts(l[..sp], l[sp + 1..])
  }

  function ParseParts(h: string, d: string): Result<Chunk> {
    var hash, length := Hex.Decode(h), Decimal.Read(d, Decimal.USIZE_MAX);
    if hash.None? || length.Bad? then Err(Corrupt) else Ok(Chunk(hash.value, length.n))
  }

  function ParseChunks(s: string): Result<seq<Chunk>> {
    ReadLines(ParseChunk, Text.Split(s))
  }

  /** The loop of `ChunksBody::serialize`. */
  method SerializeBody(cs: seq<Chunk>) returns (out: string)
    ensures out == SerializeChunks(cs)
  {
    out := "";
    ghost var lines := ShowLines(ChunkLine, cs);
    for i := 0 to |cs|
      invariant out == Text.Unlines(lines[..i])
    {
      Text.UnlinesPush(lines[..i], lines[i]);
      assert lines[..i + 1] == lines[..i] + [lines[i]];
      out := out + ChunkLine(cs[i]) + ['\n'];
    }
    assert lines[..|cs|] == lines;
  }

  /** The loop of `ChunksBody::parse`. */
  method ParseBody(s: string) returns (r: Result<seq<Chunk>>)
    ensures r == ParseChunks(s)
  {
    r := ParseAll(ParseChunk, Text.Split(s));
  }

  method ParseAll<T>(parse: string -> Result<T>, ls: seq<string>) returns (r: Result<seq<T>>)
    ensures r == ReadLines(parse, ls)
  {
    var out: seq<T>, i := [], 0;
    AfterNothing(ReadLines(parse, ls), None);
    assert ls[0..] == ls;
    while i < |ls|
      invariant 0 <= i <= |ls|
      invariant ReadLines(parse, ls) == After(out, ReadLines(parse, ls[i..]))
    {
      assert ls[i..][0] == ls[i] && ls[i..][1..] == ls[i + 1..];
      if ls[i] != "" {
        var x :- parse(ls[i]);
        AfterMore(out, [x], ReadLines(parse, ls[i + 1..]));
        out := out + [x];
      }
      i := i + 1;
    }
    assert ls[i..] == [] && out + [] == out;
    r := Ok(out);
  }

  // ---- Which texts read as which list ----

  /** A hash in any case of letters, and a length with a plus sign or leading zeros allowed. */
  predicate EntryText(h: string, d: string, c: Chunk) {
    && Hex.Lowered(h) == Hex.Encode(c.hash)
    && c.length <= Decimal.USIZE_MAX
    && Decimal.Digits(Decimal.Unsigned(d)) && Decimal.Stripped(Decimal.Unsigned(d)) == Decimal.Show(c.length)
  }

  /**
   The two parts of a line, before and after its first space, read as an entry exactly when they
   are such a text of it.
   */
  lemma ParsePartsIff(h: string, d: string, c: Chunk)
    ensures ParseParts(h, d) == Ok(c) <==> EntryText(h, d, c)
  {
    Hex.DecodeIff(h, c.hash);
    Decimal.ReadIff(d, Decimal.USIZE_MAX, c.length);
  }

  /**
   Contrary to its comment the parser tolerates more than a trailing line feed: a text reads
   as a list exactly when its lines that are not blank read as the entries.
   */
  lemma ParseChunksIff(s: string, cs: seq<Chunk>)
    ensures ParseChunks(s) == Ok(cs) <==> ReadAs(ParseChunk, NonBlank(Text.Split(s)), cs)
  {
    ReadLinesIff(ParseChunk, Text.Split(s), cs);
  }

  // ---- Which texts are serializations ----

  ghost predicate Fits(cs: seq<Chunk>) {
    forall i | 0 <= i < |cs| :: cs[i].length <= Decimal.USIZE_MAX
  }

  lemma ChunkRead(c: Chunk)
    requires c.length <= Decimal.USIZE_MAX
    ensures ParseChunk(ChunkLine(c)) == Ok(c)
  {
    Hex.RoundTrip(c.hash);
    Decimal.ReadShow(c.length, Decimal.USIZE_MAX);
    assert ' ' !in Hex.Encode(c.hash);
    Text.FindIn(Hex.Encode(c.hash), ' ', Decimal.Show(c.length));
  }

  lemma ChunkOneLine(c: Chunk)
    ensures ChunkLine(c) != "" && '\n' !in ChunkLine(c)
  {
    DigitsPlain(c.length, '\n');
    assert '\n' !in Hex.Encode(c.hash);
  }

  lemma OneLineEach(cs: seq<Chunk>)
    ensures forall i | 0 <= i < |cs| :: ShowLines(ChunkLine, cs)[i] != "" && '\n' !in ShowLines(ChunkLine, cs)[i]
  {
    forall i | 0 <= i < |cs| ensures ShowLines(ChunkLine, cs)[i] != "" && '\n' !in ShowLines(ChunkLine, cs)[i] {
      ChunkOneLine(cs[i]);
    }
  }

  /** A chunk list reads back in order. */
  lemma ChunksRoundTrip(cs: seq<Chunk>)
    requires Fits(cs)
    ensures ParseChunks(SerializeChunks(cs)) == Ok(cs)
  {
    var lines := ShowLines(ChunkLine, cs);
    OneLineEach(cs);
    SplitUnlines(lines);
    NonBlankSame(lines);
    forall i | 0 <= i < |cs| ensures ParseChunk(lines[i]) == Ok(cs[i]) {
      ChunkRead(cs[i]);
    }
    ParseChunksIff(SerializeChunks(cs), cs);
  }

  /** The line of an entry as it is printed: lower case, no sign, no leading zero. */
  predicate PrintedLine(l: string) {
    var sp := Text.Find(l, ' ');
    sp == 64 && sp < |l| && Hex.LowerCase(l[..sp]) && Decimal.Plain(l[sp + 1..])
  }

  lemma PrintedIff(l: string, c: Chunk)
    requires c.length <= Decimal.USIZE_MAX
    ensures l == ChunkLine(c) <==> PrintedLine(l) && ParseChunk(l) == Ok(c)
  {
    if l == ChunkLine(c) {
      ChunkRead(c);
      PrintedChunk(c);
    }
    if PrintedLine(l) && ParseChunk(l) == Ok(c) {
      var sp := Text.Find(l, ' ');
      ParsePartsIff(l[..sp], l[sp + 1..], c);
      PrintedParts(l[..sp], l[sp + 1..], c);
      assert l == l[..sp] + [' '] + l[sp + 1..];
    }
  }

  lemma PrintedChunk(c: Chunk)
    ensures PrintedLine(ChunkLine(c))
  {
    var h, d := Hex.Encode(c.hash), Decimal.Show(c.length);
    Hex.EncodeLower(c.hash);
    Decimal.ShowPlain(c.length);
    assert ' ' !in h;
    Text.FindIn(h, ' ', d);
  }

  lemma PrintedParts(h: string, d: string, c: Chunk)
    requires Hex.LowerCase(h) && Decimal.Plain(d) && EntryText(h, d, c)
    ensures h == Hex.Encode(c.hash) && d == Decimal.Show(c.length)
  {
    Hex.LoweredSame(h);
    PlainUnsigned(d);
  }

  lemma PlainUnsigned(d: string)
    requires Decimal.Plain(d)
    ensures Decimal.Unsigned(d) == d && Decimal.Stripped(d) == d
  {
    assert Decimal.IsDigit(d[0]);
  }

  ghost predicate AllPrinted(ls: seq<string>) {
    forall i | 0 <= i < |ls| :: PrintedLine(ls[i])
  }

  lemma PrintedLines(ls: seq<string>, cs: seq<Chunk>)
    requires Fits(cs)
    ensures ls == ShowLines(ChunkLine, cs) <==> ReadAs(ParseChunk, ls, cs) && AllPrinted(ls)
  {
    if |ls| == |cs| {
      forall i | 0 <= i < |cs|
        ensures ls[i] == ShowLines(ChunkLine, cs)[i] <==> PrintedLine(ls[i]) && ParseChunk(ls[i]) == Ok(cs[i])
      {
        PrintedIff(ls[i], cs[i]);
      }
    }
  }

  /**
   A text is the serialization of a list, up to its final line feed, exactly when its lines,
   none of them blank, are printed lines that read as the entries.
   */
  lemma SerializationIff(s: string, cs: seq<Chunk>)
    requires Fits(cs)
    ensures s == SerializeChunks(cs) || (cs != [] && s + ['\n'] == SerializeChunks(cs)) <==>
            ReadAs(ParseChunk, BodyLines(s), cs) && AllPrinted(BodyLines(s))
  {
    var lines := ShowLines(ChunkLine, cs);
    OneLineEach(cs);
    SameText(s, lines);
    BodyLinesAre(s, lines);
    PrintedLines(BodyLines(s), cs);
  }
}
