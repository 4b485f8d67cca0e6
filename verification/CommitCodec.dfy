/**
 The text of commit objects (crates/omp-core/src/commit.rs:31-182) and its three
 readers: the full parser, the header reader of garbage collection
 (crates/omp-core/src/gc.rs:229-270) and the tree lookup of the repository
 (crates/omp-core/src/api.rs:2323-2353).
 */
module CommitCodec {
  import opened Objects
  import Text
  import Hex

  datatype Author = Author(name: string, email: string, timestamp: string)

  datatype TextCommit = TextCommit(tree: Hex.Sha, parents: seq<Hex.Sha>, author: Author, message: string)

  // ---- Trimming ----

  /** `char::is_whitespace`. */
  predicate IsSpace(c: char) {
    '\t' <= c <= '\r' || c == ' ' || c == '\U{85}' || c == '\U{A0}' || c == '\U{1680}' || '\U{2000}' <= c <= '\U{200A}'
    || c == '\U{2028}' || c == '\U{2029}' || c == '\U{202F}' || c == '\U{205F}' || c == '\U{3000}'
  }

  predicate IsLineFeed(c: char) {
    c == '\n'
  }

  function TrimStart(s: string): (r: string)
    ensures r != "" ==> !IsSpace(r[0])
    ensures |r| <= |s| && r == s[|s| - |r|..]
  {
    if s != "" && IsSpace(s[0]) then TrimStart(s[1..]) else s
  }

  function TrimEnd(s: string, drop: char -> bool): (r: string)
    ensures r != "" ==> !drop(r[|r| - 1])
    ensures |r| <= |s| && r == s[..|r|] && forall i | |r| <= i < |s| :: drop(s[i])
    decreases |s|
  {
    if s != "" && drop(s[|s| - 1]) then TrimEnd(s[..|s| - 1], drop) else s
  }

  function Trim(s: string): (r: string)
    ensures r != "" ==> !IsSpace(r[0]) && !IsSpace(r[|r| - 1])
  {
    TrimEnd(TrimStart(s), IsSpace)
  }

  /** `str::rfind`: the position of the last `c`, or the length. */
  function FindLast(s: string, c: char): (i: nat)
    ensures i <= |s| && (i < |s| ==> s[i] == c && c !in s[i + 1..])
    ensures i == |s| ==> c !in s
    decreases |s|
  {
    if s == "" then 0
    else if s[|s| - 1] == c then |s| - 1
    else
      var i := FindLast(s[..|s| - 1], c);
      if i < |s| - 1 then
        assert s[i + 1..] == s[..|s| - 1][i + 1..] + [s[|s| - 1]];
        i
      else
        assert s == s[..|s| - 1] + [s[|s| - 1]];
        |s|
  }

  lemma FindLastIn(a: string, c: char, b: string)
    requires c !in b
    ensures FindLast(a + [c] + b, c) == |a|
    ensures (a + [c] + b)[..|a|] == a && (a + [c] + b)[|a| + 1..] == b
  {
    LastIs(a + [c] + b, c, |a|);
  }

  lemma LastIs(s: string, c: char, k: nat)
    requires k < |s| && s[k] == c && c !in s[k + 1..]
    ensures FindLast(s, c) == k
  {
    var i := FindLast(s, c);
    assert i < |s| ==> forall j | i < j < |s| :: s[j] == s[i + 1..][j - i - 1];
    assert forall j | k < j < |s| :: s[j] == s[k + 1..][j - k - 1];
  }

  lemma TrimEndKeeps(s: string, drop: char -> bool)
    requires s == "" || !drop(s[|s| - 1])
    ensures TrimEnd(s, drop) == s
  {
  }

  lemma TrimEndDrops(s: string, drop: char -> bool, c: char)
    requires drop(c)
    ensures TrimEnd(s + [c], drop) == TrimEnd(s, drop)
  {
    assert (s + [c])[..|s|] == s;
  }

  /** A final carriage return is whitespace to the author parser. */
  lemma TrimChopped(s: string)
    ensures Trim(Text.ChopCr(s)) == Trim(s)
  {
    if s != "" && s[|s| - 1] == '\r' {
      var t := s[..|s| - 1];
      assert s == t + ['\r'];
      TrimAppend(t);
    }
  }

  lemma TrimAppend(t: string)
    ensures Trim(t + ['\r']) == Trim(t)
  {
    TrimStartAppend(t);
    var u := TrimStart(t);
    if u != "" {
      TrimEndDrops(u, IsSpace, '\r');
    }
  }

  lemma {:induction false} TrimStartAppend(t: string)
    ensures TrimStart(t + ['\r']) == if TrimStart(t) == "" then "" else TrimStart(t) + ['\r']
  {
    var s := t + ['\r'];
    if t == "" {
      assert s[1..] == "";
    } else {
      assert s[1..] == t[1..] + ['\r'];
      TrimStartAppend(t[1..]);
    }
  }

  // ---- Authors ----

  /** `Author::format`. */
  function Format(a: Author): string {
    a.name + [' '] + Contact(a.email, a.timestamp)
  }

  function Contact(email: string, timestamp: string): string {
    ['<'] + email + ['>'] + [' '] + timestamp
  }

  /** `Author::parse`. */
  function ParseAuthor(text: string): Result<Author> {
    ParseTrimmed(Trim(text))
  }

  function ParseTrimmed(s: string): Result<Author> {
    var sp := FindLast(s, ' ');
    if sp == |s| then Err(Corrupt) else ParseIdentity(TrimEnd(s[..sp], IsSpace), s[sp + 1..])
  }

  function ParseIdentity(rest: string, timestamp: string): Result<Author> {
    var lt, gt := FindLast(rest, '<'), FindLast(rest, '>');
    if lt == |rest| || gt == |rest| || gt < lt then Err(Corrupt)
    else Ok(Author(TrimEnd(rest[..lt], IsSpace), rest[lt + 1..gt], timestamp))
  }

  predicate Trimmed(s: string) {
    s != "" ==> !IsSpace(s[0]) && !IsSpace(s[|s| - 1])
  }

  /** The authors that have a text of their own. */
  predicate WellFormed(a: Author) {
    Trimmed(a.name) && '<' !in a.email && ' ' !in a.timestamp && a.timestamp != ""
        && !IsSpace(a.timestamp[|a.timestamp| - 1])
  }

  /** Only well-formed authors are ever read. */
  lemma ParsedAuthor(text: string)
    requires ParseAuthor(text).Ok?
    ensures WellFormed(ParseAuthor(text).value)
  {
    ParsedTrimmed(Trim(text));
  }

  lemma ParsedTrimmed(s: string)
    requires Trimmed(s) && ParseTrimmed(s).Ok?
    ensures WellFormed(ParseTrimmed(s).value)
  {
    var sp := FindLast(s, ' ');
    var ts := s[sp + 1..];
    LastPiece(s, sp);
    var rest := TrimEnd(s[..sp], IsSpace);
    assert rest != "" ==> rest[0] == s[0];
    ParsedIdentity(rest, ts);
  }

  lemma LastPiece(s: string, sp: nat)
    requires Trimmed(s) && sp < |s| && s[sp] == ' '
    ensures s[sp + 1..] != "" && !IsSpace(s[sp + 1..][|s| - sp - 2])
  {
    assert s[|s| - 1] != ' ';
  }

  lemma ParsedIdentity(rest: string, timestamp: string)
    requires ParseIdentity(rest, timestamp).Ok? && (rest != "" ==> !IsSpace(rest[0]))
    ensures var a := ParseIdentity(rest, timestamp).value;
            Trimmed(a.name) && '<' !in a.email && a.timestamp == timestamp
  {
    var lt, gt := FindLast(rest, '<'), FindLast(rest, '>');
    assert rest[lt + 1..gt] == rest[lt + 1..][..gt - lt - 1];
    var name := TrimEnd(rest[..lt], IsSpace);
    assert name != "" ==> name[0] == rest[0];
  }

  /** What is read is made of characters of the text. */
  lemma ParsedCharacters(text: string, c: char)
    requires ParseAuthor(text).Ok? && c !in text
    ensures var a := ParseAuthor(text).value; c !in a.name && c !in a.email && c !in a.timestamp
  {
    TrimCharacters(text, c);
    TrimmedCharacters(Trim(text), c);
  }

  lemma TrimCharacters(s: string, c: char)
    requires c !in s
    ensures c !in Trim(s)
  {
    var t := TrimStart(s);
    PartOf(s, t, |s| - |t|, c);
    PartOf(t, TrimEnd(t, IsSpace), 0, c);
  }

  lemma TrimmedCharacters(s: string, c: char)
    requires ParseTrimmed(s).Ok? && c !in s
    ensures var a := ParseTrimmed(s).value; c !in a.name && c !in a.email && c !in a.timestamp
  {
    var sp := FindLast(s, ' ');
    var rest := TrimEnd(s[..sp], IsSpace);
    PartOf(s, rest, 0, c);
    PartOf(s, s[sp + 1..], sp + 1, c);
    IdentityCharacters(rest, s[sp + 1..], c);
  }

  lemma IdentityCharacters(rest: string, timestamp: string, c: char)
    requires ParseIdentity(rest, timestamp).Ok? && c !in rest
    ensures var a := ParseIdentity(rest, timestamp).value; c !in a.name && c !in a.email && a.timestamp == timestamp
  {
    var lt, gt := FindLast(rest, '<'), FindLast(rest, '>');
    PartOf(rest, TrimEnd(rest[..lt], IsSpace), 0, c);
    PartOf(rest, rest[lt + 1..gt], lt + 1, c);
  }

  /** A piece of a text has no characters that the text does not have. */
  lemma PartOf(s: string, part: string, at: nat, c: char)
    requires c !in s && at + |part| <= |s| && s[at..at + |part|] == part
    ensures c !in part
  {
  }

  predicate OneLine(a: Author) {
    '\n' !in a.name && '\n' !in a.email && '\n' !in a.timestamp
  }

  lemma TrimLead(name: string, tail: string)
    requires Trimmed(name) && tail != "" && Trimmed(tail)
    ensures Trim(name + [' '] + tail) == if name == "" then tail else name + [' '] + tail
  {
    var s := name + [' '] + tail;
    if name == "" {
      assert s[0] == ' ' && s[1..] == tail;
      TrimStartKeeps(tail);
      TrimEndKeeps(tail, IsSpace);
    } else {
      assert s[0] == name[0] && s[|s| - 1] == tail[|tail| - 1];
      TrimStartKeeps(s);
      TrimEndKeeps(s, IsSpace);
    }
  }

  lemma TrimStartKeeps(s: string)
    requires s != "" && !IsSpace(s[0])
    ensures TrimStart(s) == s && TrimStart([' '] + s) == s
  {
    assert ([' '] + s)[1..] == s;
  }

  lemma IdentityRead(lead: string, email: string, timestamp: string)
    requires '<' !in email
    ensures ParseIdentity(lead + ['<'] + email + ['>'], timestamp) ==
            Ok(Author(TrimEnd(lead, IsSpace), email, timestamp))
  {
    var rest := lead + ['<'] + email + ['>'];
    assert rest[|lead| + 1..] == email + ['>'];
    LastIs(rest, '<', |lead|);
    assert rest[|rest| - 1 + 1..] == "";
    LastIs(rest, '>', |rest| - 1);
    assert rest[..|lead|] == lead && rest[|lead| + 1..|rest| - 1] == email;
  }

  lemma ContactRead(lead: string, email: string, timestamp: string)
    requires '<' !in email && ' ' !in timestamp
    ensures ParseTrimmed(lead + Contact(email, timestamp)) == Ok(Author(TrimEnd(lead, IsSpace), email, timestamp))
  {
    var rest := lead + ['<'] + email + ['>'];
    assert lead + Contact(email, timestamp) == rest + [' '] + timestamp;
    FindLastIn(rest, ' ', timestamp);
    TrimEndKeeps(rest, IsSpace);
    IdentityRead(lead, email, timestamp);
  }

  lemma WellFormedRead(a: Author)
    requires WellFormed(a)
    ensures ParseAuthor(Format(a)) == Ok(a)
  {
    ContactTrimmed(a.email, a.timestamp);
    TrimLead(a.name, Contact(a.email, a.timestamp));
    LeadRead(a.name, a.email, a.timestamp);
  }

  lemma ContactTrimmed(email: string, timestamp: string)
    requires timestamp != "" && !IsSpace(timestamp[|timestamp| - 1])
    ensures Contact(email, timestamp) != "" && Trimmed(Contact(email, timestamp))
  {
    var tail := Contact(email, timestamp);
    assert tail[0] == '<' && tail[|tail| - 1] == timestamp[|timestamp| - 1];
  }

  lemma LeadRead(name: string, email: string, timestamp: string)
    requires Trimmed(name) && '<' !in email && ' ' !in timestamp
    ensures var tail := Contact(email, timestamp);
            ParseTrimmed(if name == "" then tail else name + [' '] + tail) == Ok(Author(name, email, timestamp))
  {
    if name == "" {
      ContactRead("", email, timestamp);
      assert "" + Contact(email, timestamp) == Contact(email, timestamp);
    } else {
      ContactRead(name + [' '], email, timestamp);
      TrimEndDrops(name, IsSpace, ' ');
      TrimEndKeeps(name, IsSpace);
    }
  }

  /** An author reads back from its text exactly when it is well formed. */
  lemma AuthorRoundTripIff(a: Author)
    ensures ParseAuthor(Format(a)) == Ok(a) <==> WellFormed(a)
  {
    if WellFormed(a) {
      WellFormedRead(a);
    } else if ParseAuthor(Format(a)).Ok? {
      ParsedAuthor(Format(a));
    }
  }

  // ---- Serializing ----

  const PREFIX := "!encrypted-message v1 "

  /** How messages are written: as they are, or sealed under the tenant's commit key and printed in hex. */
  datatype Messages = PlainMessage | SealedMessage(seal: string -> string, open: string -> Result<string>)

  /** An ideal cipher: what was sealed opens, and a sealed message is a hex string. */
  ghost predicate Ideal(k: Messages) {
    k.SealedMessage? ==> forall m :: k.open(k.seal(m)) == Ok(m) && '\n' !in k.seal(m)
  }

  function TrimFeeds(s: string): string {
    TrimEnd(s, IsLineFeed)
  }

  function Body(k: Messages, message: string): string {
    var m := TrimFeeds(message);
    if k.PlainMessage? then m else PREFIX + k.seal(m)
  }

  function TreeLine(t: Hex.Sha): string {
    "tree " + Hex.Encode(t)
  }

  function ParentLine(p: Hex.Sha): string {
    "parent " + Hex.Encode(p)
  }

  function AuthorLine(a: Author): string {
    "author " + Format(a)
  }

  function ParentLines(ps: seq<Hex.Sha>): (ls: seq<string>)
    ensures |ls| == |ps|
  {
    seq(|ps|, i requires 0 <= i < |ps| => ParentLine(ps[i]))
  }

  /** The header lines of a commit. */
  function Headers(c: TextCommit): seq<string> {
    [TreeLine(c.tree)] + ParentLines(c.parents) + [AuthorLine(c.author)]
  }

  /** The text of a commit: header lines, an empty line, the body. */
  function Serialize(k: Messages, c: TextCommit): string {
    Text.Unlines(Headers(c) + ["", Body(k, c.message)])
  }

  /** The text of a commit with no parent or one, as the program writes them. */
  lemma CommitText(k: Messages, c: TextCommit)
    requires |c.parents| <= 1
    ensures Serialize(k, c) ==
            "tree " + Hex.Encode(c.tree) + ['\n']
            + (if c.parents == [] then "" else "parent " + Hex.Encode(c.parents[0]) + ['\n'])
            + ("author " + (c.author.name + [' '] + ['<'] + c.author.email + ['>'] + [' '] + c.author.timestamp)
               + ['\n'])
            + ['\n'] + Body(k, c.message) + ['\n']
  {
    AuthorText(c.author);
    if c.parents == [] {
      NoParentText(k, c);
    } else {
      OneParentText(k, c);
    }
  }

  lemma NoParentText(k: Messages, c: TextCommit)
    requires c.parents == []
    ensures Serialize(k, c) ==
            TreeLine(c.tree) + ['\n'] + (AuthorLine(c.author) + ['\n']) + ("" + ['\n'] + Body(k, c.message) + ['\n'])
  {
    var t, a, b := TreeLine(c.tree), AuthorLine(c.author), Body(k, c.message);
    assert Headers(c) + ["", b] == [t, a, "", b];
    FourLines(t, a, "", b);
  }

  lemma OneParentText(k: Messages, c: TextCommit)
    requires |c.parents| == 1
    ensures Serialize(k, c) ==
            TreeLine(c.tree) + ['\n']
            + (ParentLine(c.parents[0]) + ['\n'] + (AuthorLine(c.author) + ['\n'])
               + ("" + ['\n'] + Body(k, c.message) + ['\n']))
  {
    var t, p, a, b := TreeLine(c.tree), ParentLine(c.parents[0]), AuthorLine(c.author), Body(k, c.message);
    assert Headers(c) + ["", b] == [t] + [p, a, "", b];
    assert ([t] + [p, a, "", b])[1..] == [p, a, "", b];
    FourLines(p, a, "", b);
  }

  /** The body is the message without its final line feeds, as it is or sealed behind a marker. */
  lemma BodyForm(k: Messages, message: string)
    ensures k.PlainMessage? ==> Body(k, message) == TrimFeeds(message)
    ensures k.SealedMessage? ==> Body(k, message) == "!encrypted-message v1 " + k.seal(TrimFeeds(message))
  {
  }

  lemma AuthorText(a: Author)
    ensures Format(a) == a.name + [' '] + ['<'] + a.email + ['>'] + [' '] + a.timestamp
  {
  }

  lemma FourLines(w: string, x: string, y: string, z: string)
    ensures Text.Unlines([w, x, y, z]) == w + ['\n'] + (x + ['\n']) + (y + ['\n'] + z + ['\n'])
  {
    assert [w, x, y, z][1..] == [x, y, z] && [x, y, z][1..] == [y, z] && [y, z][1..] == [z] && [z][1..] == [];
    assert Text.Unlines([z]) == z + ['\n'] + "";
    assert Text.Unlines([y, z]) == y + ['\n'] + Text.Unlines([z]);
    assert Text.Unlines([x, y, z]) == x + ['\n'] + Text.Unlines([y, z]);
  }

  /** `serialize_with_commit_key`, pushing onto one string. */
  method SerializeWithCommitKey(k: Messages, c: TextCommit) returns (out: string)
    ensures out == Serialize(k, c)
  {
    out := TreeLine(c.tree) + ['\n'];
    Text.UnlinesPush([], TreeLine(c.tree));
    assert [] + [TreeLine(c.tree)] == [TreeLine(c.tree)];
    for i := 0 to |c.parents|
      invariant out == Text.Unlines([TreeLine(c.tree)] + ParentLines(c.parents)[..i])
    {
      out := out + ParentLine(c.parents[i]) + ['\n'];
      ghost var before := [TreeLine(c.tree)] + ParentLines(c.parents)[..i];
      Text.UnlinesPush(before, ParentLine(c.parents[i]));
      assert before + [ParentLine(c.parents[i])] == [TreeLine(c.tree)] + ParentLines(c.parents)[..i + 1];
    }
    assert ParentLines(c.parents)[..|c.parents|] == ParentLines(c.parents);
    out := out + AuthorLine(c.author) + ['\n'];
    Text.UnlinesPush([TreeLine(c.tree)] + ParentLines(c.parents), AuthorLine(c.author));
    out := out + "" + ['\n'];
    Text.UnlinesPush(Headers(c), "");
    var body := Body(k, c.message);
    out := out + body + ['\n'];
    Text.UnlinesPush(Headers(c) + [""], body);
    assert Headers(c) + [""] + [body] == Headers(c) + ["", body];
  }

  // ---- Reading headers ----

  datatype Header = Header(tree: Option<Hex.Sha>, parents: seq<Hex.Sha>, author: Option<Author>)

  const NONE := Header(None, [], None)

  /** `strip_prefix` succeeds. */
  predicate Starts(l: string, p: string)
    ensures Starts(l, p) ==> |p| <= |l|
  {
    p == "" || (l != "" && l[0] == p[0] && Starts(l[1..], p[1..]))
  }

  lemma {:induction false} StartsWith(p: string, x: string)
    ensures Starts(p + x, p) && (p + x)[|p|..] == x
  {
    if p != "" {
      StartsWith(p[1..], x);
      assert (p + x)[1..] == p[1..] + x;
    }
  }

  function ReadAuthor(h: Header, text: string): Result<Header> {
    match ParseAuthor(text)
    case Err(e) => Err(e)
    case Ok(a) => Ok(h.(author := Some(a)))
  }

  /** One known header line; `None` for an unknown one. */
  function HeaderLine(h: Header, l: string): Option<Result<Header>> {
    if Starts(l, "tree ") then
      Some(match Hex.Decode(l[5..])
        case None => Err(Corrupt)
        case Some(t) => Ok(h.(tree := Some(t))))
    else if Starts(l, "parent ") then
      Some(match Hex.Decode(l[7..])
        case None => Err(Corrupt)
        case Some(p) => Ok(h.(parents := h.parents + [p])))
    else if Starts(l, "author ") then
      Some(ReadAuthor(h, l[7..]))
    else None
  }

  /** The full parser refuses unknown header lines. */
  function StrictLine(h: Header, l: string): Result<Header> {
    match HeaderLine(h, l)
    case None => Err(Corrupt)
    case Some(r) => r
  }

  /** Garbage collection ignores unknown header lines. */
  function LenientLine(h: Header, l: string): Result<Header> {
    match HeaderLine(h, l)
    case None => Ok(h)
    case Some(r) => r
  }

  datatype Split<H> = Split(header: H, body: string)

  /** The header loop of the full parser over `split_inclusive('\n')`; the body is what follows the first empty line. */
  function SplitHeaders<H>(step: (H, string) -> Result<H>, s: string, h: H): Result<Split<H>>
    decreases |s|
  {
    if s == "" then Ok(Split(h, ""))
    else
      var i := Text.Find(s, '\n');
      var rest := if i == |s| then "" else s[i + 1..];
      if i == 0 then Ok(Split(h, rest))
      else
        var next :- step(h, s[..i]);
        SplitHeaders(step, rest, next)
  }

  function StrictHeaders(s: string): Result<Split<Header>> {
    SplitHeaders(StrictLine, s, NONE)
  }

  /** The header loop of garbage collection over `lines()`. */
  function LineHeaders<H>(step: (H, string) -> Result<H>, ls: seq<string>, h: H): Result<H> {
    if ls == [] || ls[0] == "" then Ok(h)
    else
      var next :- step(h, ls[0]);
      LineHeaders(step, ls[1..], next)
  }

  function LenientHeaders(ls: seq<string>): Result<Header> {
    LineHeaders(LenientLine, ls, NONE)
  }

  function Message(k: Messages, body: string): Result<string> {
    var m := TrimFeeds(body);
    if Starts(m, PREFIX) then
      if k.PlainMessage? then Err(Unauthorized) else k.open(m[|PREFIX|..])
    else Ok(m)
  }

  function Assemble(h: Header, message: string): Result<TextCommit> {
    if h.tree.None? || h.author.None? then Err(Corrupt)
    else Ok(TextCommit(h.tree.value, h.parents, h.author.value, message))
  }

  /** `Commit::parse_with_commit_key`. */
  function Parse(k: Messages, s: string): Result<TextCommit> {
    var split :- StrictHeaders(s);
    var message :- Message(k, split.body);
    Assemble(split.header, message)
  }

  /** `parse_commit_headers` of garbage collection. */
  function GcParse(s: string): Result<TextCommit> {
    var full := Parse(PlainMessage, s);
    if full == Err(Unauthorized) then
      var h :- LenientHeaders(Text.Lines(s));
      Assemble(h, "")
    else full
  }

  /** `commit_tree` of the repository: the first tree line before the first empty line. */
  function FirstTree(ls: seq<string>): Result<Hex.Sha> {
    if ls == [] || ls[0] == "" then Err(Corrupt)
    else if Starts(ls[0], "tree ") then
      match Hex.Decode(ls[0][5..])
      case None => Err(Corrupt)
      case Some(t) => Ok(t)
    else FirstTree(ls[1..])
  }

  /** The loop of `parse_with_commit_key`. */
  method ParseWithCommitKey(k: Messages, s: string) returns (r: Result<TextCommit>)
    ensures r == Parse(k, s)
  {
    var h, rest, more := NONE, s, true;
    while more && rest != ""
      invariant more ==> SplitHeaders(StrictLine, rest, h) == StrictHeaders(s)
      invariant !more ==> StrictHeaders(s) == Ok(Split(h, rest))
      decreases more, |rest|
    {
      var i := Text.Find(rest, '\n');
      var l := rest[..i];
      rest := if i == |rest| then "" else rest[i + 1..];
      if l == "" {
        more := false;
      } else {
        h :- StrictLine(h, l);
      }
    }
    var message :- Message(k, rest);
    r := Assemble(h, message);
  }

  /** The loop of `parse_commit_headers`. */
  method ParseCommitHeaders(s: string) returns (r: Result<TextCommit>)
    ensures r == GcParse(s)
  {
    r := ParseWithCommitKey(PlainMessage, s);
    if r == Err(Unauthorized) {
      var ls, h, i := Text.Lines(s), NONE, 0;
      assert ls[0..] == ls;
      while i < |ls| && ls[i] != ""
        invariant 0 <= i <= |ls|
        invariant LineHeaders(LenientLine, ls[i..], h) == LenientHeaders(ls)
      {
        assert ls[i..][0] == ls[i] && ls[i..][1..] == ls[i + 1..];
        h :- LenientLine(h, ls[i]);
        i := i + 1;
      }
      r := Assemble(h, "");
    }
  }

  /** The loop of `commit_tree`. */
  method CommitTree(s: string) returns (r: Result<Hex.Sha>)
    ensures r == FirstTree(Text.Lines(s))
  {
    var ls, i := Text.Lines(s), 0;
    assert ls[0..] == ls;
    while i < |ls| && ls[i] != ""
      invariant 0 <= i <= |ls|
      invariant FirstTree(ls[i..]) == FirstTree(ls)
    {
      assert ls[i..][0] == ls[i] && ls[i..][1..] == ls[i + 1..];
      if Starts(ls[i], "tree ") {
        var t := Hex.Decode(ls[i][5..]);
        return if t.None? then Err(Corrupt) else Ok(t.value);
      }
      i := i + 1;
    }
    r := Err(Corrupt);
  }

  // ---- The readers agree on every text ----

  lemma HexEnds(s: string)
    requires Hex.Pairs(s).Some? && s != ""
    ensures s[|s| - 1] != '\r'
  {
    if |s| > 2 {
      HexEnds(s[2..]);
    }
  }

  lemma {:induction false} ChoppedStarts(l: string, p: string)
    requires Starts(l, p) && p != "" && p[|p| - 1] != '\r'
    ensures Starts(Text.ChopCr(l), p)
    ensures Text.ChopCr(l)[|p|..] == Text.ChopCr(l[|p|..])
  {
    if |p| > 1 {
      ChoppedStarts(l[1..], p[1..]);
      assert Text.ChopCr(l)[1..] == Text.ChopCr(l[1..]);
      assert l[|p|..] == l[1..][|p| - 1..] && Text.ChopCr(l)[|p|..] == Text.ChopCr(l)[1..][|p| - 1..];
    }
  }

  /** The three kinds of header line differ in their first letter. */
  lemma KindOf(l: string)
    ensures Starts(l, "tree ") ==> l[0] == 't'
    ensures Starts(l, "parent ") ==> l[0] == 'p'
    ensures Starts(l, "author ") ==> l[0] == 'a'
  {
  }

  lemma ChoppedAuthor(h: Header, l: string)
    requires Starts(l, "author ")
    ensures Text.ChopCr(l) != "" && Text.ChopCr(l)[0] == 'a' && HeaderLine(h, Text.ChopCr(l)) == HeaderLine(h, l)
  {
    var p := "author ";
    ChoppedStarts(l, p);
    TrimChopped(l[|p|..]);
    KindOf(l);
    KindOf(Text.ChopCr(l));
  }

  /** A line the full parser takes means the same to a reader that drops a final carriage return. */
  lemma ChoppedLine(h: Header, l: string)
    requires StrictLine(h, l).Ok?
    ensures Text.ChopCr(l) != "" && LenientLine(h, Text.ChopCr(l)) == StrictLine(h, l)
    ensures Starts(l, "tree ") ==> Text.ChopCr(l) == l
    ensures Starts(Text.ChopCr(l), "tree ") == Starts(l, "tree ")
  {
    KindOf(l);
    KindOf(Text.ChopCr(l));
    if Starts(l, "tree ") {
      HexEnds(l[5..]);
    } else if Starts(l, "parent ") {
      HexEnds(l[7..]);
    } else {
      ChoppedAuthor(h, l);
    }
  }

  lemma LinesStep(s: string)
    requires s != ""
    ensures var i := Text.Find(s, '\n');
            var rest := if i == |s| then "" else s[i + 1..];
            Text.Lines(s) == [if i == |s| then s[..i] else Text.ChopCr(s[..i])] + Text.Lines(rest)
  {
    assert Text.Find(s, '\n') == |s| ==> s[..|s|] == s;
  }

  /**
   Every line the strict step takes, the lenient one takes to the same end, with or without a
   final carriage return.
   */
  ghost predicate Tolerates<H(!new)>(strict: (H, string) -> Result<H>, lenient: (H, string) -> Result<H>) {
    forall h, l {:trigger strict(h, l)} :: strict(h, l).Ok? ==>
        Text.ChopCr(l) != "" && lenient(h, Text.ChopCr(l)) == lenient(h, l) == strict(h, l)
  }

  lemma LineHeadersStep<H>(step: (H, string) -> Result<H>, l: string, ls: seq<string>, h: H, next: H)
    requires l != "" && step(h, l) == Ok(next)
    ensures LineHeaders(step, [l] + ls, h) == LineHeaders(step, ls, next)
  {
    assert ([l] + ls)[0] == l && ([l] + ls)[1..] == ls;
  }

  lemma ToleratesLine<H(!new)>(strict: (H, string) -> Result<H>, lenient: (H, string) -> Result<H>, h: H, l: string)
    requires Tolerates(strict, lenient) && strict(h, l).Ok?
    ensures Text.ChopCr(l) != "" && lenient(h, Text.ChopCr(l)) == lenient(h, l) == strict(h, l)
  {
  }

  lemma {:induction false} LineHeadersAgree<H(!new)>(strict: (H, string) -> Result<H>,
                                                     lenient: (H, string) -> Result<H>, s: string, h: H)
    requires Tolerates(strict, lenient) && SplitHeaders(strict, s, h).Ok?
    ensures LineHeaders(lenient, Text.Lines(s), h) == Ok(SplitHeaders(strict, s, h).value.header)
    decreases |s|
  {
    if s != "" {
      var i := Text.Find(s, '\n');
      var l, rest := s[..i], if i == |s| then "" else s[i + 1..];
      LinesStep(s);
      if i != 0 {
        ToleratesLine(strict, lenient, h, l);
        var next := strict(h, l).value;
        LineHeadersAgree(strict, lenient, rest, next);
        LineHeadersStep(lenient, if i == |s| then l else Text.ChopCr(l), Text.Lines(rest), h, next);
      } else {
        assert Text.Lines(s)[0] == "";
      }
    }
  }

  /** On headers the full parser takes, the header reader of garbage collection finds the same. */
  lemma LenientAgrees(s: string)
    requires StrictHeaders(s).Ok?
    ensures LenientHeaders(Text.Lines(s)) == Ok(StrictHeaders(s).value.header)
  {
    forall h, l | StrictLine(h, l).Ok?
      ensures Text.ChopCr(l) != "" && LenientLine(h, Text.ChopCr(l)) == LenientLine(h, l) == StrictLine(h, l)
    {
      ChoppedLine(h, l);
    }
    LineHeadersAgree(StrictLine, LenientLine, s, NONE);
  }

  /** Whatever key opens a commit, garbage collection reads the same tree, parents and author without one. */
  lemma GcAgrees(k: Messages, s: string)
    requires Parse(k, s).Ok?
    ensures GcParse(s).Ok?
    ensures GcParse(s).value.(message := "") == Parse(k, s).value.(message := "")
  {
    LenientAgrees(s);
  }

  lemma LineTree(h: Header, l: string)
    requires StrictLine(h, l).Ok?
    ensures if Starts(l, "tree ") then Hex.Decode(l[5..]).Some? else StrictLine(h, l).value.tree == h.tree
  {
  }

  lemma {:induction false} FirstTreeFound(s: string, h: Header)
    requires SplitHeaders(StrictLine, s, h).Ok?
    ensures FirstTree(Text.Lines(s)).Ok? || SplitHeaders(StrictLine, s, h).value.header.tree == h.tree
    decreases |s|
  {
    if s != "" {
      var i := Text.Find(s, '\n');
      LinesStep(s);
      if i != 0 {
        var l := s[..i];
        ChoppedLine(h, l);
        LineTree(h, l);
        FirstTreeFound(if i == |s| then "" else s[i + 1..], StrictLine(h, l).value);
      }
    }
  }

  /** The repository finds a tree in every commit that parses. */
  lemma TreeFound(k: Messages, s: string)
    requires Parse(k, s).Ok?
    ensures FirstTree(Text.Lines(s)).Ok?
  {
    FirstTreeFound(s, NONE);
  }

  // ---- Serialized commits ----

  /** The lines of a list, one after the other. */
  function FoldLines<H>(step: (H, string) -> Result<H>, ls: seq<string>, h: H): Result<H> {
    if ls == [] then Ok(h)
    else
      var next :- step(h, ls[0]);
      FoldLines(step, ls[1..], next)
  }

  /** How the full parser goes on after the header lines. */
  function AfterLines<H>(step: (H, string) -> Result<H>, r: Result<H>, rest: string): Result<Split<H>> {
    match r
    case Err(e) => Err(e)
    case Ok(h) => SplitHeaders(step, rest, h)
  }

  ghost predicate HeaderText(ls: seq<string>) {
    forall l | l in ls :: '\n' !in l && l != ""
  }

  lemma {:induction false} SplitUnlines<H>(step: (H, string) -> Result<H>, ls: seq<string>, tail: seq<string>, h: H)
    requires HeaderText(ls)
    ensures SplitHeaders(step, Text.Unlines(ls + tail), h) ==
            AfterLines(step, FoldLines(step, ls, h), Text.Unlines(tail))
    decreases |ls|
  {
    if ls == [] {
      assert ls + tail == tail;
    } else {
      assert (ls + tail)[0] == ls[0] && (ls + tail)[1..] == ls[1..] + tail;
      assert ls[0] in ls && forall l | l in ls[1..] :: l in ls;
      Text.FindIn(ls[0], '\n', Text.Unlines(ls[1..] + tail));
      if step(h, ls[0]).Ok? {
        SplitUnlines(step, ls[1..], tail, step(h, ls[0]).value);
      }
    }
  }

  lemma {:induction false} FoldAppend<H>(step: (H, string) -> Result<H>, a: seq<string>, b: seq<string>, h: H)
    requires FoldLines(step, a, h).Ok?
    ensures FoldLines(step, a + b, h) == FoldLines(step, b, FoldLines(step, a, h).value)
    decreases |a|
  {
    if a == [] {
      assert a + b == b;
    } else {
      FoldAppend(step, a[1..], b, step(h, a[0]).value);
      assert (a + b)[0] == a[0] && (a + b)[1..] == a[1..] + b;
    }
  }

  lemma FoldCons<H>(step: (H, string) -> Result<H>, l: string, ls: seq<string>, h: H, next: H)
    requires step(h, l) == Ok(next)
    ensures FoldLines(step, [l] + ls, h) == FoldLines(step, ls, next)
  {
    assert ([l] + ls)[0] == l && ([l] + ls)[1..] == ls;
  }

  lemma FoldOne<H>(step: (H, string) -> Result<H>, l: string, h: H)
    ensures FoldLines(step, [l], h) == step(h, l)
  {
    assert [l][1..] == [];
  }

  lemma HexText(b: Hex.Sha)
    ensures Hex.Decode(Hex.Encode(b)) == Some(b) && '\n' !in Hex.Encode(b)
  {
    Hex.RoundTrip(b);
  }

  lemma TreeLineRead(t: Hex.Sha, h: Header)
    ensures StrictLine(h, TreeLine(t)) == Ok(h.(tree := Some(t)))
    ensures Starts(TreeLine(t), "tree ") && TreeLine(t)[5..] == Hex.Encode(t)
    ensures '\n' !in TreeLine(t) && TreeLine(t) != ""
  {
    HexText(t);
    StartsWith("tree ", Hex.Encode(t));
  }

  lemma ParentLineRead(p: Hex.Sha, h: Header)
    ensures StrictLine(h, ParentLine(p)) == Ok(h.(parents := h.parents + [p]))
    ensures '\n' !in ParentLine(p) && ParentLine(p) != ""
  {
    HexText(p);
    StartsWith("parent ", Hex.Encode(p));
    KindOf(ParentLine(p));
  }

  lemma AuthorLineRead(a: Author, h: Header)
    ensures StrictLine(h, AuthorLine(a)) == ReadAuthor(h, Format(a))
  {
    StartsWith("author ", Format(a));
    KindOf(AuthorLine(a));
  }

  lemma AuthorLineText(a: Author)
    ensures AuthorLine(a) != "" && (OneLine(a) ==> '\n' !in AuthorLine(a))
  {
    assert OneLine(a) ==> '\n' !in Contact(a.email, a.timestamp);
  }

  lemma {:induction false} ParentLinesRead(ps: seq<Hex.Sha>, h: Header)
    ensures FoldLines(StrictLine, ParentLines(ps), h) == Ok(h.(parents := h.parents + ps))
    ensures HeaderText(ParentLines(ps))
  {
    if ps == [] {
      assert h.parents + ps == h.parents;
    } else {
      var next := h.(parents := h.parents + [ps[0]]);
      var line, rest := ParentLine(ps[0]), ParentLines(ps[1..]);
      ParentLineRead(ps[0], h);
      assert ParentLines(ps) == [line] + rest;
      ParentLinesRead(ps[1..], next);
      FoldCons(StrictLine, line, rest, h, next);
      assert h.parents + [ps[0]] + ps[1..] == h.parents + ps;
    }
  }

  lemma HeaderLinesText(c: TextCommit)
    requires OneLine(c.author)
    ensures HeaderText(Headers(c))
  {
    TreeLineRead(c.tree, NONE);
    ParentLinesRead(c.parents, NONE);
    AuthorLineText(c.author);
  }

  /** All the header lines together. */
  lemma HeaderLinesRead(c: TextCommit)
    ensures FoldLines(StrictLine, Headers(c), NONE) ==
            ReadAuthor(Header(Some(c.tree), c.parents, None), Format(c.author))
  {
    TreeLineRead(c.tree, NONE);
    FoldOne(StrictLine, TreeLine(c.tree), NONE);
    var h := NONE.(tree := Some(c.tree));
    ParentLinesRead(c.parents, h);
    assert [] + c.parents == c.parents;
    FoldAppend(StrictLine, [TreeLine(c.tree)], ParentLines(c.parents), NONE);
    FoldAppend(StrictLine, [TreeLine(c.tree)] + ParentLines(c.parents), [AuthorLine(c.author)], NONE);
    AuthorLineRead(c.author, h.(parents := c.parents));
    FoldOne(StrictLine, AuthorLine(c.author), h.(parents := c.parents));
  }

  lemma BodyText<H>(step: (H, string) -> Result<H>, body: string, h: H)
    ensures SplitHeaders(step, Text.Unlines(["", body]), h) == Ok(Split(h, body + ['\n']))
  {
    Text.UnlinesPush([], "");
    Text.UnlinesPush([""], body);
    assert [] + [""] == [""] && [""] + [body] == ["", body];
    var s := Text.Unlines(["", body]);
    assert s == ['\n'] + body + ['\n'];
    assert Text.Find(s, '\n') == 0 && s[1..] == body + ['\n'];
  }

  /** The headers of a serialized commit, whatever its message, provided its author has no line feed. */
  lemma HeadersRead(k: Messages, c: TextCommit)
    requires OneLine(c.author)
    ensures StrictHeaders(Serialize(k, c)) ==
            var a := ParseAuthor(Format(c.author));
            if a.Err? then Err(a.error)
            else Ok(Split(Header(Some(c.tree), c.parents, Some(a.value)), Body(k, c.message) + ['\n']))
  {
    HeaderLinesRead(c);
    HeaderLinesText(c);
    var body := Body(k, c.message);
    SplitUnlines(StrictLine, Headers(c), ["", body], NONE);
    if ParseAuthor(Format(c.author)).Ok? {
      BodyText(StrictLine, body, Header(Some(c.tree), c.parents, Some(ParseAuthor(Format(c.author)).value)));
    }
  }

  /** The first line of a serialized commit is its tree. */
  lemma TreeFirst(k: Messages, c: TextCommit)
    ensures FirstTree(Text.Lines(Serialize(k, c))) == Ok(c.tree)
  {
    var ls := Headers(c) + ["", Body(k, c.message)];
    assert ls[0] == TreeLine(c.tree);
    TreeLineRead(c.tree, NONE);
    HexText(c.tree);
    ChoppedLine(NONE, TreeLine(c.tree));
    Text.LinesCons(ls[0], Text.Unlines(ls[1..]));
  }

  lemma BodyRead(k: Messages, message: string)
    requires Ideal(k)
    ensures Message(k, Body(k, message) + ['\n']) ==
            if k.PlainMessage? && Starts(TrimFeeds(message), PREFIX) then Err(Unauthorized) else Ok(TrimFeeds(message))
  {
    var m := TrimFeeds(message);
    var body := Body(k, message);
    TrimEndDrops(body, IsLineFeed, '\n');
    assert body == "" || body[|body| - 1] != '\n' by {
      if k.SealedMessage? {
        assert body[|body| - 1] == if k.seal(m) == "" then ' ' else k.seal(m)[|k.seal(m)| - 1];
      }
    }
    TrimEndKeeps(body, IsLineFeed);
    if k.SealedMessage? {
      StartsWith(PREFIX, k.seal(m));
    }
  }

  // ---- The headers of any serialized commit ----

  /** The lines of a text before the first empty one. */
  function HeadLines(s: string): seq<string>
    decreases |s|
  {
    var i := Text.Find(s, '\n');
    if i == 0 then [] else [s[..i]] + if i == |s| then [] else HeadLines(s[i + 1..])
  }

  /** The full parser folds its step over those lines. */
  lemma {:induction false} HeadFold<H>(step: (H, string) -> Result<H>, s: string, h: H)
    ensures var split, fold := SplitHeaders(step, s, h), FoldLines(step, HeadLines(s), h);
            if fold.Ok? then split.Ok? && split.value.header == fold.value else split == Err(fold.error)
    decreases |s|
  {
    var i := Text.Find(s, '\n');
    if i != 0 {
      var l, rest := s[..i], if i == |s| then "" else s[i + 1..];
      assert HeadLines("") == [];
      assert HeadLines(s)[0] == l && HeadLines(s)[1..] == HeadLines(rest);
      if step(h, l).Ok? {
        HeadFold(step, rest, step(h, l).value);
      }
    }
  }

  /** The header lines that an author makes: its line, cut at line feeds, up to the first empty piece. */
  function AuthorHead(a: Author): seq<string> {
    HeadLines(AuthorLine(a))
  }

  lemma HeadPush(l: string, rest: string)
    requires '\n' !in l && l != ""
    ensures HeadLines(l + ['\n'] + rest) == [l] + HeadLines(rest)
  {
    Text.FindIn(l, '\n', rest);
  }

  lemma HeadStep(l: string, ls: seq<string>, rest: string, more: seq<string>)
    requires '\n' !in l && l != "" && HeadLines(rest) == ls + more
    ensures HeadLines(l + ['\n'] + rest) == [l] + ls + more
  {
    HeadPush(l, rest);
    assert [l] + (ls + more) == [l] + ls + more;
  }

  lemma {:induction false} HeadUnlines(ls: seq<string>, tail: seq<string>)
    requires HeaderText(ls)
    ensures HeadLines(Text.Unlines(ls + tail)) == ls + HeadLines(Text.Unlines(tail))
  {
    if ls == [] {
      assert ls + tail == tail;
    } else {
      assert (ls + tail)[0] == ls[0] && (ls + tail)[1..] == ls[1..] + tail && ls[0] in ls;
      assert forall l | l in ls[1..] :: l in ls;
      HeadUnlines(ls[1..], tail);
      HeadStep(ls[0], ls[1..], Text.Unlines(ls[1..] + tail), HeadLines(Text.Unlines(tail)));
      assert ls == [ls[0]] + ls[1..];
    }
  }

  /** What follows an empty line is no header. */
  lemma {:induction false} HeadCut(x: string, rest: string)
    ensures HeadLines(x + ['\n'] + (['\n'] + rest)) == HeadLines(x)
    decreases |x|
  {
    var s, i := x + ['\n'] + (['\n'] + rest), Text.Find(x, '\n');
    assert Text.Find(['\n'] + rest, '\n') == 0;
    if i == |x| {
      assert x[..|x|] == x && HeadLines(['\n'] + rest) == [];
      if x == "" {
        assert s == ['\n'] + (['\n'] + rest);
      } else {
        HeadPush(x, ['\n'] + rest);
      }
    } else {
      var l, more := x[..i], x[i + 1..];
      assert x == l + ['\n'] + more;
      assert s == l + ['\n'] + (more + ['\n'] + (['\n'] + rest));
      Text.FindIn(l, '\n', more + ['\n'] + (['\n'] + rest));
      HeadCut(more, rest);
    }
  }

  /** The header lines of a serialized commit, for every author. */
  lemma SerializedHead(k: Messages, c: TextCommit)
    ensures HeadLines(Serialize(k, c)) == [TreeLine(c.tree)] + ParentLines(c.parents) + AuthorHead(c.author)
  {
    var ls, x, body := [TreeLine(c.tree)] + ParentLines(c.parents), AuthorLine(c.author), Body(k, c.message);
    OwnText(c);
    assert Headers(c) + ["", body] == ls + [x, "", body];
    HeadUnlines(ls, [x, "", body]);
    AuthorCut(x, body);
  }

  lemma OwnText(c: TextCommit)
    ensures HeaderText([TreeLine(c.tree)] + ParentLines(c.parents))
  {
    TreeLineRead(c.tree, NONE);
    ParentLinesRead(c.parents, NONE);
  }

  lemma AuthorCut(x: string, body: string)
    ensures HeadLines(Text.Unlines([x, "", body])) == HeadLines(x)
  {
    assert [x, "", body][1..] == ["", body] && ["", body][1..] == [body];
    var rest := Text.Unlines([body]);
    assert Text.Unlines(["", body]) == "" + ['\n'] + rest == ['\n'] + rest;
    assert Text.Unlines([x, "", body]) == x + ['\n'] + (['\n'] + rest);
    HeadCut(x, rest);
  }

  // ---- What header lines say ----

  function TreeIn(l: string): Option<Hex.Sha> {
    if Starts(l, "tree ") then Hex.Decode(l[5..]) else None
  }

  function ParentIn(l: string): seq<Hex.Sha> {
    if Starts(l, "parent ") && Hex.Decode(l[7..]).Some? then [Hex.Decode(l[7..]).value] else []
  }

  /** The full parser takes the line, whatever came before it. */
  predicate Taken(l: string) {
    StrictLine(NONE, l).Ok?
  }

  /** The tree that the last tree line names. */
  function LastTree(treeIn: string -> Option<Hex.Sha>, ls: seq<string>): Option<Hex.Sha> {
    if ls == [] then None
    else
      var later := LastTree(treeIn, ls[1..]);
      if later.Some? then later else treeIn(ls[0])
  }

  function AllParents(parentIn: string -> seq<Hex.Sha>, ls: seq<string>): seq<Hex.Sha> {
    if ls == [] then [] else parentIn(ls[0]) + AllParents(parentIn, ls[1..])
  }

  function Or(a: Option<Hex.Sha>, b: Option<Hex.Sha>): Option<Hex.Sha> {
    if a.Some? then a else b
  }

  /** A step that refuses or takes a line whatever came before, and notes its tree and parents. */
  ghost predicate Notes(step: (Header, string) -> Result<Header>, taken: string -> bool,
                        treeIn: string -> Option<Hex.Sha>, parentIn: string -> seq<Hex.Sha>) {
    forall h, l {:trigger step(h, l)} ::
      && (step(h, l).Ok? <==> taken(l))
      && (step(h, l).Err? ==> step(h, l).error == Corrupt)
      && (step(h, l).Ok? ==>
            && step(h, l).value.tree == Or(treeIn(l), h.tree)
            && step(h, l).value.parents == h.parents + parentIn(l)
            && (h.author.Some? ==> step(h, l).value.author.Some?))
  }

  lemma StrictNotes()
    ensures Notes(StrictLine, Taken, TreeIn, ParentIn)
  {
    forall h: Header, l: string
      ensures StrictLine(h, l).Ok? <==> Taken(l)
      ensures StrictLine(h, l).Err? ==> StrictLine(h, l).error == Corrupt
      ensures StrictLine(h, l).Ok? ==>
                && StrictLine(h, l).value.tree == Or(TreeIn(l), h.tree)
                && StrictLine(h, l).value.parents == h.parents + ParentIn(l)
                && (h.author.Some? ==> StrictLine(h, l).value.author.Some?)
    {
      KindOf(l);
      assert h.parents + [] == h.parents;
    }
  }

  lemma {:induction false} FoldNotes(step: (Header, string) -> Result<Header>, taken: string -> bool,
                                     treeIn: string -> Option<Hex.Sha>, parentIn: string -> seq<Hex.Sha>,
                                     ls: seq<string>, h: Header)
    requires Notes(step, taken, treeIn, parentIn)
    ensures var r := FoldLines(step, ls, h);
            && (r.Ok? <==> forall l | l in ls :: taken(l))
            && (r.Err? ==> r.error == Corrupt)
            && (r.Ok? ==>
                  && r.value.tree == Or(LastTree(treeIn, ls), h.tree)
                  && r.value.parents == h.parents + AllParents(parentIn, ls)
                  && (h.author.Some? ==> r.value.author.Some?))
    decreases |ls|
  {
    if ls == [] {
      assert h.parents + [] == h.parents;
    } else {
      assert ls == [ls[0]] + ls[1..];
      var first := step(h, ls[0]);
      if first.Ok? {
        FoldNotes(step, taken, treeIn, parentIn, ls[1..], first.value);
        assert h.parents + parentIn(ls[0]) + AllParents(parentIn, ls[1..]) == h.parents + AllParents(parentIn, ls);
      }
    }
  }

  /** The headers of a serialized commit: its own tree and parents, and then what the lines of its author say. */
  lemma SerializedHeaders(k: Messages, c: TextCommit)
    ensures var r, ls := StrictHeaders(Serialize(k, c)), AuthorHead(c.author);
            && (r.Ok? <==> forall l | l in ls :: Taken(l))
            && (r.Err? ==> r.error == Corrupt)
            && (r.Ok? ==>
                  && r.value.header.tree == Or(LastTree(TreeIn, ls), Some(c.tree))
                  && r.value.header.parents == c.parents + AllParents(ParentIn, ls)
                  && r.value.header.author.Some?)
  {
    SerializedHead(k, c);
    HeadFold(StrictLine, Serialize(k, c), NONE);
    OwnLines(c);
    FoldAppend(StrictLine, [TreeLine(c.tree)] + ParentLines(c.parents), AuthorHead(c.author), NONE);
    AuthorHeadRead(c.author, Header(Some(c.tree), c.parents, None));
  }

  lemma OwnLines(c: TextCommit)
    ensures FoldLines(StrictLine, [TreeLine(c.tree)] + ParentLines(c.parents), NONE) ==
            Ok(Header(Some(c.tree), c.parents, None))
  {
    TreeLineRead(c.tree, NONE);
    ParentLinesRead(c.parents, NONE.(tree := Some(c.tree)));
    FoldCons(StrictLine, TreeLine(c.tree), ParentLines(c.parents), NONE, NONE.(tree := Some(c.tree)));
    assert [] + c.parents == c.parents;
  }

  lemma AuthorHeadRead(a: Author, h: Header)
    ensures var r, ls := FoldLines(StrictLine, AuthorHead(a), h), AuthorHead(a);
            && (r.Ok? <==> forall l | l in ls :: Taken(l))
            && (r.Err? ==> r.error == Corrupt)
            && (r.Ok? ==>
                  && r.value.tree == Or(LastTree(TreeIn, ls), h.tree)
                  && r.value.parents == h.parents + AllParents(ParentIn, ls)
                  && r.value.author.Some?)
  {
    StrictNotes();
    var ls := AuthorHead(a);
    FoldNotes(StrictLine, Taken, TreeIn, ParentIn, ls, h);
    AuthorStarts(a, h);
    if StrictLine(h, ls[0]).Ok? {
      FoldNotes(StrictLine, Taken, TreeIn, ParentIn, ls[1..], StrictLine(h, ls[0]).value);
    }
  }

  /** The first of the lines is an author line. */
  lemma AuthorStarts(a: Author, h: Header)
    ensures AuthorHead(a) != []
            && (StrictLine(h, AuthorHead(a)[0]).Ok? ==> StrictLine(h, AuthorHead(a)[0]).value.author.Some?)
  {
    var s, i := AuthorLine(a), Text.Find(AuthorLine(a), '\n');
    var p := "author ";
    StartsWith(p, Format(a));
    PrefixStarts(s, p, i);
    KindOf(s[..i]);
  }

  lemma {:induction false} PrefixStarts(s: string, p: string, i: nat)
    requires Starts(s, p) && i <= |s| && '\n' !in p && (i < |s| ==> s[i] == '\n')
    ensures Starts(s[..i], p)
    decreases |p|
  {
    if p != "" {
      assert s[0] == p[0] && p[0] in p && i > 0;
      PrefixStarts(s[1..], p[1..], i - 1);
      assert s[..i][1..] == s[1..][..i - 1];
    }
  }

  /** Garbage collection depends on the headers only. */
  lemma GcHeaders(s: string)
    requires StrictHeaders(s).Err? ==> StrictHeaders(s).error == Corrupt
    ensures GcParse(s).Ok? <==>
            StrictHeaders(s).Ok? && StrictHeaders(s).value.header.tree.Some?
                && StrictHeaders(s).value.header.author.Some?
    ensures GcParse(s).Ok? ==>
              var h := StrictHeaders(s).value.header;
              GcParse(s).value.(message := "") == TextCommit(h.tree.value, h.parents, h.author.value, "")
  {
    if StrictHeaders(s).Ok? {
      LenientAgrees(s);
    }
  }

  /**
   For every author, garbage collection reads a serialized commit, sealed or not, exactly
   when it takes every header line that the author makes. It then finds the commit's own
   tree if and only if the last tree line among these is absent or names that tree, and the
   commit's own parents if and only if there is no parent line among them.
   */
  lemma GcSerialized(k: Messages, c: TextCommit)
    ensures GcParse(Serialize(k, c)).Ok? <==> forall l | l in AuthorHead(c.author) :: Taken(l)
    ensures GcParse(Serialize(k, c)).Ok? ==>
              var read, last := GcParse(Serialize(k, c)).value, LastTree(TreeIn, AuthorHead(c.author));
              && (read.tree == c.tree <==> last.None? || last.value == c.tree)
              && (read.parents == c.parents <==> AllParents(ParentIn, AuthorHead(c.author)) == [])
  {
    SerializedHeaders(k, c);
    GcHeaders(Serialize(k, c));
  }

  /** The same for the full parser, and so for its agreement with the tree lookup of the repository. */
  lemma ReadersAgreeIff(k: Messages, c: TextCommit)
    requires Parse(k, Serialize(k, c)).Ok?
    ensures var read, last := Parse(k, Serialize(k, c)).value, LastTree(TreeIn, AuthorHead(c.author));
            && (FirstTree(Text.Lines(Serialize(k, c))) == Ok(read.tree) <==> last.None? || last.value == c.tree)
            && (read.tree == c.tree <==> last.None? || last.value == c.tree)
            && (read.parents == c.parents <==> AllParents(ParentIn, AuthorHead(c.author)) == [])
  {
    GcAgrees(k, Serialize(k, c));
    GcSerialized(k, c);
    TreeFirst(k, c);
  }

  /** An author without line feeds makes one header line, and its commit is read as it is. */
  lemma GcOneLine(k: Messages, c: TextCommit)
    requires OneLine(c.author)
    ensures GcParse(Serialize(k, c)).Ok? <==> ParseAuthor(Format(c.author)).Ok?
    ensures GcParse(Serialize(k, c)).Ok? ==>
              var read := GcParse(Serialize(k, c)).value;
              read.tree == c.tree && read.parents == c.parents && Ok(read.author) == ParseAuthor(Format(c.author))
  {
    HeadersRead(k, c);
    SerializedHeaders(k, c);
    GcHeaders(Serialize(k, c));
  }

  // ---- Round trip ----

  lemma AuthorLineGood(h: Header, l: string)
    requires '\n' !in l && StrictLine(h, l).Ok?
    requires GoodAuthor(h)
    ensures GoodAuthor(StrictLine(h, l).value)
  {
    KindOf(l);
    if Starts(l, "author ") {
      assert '\n' !in l[7..];
      ParsedAuthor(l[7..]);
      ParsedCharacters(l[7..], '\n');
    }
  }

  ghost predicate GoodAuthor(h: Header) {
    h.author.Some? ==> WellFormed(h.author.value) && OneLine(h.author.value)
  }

  lemma {:induction false} ReadAuthors(s: string, h: Header)
    requires SplitHeaders(StrictLine, s, h).Ok? && GoodAuthor(h)
    ensures GoodAuthor(SplitHeaders(StrictLine, s, h).value.header)
    decreases |s|
  {
    if s != "" {
      var i := Text.Find(s, '\n');
      if i != 0 {
        AuthorLineGood(h, s[..i]);
        ReadAuthors(if i == |s| then "" else s[i + 1..], StrictLine(h, s[..i]).value);
      }
    }
  }

  lemma ReadBackAuthor(k: Messages, s: string)
    requires Parse(k, s).Ok?
    ensures WellFormed(Parse(k, s).value.author) && OneLine(Parse(k, s).value.author)
  {
    ReadAuthors(s, NONE);
  }

  /** The commits that have a text of their own. */
  predicate Recoverable(k: Messages, c: TextCommit) {
    && WellFormed(c.author)
    && OneLine(c.author)
    && (c.message != "" ==> c.message[|c.message| - 1] != '\n')
    && (k.PlainMessage? ==> !Starts(c.message, PREFIX))
  }

  lemma SerializedParse(k: Messages, c: TextCommit)
    requires Ideal(k) && WellFormed(c.author) && OneLine(c.author)
    ensures Parse(k, Serialize(k, c)) ==
            if k.PlainMessage? && Starts(TrimFeeds(c.message), PREFIX) then Err(Unauthorized)
            else Ok(c.(message := TrimFeeds(c.message)))
  {
    WellFormedRead(c.author);
    HeadersRead(k, c);
    BodyRead(k, c.message);
    ParseParts(k, Serialize(k, c), c.tree, c.parents, c.author, Body(k, c.message) + ['\n']);
  }

  lemma ParseParts(k: Messages, s: string, tree: Hex.Sha, parents: seq<Hex.Sha>, author: Author, body: string)
    requires StrictHeaders(s) == Ok(Split(Header(Some(tree), parents, Some(author)), body))
    ensures Parse(k, s) ==
            if Message(k, body).Err? then Err(Message(k, body).error)
            else Ok(TextCommit(tree, parents, author, Message(k, body).value))
  {
  }

  /** A commit reads back from its text, plain or sealed, exactly when it is recoverable. */
  lemma CommitRoundTripIff(k: Messages, c: TextCommit)
    requires Ideal(k)
    ensures Parse(k, Serialize(k, c)) == Ok(c) <==> Recoverable(k, c)
  {
    if WellFormed(c.author) && OneLine(c.author) {
      SerializedParse(k, c);
      TrimmedFeeds(c.message);
    } else if Parse(k, Serialize(k, c)).Ok? {
      ReadBackAuthor(k, Serialize(k, c));
    }
  }

  lemma TrimmedFeeds(message: string)
    ensures TrimFeeds(message) == message <==> (message != "" ==> message[|message| - 1] != '\n')
  {
    if message == "" || message[|message| - 1] != '\n' {
      TrimEndKeeps(message, IsLineFeed);
    }
  }

  function InjectedName(a: Author, other: Hex.Sha, b: Author): string {
    Format(a) + ['\n'] + TreeLine(other) + ['\n'] + "author " + b.name
  }

  /**
   A commit on which the readers disagree: line feeds in an author's
   name can add a second tree line, which the full parser prefers and the
   repository never sees.
   */
  lemma InjectedTree(t: Hex.Sha, other: Hex.Sha, a: Author, b: Author)
    requires WellFormed(a) && OneLine(a) && WellFormed(b) && OneLine(b)
    ensures var c := TextCommit(t, [], b.(name := InjectedName(a, other, b)), "");
            && FirstTree(Text.Lines(Serialize(PlainMessage, c))) == Ok(t)
            && Parse(PlainMessage, Serialize(PlainMessage, c)) == Ok(TextCommit(other, [], b, ""))
  {
    var c := TextCommit(t, [], b.(name := InjectedName(a, other, b)), "");
    TreeFirst(PlainMessage, c);
    InjectedText(t, other, a, b);
    InjectedLines(t, other, a, b);
    var ls := [TreeLine(t), AuthorLine(a), TreeLine(other), AuthorLine(b)];
    SplitUnlines(StrictLine, ls, ["", ""], NONE);
    BodyText(StrictLine, "", Header(Some(other), [], Some(b)));
    var text := Serialize(PlainMessage, c);
    assert StrictHeaders(text) == Ok(Split(Header(Some(other), [], Some(b)), "" + ['\n']));
    TrimmedFeeds("");
    BodyRead(PlainMessage, "");
    ParseParts(PlainMessage, text, other, [], b, "" + ['\n']);
  }

  lemma InjectedLines(t: Hex.Sha, other: Hex.Sha, a: Author, b: Author)
    requires WellFormed(a) && OneLine(a) && WellFormed(b) && OneLine(b)
    ensures var ls := [TreeLine(t), AuthorLine(a), TreeLine(other), AuthorLine(b)];
            HeaderText(ls) && FoldLines(StrictLine, ls, NONE) == Ok(Header(Some(other), [], Some(b)))
  {
    var h1 := NONE.(tree := Some(t));
    var h2 := h1.(author := Some(a));
    var h3 := h2.(tree := Some(other));
    TreeLineRead(t, NONE);
    TreeLineRead(other, h2);
    GoodLine(a, h1);
    GoodLine(b, h3);
    FoldFour(StrictLine, TreeLine(t), AuthorLine(a), TreeLine(other), AuthorLine(b), NONE, h1, h2, h3);
  }

  lemma GoodLine(a: Author, h: Header)
    requires WellFormed(a) && OneLine(a)
    ensures StrictLine(h, AuthorLine(a)) == Ok(h.(author := Some(a))) && AuthorLine(a) != "" && '\n' !in AuthorLine(a)
  {
    WellFormedRead(a);
    AuthorLineRead(a, h);
    AuthorLineText(a);
  }

  lemma FoldFour<H>(step: (H, string) -> Result<H>, w: string, x: string, y: string, z: string, h0: H, h1: H, h2: H,
                    h3: H)
    requires step(h0, w) == Ok(h1) && step(h1, x) == Ok(h2) && step(h2, y) == Ok(h3)
    ensures FoldLines(step, [w, x, y, z], h0) == step(h3, z)
  {
    FoldOne(step, z, h3);
    assert [y, z][1..] == [z] && [x, y, z][1..] == [y, z] && [w, x, y, z][1..] == [x, y, z];
    assert FoldLines(step, [y, z], h2) == step(h3, z);
    assert FoldLines(step, [x, y, z], h1) == step(h3, z);
  }

  lemma InjectedText(t: Hex.Sha, other: Hex.Sha, a: Author, b: Author)
    ensures var c := TextCommit(t, [], b.(name := InjectedName(a, other, b)), "");
            Serialize(PlainMessage, c) ==
                Text.Unlines([TreeLine(t), AuthorLine(a), TreeLine(other), AuthorLine(b)] + ["", ""])
  {
    var c := TextCommit(t, [], b.(name := InjectedName(a, other, b)), "");
    var w, x, y, z := TreeLine(t), AuthorLine(a), TreeLine(other), AuthorLine(b);
    InjectedLine(other, a, b);
    JoinedLines(w, x, y, z, ["", ""]);
    assert Headers(c) == [w] + [AuthorLine(c.author)];
    assert [w] + [AuthorLine(c.author)] + ["", ""] == [w, AuthorLine(c.author)] + ["", ""];
  }

  lemma InjectedLine(other: Hex.Sha, a: Author, b: Author)
    ensures AuthorLine(b.(name := InjectedName(a, other, b))) ==
            AuthorLine(a) + ['\n'] + TreeLine(other) + ['\n'] + AuthorLine(b)
  {
    var tail := [' '] + Contact(b.email, b.timestamp);
    assert AuthorLine(b) == "author " + b.name + tail;
    assert AuthorLine(b.(name := InjectedName(a, other, b))) == "author " + InjectedName(a, other, b) + tail;
  }

  lemma JoinedLines(w: string, x: string, y: string, z: string, after: seq<string>)
    ensures Text.Unlines([w, x + ['\n'] + y + ['\n'] + z] + after) == Text.Unlines([w, x, y, z] + after)
  {
    var xyz := x + ['\n'] + y + ['\n'] + z;
    assert ([w, xyz] + after)[1..] == [xyz] + after && ([xyz] + after)[1..] == after;
    assert ([w, x, y, z] + after)[1..] == [x, y, z] + after && ([x, y, z] + after)[1..] == [y, z] + after;
    assert ([y, z] + after)[1..] == [z] + after && ([z] + after)[1..] == after;
    var u := Text.Unlines(after);
    assert Text.Unlines([xyz] + after) == xyz + ['\n'] + u;
    assert Text.Unlines([z] + after) == z + ['\n'] + u;
    assert Text.Unlines([y, z] + after) == y + ['\n'] + (z + ['\n'] + u);
    assert Text.Unlines([x, y, z] + after) == x + ['\n'] + (y + ['\n'] + (z + ['\n'] + u));
    assert xyz + ['\n'] + u == x + ['\n'] + (y + ['\n'] + (z + ['\n'] + u));
  }
}
