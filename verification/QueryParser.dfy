/**
 The predicate parser (`Parser`, crates/omp-core/src/query.rs:80-95, 325-511),
 from tokens on. `Cst` is the grammar of its comments: a concrete syntax tree
 prints to tokens and erases to the expression it stands for.
 */
module QueryParser {

  datatype Op = Eq | Ne | Lt | Le | Gt | Ge | Contains | StartsWith

  datatype Literal = StrL(s: string) | IntL(i: int) | FloatL(f: real) | BoolL(b: bool) | NullL

  datatype Atom = Compare(path: seq<string>, op: Op, value: Literal) | Exists(path: seq<string>)

  datatype Expr = And(l: Expr, r: Expr) | Or(l: Expr, r: Expr) | Not(e: Expr) | AtomE(atom: Atom)

  datatype Tok =
    | Ident(name: string)
    | Lit(value: Literal)
    | AndT | OrT | NotT | ExistsT
    | OpT(op: Op)
    | LParen | RParen | Dot | Comma

  /** The outcome of one parsing function: a value and the tokens left over. */
  datatype P<T> = Fail | Got(value: T, rest: seq<Tok>)

  predicate Starts(ts: seq<Tok>, t: Tok) {
    ts != [] && ts[0] == t
  }

  function PathLoop(path: seq<string>, ts: seq<Tok>): (p: P<seq<string>>)
    ensures p.Got? ==> |p.rest| <= |ts|
    decreases |ts|
  {
    if !Starts(ts, Dot) then Got(path, ts)
    else if |ts| > 1 && ts[1].Ident? then PathLoop(path + [ts[1].name], ts[2..])
    else Fail
  }

  function FieldPath(ts: seq<Tok>): (p: P<seq<string>>)
    ensures p.Got? ==> |p.rest| < |ts|
  {
    if ts != [] && ts[0].Ident? then PathLoop([ts[0].name], ts[1..]) else Fail
  }

  function ParseOr(ts: seq<Tok>): (p: P<Expr>)
    ensures p.Got? ==> |p.rest| < |ts|
    decreases |ts|, 4
  {
    match ParseAnd(ts)
    case Fail => Fail
    case Got(left, rest) => OrLoop(left, rest)
  }

  function OrLoop(left: Expr, ts: seq<Tok>): (p: P<Expr>)
    ensures p.Got? ==> |p.rest| <= |ts|
    decreases |ts|, 0
  {
    if !Starts(ts, OrT) then Got(left, ts)
    else match ParseAnd(ts[1..])
      case Fail => Fail
      case Got(right, rest) => OrLoop(Or(left, right), rest)
  }

  function ParseAnd(ts: seq<Tok>): (p: P<Expr>)
    ensures p.Got? ==> |p.rest| < |ts|
    decreases |ts|, 3
  {
    match ParseNot(ts)
    case Fail => Fail
    case Got(left, rest) => AndLoop(left, rest)
  }

  function AndLoop(left: Expr, ts: seq<Tok>): (p: P<Expr>)
    ensures p.Got? ==> |p.rest| <= |ts|
    decreases |ts|, 0
  {
    if !Starts(ts, AndT) then Got(left, ts)
    else match ParseNot(ts[1..])
      case Fail => Fail
      case Got(right, rest) => AndLoop(And(left, right), rest)
  }

  function ParseNot(ts: seq<Tok>): (p: P<Expr>)
    ensures p.Got? ==> |p.rest| < |ts|
    decreases |ts|, 2
  {
    if Starts(ts, NotT) then
      match ParseNot(ts[1..])
      case Fail => Fail
      case Got(e, rest) => Got(Not(e), rest)
    else ParsePrimary(ts)
  }

  function ParsePrimary(ts: seq<Tok>): (p: P<Expr>)
    ensures p.Got? ==> |p.rest| < |ts|
    decreases |ts|, 1
  {
    if Starts(ts, LParen) then
      match ParseOr(ts[1..])
      case Fail => Fail
      case Got(e, rest) => if Starts(rest, RParen) then Got(e, rest[1..]) else Fail
    else if Starts(ts, ExistsT) then
      if !Starts(ts[1..], LParen) then Fail
      else match FieldPath(ts[2..])
        case Fail => Fail
        case Got(path, rest) => if Starts(rest, RParen) then Got(AtomE(Exists(path)), rest[1..]) else Fail
    else match FieldPath(ts)
      case Fail => Fail
      case Got(path, rest) =>
        if |rest| >= 2 && rest[0].OpT? && rest[1].Lit? then
          Got(AtomE(Compare(path, rest[0].op, rest[1].value)), rest[2..])
        else Fail
  }

  /** `parse` on tokens: the whole input must be consumed. */
  function Parse(ts: seq<Tok>): P<Expr> {
    var p := ParseOr(ts);
    if p.Got? && p.rest == [] then p else Fail
  }

  // ---- The grammar ----

  datatype Cst = OrC(l: Cst, r: Cst) | AndC(l: Cst, r: Cst) | NotC(e: Cst) | ParenC(e: Cst) | AtomC(atom: Atom)

  predicate OrLevel(c: Cst)
    decreases c, 2
  {
    if c.OrC? then OrLevel(c.l) && AndLevel(c.r) else AndLevel(c)
  }

  predicate AndLevel(c: Cst)
    decreases c, 1
  {
    if c.AndC? then AndLevel(c.l) && NotLevel(c.r) else NotLevel(c)
  }

  predicate NotLevel(c: Cst)
    decreases c, 0
  {
    match c
    case NotC(e) => NotLevel(e)
    case ParenC(e) => OrLevel(e)
    case AtomC(a) => a.path != []
    case _ => false
  }

  function Erase(c: Cst): Expr {
    match c
    case OrC(l, r) => Or(Erase(l), Erase(r))
    case AndC(l, r) => And(Erase(l), Erase(r))
    case NotC(e) => Not(Erase(e))
    case ParenC(e) => Erase(e)
    case AtomC(a) => AtomE(a)
  }

  function DotPath(path: seq<string>): seq<Tok> {
    if path == [] then [] else [Dot, Ident(path[0])] + DotPath(path[1..])
  }

  function PrintPath(path: seq<string>): seq<Tok> {
    if path == [] then [] else [Ident(path[0])] + DotPath(path[1..])
  }

  function PrintAtom(a: Atom): seq<Tok> {
    match a
    case Compare(path, op, v) => PrintPath(path) + [OpT(op), Lit(v)]
    case Exists(path) => [ExistsT, LParen] + PrintPath(path) + [RParen]
  }

  function Print(c: Cst): seq<Tok> {
    match c
    case OrC(l, r) => Print(l) + [OrT] + Print(r)
    case AndC(l, r) => Print(l) + [AndT] + Print(r)
    case NotC(e) => [NotT] + Print(e)
    case ParenC(e) => [LParen] + Print(e) + [RParen]
    case AtomC(a) => PrintAtom(a)
  }

  // ---- Completeness ----

  lemma {:induction false} PathLoopPrints(done: seq<string>, path: seq<string>, rest: seq<Tok>)
    requires !Starts(rest, Dot)
    ensures PathLoop(done, DotPath(path) + rest) == Got(done + path, rest)
    decreases |path|
  {
    var ts := DotPath(path) + rest;
    if path != [] {
      assert ts[2..] == DotPath(path[1..]) + rest;
      PathLoopPrints(done + [path[0]], path[1..], rest);
      assert done + [path[0]] + path[1..] == done + path;
    } else {
      assert ts == rest && done + path == done;
    }
  }

  lemma FieldPathPrints(path: seq<string>, rest: seq<Tok>)
    requires path != [] && !Starts(rest, Dot)
    ensures FieldPath(PrintPath(path) + rest) == Got(path, rest)
  {
    var ts := PrintPath(path) + rest;
    assert ts[0] == Ident(path[0]) && ts[1..] == DotPath(path[1..]) + rest;
    PathLoopPrints([path[0]], path[1..], rest);
    assert [path[0]] + path[1..] == path;
  }

  lemma AtomPrints(a: Atom, rest: seq<Tok>)
    requires a.path != []
    ensures ParseNot(PrintAtom(a) + rest) == Got(AtomE(a), rest)
  {
    match a
    case Compare(path, op, v) => ComparePrints(path, op, v, rest);
    case Exists(path) => ExistsPrints(path, rest);
  }

  lemma ComparePrints(path: seq<string>, op: Op, v: Literal, rest: seq<Tok>)
    requires path != []
    ensures ParseNot(PrintAtom(Compare(path, op, v)) + rest) == Got(AtomE(Compare(path, op, v)), rest)
  {
    var ts := PrintAtom(Compare(path, op, v)) + rest;
    var tail := [OpT(op), Lit(v)] + rest;
    assert ts == PrintPath(path) + tail && ts[0] == Ident(path[0]);
    FieldPathPrints(path, tail);
    assert tail[0] == OpT(op) && tail[1] == Lit(v) && tail[2..] == rest;
    assert ParsePrimary(ts) == Got(AtomE(Compare(path, op, v)), rest);
  }

  lemma ExistsPrints(path: seq<string>, rest: seq<Tok>)
    requires path != []
    ensures ParseNot(PrintAtom(Exists(path)) + rest) == Got(AtomE(Exists(path)), rest)
  {
    var ts := PrintAtom(Exists(path)) + rest;
    var tail := [RParen] + rest;
    assert ts[0] == ExistsT && ts[1..][0] == LParen && ts[2..] == PrintPath(path) + tail;
    FieldPathPrints(path, tail);
    assert tail[0] == RParen && tail[1..] == rest;
    assert ParsePrimary(ts) == Got(AtomE(Exists(path)), rest);
  }

  lemma {:induction false} NotPrints(c: Cst, rest: seq<Tok>)
    requires NotLevel(c)
    ensures ParseNot(Print(c) + rest) == Got(Erase(c), rest)
    decreases c, 0
  {
    match c
    case NotC(e) =>
      NotPrints(e, rest);
      NotText(e, rest);
      AfterNot(Print(c) + rest, Print(e) + rest);
    case ParenC(e) =>
      OrPrints(e, [RParen] + rest);
      ParenText(e, rest);
      AfterParen(Print(c) + rest, Print(e) + ([RParen] + rest), Erase(e), rest);
    case AtomC(a) =>
      AtomPrints(a, rest);
  }

  lemma NotText(e: Cst, rest: seq<Tok>)
    ensures Print(NotC(e)) + rest == [NotT] + (Print(e) + rest)
  {
  }

  lemma ParenText(e: Cst, rest: seq<Tok>)
    ensures Print(ParenC(e)) + rest == [LParen] + (Print(e) + ([RParen] + rest))
  {
  }

  lemma AfterNot(ts: seq<Tok>, tail: seq<Tok>)
    requires ts == [NotT] + tail && ParseNot(tail).Got?
    ensures ParseNot(ts) == Got(Not(ParseNot(tail).value), ParseNot(tail).rest)
  {
    assert ts[1..] == tail;
  }

  lemma AfterParen(ts: seq<Tok>, tail: seq<Tok>, e: Expr, rest: seq<Tok>)
    requires ts == [LParen] + tail && ParseOr(tail) == OrLoop(e, [RParen] + rest)
    ensures ParseNot(ts) == Got(e, rest)
  {
    assert ts[0] == LParen && ts[1..] == tail && ([RParen] + rest)[0] == RParen && ([RParen] + rest)[1..] == rest;
    assert ParseOr(tail) == Got(e, [RParen] + rest);
    assert ParsePrimary(ts) == Got(e, rest);
  }

  lemma InfixText(l: seq<Tok>, op: Tok, r: seq<Tok>, rest: seq<Tok>)
    ensures l + [op] + r + rest == l + ([op] + (r + rest))
    ensures ([op] + (r + rest))[0] == op && ([op] + (r + rest))[1..] == r + rest
  {
  }

  lemma AndGoesOn(left: Expr, ts: seq<Tok>, right: Expr, rest: seq<Tok>)
    requires Starts(ts, AndT) && ParseNot(ts[1..]) == Got(right, rest)
    ensures AndLoop(left, ts) == AndLoop(And(left, right), rest)
  {
  }

  lemma {:induction false} AndPrints(c: Cst, rest: seq<Tok>)
    requires AndLevel(c)
    ensures ParseAnd(Print(c) + rest) == AndLoop(Erase(c), rest)
    decreases c, 1
  {
    if c.AndC? {
      var tail := [AndT] + (Print(c.r) + rest);
      InfixText(Print(c.l), AndT, Print(c.r), rest);
      AndPrints(c.l, tail);
      NotPrints(c.r, rest);
      AndGoesOn(Erase(c.l), tail, Erase(c.r), rest);
    } else {
      NotPrints(c, rest);
    }
  }

  lemma {:induction false} OrPrints(c: Cst, rest: seq<Tok>)
    requires OrLevel(c) && !Starts(rest, AndT)
    ensures ParseOr(Print(c) + rest) == OrLoop(Erase(c), rest)
    decreases c, 2
  {
    if c.OrC? {
      var tail := [OrT] + (Print(c.r) + rest);
      InfixText(Print(c.l), OrT, Print(c.r), rest);
      OrPrints(c.l, tail);
      AndPrints(c.r, rest);
    } else {
      AndPrints(c, rest);
    }
  }

  /** Completeness: every token list of the grammar parses, to the expression it stands for. */
  lemma ParseComplete(c: Cst)
    requires OrLevel(c)
    ensures Parse(Print(c)) == Got(Erase(c), [])
  {
    assert Print(c) + [] == Print(c);
    OrPrints(c, []);
  }

  // ---- Soundness ----

  lemma {:induction false} PathLoopSound(path: seq<string>, ts: seq<Tok>) returns (more: seq<string>)
    requires PathLoop(path, ts).Got?
    ensures PathLoop(path, ts).value == path + more && ts == DotPath(more) + PathLoop(path, ts).rest
    decreases |ts|
  {
    if Starts(ts, Dot) {
      var tail := PathLoopSound(path + [ts[1].name], ts[2..]);
      more := [ts[1].name] + tail;
      assert more[1..] == tail && ts == [Dot, ts[1]] + ts[2..];
    } else {
      more := [];
    }
  }

  lemma FieldPathSound(ts: seq<Tok>)
    requires FieldPath(ts).Got?
    ensures FieldPath(ts).value != [] && ts == PrintPath(FieldPath(ts).value) + FieldPath(ts).rest
  {
    var more := PathLoopSound([ts[0].name], ts[1..]);
    var path := FieldPath(ts).value;
    assert path == [ts[0].name] + more && path[1..] == more && ts == [ts[0]] + ts[1..];
  }

  lemma {:induction false} PrimarySound(ts: seq<Tok>) returns (c: Cst)
    requires ParsePrimary(ts).Got?
    ensures NotLevel(c) && Erase(c) == ParsePrimary(ts).value && ts == Print(c) + ParsePrimary(ts).rest
    decreases |ts|, 1
  {
    if Starts(ts, LParen) {
      var e := OrSound(ts[1..]);
      ParenShape(ts, e, ParseOr(ts[1..]).rest);
      c := ParenC(e);
    } else {
      var a := AtomSound(ts);
      c := AtomC(a);
    }
  }

  lemma AtomSound(ts: seq<Tok>) returns (a: Atom)
    requires ParsePrimary(ts).Got? && !Starts(ts, LParen)
    ensures a.path != [] && ParsePrimary(ts).value == AtomE(a) && ts == PrintAtom(a) + ParsePrimary(ts).rest
  {
    if Starts(ts, ExistsT) {
      FieldPathSound(ts[2..]);
      a := Exists(FieldPath(ts[2..]).value);
      ExistsShape(ts, a.path, FieldPath(ts[2..]).rest);
    } else {
      var rest := FieldPath(ts).rest;
      FieldPathSound(ts);
      a := Compare(FieldPath(ts).value, rest[0].op, rest[1].value);
      CompareShape(ts, a, rest);
    }
  }

  lemma ExistsShape(ts: seq<Tok>, path: seq<string>, rest: seq<Tok>)
    requires |ts| >= 2 && ts[0] == ExistsT && ts[1] == LParen && ts[2..] == PrintPath(path) + rest
             && Starts(rest, RParen)
    ensures ts == PrintAtom(Exists(path)) + rest[1..]
  {
    assert ts == [ExistsT, LParen] + ts[2..] && rest == [RParen] + rest[1..];
  }

  lemma CompareShape(ts: seq<Tok>, a: Atom, rest: seq<Tok>)
    requires a.Compare? && |rest| >= 2 && rest[0] == OpT(a.op) && rest[1] == Lit(a.value)
             && ts == PrintPath(a.path) + rest
    ensures ts == PrintAtom(a) + rest[2..]
  {
    assert rest == [rest[0], rest[1]] + rest[2..];
  }

  lemma {:induction false} NotSound(ts: seq<Tok>) returns (c: Cst)
    requires ParseNot(ts).Got?
    ensures NotLevel(c) && Erase(c) == ParseNot(ts).value && ts == Print(c) + ParseNot(ts).rest
    decreases |ts|, 2
  {
    if Starts(ts, NotT) {
      var e := NotSound(ts[1..]);
      c := NotC(e);
      NotShape(ts, e, ParseNot(ts[1..]).rest);
    } else {
      c := PrimarySound(ts);
    }
  }

  lemma NotShape(ts: seq<Tok>, e: Cst, rest: seq<Tok>)
    requires Starts(ts, NotT) && ts[1..] == Print(e) + rest
    ensures ts == Print(NotC(e)) + rest
  {
    assert ts == [NotT] + ts[1..];
  }

  lemma ParenShape(ts: seq<Tok>, e: Cst, rest: seq<Tok>)
    requires Starts(ts, LParen) && ts[1..] == Print(e) + rest && Starts(rest, RParen)
    ensures ts == Print(ParenC(e)) + rest[1..]
  {
    assert ts == [LParen] + ts[1..] && rest == [RParen] + rest[1..];
  }

  lemma Infix(l: seq<Tok>, op: Tok, r: seq<Tok>, rest: seq<Tok>, ts: seq<Tok>)
    requires Starts(ts, op) && ts[1..] == r + rest
    ensures l + ts == l + [op] + r + rest
  {
    assert ts == [op] + ts[1..];
  }

  lemma {:induction false} AndLoopSound(left: Cst, ts: seq<Tok>) returns (c: Cst)
    requires AndLevel(left) && AndLoop(Erase(left), ts).Got?
    ensures AndLevel(c) && Erase(c) == AndLoop(Erase(left), ts).value
            && Print(left) + ts == Print(c) + AndLoop(Erase(left), ts).rest
    decreases |ts|, 0
  {
    if Starts(ts, AndT) {
      var right := NotSound(ts[1..]);
      var rest := ParseNot(ts[1..]).rest;
      Infix(Print(left), AndT, Print(right), rest, ts);
      c := AndLoopSound(AndC(left, right), rest);
    } else {
      c := left;
    }
  }

  lemma {:induction false} AndSound(ts: seq<Tok>) returns (c: Cst)
    requires ParseAnd(ts).Got?
    ensures AndLevel(c) && Erase(c) == ParseAnd(ts).value && ts == Print(c) + ParseAnd(ts).rest
    decreases |ts|, 3
  {
    var left := NotSound(ts);
    c := AndLoopSound(left, ParseNot(ts).rest);
  }

  lemma {:induction false} OrLoopSound(left: Cst, ts: seq<Tok>) returns (c: Cst)
    requires OrLevel(left) && OrLoop(Erase(left), ts).Got?
    ensures OrLevel(c) && Erase(c) == OrLoop(Erase(left), ts).value
            && Print(left) + ts == Print(c) + OrLoop(Erase(left), ts).rest
    decreases |ts|, 0
  {
    if Starts(ts, OrT) {
      var right := AndSound(ts[1..]);
      var rest := ParseAnd(ts[1..]).rest;
      Infix(Print(left), OrT, Print(right), rest, ts);
      c := OrLoopSound(OrC(left, right), rest);
    } else {
      c := left;
    }
  }

  lemma {:induction false} OrSound(ts: seq<Tok>) returns (c: Cst)
    requires ParseOr(ts).Got?
    ensures OrLevel(c) && Erase(c) == ParseOr(ts).value && ts == Print(c) + ParseOr(ts).rest
    decreases |ts|, 4
  {
    var left := AndSound(ts);
    c := OrLoopSound(left, ParseAnd(ts).rest);
  }

  /** The parser accepts exactly the grammar: it returns `e` just for the prints of trees that erase to `e`. */
  lemma ParseExact(ts: seq<Tok>, e: Expr)
    ensures Parse(ts) == Got(e, []) <==> exists c :: OrLevel(c) && Print(c) == ts && Erase(c) == e
  {
    if Parse(ts) == Got(e, []) {
      var c := OrSound(ts);
      assert Print(c) + [] == Print(c);
    }
    forall c | OrLevel(c) && Print(c) == ts && Erase(c) == e ensures Parse(ts) == Got(e, []) {
      ParseComplete(c);
    }
  }

  // ---- Rendering with the fewest parentheses ----

  predicate Printable(e: Expr) {
    match e
    case And(l, r) => Printable(l) && Printable(r)
    case Or(l, r) => Printable(l) && Printable(r)
    case Not(x) => Printable(x)
    case AtomE(a) => a.path != []
  }

  function RenderOr(e: Expr): Cst
    decreases e, 2
  {
    if e.Or? then OrC(RenderOr(e.l), RenderAnd(e.r)) else RenderAnd(e)
  }

  function RenderAnd(e: Expr): Cst
    decreases e, 1
  {
    if e.And? then AndC(RenderAnd(e.l), RenderNot(e.r)) else RenderNot(e)
  }

  function RenderNot(e: Expr): Cst
    decreases e, 0
  {
    match e
    case Or(l, r) => ParenC(OrC(RenderOr(l), RenderAnd(r)))
    case And(l, r) => ParenC(AndC(RenderAnd(l), RenderNot(r)))
    case Not(x) => NotC(RenderNot(x))
    case AtomE(a) => AtomC(a)
  }

  lemma {:induction false} RenderLevels(e: Expr)
    requires Printable(e)
    ensures OrLevel(RenderOr(e)) && AndLevel(RenderAnd(e)) && NotLevel(RenderNot(e))
    ensures Erase(RenderOr(e)) == Erase(RenderAnd(e)) == Erase(RenderNot(e)) == e
    ensures |Print(RenderOr(e))| <= |Print(RenderAnd(e))| <= |Print(RenderNot(e))| <= |Print(RenderOr(e))| + 2
  {
    match e
    case Or(l, r) =>
      RenderLevels(l);
      RenderLevels(r);
      var c := OrC(RenderOr(l), RenderAnd(r));
      assert RenderOr(e) == c && RenderAnd(e) == RenderNot(e) == ParenC(c);
      InParens(c);
    case And(l, r) =>
      RenderLevels(l);
      RenderLevels(r);
      var c := AndC(RenderAnd(l), RenderNot(r));
      assert RenderOr(e) == RenderAnd(e) == c && RenderNot(e) == ParenC(c);
      InParens(c);
    case Not(x) =>
      RenderLevels(x);
      assert RenderOr(e) == RenderAnd(e) == RenderNot(e) == NotC(RenderNot(x));
    case AtomE(a) =>
      assert RenderOr(e) == RenderAnd(e) == RenderNot(e) == AtomC(a);
  }

  lemma InParens(c: Cst)
    ensures |Print(ParenC(c))| == |Print(c)| + 2 && Erase(ParenC(c)) == Erase(c) && NotLevel(ParenC(c)) == OrLevel(c)
    ensures !c.OrC? ==> OrLevel(c) == AndLevel(c)
  {
  }

  lemma {:induction false} RenderShortest(c: Cst)
    requires Printable(Erase(c))
    ensures NotLevel(c) ==> |Print(RenderNot(Erase(c)))| <= |Print(c)|
    ensures AndLevel(c) ==> |Print(RenderAnd(Erase(c)))| <= |Print(c)|
    ensures OrLevel(c) ==> |Print(RenderOr(Erase(c)))| <= |Print(c)|
  {
    RenderLevels(Erase(c));
    match c
    case OrC(l, r) =>
      RenderShortest(l);
      RenderShortest(r);
    case AndC(l, r) =>
      RenderShortest(l);
      RenderShortest(r);
    case NotC(e) =>
      RenderShortest(e);
    case ParenC(e) =>
      RenderShortest(e);
    case AtomC(_) =>
  }

  /**
   Round trip: any expression, rendered with as few parentheses as the grammar
   allows, parses back to itself.
   */
  lemma RoundTrip(e: Expr)
    requires Printable(e)
    ensures Parse(Print(RenderOr(e))) == Got(e, [])
    ensures forall c | OrLevel(c) && Erase(c) == e :: |Print(RenderOr(e))| <= |Print(c)|
  {
    RenderLevels(e);
    ParseComplete(RenderOr(e));
    forall c | OrLevel(c) && Erase(c) == e ensures |Print(RenderOr(e))| <= |Print(c)| {
      RenderShortest(c);
    }
  }

  // ---- The parser with its cursor ----

  /** What a method that moves the cursor from `before` to `after` has parsed. */
  ghost predicate Agrees<T>(p: P<T>, r: P<T>, tokens: seq<Tok>, after: nat) {
    after <= |tokens| && (r.Got? <==> p.Got?) && (r.Got? ==> r.value == p.value && tokens[after..] == p.rest)
  }

  class Parser {
    const tokens: seq<Tok>
    var pos: nat

    constructor (tokens: seq<Tok>)
      ensures this.tokens == tokens && pos == 0
    {
      this.tokens, pos := tokens, 0;
    }

    /** `parse`; the `rest` of a result is not used, the cursor stands for it. */
    method ParseAll() returns (r: P<Expr>)
      requires pos == 0
      modifies this
      ensures Parse(tokens).Got? <==> r.Got?
      ensures r.Got? ==> Parse(tokens) == Got(r.value, [])
    {
      assert tokens[0..] == tokens;
      r := Disjunction();
      if pos < |tokens| {
        r := Fail;
      }
    }

    /** `parse_or`. */
    method Disjunction() returns (r: P<Expr>)
      requires pos <= |tokens|
      modifies this
      ensures Agrees(ParseOr(tokens[old(pos)..]), r, tokens, pos)
      decreases |tokens| - pos, 4
    {
      var start := pos;
      r := Conjunction();
      if r.Fail? {
        return;
      }
      while pos < |tokens| && tokens[pos] == OrT
        invariant start < pos <= |tokens| && r.Got?
        invariant OrLoop(r.value, tokens[pos..]) == ParseOr(tokens[start..])
        decreases |tokens| - pos
      {
        assert tokens[pos..][1..] == tokens[pos + 1..];
        pos := pos + 1;
        var left := r.value;
        r := Conjunction();
        if r.Fail? {
          return;
        }
        r := Got(Or(left, r.value), []);
      }
    }

    /** `parse_and`. */
    method Conjunction() returns (r: P<Expr>)
      requires pos <= |tokens|
      modifies this
      ensures Agrees(ParseAnd(tokens[old(pos)..]), r, tokens, pos)
      ensures r.Got? ==> old(pos) < pos
      decreases |tokens| - pos, 3
    {
      var start := pos;
      r := Negation();
      if r.Fail? {
        return;
      }
      while pos < |tokens| && tokens[pos] == AndT
        invariant start < pos <= |tokens| && r.Got?
        invariant AndLoop(r.value, tokens[pos..]) == ParseAnd(tokens[start..])
        decreases |tokens| - pos
      {
        assert tokens[pos..][1..] == tokens[pos + 1..];
        pos := pos + 1;
        var left := r.value;
        r := Negation();
        if r.Fail? {
          return;
        }
        r := Got(And(left, r.value), []);
      }
    }

    /** `parse_not`. */
    method Negation() returns (r: P<Expr>)
      requires pos <= |tokens|
      modifies this
      ensures Agrees(ParseNot(tokens[old(pos)..]), r, tokens, pos)
      ensures r.Got? ==> old(pos) < pos
      decreases |tokens| - pos, 2
    {
      if pos < |tokens| && tokens[pos] == NotT {
        assert tokens[pos..][1..] == tokens[pos + 1..];
        pos := pos + 1;
        r := Negation();
        if r.Got? {
          r := Got(Not(r.value), []);
        }
      } else {
        r := Primary();
      }
    }

    /** `parse_primary`. */
    method Primary() returns (r: P<Expr>)
      requires pos <= |tokens|
      modifies this
      ensures Agrees(ParsePrimary(tokens[old(pos)..]), r, tokens, pos)
      ensures r.Got? ==> old(pos) < pos
      decreases |tokens| - pos, 1
    {
      if pos < |tokens| && tokens[pos] == LParen {
        assert tokens[pos..][1..] == tokens[pos + 1..];
        pos := pos + 1;
        r := Disjunction();
        if r.Got? {
          r := Close(r.value);
        }
      } else if pos < |tokens| && tokens[pos] == ExistsT {
        assert tokens[pos..][1..] == tokens[pos + 1..];
        pos := pos + 1;
        if !(pos < |tokens| && tokens[pos] == LParen) {
          return Fail;
        }
        assert tokens[pos - 1..][2..] == tokens[pos + 1..];
        pos := pos + 1;
        var path := Path();
        if path.Fail? {
          return Fail;
        }
        r := Close(AtomE(Exists(path.value)));
      } else {
        var path := Path();
        if path.Fail? || pos >= |tokens| || !tokens[pos].OpT? || pos + 1 >= |tokens| || !tokens[pos + 1].Lit? {
          return Fail;
        }
        assert tokens[pos..][2..] == tokens[pos + 2..];
        r := Got(AtomE(Compare(path.value, tokens[pos].op, tokens[pos + 1].value)), []);
        pos := pos + 2;
      }
    }

    /** `expect(RParen)`. */
    method Close(e: Expr) returns (r: P<Expr>)
      requires pos <= |tokens|
      modifies this
      ensures r.Got? <==> Starts(tokens[old(pos)..], RParen)
      ensures r.Got? ==> r.value == e && pos == old(pos) + 1 <= |tokens| && tokens[pos..] == tokens[old(pos)..][1..]
      ensures r.Fail? ==> pos == old(pos)
    {
      if pos < |tokens| && tokens[pos] == RParen {
        pos := pos + 1;
        r := Got(e, []);
      } else {
        r := Fail;
      }
    }

    /** `parse_field_path`. */
    method Path() returns (r: P<seq<string>>)
      requires pos <= |tokens|
      modifies this
      ensures Agrees(FieldPath(tokens[old(pos)..]), r, tokens, pos)
      ensures r.Got? ==> old(pos) < pos
    {
      if pos >= |tokens| || !tokens[pos].Ident? {
        return Fail;
      }
      var start, path := pos, [tokens[pos].name];
      assert tokens[pos..][1..] == tokens[pos + 1..];
      pos := pos + 1;
      while pos < |tokens| && tokens[pos] == Dot
        invariant start < pos <= |tokens|
        invariant PathLoop(path, tokens[pos..]) == FieldPath(tokens[start..])
        decreases |tokens| - pos
      {
        if pos + 1 >= |tokens| || !tokens[pos + 1].Ident? {
          return Fail;
        }
        assert tokens[pos..][2..] == tokens[pos + 2..];
        path := path + [tokens[pos + 1].name];
        pos := pos + 2;
      }
      r := Got(path, []);
    }
  }
}
