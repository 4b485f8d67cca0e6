/**
 Resumable uploads (crates/omp-core/src/uploads.rs:102-185): a session maps
 offsets to the bytes last written there, and is reassembled in offset order.
 */
module Uploads {
  import opened Objects
  import opened Appending

  const U64_MAX: nat := 0xFFFF_FFFF_FFFF_FFFF

  type Chunks = map<nat, seq<Byte>>

  datatype Session = Session(declared: nat, chunks: Chunks)

  // ---- What reassembly should mean ----

  /** Every chunk lies between `from` and `to`; an empty one only at the end. */
  ghost predicate Within(chunks: Chunks, offs: seq<nat>, from: nat, to: nat) {
    forall o | o in offs :: o in chunks && from <= o && o + |chunks[o]| <= to && (chunks[o] == [] ==> o == to)
  }

  ghost predicate Covers(chunks: Chunks, o: nat, p: nat) {
    o in chunks && o <= p < o + |chunks[o]|
  }

  ghost predicate Reached(chunks: Chunks, p: nat) {
    exists o :: Covers(chunks, o, p)
  }

  ghost predicate CoveredAt(chunks: Chunks, offs: seq<nat>, p: nat) {
    exists o | o in offs :: Covers(chunks, o, p)
  }

  ghost predicate NoGap(chunks: Chunks, offs: seq<nat>, from: nat, to: nat) {
    forall p | from <= p < to :: CoveredAt(chunks, offs, p)
  }

  ghost predicate NoOverlap(chunks: Chunks, offs: seq<nat>) {
    forall a, b, p | a in offs && b in offs && Covers(chunks, a, p) && Covers(chunks, b, p) :: a == b
  }

  ghost predicate TilesFrom(chunks: Chunks, offs: seq<nat>, from: nat, to: nat) {
    from <= to && Within(chunks, offs, from, to) && NoGap(chunks, offs, from, to) && NoOverlap(chunks, offs)
  }

  /** The chunks cover each byte of the declared size exactly once, and an empty chunk sits only at its end. */
  ghost predicate Tiles(s: Session) {
    && (forall o | o in s.chunks :: o + |s.chunks[o]| <= s.declared && (s.chunks[o] == [] ==> o == s.declared))
    && (forall p | 0 <= p < s.declared :: Reached(s.chunks, p))
    && (forall a, b, p | Covers(s.chunks, a, p) && Covers(s.chunks, b, p) :: a == b)
  }

  /** Each chunk sits at its own offset. */
  ghost predicate Placed(s: Session, bytes: seq<Byte>) {
    |bytes| == s.declared && forall o | o in s.chunks ::
        o + |s.chunks[o]| <= |bytes| && bytes[o..o + |s.chunks[o]|] == s.chunks[o]
  }

  /** At most one byte string has every chunk of a tiling in its place. */
  lemma PlacedUnique(s: Session, a: seq<Byte>, b: seq<Byte>)
    requires Tiles(s) && Placed(s, a) && Placed(s, b)
    ensures a == b
  {
    forall p: nat | p < s.declared ensures a[p] == b[p] {
      assert Reached(s.chunks, p);
      var o: nat :| Covers(s.chunks, o, p);
      assert a[o..o + |s.chunks[o]|][p - o] == b[o..o + |s.chunks[o]|][p - o];
    }
  }

  // ---- The loop, as a function ----

  predicate Ascending(offs: seq<nat>) {
    forall i, j | 0 <= i < j < |offs| :: offs[i] < offs[j]
  }

  /** Splices the chunks in order; fails at the first offset that is not the cursor. */
  function Chain(chunks: Chunks, offs: seq<nat>, cursor: nat, to: nat): Option<seq<Byte>>
    requires forall o | o in offs :: o in chunks
  {
    if offs == [] then (if cursor == to then Some([]) else None)
    else if offs[0] != cursor then None
    else AfterSome(chunks[offs[0]], Chain(chunks, offs[1..], cursor + |chunks[offs[0]]|, to))
  }

  lemma AscendingTail(offs: seq<nat>)
    requires Ascending(offs) && offs != []
    ensures Ascending(offs[1..]) && offs == [offs[0]] + offs[1..]
    ensures forall o | o in offs[1..] :: offs[0] < o
  {
  }

  /** A chain that holds tiles its range. */
  lemma {:induction false} ChainTiles(chunks: Chunks, offs: seq<nat>, cursor: nat, to: nat)
    requires Ascending(offs) && forall o | o in offs :: o in chunks
    requires Chain(chunks, offs, cursor, to).Some?
    ensures TilesFrom(chunks, offs, cursor, to)
    decreases |offs|
  {
    if offs != [] {
      AscendingTail(offs);
      var o, rest := offs[0], offs[1..];
      var next := cursor + |chunks[o]|;
      ChainTiles(chunks, rest, next, to);
      assert chunks[o] == [] ==> rest == [] by {
        assert rest != [] ==> rest[0] in rest;
      }
      AddTile(chunks, o, rest, to);
    }
  }

  lemma AddTile(chunks: Chunks, o: nat, rest: seq<nat>, to: nat)
    requires o in chunks && TilesFrom(chunks, rest, o + |chunks[o]|, to)
    requires chunks[o] == [] ==> rest == []
    ensures TilesFrom(chunks, [o] + rest, o, to)
  {
    var offs := [o] + rest;
    forall p | o <= p < to ensures CoveredAt(chunks, offs, p) {
      if p < o + |chunks[o]| {
        assert o in offs && Covers(chunks, o, p);
      } else {
        assert CoveredAt(chunks, rest, p);
        var x :| x in rest && Covers(chunks, x, p);
        assert x in offs;
      }
    }
    assert o + |chunks[o]| < to ==> CoveredAt(chunks, rest, o + |chunks[o]|);
    assert forall x | x in rest :: x >= o + |chunks[o]|;
  }

  /** A tiling starts at the cursor, and the rest is a tiling again. */
  lemma FirstTile(chunks: Chunks, offs: seq<nat>, cursor: nat, to: nat)
    requires Ascending(offs) && offs != [] && TilesFrom(chunks, offs, cursor, to)
    ensures offs[0] == cursor && offs[0] in chunks
    ensures TilesFrom(chunks, offs[1..], cursor + |chunks[offs[0]]|, to)
  {
    AscendingTail(offs);
    var o: nat, rest := offs[0], offs[1..];
    assert o in offs;
    if cursor < to {
      assert CoveredAt(chunks, offs, cursor);
      var x :| x in offs && Covers(chunks, x, cursor);
      assert o == cursor;
    }
    var next := cursor + |chunks[o]|;
    assert o + |chunks[o]| <= to;
    forall x: nat | x in rest ensures next <= x {
      assert x in offs;
      if x < next {
        assert Covers(chunks, o, x) && Covers(chunks, x, x);
      }
    }
    forall p | next <= p < to ensures CoveredAt(chunks, rest, p) {
      assert CoveredAt(chunks, offs, p);
      var x :| x in offs && Covers(chunks, x, p);
      assert x in rest;
    }
  }

  lemma {:induction false} TilesChain(chunks: Chunks, offs: seq<nat>, cursor: nat, to: nat)
    requires Ascending(offs) && TilesFrom(chunks, offs, cursor, to)
    ensures Chain(chunks, offs, cursor, to).Some?
    decreases |offs|
  {
    if offs == [] {
      assert cursor < to ==> CoveredAt(chunks, offs, cursor);
    } else {
      FirstTile(chunks, offs, cursor, to);
      AscendingTail(offs);
      TilesChain(chunks, offs[1..], cursor + |chunks[offs[0]]|, to);
    }
  }

  ghost predicate InPlace(bytes: seq<Byte>, from: nat, chunks: Chunks, o: nat) {
    o in chunks && from <= o && o - from + |chunks[o]| <= |bytes|
        && bytes[o - from..o - from + |chunks[o]|] == chunks[o]
  }

  lemma {:induction false} ChainPlaces(chunks: Chunks, offs: seq<nat>, cursor: nat, to: nat)
    requires (forall o | o in offs :: o in chunks) && Chain(chunks, offs, cursor, to).Some?
    ensures cursor <= to && |Chain(chunks, offs, cursor, to).value| == to - cursor
    ensures forall o | o in offs :: InPlace(Chain(chunks, offs, cursor, to).value, cursor, chunks, o)
    decreases |offs|
  {
    if offs != [] {
      var c := chunks[offs[0]];
      var next := cursor + |c|;
      ChainPlaces(chunks, offs[1..], next, to);
      var rest := Chain(chunks, offs[1..], next, to).value;
      forall o | o in offs ensures InPlace(c + rest, cursor, chunks, o) {
        if o in offs[1..] {
          assert InPlace(rest, next, chunks, o);
          assert (c + rest)[o - cursor..o - cursor + |chunks[o]|] == rest[o - next..o - next + |chunks[o]|];
        } else {
          assert o == offs[0] && (c + rest)[..|c|] == c;
        }
      }
    }
  }

  ghost predicate SameOffsets(offs: seq<nat>, chunks: Chunks) {
    forall o :: o in offs <==> o in chunks
  }

  /** Reassembly succeeds exactly on tilings, and then puts every chunk in its place. */
  lemma ChainExact(s: Session, offs: seq<nat>)
    requires Ascending(offs) && SameOffsets(offs, s.chunks)
    ensures Chain(s.chunks, offs, 0, s.declared).Some? <==> Tiles(s)
    ensures Chain(s.chunks, offs, 0, s.declared).Some? ==> Placed(s, Chain(s.chunks, offs, 0, s.declared).value)
  {
    TilesSame(s, offs);
    if Chain(s.chunks, offs, 0, s.declared).Some? {
      ChainTiles(s.chunks, offs, 0, s.declared);
      ChainPlaces(s.chunks, offs, 0, s.declared);
      var bytes := Chain(s.chunks, offs, 0, s.declared).value;
      forall o | o in s.chunks ensures o + |s.chunks[o]| <= |bytes| && bytes[o..o + |s.chunks[o]|] == s.chunks[o] {
        assert o in offs && InPlace(bytes, 0, s.chunks, o);
      }
    } else if Tiles(s) {
      TilesChain(s.chunks, offs, 0, s.declared);
    }
  }

  lemma TilesSame(s: Session, offs: seq<nat>)
    requires SameOffsets(offs, s.chunks)
    ensures Tiles(s) <==> TilesFrom(s.chunks, offs, 0, s.declared)
  {
    if Tiles(s) {
      forall p | 0 <= p < s.declared ensures CoveredAt(s.chunks, offs, p) {
        assert Reached(s.chunks, p);
      var o: nat :| Covers(s.chunks, o, p);
        assert o in offs;
      }
    }
    if TilesFrom(s.chunks, offs, 0, s.declared) {
      forall p | 0 <= p < s.declared ensures Reached(s.chunks, p) {
        assert CoveredAt(s.chunks, offs, p);
        var o :| o in offs && Covers(s.chunks, o, p);
      }
    }
  }

  // ---- Writing ----

  /** The test of `write_chunk`, with the addition checked for 64 bits. */
  predicate Refused(declared: nat, offset: nat, len: nat) {
    if offset + len > U64_MAX then true else offset + len > declared
  }

  lemma RefusedIff(declared: nat, offset: nat, len: nat)
    ensures Refused(declared, offset, len) <==> offset + len > declared || offset + len > 0xFFFF_FFFF_FFFF_FFFF
  {
  }

  datatype Write = Write(offset: nat, bytes: seq<Byte>)

  function Store(s: Session, w: Write): Session {
    if Refused(s.declared, w.offset, |w.bytes|) then s else s.(chunks := s.chunks[w.offset := w.bytes])
  }

  function StoreAll(s: Session, ws: seq<Write>): Session
    decreases |ws|
  {
    if ws == [] then s else StoreAll(Store(s, ws[0]), ws[1..])
  }

  /** The bytes of the last accepted write at an offset. */
  function LastAt(declared: nat, ws: seq<Write>, o: nat): Option<seq<Byte>>
    decreases |ws|
  {
    if ws == [] then None
    else
      var w := ws[|ws| - 1];
      if w.offset == o && !Refused(declared, o, |w.bytes|) then Some(w.bytes) else LastAt(declared, ws[..|ws| - 1], o)
  }

  ghost predicate SameLast(declared: nat, vs: seq<Write>, ws: seq<Write>) {
    forall o :: LastAt(declared, vs, o) == LastAt(declared, ws, o)
  }

  lemma {:induction false} StoreLast(s: Session, ws: seq<Write>)
    requires ws != []
    ensures StoreAll(s, ws) == Store(StoreAll(s, ws[..|ws| - 1]), ws[|ws| - 1])
    decreases |ws|
  {
    if |ws| > 1 {
      StoreLast(Store(s, ws[0]), ws[1..]);
      assert ws[1..][..|ws| - 2] == ws[..|ws| - 1][1..];
    }
  }

  /** After any writes an offset holds what was last accepted there. */
  lemma {:induction false} StoredIsLast(s: Session, ws: seq<Write>, o: nat)
    ensures StoreAll(s, ws).declared == s.declared
    ensures var last, after := LastAt(s.declared, ws, o), StoreAll(s, ws).chunks;
            && (o in after <==> last.Some? || o in s.chunks)
            && (o in after ==> after[o] == if last.Some? then last.value else s.chunks[o])
    decreases |ws|
  {
    if ws != [] {
      StoreLast(s, ws);
      StoredIsLast(s, ws[..|ws| - 1], o);
    }
  }

  /** Retries, overwrites and reorderings do not matter as long as each offset ends with the same write. */
  lemma WritesCommute(s: Session, vs: seq<Write>, ws: seq<Write>)
    requires SameLast(s.declared, vs, ws)
    ensures StoreAll(s, vs) == StoreAll(s, ws)
  {
    var a, b := StoreAll(s, vs), StoreAll(s, ws);
    StoredIsLast(s, vs, 0);
    StoredIsLast(s, ws, 0);
    forall o ensures o in a.chunks <==> o in b.chunks {
      StoredIsLast(s, vs, o);
      StoredIsLast(s, ws, o);
    }
    forall o | o in a.chunks ensures a.chunks[o] == b.chunks[o] {
      StoredIsLast(s, vs, o);
      StoredIsLast(s, ws, o);
    }
    assert a.chunks == b.chunks;
  }

  /** In particular two neighbouring writes at different offsets can be exchanged. */
  lemma SwapWrites(declared: nat, before: seq<Write>, v: Write, w: Write, after: seq<Write>)
    requires v.offset != w.offset
    ensures SameLast(declared, before + [v, w] + after, before + [w, v] + after)
    decreases |after|
  {
    var vw, wv := before + [v, w] + after, before + [w, v] + after;
    forall o ensures LastAt(declared, vw, o) == LastAt(declared, wv, o) {
      if after == [] {
        assert vw[..|vw| - 1] == before + [v] && wv[..|wv| - 1] == before + [w];
        assert (before + [v])[..|before|] == before && (before + [w])[..|before|] == before;
      } else {
        var rest := after[..|after| - 1];
        SwapWrites(declared, before, v, w, rest);
        assert vw[..|vw| - 1] == before + [v, w] + rest && wv[..|wv| - 1] == before + [w, v] + rest;
      }
    }
  }

  /** The last accepted writes, as a session of their own. */
  ghost predicate Final(declared: nat, ws: seq<Write>, chunks: Chunks) {
    forall o :: LastAt(declared, ws, o) == if o in chunks then Some(chunks[o]) else None
  }

  /**
   Whatever was written to a new session, reassembly succeeds exactly when the
   last accepted writes tile the declared size.
   */
  lemma UploadExact(declared: nat, ws: seq<Write>, chunks: Chunks, offs: seq<nat>)
    requires Final(declared, ws, chunks) && Ascending(offs) && SameOffsets(offs, chunks)
    ensures StoreAll(Session(declared, map[]), ws) == Session(declared, chunks)
    ensures Chain(chunks, offs, 0, declared).Some? <==> Tiles(Session(declared, chunks))
    ensures Chain(chunks, offs, 0, declared).Some? ==>
            Placed(Session(declared, chunks), Chain(chunks, offs, 0, declared).value)
  {
    var s := StoreAll(Session(declared, map[]), ws);
    StoredIsLast(Session(declared, map[]), ws, 0);
    forall o ensures (o in s.chunks <==> o in chunks) && (o in s.chunks ==> s.chunks[o] == chunks[o]) {
      StoredIsLast(Session(declared, map[]), ws, o);
      assert LastAt(declared, ws, o) == if o in chunks then Some(chunks[o]) else None;
    }
    assert s.chunks == chunks;
    ChainExact(Session(declared, chunks), offs);
  }

  /** The writes that send a file in pieces of `size` bytes, from `offset` on. */
  function Pieces(file: seq<Byte>, offset: nat, size: nat): seq<Write>
    requires size > 0 && offset <= |file|
    decreases |file| - offset
  {
    if offset == |file| then []
    else
      var end := if offset + size <= |file| then offset + size else |file|;
      [Write(offset, file[offset..end])] + Pieces(file, end, size)
  }

  /** After a file was sent in pieces, the next ones lie right behind those that were stored. */
  ghost predicate SentTo(s: Session, file: seq<Byte>, offset: nat) {
    && s.declared == |file| && offset <= |file|
    && (forall o | o in s.chunks ::
        s.chunks[o] != [] && o + |s.chunks[o]| <= offset && file[o..o + |s.chunks[o]|] == s.chunks[o])
    && (forall p | 0 <= p < offset :: Reached(s.chunks, p))
    && (forall a, b, p | Covers(s.chunks, a, p) && Covers(s.chunks, b, p) :: a == b)
  }

  lemma PieceStored(s: Session, file: seq<Byte>, offset: nat, end: nat)
    requires SentTo(s, file, offset) && offset < end <= |file| <= U64_MAX
    ensures SentTo(Store(s, Write(offset, file[offset..end])), file, end)
  {
    var next := Store(s, Write(offset, file[offset..end]));
    assert next.chunks == s.chunks[offset := file[offset..end]];
    forall p | 0 <= p < end ensures Reached(next.chunks, p) {
      if p < offset {
        assert Reached(s.chunks, p);
        var o: nat :| Covers(s.chunks, o, p);
        assert Covers(next.chunks, o, p);
      } else {
        assert Covers(next.chunks, offset, p);
      }
    }
    forall a: nat, b: nat, p | Covers(next.chunks, a, p) && Covers(next.chunks, b, p) ensures a == b {
      if a != offset && b != offset {
        assert Covers(s.chunks, a, p) && Covers(s.chunks, b, p);
      }
    }
  }

  lemma {:induction false} PiecesStored(s: Session, file: seq<Byte>, offset: nat, size: nat)
    requires size > 0 && SentTo(s, file, offset) && |file| <= U64_MAX
    ensures SentTo(StoreAll(s, Pieces(file, offset, size)), file, |file|)
    decreases |file| - offset
  {
    if offset < |file| {
      var end := if offset + size <= |file| then offset + size else |file|;
      PieceStored(s, file, offset, end);
      PiecesStored(Store(s, Write(offset, file[offset..end])), file, end, size);
      var ws := Pieces(file, offset, size);
      assert ws[0] == Write(offset, file[offset..end]) && ws[1..] == Pieces(file, end, size);
    }
  }

  /**
   Whatever the order, and however often a piece is sent again: when each offset was last
   written as in sending the file in pieces of some size, reassembly gives back the file.
   */
  lemma UploadRoundTrip(file: seq<Byte>, size: nat, ws: seq<Write>, offs: seq<nat>)
    requires size > 0 && |file| <= U64_MAX && SameLast(|file|, ws, Pieces(file, 0, size))
    requires Ascending(offs) && SameOffsets(offs, StoreAll(Session(|file|, map[]), ws).chunks)
    ensures Chain(StoreAll(Session(|file|, map[]), ws).chunks, offs, 0, |file|) == Some(file)
  {
    var start, pieces := Session(|file|, map[]), Pieces(file, 0, size);
    WritesCommute(start, ws, pieces);
    PiecesStored(start, file, 0, size);
    var s := StoreAll(start, ws);
    assert Tiles(s) && Placed(s, file);
    ChainExact(s, offs);
    PlacedUnique(s, file, Chain(s.chunks, offs, 0, |file|).value);
  }

  /** Covering each byte once is not enough: an empty chunk before the end makes reassembly fail. */
  lemma EmptyChunkBlocks(b: Byte)
    ensures var chunks: Chunks := map[0 := [b, b], 1 := []];
            Chain(chunks, [0, 1], 0, 2) == None && Chain(map[0 := [b, b]], [0], 0, 2) == Some([b, b])
  {
    var chunks: Chunks := map[0 := [b, b], 1 := []];
    assert [0, 1][1..] == [1];
    assert Chain(chunks, [1], 2, 2) == None;
    assert [0][1..] == [] && [b, b] + [] == [b, b];
  }

  // ---- The upload directory ----

  method SortOffsets(listing: seq<nat>) returns (offs: seq<nat>)
    requires forall i, j | 0 <= i < j < |listing| :: listing[i] != listing[j]
    ensures Ascending(offs)
    ensures forall o :: o in offs <==> o in listing
  {
    offs := [];
    for i := 0 to |listing|
      invariant Ascending(offs)
      invariant forall o :: o in offs <==> o in listing[..i]
    {
      var x, k := listing[i], 0;
      while k < |offs| && offs[k] < x
        invariant 0 <= k <= |offs|
        invariant forall j | 0 <= j < k :: offs[j] < x
      {
        k := k + 1;
      }
      assert x !in offs;
      assert k < |offs| ==> x < offs[k];
      offs := InsertAt(offs, k, x);
      assert listing[..i + 1] == listing[..i] + [x];
    }
    assert listing[..|listing|] == listing;
  }

  function InsertAt(offs: seq<nat>, k: nat, x: nat): (r: seq<nat>)
    requires Ascending(offs) && k <= |offs|
    requires (forall j | 0 <= j < k :: offs[j] < x) && (k < |offs| ==> x < offs[k])
    ensures Ascending(r) && forall o :: o in r <==> o == x || o in offs
  {
    var r := offs[..k] + [x] + offs[k..];
    assert offs == offs[..k] + offs[k..];
    r
  }

  /** The loop of `assemble`, growing the buffer and advancing the cursor. */
  method Splice(s: Session, offs: seq<nat>) returns (r: Result<seq<Byte>>)
    requires forall o | o in offs :: o in s.chunks
    ensures r == match Chain(s.chunks, offs, 0, s.declared) case None => Err(Corrupt) case Some(b) => Ok(b)
  {
    var buf: seq<Byte>, cursor: nat, i := [], 0, 0;
    ghost var whole := Chain(s.chunks, offs, 0, s.declared);
    assert offs[0..] == offs && forall b: seq<Byte> :: buf + b == b;
    while i < |offs|
      invariant 0 <= i <= |offs|
      invariant whole == AfterSome(buf, Chain(s.chunks, offs[i..], cursor, s.declared))
    {
      var o := offs[i];
      assert o in offs && offs[i..][0] == o && offs[i..][1..] == offs[i + 1..];
      if o != cursor {
        return Err(Corrupt);
      }
      AfterSomeMore(buf, s.chunks[o], Chain(s.chunks, offs[i + 1..], cursor + |s.chunks[o]|, s.declared));
      buf := buf + s.chunks[o];
      cursor := cursor + |s.chunks[o]|;
      i := i + 1;
    }
    if cursor != s.declared {
      return Err(Corrupt);
    }
    assert buf + [] == buf;
    r := Ok(buf);
  }

  class UploadManager {
    var sessions: map<string, Session>

    constructor ()
      ensures sessions == map[]
    {
      sessions := map[];
    }

    /** `open`, for an id drawn at random; a directory that exists keeps its chunks. */
    method Open(id: string, declared: nat)
      modifies this
      ensures sessions ==
              old(sessions)[id := Session(declared, if id in old(sessions) then old(sessions)[id].chunks else map[])]
    {
      sessions := sessions[id := Session(declared, if id in sessions then sessions[id].chunks else map[])];
    }

    /** `write_chunk`: refused writes change nothing. */
    method WriteChunk(id: string, offset: nat, bytes: seq<Byte>) returns (r: Result<()>)
      requires offset <= U64_MAX
      modifies this
      ensures id !in old(sessions) ==> r == Err(NotFound) && sessions == old(sessions)
      ensures id in old(sessions) ==>
                && sessions == old(sessions)[id := Store(old(sessions)[id], Write(offset, bytes))]
                && r == if Refused(old(sessions)[id].declared, offset, |bytes|) then Err(InvalidPath) else Ok(())
      ensures r.Ok? <==>
              && id in old(sessions)
              && offset + |bytes| <= old(sessions)[id].declared
              && offset + |bytes| <= 0xFFFF_FFFF_FFFF_FFFF
      ensures r.Ok? ==>
                && id in sessions && sessions[id].declared == old(sessions)[id].declared
                && sessions[id].chunks == old(sessions)[id].chunks[offset := bytes]
      ensures r.Err? ==> sessions == old(sessions)
    {
      if id !in sessions {
        return Err(NotFound);
      }
      var s := sessions[id];
      if offset + |bytes| > U64_MAX || offset + |bytes| > s.declared {
        assert sessions[id := s] == sessions;
        return Err(InvalidPath);
      }
      sessions := sessions[id := s.(chunks := s.chunks[offset := bytes])];
      r := Ok(());
    }

    /** `assemble`; the directory lists its chunks in any order. */
    method Assemble(id: string, listing: seq<nat>) returns (r: Result<seq<Byte>>)
      requires id in sessions ==> SameOffsets(listing, sessions[id].chunks)
      requires forall i, j | 0 <= i < j < |listing| :: listing[i] != listing[j]
      ensures id !in sessions ==> r == Err(NotFound)
      ensures id in sessions ==>
              (if Tiles(sessions[id]) then r.Ok? && Placed(sessions[id], r.value) else r == Err(Corrupt))
    {
      if id !in sessions {
        return Err(NotFound);
      }
      var s := sessions[id];
      var offs := SortOffsets(listing);
      ChainExact(s, offs);
      r := Splice(s, offs);
    }

    /** `remove`: a missing session is no error. */
    method Remove(id: string)
      modifies this
      ensures sessions == old(sessions) - {id}
    {
      if id in sessions {
        sessions := sessions - {id};
      }
    }
  }
}
