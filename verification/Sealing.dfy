/**
 Sealed files (`seal_single_blob`, `seal_chunked` and `decrypt_source`,
 crates/omp-core/src/api.rs:639-825): the round trip, and the binding of each
 chunk to its position and to the number of chunks.
 */
module Sealing {
  import opened Objects
  import opened Appending
  import opened StorePaths

  const U32_MAX := 0xFFFF_FFFF

  /** Algorithm byte, 12-byte nonce and 16-byte tag around the ciphertext. */
  const SEAL_OVERHEAD := 29

  function Ascii(s: string): seq<Byte>
    requires forall i | 0 <= i < |s| :: s[i] < 128 as char
  {
    seq(|s|, i requires 0 <= i < |s| => s[i] as int)
  }

  function BlobAad(): seq<Byte> {
    Ascii("omp-blob")
  }

  function BigEndian32(n: nat): (r: seq<Byte>)
    requires n <= U32_MAX
    ensures |r| == 4 && n == (r[0] as int) * 0x100_0000 + (r[1] as int) * 0x1_0000 + (r[2] as int) * 0x100 + r[3]
  {
    var high := n / 0x1_0000;
    var low := n % 0x1_0000;
    [high / 256, high % 256, low / 256, low % 256]
  }

  function ChunkAad(index: nat, total: nat): seq<Byte>
    requires index <= U32_MAX && total <= U32_MAX
  {
    Ascii("omp-chunk") + BigEndian32(index) + BigEndian32(total)
  }

  /** The associated data names one position in one list length, and never a single blob. */
  lemma AadInjective(i: nat, n: nat, j: nat, m: nat)
    requires i <= U32_MAX && n <= U32_MAX && j <= U32_MAX && m <= U32_MAX
    ensures ChunkAad(i, n) == ChunkAad(j, m) <==> i == j && n == m
    ensures ChunkAad(i, n) != BlobAad()
    ensures BlobAad() == [0x6f, 0x6d, 0x70, 0x2d, 0x62, 0x6c, 0x6f, 0x62]
    ensures ChunkAad(i, n)[..9] == [0x6f, 0x6d, 0x70, 0x2d, 0x63, 0x68, 0x75, 0x6e, 0x6b]
  {
    if ChunkAad(i, n) == ChunkAad(j, m) {
      assert ChunkAad(i, n)[9..13] == BigEndian32(i) && ChunkAad(j, m)[9..13] == BigEndian32(j);
      assert ChunkAad(i, n)[13..] == BigEndian32(n) && ChunkAad(j, m)[13..] == BigEndian32(m);
    }
    assert |ChunkAad(i, n)| == 17 && |BlobAad()| == 8;
  }

  /** Ideal AEAD: opens exactly what was sealed under the same key and associated data. */
  function Open(key: nat, aad: seq<Byte>, p: Payload): Result<seq<Byte>> {
    if p.Sealed? && p.key == key && p.aad == aad then Ok(p.plain) else Err(Unauthorized)
  }

  // ---- Sealing ----

  /** `slice::chunks`. */
  function Slices(b: seq<Byte>, size: nat): seq<seq<Byte>>
    requires size > 0
    decreases |b|
  {
    if b == [] then [] else if |b| <= size then [b] else [b[..size]] + Slices(b[size..], size)
  }

  function Flatten(bs: seq<seq<Byte>>): seq<Byte> {
    if bs == [] then [] else bs[0] + Flatten(bs[1..])
  }

  lemma {:induction false} SlicesFlatten(b: seq<Byte>, size: nat)
    requires size > 0
    ensures Flatten(Slices(b, size)) == b
    decreases |b|
  {
    if |b| > size {
      SlicesFlatten(b[size..], size);
      assert Slices(b, size)[1..] == Slices(b[size..], size);
      assert b == b[..size] + b[size..];
    }
  }

  /** `div_ceil`. */
  function CeilDiv(n: nat, size: nat): nat
    requires size > 0
  {
    (n + size - 1) / size
  }

  lemma CeilDivStep(n: nat, size: nat)
    requires 0 < size < n
    ensures CeilDiv(n, size) == 1 + CeilDiv(n - size, size)
  {
    var a := n - 1;
    assert (a - size) / size == a / size - 1 by {
      var q, r := a / size, a % size;
      assert a == q * size + r && a - size == (q - 1) * size + r;
      DivUnique(a - size, size, q - 1, r);
    }
    assert n + size - 1 == a + size && n - size + size - 1 == a;
    DivUnique(a + size, size, a / size + 1, a % size);
  }

  lemma DivUnique(n: int, d: int, q: int, r: int)
    requires d > 0 && 0 <= r < d && n == q * d + r
    ensures n / d == q
  {
    var k := n / d;
    assert (k - q) * d == k * d - q * d;
    MultipleOf(k - q, d);
  }

  lemma MultipleOf(a: int, d: int)
    requires d > 0
    ensures a >= 1 ==> a * d >= d
    ensures a <= -1 ==> a * d <= -d
  {
    assert (a - 1) * d == a * d - d && (a + 1) * d == a * d + d;
  }

  /** The announced total is the number of chunks written. */
  lemma {:induction false} SliceCount(b: seq<Byte>, size: nat)
    requires size > 0
    ensures |Slices(b, size)| == CeilDiv(|b|, size)
    decreases |b|
  {
    if b == [] {
      DivUnique(size - 1, size, 0, size - 1);
    } else if |b| <= size {
      DivUnique(|b| + size - 1, size, 1, |b| - 1);
    } else {
      SliceCount(b[size..], size);
      CeilDivStep(|b|, size);
    }
  }

  /** Every slice has the chunk size, but for the last one, which is not empty. */
  lemma {:induction false} SliceSizes(b: seq<Byte>, size: nat, i: nat)
    requires size > 0 && i < |Slices(b, size)|
    ensures if i < |Slices(b, size)| - 1 then |Slices(b, size)[i]| == size else 0 < |Slices(b, size)[i]| <= size
    decreases |b|
  {
    if |b| > size {
      if i > 0 {
        SliceSizes(b[size..], size, i - 1);
      } else {
        assert Slices(b[size..], size) != [];
      }
    }
  }

  function SealChunk(key: nat, index: nat, total: nat, slice: seq<Byte>): Payload
    requires index <= U32_MAX && total <= U32_MAX
  {
    Sealed(key, Nonce(key, index), ChunkAad(index, total), slice)
  }

  function ChunkRef(p: Payload): ChunkEntry
    requires p.Sealed?
  {
    ChunkEntry(Digest(BlobObj(p)), |p.plain| + SEAL_OVERHEAD)
  }

  /** The chunk list of the given slices, from position `index` on. */
  function SealFrom(key: nat, slices: seq<seq<Byte>>, index: nat, total: nat): seq<ChunkEntry>
    requires index + |slices| <= total <= U32_MAX
  {
    if slices == [] then []
    else [ChunkRef(SealChunk(key, index, total, slices[0]))] + SealFrom(key, slices[1..], index + 1, total)
  }

  // ---- Opening ----

  function OpenAt(s: Objects, key: nat, h: Hash, aad: seq<Byte>): Result<seq<Byte>> {
    if h !in s then Err(NotFound)
    else if !s[h].BlobObj? then Err(Corrupt)
    else Open(key, aad, s[h].payload)
  }

  function OpenFrom(s: Objects, key: nat, list: seq<ChunkEntry>, index: nat, total: nat): Result<seq<Byte>>
    requires index + |list| <= total <= U32_MAX
  {
    if list == [] then Ok([])
    else
      var head :- OpenAt(s, key, list[0].hash, ChunkAad(index, total));
      var tail :- OpenFrom(s, key, list[1..], index + 1, total);
      Ok(head + tail)
  }

  function OpenList(s: Objects, key: nat, list: seq<ChunkEntry>): Result<seq<Byte>> {
    if |list| > U32_MAX then Err(Corrupt) else OpenFrom(s, key, list, 0, |list|)
  }

  function Decrypt(s: Objects, source: Hash, key: nat): Result<seq<Byte>> {
    if source !in s then Err(NotFound)
    else match s[source]
      case BlobObj(p) => Open(key, BlobAad(), p)
      case ChunksObj(list) => OpenList(s, key, list)
      case _ => Err(Corrupt)
  }

  /** `decrypt_source`. */
  method DecryptSource(store: ObjectStore, source: Hash, key: nat) returns (r: Result<seq<Byte>>)
    ensures r == Decrypt(store.objects, source, key)
  {
    if source !in store.objects {
      return Err(NotFound);
    }
    match store.objects[source]
    case BlobObj(p) =>
      return Open(key, BlobAad(), p);
    case ChunksObj(list) =>
      if |list| > U32_MAX {
        return Err(Corrupt);
      }
      r := DecryptChunks(store.objects, key, list);
    case _ =>
      return Err(Corrupt);
  }

  /** The loop over the chunk list. */
  method DecryptChunks(s: Objects, key: nat, list: seq<ChunkEntry>) returns (r: Result<seq<Byte>>)
    requires |list| <= U32_MAX
    ensures r == OpenFrom(s, key, list, 0, |list|)
  {
    var out: seq<Byte>, i := [], 0;
    ghost var whole := OpenFrom(s, key, list, 0, |list|);
    assert list[0..] == list;
    AfterNothing(whole, None);
    while i < |list|
      invariant 0 <= i <= |list|
      invariant whole == After(out, OpenFrom(s, key, list[i..], i, |list|))
    {
      assert list[i..][0] == list[i] && list[i..][1..] == list[i + 1..];
      var h := list[i].hash;
      if h !in s {
        return Err(NotFound);
      }
      if !s[h].BlobObj? {
        return Err(Corrupt);
      }
      var pt :- Open(key, ChunkAad(i, |list|), s[h].payload);
      AfterMore(out, pt, OpenFrom(s, key, list[i + 1..], i + 1, |list|));
      out := out + pt;
      i := i + 1;
    }
    assert list[i..] == [] && out + [] == out;
    r := Ok(out);
  }

  /** Every chunk of a list has been stored. */
  ghost predicate Stored(s: Objects, list: seq<ChunkEntry>) {
    forall i | 0 <= i < |list| :: list[i].hash in s && s[list[i].hash] == list[i].hash.obj
  }

  lemma {:induction false} OpenSealed(s: Objects, key: nat, slices: seq<seq<Byte>>, index: nat, total: nat)
    requires index + |slices| <= total <= U32_MAX && Stored(s, SealFrom(key, slices, index, total))
    ensures |SealFrom(key, slices, index, total)| == |slices|
    ensures OpenFrom(s, key, SealFrom(key, slices, index, total), index, total) == Ok(Flatten(slices))
    decreases |slices|
  {
    if slices != [] {
      var list := SealFrom(key, slices, index, total);
      assert list[1..] == SealFrom(key, slices[1..], index + 1, total);
      assert Stored(s, list[1..]) by {
        assert forall i | 0 <= i < |list| - 1 :: list[1..][i] == list[i + 1];
      }
      assert list[0].hash in s;
      OpenSealed(s, key, slices[1..], index + 1, total);
    }
  }

  /** No two stored payloads of a chunk list share a nonce. */
  ghost predicate NoncesDiffer(s: Objects, list: seq<ChunkEntry>) {
    forall i, j | 0 <= i < j < |list| ::
      && list[i].hash in s && s[list[i].hash].BlobObj? && s[list[i].hash].payload.Sealed?
      && list[j].hash in s && s[list[j].hash].BlobObj? && s[list[j].hash].payload.Sealed?
      && s[list[i].hash].payload.nonce != s[list[j].hash].payload.nonce
  }

  /** A chunk's length is that of what is stored: algorithm byte, nonce, ciphertext and tag. */
  ghost predicate SealedLengths(s: Objects, list: seq<ChunkEntry>) {
    forall i | 0 <= i < |list| ::
      && list[i].hash in s && s[list[i].hash].BlobObj? && s[list[i].hash].payload.Sealed?
      && list[i].length == 1 + 12 + |s[list[i].hash].payload.plain| + 16
  }

  lemma NoncesDistinct(s: Objects, key: nat, slices: seq<seq<Byte>>, total: nat)
    requires |slices| <= total <= U32_MAX && Stored(s, SealFrom(key, slices, 0, total))
    ensures NoncesDiffer(s, SealFrom(key, slices, 0, total)) && SealedLengths(s, SealFrom(key, slices, 0, total))
  {
    var list := SealFrom(key, slices, 0, total);
    if slices != [] {
      SealFromAt(key, slices, 0, total, 0);
    }
    forall i | 0 <= i < |list|
      ensures list[i].hash in s && s[list[i].hash] == BlobObj(SealChunk(key, i, total, slices[i]))
      ensures list[i].length == 29 + |slices[i]|
    {
      SealFromAt(key, slices, 0, total, i);
    }
    forall i, j | 0 <= i < j < |list|
      ensures list[i].hash in s && s[list[i].hash].BlobObj? && s[list[i].hash].payload.Sealed?
      ensures list[j].hash in s && s[list[j].hash].BlobObj? && s[list[j].hash].payload.Sealed?
      ensures s[list[i].hash].payload.nonce != s[list[j].hash].payload.nonce
    {
      SealFromAt(key, slices, 0, total, i);
      SealFromAt(key, slices, 0, total, j);
    }
  }

  /** `seal_single_blob`: the blob opens to the plaintext, now and in every later store. */
  method SealSingleBlob(store: ObjectStore, plaintext: seq<Byte>, key: nat) returns (h: Hash)
    requires store.Valid()
    modifies store
    ensures store.Valid() && Grows(old(store.objects), store.objects)
    ensures h in store.objects && forall s | Grows(store.objects, s) :: Decrypt(s, h, key) == Ok(plaintext)
  {
    h := store.Put(BlobObj(Sealed(key, Nonce(key, 0), BlobAad(), plaintext)));
  }

  /** `seal_chunked`: fails only when the chunks cannot be counted in 32 bits. */
  method SealChunked(store: ObjectStore, plaintext: seq<Byte>, key: nat, size: nat) returns (r: Result<Hash>)
    requires store.Valid() && size > 0
    modifies store
    ensures store.Valid() && Grows(old(store.objects), store.objects)
    ensures r.Ok? <==> CeilDiv(|plaintext|, size) <= 0xFFFF_FFFF
    ensures r.Ok? ==> r.value in store.objects && |Slices(plaintext, size)| <= U32_MAX
    ensures r.Ok? ==> r.value.obj == ChunksObj(SealFrom(key, Slices(plaintext, size), 0, |Slices(plaintext, size)|))
    ensures r.Ok? ==> forall s | Grows(store.objects, s) :: Decrypt(s, r.value, key) == Ok(plaintext)
    ensures r.Ok? ==>
            NoncesDiffer(store.objects, r.value.obj.chunks) && SealedLengths(store.objects, r.value.obj.chunks)
  {
    SliceCount(plaintext, size);
    SlicesFlatten(plaintext, size);
    var total := CeilDiv(|plaintext|, size);
    if total > U32_MAX {
      return Err(Internal);
    }
    var entries := PutSealed(store, plaintext, key, size, total);
    var h := store.Put(ChunksObj(entries));
    NoncesDistinct(store.objects, key, Slices(plaintext, size), total);
    forall s | Grows(store.objects, s) ensures Decrypt(s, h, key) == Ok(plaintext) {
      OpenSealed(s, key, Slices(plaintext, size), 0, total);
    }
    r := Ok(h);
  }

  /** The loop of `seal_chunked`. */
  method PutSealed(store: ObjectStore, plaintext: seq<Byte>, key: nat, size: nat, total: nat)
    returns (entries: seq<ChunkEntry>)
    requires store.Valid() && size > 0 && |Slices(plaintext, size)| == total <= U32_MAX
    modifies store
    ensures store.Valid() && Grows(old(store.objects), store.objects) && Stored(store.objects, entries)
    ensures entries == SealFrom(key, Slices(plaintext, size), 0, total)
  {
    var rest, index := plaintext, 0;
    entries := [];
    while rest != []
      invariant index + |Slices(rest, size)| == total
      invariant entries + SealFrom(key, Slices(rest, size), index, total) ==
                SealFrom(key, Slices(plaintext, size), 0, total)
      invariant store.Valid() && Grows(old(store.objects), store.objects) && Stored(store.objects, entries)
      decreases |rest|
    {
      var n := if |rest| <= size then |rest| else size;
      NextSlice(rest, size, n);
      ghost var done := entries;
      SealNext(key, rest[..n], Slices(rest[n..], size), index, total);
      var entry := PutChunk(store, key, index, total, rest[..n], entries);
      entries := entries + [entry];
      OneMore(done, entry, SealFrom(key, Slices(rest[n..], size), index + 1, total));
      rest, index := rest[n..], index + 1;
    }
    assert entries + [] == entries;
  }

  lemma OneMore(done: seq<ChunkEntry>, entry: ChunkEntry, rest: seq<ChunkEntry>)
    ensures done + ([entry] + rest) == done + [entry] + rest
  {
  }

  /** Seals and stores one chunk. */
  method PutChunk(store: ObjectStore, key: nat, index: nat, total: nat, slice: seq<Byte>, ghost done: seq<ChunkEntry>)
    returns (entry: ChunkEntry)
    requires store.Valid() && index <= U32_MAX && total <= U32_MAX && Stored(store.objects, done)
    modifies store
    ensures store.Valid() && Grows(old(store.objects), store.objects)
    ensures entry == ChunkRef(SealChunk(key, index, total, slice)) && Stored(store.objects, done + [entry])
  {
    var p := SealChunk(key, index, total, slice);
    var h := store.Put(BlobObj(p));
    entry := ChunkRef(p);
    assert entry.hash == h;
  }

  lemma NextSlice(rest: seq<Byte>, size: nat, n: nat)
    requires size > 0 && rest != [] && n == if |rest| <= size then |rest| else size
    ensures Slices(rest, size) == [rest[..n]] + Slices(rest[n..], size)
  {
    if |rest| <= size {
      assert rest[..n] == rest && rest[n..] == [];
    }
  }

  lemma SealNext(key: nat, slice: seq<Byte>, slices: seq<seq<Byte>>, index: nat, total: nat)
    requires index + 1 + |slices| <= total <= U32_MAX
    ensures SealFrom(key, [slice] + slices, index, total) ==
            [ChunkRef(SealChunk(key, index, total, slice))] + SealFrom(key, slices, index + 1, total)
  {
    assert ([slice] + slices)[0] == slice && ([slice] + slices)[1..] == slices;
  }

  // ---- Binding ----

  lemma {:induction false} SealFromAt(key: nat, slices: seq<seq<Byte>>, index: nat, total: nat, i: nat)
    requires index + |slices| <= total <= U32_MAX && i < |slices|
    ensures |SealFrom(key, slices, index, total)| == |slices|
    ensures SealFrom(key, slices, index, total)[i] == ChunkRef(SealChunk(key, index + i, total, slices[i]))
    decreases |slices|
  {
    if |slices| > 1 {
      SealFromAt(key, slices[1..], index + 1, total, if i > 0 then i - 1 else 0);
    }
  }

  lemma {:induction false} OpenFromAt(s: Objects, key: nat, list: seq<ChunkEntry>, index: nat, total: nat, i: nat)
    requires index + |list| <= total <= U32_MAX && i < |list| && OpenFrom(s, key, list, index, total).Ok?
    ensures OpenAt(s, key, list[i].hash, ChunkAad(index + i, total)).Ok?
    decreases |list|
  {
    if i > 0 {
      OpenFromAt(s, key, list[1..], index + 1, total, i - 1);
    }
  }

  /** Everything in the store sealed under `key` was sealed by one `seal_chunked`; content keys are fresh per file. */
  ghost predicate FreshKey(s: Objects, key: nat, slices: seq<seq<Byte>>)
    requires |slices| <= U32_MAX
  {
    forall h | h in s && s[h].BlobObj? && s[h].payload.Sealed? && s[h].payload.key == key ::
      exists i | 0 <= i < |slices| :: s[h] == BlobObj(SealChunk(key, i, |slices|, slices[i]))
  }

  /**
   Binding: any non-empty chunk list that opens under the file's key is the
   sealed list, in order and at full length.
   */
  lemma Binding(s: Objects, key: nat, slices: seq<seq<Byte>>, list: seq<ChunkEntry>)
    requires Addressed(s) && |slices| <= U32_MAX && FreshKey(s, key, slices)
    requires list != [] && OpenList(s, key, list).Ok?
    ensures |list| == |slices| == |SealFrom(key, slices, 0, |slices|)|
    ensures forall i | 0 <= i < |list| :: list[i].hash == SealFrom(key, slices, 0, |slices|)[i].hash
    ensures OpenList(s, key, list) == Ok(Flatten(slices))
  {
    forall i | 0 <= i < |list|
      ensures |list| == |slices| && list[i].hash in s
              && s[list[i].hash] == BlobObj(SealChunk(key, i, |slices|, slices[i]))
    {
      OpenFromAt(s, key, list, 0, |list|, i);
      var h := list[i].hash;
      var j :| 0 <= j < |slices| && s[h] == BlobObj(SealChunk(key, j, |slices|, slices[j]));
      AadInjective(i, |list|, j, |slices|);
    }
    assert |list| == |slices| by {
      assert 0 <= 0 < |list|;
    }
    forall i | 0 <= i < |list|
      ensures |SealFrom(key, slices, 0, |slices|)| == |slices|
      ensures list[i].hash == SealFrom(key, slices, 0, |slices|)[i].hash
    {
      SealFromAt(key, slices, 0, |slices|, i);
      assert list[i].hash.obj == s[list[i].hash];
    }
    OpensTo(s, key, slices, list, 0);
  }

  lemma {:induction false} OpensTo(s: Objects, key: nat, slices: seq<seq<Byte>>, list: seq<ChunkEntry>, k: nat)
    requires |list| == |slices| <= U32_MAX && k <= |slices|
    requires forall i | 0 <= i < |list| ::
             list[i].hash in s && s[list[i].hash] == BlobObj(SealChunk(key, i, |slices|, slices[i]))
    ensures OpenFrom(s, key, list[k..], k, |list|) == Ok(Flatten(slices[k..]))
    ensures k == 0 ==> OpenFrom(s, key, list, 0, |list|) == Ok(Flatten(slices))
    decreases |list| - k
  {
    assert k == 0 ==> list[k..] == list && slices[k..] == slices;
    if k < |list| {
      assert list[k..][0] == list[k] && list[k..][1..] == list[k + 1..];
      assert slices[k..][0] == slices[k] && slices[k..][1..] == slices[k + 1..];
      OpensTo(s, key, slices, list, k + 1);
      OpenChunk(s, key, list[k].hash, k, |list|, slices[k]);
    }
  }

  lemma OpenChunk(s: Objects, key: nat, h: Hash, index: nat, total: nat, slice: seq<Byte>)
    requires index <= U32_MAX && total <= U32_MAX && h in s && s[h] == BlobObj(SealChunk(key, index, total, slice))
    ensures OpenAt(s, key, h, ChunkAad(index, total)) == Ok(slice)
  {
  }

  /** The empty list is the exception: it opens under every key, to nothing. */
  lemma EmptyListOpens(s: Objects, key: nat)
    ensures OpenList(s, key, []) == Ok([])
  {
  }
}
