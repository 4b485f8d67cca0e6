/**
 Object model of the content-addressed store. Cryptography is symbolic: a hash
 carries the object it is the digest of, so `Digest` is collision-free and an
 object cannot contain its own hash; a sealed payload carries exactly what was
 sealed. Object contents are kept as the values their codecs print and parse.
 */
module Objects {

  datatype Option<+T> = None | Some(value: T)

  datatype Error =
    | InvalidPath
    | Conflict
    | NotFound
    | Corrupt
    | Unauthorized
    | IngestValidation
    | SchemaValidation
    | Internal

  datatype Result<+T> = Ok(value: T) | Err(error: Error) {
    predicate IsFailure() {
      Err?
    }

    function PropagateFailure<U>(): Result<U>
      requires Err?
    {
      Err(error)
    }

    function Extract(): T
      requires Ok?
    {
      value
    }
  }

  type Byte = b: int | 0 <= b < 256

  datatype Mode = Blob | Manifest | Tree

  datatype Hash = Digest(obj: Object)

  datatype Entry = Entry(mode: Mode, hash: Hash)

  datatype ChunkEntry = ChunkEntry(hash: Hash, length: nat)

  /** Blob bytes: plain, or sealed with ChaCha20-Poly1305 (ideal AEAD). */
  datatype Payload =
    | Plain(bytes: seq<Byte>)
    | Sealed(key: nat, nonce: Nonce, aad: seq<Byte>, plain: seq<Byte>)

  /** `nonce_for_chunk(key, index)`: derived, so determined by key and index. */
  datatype Nonce = Nonce(key: nat, index: nat)

  /** What a manifest says of its source: file type, schema, probes and, as text, the rest. */
  datatype Details = Details(fileType: string, schema: Hash, probes: map<string, Hash>, meta: string)

  datatype Object =
    | BlobObj(payload: Payload)
    | TreeObj(entries: map<string, Entry>)
    | ManifestObj(source: Hash, details: Details)
    | ChunksObj(chunks: seq<ChunkEntry>)
    | CommitObj(tree: Hash, parents: seq<Hash>, text: string)
    | ShareObj(share: seq<Byte>)
    | AuditObj(audit: seq<Byte>)

  type Objects = map<Hash, Object>

  /** Every object sits under its own hash; `put` keeps this. */
  ghost predicate Addressed(s: Objects) {
    forall h | h in s :: h.obj == s[h]
  }

  /** `validate_name`: what may be inserted into a tree. */
  predicate ValidName(n: string) {
    n != "" && '/' !in n && '\0' !in n && n != "." && n != ".."
  }

  /**
   Names that the plain-text tree codec reads back as written; TreeCodec proves
   that these are exactly the valid names with this property.
   */
  predicate Printable(n: string) {
    '\n' !in n && (n != [] ==> n[|n| - 1] != '\r')
  }

  predicate GoodName(n: string) {
    ValidName(n) && Printable(n)
  }

  /** `stored_mode`: the tree mode that a stored object's type fixes. */
  function StoredMode(o: Object): (r: Result<Mode>) {
    match o
    case BlobObj(_) => Ok(Blob)
    case ManifestObj(_, _) => Ok(Manifest)
    case TreeObj(_) => Ok(Tree)
    case _ => Err(Corrupt)
  }
}
