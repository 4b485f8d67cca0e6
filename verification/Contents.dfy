/** Reading the bytes of a file (crates/omp-core/src/api.rs:1242-1260). */
module Contents {
  import opened Objects

  /** The raw content of a stored object, as `get` returns it. */
  datatype Content = Content(of: Object)

  /** `bytes_of` at a manifest: the content of its source, chunk list or not. */
  function BytesOf(s: Objects, manifest: Hash): Result<Content> {
    if manifest !in s then Err(NotFound)
    else if !s[manifest].ManifestObj? then Err(Corrupt)
    else if s[manifest].source !in s then Err(NotFound)
    else Ok(Content(s[s[manifest].source]))
  }

  /** `bytes_of` at an entry of a tree. */
  function BytesAt(s: Objects, e: Entry): Result<Content> {
    match e.mode
    case Manifest => BytesOf(s, e.hash)
    case Blob => if e.hash in s then Ok(Content(s[e.hash])) else Err(NotFound)
    case Tree => Err(InvalidPath)
  }
}
