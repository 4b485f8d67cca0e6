/** HEAD, refs and first-parent ancestry (crates/omp-core/src/refs.rs). */
module Refs {
  import opened Objects
  import opened StorePaths

  datatype Head = OnBranch(ref: string) | Detached(hash: Hash)

  type RefMap = map<string, Hash>

  /**
   A ref expression: a base, and the count after `~` when there is one. A base
   that reads as a 64-digit hash is a literal; every other base is a name.
   */
  datatype RefBase = Named(name: string) | Literal(hash: Hash)
  datatype RefExpr = RefExpr(base: RefBase, back: Option<nat>)

  function ResolveHead(refs: RefMap, head: Head): Option<Hash> {
    match head
    case Detached(h) => Some(h)
    case OnBranch(r) => if r in refs then Some(refs[r]) else None
  }

  function BranchRef(name: string): string {
    "refs/heads/" + name
  }

  function ResolveBase(refs: RefMap, head: Head, b: RefBase): Result<Hash> {
    match b
    case Literal(h) => Ok(h)
    case Named(n) =>
      var found :=
        if n == "HEAD" then ResolveHead(refs, head)
        else
          var r := if "refs/" <= n then n else BranchRef(n);
          if r in refs then Some(refs[r]) else None;
      if found.Some? then Ok(found.value) else Err(NotFound)
  }

  /** `nth_ancestor`, following first parents. */
  function Ancestor(s: Objects, h: Hash, n: nat): Result<Hash>
    decreases n
  {
    if n == 0 then Ok(h)
    else if h !in s then Err(NotFound)
    else if !s[h].CommitObj? then Err(Corrupt)
    else if s[h].parents == [] then Err(NotFound)
    else Ancestor(s, s[h].parents[0], n - 1)
  }

  function Resolve(s: Objects, refs: RefMap, head: Head, x: RefExpr): Result<Hash> {
    var start :- ResolveBase(refs, head, x.base);
    Ancestor(s, start, if x.back.Some? then x.back.value else 0)
  }

  method NthAncestor(s: Objects, start: Hash, back: nat) returns (r: Result<Hash>)
    ensures r == Ancestor(s, start, back)
  {
    var cur, n := start, back;
    while n > 0
      invariant n >= 0 && Ancestor(s, cur, n) == Ancestor(s, start, back)
    {
      if cur !in s {
        return Err(NotFound);
      }
      if !s[cur].CommitObj? {
        return Err(Corrupt);
      }
      if s[cur].parents == [] {
        return Err(NotFound);
      }
      cur := s[cur].parents[0];
      n := n - 1;
    }
    return Ok(cur);
  }

  lemma {:induction false} AncestorGrows(s: Objects, s': Objects, h: Hash, n: nat)
    requires Grows(s, s') && Ancestor(s, h, n).Ok?
    ensures Ancestor(s', h, n) == Ancestor(s, h, n)
    decreases n
  {
    if n > 0 {
      AncestorGrows(s, s', s[h].parents[0], n - 1);
    }
  }

  lemma {:induction false} AncestorAdds(s: Objects, h: Hash, m: nat, n: nat)
    requires Ancestor(s, h, m).Ok?
    ensures Ancestor(s, h, m + n) == Ancestor(s, Ancestor(s, h, m).value, n)
    decreases m
  {
    if m > 0 {
      AncestorAdds(s, s[h].parents[0], m - 1, n);
    }
  }

  /** In a sound store an ancestor of a stored commit is a stored commit. */
  lemma {:induction false} AncestorStored(s: Objects, h: Hash, n: nat)
    requires SoundStore(s) && h in s && s[h].CommitObj? && Ancestor(s, h, n).Ok?
    ensures Ancestor(s, h, n).value in s && s[Ancestor(s, h, n).value].CommitObj?
    decreases n
  {
    if n > 0 {
      assert Sound(s, s[h]);
      AncestorStored(s, s[h].parents[0], n - 1);
    }
  }
}
