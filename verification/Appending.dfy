/** Results that a loop builds from the front: what is done, and what the rest gives. */
module Appending {
  import opened Objects

  function After<T>(done: seq<T>, r: Result<seq<T>>): Result<seq<T>> {
    match r
    case Err(e) => Err(e)
    case Ok(rest) => Ok(done + rest)
  }

  function AfterSome<T>(done: seq<T>, r: Option<seq<T>>): Option<seq<T>> {
    match r
    case None => None
    case Some(rest) => Some(done + rest)
  }

  lemma AfterNothing<T>(r: Result<seq<T>>, o: Option<seq<T>>)
    ensures After([], r) == r && AfterSome([], o) == o
  {
    assert r.Ok? ==> [] + r.value == r.value;
    assert o.Some? ==> [] + o.value == o.value;
  }

  lemma AfterMore<T>(done: seq<T>, more: seq<T>, r: Result<seq<T>>)
    ensures After(done, After(more, r)) == After(done + more, r)
  {
    assert r.Ok? ==> done + (more + r.value) == done + more + r.value;
  }

  lemma AfterSomeMore<T>(done: seq<T>, more: seq<T>, r: Option<seq<T>>)
    ensures AfterSome(done, AfterSome(more, r)) == AfterSome(done + more, r)
  {
    assert r.Some? ==> done + (more + r.value) == done + more + r.value;
  }
}
