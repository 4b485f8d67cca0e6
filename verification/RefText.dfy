/**
 The text of a ref expression (`resolve_ref` and `split_ancestor`,
 crates/omp-core/src/refs.rs:54-84). Hashes are symbolic here, so their
 hexadecimal form is a parameter that keeps the shape `Hex` proves of it.
 */
module RefText {
  import opened Objects
  import opened Refs
  import Decimal
  import Text
  import Hex

  datatype Digits = Digits(hex: Hash -> string, unhex: string -> Option<Hash>)

  /** `hex` prints 64 lower-case digits, and `unhex` reads exactly the texts that read as a hash. */
  ghost predicate Faithful(k: Digits) {
    && (forall h :: |k.hex(h)| == 64 && Hex.LowerCase(k.hex(h)))
    && (forall t :: k.unhex(t).Some? <==> Hex.Decode(t).Some?)
  }

  /** The count after the first `~`, which is 1 when it does not read as a number. */
  function Count(tail: string): nat {
    match Decimal.Read(tail, Decimal.USIZE_MAX)
    case Bad => 1
    case Number(n) => n
  }

  function ReadBase(k: Digits, base: string): RefBase {
    if base == "HEAD" || "refs/" <= base || k.unhex(base).None? then Named(base) else Literal(k.unhex(base).value)
  }

  function ReadRef(k: Digits, text: string): RefExpr {
    var i := Text.Find(text, '~');
    RefExpr(ReadBase(k, text[..i]), if i == |text| then None else Some(Count(text[i + 1..])))
  }

  /** The hexadecimal form of a hash reads as a literal, and as that hash when it reads back. */
  lemma ReadHex(k: Digits, h: Hash)
    requires Faithful(k)
    ensures ReadRef(k, k.hex(h)).base.Literal? && ReadRef(k, k.hex(h)).back.None? && '|' !in k.hex(h)
    ensures k.unhex(k.hex(h)) == Some(h) ==> ReadRef(k, k.hex(h)) == RefExpr(Literal(h), None)
  {
    var t := k.hex(h);
    Hex.LowerPairs(t);
    assert Hex.LowerDigit(t[0]);
    assert t[..|t|] == t;
  }

  /** A name without `~` reads as itself, with or without a count. */
  lemma ReadName(k: Digits, name: string, n: nat)
    requires Faithful(k) && '~' !in name && Hex.Decode(name).None? && n <= Decimal.USIZE_MAX
    ensures ReadRef(k, name) == RefExpr(Named(name), None)
    ensures ReadRef(k, name + ['~'] + Decimal.Show(n)) == RefExpr(Named(name), Some(n))
  {
    assert name[..|name|] == name;
    Text.FindIn(name, '~', Decimal.Show(n));
    Decimal.ReadShow(n, Decimal.USIZE_MAX);
  }

  /** Whatever after `~` does not read as a number counts as 1: `HEAD~` is `HEAD~1`, and so is `HEAD~x`. */
  lemma ReadNoCount(k: Digits, name: string, tail: string)
    requires Faithful(k) && '~' !in name && Hex.Decode(name).None?
    requires tail == "" || exists i :: 0 < i < |tail| && !('0' <= tail[i] <= '9')
    ensures ReadRef(k, name + ['~'] + tail) == RefExpr(Named(name), Some(1))
  {
    Text.FindIn(name, '~', tail);
    if i :| 0 < i < |tail| && !('0' <= tail[i] <= '9') {
      var s := Decimal.Unsigned(tail);
      assert s[if s == tail then i else i - 1] == tail[i];
    }
  }
}
