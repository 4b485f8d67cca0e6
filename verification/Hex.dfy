/** The fixed-width hexadecimal form of a hash (crates/omp-core/src/hash.rs:20-70). */
module Hex {
  import opened Objects
  import opened Appending

  type Sha = b: seq<Byte> | |b| == 32 witness seq(32, _ => 0)

  function HexDigit(d: nat): char
    requires d < 16
  {
    if d < 10 then (d + '0' as int) as char else (d - 10 + 'a' as int) as char
  }

  /** `hex_digit`: both cases are accepted. */
  function DigitValue(c: char): Option<nat> {
    if '0' <= c <= '9' then Some(c as int - '0' as int)
    else if 'a' <= c <= 'f' then Some(c as int - 'a' as int + 10)
    else if 'A' <= c <= 'F' then Some(c as int - 'A' as int + 10)
    else None
  }

  function Encode(b: seq<Byte>): (s: string)
    ensures |s| == 2 * |b| && forall i | 0 <= i < |s| :: DigitValue(s[i]).Some?
  {
    if b == [] then "" else [HexDigit(b[0] / 16), HexDigit(b[0] % 16)] + Encode(b[1..])
  }

  function Pairs(s: string): Option<seq<Byte>> {
    if s == [] then Some([])
    else if |s| == 1 then None
    else
      var hi, lo, rest := DigitValue(s[0]), DigitValue(s[1]), Pairs(s[2..]);
      if hi.Some? && lo.Some? && hi.value < 16 && lo.value < 16 && rest.Some? then
        Some([16 * hi.value + lo.value] + rest.value)
      else None
  }

  /** `Hash::from_str`. */
  function Decode(s: string): (r: Option<seq<Byte>>)
    ensures r.Some? ==> |r.value| == 32
  {
    if |s| != 64 then None
    else
      PairsLength(s);
      Pairs(s)
  }

  lemma {:induction false} PairsLength(s: string)
    ensures Pairs(s).Some? ==> 2 * |Pairs(s).value| == |s|
  {
    if |s| > 1 {
      PairsLength(s[2..]);
    }
  }

  lemma {:induction false} PairsEncode(b: seq<Byte>)
    ensures Pairs(Encode(b)) == Some(b)
  {
    if b != [] {
      PairsEncode(b[1..]);
      assert Encode(b)[2..] == Encode(b[1..]);
      assert DigitValue(HexDigit(b[0] / 16)) == Some(b[0] / 16) && DigitValue(HexDigit(b[0] % 16)) == Some(b[0] % 16);
      assert [b[0]] + b[1..] == b;
    }
  }

  /** A hash reads back from its hexadecimal form. */
  lemma RoundTrip(b: Sha)
    ensures |Encode(b)| == 64 && Decode(Encode(b)) == Some(b)
  {
    PairsEncode(b);
  }

  /** The loop of `from_str`. */
  method FromStr(s: string) returns (r: Option<seq<Byte>>)
    ensures r == Decode(s)
  {
    if |s| != 64 {
      return None;
    }
    var out: seq<Byte>, i := [], 0;
    assert s[0..] == s;
    AfterNothing(Err(Corrupt), Pairs(s));
    while i < 32
      invariant 0 <= i <= 32
      invariant Pairs(s) == AfterSome(out, Pairs(s[2 * i..]))
    {
      var k := 2 * i;
      var rest := s[k..];
      assert rest[0] == s[k] && rest[1] == s[k + 1] && rest[2..] == s[k + 2..];
      var hi, lo := DigitValue(s[k]), DigitValue(s[k + 1]);
      if hi.None? || lo.None? {
        return None;
      }
      AfterSomeMore(out, [16 * hi.value + lo.value], Pairs(s[k + 2..]));
      out := out + [16 * hi.value + lo.value];
      i := i + 1;
    }
    assert s[64..] == [] && out + [] == out;
    r := Some(out);
  }

  // ---- Which texts read as which hash ----

  predicate LowerDigit(c: char) {
    '0' <= c <= '9' || 'a' <= c <= 'f'
  }

  predicate LowerCase(s: string) {
    forall i | 0 <= i < |s| :: LowerDigit(s[i])
  }

  lemma {:induction false} LowerPairs(s: string)
    requires LowerCase(s) && |s| % 2 == 0
    ensures Pairs(s).Some?
  {
    if s != [] {
      LowerPairs(s[2..]);
    }
  }

  lemma {:induction false} PairsDigits(s: string)
    requires Pairs(s).Some?
    ensures forall c | c in s :: DigitValue(c).Some?
  {
    if s != [] {
      PairsDigits(s[2..]);
      assert s == [s[0], s[1]] + s[2..];
    }
  }

  /** A text that reads as a hash has only digits in it. */
  lemma DecodedDigits(s: string)
    ensures Decode(s).Some? ==> forall c | c in s :: DigitValue(c).Some?
  {
    if Decode(s).Some? {
      PairsDigits(s);
    }
  }

  function LowerChar(c: char): char {
    if 'A' <= c <= 'F' then (c as int - 'A' as int + 'a' as int) as char else c
  }

  function Lowered(s: string): (r: string)
    ensures |r| == |s| && forall i | 0 <= i < |s| :: r[i] == LowerChar(s[i])
  {
    seq(|s|, i requires 0 <= i < |s| => LowerChar(s[i]))
  }

  lemma {:induction false} EncodeLower(b: seq<Byte>)
    ensures LowerCase(Encode(b))
  {
    if b != [] {
      EncodeLower(b[1..]);
    }
  }

  lemma EncodePush(hi: nat, lo: nat, rest: seq<Byte>)
    requires hi < 16 && lo < 16
    ensures Encode([16 * hi + lo] + rest) == [HexDigit(hi), HexDigit(lo)] + Encode(rest)
  {
    var b := [16 * hi + lo] + rest;
    assert b[1..] == rest && b[0] == 16 * hi + lo;
    assert (16 * hi + lo) / 16 == hi && (16 * hi + lo) % 16 == lo;
  }

  /** Reading and printing again gives the text in lower case. */
  lemma {:induction false} PairsLowered(s: string)
    ensures Pairs(s).Some? ==> Encode(Pairs(s).value) == Lowered(s)
  {
    if |s| > 1 && Pairs(s).Some? {
      PairsLowered(s[2..]);
      var hi, lo, rest := DigitValue(s[0]).value, DigitValue(s[1]).value, Pairs(s[2..]).value;
      EncodePush(hi, lo, rest);
      assert HexDigit(hi) == LowerChar(s[0]) && HexDigit(lo) == LowerChar(s[1]);
      assert Lowered(s) == [LowerChar(s[0]), LowerChar(s[1])] + Lowered(s[2..]);
    }
  }

  lemma {:induction false} PairsOfLowered(s: string)
    ensures Pairs(Lowered(s)) == Pairs(s)
  {
    if |s| > 1 {
      PairsOfLowered(s[2..]);
      assert Lowered(s)[2..] == Lowered(s[2..]);
      assert DigitValue(LowerChar(s[0])) == DigitValue(s[0]) && DigitValue(LowerChar(s[1])) == DigitValue(s[1]);
    }
  }

  /** A text reads as a hash exactly when it is its hexadecimal form, in any case of letters. */
  lemma DecodeIff(s: string, b: Sha)
    ensures Decode(s) == Some(b) <==> Lowered(s) == Encode(b)
  {
    PairsLowered(s);
    PairsOfLowered(s);
    PairsEncode(b);
  }

  lemma LoweredSame(s: string)
    requires LowerCase(s)
    ensures Lowered(s) == s
  {
  }
}
