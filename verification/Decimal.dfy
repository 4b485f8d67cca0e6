/** Decimal text of natural numbers: Rust's `{}` formatting and `str::parse` for unsigned integers. */
module Decimal {

  const USIZE_MAX: nat := 0xFFFF_FFFF_FFFF_FFFF

  predicate IsDigit(c: char) {
    '0' <= c <= '9'
  }

  function DigitChar(d: nat): (c: char)
    requires d < 10
    ensures IsDigit(c) && c as int - '0' as int == d
  {
    (d + '0' as int) as char
  }

  /** Decimal digits without leading zeros. */
  function Show(n: nat): (s: string)
    ensures s != [] && forall i | 0 <= i < |s| :: IsDigit(s[i])
  {
    if n < 10 then [DigitChar(n)] else Show(n / 10) + [DigitChar(n % 10)]
  }

  function Value(s: string): nat
    requires forall i | 0 <= i < |s| :: IsDigit(s[i])
  {
    if s == [] then 0
    else
      assert IsDigit(s[|s| - 1]);
      10 * Value(s[..|s| - 1]) + (s[|s| - 1] as int - '0' as int)
  }

  predicate Digits(s: string) {
    s != [] && forall i | 0 <= i < |s| :: IsDigit(s[i])
  }

  function Unsigned(text: string): string {
    if text != [] && text[0] == '+' then text[1..] else text
  }

  datatype Parsed = Bad | Number(n: nat)

  /** An optional plus sign, at least one digit, and no overflow. */
  function Read(text: string, max: nat): Parsed {
    var s := Unsigned(text);
    if !Digits(s) then Bad
    else if Value(s) > max then Bad
    else Number(Value(s))
  }

  lemma {:induction false} ValueShow(n: nat)
    ensures Value(Show(n)) == n
  {
    if n < 10 {
      assert Show(n)[..0] == [];
    } else {
      ValueShow(n / 10);
      assert Show(n)[..|Show(n)| - 1] == Show(n / 10);
    }
  }

  lemma ReadShow(n: nat, max: nat)
    ensures Read(Show(n), max) == if n <= max then Number(n) else Bad
  {
    ValueShow(n);
    assert IsDigit(Show(n)[0]);
  }

  // ---- Which texts read as which number ----

  /** Digits without a leading zero. */
  predicate Plain(s: string) {
    Digits(s) && (s[0] == '0' ==> |s| == 1)
  }

  lemma {:induction false} ShowPlain(n: nat)
    ensures Plain(Show(n)) && (n > 0 ==> Show(n)[0] != '0')
  {
    if n >= 10 {
      ShowPlain(n / 10);
      assert Show(n)[0] == Show(n / 10)[0];
    }
  }

  lemma {:induction false} ShowValue(s: string)
    requires Plain(s)
    ensures Show(Value(s)) == s && (s[0] != '0' ==> Value(s) > 0)
  {
    var n := |s| - 1;
    assert IsDigit(s[n]) && s == s[..n] + [s[n]];
    var d := s[n] as int - '0' as int;
    if n == 0 {
      assert s[..0] == [] && Value(s) == d;
    } else {
      assert s[..n][0] == s[0];
      ShowValue(s[..n]);
      ShowPush(Value(s[..n]), d);
    }
  }

  lemma ShowPush(v: nat, d: nat)
    requires v > 0 && d < 10
    ensures Show(10 * v + d) == Show(v) + [DigitChar(d)]
  {
    assert (10 * v + d) / 10 == v && (10 * v + d) % 10 == d;
  }

  /** Drops leading zeros, but not the last digit. */
  function Stripped(s: string): string {
    if |s| > 1 && s[0] == '0' then Stripped(s[1..]) else s
  }

  lemma {:induction false} ValueZero(s: string)
    requires Digits(s) && s[0] == '0'
    ensures Value(s) == Value(s[1..])
  {
    var n := |s| - 1;
    assert IsDigit(s[n]);
    if n == 0 {
      assert s[..0] == [] && s[1..] == [];
    } else {
      assert s[..n][0] == '0' && s[..n][1..] == s[1..][..n - 1] && s[1..][n - 1] == s[n];
      ValueZero(s[..n]);
    }
  }

  lemma {:induction false} StrippedValue(s: string)
    requires Digits(s)
    ensures Plain(Stripped(s)) && Value(Stripped(s)) == Value(s)
  {
    if |s| > 1 && s[0] == '0' {
      ValueZero(s);
      StrippedValue(s[1..]);
    }
  }

  /** A text reads as `n` exactly when it is `n`, with a plus sign or leading zeros allowed. */
  lemma ReadIff(text: string, max: nat, n: nat)
    ensures Read(text, max) == Number(n) <==> Digits(Unsigned(text)) && Stripped(Unsigned(text)) == Show(n) && n <= max
  {
    var s := Unsigned(text);
    if Digits(s) {
      StrippedValue(s);
      ShowValue(Stripped(s));
      ValueShow(n);
    }
  }
}
