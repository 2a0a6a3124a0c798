/** Decimal digit characters and the base-10 value of a run of them. The
    tokenizer turns a digit into a number with `char::to_digit(10)`, back into a
    character with `char::from_digit(_, 10)`, and a whole run into a number with
    `str::parse`; this module models those three conversions on unbounded
    naturals, together with the canonical rendering of a number that serves as
    their inverse. */
module Decimal {

  predicate IsDigitChar(c: char) {
    '0' <= c <= '9'
  }

  predicate AllDigits(s: string) {
    forall i :: 0 <= i < |s| ==> IsDigitChar(s[i])
  }

  /** A canonical numeral: non-empty, and no leading zero unless it is `"0"` itself. */
  predicate Canonical(s: string) {
    |s| > 0 && (s[0] == '0' ==> |s| == 1)
  }

  /** The value of one digit character, as `to_digit(10)` gives it. */
  function DigitValue(c: char): (d: nat)
    requires IsDigitChar(c)
    ensures d <= 9
    ensures ('0' as int + d) as char == c
  {
    c as int - '0' as int
  }

  /** The digit character of a value below ten, as `from_digit(d, 10)` gives it. */
  function DigitChar(d: nat): (c: char)
    requires d <= 9
    ensures IsDigitChar(c) && DigitValue(c) == d
  {
    ('0' as int + d) as char
  }

  /** `from_digit` undoes `to_digit`: the tokenizer's digit buffer holds the input's own characters. */
  lemma DigitCharOfValue(c: char)
    requires IsDigitChar(c)
    ensures DigitChar(DigitValue(c)) == c
  {
  }

  function Pow10(k: nat): (p: nat)
    ensures p >= 1
  {
    if k == 0 then 1 else 10 * Pow10(k - 1)
  }

  /** The base-10 value of a run of digits, read left to right, as
      `str::parse` computes it. A run of `k` digits stays below `10^k`, and a
      leading zero contributes nothing. The empty run has value 0; the
      tokenizer never asks for it. */
  function DecimalValue(ds: string): (n: nat)
    requires AllDigits(ds)
    ensures n < Pow10(|ds|)
    ensures |ds| > 0 && ds[0] == '0' ==> n == DecimalValue(ds[1..])
  {
    if |ds| == 0 then 0
    else
      var init := ds[..|ds| - 1];
      var m := DecimalValue(init);
      var d := DigitValue(ds[|ds| - 1]);
      assert m * 10 + d < Pow10(|ds|) by {
        assert m + 1 <= Pow10(|init|);
        assert (m + 1) * 10 <= Pow10(|init|) * 10;
      }
      if |ds| > 1 then
        assert ds[1..][..|ds| - 2] == init[1..];
        assert ds[1..][|ds| - 2] == ds[|ds| - 1];
        m * 10 + d
      else
        m * 10 + d
  }

  /** The canonical decimal numeral of `n`. */
  function Numeral(n: nat): (s: string)
    ensures AllDigits(s) && Canonical(s)
    ensures s[0] == '0' <==> n == 0
  {
    if n < 10 then [DigitChar(n)] else Numeral(n / 10) + [DigitChar(n % 10)]
  }

  /** Reading a rendered number gives the number back. */
  lemma {:induction false} DecimalValueOfNumeral(n: nat)
    ensures DecimalValue(Numeral(n)) == n
  {
    var s := Numeral(n);
    if n < 10 {
      assert s[..|s| - 1] == [];
    } else {
      assert s[..|s| - 1] == Numeral(n / 10);
      DecimalValueOfNumeral(n / 10);
    }
  }

  /** A run whose first digit is not `0` has a positive value. */
  lemma {:induction false} DecimalValuePositive(ds: string)
    requires AllDigits(ds) && |ds| > 0 && ds[0] != '0'
    ensures DecimalValue(ds) >= 1
  {
    if |ds| > 1 {
      DecimalValuePositive(ds[..|ds| - 1]);
    }
  }

  /** Rendering the value of a canonical numeral gives the numeral back. */
  lemma {:induction false} NumeralOfDecimalValue(ds: string)
    requires AllDigits(ds) && Canonical(ds)
    ensures Numeral(DecimalValue(ds)) == ds
  {
    var last := ds[|ds| - 1];
    var d := DigitValue(last);
    DigitCharOfValue(last);
    if |ds| == 1 {
      assert ds[..0] == [];
      assert ds == [last];
    } else {
      var init := ds[..|ds| - 1];
      var m := DecimalValue(init);
      DecimalValuePositive(init);
      NumeralOfDecimalValue(init);
      var n := m * 10 + d;
      assert n / 10 == m && n % 10 == d;
      assert ds == init + [last];
    }
  }
}
