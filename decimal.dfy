/** Decimal notation: what `str(n)` writes and what `int(s)` reads back. */
module Decimal {

  /** The decimal digits of `n`, most significant first, as `str(n)` spells them. */
  function Digits(n: nat): (ds: seq<nat>)
    ensures |ds| >= 1
    ensures forall i :: 0 <= i < |ds| ==> ds[i] < 10
    ensures ds[0] == 0 ==> n == 0
    ensures |ds| == 1 <==> n < 10
  {
    if n < 10 then [n] else Digits(n / 10) + [n % 10]
  }

  /** The value of a string of decimal digits, as `int(s)` reads it (leading zeros allowed). */
  function ParseDigits(ds: seq<nat>): nat {
    if |ds| == 0 then 0 else ParseDigits(ds[..|ds| - 1]) * 10 + ds[|ds| - 1]
  }

  /** A digit string as Python spells it: digits only, no leading zero unless it is "0". */
  predicate Canonical(ds: seq<nat>) {
    |ds| >= 1 && (forall i :: 0 <= i < |ds| ==> ds[i] < 10) && (ds[0] == 0 ==> |ds| == 1)
  }

  function DigitChar(d: nat): char
    requires d < 10
  {
    "0123456789"[d]
  }

  /** `str(n)`. */
  function DecimalString(n: nat): string {
    var ds := Digits(n);
    seq(|ds|, i requires 0 <= i < |ds| => DigitChar(ds[i]))
  }

  /** `int(str(n)) == n`. */
  lemma {:induction false} ParseDigitsOfDigits(n: nat)
    ensures ParseDigits(Digits(n)) == n
  {
    if n >= 10 {
      var ds := Digits(n);
      assert ds == Digits(n / 10) + [n % 10];
      assert ds[..|ds| - 1] == Digits(n / 10);
      ParseDigitsOfDigits(n / 10);
    }
  }

  /** A digit string without a leading zero has a positive value. */
  lemma {:induction false} ParsePositive(ds: seq<nat>)
    requires |ds| >= 1 && ds[0] != 0
    ensures ParseDigits(ds) > 0
  {
    if |ds| > 1 {
      var init := ds[..|ds| - 1];
      assert init[0] == ds[0];
      ParsePositive(init);
    }
  }

  /** `str(int(s)) == s` for every canonical digit string. */
  lemma {:induction false} DigitsOfParseDigits(ds: seq<nat>)
    requires Canonical(ds)
    ensures Digits(ParseDigits(ds)) == ds
  {
    var init, last := ds[..|ds| - 1], ds[|ds| - 1];
    assert ds == init + [last];
    if |init| == 0 {
      assert ParseDigits(ds) == last;
    } else {
      assert init[0] == ds[0] && ds[0] != 0;
      ParsePositive(init);
      DigitsOfParseDigits(init);
      var n := ParseDigits(ds);
      assert n == ParseDigits(init) * 10 + last;
      assert n / 10 == ParseDigits(init) && n % 10 == last;
    }
  }
}
