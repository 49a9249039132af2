/** Swift's `Int` and its failable initialiser `Int(_: String)` (radix 10).

    `Int` is a 64-bit two's-complement integer. `Int(s)` accepts an optional
    leading `+` or `-` followed by one or more decimal digits and nothing else;
    it yields nil for any other text and for a value outside the 64-bit range. */
module SwiftInt {
  import opened Wrappers

  const IntMin: int := -0x8000_0000_0000_0000
  const IntMax: int :=  0x7FFF_FFFF_FFFF_FFFF

  predicate InIntRange(n: int) {
    IntMin <= n <= IntMax
  }

  predicate IsDigit(c: char) {
    '0' <= c <= '9'
  }

  predicate AllDigits(s: string) {
    forall i :: 0 <= i < |s| ==> IsDigit(s[i])
  }

  function DigitValue(c: char): (d: nat)
    requires IsDigit(c)
    ensures d < 10
  {
    c as int - '0' as int
  }

  function DigitChar(d: nat): (c: char)
    requires d < 10
    ensures IsDigit(c) && DigitValue(c) == d
  {
    ('0' as int + d) as char
  }

  /** The value of a run of decimal digits, most significant digit first. */
  function DigitsValue(s: string): nat
    requires AllDigits(s)
  {
    if s == [] then 0 else DigitsValue(s[..|s| - 1]) * 10 + DigitValue(s[|s| - 1])
  }

  /** `Int(s)`: nil (None) unless `s` is an optionally signed run of at least
      one digit whose value fits in `Int`. */
  function ParseInt(s: string): (r: Option<int>)
    ensures r.Some? ==> InIntRange(r.value)
    ensures r.Some? ==> |s| > 0 && (IsDigit(s[0]) || s[0] == '+' || s[0] == '-')
    ensures r.Some? && r.value < 0 ==> s[0] == '-'
  {
    var signed := |s| > 0 && (s[0] == '+' || s[0] == '-');
    var digits := if signed then s[1..] else s;
    if |digits| == 0 || !AllDigits(digits) then None
    else
      var magnitude: int := DigitsValue(digits);
      var n := if signed && s[0] == '-' then -magnitude else magnitude;
      if InIntRange(n) then Some(n) else None
  }

  /** The canonical decimal spelling of a natural number: no sign, no leading zeros. */
  function Decimal(n: nat): (s: string)
    ensures |s| > 0 && AllDigits(s)
  {
    if n < 10 then [DigitChar(n)] else Decimal(n / 10) + [DigitChar(n % 10)]
  }

  /** Reading back the decimal spelling gives the number again. */
  lemma {:induction false} DecimalValue(n: nat)
    ensures DigitsValue(Decimal(n)) == n
  {
    if n >= 10 {
      var s := Decimal(n);
      assert s[..|s| - 1] == Decimal(n / 10);
      DecimalValue(n / 10);
    }
  }

  /** A leading zero does not change the value of a run of digits. */
  lemma {:induction false} LeadingZeroValue(s: string)
    requires AllDigits(s)
    ensures AllDigits("0" + s) && DigitsValue("0" + s) == DigitsValue(s)
  {
    var t := "0" + s;
    if s == [] {
      assert t[..0] == [];
    } else {
      assert t[..|t| - 1] == "0" + s[..|s| - 1];
      LeadingZeroValue(s[..|s| - 1]);
    }
  }

  /** `Int(String(n))` is `n` for every non-negative `Int`. */
  lemma ParseDecimal(n: nat)
    requires n <= IntMax
    ensures ParseInt(Decimal(n)) == Some(n)
  {
    DecimalValue(n);
  }

  /** `Int("-" + String(n))` is `-n` for every magnitude a negative `Int` can have. */
  lemma ParseNegativeDecimal(n: nat)
    requires 0 < n <= -IntMin
    ensures ParseInt("-" + Decimal(n)) == Some(-(n as int))
  {
    var s := "-" + Decimal(n);
    assert s[1..] == Decimal(n);
    DecimalValue(n);
  }

  /** A magnitude just past `Int.max` does not parse: `Int(_:)` rejects overflow. */
  lemma ParseRejectsOverflow(n: nat)
    requires IntMax < n
    ensures ParseInt(Decimal(n)).None?
  {
    DecimalValue(n);
  }

  /** The empty string and a lone sign are not integers. */
  lemma ParseRejectsNoDigits()
    ensures ParseInt("").None? && ParseInt("+").None? && ParseInt("-").None?
  {
    assert "+"[1..] == "";
    assert "-"[1..] == "";
  }
}
