/** Decimal text of integers: Rust's `str::parse` for the integer types
    (`FromStr`) and `to_string` (`Display`). */
module Decimal {
  import opened Wrappers
  import opened Ints

  predicate IsDigit(c: char) {
    '0' <= c <= '9'
  }

  predicate AllDigits(s: string) {
    forall i :: 0 <= i < |s| ==> IsDigit(s[i])
  }

  /** The value of a run of ASCII digits, most significant first. */
  function DigitsValue(s: string): nat
    requires AllDigits(s)
  {
    if s == [] then 0
    else 10 * DigitsValue(s[..|s| - 1]) + (s[|s| - 1] - '0') as nat
  }

  /** `s.parse::<T>()` for an integer type `T` whose range is `lo..=hi`:
      an optional `+` (and, when `T` is signed, an optional `-`) followed by
      at least one ASCII digit, whose value must lie in range. Leading zeros
      are accepted; anything else, including surrounding blanks, is an error. */
  function ParseInteger(s: string, signed: bool, lo: int, hi: int): (r: Option<int>)
    ensures r.Some? ==> lo <= r.value <= hi
    ensures r.Some? ==> |s| > 0
  {
    if |s| == 0 then None
    else if s[0] == '+' || (signed && s[0] == '-') then
      if |s| == 1 || !AllDigits(s[1..]) then None
      else
        var v: int := if s[0] == '-' then 0 - DigitsValue(s[1..]) as int else DigitsValue(s[1..]);
        if lo <= v <= hi then Some(v) else None
    else if AllDigits(s) then
      var v := DigitsValue(s);
      if lo <= v <= hi then Some(v) else None
    else None
  }

  function ParseI32(s: string): Option<int> { ParseInteger(s, true, I32_MIN, I32_MAX) }

  function ParseU64(s: string): Option<int> { ParseInteger(s, false, 0, TWO_64 - 1) }

  function DigitChar(d: nat): (c: char)
    requires d < 10
    ensures IsDigit(c) && (c - '0') as nat == d
  {
    ('0' as int + d) as char
  }

  /** `n.to_string()` for an unsigned value: no sign, no leading zeros. */
  function NatToString(n: nat): (s: string)
    ensures |s| > 0 && AllDigits(s)
    ensures |s| > 1 ==> s[0] != '0'
  {
    if n < 10 then [DigitChar(n)]
    else NatToString(n / 10) + [DigitChar(n % 10)]
  }

  /** `i.to_string()` for a signed value: a `-` for negative values only. */
  function IntToString(i: int): (s: string)
    ensures |s| > 0
    ensures (s[0] == '-') == (i < 0)
  {
    if i < 0 then "-" + NatToString(-i) else NatToString(i)
  }

  lemma {:induction false} NatToStringValue(n: nat)
    ensures DigitsValue(NatToString(n)) == n
  {
    var s := NatToString(n);
    if n >= 10 {
      NatToStringValue(n / 10);
      assert s[..|s| - 1] == NatToString(n / 10);
    }
  }

  /** Round trip: the text `to_string` gives for an unsigned value parses back
      to that value. */
  lemma ParseNatToString(n: nat, hi: int)
    requires n <= hi
    ensures ParseInteger(NatToString(n), false, 0, hi) == Some(n)
  {
    NatToStringValue(n);
  }

  /** Round trip: the text `to_string` gives for a signed value parses back to
      that value. */
  lemma ParseIntToString(i: int, lo: int, hi: int)
    requires lo <= i <= hi
    ensures ParseInteger(IntToString(i), true, lo, hi) == Some(i)
  {
    var s := IntToString(i);
    if i < 0 {
      NatToStringValue(-i);
      assert s[1..] == NatToString(-i);
    } else {
      NatToStringValue(i);
    }
  }

  /** Distinct values have distinct texts. */
  lemma NatToStringInjective(m: nat, n: nat)
    requires NatToString(m) == NatToString(n)
    ensures m == n
  {
    NatToStringValue(m);
    NatToStringValue(n);
  }

  /** A non-empty run of digits parses to its value when that value is in
      range, for a signed or an unsigned type. */
  lemma ParseDigits(t: string, signed: bool, lo: int, hi: int)
    requires |t| > 0 && AllDigits(t) && lo <= 0
    ensures ParseInteger(t, signed, lo, hi) ==
      if DigitsValue(t) <= hi then Some(DigitsValue(t) as int) else None
  {
    assert IsDigit(t[0]);
  }
}
