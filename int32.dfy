/**
 * Decimal text of 32-bit integers: `int.TryParse(string, out int)` on
 * culture-independent decimal digits, and `Int32.ToString()`.
 */
module Int32Text {
  import opened Wrappers

  const Int32Min: int := -0x8000_0000
  const Int32Max: int := 0x7FFF_FFFF

  predicate InInt32(n: int) {
    Int32Min <= n <= Int32Max
  }

  predicate IsDigit(c: char) {
    '0' <= c <= '9'
  }

  predicate AllDigits(s: string) {
    forall i :: 0 <= i < |s| ==> IsDigit(s[i])
  }

  /** The white space `NumberStyles.Integer` allows around a number: U+0009 to U+000D and U+0020. */
  predicate IsNumberWhite(c: char) {
    c == ' ' || '\t' <= c <= '\r'
  }

  function StripLeadingWhite(s: string): string {
    if s != [] && IsNumberWhite(s[0]) then StripLeadingWhite(s[1..]) else s
  }

  function StripTrailingWhite(s: string): string {
    if s != [] && IsNumberWhite(s[|s| - 1]) then StripTrailingWhite(s[..|s| - 1]) else s
  }

  /** The value of a string of decimal digits, most significant first. */
  function DigitsValue(s: string): nat
    requires AllDigits(s)
  {
    if s == [] then 0 else DigitsValue(s[..|s| - 1]) * 10 + (s[|s| - 1] as int - '0' as int)
  }

  /**
   * `int.TryParse(s, out n)` with `NumberStyles.Integer`: optional white
   * space, an optional sign, one or more decimal digits, optional white
   * space, and a value that fits in 32 bits.
   */
  function TryParseInt32(s: string): (r: Option<int>)
    ensures r.Some? ==> InInt32(r.value)
  {
    var t := StripTrailingWhite(StripLeadingWhite(s));
    var signed := t != [] && (t[0] == '-' || t[0] == '+');
    var digits := if signed then t[1..] else t;
    if digits == [] || !AllDigits(digits) then None
    else
      var v: int := if signed && t[0] == '-' then -(DigitsValue(digits) as int) else DigitsValue(digits);
      if InInt32(v) then Some(v) else None
  }

  function DigitChar(d: nat): (c: char)
    requires d < 10
    ensures IsDigit(c) && c as int - '0' as int == d
  {
    ('0' as int + d) as char
  }

  /** The shortest decimal digits of `n`. */
  function NatToString(n: nat): (s: string)
    ensures |s| >= 1 && AllDigits(s)
  {
    if n < 10 then [DigitChar(n)] else NatToString(n / 10) + [DigitChar(n % 10)]
  }

  /** `Int32.ToString()`: a minus sign for negative values, then the digits. */
  function IntToString(n: int): string {
    if n < 0 then "-" + NatToString(-n) else NatToString(n)
  }

  lemma {:induction false} DigitsValueOfNat(n: nat)
    ensures DigitsValue(NatToString(n)) == n
  {
    if n >= 10 {
      var s := NatToString(n);
      assert s[..|s| - 1] == NatToString(n / 10);
      DigitsValueOfNat(n / 10);
    }
  }

  /** Every 32-bit integer is read back from its own text, negative ones included. */
  lemma FormatParseRoundTrip(n: int)
    requires InInt32(n)
    ensures TryParseInt32(IntToString(n)) == Some(n)
  {
    var s := IntToString(n);
    var digits := NatToString(if n < 0 then -n else n);
    DigitsValueOfNat(if n < 0 then -n else n);
    assert StripLeadingWhite(s) == s;
    assert StripTrailingWhite(s) == s;
    if n < 0 {
      assert s[1..] == digits;
    } else {
      assert s[0] != '-' && s[0] != '+';
    }
  }

  /** Text that is not a number is rejected. */
  lemma TryParseRejects()
    ensures TryParseInt32("") == None
    ensures TryParseInt32("1a") == None
    ensures TryParseInt32("-") == None
  {
    assert !AllDigits("1a") by { assert !IsDigit("1a"[1]); }
  }

  /** A number one past the largest 32-bit integer is rejected. */
  lemma TryParseRejectsOverflow()
    ensures TryParseInt32(NatToString(Int32Max + 1)) == None
  {
    var s := NatToString(Int32Max + 1);
    DigitsValueOfNat(Int32Max + 1);
    assert StripLeadingWhite(s) == s;
    assert StripTrailingWhite(s) == s;
  }
}
