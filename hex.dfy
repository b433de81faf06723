/** Python's `int(text, 16)`, as the client applies it to hex-encoded block
    numbers and log fields, and its partner: the `0x`-prefixed lower-case
    rendering of a natural number that the explorer returns for those fields. */
module Hex {
  import opened Values

  predicate IsHexDigit(c: char)
  {
    '0' <= c <= '9' || 'a' <= c <= 'f' || 'A' <= c <= 'F'
  }

  predicate AllHexDigits(s: string)
  {
    forall i :: 0 <= i < |s| ==> IsHexDigit(s[i])
  }

  function DigitValue(c: char): (d: nat)
    requires IsHexDigit(c)
    ensures d < 16
  {
    if '0' <= c <= '9' then c as int - '0' as int
    else if 'a' <= c <= 'f' then c as int - 'a' as int + 10
    else c as int - 'A' as int + 10
  }

  /** The number the digits stand for, most significant digit first. */
  function DigitsValue(s: string): nat
    requires AllHexDigits(s)
  {
    if s == [] then 0 else DigitsValue(s[..|s| - 1]) * 16 + DigitValue(s[|s| - 1])
  }

  /** The text after an optional `0x` or `0X` prefix, which base 16 admits. */
  function StripPrefix(s: string): (d: string)
    ensures |d| <= |s|
  {
    if |s| >= 2 && s[0] == '0' && (s[1] == 'x' || s[1] == 'X') then s[2..] else s
  }

  /** `int(s, 16)`: `None` where Python raises ValueError. */
  function ParseHex(s: string): (r: Option<nat>)
    ensures r.Some? <==> StripPrefix(s) != [] && AllHexDigits(StripPrefix(s))
  {
    var d := StripPrefix(s);
    if d != [] && AllHexDigits(d) then Some(DigitsValue(d)) else None
  }

  /** `int(v, 16)` on a dictionary value: only a string is accepted. */
  function IntBase16(v: Value): (r: Result<int, Error>)
    ensures r.Ok? <==> v.Text? && ParseHex(v.s).Some?
    ensures r.Ok? ==> r.value == ParseHex(v.s).value
    ensures v.Text? && ParseHex(v.s).None? ==> r == Err(InvalidLiteral(v.s))
    ensures !v.Text? ==> r == Err(NotAString(v))
  {
    match v
    case Text(s) => (match ParseHex(s) case Some(n) => Ok(n) case None => Err(InvalidLiteral(s)))
    case _ => Err(NotAString(v))
  }

  function HexChar(d: nat): (c: char)
    requires d < 16
    ensures IsHexDigit(c) && DigitValue(c) == d
  {
    if d < 10 then ('0' as int + d) as char else ('a' as int + d - 10) as char
  }

  /** Lower-case hex digits of n without leading zeros ("0" for zero). */
  function Digits(n: nat): (s: string)
    ensures s != [] && AllHexDigits(s)
  {
    if n < 16 then [HexChar(n)] else Digits(n / 16) + [HexChar(n % 16)]
  }

  /** The explorer's rendering of a hex-encoded number. */
  function ToHex(n: nat): string
  {
    "0x" + Digits(n)
  }

  lemma {:induction false} DigitsValueOfDigits(n: nat)
    ensures DigitsValue(Digits(n)) == n
  {
    if n >= 16 {
      var s := Digits(n);
      assert s[..|s| - 1] == Digits(n / 16);
      DigitsValueOfDigits(n / 16);
    }
  }

  /** Parsing the explorer's rendering of a number gives that number back. */
  lemma ParseHexOfToHex(n: nat)
    ensures ParseHex(ToHex(n)) == Some(n)
  {
    var s := ToHex(n);
    assert StripPrefix(s) == Digits(n);
    DigitsValueOfDigits(n);
  }
}
