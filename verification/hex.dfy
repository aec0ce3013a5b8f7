/** Hexadecimal text as the compiler writes it (`n.toString(16)`: lower-case digits, no
    leading zeros) and as the assembler reads it back (`parseInt(text, 16)`). */
module Hex {
  import opened Results

  const DIGITS: string := "0123456789abcdef"

  function HexDigit(d: nat): char
    requires d < 16
  {
    DIGITS[d]
  }

  /** `n.toString(16)` for a non-negative integer. */
  function ToHex(n: nat): (r: string)
    ensures 1 <= |r|
    decreases n
  {
    if n < 16 then [HexDigit(n)] else ToHex(n / 16) + [HexDigit(n % 16)]
  }

  /** The value of one hex digit; `parseInt` accepts either case. */
  function DigitValue(c: char): Option<nat>
  {
    if '0' <= c <= '9' then Some(c as int - '0' as int)
    else if 'a' <= c <= 'f' then Some(c as int - 'a' as int + 10)
    else if 'A' <= c <= 'F' then Some(c as int - 'A' as int + 10)
    else None
  }

  /** `parseInt(s, 16)` on a non-empty string made only of hex digits; anything else is
      left unparsed. */
  function ParseHex(s: string): Option<nat>
    decreases |s|
  {
    if |s| == 0 then None
    else
      match DigitValue(s[|s| - 1])
      case None => None
      case Some(d) =>
        if |s| == 1 then Some(d)
        else match ParseHex(s[..|s| - 1])
          case None => None
          case Some(high) => Some(high * 16 + d)
  }

  lemma DigitRoundTrip(d: nat)
    requires d < 16
    ensures DigitValue(HexDigit(d)) == Some(d)
  {
  }

  /** What the compiler writes, the assembler reads back as the same number. */
  lemma {:induction false} HexRoundTrip(n: nat)
    ensures ParseHex(ToHex(n)) == Some(n)
    decreases n
  {
    if n < 16 {
      DigitRoundTrip(n);
    } else {
      var high := ToHex(n / 16);
      var r := high + [HexDigit(n % 16)];
      assert ToHex(n) == r;
      HexRoundTrip(n / 16);
      DigitRoundTrip(n % 16);
      assert |r| > 1 && r[|r| - 1] == HexDigit(n % 16);
      assert r[..|r| - 1] == high;
      assert ParseHex(r) == Some((n / 16) * 16 + n % 16);
    }
  }

  /** Only lower-case digits, and no leading zero. */
  lemma {:induction false} HexCanonical(n: nat)
    ensures forall i :: 0 <= i < |ToHex(n)| ==> ToHex(n)[i] in DIGITS
    ensures |ToHex(n)| > 1 ==> ToHex(n)[0] != '0'
    decreases n
  {
    if n >= 16 {
      HexCanonical(n / 16);
      assert ToHex(n) == ToHex(n / 16) + [HexDigit(n % 16)];
    }
  }

  /** Different numbers are written differently. */
  lemma HexInjective(m: nat, n: nat)
    requires ToHex(m) == ToHex(n)
    ensures m == n
  {
    HexRoundTrip(m);
    HexRoundTrip(n);
  }
}
