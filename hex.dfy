/**
 * Hexadecimal text for USB vendor and product identifiers.
 *
 * The settings window writes an identifier with Python's format spec `0x{:04X}`
 * (at least four upper-case digits after a literal "0x"), and both the window
 * and the service read it back with `int(text, 16)`, which accepts an optional
 * "0x"/"0X" prefix and digits of either case.
 */
module Hex {
  import opened Wrappers

  predicate IsHexDigit(c: char) {
    '0' <= c <= '9' || 'a' <= c <= 'f' || 'A' <= c <= 'F'
  }

  predicate IsUpperHexDigit(c: char) {
    '0' <= c <= '9' || 'A' <= c <= 'F'
  }

  predicate AllHexDigits(s: string) {
    forall i :: 0 <= i < |s| ==> IsHexDigit(s[i])
  }

  /** The value of one hexadecimal digit, either case. */
  function DigitValue(c: char): (v: nat)
    requires IsHexDigit(c)
    ensures v < 16
  {
    if '0' <= c <= '9' then c as int - '0' as int
    else if 'a' <= c <= 'f' then c as int - 'a' as int + 10
    else c as int - 'A' as int + 10
  }

  /** A lower-case digit has the value of its upper-case counterpart. */
  lemma DigitValueIgnoresCase(c: char)
    requires 'a' <= c <= 'f'
    ensures IsHexDigit((c as int - 32) as char)
    ensures DigitValue(c) == DigitValue((c as int - 32) as char)
  {
  }

  /** The upper-case digit that `X` formatting prints for a value below 16. */
  function UpperDigit(d: nat): (c: char)
    requires d < 16
    ensures IsUpperHexDigit(c) && IsHexDigit(c)
    ensures DigitValue(c) == d
  {
    if d < 10 then ('0' as int + d) as char else ('A' as int + d - 10) as char
  }

  /** Python's `format(n, "X")`: the shortest upper-case digit string of `n`. */
  function ToHexDigits(n: nat): (s: string)
    ensures |s| >= 1
    ensures forall i :: 0 <= i < |s| ==> IsUpperHexDigit(s[i]) && IsHexDigit(s[i])
    ensures n > 0 ==> s[0] != '0'
    decreases n
  {
    if n < 16 then [UpperDigit(n)] else ToHexDigits(n / 16) + [UpperDigit(n % 16)]
  }

  /** The value of a string of hexadecimal digits, most significant first. */
  function HexValue(s: string): (v: nat)
    requires AllHexDigits(s)
  {
    if s == [] then 0 else HexValue(s[..|s| - 1]) * 16 + DigitValue(s[|s| - 1])
  }

  function Zeros(k: nat): (z: string)
    ensures |z| == k && forall i :: 0 <= i < k ==> z[i] == '0'
  {
    seq(k, _ => '0')
  }

  /** `f"0x{n:04X}"`: "0x", then the digits of `n` left-padded with zeros to width four. */
  function FormatHex(n: nat): (s: string)
    ensures |s| >= 6 && s[..2] == "0x"
    ensures forall i :: 2 <= i < |s| ==> IsUpperHexDigit(s[i])
    ensures |s| == 2 + if |ToHexDigits(n)| < 4 then 4 else |ToHexDigits(n)|
  {
    var digits := ToHexDigits(n);
    "0x" + if |digits| < 4 then Zeros(4 - |digits|) + digits else digits
  }

  /**
   * `int(s, 16)`: an optional "0x" or "0X" prefix followed by one or more
   * hexadecimal digits; anything else raises ValueError, modelled as None.
   */
  function ParseHex(s: string): (r: Option<nat>)
    ensures r.Some? <==> var d := StripPrefix(s); |d| >= 1 && AllHexDigits(d)
  {
    var digits := StripPrefix(s);
    if |digits| >= 1 && AllHexDigits(digits) then Some(HexValue(digits)) else None
  }

  function StripPrefix(s: string): (d: string)
    ensures d == s || (|s| >= 2 && d == s[2..])
  {
    if |s| >= 2 && s[0] == '0' && (s[1] == 'x' || s[1] == 'X') then s[2..] else s
  }

  lemma {:induction false} HexValueOfDigits(n: nat)
    ensures HexValue(ToHexDigits(n)) == n
    decreases n
  {
    if n >= 16 {
      var s := ToHexDigits(n);
      assert s[..|s| - 1] == ToHexDigits(n / 16);
      HexValueOfDigits(n / 16);
    }
  }

  /** Leading zeros do not change the value read back. */
  lemma {:induction false} LeadingZerosIgnored(k: nat, s: string)
    requires AllHexDigits(s)
    ensures AllHexDigits(Zeros(k) + s)
    ensures HexValue(Zeros(k) + s) == HexValue(s)
    decreases |s|
  {
    var z := Zeros(k) + s;
    assert AllHexDigits(z) by {
      forall i | 0 <= i < |z| ensures IsHexDigit(z[i]) {
        if i >= k { assert z[i] == s[i - k]; }
      }
    }
    if s == [] {
      assert z == Zeros(k);
      ZerosValue(k);
    } else {
      assert z[..|z| - 1] == Zeros(k) + s[..|s| - 1];
      LeadingZerosIgnored(k, s[..|s| - 1]);
    }
  }

  lemma {:induction false} ZerosValue(k: nat)
    ensures AllHexDigits(Zeros(k)) && HexValue(Zeros(k)) == 0
  {
    if k > 0 {
      assert Zeros(k)[..k - 1] == Zeros(k - 1);
      ZerosValue(k - 1);
    }
  }

  /**
   * Reading hexadecimal digits, bare or after a "0x" or "0X" prefix, yields
   * their value.
   */
  lemma ParsedValue(p: string, digits: string)
    requires p == "" || p == "0x" || p == "0X"
    requires |digits| >= 1 && AllHexDigits(digits)
    ensures ParseHex(p + digits) == Some(HexValue(digits))
  {
    if p == "" {
      assert p + digits == digits;
    } else {
      assert StripPrefix(p + digits) == digits;
    }
  }

  /** Reading "0x" followed by hexadecimal digits yields their value. */
  lemma PrefixedValue(digits: string)
    requires |digits| >= 1 && AllHexDigits(digits)
    ensures ParseHex("0x" + digits) == Some(HexValue(digits))
  {
    assert StripPrefix("0x" + digits) == digits;
  }

  /** A hand-written lower-case identifier reads as the upper-case one would. */
  lemma LowerCaseSample()
    ensures ParseHex("0x046d") == Some(0x046D)
    ensures ParseHex("0x046D") == Some(0x046D)
    ensures ParseHex("0X046D") == Some(0x046D)
    ensures ParseHex("046D") == Some(0x046D)
  {
    assert "046d"[..3] == "046" && "046"[..2] == "04" && "04"[..1] == "0" && "0"[..0] == "";
    assert "046D"[..3] == "046";
    ParsedValue("0x", "046d");
    ParsedValue("0x", "046D");
    ParsedValue("0X", "046D");
    ParsedValue("", "046D");
  }

  /** Round trip: what the settings window writes, `int(..., 16)` reads back unchanged. */
  lemma FormatParseRoundTrip(n: nat)
    ensures ParseHex(FormatHex(n)) == Some(n)
  {
    var digits := ToHexDigits(n);
    var body := if |digits| < 4 then Zeros(4 - |digits|) + digits else digits;
    assert FormatHex(n) == "0x" + body;
    HexValueOfDigits(n);
    if |digits| < 4 {
      LeadingZerosIgnored(4 - |digits|, digits);
    }
    PrefixedValue(body);
  }

  /** Distinct identifiers are written as distinct strings. */
  lemma FormatHexInjective(m: nat, n: nat)
    requires FormatHex(m) == FormatHex(n)
    ensures m == n
  {
    FormatParseRoundTrip(m);
    FormatParseRoundTrip(n);
  }

  lemma {:induction false} DigitCountBound(n: nat, k: nat)
    requires n < Pow16(k) && k >= 1
    ensures |ToHexDigits(n)| <= k
    decreases k
  {
    if n >= 16 {
      assert n / 16 < Pow16(k - 1);
      DigitCountBound(n / 16, k - 1);
    }
  }

  function Pow16(k: nat): (p: nat)
    ensures p >= 1
  {
    if k == 0 then 1 else 16 * Pow16(k - 1)
  }

  /** A 16-bit identifier is always written as exactly six characters, "0x" and four digits. */
  lemma SixteenBitWidth(n: nat)
    requires n < 0x1_0000
    ensures |FormatHex(n)| == 6
  {
    assert Pow16(4) == 0x1_0000;
    DigitCountBound(n, 4);
  }
}
