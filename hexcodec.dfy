/**
 * Timestamp tokens: `Number.prototype.toString(16)` on a millisecond count,
 * and `parseInt(s, 16)` that turns a token back into a number.
 */
module HexCodec {
  import opened Wrappers
  import opened Text

  /** The lower-case hexadecimal digit of a value below 16. */
  function HexDigit(d: nat): (c: char)
    requires d < 16
    ensures IsHexDigit(c) && DigitValue(c) == d
  {
    if d < 10 then ('0' as int + d) as char else ('a' as int + d - 10) as char
  }

  predicate IsHexDigit(c: char) {
    '0' <= c <= '9' || 'a' <= c <= 'f' || 'A' <= c <= 'F'
  }

  function DigitValue(c: char): (r: nat)
    requires IsHexDigit(c)
  {
    if '0' <= c <= '9' then c as int - '0' as int
    else if 'a' <= c <= 'f' then c as int - 'a' as int + 10
    else c as int - 'A' as int + 10
  }

  /** `n.toString(16)`: lower-case digits, no leading zeros, "0" for zero. */
  function Hex(n: nat): (r: string)
    ensures |r| >= 1
    ensures forall i :: 0 <= i < |r| ==> IsHexDigit(r[i])
    ensures n >= 16 <==> |r| >= 2
    ensures '-' !in r  // so a token never contains the separator of an id
    decreases n
  {
    if n < 16 then [HexDigit(n)] else Hex(n / 16) + [HexDigit(n % 16)]
  }

  /** The number of leading characters of `s` that are hexadecimal digits. */
  function LeadingDigits(s: string): (k: nat)
    ensures k <= |s|
    ensures forall i :: 0 <= i < k ==> IsHexDigit(s[i])
    ensures k < |s| ==> !IsHexDigit(s[k])
  {
    if |s| == 0 || !IsHexDigit(s[0]) then 0 else 1 + LeadingDigits(s[1..])
  }

  /** The value of a string of hexadecimal digits, most significant first. */
  function DigitsValue(s: string): (r: nat)
    requires forall i :: 0 <= i < |s| ==> IsHexDigit(s[i])
  {
    if |s| == 0 then 0 else DigitsValue(s[..|s| - 1]) * 16 + DigitValue(s[|s| - 1])
  }

  /**
   * `parseInt(s, 16)`: the value of the longest run of leading hexadecimal
   * digits, or None (NaN) when `s` does not begin with one.
   */
  function ParseHex(s: string): (r: Option<nat>)
    ensures r.None? <==> (|s| == 0 || !IsHexDigit(s[0]))
  {
    var k := LeadingDigits(s);
    if k == 0 then None else Some(DigitsValue(s[..k]))
  }

  lemma {:induction false} DigitsValueOfHex(n: nat)
    ensures DigitsValue(Hex(n)) == n
    decreases n
  {
    if n >= 16 {
      DigitsValueOfHex(n / 16);
      var h := Hex(n);
      assert h[..|h| - 1] == Hex(n / 16);
    }
  }

  lemma LeadingDigitsAll(s: string)
    requires forall i :: 0 <= i < |s| ==> IsHexDigit(s[i])
    ensures LeadingDigits(s) == |s|
  {
  }

  /** Parsing a token gives back the time it was made from. */
  lemma ParseHexOfHex(n: nat)
    ensures ParseHex(Hex(n)) == Some(n)
  {
    var h := Hex(n);
    LeadingDigitsAll(h);
    assert h[..|h|] == h;
    DigitsValueOfHex(n);
  }

  /** Distinct times give distinct tokens. */
  lemma HexInjective(a: nat, b: nat)
    requires Hex(a) == Hex(b)
    ensures a == b
  {
    ParseHexOfHex(a);
    ParseHexOfHex(b);
  }

  lemma HexDigitMonotone(x: nat, y: nat)
    requires x < 16 && y < 16
    ensures HexDigit(x) > HexDigit(y) <==> x > y
  {
  }

  /**
   * As strings, two tokens of the same length compare as the times they
   * encode, so sorting by a stamp field is chronological while every stamp
   * has the same number of digits.
   */
  lemma {:induction false} HexOrderSameLength(a: nat, b: nat)
    requires |Hex(a)| == |Hex(b)|
    ensures LexGreater(Hex(a), Hex(b)) <==> a > b
    decreases a
  {
    if a < 16 {
      assert b < 16;
      HexDigitMonotone(a, b);
    } else {
      assert b >= 16;
      HexOrderSameLength(a / 16, b / 16);
      LexAppend(Hex(a / 16), Hex(b / 16), HexDigit(a % 16), HexDigit(b % 16));
      HexDigitMonotone(a % 16, b % 16);
      if Hex(a / 16) == Hex(b / 16) { HexInjective(a / 16, b / 16); }
    }
  }

  /** With different lengths the string order can disagree with time: "f" > "10". */
  lemma HexOrderDiffersAcrossLengths()
    ensures LexGreater(Hex(15), Hex(16)) && 15 < 16
  {
    assert Hex(15) == "f";
    assert Hex(16) == "10";
  }
}
