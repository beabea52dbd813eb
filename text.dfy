/** The JavaScript string primitives the renderer is built from: integer to
    decimal or binary text (`Number.prototype.toString`), each paired with
    the reading that undoes it (`ParseInt`, `BinaryValue`), and `padStart`
    and `Array.prototype.join`. */
module Text {
  import opened Wrappers

  function Pow2(k: nat): (p: nat)
    ensures p >= 1
  {
    if k == 0 then 1 else 2 * Pow2(k - 1)
  }

  /* ------------------------------ decimal ------------------------------ */

  predicate IsDigit(c: char) {
    '0' <= c <= '9'
  }

  predicate AllDigits(s: string) {
    forall i :: 0 <= i < |s| ==> IsDigit(s[i])
  }

  function DigitChar(d: nat): (c: char)
    requires d < 10
    ensures IsDigit(c) && c as int - '0' as int == d
  {
    ('0' as int + d) as char
  }

  /** The number a string of decimal digits denotes. */
  function DecimalValue(s: string): nat
    requires AllDigits(s)
  {
    if s == [] then 0
    else 10 * DecimalValue(s[..|s| - 1]) + (s[|s| - 1] as int - '0' as int)
  }

  /** The decimal text of a natural number: at least one digit, and no
      leading zero unless the number is zero. */
  function NatToDecimal(n: nat): (s: string)
    ensures |s| >= 1 && AllDigits(s)
    ensures s[0] == '0' ==> s == "0"
    ensures DecimalValue(s) == n
  {
    if n < 10 then
      [DigitChar(n)]
    else
      var prefix := NatToDecimal(n / 10);
      var s := prefix + [DigitChar(n % 10)];
      assert s[..|s| - 1] == prefix;
      s
  }

  /** `n.toString()` for an integer `n`: a minus sign before the digits of
      its magnitude when negative. */
  function IntToDecimal(n: int): (s: string)
    ensures ParseInt(s) == Some(n)
  {
    if n < 0 then "-" + NatToDecimal(-n) else NatToDecimal(n)
  }

  /** Reads back an optionally signed run of decimal digits. */
  function ParseInt(s: string): Option<int> {
    if |s| >= 2 && s[0] == '-' && AllDigits(s[1..]) then Some(-(DecimalValue(s[1..]) as int))
    else if |s| >= 1 && AllDigits(s) then Some(DecimalValue(s))
    else None
  }

  /** Distinct integers print as distinct text. */
  lemma IntToDecimalInjective(m: int, n: int)
    requires IntToDecimal(m) == IntToDecimal(n)
    ensures m == n
  {
    assert Some(m) == ParseInt(IntToDecimal(m)) == ParseInt(IntToDecimal(n)) == Some(n);
  }

  /* ------------------------------ binary ------------------------------- */

  predicate IsBinary(s: string) {
    forall i :: 0 <= i < |s| ==> s[i] == '0' || s[i] == '1'
  }

  function BitChar(b: nat): char
    requires b < 2
  {
    if b == 0 then '0' else '1'
  }

  /** The number a string of binary digits denotes, most significant first. */
  function BinaryValue(s: string): nat
    requires IsBinary(s)
  {
    if s == [] then 0
    else 2 * BinaryValue(s[..|s| - 1]) + (if s[|s| - 1] == '1' then 1 else 0)
  }

  /** `v.toString(2)`: the shortest binary text of `v` ("0" for zero). */
  function BinaryString(v: nat): (s: string)
    ensures |s| >= 1 && IsBinary(s)
    ensures s[0] == '0' ==> s == "0"
    ensures BinaryValue(s) == v
  {
    if v < 2 then
      [BitChar(v)]
    else
      var prefix := BinaryString(v / 2);
      var s := prefix + [BitChar(v % 2)];
      assert s[..|s| - 1] == prefix;
      s
  }

  /** `v.toString(2)` has at most `k` digits exactly when `v` fits in `k`
      bits (for `k >= 1`; zero still prints one digit). */
  lemma {:induction false} BinaryStringFits(v: nat, k: nat)
    requires k >= 1
    ensures |BinaryString(v)| <= k <==> v < Pow2(k)
  {
    if v >= 2 {
      if k == 1 {
        assert |BinaryString(v / 2)| >= 1;
      } else {
        BinaryStringFits(v / 2, k - 1);
      }
    }
  }

  /** Zeros in front of a binary text do not change the number it denotes. */
  lemma {:induction false} LeadingZerosKeepValue(zeros: string, s: string)
    requires forall i :: 0 <= i < |zeros| ==> zeros[i] == '0'
    requires IsBinary(s)
    ensures IsBinary(zeros + s) && BinaryValue(zeros + s) == BinaryValue(s)
  {
    if s == [] {
      assert zeros + s == zeros;
      AllZerosValue(zeros);
    } else {
      var t := zeros + s;
      assert t[..|t| - 1] == zeros + s[..|s| - 1];
      LeadingZerosKeepValue(zeros, s[..|s| - 1]);
    }
  }

  lemma {:induction false} AllZerosValue(zeros: string)
    requires forall i :: 0 <= i < |zeros| ==> zeros[i] == '0'
    ensures IsBinary(zeros) && BinaryValue(zeros) == 0
  {
    if zeros != [] {
      AllZerosValue(zeros[..|zeros| - 1]);
    }
  }

  /* ----------------------------- padding ------------------------------- */

  /** `s.padStart(targetLength, fill)` with a one-character fill: prefixes
      copies of `fill` up to `targetLength` characters and never shortens. */
  function PadStart(s: string, targetLength: int, fill: char): (r: string)
    ensures |r| == if targetLength <= |s| then |s| else targetLength
    ensures r[|r| - |s|..] == s
    ensures forall i :: 0 <= i < |r| - |s| ==> r[i] == fill
  {
    if targetLength <= |s| then s else seq(targetLength - |s|, _ => fill) + s
  }

  /* ------------------------------ joining ------------------------------ */

  /** `parts.join(separator)`. */
  function Join(parts: seq<string>, separator: string): string {
    if |parts| == 0 then ""
    else if |parts| == 1 then parts[0]
    else parts[0] + separator + Join(parts[1..], separator)
  }
}
