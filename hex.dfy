/** Hexadecimal digits: PHP's `bin2hex` (lower case, high nibble first),
    its inverse, and the upper-case digits `urlencode` writes after `%`. */
module Hex {
  import opened Text

  predicate IsLowerHexDigit(c: char) { '0' <= c <= '9' || 'a' <= c <= 'f' }
  predicate IsUpperHexDigit(c: char) { '0' <= c <= '9' || 'A' <= c <= 'F' }

  function LowerDigit(n: nat): (c: char)
    requires n < 16
    ensures IsLowerHexDigit(c)
  {
    if n < 10 then ('0' as int + n) as char else ('a' as int + n - 10) as char
  }

  function UpperDigit(n: nat): (c: char)
    requires n < 16
    ensures IsUpperHexDigit(c)
  {
    if n < 10 then ('0' as int + n) as char else ('A' as int + n - 10) as char
  }

  /** The value of a hex digit of either case (0 for any other character). */
  function DigitValue(c: char): (n: nat)
    ensures n < 16
  {
    if '0' <= c <= '9' then c as int - '0' as int
    else if 'a' <= c <= 'f' then c as int - 'a' as int + 10
    else if 'A' <= c <= 'F' then c as int - 'A' as int + 10
    else 0
  }

  lemma DigitValueInverse(n: nat)
    requires n < 16
    ensures DigitValue(LowerDigit(n)) == n
    ensures DigitValue(UpperDigit(n)) == n
  {
  }

  /** `bin2hex`: two lower-case digits per byte, high nibble first. */
  function Bin2Hex(bytes: Bytes): (r: string)
    ensures |r| == 2 * |bytes|
    ensures forall i :: 0 <= i < |r| ==> IsLowerHexDigit(r[i])
  {
    if bytes == [] then []
    else [LowerDigit(bytes[0] / 16), LowerDigit(bytes[0] % 16)] + Bin2Hex(bytes[1..])
  }

  /** Characters `2k` and `2k+1` spell byte `k`, high nibble first. */
  lemma {:induction false} Bin2HexAt(bytes: Bytes, k: nat)
    requires k < |bytes|
    ensures Bin2Hex(bytes)[2 * k] == LowerDigit(bytes[k] / 16)
    ensures Bin2Hex(bytes)[2 * k + 1] == LowerDigit(bytes[k] % 16)
  {
    if k > 0 {
      Bin2HexAt(bytes[1..], k - 1);
    }
  }

  /** `hex2bin` on a string of even length: pairs of digits back to bytes. */
  function Hex2Bin(s: string): (bytes: Bytes)
    requires |s| % 2 == 0
    ensures |bytes| == |s| / 2
  {
    if s == [] then [] else [DigitValue(s[0]) * 16 + DigitValue(s[1])] + Hex2Bin(s[2..])
  }

  /** `hex2bin(bin2hex($b)) === $b`. */
  lemma {:induction false} Hex2BinBin2Hex(bytes: Bytes)
    ensures Hex2Bin(Bin2Hex(bytes)) == bytes
  {
    if bytes != [] {
      var b := bytes[0];
      DigitValueInverse(b / 16);
      DigitValueInverse(b % 16);
      var h := Bin2Hex(bytes);
      assert h[2..] == Bin2Hex(bytes[1..]);
      Hex2BinBin2Hex(bytes[1..]);
    }
  }

  /** Distinct byte strings have distinct hex spellings. */
  lemma Bin2HexInjective(a: Bytes, b: Bytes)
    requires Bin2Hex(a) == Bin2Hex(b)
    ensures a == b
  {
    Hex2BinBin2Hex(a);
    Hex2BinBin2Hex(b);
  }
}
