/** PHP's `base64_encode`: the standard alphabet of RFC 4648 section 4,
    padded with `=` to a multiple of four characters, and a decoder that
    inverts it. */
module Base64 {
  import opened Text

  predicate IsAlphabetChar(c: char) {
    'A' <= c <= 'Z' || 'a' <= c <= 'z' || '0' <= c <= '9' || c == '+' || c == '/'
  }

  /** The character for a 6-bit value. */
  function Char(n: nat): (c: char)
    requires n < 64
    ensures IsAlphabetChar(c)
  {
    if n < 26 then ('A' as int + n) as char
    else if n < 52 then ('a' as int + n - 26) as char
    else if n < 62 then ('0' as int + n - 52) as char
    else if n == 62 then '+'
    else '/'
  }

  /** The 6-bit value of an alphabet character (0 for any other character). */
  function Index(c: char): (n: nat)
    ensures n < 64
  {
    if 'A' <= c <= 'Z' then c as int - 'A' as int
    else if 'a' <= c <= 'z' then c as int - 'a' as int + 26
    else if '0' <= c <= '9' then c as int - '0' as int + 52
    else if c == '+' then 62
    else if c == '/' then 63
    else 0
  }

  lemma IndexChar(n: nat)
    requires n < 64
    ensures Index(Char(n)) == n
  {
  }

  /** The number of `=` characters appended for an input of `n` bytes. */
  function Padding(n: nat): (p: nat)
    ensures p < 3
  {
    if n % 3 == 0 then 0 else 3 - n % 3
  }

  lemma PaddingStep(n: nat)
    requires n >= 3
    ensures Padding(n) == Padding(n - 3)
  {
    assert n % 3 == (n - 3) % 3;
  }

  /** `base64_encode`: four characters for each group of three bytes; a final
      group of one or two bytes is padded with `==` or `=`. */
  function Encode(b: Bytes): (r: string)
    ensures |r| == 4 * ((|b| + 2) / 3)
    decreases |b|
  {
    if |b| == 0 then ""
    else if |b| == 1 then [Char(b[0] / 4), Char((b[0] % 4) * 16)] + "=="
    else if |b| == 2 then [Char(b[0] / 4), Char((b[0] % 4) * 16 + b[1] / 16), Char((b[1] % 16) * 4)] + "="
    else Group(b[0], b[1], b[2]) + Encode(b[3..])
  }

  /** Reads groups of four characters back into bytes; `=` in the third or
      fourth place ends the input after one or two bytes. */
  function Decode(s: string): (b: Bytes)
    decreases |s|
  {
    if |s| < 4 then []
    else
      var n0, n1, n2, n3 := Index(s[0]), Index(s[1]), Index(s[2]), Index(s[3]);
      var b0, b1, b2 := n0 * 4 + n1 / 16, (n1 % 16) * 16 + n2 / 4, (n2 % 4) * 64 + n3;
      if s[2] == '=' then [b0]
      else if s[3] == '=' then [b0, b1]
      else [b0, b1, b2] + Decode(s[4..])
  }

  /** Splitting a byte into 6-bit pieces and reassembling them is exact. */
  lemma SplitBytes(b0: Byte, b1: Byte, b2: Byte)
    ensures (b0 / 4) * 4 + ((b0 % 4) * 16 + b1 / 16) / 16 == b0
    ensures (((b0 % 4) * 16 + b1 / 16) % 16) * 16 + ((b1 % 16) * 4 + b2 / 64) / 4 == b1
    ensures (((b1 % 16) * 4 + b2 / 64) % 4) * 64 + b2 % 64 == b2
  {
  }

  /** The group of four characters `Encode` writes for three bytes. */
  function Group(b0: Byte, b1: Byte, b2: Byte): (g: string)
    ensures |g| == 4 && forall i :: 0 <= i < 4 ==> IsAlphabetChar(g[i])
  {
    [Char(b0 / 4), Char((b0 % 4) * 16 + b1 / 16), Char((b1 % 16) * 4 + b2 / 64), Char(b2 % 64)]
  }

  lemma EncodeOneByte(b: Bytes)
    requires |b| == 1
    ensures Encode(b) == [Char(b[0] / 4), Char((b[0] % 4) * 16), '=', '=']
  {
  }

  lemma EncodeTwoBytes(b: Bytes)
    requires |b| == 2
    ensures Encode(b) == [Char(b[0] / 4), Char((b[0] % 4) * 16 + b[1] / 16), Char((b[1] % 16) * 4), '=']
  {
  }

  lemma EncodeThreeBytes(b: Bytes)
    requires |b| >= 3
    ensures Encode(b) == Group(b[0], b[1], b[2]) + Encode(b[3..])
  {
  }

  /** A final group for one byte, `xx==`, decodes to that byte. */
  lemma DecodeOneByte(b0: Byte)
    ensures Decode([Char(b0 / 4), Char((b0 % 4) * 16), '=', '=']) == [b0]
  {
    IndexChar(b0 / 4);
    IndexChar((b0 % 4) * 16);
    SplitBytes(b0, 0, 0);
  }

  /** A final group for two bytes, `xxx=`, decodes to those bytes. */
  lemma DecodeTwoBytes(b0: Byte, b1: Byte)
    ensures Decode([Char(b0 / 4), Char((b0 % 4) * 16 + b1 / 16), Char((b1 % 16) * 4), '=']) == [b0, b1]
  {
    IndexChar(b0 / 4);
    IndexChar((b0 % 4) * 16 + b1 / 16);
    IndexChar((b1 % 16) * 4);
    SplitBytes(b0, b1, 0);
  }

  /** A full group decodes to its three bytes, followed by what the rest decodes to. */
  lemma DecodeGroup(b0: Byte, b1: Byte, b2: Byte, rest: string)
    ensures Decode(Group(b0, b1, b2) + rest) == [b0, b1, b2] + Decode(rest)
  {
    var g := Group(b0, b1, b2);
    IndexChar(b0 / 4);
    IndexChar((b0 % 4) * 16 + b1 / 16);
    IndexChar((b1 % 16) * 4 + b2 / 64);
    IndexChar(b2 % 64);
    SplitBytes(b0, b1, b2);
    assert (g + rest)[4..] == rest;
  }

  /** Decoding the encoding gives back the input: `base64_encode` loses
      nothing, so distinct inputs have distinct encodings. */
  lemma {:induction false} DecodeEncode(b: Bytes)
    ensures Decode(Encode(b)) == b
    decreases |b|
  {
    if |b| == 1 {
      EncodeOneByte(b);
      DecodeOneByte(b[0]);
    } else if |b| == 2 {
      EncodeTwoBytes(b);
      DecodeTwoBytes(b[0], b[1]);
    } else if |b| >= 3 {
      EncodeThreeBytes(b);
      DecodeGroup(b[0], b[1], b[2], Encode(b[3..]));
      DecodeEncode(b[3..]);
      assert b == [b[0], b[1], b[2]] + b[3..];
    }
  }

  /** The encoding is alphabet characters followed by exactly
      `Padding(|b|)` padding characters. */
  lemma {:induction false} EncodeShape(b: Bytes)
    ensures var r := Encode(b);
      forall i :: 0 <= i < |r| ==>
        (r[i] == '=' <==> |r| - Padding(|b|) <= i) &&
        (IsAlphabetChar(r[i]) <==> i < |r| - Padding(|b|))
    decreases |b|
  {
    if |b| == 1 {
      EncodeOneByte(b);
    } else if |b| == 2 {
      EncodeTwoBytes(b);
    } else if |b| >= 3 {
      EncodeThreeBytes(b);
      EncodeShape(b[3..]);
      var r, g, rest := Encode(b), Group(b[0], b[1], b[2]), Encode(b[3..]);
      PaddingStep(|b|);
      forall i | 0 <= i < |r|
        ensures (r[i] == '=' <==> |r| - Padding(|b|) <= i) && (IsAlphabetChar(r[i]) <==> i < |r| - Padding(|b|))
      {
        if i >= 4 {
          assert r[i] == rest[i - 4];
        } else {
          assert r[i] == g[i];
        }
      }
    }
  }

  lemma EncodeInjective(a: Bytes, b: Bytes)
    requires Encode(a) == Encode(b)
    ensures a == b
  {
    DecodeEncode(a);
    DecodeEncode(b);
  }
}
