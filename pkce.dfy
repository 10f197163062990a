/** The PKCE helpers of RFC 7636: the code verifier (section 4.1), the S256
    code challenge (section 4.2) and the CSRF state value. Randomness and
    the SHA-256 digest come in as parameters. */
module PKCE {
  import opened Text
  import Hex
  import Base64

  /** The output of `random_bytes(48)`. */
  type Bytes48 = s: Bytes | |s| == 48 witness seq(48, _ => 0)

  /** A SHA-256 digest in raw form: 32 bytes. */
  type Digest = d: Bytes | |d| == 32 witness seq(32, _ => 0)

  /** The unreserved characters of RFC 3986 section 2.3, which RFC 7636
      section 4.1 allows in a code verifier. */
  predicate IsUnreserved(c: char) {
    'A' <= c <= 'Z' || 'a' <= c <= 'z' || '0' <= c <= '9' || c == '-' || c == '.' || c == '_' || c == '~'
  }

  /** The base64url alphabet of RFC 4648 section 5. */
  predicate IsBase64UrlChar(c: char) {
    'A' <= c <= 'Z' || 'a' <= c <= 'z' || '0' <= c <= '9' || c == '-' || c == '_'
  }

  /** `generateCodeVerifier`: `bin2hex` of 48 random bytes. */
  function GenerateCodeVerifier(entropy: Bytes48): (v: string)
    ensures |v| == 96
    ensures 43 <= |v| <= 128
    ensures forall i :: 0 <= i < |v| ==> Hex.IsLowerHexDigit(v[i]) && IsUnreserved(v[i])
  {
    Hex.Bin2Hex(entropy)
  }

  /** `generateState`: the same encoding of its own 48 random bytes. */
  function GenerateState(entropy: Bytes48): (s: string)
    ensures |s| == 96
    ensures forall i :: 0 <= i < |s| ==> Hex.IsLowerHexDigit(s[i]) && IsUnreserved(s[i])
  {
    Hex.Bin2Hex(entropy)
  }

  /** Distinct random inputs give distinct verifiers (and states). */
  lemma GenerateCodeVerifierInjective(a: Bytes48, b: Bytes48)
    requires GenerateCodeVerifier(a) == GenerateCodeVerifier(b)
    ensures a == b
  {
    Hex.Bin2HexInjective(a, b);
  }

  /** `strtr($s, '+/', '-_')` on one character. */
  function UrlSafeChar(c: char): (u: char)
    ensures Base64.IsAlphabetChar(c) ==> IsBase64UrlChar(u)
    ensures c == '=' <==> u == '='
  {
    if c == '+' then '-' else if c == '/' then '_' else c
  }

  /** `strtr($s, '+/', '-_')`. */
  function ToUrlAlphabet(s: string): (r: string)
    ensures |r| == |s|
    ensures forall i :: 0 <= i < |s| ==> r[i] == UrlSafeChar(s[i])
  {
    if s == [] then [] else [UrlSafeChar(s[0])] + ToUrlAlphabet(s[1..])
  }

  /** `rtrim($s, $c)` for a single character: drops every trailing `c`. */
  function TrimRight(s: string, c: char): (r: string)
    ensures |r| <= |s| && r == s[..|r|]
    ensures r != [] ==> r[|r| - 1] != c
    ensures forall i :: |r| <= i < |s| ==> s[i] == c
  {
    if s != [] && s[|s| - 1] == c then TrimRight(s[..|s| - 1], c) else s
  }

  /** When `s` is a prefix of length `n` that does not end in `c`, followed by
      nothing but `c`, trimming leaves exactly that prefix. */
  lemma {:induction false} TrimRightSuffix(s: string, c: char, n: nat)
    requires n <= |s|
    requires forall i :: n <= i < |s| ==> s[i] == c
    requires n > 0 ==> s[n - 1] != c
    ensures TrimRight(s, c) == s[..n]
    decreases |s|
  {
    if |s| > n {
      assert s[|s| - 1] == c;
      TrimRightSuffix(s[..|s| - 1], c, n);
      assert s[..|s| - 1][..n] == s[..n];
    } else {
      assert s[..n] == s;
    }
  }

  /** `base64UrlEncode`: standard base64, `+` and `/` replaced by `-` and
      `_`, trailing `=` removed. */
  function Base64UrlEncode(data: Bytes): (r: string)
    ensures |r| <= |Base64.Encode(data)|
    ensures r == ToUrlAlphabet(Base64.Encode(data))[..|r|]
    ensures r != [] ==> r[|r| - 1] != '='
  {
    TrimRight(ToUrlAlphabet(Base64.Encode(data)), '=')
  }

  /** The standard encoding is at least as long as its padding. */
  lemma PaddingFits(data: Bytes)
    ensures Base64.Padding(|data|) <= |Base64.Encode(data)|
    ensures Base64.Padding(|data|) > 0 ==> Base64.Padding(|data|) < |Base64.Encode(data)|
  {
    if |data| > 0 {
      assert (|data| + 2) / 3 >= 1;
    }
  }

  /** The base64url form is the standard encoding with its padding dropped
      and every other character translated: only base64url characters, never
      `+`, `/` or `=`. */
  lemma Base64UrlShape(data: Bytes)
    ensures var std, r := Base64.Encode(data), Base64UrlEncode(data);
      && |r| == |std| - Base64.Padding(|data|)
      && (forall i :: 0 <= i < |r| ==> r[i] == UrlSafeChar(std[i]))
      && (forall i :: 0 <= i < |r| ==> IsBase64UrlChar(r[i]) && r[i] != '+' && r[i] != '/' && r[i] != '=')
  {
    var std := Base64.Encode(data);
    var t := ToUrlAlphabet(std);
    PaddingFits(data);
    var n := |std| - Base64.Padding(|data|);
    Base64.EncodeShape(data);
    assert forall i :: n <= i < |t| ==> t[i] == '=';
    assert n > 0 ==> Base64.IsAlphabetChar(std[n - 1]);
    TrimRightSuffix(t, '=', n);
  }

  /** The inverse transform: translate back and re-pad to a multiple of four. */
  function FromBase64Url(s: string): (r: string)
  {
    ToStandardAlphabet(s) + Repeat('=', (4 - |s| % 4) % 4)
  }

  /** `str_repeat($c, $n)`. */
  function Repeat(c: char, n: nat): (r: string)
    ensures |r| == n && forall i :: 0 <= i < n ==> r[i] == c
  {
    if n == 0 then [] else [c] + Repeat(c, n - 1)
  }

  function StandardChar(c: char): char {
    if c == '-' then '+' else if c == '_' then '/' else c
  }

  function ToStandardAlphabet(s: string): (r: string)
    ensures |r| == |s|
    ensures forall i :: 0 <= i < |s| ==> r[i] == StandardChar(s[i])
  {
    if s == [] then [] else [StandardChar(s[0])] + ToStandardAlphabet(s[1..])
  }

  /** Re-padding a length `4k - p` with `p < 3` restores `p` characters. */
  lemma RepadLength(k: nat, p: nat)
    requires p < 3 && p <= 4 * k
    ensures (4 - (4 * k - p) % 4) % 4 == p
  {
    if p == 0 {
      assert (4 * k) % 4 == 0;
    } else {
      assert 4 * k - p == 4 * (k - 1) + (4 - p);
    }
  }

  /** Re-padding adds back exactly the dropped padding. */
  lemma RepadCount(data: Bytes)
    ensures (4 - |Base64UrlEncode(data)| % 4) % 4 == Base64.Padding(|data|)
  {
    Base64UrlShape(data);
    PaddingFits(data);
    var k := (|data| + 2) / 3;
    assert |Base64.Encode(data)| == 4 * k;
    RepadLength(k, Base64.Padding(|data|));
  }

  /** Undoing the base64url transform restores the standard encoding. */
  lemma FromBase64UrlEncode(data: Bytes)
    ensures FromBase64Url(Base64UrlEncode(data)) == Base64.Encode(data)
  {
    var std, r := Base64.Encode(data), Base64UrlEncode(data);
    Base64UrlShape(data);
    RepadCount(data);
    var back := FromBase64Url(r);
    assert |back| == |std|;
    Base64.EncodeShape(data);
    forall i | 0 <= i < |std| ensures back[i] == std[i] {
      if i < |r| {
        assert Base64.IsAlphabetChar(std[i]);
      }
    }
  }

  /** Distinct inputs have distinct base64url encodings. */
  lemma Base64UrlEncodeInjective(a: Bytes, b: Bytes)
    requires Base64UrlEncode(a) == Base64UrlEncode(b)
    ensures a == b
  {
    FromBase64UrlEncode(a);
    FromBase64UrlEncode(b);
    Base64.EncodeInjective(a, b);
  }

  /** `generateCodeChallenge` for the S256 method: base64url of the SHA-256
      digest of the verifier's bytes. A 32-byte digest encodes to 43
      characters (44 with one `=` of padding, which is dropped). */
  function GenerateCodeChallenge(verifier: string, sha256: Bytes -> Digest): (c: string)
    ensures |c| == 43
    ensures forall i :: 0 <= i < |c| ==> IsBase64UrlChar(c[i])
  {
    Base64UrlShape(sha256(Utf8Encode(verifier)));
    Base64UrlEncode(sha256(Utf8Encode(verifier)))
  }

  /** Two verifiers have the same challenge exactly when their digests agree:
      the encoding step loses nothing. */
  lemma SameChallengeIffSameDigest(v1: string, v2: string, sha256: Bytes -> Digest)
    ensures GenerateCodeChallenge(v1, sha256) == GenerateCodeChallenge(v2, sha256)
            <==> sha256(Utf8Encode(v1)) == sha256(Utf8Encode(v2))
  {
    if GenerateCodeChallenge(v1, sha256) == GenerateCodeChallenge(v2, sha256) {
      Base64UrlEncodeInjective(sha256(Utf8Encode(v1)), sha256(Utf8Encode(v2)));
    }
  }
}
