/** PHP's `urlencode` and `http_build_query` (RFC 1738 style, the PHP
    default): over the UTF-8 bytes of a string, ASCII letters, digits and
    `-_.` stay, a space becomes `+`, every other byte becomes `%XX` with
    upper-case hex. A decoder and a query splitter are the partners that
    show nothing is lost. */
module Query {
  import opened Text
  import opened Wrappers
  import Hex

  predicate IsPlainByte(b: Byte) {
    ('A' as int <= b <= 'Z' as int) || ('a' as int <= b <= 'z' as int) || ('0' as int <= b <= '9' as int)
    || b == '-' as int || b == '_' as int || b == '.' as int
  }

  /** The characters an encoded value can contain. */
  predicate IsEncodedChar(c: char) {
    'A' <= c <= 'Z' || 'a' <= c <= 'z' || '0' <= c <= '9' || c == '-' || c == '_' || c == '.' || c == '+' || c == '%'
  }

  function EncodeByte(b: Byte): (r: string)
    ensures 1 <= |r| <= 3
    ensures forall i :: 0 <= i < |r| ==> IsEncodedChar(r[i])
  {
    if IsPlainByte(b) then [b as char]
    else if b == 0x20 then "+"
    else ['%', Hex.UpperDigit(b / 16), Hex.UpperDigit(b % 16)]
  }

  function EncodeBytes(bs: Bytes): (r: string)
    ensures forall i :: 0 <= i < |r| ==> IsEncodedChar(r[i])
  {
    if bs == [] then "" else EncodeByte(bs[0]) + EncodeBytes(bs[1..])
  }

  /** `urlencode`. */
  function UrlEncode(s: string): (r: string)
    ensures forall i :: 0 <= i < |r| ==> IsEncodedChar(r[i]) && r[i] != '&' && r[i] != '='
  {
    EncodeBytes(Utf8Encode(s))
  }

  lemma {:induction false} EncodeBytesAppend(a: Bytes, b: Bytes)
    ensures EncodeBytes(a + b) == EncodeBytes(a) + EncodeBytes(b)
  {
    if a == [] {
      assert a + b == b;
    } else {
      assert (a + b)[1..] == a[1..] + b;
      EncodeBytesAppend(a[1..], b);
    }
  }

  lemma UrlEncodeAppend(a: string, b: string)
    ensures UrlEncode(a + b) == UrlEncode(a) + UrlEncode(b)
  {
    Utf8EncodeAppend(a, b);
    EncodeBytesAppend(Utf8Encode(a), Utf8Encode(b));
  }

  predicate IsPlainChar(c: char) {
    'A' <= c <= 'Z' || 'a' <= c <= 'z' || '0' <= c <= '9' || c == '-' || c == '_' || c == '.'
  }

  /** Every character is a letter, a digit or one of `-_.`. */
  predicate IsPlain(s: string) {
    s == [] || (IsPlainChar(s[0]) && IsPlain(s[1..]))
  }

  lemma {:induction false} IsPlainAt(s: string)
    requires forall i :: 0 <= i < |s| ==> IsPlainChar(s[i])
    ensures IsPlain(s)
  {
    if s != [] {
      IsPlainAt(s[1..]);
    }
  }

  /** A string of letters, digits and `-_.` is its own encoding. */
  lemma {:induction false} UrlEncodePlain(s: string)
    requires IsPlain(s)
    ensures UrlEncode(s) == s
  {
    if s != [] {
      assert s == [s[0]] + s[1..];
      UrlEncodeAppend([s[0]], s[1..]);
      UrlEncodePlain(s[1..]);
    }
  }

  /** `urldecode` read back to bytes: `+` is a space and `%XX` a byte. */
  function DecodeBytes(s: string): Bytes
  {
    if s == [] then []
    else if s[0] == '%' && |s| >= 3 then [Hex.DigitValue(s[1]) * 16 + Hex.DigitValue(s[2])] + DecodeBytes(s[3..])
    else if s[0] == '+' then [0x20] + DecodeBytes(s[1..])
    else [if s[0] as int < 256 then s[0] as int else 0] + DecodeBytes(s[1..])
  }

  lemma DecodeByteStep(b: Byte, rest: string)
    ensures DecodeBytes(EncodeByte(b) + rest) == [b] + DecodeBytes(rest)
  {
    var e := EncodeByte(b);
    if IsPlainByte(b) {
      assert (e + rest)[1..] == rest;
    } else if b == 0x20 {
      assert (e + rest)[1..] == rest;
    } else {
      Hex.DigitValueInverse(b / 16);
      Hex.DigitValueInverse(b % 16);
      assert (e + rest)[3..] == rest;
    }
  }

  /** Decoding recovers the bytes that were encoded. */
  lemma {:induction false} DecodeEncodeBytes(bs: Bytes)
    ensures DecodeBytes(EncodeBytes(bs)) == bs
  {
    if bs != [] {
      DecodeByteStep(bs[0], EncodeBytes(bs[1..]));
      DecodeEncodeBytes(bs[1..]);
    }
  }

  /** Decoding a value of the query gives the UTF-8 bytes of the original. */
  lemma UrlDecodeEncode(s: string)
    ensures DecodeBytes(UrlEncode(s)) == Utf8Encode(s)
  {
    DecodeEncodeBytes(Utf8Encode(s));
  }

  /** One `key=value` pair of the query. `http_build_query` encodes keys as
      well; every key the client passes is a fixed name of letters and `_`,
      which encoding leaves as it is, so the key is written directly. */
  function Field(key: string, value: string): string {
    key + "=" + UrlEncode(value)
  }

  /** A key without the separators `&` and `=`. */
  predicate IsSafeKey(key: string) {
    forall j :: 0 <= j < |key| ==> key[j] != '&' && key[j] != '='
  }

  /** `http_build_query` on string values: the pairs in order, joined by `&`. */
  function BuildQuery(params: seq<(string, string)>): (q: string)
    ensures q == "" <==> params == []
    ensures params != [] ==> StartsWith(q, Field(params[0].0, params[0].1))
  {
    if params == [] then ""
    else if |params| == 1 then Field(params[0].0, params[0].1)
    else Field(params[0].0, params[0].1) + "&" + BuildQuery(params[1..])
  }

  /** The position of the first `c` in `s`, or `|s|` when there is none. */
  function IndexOf(s: string, c: char): (k: nat)
    ensures k <= |s|
    ensures k < |s| ==> s[k] == c
    ensures forall i :: 0 <= i < k ==> s[i] != c
  {
    if s == [] then 0 else if s[0] == c then 0 else 1 + IndexOf(s[1..], c)
  }

  /** Cuts a field at its first `=` into its encoded key and value; a field
      without `=` is not a `key=value` pair. */
  function SplitField(f: string): (r: Option<(string, string)>)
    ensures r.Some? <==> '=' in f
    ensures r.Some? ==> f == r.value.0 + "=" + r.value.1 && '=' !in r.value.0
  {
    var j := IndexOf(f, '=');
    assert j < |f| <==> '=' in f;
    if j < |f| then
      assert f == f[..j] + "=" + f[j + 1..];
      Some((f[..j], f[j + 1..]))
    else None
  }

  /** Reads a query back into its fields, still encoded. The empty query has
      no fields; otherwise every piece between `&`s must be a `key=value`
      pair, so a trailing `&` or a bare key is rejected. */
  function SplitQuery(q: string): Option<seq<(string, string)>>
  {
    if q == [] then Some([]) else SplitFields(q)
  }

  /** The fields of a non-empty query, cut at each `&`. */
  function SplitFields(q: string): Option<seq<(string, string)>>
    decreases |q|
  {
    var i := IndexOf(q, '&');
    match SplitField(q[..i])
    case None => None
    case Some(f) =>
      if i == |q| then Some([f])
      else
        match SplitFields(q[i + 1..])
        case None => None
        case Some(rest) => Some([f] + rest)
  }

  /** The query whose fields are `pairs`, each written `key=value`, joined by
      `&`. */
  function JoinPairs(pairs: seq<(string, string)>): string
  {
    if pairs == [] then ""
    else if |pairs| == 1 then pairs[0].0 + "=" + pairs[0].1
    else pairs[0].0 + "=" + pairs[0].1 + "&" + JoinPairs(pairs[1..])
  }

  /** The fields as they appear in the query: each value encoded. */
  function EncodedPairs(params: seq<(string, string)>): (r: seq<(string, string)>)
    ensures |r| == |params|
    ensures forall i :: 0 <= i < |params| ==> r[i] == (params[i].0, UrlEncode(params[i].1))
  {
    if params == [] then [] else [(params[0].0, UrlEncode(params[0].1))] + EncodedPairs(params[1..])
  }

  lemma SplitOneField(key: string, value: string)
    requires IsSafeKey(key)
    ensures SplitField(Field(key, value)) == Some((key, UrlEncode(value)))
  {
    var k, v := key, UrlEncode(value);
    var f := Field(key, value);
    assert f == k + "=" + v;
    assert IndexOf(f, '=') == |k| by {
      assert f[|k|] == '=';
      assert forall i :: 0 <= i < |k| ==> f[i] == k[i];
    }
    assert f[..|k|] == k;
    assert f[|k| + 1..] == v;
  }

  /** Whatever a non-empty query splits into, joining it again gives that
      query back. */
  lemma {:induction false} SplitFieldsJoin(q: string)
    requires SplitFields(q).Some?
    ensures SplitFields(q).value != [] && JoinPairs(SplitFields(q).value) == q
    decreases |q|
  {
    var i := IndexOf(q, '&');
    var piece := q[..i];
    assert '&' !in piece;
    if i == |q| {
      assert piece == q;
      SplitFieldsLast(q);
    } else {
      var tail := q[i + 1..];
      assert q == piece + "&" + tail;
      SplitFieldsCons(piece, tail);
      SplitFieldsJoin(tail);
      var f := SplitField(piece).value;
      var rest := SplitFields(tail).value;
      assert ([f] + rest)[1..] == rest;
      assert JoinPairs([f] + rest) == f.0 + "=" + f.1 + "&" + JoinPairs(rest);
    }
  }

  /** Splitting loses nothing: a query is determined by its fields. */
  lemma SplitQueryJoin(q: string)
    requires SplitQuery(q).Some?
    ensures JoinPairs(SplitQuery(q).value) == q
  {
    if q != [] {
      SplitFieldsJoin(q);
    }
  }

  lemma SplitQueryInjective(q1: string, q2: string)
    requires SplitQuery(q1).Some? && SplitQuery(q1) == SplitQuery(q2)
    ensures q1 == q2
  {
    SplitQueryJoin(q1);
    SplitQueryJoin(q2);
  }

  /** A piece without `&` is the last field of a query. */
  lemma SplitFieldsLast(f: string)
    requires '&' !in f
    ensures SplitFields(f) == if SplitField(f).Some? then Some([SplitField(f).value]) else None
  {
    assert IndexOf(f, '&') == |f|;
    assert f[..|f|] == f;
  }

  /** A piece without `&` followed by `&` is the first field of a query. */
  lemma SplitFieldsCons(f: string, rest: string)
    requires '&' !in f
    ensures SplitFields(f + "&" + rest) ==
              if SplitField(f).None? || SplitFields(rest).None? then None
              else Some([SplitField(f).value] + SplitFields(rest).value)
  {
    var q := f + "&" + rest;
    assert IndexOf(q, '&') == |f| by {
      assert q[|f|] == '&';
      assert forall i :: 0 <= i < |f| ==> q[i] == f[i];
    }
    assert q[..|f|] == f;
    assert q[|f| + 1..] == rest;
  }

  lemma FieldHasNoAmpersand(key: string, value: string)
    requires IsSafeKey(key)
    ensures '&' !in Field(key, value)
  {
    var f := Field(key, value);
    assert f == key + "=" + UrlEncode(value);
    forall i | 0 <= i < |f|
      ensures f[i] != '&'
    {
      if i > |key| {
        assert f[i] == UrlEncode(value)[i - |key| - 1];
      }
    }
  }

  /** Splitting the built query gives back every field, in order: no key or
      value can contain the `&` or `=` that separate them. */
  lemma {:induction false} SplitBuildQuery(params: seq<(string, string)>)
    requires forall i :: 0 <= i < |params| ==> IsSafeKey(params[i].0)
    ensures SplitQuery(BuildQuery(params)) == Some(EncodedPairs(params))
  {
    if params != [] {
      var f := Field(params[0].0, params[0].1);
      SplitOneField(params[0].0, params[0].1);
      FieldHasNoAmpersand(params[0].0, params[0].1);
      var head := [(params[0].0, UrlEncode(params[0].1))];
      assert EncodedPairs(params) == head + EncodedPairs(params[1..]);
      assert f[|params[0].0|] == '=';
      if |params| == 1 {
        SplitFieldsLast(f);
        assert EncodedPairs(params) == head;
        assert SplitQuery(BuildQuery(params)) == SplitFields(f);
      } else {
        SplitFieldsCons(f, BuildQuery(params[1..]));
        SplitBuildQuery(params[1..]);
      }
    }
  }

  /** `http_build_query` is the `&`-join of the encoded pairs. */
  lemma BuildQueryJoin(params: seq<(string, string)>)
    requires forall i :: 0 <= i < |params| ==> IsSafeKey(params[i].0)
    ensures BuildQuery(params) == JoinPairs(EncodedPairs(params))
  {
    SplitBuildQuery(params);
    SplitQueryJoin(BuildQuery(params));
  }

  /** A trailing `&` and a field without `=` are not read as fields. */
  lemma StrictSplit()
    ensures SplitQuery("a=b&").None? && SplitQuery("k").None?
    ensures SplitQuery("a=b") == Some([("a", "b")]) && SplitQuery("k=") == Some([("k", "")])
  {
    var ab := "a=b";
    assert IndexOf(ab, '&') == 3 && ab[..3] == ab;
    assert IndexOf(ab, '=') == 1 && ab[..1] == "a" && ab[2..] == "b";
    var k := "k=";
    assert IndexOf(k, '&') == 2 && k[..2] == k;
    assert IndexOf(k, '=') == 1 && k[..1] == "k" && k[2..] == "";
  }

  // ---------------------------------------------------------------------
  // Worked examples

  /** The separators of a URL are escaped; a space becomes `+`. */
  lemma EscapedCharacters()
    ensures UrlEncode(":") == "%3A" && UrlEncode("/") == "%2F" && UrlEncode(" ") == "+"
  {
  }

  lemma PlainWord(s: string)
    requires forall i :: 0 <= i < |s| ==> IsPlainChar(s[i])
    ensures UrlEncode(s) == s
  {
    IsPlainAt(s);
    UrlEncodePlain(s);
  }

  /** A proof step of `RedirectUriExample`: the literals cut at the
      characters that need escaping. */
  lemma RedirectUriPieces(uri: string, encoded: string)
    requires uri == "https://app/cb" && encoded == "https%3A%2F%2Fapp%2Fcb"
    ensures uri == "https" + ":" + "/" + "/" + "app" + "/" + "cb"
    ensures encoded == "https" + "%3A" + "%2F" + "%2F" + "app" + "%2F" + "cb"
  {
  }

  /** A redirect URI as it appears in the authorization query. */
  lemma RedirectUriExample(uri: string, encoded: string)
    requires uri == "https://app/cb" && encoded == "https%3A%2F%2Fapp%2Fcb"
    ensures UrlEncode(uri) == encoded
  {
    var https, app, cb, colon, slash := "https", "app", "cb", ":", "/";
    assert forall i :: 0 <= i < |https| ==> IsPlainChar(https[i]);
    assert forall i :: 0 <= i < |app| ==> IsPlainChar(app[i]);
    assert forall i :: 0 <= i < |cb| ==> IsPlainChar(cb[i]);
    PlainWord(https);
    PlainWord(app);
    PlainWord(cb);
    EscapedCharacters();
    RedirectUriPieces(uri, encoded);
    UrlEncodeAppend(https, colon);
    UrlEncodeAppend(https + colon, slash);
    UrlEncodeAppend(https + colon + slash, slash);
    UrlEncodeAppend(https + colon + slash + slash, app);
    UrlEncodeAppend(https + colon + slash + slash + app, slash);
    UrlEncodeAppend(https + colon + slash + slash + app + slash, cb);
  }
}
