/** The base64 encoding of RFC 4648, section 4 (standard alphabet, with
    padding): the encoding the backend applies to every generated image
    before it embeds it in a data URL (RFC 2397, section 3). */
module Base64 {
  import opened Common

  /** A 6-bit value: what one base64 character carries. */
  type Sextet = v: int | 0 <= v < 64

  /** The 64 characters of the alphabet in Table 1 of RFC 4648, section 4. */
  predicate IsAlphabetChar(c: char) {
    ('A' <= c <= 'Z') || ('a' <= c <= 'z') || ('0' <= c <= '9') || c == '+' || c == '/'
  }

  /** The character that encodes `v`. */
  function CharOf(v: Sextet): (c: char)
    ensures IsAlphabetChar(c)
  {
    if v < 26 then ('A' as int + v) as char
    else if v < 52 then ('a' as int + (v - 26)) as char
    else if v < 62 then ('0' as int + (v - 52)) as char
    else if v == 62 then '+'
    else '/'
  }

  /** The value an alphabet character stands for. */
  function ValueOf(c: char): Sextet
    requires IsAlphabetChar(c)
  {
    if 'A' <= c <= 'Z' then c as int - 'A' as int
    else if 'a' <= c <= 'z' then c as int - 'a' as int + 26
    else if '0' <= c <= '9' then c as int - '0' as int + 52
    else if c == '+' then 62
    else 63
  }

  lemma ValueOfCharOf(v: Sextet)
    ensures ValueOf(CharOf(v)) == v
  {
  }

  lemma CharOfValueOf(c: char)
    requires IsAlphabetChar(c)
    ensures CharOf(ValueOf(c)) == c
  {
  }

  // The sextets of a three-byte group, high bits first.
  function S0(b0: byte): Sextet { b0 as int / 4 }
  function S1(b0: byte, b1: byte): Sextet { (b0 as int % 4) * 16 + b1 as int / 16 }
  function S2(b1: byte, b2: byte): Sextet { (b1 as int % 16) * 4 + b2 as int / 64 }
  function S3(b2: byte): Sextet { b2 as int % 64 }

  // The bytes of a group of sextets.
  function B0(v0: Sextet, v1: Sextet): byte { (v0 * 4 + v1 / 16) as byte }
  function B1(v1: Sextet, v2: Sextet): byte { ((v1 % 16) * 16 + v2 / 4) as byte }
  function B2(v2: Sextet, v3: Sextet): byte { ((v2 % 4) * 64 + v3) as byte }

  /** Three bytes as four characters. */
  function EncodeGroup(b0: byte, b1: byte, b2: byte): string {
    [CharOf(S0(b0)), CharOf(S1(b0, b1)), CharOf(S2(b1, b2)), CharOf(S3(b2))]
  }

  /** base64.b64encode: each group of three bytes becomes four characters;
      a final group of one or two bytes is padded with '='. */
  function Encode(s: Bytes): (r: string)
    ensures |r| == 4 * ((|s| + 2) / 3)
    ensures forall k :: 0 <= k < |r| ==> IsAlphabetChar(r[k]) || r[k] == '='
  {
    if |s| == 0 then ""
    else if |s| == 1 then [CharOf(S0(s[0])), CharOf(S1(s[0], 0)), '=', '=']
    else if |s| == 2 then [CharOf(S0(s[0])), CharOf(S1(s[0], s[1])), CharOf(S2(s[1], 0)), '=']
    else EncodeGroup(s[0], s[1], s[2]) + Encode(s[3..])
  }

  /** Four alphabet characters as three bytes. */
  function DecodeGroup(q: string): (r: Bytes)
    requires |q| == 4 && forall k :: 0 <= k < 4 ==> IsAlphabetChar(q[k])
    ensures |r| == 3
  {
    var v0, v1, v2, v3 := ValueOf(q[0]), ValueOf(q[1]), ValueOf(q[2]), ValueOf(q[3]);
    [B0(v0, v1), B1(v1, v2), B2(v2, v3)]
  }

  /** The last quantum: four characters, or a padded one- or two-byte group
      whose unused bits are zero (the canonical encoding of RFC 4648, section 3.5). */
  function DecodeLast(q: string): (r: Option<Bytes>)
    requires |q| == 4
    ensures r.Some? ==> 1 <= |r.value| <= 3
  {
    if forall k :: 0 <= k < 4 ==> IsAlphabetChar(q[k]) then Some(DecodeGroup(q))
    else if IsAlphabetChar(q[0]) && IsAlphabetChar(q[1]) && q[2] == '=' && q[3] == '='
      && ValueOf(q[1]) % 16 == 0 then
      Some([B0(ValueOf(q[0]), ValueOf(q[1]))])
    else if IsAlphabetChar(q[0]) && IsAlphabetChar(q[1]) && IsAlphabetChar(q[2]) && q[3] == '='
      && ValueOf(q[2]) % 4 == 0 then
      Some([B0(ValueOf(q[0]), ValueOf(q[1])), B1(ValueOf(q[1]), ValueOf(q[2]))])
    else None
  }

  /** Strict decoding: the inverse of Encode on canonical base64 text;
      None for anything else (wrong length, foreign characters, padding
      before the end, non-zero padding bits). */
  function Decode(t: string): (r: Option<Bytes>)
    decreases |t|
  {
    if |t| == 0 then Some([])
    else if |t| < 4 then None
    else if |t| == 4 then DecodeLast(t)
    else if forall k :: 0 <= k < 4 ==> IsAlphabetChar(t[k]) then
      match Decode(t[4..])
      case None => None
      case Some(rest) => Some(DecodeGroup(t[..4]) + rest)
    else None
  }

  // Bytes survive a trip through their sextets, and canonical sextets
  // survive a trip through their bytes.
  lemma BytesThroughSextets(b0: byte, b1: byte, b2: byte)
    ensures B0(S0(b0), S1(b0, b1)) == b0
    ensures B1(S1(b0, b1), S2(b1, b2)) == b1
    ensures B2(S2(b1, b2), S3(b2)) == b2
  {
  }

  lemma SextetsThroughBytes(v0: Sextet, v1: Sextet, v2: Sextet, v3: Sextet)
    ensures S0(B0(v0, v1)) == v0
    ensures S1(B0(v0, v1), B1(v1, v2)) == v1
    ensures S2(B1(v1, v2), B2(v2, v3)) == v2
    ensures S3(B2(v2, v3)) == v3
  {
  }

  lemma DecodeGroupOfEncodeGroup(b0: byte, b1: byte, b2: byte)
    ensures DecodeGroup(EncodeGroup(b0, b1, b2)) == [b0, b1, b2]
  {
    var g := EncodeGroup(b0, b1, b2);
    ValueOfCharOf(S0(b0));
    ValueOfCharOf(S1(b0, b1));
    ValueOfCharOf(S2(b1, b2));
    ValueOfCharOf(S3(b2));
    BytesThroughSextets(b0, b1, b2);
  }

  lemma DecodeFirstGroup(s: Bytes)
    requires |s| >= 3
    ensures DecodeGroup(EncodeGroup(s[0], s[1], s[2])) == s[..3]
  {
    DecodeGroupOfEncodeGroup(s[0], s[1], s[2]);
  }

  lemma EncodeGroupOfDecodeGroup(q: string)
    requires |q| == 4 && forall k :: 0 <= k < 4 ==> IsAlphabetChar(q[k])
    ensures var r := DecodeGroup(q); EncodeGroup(r[0], r[1], r[2]) == q
  {
    CharOfValueOf(q[0]); CharOfValueOf(q[1]); CharOfValueOf(q[2]); CharOfValueOf(q[3]);
    SextetsThroughBytes(ValueOf(q[0]), ValueOf(q[1]), ValueOf(q[2]), ValueOf(q[3]));
  }

  /** A quantum of four alphabet characters in front of more text. */
  lemma DecodeCons(q: string, rest: string)
    requires |q| == 4 && forall k :: 0 <= k < 4 ==> IsAlphabetChar(q[k])
    requires |rest| > 0
    ensures Decode(q + rest) == match Decode(rest)
      case None => None
      case Some(r) => Some(DecodeGroup(q) + r)
  {
    var t := q + rest;
    assert t[..4] == q && t[4..] == rest;
    assert forall k :: 0 <= k < 4 ==> t[k] == q[k];
  }

  /** What padding leaves unused is zero. */
  lemma PaddingBitsZero(b0: byte, b1: byte)
    ensures S1(b0, 0) % 16 == 0 && S2(b1, 0) % 4 == 0
  {
    var x, y := b0 as int % 4, b1 as int % 16;
    assert S1(b0, 0) == x * 16 && S2(b1, 0) == y * 4;
    assert x * 16 == 16 * x && y * 4 == 4 * y;
  }

  lemma DecodeOneByte(b0: byte)
    ensures DecodeLast([CharOf(S0(b0)), CharOf(S1(b0, 0)), '=', '=']) == Some([b0])
  {
  }

  lemma DecodeTwoBytes(b0: byte, b1: byte)
    ensures DecodeLast([CharOf(S0(b0)), CharOf(S1(b0, b1)), CharOf(S2(b1, 0)), '=']) == Some([b0, b1])
  {
    var q := [CharOf(S0(b0)), CharOf(S1(b0, b1)), CharOf(S2(b1, 0)), '='];
    assert !IsAlphabetChar(q[3]);
    PaddingBitsZero(b0, b1);
    ValueOfCharOf(S0(b0));
    ValueOfCharOf(S1(b0, b1));
    ValueOfCharOf(S2(b1, 0));
    BytesThroughSextets(b0, b1, 0);
  }

  lemma EncodeOneDisplay(b0: byte)
    ensures Encode([b0]) == [CharOf(S0(b0)), CharOf(S1(b0, 0)), '=', '=']
  {
  }

  lemma EncodeTwoDisplay(b0: byte, b1: byte)
    ensures Encode([b0, b1]) == [CharOf(S0(b0)), CharOf(S1(b0, b1)), CharOf(S2(b1, 0)), '=']
  {
  }

  lemma EncodeGroupAlphabet(b0: byte, b1: byte, b2: byte)
    ensures var g := EncodeGroup(b0, b1, b2); forall k :: 0 <= k < 4 ==> IsAlphabetChar(g[k])
  {
  }

  /** One decoded group in front of the decoded rest. */
  lemma DecodeEncodeLong(s: Bytes, g: string, rest: string)
    requires |s| >= 3 && |g| == 4 && (forall k :: 0 <= k < 4 ==> IsAlphabetChar(g[k]))
    requires DecodeGroup(g) == s[..3] && Decode(rest) == Some(s[3..])
    ensures Decode(g + rest) == Some(s)
  {
    if |rest| == 0 {
      assert g + rest == g;
      assert s[..3] == s;
    } else {
      DecodeCons(g, rest);
      assert s[..3] + s[3..] == s;
    }
  }

  /** Decoding an encoding gives back the bytes. */
  lemma {:induction false} DecodeEncode(s: Bytes)
    ensures Decode(Encode(s)) == Some(s)
  {
    if |s| == 1 {
      EncodeOneDisplay(s[0]);
      DecodeOneByte(s[0]);
      assert [s[0]] == s;
    } else if |s| == 2 {
      EncodeTwoDisplay(s[0], s[1]);
      DecodeTwoBytes(s[0], s[1]);
      assert [s[0], s[1]] == s;
    } else if |s| >= 3 {
      DecodeEncode(s[3..]);
      EncodeGroupAlphabet(s[0], s[1], s[2]);
      DecodeFirstGroup(s);
      DecodeEncodeLong(s, EncodeGroup(s[0], s[1], s[2]), Encode(s[3..]));
    }
  }

  lemma OneByteSextets(v0: Sextet, v1: Sextet)
    requires v1 % 16 == 0
    ensures S0(B0(v0, v1)) == v0 && S1(B0(v0, v1), 0) == v1
  {
  }

  lemma TwoByteSextets(v0: Sextet, v1: Sextet, v2: Sextet)
    requires v2 % 4 == 0
    ensures S0(B0(v0, v1)) == v0 && S1(B0(v0, v1), B1(v1, v2)) == v1 && S2(B1(v1, v2), 0) == v2
  {
  }

  lemma EncodeDecodeFull(q: string, s: Bytes)
    requires |q| == 4 && forall k :: 0 <= k < 4 ==> IsAlphabetChar(q[k])
    requires s == DecodeGroup(q)
    ensures Encode(s) == q
  {
    EncodeGroupOfDecodeGroup(q);
    assert Encode(s) == EncodeGroup(s[0], s[1], s[2]) + Encode(s[3..]);
  }

  lemma EncodeDecodeOne(q: string)
    requires |q| == 4 && IsAlphabetChar(q[0]) && IsAlphabetChar(q[1]) && q[2] == '=' && q[3] == '='
    requires ValueOf(q[1]) % 16 == 0
    ensures Encode([B0(ValueOf(q[0]), ValueOf(q[1]))]) == q
  {
    var v0, v1 := ValueOf(q[0]), ValueOf(q[1]);
    EncodeOneDisplay(B0(v0, v1));
    OneByteSextets(v0, v1);
    CharOfValueOf(q[0]); CharOfValueOf(q[1]);
  }

  lemma EncodeDecodeTwo(q: string)
    requires |q| == 4 && IsAlphabetChar(q[0]) && IsAlphabetChar(q[1]) && IsAlphabetChar(q[2]) && q[3] == '='
    requires ValueOf(q[2]) % 4 == 0
    ensures Encode([B0(ValueOf(q[0]), ValueOf(q[1])), B1(ValueOf(q[1]), ValueOf(q[2]))]) == q
  {
    var v0, v1, v2 := ValueOf(q[0]), ValueOf(q[1]), ValueOf(q[2]);
    var b0, b1 := B0(v0, v1), B1(v1, v2);
    CharOfValueOf(q[0]); CharOfValueOf(q[1]); CharOfValueOf(q[2]);
    assert [q[0], q[1], q[2], '='] == q;
    TwoByteSextets(v0, v1, v2);
    EncodeTwoDisplay(b0, b1);
  }

  lemma EncodeDecodeLast(q: string, s: Bytes)
    requires |q| == 4 && DecodeLast(q) == Some(s)
    ensures Encode(s) == q
  {
    if forall k :: 0 <= k < 4 ==> IsAlphabetChar(q[k]) {
      EncodeDecodeFull(q, s);
    } else if IsAlphabetChar(q[0]) && IsAlphabetChar(q[1]) && q[2] == '=' && q[3] == '='
      && ValueOf(q[1]) % 16 == 0 {
      EncodeDecodeOne(q);
    } else {
      EncodeDecodeTwo(q);
    }
  }

  /** Whatever Decode accepts is the encoding of what it returns: the
      encoding is one-to-one onto the canonical base64 strings. */
  lemma {:induction false} EncodeDecode(t: string, s: Bytes)
    requires Decode(t) == Some(s)
    ensures Encode(s) == t
    decreases |t|
  {
    if |t| == 4 {
      EncodeDecodeLast(t, s);
    } else if |t| > 4 {
      var q, rest := t[..4], t[4..];
      assert t == q + rest;
      DecodeCons(q, rest);
      var r := Decode(rest).value;
      EncodeDecode(rest, r);
      var g := DecodeGroup(q);
      EncodeGroupOfDecodeGroup(q);
      assert s == g + r;
      assert |r| > 0;
      assert s[..3] == g && s[3..] == r;
      assert Encode(s) == EncodeGroup(s[0], s[1], s[2]) + Encode(s[3..]);
    }
  }
}
