/**
  The standard base64 encoding with padding of section 4 of RFC 4648, which Go's
  `base64.StdEncoding.EncodeToString` implements; the server uses it to turn the
  configured credential into the token an `Authorization` header must carry.
  `Decode` is its inverse, and the round trip shows that different credentials
  never share a token.
 */
module Base64 {
  import opened Wrappers
  import opened Octet

  /** The character of the 64-character alphabet (Table 1 of RFC 4648) for `v`. */
  function CharOf(v: int): (c: char)
    requires 0 <= v < 64
    ensures c != '='
  {
    if v < 26 then (65 + v) as char
    else if v < 52 then (97 + v - 26) as char
    else if v < 62 then (48 + v - 52) as char
    else if v == 62 then '+'
    else '/'
  }

  /** The value of an alphabet character, or -1 for any other character. */
  function ValueOf(c: char): (v: int)
    ensures -1 <= v < 64
  {
    if 'A' <= c <= 'Z' then c as int - 65
    else if 'a' <= c <= 'z' then c as int - 97 + 26
    else if '0' <= c <= '9' then c as int - 48 + 52
    else if c == '+' then 62
    else if c == '/' then 63
    else -1
  }

  /** `ValueOf` reads back every character `CharOf` writes: the alphabet is one-to-one. */
  lemma ValueOfCharOf(v: int)
    requires 0 <= v < 64
    ensures ValueOf(CharOf(v)) == v
  {
  }

  /** Three bytes become four characters, six bits each, most significant first. */
  function EncodeTriple(b0: byte, b1: byte, b2: byte): string
  {
    var x0, x1, x2 := b0 as int, b1 as int, b2 as int;
    [CharOf(x0 / 4), CharOf(x0 % 4 * 16 + x1 / 16), CharOf(x1 % 16 * 4 + x2 / 64), CharOf(x2 % 64)]
  }

  /** Encodes `b` group by group; a final group of one or two bytes is padded with '='. */
  function Encode(b: seq<byte>): (s: string)
    ensures |s| == (|b| + 2) / 3 * 4
    decreases |b|
  {
    if |b| == 0 then ""
    else if |b| == 1 then
      var x0 := b[0] as int;
      [CharOf(x0 / 4), CharOf(x0 % 4 * 16), '=', '=']
    else if |b| == 2 then
      var x0, x1 := b[0] as int, b[1] as int;
      [CharOf(x0 / 4), CharOf(x0 % 4 * 16 + x1 / 16), CharOf(x1 % 16 * 4), '=']
    else
      EncodeTriple(b[0], b[1], b[2]) + Encode(b[3..])
  }

  /** Four characters back to the one, two or three bytes they carry; `None` when a
      character is outside the alphabet or the padding is misplaced. */
  function DecodeQuad(q: string, last: bool): (r: Option<seq<byte>>)
    requires |q| == 4
    ensures r.Some? ==> 1 <= |r.value| <= 3 && (!last ==> |r.value| == 3)
  {
    var v0, v1, v2, v3 := ValueOf(q[0]), ValueOf(q[1]), ValueOf(q[2]), ValueOf(q[3]);
    if v0 < 0 || v1 < 0 then None
    else if last && q[2] == '=' && q[3] == '=' then
      Some([(v0 * 4 + v1 / 16) as byte])
    else if v2 < 0 then None
    else if last && q[3] == '=' then
      Some([(v0 * 4 + v1 / 16) as byte, (v1 % 16 * 16 + v2 / 4) as byte])
    else if v3 < 0 then None
    else
      Some([(v0 * 4 + v1 / 16) as byte, (v1 % 16 * 16 + v2 / 4) as byte, (v2 % 4 * 64 + v3) as byte])
  }

  /** Decodes a padded base64 text; padding may only close the last group. */
  function Decode(s: string): (r: Option<seq<byte>>)
    decreases |s|
  {
    if |s| == 0 then Some([])
    else if |s| < 4 then None
    else
      match DecodeQuad(s[..4], |s| == 4)
      case None => None
      case Some(head) =>
        match Decode(s[4..])
        case None => None
        case Some(tail) => Some(head + tail)
  }

  /** One full group round-trips. */
  lemma DecodeEncodeTriple(b0: byte, b1: byte, b2: byte, last: bool)
    ensures DecodeQuad(EncodeTriple(b0, b1, b2), last) == Some([b0, b1, b2])
  {
    var x0, x1, x2 := b0 as int, b1 as int, b2 as int;
    var v0, v1, v2, v3 := x0 / 4, x0 % 4 * 16 + x1 / 16, x1 % 16 * 4 + x2 / 64, x2 % 64;
    ValueOfCharOf(v0);
    ValueOfCharOf(v1);
    ValueOfCharOf(v2);
    ValueOfCharOf(v3);
    assert v1 / 16 == x0 % 4 && v1 % 16 == x1 / 16;
    assert v2 / 4 == x1 % 16 && v2 % 4 == x2 / 64;
  }

  /** A final single byte, padded with "==", round-trips. */
  lemma DecodeEncodeOne(b: seq<byte>)
    requires |b| == 1
    ensures Decode(Encode(b)) == Some(b)
  {
    var s := Encode(b);
    assert s[..4] == s && s[4..] == "";
    DecodePaddedOne(s, b[0]);
    assert [b[0]] + [] == b;
  }

  /** How the decoder reads the group of a final single byte. */
  lemma DecodePaddedOne(q: string, b0: byte)
    requires q == Encode([b0])
    ensures DecodeQuad(q, true) == Some([b0])
  {
    var x0 := b0 as int;
    ValueOfCharOf(x0 / 4);
    ValueOfCharOf(x0 % 4 * 16);
    SplitBy16(x0 % 4, 0);
  }

  /** A final pair of bytes, padded with "=", round-trips. */
  lemma DecodeEncodeTwo(b: seq<byte>)
    requires |b| == 2
    ensures Decode(Encode(b)) == Some(b)
  {
    var s := Encode(b);
    assert s[..4] == s && s[4..] == "";
    assert b == [b[0], b[1]];
    DecodePaddedPair(s, b[0], b[1]);
    assert [b[0], b[1]] + [] == b;
  }

  /** How the decoder reads the group of a final pair of bytes. */
  lemma DecodePaddedPair(q: string, b0: byte, b1: byte)
    requires q == Encode([b0, b1])
    ensures DecodeQuad(q, true) == Some([b0, b1])
  {
    var x0, x1 := b0 as int, b1 as int;
    ValueOfCharOf(x0 / 4);
    ValueOfCharOf(x0 % 4 * 16 + x1 / 16);
    ValueOfCharOf(x1 % 16 * 4);
    PairArithmetic(x0, x1);
  }

  /** The sextets of two bytes give the two bytes back. */
  lemma PairArithmetic(x0: int, x1: int)
    requires 0 <= x0 < 256 && 0 <= x1 < 256
    ensures var v0, v1, v2 := x0 / 4, x0 % 4 * 16 + x1 / 16, x1 % 16 * 4;
      v0 * 4 + v1 / 16 == x0 && v1 % 16 * 16 + v2 / 4 == x1
  {
    SplitBy16(x0 % 4, x1 / 16);
    SplitBy4(x1 % 16, 0);
  }

  /** Quotient and remainder by 16 of a number written as `q * 16 + r` with `r < 16`. */
  lemma SplitBy16(q: int, r: int)
    requires 0 <= q && 0 <= r < 16
    ensures (q * 16 + r) / 16 == q && (q * 16 + r) % 16 == r
  {
  }

  /** Quotient and remainder by 4 of a number written as `q * 4 + r` with `r < 4`. */
  lemma SplitBy4(q: int, r: int)
    requires 0 <= q && 0 <= r < 4
    ensures (q * 4 + r) / 4 == q && (q * 4 + r) % 4 == r
  {
  }

  /** Decoding an encoding gives back the bytes (RFC 4648, section 4). */
  lemma {:induction false} DecodeEncode(b: seq<byte>)
    ensures Decode(Encode(b)) == Some(b)
    decreases |b|
  {
    if |b| == 1 {
      DecodeEncodeOne(b);
    } else if |b| == 2 {
      DecodeEncodeTwo(b);
    } else if |b| > 2 {
      var s := Encode(b);
      var head := EncodeTriple(b[0], b[1], b[2]);
      assert s[..4] == head && s[4..] == Encode(b[3..]);
      DecodeEncodeTriple(b[0], b[1], b[2], |s| == 4);
      DecodeEncode(b[3..]);
      assert [b[0], b[1], b[2]] + b[3..] == b;
    }
  }

  /** Different credentials have different tokens. */
  lemma EncodeInjective(b: seq<byte>, c: seq<byte>)
    requires Encode(b) == Encode(c)
    ensures b == c
  {
    DecodeEncode(b);
    DecodeEncode(c);
  }

  /** Every character of an encoding is an alphabet character or '='. */
  lemma {:induction false} EncodeAlphabet(b: seq<byte>, i: nat)
    requires i < |Encode(b)|
    ensures ValueOf(Encode(b)[i]) >= 0 || Encode(b)[i] == '='
    decreases |b|
  {
    if |b| == 1 {
      var x0 := b[0] as int;
      ValueOfCharOf(x0 / 4);
      ValueOfCharOf(x0 % 4 * 16);
    } else if |b| == 2 {
      var x0, x1 := b[0] as int, b[1] as int;
      ValueOfCharOf(x0 / 4);
      ValueOfCharOf(x0 % 4 * 16 + x1 / 16);
      ValueOfCharOf(x1 % 16 * 4);
    } else if i < 4 {
      var x0, x1, x2 := b[0] as int, b[1] as int, b[2] as int;
      ValueOfCharOf(x0 / 4);
      ValueOfCharOf(x0 % 4 * 16 + x1 / 16);
      ValueOfCharOf(x1 % 16 * 4 + x2 / 64);
      ValueOfCharOf(x2 % 64);
    } else {
      EncodeAlphabet(b[3..], i - 4);
    }
  }
}
