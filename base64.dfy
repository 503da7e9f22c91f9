/**
 * The base 64 encoding of section 4 of RFC 4648, as `Convert.ToBase64String`
 * produces it: every 3 bytes become 4 characters of the 64-character
 * alphabet, and a final group of 1 or 2 bytes is padded with '='.
 * `Decode` is its inverse, stated for the round trip.
 */
module Base64 {
  import opened Wrappers
  import opened Entities

  /** The alphabet character for a 6-bit value: A-Z, a-z, 0-9, '+', '/'. */
  function Char(v: nat): (c: char)
    requires v < 64
    ensures c != '='
  {
    if v < 26 then ('A' as int + v) as char
    else if v < 52 then ('a' as int + (v - 26)) as char
    else if v < 62 then ('0' as int + (v - 52)) as char
    else if v == 62 then '+'
    else '/'
  }

  /** The 6-bit value of an alphabet character; None for any other character, '=' included. */
  function Value(c: char): (r: Option<nat>)
    ensures r.Some? ==> r.value < 64
  {
    if 'A' <= c <= 'Z' then Some(c as int - 'A' as int)
    else if 'a' <= c <= 'z' then Some(c as int - 'a' as int + 26)
    else if '0' <= c <= '9' then Some(c as int - '0' as int + 52)
    else if c == '+' then Some(62)
    else if c == '/' then Some(63)
    else None
  }

  /** Each of the 64 characters stands for exactly one value. */
  lemma ValueOfChar(v: nat)
    requires v < 64
    ensures Value(Char(v)) == Some(v)
  {
  }

  /** The four characters for three bytes: their 24 bits cut into four 6-bit values. */
  function EncodeGroup(b0: byte, b1: byte, b2: byte): (r: string)
    ensures |r| == 4 && '=' !in r
  {
    [Char(b0 as int / 4),
     Char((b0 as int % 4) * 16 + b1 as int / 16),
     Char((b1 as int % 16) * 4 + b2 as int / 64),
     Char(b2 as int % 64)]
  }

  function Encode(b: seq<byte>): (r: string)
    ensures |r| == 4 * ((|b| + 2) / 3)
    decreases |b|
  {
    if |b| == 0 then ""
    else if |b| == 1 then
      [Char(b[0] as int / 4), Char((b[0] as int % 4) * 16), '=', '=']
    else if |b| == 2 then
      [Char(b[0] as int / 4), Char((b[0] as int % 4) * 16 + b[1] as int / 16), Char((b[1] as int % 16) * 4), '=']
    else
      EncodeGroup(b[0], b[1], b[2]) + Encode(b[3..])
  }

  /** The bytes of a group of four characters, of which the last one or two may be '=' padding. */
  function DecodeGroup(c0: char, c1: char, c2: char, c3: char): Option<seq<byte>>
  {
    match (Value(c0), Value(c1), Value(c2), Value(c3))
    case (Some(v0), Some(v1), None, None) =>
      if c2 == '=' && c3 == '=' then Some([(v0 * 4 + v1 / 16) as byte]) else None
    case (Some(v0), Some(v1), Some(v2), None) =>
      if c3 == '=' then Some([(v0 * 4 + v1 / 16) as byte, ((v1 % 16) * 16 + v2 / 4) as byte]) else None
    case (Some(v0), Some(v1), Some(v2), Some(v3)) =>
      Some([(v0 * 4 + v1 / 16) as byte, ((v1 % 16) * 16 + v2 / 4) as byte, ((v2 % 4) * 64 + v3) as byte])
    case _ => None
  }

  /** The inverse of `Encode`: None for a string that is not made of padded 4-character groups. */
  function Decode(s: string): Option<seq<byte>>
    decreases |s|
  {
    if |s| == 0 then Some([])
    else if |s| < 4 then None
    else if |s| == 4 then DecodeGroup(s[0], s[1], s[2], s[3])
    else if '=' in s[..4] then None
    else match (DecodeGroup(s[0], s[1], s[2], s[3]), Decode(s[4..]))
      case (Some(g), Some(rest)) => Some(g + rest)
      case _ => None
  }

  lemma GroupRoundTrip(b0: byte, b1: byte, b2: byte)
    ensures var e := EncodeGroup(b0, b1, b2); DecodeGroup(e[0], e[1], e[2], e[3]) == Some([b0, b1, b2])
  {
    var v0, v1, v2, v3 := b0 as int / 4, (b0 as int % 4) * 16 + b1 as int / 16, (b1 as int % 16) * 4 + b2 as int / 64, b2 as int % 64;
    ValueOfChar(v0); ValueOfChar(v1); ValueOfChar(v2); ValueOfChar(v3);
    assert v0 * 4 + v1 / 16 == b0 as int;
    assert (v1 % 16) * 16 + v2 / 4 == b1 as int;
    assert (v2 % 4) * 64 + v3 == b2 as int;
  }

  /** Decoding a full group in front of further groups decodes the group, then the rest. */
  lemma DecodeCons(g: string, rest: string)
    requires |g| == 4 && '=' !in g && |rest| >= 4
    ensures Decode(g + rest) ==
      match (DecodeGroup(g[0], g[1], g[2], g[3]), Decode(rest))
      case (Some(x), Some(y)) => Some(x + y)
      case _ => None
  {
    var s := g + rest;
    assert s[..4] == g && s[4..] == rest;
    assert s[0] == g[0] && s[1] == g[1] && s[2] == g[2] && s[3] == g[3];
  }

  lemma DecodeFour(s: string)
    requires |s| == 4
    ensures Decode(s) == DecodeGroup(s[0], s[1], s[2], s[3])
  {
  }

  lemma OneByteRoundTrip(b0: byte)
    ensures Decode(Encode([b0])) == Some([b0])
  {
    var v0, v1 := b0 as int / 4, (b0 as int % 4) * 16;
    var e := Encode([b0]);
    assert e == [Char(v0), Char(v1), '=', '='];
    ValueOfChar(v0); ValueOfChar(v1);
    DecodeFour(e);
    assert v0 * 4 + v1 / 16 == b0 as int;
  }

  lemma TwoBytesRoundTrip(b0: byte, b1: byte)
    ensures Decode(Encode([b0, b1])) == Some([b0, b1])
  {
    var v0, v1, v2 := b0 as int / 4, (b0 as int % 4) * 16 + b1 as int / 16, (b1 as int % 16) * 4;
    var e := Encode([b0, b1]);
    assert e == [Char(v0), Char(v1), Char(v2), '='];
    ValueOfChar(v0); ValueOfChar(v1); ValueOfChar(v2);
    DecodeFour(e);
    assert v0 * 4 + v1 / 16 == b0 as int;
    assert (v1 % 16) * 16 + v2 / 4 == b1 as int;
  }

  lemma SplitGroup(b: seq<byte>)
    requires |b| >= 3
    ensures [b[0], b[1], b[2]] + b[3..] == b
  {
  }

  lemma ThreeBytesRoundTrip(b: seq<byte>)
    requires |b| == 3
    ensures Decode(Encode(b)) == Some(b)
  {
    var g := EncodeGroup(b[0], b[1], b[2]);
    GroupRoundTrip(b[0], b[1], b[2]);
    assert b[3..] == [];
    assert Encode(b) == g;
    DecodeFour(g);
    assert [b[0], b[1], b[2]] == b;
  }

  lemma GroupThenRestRoundTrip(b: seq<byte>)
    requires |b| > 3 && Decode(Encode(b[3..])) == Some(b[3..])
    ensures Decode(Encode(b)) == Some(b)
  {
    var g := EncodeGroup(b[0], b[1], b[2]);
    var rest := Encode(b[3..]);
    assert |rest| >= 4;
    assert Encode(b) == g + rest;
    GroupRoundTrip(b[0], b[1], b[2]);
    assert DecodeGroup(g[0], g[1], g[2], g[3]) == Some([b[0], b[1], b[2]]);
    DecodeCons(g, rest);
    SplitGroup(b);
  }

  /** Decoding an encoding gives back the bytes. */
  lemma {:induction false} RoundTrip(b: seq<byte>)
    ensures Decode(Encode(b)) == Some(b)
    decreases |b|
  {
    if |b| == 1 {
      OneByteRoundTrip(b[0]);
      assert [b[0]] == b;
    } else if |b| == 2 {
      TwoBytesRoundTrip(b[0], b[1]);
      assert [b[0], b[1]] == b;
    } else if |b| == 3 {
      ThreeBytesRoundTrip(b);
    } else if |b| > 3 {
      RoundTrip(b[3..]);
      GroupThenRestRoundTrip(b);
    }
  }

  /** The text of a Guid's 16 bytes: 24 characters that decode to those bytes. */
  lemma SixteenBytes(b: seq<byte>)
    requires |b| == 16
    ensures |Encode(b)| == 24
    ensures Decode(Encode(b)) == Some(b)
  {
    calc {
      |Encode(b)|;
      4 * ((|b| + 2) / 3);
      { assert |b| + 2 == 18; }
      4 * (18 / 3);
    }
    RoundTrip(b);
  }
}
