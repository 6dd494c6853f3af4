/**
 * `Convert.ToBase64String`: the base64 encoding of section 4 of RFC 4648
 * (alphabet A-Z a-z 0-9 + /, `=` padding, no line breaks), and a strict decoder (unused pad bits must be zero)
 * for the same format.
 */
module Base64 {
  import opened Wrappers
  import opened Text

  predicate IsBase64Char(c: char)
  {
    ('A' <= c <= 'Z') || ('a' <= c <= 'z') || ('0' <= c <= '9') || c == '+' || c == '/'
  }

  /** The character for a 6-bit value (Table 1 of RFC 4648). */
  function CharOf(i: nat): (c: char)
    requires i < 64
    ensures IsBase64Char(c)
  {
    if i < 26 then ('A' as int + i) as char
    else if i < 52 then ('a' as int + i - 26) as char
    else if i < 62 then ('0' as int + i - 52) as char
    else if i == 62 then '+'
    else '/'
  }

  function ValueOf(c: char): (r: Option<nat>)
    ensures r.Some? ==> r.value < 64
  {
    if 'A' <= c <= 'Z' then Some(c as int - 'A' as int)
    else if 'a' <= c <= 'z' then Some(c as int - 'a' as int + 26)
    else if '0' <= c <= '9' then Some(c as int - '0' as int + 52)
    else if c == '+' then Some(62)
    else if c == '/' then Some(63)
    else None
  }

  lemma ValueOfChar(i: nat)
    requires i < 64
    ensures ValueOf(CharOf(i)) == Some(i)
  {
  }

  /** The number of `=` characters that end the encoding of `n` bytes. */
  function Padding(n: nat): nat
  {
    if n % 3 == 0 then 0 else 3 - n % 3
  }

  /** One full group: three bytes, four characters. */
  function Group(b0: int, b1: int, b2: int): (g: string)
    requires 0 <= b0 < 256 && 0 <= b1 < 256 && 0 <= b2 < 256
    ensures |g| == 4 && forall i :: 0 <= i < 4 ==> IsBase64Char(g[i])
  {
    [CharOf(b0 / 4), CharOf((b0 % 4) * 16 + b1 / 16), CharOf((b1 % 16) * 4 + b2 / 64), CharOf(b2 % 64)]
  }

  /** The last, padded group for one or two remaining bytes. */
  function Tail(bs: seq<byte>): (g: string)
    requires 1 <= |bs| <= 2
    ensures |g| == 4
    ensures forall i :: 0 <= i < 4 - Padding(|bs|) ==> IsBase64Char(g[i])
    ensures forall i :: 4 - Padding(|bs|) <= i < 4 ==> g[i] == '='
  {
    var b0 := bs[0] as int;
    if |bs| == 1 then
      [CharOf(b0 / 4), CharOf((b0 % 4) * 16), '=', '=']
    else
      var b1 := bs[1] as int;
      [CharOf(b0 / 4), CharOf((b0 % 4) * 16 + b1 / 16), CharOf((b1 % 16) * 4), '=']
  }

  function Encode(bs: seq<byte>): string
    decreases |bs|
  {
    if |bs| == 0 then ""
    else if |bs| < 3 then Tail(bs)
    else Group(bs[0] as int, bs[1] as int, bs[2] as int) + Encode(bs[3..])
  }

  /** Decodes one group of four characters; padding is accepted only by the caller for the
      last group. A padded group whose unused bits are not zero is rejected, as section
      3.5 of RFC 4648 allows a decoder to do. */
  function DecodeGroup(g: string): Option<seq<byte>>
    requires |g| == 4
  {
    var v0, v1, v2, v3 := ValueOf(g[0]), ValueOf(g[1]), ValueOf(g[2]), ValueOf(g[3]);
    if v0.None? || v1.None? then None
    else if g[2] == '=' && g[3] == '=' then
      if v1.value % 16 != 0 then None
      else Some([(v0.value * 4 + v1.value / 16) as byte])
    else if v2.None? then None
    else if g[3] == '=' then
      if v2.value % 4 != 0 then None
      else Some([(v0.value * 4 + v1.value / 16) as byte, ((v1.value % 16) * 16 + v2.value / 4) as byte])
    else if v3.None? then None
    else
      Some([(v0.value * 4 + v1.value / 16) as byte, ((v1.value % 16) * 16 + v2.value / 4) as byte,
            ((v2.value % 4) * 64 + v3.value) as byte])
  }

  function Decode(s: string): Option<seq<byte>>
    decreases |s|
  {
    if |s| == 0 then Some([])
    else if |s| < 4 then None
    else if |s| == 4 then DecodeGroup(s)
    else if s[3] == '=' then None
    else
      match (DecodeGroup(s[..4]), Decode(s[4..]))
      case (Some(g), Some(rest)) => if |g| == 3 then Some(g + rest) else None
      case _ => None
  }

  /** The encoding has four characters per started group of three bytes; all but the
      trailing `Padding(|bs|)` characters are alphabet characters, and those are `=`. */
  lemma {:induction false} EncodeShape(bs: seq<byte>)
    ensures |Encode(bs)| == 4 * ((|bs| + 2) / 3)
    ensures forall i :: 0 <= i < |Encode(bs)| - Padding(|bs|) ==> IsBase64Char(Encode(bs)[i])
    ensures forall i :: |Encode(bs)| - Padding(|bs|) <= i < |Encode(bs)| ==> Encode(bs)[i] == '='
    decreases |bs|
  {
    if |bs| >= 3 {
      var rest := bs[3..];
      EncodeShape(rest);
      var g := Group(bs[0] as int, bs[1] as int, bs[2] as int);
      var e, er := Encode(bs), Encode(rest);
      assert e == g + er;
      assert |bs| == |rest| + 3;
      assert Padding(|bs|) == Padding(|rest|);
      assert Padding(|rest|) <= |er|;
      forall i | 0 <= i < |e| - Padding(|bs|)
        ensures IsBase64Char(e[i])
      {
        if 4 <= i {
          assert e[i] == er[i - 4];
        }
      }
      forall i | |e| - Padding(|bs|) <= i < |e|
        ensures e[i] == '='
      {
        assert e[i] == er[i - 4];
      }
    }
  }

  lemma ThreeBytes(b0: int, b1: int, b2: int)
    requires 0 <= b0 < 256 && 0 <= b1 < 256 && 0 <= b2 < 256
    ensures ((b0 / 4) * 4 + ((b0 % 4) * 16 + b1 / 16) / 16) == b0
    ensures ((((b0 % 4) * 16 + b1 / 16) % 16) * 16 + ((b1 % 16) * 4 + b2 / 64) / 4) == b1
    ensures ((((b1 % 16) * 4 + b2 / 64) % 4) * 64 + b2 % 64) == b2
  {
    assert ((b0 % 4) * 16 + b1 / 16) / 16 == b0 % 4;
    assert ((b0 % 4) * 16 + b1 / 16) % 16 == b1 / 16;
    assert ((b1 % 16) * 4 + b2 / 64) / 4 == b1 % 16;
    assert ((b1 % 16) * 4 + b2 / 64) % 4 == b2 / 64;
  }

  lemma DecodeGroupFull(b0: int, b1: int, b2: int)
    requires 0 <= b0 < 256 && 0 <= b1 < 256 && 0 <= b2 < 256
    ensures DecodeGroup(Group(b0, b1, b2)) == Some([b0 as byte, b1 as byte, b2 as byte])
  {
    ThreeBytes(b0, b1, b2);
    ValueOfChar(b0 / 4);
    ValueOfChar((b0 % 4) * 16 + b1 / 16);
    ValueOfChar((b1 % 16) * 4 + b2 / 64);
    ValueOfChar(b2 % 64);
  }

  lemma DecodeTailOne(bs: seq<byte>)
    requires |bs| == 1
    ensures DecodeGroup(Tail(bs)) == Some(bs)
  {
    var b0 := bs[0] as int;
    ValueOfChar(b0 / 4);
    ValueOfChar((b0 % 4) * 16);
    assert ((b0 % 4) * 16) / 16 == b0 % 4;
    assert ((b0 % 4) * 16) % 16 == 0;
    assert (b0 / 4) * 4 + b0 % 4 == b0;
    assert bs == [b0 as byte];
  }

  lemma DecodeTailTwo(bs: seq<byte>)
    requires |bs| == 2
    ensures DecodeGroup(Tail(bs)) == Some(bs)
  {
    var b0, b1 := bs[0] as int, bs[1] as int;
    ThreeBytes(b0, b1, 0);
    ValueOfChar(b0 / 4);
    ValueOfChar((b0 % 4) * 16 + b1 / 16);
    ValueOfChar((b1 % 16) * 4);
    assert ((b1 % 16) * 4) % 4 == 0;
    assert bs == [b0 as byte, b1 as byte];
  }

  /** A padded group with non-zero unused bits is not an encoding: "AB==" sets the low
      bits of 'B' that one byte leaves unused, and "AAB=" those of the last 'B'. */
  lemma NonCanonicalPaddingRejected()
    ensures Decode("AB==") == None && Decode("AAB=") == None
  {
    ValueOfChar(0);
    ValueOfChar(1);
    assert CharOf(0) == 'A' && CharOf(1) == 'B';
  }

  /** Decoding the encoding gives back the bytes, so the encoding is injective. */
  lemma {:induction false} RoundTrip(bs: seq<byte>)
    ensures Decode(Encode(bs)) == Some(bs)
    decreases |bs|
  {
    if |bs| == 1 {
      DecodeTailOne(bs);
    } else if |bs| == 2 {
      DecodeTailTwo(bs);
    } else if |bs| >= 3 {
      var b0, b1, b2, rest := bs[0] as int, bs[1] as int, bs[2] as int, bs[3..];
      var g := Group(b0, b1, b2);
      var s := Encode(bs);
      assert s == g + Encode(rest);
      DecodeGroupFull(b0, b1, b2);
      assert [b0 as byte, b1 as byte, b2 as byte] + rest == bs;
      if rest == [] {
        assert s == g;
        assert bs == [b0 as byte, b1 as byte, b2 as byte];
        assert Decode(s) == DecodeGroup(g);
      } else {
        RoundTrip(rest);
        EncodeShape(rest);
        assert s[..4] == g && s[4..] == Encode(rest);
        assert IsBase64Char(s[3]);
      }
    }
  }

  /** The shape of a refresh token: 128 bytes give 172 characters, the last one a single `=`. */
  lemma Encode128(bs: seq<byte>)
    requires |bs| == 128
    ensures |Encode(bs)| == 172
    ensures forall i :: 0 <= i < 171 ==> IsBase64Char(Encode(bs)[i])
    ensures Encode(bs)[171] == '='
  {
    EncodeShape(bs);
  }
}
