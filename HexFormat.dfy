/**
 * `byte.ToString("X2")`: two upper-case hexadecimal digits per byte, high
 * nibble first, and its inverse.
 */
module HexFormat {
  import opened Wrappers
  import opened Text

  predicate IsUpperHexDigit(c: char)
  {
    ('0' <= c <= '9') || ('A' <= c <= 'F')
  }

  function HexDigit(n: nat): (c: char)
    requires n < 16
    ensures IsUpperHexDigit(c)
  {
    if n < 10 then ('0' as int + n) as char else ('A' as int + n - 10) as char
  }

  function HexValue(c: char): (r: Option<nat>)
    ensures r.Some? ==> r.value < 16
  {
    if '0' <= c <= '9' then Some(c as int - '0' as int)
    else if 'A' <= c <= 'F' then Some(c as int - 'A' as int + 10)
    else None
  }

  lemma HexValueOfDigit(n: nat)
    requires n < 16
    ensures HexValue(HexDigit(n)) == Some(n)
  {
  }

  /** `b.ToString("X2")`. */
  function X2(b: byte): string
  {
    [HexDigit(b as int / 16), HexDigit(b as int % 16)]
  }

  /** The concatenation of `X2` over all bytes, in order. */
  function HexUpper(bs: seq<byte>): string
    decreases |bs|
  {
    if bs == [] then "" else HexUpper(bs[..|bs| - 1]) + X2(bs[|bs| - 1])
  }

  /** Reads back two hex digits per byte; `None` on odd length or a non-hex character. */
  function HexDecode(s: string): Option<seq<byte>>
    decreases |s|
  {
    if |s| == 0 then Some([])
    else if |s| == 1 then None
    else
      match (HexValue(s[|s| - 2]), HexValue(s[|s| - 1]), HexDecode(s[..|s| - 2]))
      case (Some(h), Some(l), Some(prefix)) => Some(prefix + [(h * 16 + l) as byte])
      case _ => None
  }

  /** Position `2k` holds the high nibble of byte `k`, position `2k+1` its low nibble. */
  lemma {:induction false} HexUpperAt(bs: seq<byte>, k: nat)
    requires k < |bs|
    ensures |HexUpper(bs)| == 2 * |bs|
    ensures HexUpper(bs)[2 * k] == HexDigit(bs[k] as int / 16)
    ensures HexUpper(bs)[2 * k + 1] == HexDigit(bs[k] as int % 16)
    decreases |bs|
  {
    var init := bs[..|bs| - 1];
    HexUpperLength(init);
    if k < |bs| - 1 {
      HexUpperAt(init, k);
    }
  }

  lemma {:induction false} HexUpperLength(bs: seq<byte>)
    ensures |HexUpper(bs)| == 2 * |bs|
    decreases |bs|
  {
    if bs != [] {
      HexUpperLength(bs[..|bs| - 1]);
    }
  }

  /** Every character of the encoding is one of 0-9, A-F. */
  lemma HexUpperAlphabet(bs: seq<byte>)
    ensures forall i :: 0 <= i < |HexUpper(bs)| ==> IsUpperHexDigit(HexUpper(bs)[i])
  {
    HexUpperLength(bs);
    forall i | 0 <= i < |HexUpper(bs)|
      ensures IsUpperHexDigit(HexUpper(bs)[i])
    {
      HexUpperAt(bs, i / 2);
    }
  }

  /** Decoding the encoding gives back the bytes. */
  lemma {:induction false} HexRoundTrip(bs: seq<byte>)
    ensures HexDecode(HexUpper(bs)) == Some(bs)
    decreases |bs|
  {
    if bs != [] {
      var init, last := bs[..|bs| - 1], bs[|bs| - 1];
      var s := HexUpper(bs);
      HexUpperLength(init);
      HexRoundTrip(init);
      assert s[..|s| - 2] == HexUpper(init);
      HexValueOfDigit(last as int / 16);
      HexValueOfDigit(last as int % 16);
      assert (last as int / 16) * 16 + last as int % 16 == last as int;
      assert init + [last] == bs;
    }
  }

  /** Different byte strings never share an encoding. */
  lemma HexUpperInjective(a: seq<byte>, b: seq<byte>)
    requires HexUpper(a) == HexUpper(b)
    ensures a == b
  {
    HexRoundTrip(a);
    HexRoundTrip(b);
  }
}
