/**
 * Configuration values as the handlers read them: `IConfiguration[key]` (null
 * for a missing key) parsed by `int.TryParse`, whose failure leaves the out
 * parameter at 0.
 *
 * `int.TryParse(string, out int)` uses `NumberStyles.Integer`: optional leading
 * and trailing white space (U+0009 to U+000D and U+0020), an optional `+` or `-`,
 * one or more ASCII digits, then optionally trailing NUL characters; the value
 * must fit in a 32-bit signed integer.
 */
module Configuration {
  import opened Wrappers

  type Config = map<string, string>

  const MinInt32: int := -0x8000_0000
  const MaxInt32: int := 0x7FFF_FFFF

  /** `configuration[key]`: null when the key is absent. */
  function Lookup(config: Config, key: string): Option<string>
  {
    if key in config then Some(config[key]) else None
  }

  predicate IsNumberWhite(c: char)
  {
    ('\t' <= c <= '\r') || c == ' '
  }

  predicate IsDigit(c: char)
  {
    '0' <= c <= '9'
  }

  /** The first index at or after `i` that is not number white space. */
  function SkipWhite(s: string, i: nat): (j: nat)
    requires i <= |s|
    ensures i <= j <= |s|
    ensures forall k :: i <= k < j ==> IsNumberWhite(s[k])
    ensures j < |s| ==> !IsNumberWhite(s[j])
    decreases |s| - i
  {
    if i < |s| && IsNumberWhite(s[i]) then SkipWhite(s, i + 1) else i
  }

  /** The first index at or after `i` that is not a digit. */
  function SkipDigits(s: string, i: nat): (j: nat)
    requires i <= |s|
    ensures i <= j <= |s|
    ensures forall k :: i <= k < j ==> IsDigit(s[k])
    ensures j < |s| ==> !IsDigit(s[j])
    decreases |s| - i
  {
    if i < |s| && IsDigit(s[i]) then SkipDigits(s, i + 1) else i
  }

  /** The value of a string of decimal digits, most significant first. */
  function DigitsValue(s: string): nat
    requires forall k :: 0 <= k < |s| ==> IsDigit(s[k])
    decreases |s|
  {
    if s == [] then 0
    else
      var last := s[|s| - 1];
      assert IsDigit(last);
      DigitsValue(s[..|s| - 1]) * 10 + (last as int - '0' as int)
  }

  /** After the digits: white space, then only NUL characters. */
  predicate TrailerOk(s: string, i: nat)
    requires i <= |s|
  {
    forall k :: SkipWhite(s, i) <= k < |s| ==> s[k] == '\0'
  }

  /** `int.TryParse`: the parsed value, or `None` where the .NET call returns false. */
  function TryParseInt32(s: Option<string>): (r: Option<int>)
    ensures r.Some? ==> MinInt32 <= r.value <= MaxInt32
  {
    if s.None? then None
    else
      var t := s.value;
      var a := SkipWhite(t, 0);
      var negative := a < |t| && t[a] == '-';
      var b := if a < |t| && (t[a] == '-' || t[a] == '+') then a + 1 else a;
      var e := SkipDigits(t, b);
      if e == b || !TrailerOk(t, e) then None
      else
        var m: int := DigitsValue(t[b..e]);
        var v: int := if negative then -m else m;
        if MinInt32 <= v <= MaxInt32 then Some(v) else None
  }

  /** The handlers' `_ = int.TryParse(configuration[key], out int days)`: 0 on failure. */
  function ConfiguredDays(config: Config, key: string): (days: int)
    ensures MinInt32 <= days <= MaxInt32
    ensures key !in config ==> days == 0
    ensures key in config && TryParseInt32(Some(config[key])).Some? ==> days == TryParseInt32(Some(config[key])).value
  {
    match TryParseInt32(Lookup(config, key))
    case Some(n) => n
    case None => 0
  }

  /** The canonical decimal form of a natural number. */
  function Decimal(n: nat): (s: string)
    ensures |s| >= 1 && forall k :: 0 <= k < |s| ==> IsDigit(s[k])
    decreases n
  {
    if n < 10 then [('0' as int + n) as char]
    else Decimal(n / 10) + [('0' as int + n % 10) as char]
  }

  lemma {:induction false} DigitsValueDecimal(n: nat)
    ensures DigitsValue(Decimal(n)) == n
    decreases n
  {
    if n >= 10 {
      var s := Decimal(n);
      DigitsValueDecimal(n / 10);
      assert s[..|s| - 1] == Decimal(n / 10);
    }
  }

  /** A configured value written in decimal is read back as that value. */
  lemma ParseDecimal(n: nat)
    requires n <= MaxInt32
    ensures TryParseInt32(Some(Decimal(n))) == Some(n)
    ensures TryParseInt32(Some("-" + Decimal(n))) == Some(-(n as int))
  {
    var t := Decimal(n);
    assert SkipWhite(t, 0) == 0;
    assert SkipDigits(t, 0) == |t|;
    assert t[0..|t|] == t;
    DigitsValueDecimal(n);
    var u := "-" + t;
    assert SkipWhite(u, 0) == 0;
    assert forall k :: 1 <= k < |u| ==> u[k] == t[k - 1];
    assert SkipDigits(u, 1) == |u|;
    assert u[1..|u|] == t;
  }

  /** A missing key, or a value that is not a number, configures 0 days. */
  lemma UnparsableIsZero(config: Config, key: string)
    requires key !in config || TryParseInt32(Some(config[key])).None?
    ensures ConfiguredDays(config, key) == 0
  {
  }
}
