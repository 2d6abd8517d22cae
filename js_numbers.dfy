/**
 * JavaScript's `parseInt(s)` with no radix argument, as the legacy server
 * applies it to the numeric fields of Asterisk events and replies: leading
 * white space is skipped, one sign is accepted, a `0x`/`0X` prefix switches
 * to base 16, and the longest run of digits that follows is read. No digit
 * at all gives NaN, written `None` here.
 */
module JsNumbers {
  import opened Text
  import opened Records

  predicate IsHexDigit(c: char) { IsDigit(c) || ('a' <= c <= 'f') || ('A' <= c <= 'F') }

  /** A digit of base 16 when `hex`, of base 10 otherwise. */
  predicate IsRadixDigit(c: char, hex: bool) { if hex then IsHexDigit(c) else IsDigit(c) }

  function RadixDigitValue(c: char, hex: bool): (d: nat)
    requires IsRadixDigit(c, hex)
    ensures d < (if hex then 16 else 10)
  {
    if IsDigit(c) then DigitValue(c)
    else if 'a' <= c <= 'f' then (c as int) - ('a' as int) + 10
    else (c as int) - ('A' as int) + 10
  }

  /** Length of the longest prefix of `s` made of digits. */
  function DigitRun(s: string, hex: bool): (n: nat)
    ensures n <= |s|
    ensures forall i :: 0 <= i < n ==> IsRadixDigit(s[i], hex)
    ensures n < |s| ==> !IsRadixDigit(s[n], hex)
  {
    if s == [] || !IsRadixDigit(s[0], hex) then 0
    else
      var m := DigitRun(s[1..], hex);
      assert forall i :: 1 <= i < m + 1 ==> s[i] == s[1..][i - 1];
      1 + m
  }

  /** Value of a run of digits, most significant first. */
  function NumeralValue(s: string, hex: bool): nat
    requires forall i :: 0 <= i < |s| ==> IsRadixDigit(s[i], hex)
    decreases |s|
  {
    if s == [] then 0
    else (if hex then 16 else 10) * NumeralValue(s[..|s| - 1], hex) + RadixDigitValue(s[|s| - 1], hex)
  }

  /** In base 10 the numeral value is the one `${n}` renders. */
  lemma {:induction false} DecimalNumeralValue(s: string)
    requires forall i :: 0 <= i < |s| ==> IsDigit(s[i])
    ensures NumeralValue(s, false) == DigitsValue(s)
    decreases |s|
  {
    if s != [] {
      DecimalNumeralValue(s[..|s| - 1]);
    }
  }

  /** `s` without its leading white space. */
  function TrimStart(s: string): (t: string)
    ensures |t| <= |s|
  {
    if s != [] && IsJsSpace(s[0]) then TrimStart(s[1..]) else s
  }

  /** The text after one leading sign, if there is one. */
  function AfterSign(t: string): (u: string)
    ensures |u| <= |t|
  {
    if |t| > 0 && (t[0] == '-' || t[0] == '+') then t[1..] else t
  }

  /** A `0x` or `0X` prefix, which switches to base 16. */
  predicate HexPrefixed(u: string)
  {
    |u| >= 2 && u[0] == '0' && (u[1] == 'x' || u[1] == 'X')
  }

  /** The digits read after an optional `0x` prefix: the longest run, or none. */
  function ReadNumeral(u: string): Option<nat>
  {
    var hex := HexPrefixed(u);
    var v := if hex then u[2..] else u;
    var n := DigitRun(v, hex);
    if n == 0 then None else Some(NumeralValue(v[..n], hex))
  }

  /** `parseInt(s)`; `None` stands for NaN. */
  function ParseInt(s: string): Option<int>
  {
    var t := TrimStart(s);
    match ReadNumeral(AfterSign(t))
    case None => None
    case Some(value) => Some(if |t| > 0 && t[0] == '-' then -(value as int) else value)
  }

  /** `parseInt(s) || 0`: NaN and zero both become 0. */
  function ParseIntOrZero(s: string): int
  {
    match ParseInt(s)
    case None => 0
    case Some(v) => v
  }

  /** A run of digits followed by a stop is read whole, in base 10. */
  lemma ReadDecimal(d: string, rest: string)
    requires |d| > 0 && forall i :: 0 <= i < |d| ==> IsDigit(d[i])
    requires rest == [] || !IsDigit(rest[0])
    requires !HexPrefixed(d + rest)
    ensures ReadNumeral(d + rest) == Some(DigitsValue(d))
  {
    var s := d + rest;
    DigitRunOfNumeral(d, rest, false);
    assert s[..|d|] == d;
    DecimalNumeralValue(d);
  }

  /**
   * The decimal rendering of a natural number reads back as that number,
   * also when text that cannot continue the numeral follows it. The text may
   * not start with `x` or `X`: after "0" it would make a hexadecimal prefix.
   */
  lemma NatRoundTrip(n: nat, rest: string)
    requires rest == [] || (!IsHexDigit(rest[0]) && rest[0] != 'x' && rest[0] != 'X')
    ensures ParseInt(NatToString(n) + rest) == Some(n)
  {
    var d := NatToString(n);
    var s := d + rest;
    assert s[0] == d[0];
    assert TrimStart(s) == s && AfterSign(s) == s;
    assert !HexPrefixed(s) by {
      if |d| >= 2 {
        assert s[1] == d[1];
      } else if |s| >= 2 {
        assert s[1] == rest[0];
      }
    }
    ReadDecimal(d, rest);
    NatToStringRoundTrip(n);
  }

  /** A run of digits followed by a non-digit is read to its end. */
  lemma DigitRunOfNumeral(d: string, rest: string, hex: bool)
    requires forall i :: 0 <= i < |d| ==> IsRadixDigit(d[i], hex)
    requires rest == [] || !IsRadixDigit(rest[0], hex)
    ensures DigitRun(d + rest, hex) == |d|
  {
    var s := d + rest;
    assert forall i :: 0 <= i < |d| ==> s[i] == d[i];
    assert |d| < |s| ==> s[|d|] == rest[0];
    DigitRunIs(s, hex, |d|);
  }

  /** The run is the `k` whose prefix is all digits and which no digit follows. */
  lemma {:induction false} DigitRunIs(s: string, hex: bool, k: nat)
    requires k <= |s| && forall i :: 0 <= i < k ==> IsRadixDigit(s[i], hex)
    requires k < |s| ==> !IsRadixDigit(s[k], hex)
    ensures DigitRun(s, hex) == k
    decreases k
  {
    if k > 0 {
      assert IsRadixDigit(s[0], hex);
      assert forall i :: 0 <= i < k - 1 ==> s[1..][i] == s[i + 1];
      assert k - 1 < |s| - 1 ==> s[1..][k - 1] == s[k];
      DigitRunIs(s[1..], hex, k - 1);
    }
  }

  /** The rendering of any integer, sign included, reads back as that integer. */
  lemma IntRoundTrip(n: int)
    ensures ParseInt(IntToString(n)) == Some(n)
  {
    if n >= 0 {
      NatRoundTrip(n, "");
      assert NatToString(n) + "" == NatToString(n);
    } else {
      var d := NatToString(-n);
      assert ReadNumeral(d) == Some(-n) by {
        ReadDigits(d);
        NatToStringRoundTrip(-n);
      }
      NegatedRead(d, -n);
    }
  }

  /** A text made of decimal digits reads whole. */
  lemma ReadDigits(d: string)
    requires |d| > 0 && forall i :: 0 <= i < |d| ==> IsDigit(d[i])
    ensures ReadNumeral(d) == Some(DigitsValue(d))
  {
    assert !HexPrefixed(d) by {
      if |d| >= 2 {
        assert IsDigit(d[1]);
      }
    }
    DigitRunIs(d, false, |d|);
    assert d[..|d|] == d;
    DecimalNumeralValue(d);
  }

  /** A `-` in front negates what the rest reads as. */
  lemma NegatedRead(u: string, v: nat)
    requires ReadNumeral(u) == Some(v)
    ensures ParseInt("-" + u) == Some(-(v as int))
  {
    assert ("-" + u)[1..] == u;
    ReadAfterStart("-" + u, true, u);
  }

  /**
   * A text that starts with a digit, or with `-` and then `u`, is read
   * without trimming, and the digits come from the text itself or from `u`.
   */
  lemma ReadAfterStart(s: string, negative: bool, u: string)
    requires |s| > 0
    requires if negative then s[0] == '-' && u == s[1..] else IsDigit(s[0]) && u == s
    ensures ParseInt(s) == match ReadNumeral(u)
      case None => None
      case Some(v) => Some(if negative then -(v as int) else v)
  {
    assert TrimStart(s) == s by {
      assert !IsJsSpace(s[0]);
    }
  }

  /** Leading white space does not change what is read. */
  lemma SpaceIgnored(w: string, s: string)
    requires forall i :: 0 <= i < |w| ==> IsJsSpace(w[i])
    ensures ParseInt(w + s) == ParseInt(s)
  {
    TrimSpace(w, s);
  }

  lemma {:induction false} TrimSpace(w: string, s: string)
    requires forall i :: 0 <= i < |w| ==> IsJsSpace(w[i])
    ensures TrimStart(w + s) == TrimStart(s)
    decreases |w|
  {
    if w != [] {
      assert IsJsSpace(w[0]) && (w + s)[0] == w[0];
      assert TrimStart(w + s) == TrimStart((w + s)[1..]);
      assert (w + s)[1..] == w[1..] + s;
      assert forall i :: 0 <= i < |w[1..]| ==> w[1..][i] == w[i + 1];
      TrimSpace(w[1..], s);
    } else {
      assert w + s == s;
    }
  }

  /** A text whose first non-space character starts no numeral reads as NaN. */
  lemma NoDigitsIsNaN(s: string)
    requires var t := TrimStart(s);
      t == [] || (!IsDigit(t[0]) && t[0] != '-' && t[0] != '+')
    ensures ParseInt(s) == None
    ensures ParseIntOrZero(s) == 0
  {
  }

  /** A `0x` prefix reads the digits after it in base 16. */
  lemma HexPrefix(d: string)
    requires |d| > 0 && forall i :: 0 <= i < |d| ==> IsHexDigit(d[i])
    ensures ParseInt("0x" + d) == Some(NumeralValue(d, true))
  {
    var s := "0x" + d;
    assert HexPrefixed(s) && s[2..] == d + "";
    assert ReadNumeral(s) == Some(NumeralValue(d, true)) by {
      DigitRunOfNumeral(d, "", true);
      assert (d + "")[..|d|] == d;
    }
    ReadAfterStart(s, false, s);
  }
}
