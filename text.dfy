/**
 * String helpers shared by the configuration renderers: the JavaScript
 * `indexOf` search, decimal rendering of numbers, and a few character classes.
 */
module Text {

  /** `p` occurs in `s` at position `i`. */
  predicate OccursAt(s: string, p: string, i: int)
  {
    0 <= i && i + |p| <= |s| && s[i..i + |p|] == p
  }

  /**
   * `r` is what JavaScript's `s.indexOf(p, from)` returns: the least
   * position at or after `from` where `p` occurs, or -1 when there is none.
   */
  predicate IsIndexOf(s: string, p: string, from: nat, r: int)
  {
    if r == -1 then forall i :: from <= i <= |s| ==> !OccursAt(s, p, i)
    else from <= r && OccursAt(s, p, r) && forall i :: from <= i < r ==> !OccursAt(s, p, i)
  }

  /** The left-to-right scan `indexOf` performs. */
  function Scan(s: string, p: string, from: nat): (r: int)
    requires from <= |s|
    ensures -1 <= r <= |s| && IsIndexOf(s, p, from, r)
    decreases |s| - from
  {
    if from + |p| > |s| then -1
    else if s[from..from + |p|] == p then from
    else Scan(s, p, from + 1)
  }

  /** JavaScript `s.indexOf(p, from)`: the one value the scan can return. */
  function IndexOf(s: string, p: string, from: nat): (r: int)
    requires from <= |s|
    ensures IsIndexOf(s, p, from, r)
    ensures r == -1 || (from <= r && OccursAt(s, p, r))
  {
    var found := Scan(s, p, from);
    var r :| -1 <= r <= |s| && IsIndexOf(s, p, from, r);
    r
  }

  /** No occurrence is skipped: -1 means none at all, else none earlier. */
  lemma IndexOfLeast(s: string, p: string, from: nat)
    requires from <= |s|
    ensures IndexOf(s, p, from) == -1 ==> forall i :: from <= i ==> !OccursAt(s, p, i)
    ensures IndexOf(s, p, from) != -1 ==> forall i :: from <= i < IndexOf(s, p, from) ==> !OccursAt(s, p, i)
  {
  }

  /** `s.includes(p)` */
  predicate Contains(s: string, p: string)
  {
    IndexOf(s, p, 0) != -1
  }

  /** The characterisation of IndexOf pins its value down. */
  lemma IndexOfIsLeast(s: string, p: string, from: nat, r: int)
    requires from <= |s|
    requires r == -1 || (from <= r && OccursAt(s, p, r))
    requires r == -1 ==> forall i :: from <= i ==> !OccursAt(s, p, i)
    requires r != -1 ==> forall i :: from <= i < r ==> !OccursAt(s, p, i)
    ensures IndexOf(s, p, from) == r
  {
    var q := IndexOf(s, p, from);
    if q != -1 && r != -1 {
      assert !(q < r) && !(r < q);
    }
  }

  lemma ContainsIffOccurs(s: string, p: string)
    ensures Contains(s, p) <==> exists i :: OccursAt(s, p, i)
  {
    IndexOfLeast(s, p, 0);
    if IndexOf(s, p, 0) != -1 {
      assert OccursAt(s, p, IndexOf(s, p, 0));
    }
  }

  /** A text holds every piece it is built around. */
  lemma ContainsMiddle(a: string, p: string, b: string)
    ensures Contains(a + p + b, p)
  {
    var s := a + p + b;
    assert s[|a|..|a| + |p|] == p;
    assert OccursAt(s, p, |a|);
    ContainsIffOccurs(s, p);
  }

  /** No character of `p` other than the first equals `c`. */
  predicate OnlyAtStart(p: string, c: char)
  {
    forall k :: 1 <= k < |p| ==> p[k] != c
  }

  /**
   * An occurrence of `p`, in which `c` appears only first, ends at or
   * before any later `c` of the text.
   */
  lemma EndsBeforeNext(s: string, p: string, c: char, k: int, i: int)
    requires OccursAt(s, p, k) && OnlyAtStart(p, c)
    requires k < i < |s| && s[i] == c
    ensures k + |p| <= i
  {
    forall j | k < j < k + |p| ensures s[j] != c {
      assert s[j] == s[k..k + |p|][j - k];
    }
  }

  /** Replacing `s[i..e]` keeps an occurrence that ends before `i` where it was. */
  lemma OccursBeforeSplice(s: string, p: string, k: int, i: int, e: int, mid: string)
    requires OccursAt(s, p, k) && k + |p| <= i <= e <= |s|
    ensures OccursAt(s[..i] + mid + s[e..], p, k)
  {
    var r := s[..i] + mid + s[e..];
    assert r[k..k + |p|] == s[..i][k..k + |p|];
  }

  /** Replacing `s[i..e]` moves an occurrence that starts at or after `e` by the change in length. */
  lemma OccursAfterSplice(s: string, p: string, k: int, i: int, e: int, mid: string)
    requires OccursAt(s, p, k) && 0 <= i <= e <= k
    ensures OccursAt(s[..i] + mid + s[e..], p, i + |mid| + (k - e))
  {
    var r := s[..i] + mid + s[e..];
    var j := i + |mid| + (k - e);
    assert r[j..j + |p|] == s[e..][k - e..k - e + |p|];
  }

  /**
   * Inserting text at a position that holds `c` (or at the end) keeps every
   * text without `c` that occurred before.
   */
  lemma ContainsAfterInsert(s: string, p: string, e: nat, ins: string, c: char)
    requires Contains(s, p) && e <= |s| && (e == |s| || s[e] == c)
    requires forall j :: 0 <= j < |p| ==> p[j] != c
    ensures Contains(s[..e] + ins + s[e..], p)
  {
    var k := IndexOf(s, p, 0);
    var r := s[..e] + ins + s[e..];
    if k + |p| <= e {
      OccursBeforeSplice(s, p, k, e, e, ins);
      ContainsIffOccurs(r, p);
    } else if e <= k {
      OccursAfterSplice(s, p, k, e, e, ins);
      ContainsIffOccurs(r, p);
    }
  }

  /** `c` does not occur in `s`. */
  predicate NoChar(s: string, c: char)
  {
    forall i :: 0 <= i < |s| ==> s[i] != c
  }

  /** Occurrences in the tail `b` of `a + b` are those of `b`, shifted. */
  lemma ShiftOccurs(a: string, b: string, p: string)
    ensures forall i :: |a| <= i ==> (OccursAt(a + b, p, i) <==> OccursAt(b, p, i - |a|))
  {
    var s := a + b;
    forall i | |a| <= i ensures OccursAt(s, p, i) <==> OccursAt(b, p, i - |a|) {
      if i + |p| <= |s| {
        assert s[i..i + |p|] == b[i - |a|..i - |a| + |p|];
      }
    }
  }

  /** Searching the tail `b` of `a + b` from inside it. */
  lemma IndexOfShift(a: string, b: string, p: string, from: nat)
    requires |a| <= from <= |a| + |b|
    ensures IndexOf(a + b, p, from) ==
      (if IndexOf(b, p, from - |a|) == -1 then -1 else |a| + IndexOf(b, p, from - |a|))
  {
    ShiftOccurs(a, b, p);
    IndexOfLeast(b, p, from - |a|);
    var q := IndexOf(b, p, from - |a|);
    if q == -1 {
      IndexOfIsLeast(a + b, p, from, -1);
    } else {
      IndexOfIsLeast(a + b, p, from, |a| + q);
    }
  }

  /** Searching from `a` is searching the suffix from `a`, shifted. */
  lemma IndexOfSuffix(s: string, p: string, a: nat)
    requires a <= |s|
    ensures IndexOf(s, p, a) == (if IndexOf(s[a..], p, 0) == -1 then -1 else a + IndexOf(s[a..], p, 0))
  {
    var t := s[a..];
    forall i | a <= i ensures OccursAt(s, p, i) <==> OccursAt(t, p, i - a) {
      if i + |p| <= |s| {
        assert s[i..i + |p|] == t[i - a..i - a + |p|];
      }
    }
    IndexOfLeast(t, p, 0);
    var q := IndexOf(t, p, 0);
    if q == -1 {
      IndexOfIsLeast(s, p, a, -1);
    } else {
      IndexOfIsLeast(s, p, a, a + q);
    }
  }

  /** When nothing occurs in the first `|a|` positions, the search lands in `b`. */
  lemma IndexOfAfterPrefix(a: string, b: string, p: string)
    requires forall i :: 0 <= i < |a| ==> !OccursAt(a + b, p, i)
    ensures IndexOf(a + b, p, 0) == (if IndexOf(b, p, 0) == -1 then -1 else |a| + IndexOf(b, p, 0))
  {
    ShiftOccurs(a, b, p);
    IndexOfLeast(b, p, 0);
    var q := IndexOf(b, p, 0);
    if q == -1 {
      IndexOfIsLeast(a + b, p, 0, -1);
    } else {
      IndexOfIsLeast(a + b, p, 0, |a| + q);
    }
  }

  /**
   * Searching `a + b` for `p` when `p` does not occur in `a` and cannot
   * straddle the boundary because `b` starts with a character that `p`
   * holds only at its start (or not at all).
   */
  lemma IndexOfConcat(a: string, b: string, p: string)
    requires |p| > 0 && |b| > 0 && OnlyAtStart(p, b[0])
    requires IndexOf(a, p, 0) == -1
    ensures IndexOf(a + b, p, 0) == (if IndexOf(b, p, 0) == -1 then -1 else |a| + IndexOf(b, p, 0))
  {
    NoStraddle(a, b, p);
    IndexOfAfterPrefix(a, b, p);
  }

  lemma NoStraddle(a: string, b: string, p: string)
    requires |p| > 0 && |b| > 0 && OnlyAtStart(p, b[0])
    requires IndexOf(a, p, 0) == -1
    ensures forall i :: 0 <= i < |a| ==> !OccursAt(a + b, p, i)
  {
    IndexOfLeast(a, p, 0);
    var s := a + b;
    forall i | 0 <= i < |a| ensures !OccursAt(s, p, i) {
      if i + |p| <= |a| {
        assert s[i..i + |p|] == a[i..i + |p|];
        assert !OccursAt(a, p, i);
      } else if i + |p| <= |s| {
        var k := |a| - i;
        assert s[i..i + |p|][k] == b[0] != p[k];
      }
    }
  }

  /**
   * A pattern without a newline cannot start in `x` or on the newline of
   * `x + "\n" + y` unless it already occurs in `x`.
   */
  lemma NewlineBarrier(x: string, y: string, p: string)
    requires |p| > 0 && NoChar(p, '\n') && IndexOf(x, p, 0) == -1
    ensures forall i :: 0 <= i <= |x| ==> !OccursAt(x + "\n" + y, p, i)
    ensures IndexOf(x + "\n" + y, p, 0) ==
      (if IndexOf(y, p, 0) == -1 then -1 else |x| + 1 + IndexOf(y, p, 0))
  {
    IndexOfLeast(x, p, 0);
    var s := x + "\n" + y;
    forall i | 0 <= i <= |x| ensures !OccursAt(s, p, i) {
      if i + |p| <= |x| {
        assert s[i..i + |p|] == x[i..i + |p|];
        assert !OccursAt(x, p, i);
      } else if i + |p| <= |s| {
        assert s[i..i + |p|][|x| - i] == '\n' != p[|x| - i];
      }
    }
    assert s == (x + "\n") + y;
    IndexOfAfterPrefix(x + "\n", y, p);
  }

  /** Two texts that agree on a prefix agree on the occurrences inside it. */
  lemma PrefixAgree(s: string, t: string, p: string, n: nat, m: nat)
    requires n <= |s| && n <= |t| && s[..n] == t[..n] && m + |p| <= n
    requires forall i :: 0 <= i < m ==> !OccursAt(s, p, i)
    ensures forall i :: 0 <= i < m ==> !OccursAt(t, p, i)
  {
    forall i | 0 <= i < m ensures !OccursAt(t, p, i) {
      assert s[i..i + |p|] == s[..n][i..i + |p|] == t[..n][i..i + |p|] == t[i..i + |p|];
      assert !OccursAt(s, p, i);
    }
  }

  /** A pattern found at the very start is found first. */
  lemma IndexOfAtStart(s: string, p: string)
    requires OccursAt(s, p, 0)
    ensures IndexOf(s, p, 0) == 0
  {
  }

  /** Nothing is found in a prefix of `s` that ends before the first occurrence. */
  lemma IndexOfPrefixBefore(s: string, p: string, k: nat)
    requires k <= |s| && |p| > 0
    requires IndexOf(s, p, 0) == -1 || k <= IndexOf(s, p, 0)
    ensures IndexOf(s[..k], p, 0) == -1
    ensures forall i :: 0 <= i < k ==> !OccursAt(s, p, i)
  {
    IndexOfLeast(s, p, 0);
    forall i | 0 <= i ensures !OccursAt(s[..k], p, i) {
      if i + |p| <= k {
        assert s[..k][i..i + |p|] == s[i..i + |p|];
        assert !OccursAt(s, p, i);
      }
    }
    IndexOfIsLeast(s[..k], p, 0, -1);
  }

  /** A single character is found exactly where it first is. */
  lemma CharIndexOf(s: string, c: char, from: nat)
    requires from <= |s|
    ensures IndexOf(s, [c], from) == -1 <==> forall i :: from <= i < |s| ==> s[i] != c
    ensures IndexOf(s, [c], from) != -1 ==>
      s[IndexOf(s, [c], from)] == c &&
      forall i :: from <= i < IndexOf(s, [c], from) ==> s[i] != c
  {
    IndexOfLeast(s, [c], from);
    forall i | from <= i < |s| ensures OccursAt(s, [c], i) <==> s[i] == c {
      assert s[i..i + 1] == [s[i]];
    }
    var r := IndexOf(s, [c], from);
    if r != -1 {
      assert s[r..r + 1] == [c];
    }
  }

  /** Decimal digit character of `d`. */
  function DigitChar(d: nat): (c: char)
    requires d < 10
    ensures '0' <= c <= '9'
  {
    ['0', '1', '2', '3', '4', '5', '6', '7', '8', '9'][d]
  }

  predicate IsDigit(c: char) { '0' <= c <= '9' }

  function DigitValue(c: char): (d: nat)
    requires IsDigit(c)
    ensures d < 10
  {
    (c as int) - ('0' as int)
  }

  lemma DigitRoundTrip(d: nat)
    requires d < 10
    ensures DigitValue(DigitChar(d)) == d
  {
  }

  /** Decimal rendering of a natural number, as `${n}` does. */
  function NatToString(n: nat): (r: string)
    ensures |r| > 0 && forall i :: 0 <= i < |r| ==> IsDigit(r[i])
    decreases n
  {
    if n < 10 then [DigitChar(n)] else NatToString(n / 10) + [DigitChar(n % 10)]
  }

  /** Value of a non-empty run of decimal digits. */
  function DigitsValue(s: string): (v: nat)
    requires forall i :: 0 <= i < |s| ==> IsDigit(s[i])
    decreases |s|
  {
    if s == [] then 0 else 10 * DigitsValue(s[..|s| - 1]) + DigitValue(s[|s| - 1])
  }

  lemma {:induction false} NatToStringRoundTrip(n: nat)
    ensures DigitsValue(NatToString(n)) == n
    decreases n
  {
    var r := NatToString(n);
    if n < 10 {
      DigitRoundTrip(n);
    } else {
      NatToStringRoundTrip(n / 10);
      DigitRoundTrip(n % 10);
      assert r[..|r| - 1] == NatToString(n / 10);
    }
  }

  /** Decimal rendering of an integer, with a leading `-` when negative. */
  function IntToString(n: int): (r: string)
    ensures |r| > 0
    ensures n < 0 <==> r[0] == '-'
  {
    if n < 0 then "-" + NatToString(-n) else NatToString(n)
  }

  /** Characters matched by `\s` in a JavaScript regular expression. */
  predicate IsJsSpace(c: char)
  {
    c == ' ' || c == '\t' || c == '\n' || c == '\r' || c == '\U{B}' || c == '\U{C}'
    || c == '\U{A0}' || c == '\U{1680}' || ('\U{2000}' <= c <= '\U{200A}')
    || c == '\U{2028}' || c == '\U{2029}' || c == '\U{202F}' || c == '\U{205F}'
    || c == '\U{3000}' || c == '\U{FEFF}'
  }

  predicate IsAsciiLetter(c: char) { ('a' <= c <= 'z') || ('A' <= c <= 'Z') }

  /** ASCII upper-casing of one character; other characters are unchanged. */
  function AsciiUpper(c: char): (u: char)
    ensures 'a' <= c <= 'z' ==> 'A' <= u <= 'Z'
    ensures !('a' <= c <= 'z') ==> u == c
  {
    if 'a' <= c <= 'z' then (c as int - 32) as char else c
  }

  /** `s` has `p` at `j`, letters compared without regard to ASCII case. */
  predicate CaselessAt(s: string, p: string, j: nat)
  {
    j + |p| <= |s| && forall k :: 0 <= k < |p| ==> AsciiUpper(s[j + k]) == AsciiUpper(p[k])
  }

  /** Number of occurrences of `c` in `s`. */
  function CountChar(s: string, c: char): (n: nat)
    ensures n <= |s|
  {
    if s == [] then 0 else (if s[0] == c then 1 else 0) + CountChar(s[1..], c)
  }

  /** `xs.join(sep)` */
  function Join(xs: seq<string>, sep: string): string
  {
    if xs == [] then "" else if |xs| == 1 then xs[0] else xs[0] + sep + Join(xs[1..], sep)
  }

  predicate StartsWith(s: string, p: string)
  {
    |p| <= |s| && s[..|p|] == p
  }

  lemma StartsWithConcat(p: string, rest: string)
    ensures StartsWith(p + rest, p)
  {
    assert (p + rest)[..|p|] == p;
  }

  /** The concatenation of `xs`, in order (`xs.join('')`). */
  function Concat(xs: seq<string>): string
  {
    if xs == [] then "" else xs[0] + Concat(xs[1..])
  }

  lemma {:induction false} ConcatAppend(xs: seq<string>, ys: seq<string>)
    ensures Concat(xs + ys) == Concat(xs) + Concat(ys)
    decreases |xs|
  {
    if xs == [] {
      assert xs + ys == ys;
    } else {
      assert (xs + ys)[1..] == xs[1..] + ys;
      ConcatAppend(xs[1..], ys);
    }
  }
  /** The pieces `f(x)` of the elements of `xs`, concatenated in list order. */
  function ConcatMap<T>(xs: seq<T>, f: T -> string): string
  {
    if xs == [] then "" else ConcatMap(xs[..|xs| - 1], f) + f(xs[|xs| - 1])
  }

  lemma {:induction false} ConcatMapAppend<T>(xs: seq<T>, ys: seq<T>, f: T -> string)
    ensures ConcatMap(xs + ys, f) == ConcatMap(xs, f) + ConcatMap(ys, f)
    decreases |ys|
  {
    if ys == [] {
      assert xs + ys == xs;
    } else {
      var zs := xs + ys;
      assert zs[..|zs| - 1] == xs + ys[..|ys| - 1];
      ConcatMapAppend(xs, ys[..|ys| - 1], f);
    }
  }

  /** One more element appends its piece: the step of a rendering loop. */
  lemma ConcatMapStep<T>(xs: seq<T>, i: nat, f: T -> string)
    requires i < |xs|
    ensures ConcatMap(xs[..i + 1], f) == ConcatMap(xs[..i], f) + f(xs[i])
  {
    assert xs[..i + 1][..i] == xs[..i];
  }

  /** Each element's piece sits between the pieces of the elements before it and after it. */
  lemma ConcatMapAt<T>(xs: seq<T>, i: nat, f: T -> string)
    requires i < |xs|
    ensures ConcatMap(xs, f) == ConcatMap(xs[..i], f) + f(xs[i]) + ConcatMap(xs[i + 1..], f)
  {
    assert xs == xs[..i + 1] + xs[i + 1..];
    ConcatMapAppend(xs[..i + 1], xs[i + 1..], f);
    ConcatMapStep(xs, i, f);
  }

  /** Text added after a piece keeps it. */
  lemma ContainsExtend(s: string, t: string, p: string)
    requires Contains(s, p)
    ensures Contains(s + t, p)
  {
    ContainsIffOccurs(s, p);
    var i :| OccursAt(s, p, i);
    assert (s + t)[i..i + |p|] == s[i..i + |p|];
    assert OccursAt(s + t, p, i);
    ContainsIffOccurs(s + t, p);
  }

  /** Text added before a piece keeps it. */
  lemma ContainsPrefixed(a: string, s: string, p: string)
    requires Contains(s, p)
    ensures Contains(a + s, p)
  {
    ContainsIffOccurs(s, p);
    var i :| OccursAt(s, p, i);
    assert (a + s)[|a| + i..|a| + i + |p|] == s[i..i + |p|];
    assert OccursAt(a + s, p, |a| + i);
    ContainsIffOccurs(a + s, p);
  }

  /** A text ends with its last piece. */
  lemma ContainsStart(p: string, b: string)
    ensures Contains(p + b, p)
  {
    assert (p + b)[0..|p|] == p;
    assert OccursAt(p + b, p, 0);
    ContainsIffOccurs(p + b, p);
  }

  lemma ContainsEnd(a: string, p: string)
    ensures Contains(a + p, p)
  {
    assert (a + p)[|a|..|a| + |p|] == p;
    assert OccursAt(a + p, p, |a|);
    ContainsIffOccurs(a + p, p);
  }

  /** Every element's piece is in the concatenation of all of them. */
  lemma ConcatMapContains<T>(xs: seq<T>, i: nat, f: T -> string)
    requires i < |xs|
    ensures Contains(ConcatMap(xs, f), f(xs[i]))
  {
    ConcatMapAt(xs, i, f);
    ContainsEnd(ConcatMap(xs[..i], f), f(xs[i]));
    ContainsExtend(ConcatMap(xs[..i], f) + f(xs[i]), ConcatMap(xs[i + 1..], f), f(xs[i]));
  }

  /** A piece of a piece of a text is a piece of the text. */
  lemma ContainsTrans(s: string, t: string, p: string)
    requires Contains(s, t) && Contains(t, p)
    ensures Contains(s, p)
  {
    ContainsIffOccurs(s, t);
    ContainsIffOccurs(t, p);
    var i :| OccursAt(s, t, i);
    var j :| OccursAt(t, p, j);
    forall k | 0 <= k < |p| ensures s[i + j + k] == p[k] {
      assert s[i + j + k] == s[i..i + |t|][j + k] == t[j + k] == t[j..j + |p|][k];
    }
    assert OccursAt(s, p, i + j);
    ContainsIffOccurs(s, p);
  }
}
