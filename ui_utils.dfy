/**
 * The formatting and validation helpers of the web front end
 * (pbx/lib/utils.ts): call durations as `HH:MM:SS`, North American phone
 * numbers, the colour class of a call disposition, and the SIP user name
 * and host name checks. The regular expressions of the checks are given
 * their meaning as predicates over the string and the checks are proved to
 * accept exactly what those predicates describe.
 */
module UiUtils {
  import opened Text
  import opened Records
  import opened Sections
  import Cdrs

  // ---------------------------------------------------------------------
  // formatDuration
  // ---------------------------------------------------------------------

  /** `padStart(2, "0")`: zeros in front up to two characters. */
  function PadTwo(s: string): (r: string)
    ensures |r| == if |s| >= 2 then |s| else 2
    ensures r[|r| - |s|..] == s && forall i :: 0 <= i < |r| - |s| ==> r[i] == '0'
  {
    if |s| >= 2 then s else if |s| == 1 then "0" + s else "00"
  }

  /** `formatDuration`: hours, minutes and seconds, each at least two digits, joined by `:`. */
  function FormatDuration(seconds: nat): string
  {
    var hours := seconds / 3600;
    var minutes := (seconds % 3600) / 60;
    var secs := seconds % 60;
    Join([PadTwo(NatToString(hours)), PadTwo(NatToString(minutes)), PadTwo(NatToString(secs))], ":")
  }

  predicate AllDigits(s: string)
  {
    forall i :: 0 <= i < |s| ==> IsDigit(s[i])
  }

  /** A duration text: a run of digits, then two groups of two digits, each after a `:`. */
  predicate DurationShape(r: string)
  {
    |r| >= 8 && r[|r| - 3] == ':' && r[|r| - 6] == ':' &&
    AllDigits(r[..|r| - 6]) && AllDigits(r[|r| - 5..|r| - 3]) && AllDigits(r[|r| - 2..])
  }

  /** Reading a duration text back: hours, minutes and seconds as numbers. */
  function DurationFields(r: string): (f: (nat, nat, nat))
    requires DurationShape(r)
  {
    (DigitsValue(r[..|r| - 6]), DigitsValue(r[|r| - 5..|r| - 3]), DigitsValue(r[|r| - 2..]))
  }

  /** A leading zero does not change the value of a digit run. */
  lemma {:induction false} LeadingZero(s: string)
    requires AllDigits(s)
    ensures AllDigits("0" + s) && DigitsValue("0" + s) == DigitsValue(s)
    decreases |s|
  {
    var z := "0" + s;
    if s != [] {
      LeadingZero(s[..|s| - 1]);
      assert z[..|z| - 1] == "0" + s[..|s| - 1];
    }
  }

  /** Padding a rendered number keeps its value. */
  lemma PadTwoValue(n: nat)
    ensures AllDigits(PadTwo(NatToString(n))) && DigitsValue(PadTwo(NatToString(n))) == n
  {
    var s := NatToString(n);
    NatToStringRoundTrip(n);
    if |s| < 2 {
      LeadingZero(s);
    }
  }

  /**
   * The duration text reads back as hours `seconds / 3600`, minutes and
   * seconds below 60, which add up to the seconds given.
   */
  lemma DurationRoundTrip(seconds: nat)
    ensures DurationShape(FormatDuration(seconds))
    ensures var (h, m, s) := DurationFields(FormatDuration(seconds));
      h == seconds / 3600 && m < 60 && s < 60 && h * 3600 + m * 60 + s == seconds
  {
    var hs := PadTwo(NatToString(seconds / 3600));
    var ms := PadTwo(NatToString((seconds % 3600) / 60));
    var ss := PadTwo(NatToString(seconds % 60));
    PadTwoValue(seconds / 3600);
    PadTwoValue((seconds % 3600) / 60);
    PadTwoValue(seconds % 60);
    DigitsBelow(ms, (seconds % 3600) / 60);
    DigitsBelow(ss, seconds % 60);
    JoinThree(hs, ms, ss, ":");
    DurationPieces(hs, ms, ss);
    ClockArithmetic(seconds);
  }

  lemma JoinThree(a: string, b: string, c: string, sep: string)
    ensures Join([a, b, c], sep) == a + sep + b + sep + c
  {
    assert [a, b, c][1..] == [b, c];
    assert [b, c][1..] == [c];
    assert Join([c], sep) == c;
    assert Join([b, c], sep) == b + sep + c;
  }

  /** The three groups of a duration text are where the shape says. */
  lemma DurationPieces(hs: string, ms: string, ss: string)
    requires |ms| == 2 && |ss| == 2 && AllDigits(hs) && AllDigits(ms) && AllDigits(ss) && |hs| >= 2
    ensures var r := hs + ":" + ms + ":" + ss;
      DurationShape(r) && r[..|r| - 6] == hs && r[|r| - 5..|r| - 3] == ms && r[|r| - 2..] == ss
  {
    var r := hs + ":" + ms + ":" + ss;
    assert r[..|r| - 6] == hs;
    assert r[|r| - 5..|r| - 3] == ms;
    assert r[|r| - 2..] == ss;
  }

  /** Hours, minutes and seconds put back together give the seconds. */
  lemma ClockArithmetic(seconds: nat)
    ensures (seconds % 3600) / 60 < 60
    ensures (seconds / 3600) * 3600 + ((seconds % 3600) / 60) * 60 + seconds % 60 == seconds
  {
    var h, r := seconds / 3600, seconds % 3600;
    var m, t := r / 60, r % 60;
    assert seconds == 60 * (60 * h + m) + t;
    ModUnique(seconds, 60 * h + m, t);
  }

  /** Writing `n` as `60 * a + t` with `t` below 60 fixes `t` as `n % 60`. */
  lemma ModUnique(n: int, a: int, t: int)
    requires n == 60 * a + t && 0 <= t < 60
    ensures n % 60 == t
  {
  }

  /** A number below 60 renders in at most two digits, so padding gives exactly two. */
  lemma DigitsBelow(padded: string, n: nat)
    requires n < 60 && padded == PadTwo(NatToString(n))
    ensures |padded| == 2
  {
    if n >= 10 {
      assert NatToString(n) == NatToString(n / 10) + [DigitChar(n % 10)];
    }
  }

  /** Different durations never share a text. */
  lemma DurationInjective(a: nat, b: nat)
    requires FormatDuration(a) == FormatDuration(b)
    ensures a == b
  {
    DurationRoundTrip(a);
    DurationRoundTrip(b);
  }

  // ---------------------------------------------------------------------
  // formatPhoneNumber
  // ---------------------------------------------------------------------

  /** `replace(/\D/g, "")`: the decimal digits of `s`, in order. */
  function Digits(s: string): (r: string)
    ensures AllDigits(r) && |r| <= |s|
  {
    if s == [] then []
    else Digits(s[..|s| - 1]) + (if IsDigit(s[|s| - 1]) then [s[|s| - 1]] else [])
  }

  lemma {:induction false} DigitsConcat(a: string, b: string)
    ensures Digits(a + b) == Digits(a) + Digits(b)
    decreases |b|
  {
    if b != [] {
      var ab := a + b;
      assert ab[..|ab| - 1] == a + b[..|b| - 1];
      var last := b[|b| - 1];
      assert ab[|ab| - 1] == last;
      var tail := if IsDigit(last) then [last] else [];
      DigitsConcat(a, b[..|b| - 1]);
      assert Digits(ab) == Digits(a + b[..|b| - 1]) + tail;
      assert Digits(b) == Digits(b[..|b| - 1]) + tail;
    } else {
      assert a + b == a;
    }
  }

  lemma {:induction false} DigitsOfDigits(s: string)
    requires AllDigits(s)
    ensures Digits(s) == s
    decreases |s|
  {
    if s != [] {
      DigitsOfDigits(s[..|s| - 1]);
    }
  }

  /** `formatPhoneNumber`: `(AAA) BBB-CCCC` for ten digits, `+1 (AAA) BBB-CCCC` for eleven starting with 1. */
  function FormatPhoneNumber(phone: string): (r: string)
    ensures phone == "" ==> r == ""
    ensures phone != "" && |Digits(phone)| == 10 ==> |r| == 14
    ensures phone != "" && |Digits(phone)| == 11 && Digits(phone)[0] == '1' ==> |r| == 17
    ensures phone != "" && |Digits(phone)| != 10 && !(|Digits(phone)| == 11 && Digits(phone)[0] == '1')
      ==> r == phone
  {
    if phone == "" then ""
    else
      var cleaned := Digits(phone);
      if |cleaned| == 10 then
        "(" + cleaned[..3] + ") " + cleaned[3..6] + "-" + cleaned[6..]
      else if |cleaned| == 11 && cleaned[0] == '1' then
        "+1 (" + cleaned[1..4] + ") " + cleaned[4..7] + "-" + cleaned[7..]
      else phone
  }

  /** Formatting adds and drops no digit: the number dialled is the same. */
  lemma PhoneKeepsDigits(phone: string)
    ensures Digits(FormatPhoneNumber(phone)) == Digits(phone)
  {
    var c := Digits(phone);
    if phone != "" && |c| == 10 {
      TenDigitsKept(c);
    } else if phone != "" && |c| == 11 && c[0] == '1' {
      ElevenDigitsKept(c);
    }
  }

  lemma TenDigitsKept(c: string)
    requires AllDigits(c) && |c| == 10
    ensures Digits("(" + c[..3] + ") " + c[3..6] + "-" + c[6..]) == c
  {
    var a, b, d := c[..3], c[3..6], c[6..];
    DigitsOfDigits(a);
    DigitsOfDigits(b);
    DigitsOfDigits(d);
    DigitsConcat("(", a);
    DigitsConcat("(" + a, ") ");
    DigitsConcat("(" + a + ") ", b);
    DigitsConcat("(" + a + ") " + b, "-");
    DigitsConcat("(" + a + ") " + b + "-", d);
    assert a + b + d == c;
  }

  lemma ElevenDigitsKept(c: string)
    requires AllDigits(c) && |c| == 11 && c[0] == '1'
    ensures Digits("+1 (" + c[1..4] + ") " + c[4..7] + "-" + c[7..]) == c
  {
    var a, b, d := c[1..4], c[4..7], c[7..];
    DigitsOfDigits(a);
    DigitsOfDigits(b);
    DigitsOfDigits(d);
    DigitsConcat("+1 (", a);
    DigitsConcat("+1 (" + a, ") ");
    DigitsConcat("+1 (" + a + ") ", b);
    DigitsConcat("+1 (" + a + ") " + b, "-");
    DigitsConcat("+1 (" + a + ") " + b + "-", d);
    assert Digits("+1 (") == "1" by {
      assert "+1 ("[..3] == "+1 ";
      assert "+1 "[..2] == "+1";
      assert "+1"[..1] == "+";
    }
    assert "1" + a + b + d == c;
  }

  /** Formatting a formatted number changes nothing. */
  lemma PhoneIdempotent(phone: string)
    ensures FormatPhoneNumber(FormatPhoneNumber(phone)) == FormatPhoneNumber(phone)
  {
    var r := FormatPhoneNumber(phone);
    PhoneKeepsDigits(phone);
    if r != phone {
      assert r != "";
    }
  }

  // ---------------------------------------------------------------------
  // getCallStatusColor
  // ---------------------------------------------------------------------

  /** `toUpperCase`, on ASCII letters. */
  function Upper(s: string): (u: string)
    ensures |u| == |s| && forall i :: 0 <= i < |s| ==> u[i] == AsciiUpper(s[i])
  {
    seq(|s|, i requires 0 <= i < |s| => AsciiUpper(s[i]))
  }

  /** The colour family of each class string. */
  datatype StatusColor = Green | Yellow | Orange | Red | Purple | Gray

  /** The colour a disposition is shown in; a missing disposition is gray. */
  function ColorOf(disposition: Option<string>): StatusColor
  {
    if disposition.None? then Gray
    else
      var d := Upper(disposition.value);
      if d == "ANSWERED" then Green
      else if d == "NO ANSWER" || d == "NOANSWER" then Yellow
      else if d == "BUSY" then Orange
      else if d == "FAILED" then Red
      else if d == "CONGESTION" then Purple
      else Gray
  }

  function Hue(c: StatusColor): (h: string)
    ensures |h| >= 3
  {
    match c
    case Green => "green"
    case Yellow => "yellow"
    case Orange => "orange"
    case Red => "red"
    case Purple => "purple"
    case Gray => "gray"
  }

  /** The Tailwind classes: light and dark background and text; gray's dark background is 800. */
  function ClassName(c: StatusColor): string
  {
    var h := Hue(c);
    "bg-" + h + "-100 text-" + h + "-800 dark:bg-" + h + (if c == Gray then "-800" else "-900")
      + " dark:text-" + h + "-100"
  }

  /**
   * `getCallStatusColor`: the class string of one colour, picked by the
   * upper-cased disposition; unknown and missing dispositions are gray.
   */
  function GetCallStatusColor(disposition: Option<string>): (r: string)
    ensures forall c :: r == ClassName(c) <==> c == ColorOf(disposition)
    ensures r == ClassName(Green) <==> disposition.Some? && Upper(disposition.value) == "ANSWERED"
    ensures r == ClassName(Yellow) <==>
      disposition.Some? && (Upper(disposition.value) == "NO ANSWER" || Upper(disposition.value) == "NOANSWER")
    ensures r == ClassName(Orange) <==> disposition.Some? && Upper(disposition.value) == "BUSY"
    ensures r == ClassName(Red) <==> disposition.Some? && Upper(disposition.value) == "FAILED"
    ensures r == ClassName(Purple) <==> disposition.Some? && Upper(disposition.value) == "CONGESTION"
    ensures r == ClassName(Gray) <==>
      (disposition.None? ||
       Upper(disposition.value) !in ["ANSWERED", "NO ANSWER", "NOANSWER", "BUSY", "FAILED", "CONGESTION"])
  {
    ClassNamesOnly(ColorOf(disposition));
    ClassName(ColorOf(disposition))
  }

  /** A class string names exactly one colour, by ClassNamesDistinct. */
  lemma ClassNamesOnly(a: StatusColor)
    ensures forall c :: ClassName(a) == ClassName(c) <==> c == a
  {
    forall c | c != a ensures ClassName(a) != ClassName(c) {
      ClassNamesDistinct(a, c);
    }
  }

  /** Dispositions that differ only in the case of letters get the same colour. */
  lemma ColorIgnoresCase(a: string, b: string)
    requires |a| == |b| && forall i :: 0 <= i < |a| ==> AsciiUpper(a[i]) == AsciiUpper(b[i])
    ensures ColorOf(Some(a)) == ColorOf(Some(b))
  {
    assert Upper(a) == Upper(b);
  }

  /** Both spellings of "no answer", and only they, are yellow. */
  lemma NoAnswerSpellings(d: string)
    ensures ColorOf(Some(d)) == Yellow <==> Upper(d) == "NO ANSWER" || Upper(d) == "NOANSWER"
  {
  }

  /** Anything but the five known dispositions, and a missing one, is gray. */
  lemma UnknownIsGray(d: Option<string>)
    ensures ColorOf(d) == Gray <==>
      (d.None? || Upper(d.value) !in ["ANSWERED", "NO ANSWER", "NOANSWER", "BUSY", "FAILED", "CONGESTION"])
  {
  }

  /** Different colours give different class strings. */
  lemma ClassNamesDistinct(a: StatusColor, b: StatusColor)
    requires a != b
    ensures ClassName(a) != ClassName(b)
  {
    ClassNameKey(a);
    ClassNameKey(b);
  }

  /** The fourth and sixth characters of a class string are the first and third of its hue. */
  lemma ClassNameKey(c: StatusColor)
    ensures ClassName(c)[3] == Hue(c)[0] && ClassName(c)[5] == Hue(c)[2]
  {
    var h := Hue(c);
    var rest := "-100 text-" + h + "-800 dark:bg-" + h + (if c == Gray then "-800" else "-900")
      + " dark:text-" + h + "-100";
    assert ClassName(c) == "bg-" + h + rest;
  }

  /** A text without lower-case letters is its own upper case. */
  lemma UpperOfUpper(s: string)
    requires forall i :: 0 <= i < |s| ==> !('a' <= s[i] <= 'z')
    ensures Upper(s) == s
  {
  }

  function BucketColor(b: Cdrs.Bucket): StatusColor
  {
    match b
    case Answered => Green
    case NoAnswer => Yellow
    case Busy => Orange
    case Failed => Red
  }

  /**
   * The list colours agree with the daily counts: each disposition the
   * counts put in a bucket is shown in that bucket's colour.
   */
  lemma BucketsAgreeWithColors(d: string)
    requires Cdrs.BucketOf(d).Some?
    ensures ColorOf(Some(d)) == BucketColor(Cdrs.BucketOf(d).value)
  {
    UpperOfUpper(d);
  }

  // ---------------------------------------------------------------------
  // isValidSipUsername, isValidHostname
  // ---------------------------------------------------------------------

  /** `[a-zA-Z0-9_.-]` */
  predicate SipChar(c: char) { IsAsciiLetter(c) || IsDigit(c) || c == '_' || c == '.' || c == '-' }

  /** `[a-zA-Z0-9.-]` */
  predicate HostChar(c: char) { IsAsciiLetter(c) || IsDigit(c) || c == '.' || c == '-' }

  /** `/^[a-zA-Z0-9_.-]+$/`, scanned from the left. */
  function IsValidSipUsername(username: string): (b: bool)
    ensures b <==> |username| > 0 && forall i :: 0 <= i < |username| ==> SipChar(username[i])
  {
    |username| > 0 && SipRun(username)
  }

  function SipRun(s: string): (b: bool)
    ensures b <==> forall i :: 0 <= i < |s| ==> SipChar(s[i])
  {
    if s == [] then true
    else
      assert forall i :: 1 <= i < |s| ==> s[i] == s[1..][i - 1];
      SipChar(s[0]) && SipRun(s[1..])
  }

  /** An accepted user name can sit in a configuration line: no `[`, no line break, no `=`. */
  lemma UsernameIsConfigSafe(username: string)
    requires IsValidSipUsername(username)
    ensures Plain(username) && NoChar(username, '\n') && NoChar(username, '=')
  {
  }

  predicate AllHostChars(s: string) { forall i :: 0 <= i < |s| ==> HostChar(s[i]) }
  predicate AllLetters(s: string) { forall i :: 0 <= i < |s| ==> IsAsciiLetter(s[i]) }

  /** `/^[a-zA-Z0-9.-]+\.[a-zA-Z]{2,}$/` matches with its `\.` at `k`. */
  predicate NameSplit(s: string, k: int)
  {
    1 <= k && k + 3 <= |s| && s[k] == '.' && AllHostChars(s[..k]) && AllLetters(s[k + 1..])
  }

  ghost predicate MatchesDottedName(s: string) { exists k :: NameSplit(s, k) }

  /** `\d{1,3}` */
  predicate Octet(s: string) { 1 <= |s| <= 3 && AllDigits(s) }

  /** `/^(\d{1,3}\.){3}\d{1,3}$/` matches with its three dots at `i`, `j` and `k`. */
  predicate QuadSplit(s: string, i: int, j: int, k: int)
  {
    0 < i < j < k < |s| && s[i] == '.' && s[j] == '.' && s[k] == '.' &&
    Octet(s[..i]) && Octet(s[i + 1..j]) && Octet(s[j + 1..k]) && Octet(s[k + 1..])
  }

  ghost predicate MatchesDottedQuad(s: string) { exists i, j, k :: QuadSplit(s, i, j, k) }

  /** The last position of `c` in `s`, or -1. */
  function LastIndex(s: string, c: char): (k: int)
    ensures -1 <= k < |s|
    ensures k >= 0 ==> s[k] == c
    ensures forall j :: k < j < |s| ==> s[j] != c
  {
    if s == [] then -1
    else if s[|s| - 1] == c then |s| - 1
    else LastIndex(s[..|s| - 1], c)
  }

  /** The first position of `c` at or after `from`, or -1. */
  function NextIndex(s: string, c: char, from: nat): (k: int)
    ensures k == -1 || (from <= k < |s| && s[k] == c)
    ensures forall j :: from <= j < |s| && (k == -1 || j < k) ==> s[j] != c
    decreases |s| - from
  {
    if from >= |s| then -1
    else if s[from] == c then from
    else NextIndex(s, c, from + 1)
  }

  /** The dotted-name test, split at the last dot. */
  predicate DottedName(s: string)
  {
    NameSplit(s, LastIndex(s, '.'))
  }

  /** The four-group test, split at the first three dots. */
  predicate DottedQuad(s: string)
  {
    var i := NextIndex(s, '.', 0);
    i >= 0 &&
    var j := NextIndex(s, '.', i + 1);
    j >= 0 &&
    var k := NextIndex(s, '.', j + 1);
    k >= 0 && QuadSplit(s, i, j, k)
  }

  /** `isValidHostname` */
  predicate IsValidHostname(hostname: string)
  {
    DottedName(hostname) || hostname == "localhost" || DottedQuad(hostname) || hostname == "dynamic"
  }

  /** The only split that can match a dotted name is at the last dot. */
  lemma DottedNameMeaning(s: string)
    ensures DottedName(s) <==> MatchesDottedName(s)
  {
    if k :| NameSplit(s, k) {
      var last := LastIndex(s, '.');
      forall p | k < p < |s| ensures s[p] != '.' {
        assert s[k + 1..][p - k - 1] == s[p];
      }
    }
  }

  /** The only split that can match four groups is at the first three dots. */
  lemma DottedQuadMeaning(s: string)
    ensures DottedQuad(s) <==> MatchesDottedQuad(s)
  {
    if i, j, k :| QuadSplit(s, i, j, k) {
      QuadSplitFound(s, i, j, k);
    }
  }

  /** A matching split is the one the first three dots give. */
  lemma QuadSplitFound(s: string, i: int, j: int, k: int)
    requires QuadSplit(s, i, j, k)
    ensures NextIndex(s, '.', 0) == i && NextIndex(s, '.', i + 1) == j && NextIndex(s, '.', j + 1) == k
  {
    NoDotIn(s, 0, i);
    NoDotIn(s, i + 1, j);
    NoDotIn(s, j + 1, k);
  }

  /** Between `a` and `b` a run of digits holds no dot. */
  lemma NoDotIn(s: string, a: nat, b: nat)
    requires a <= b <= |s| && AllDigits(s[a..b])
    ensures forall j :: a <= j < b ==> s[j] != '.'
  {
    forall j | a <= j < b ensures s[j] != '.' {
      assert s[a..b][j - a] == s[j];
    }
  }

  /** What `isValidHostname` accepts, stated by its four alternatives. */
  lemma HostnameMeaning(hostname: string)
    ensures IsValidHostname(hostname) <==>
      MatchesDottedName(hostname) || hostname == "localhost" ||
      MatchesDottedQuad(hostname) || hostname == "dynamic"
  {
    DottedNameMeaning(hostname);
    DottedQuadMeaning(hostname);
  }

  /** Every character of an accepted host name is a letter, a digit, `.` or `-`. */
  lemma HostnameChars(hostname: string)
    requires IsValidHostname(hostname)
    ensures AllHostChars(hostname)
  {
    if DottedName(hostname) {
      DottedNameChars(hostname);
    } else if DottedQuad(hostname) {
      DottedQuadChars(hostname);
    }
  }

  lemma DottedNameChars(s: string)
    requires DottedName(s)
    ensures AllHostChars(s)
  {
    var k := LastIndex(s, '.');
    forall p | 0 <= p < |s| ensures HostChar(s[p]) {
      if p < k {
        assert s[..k][p] == s[p];
      } else if p > k {
        assert s[k + 1..][p - k - 1] == s[p];
      }
    }
  }

  lemma DottedQuadChars(s: string)
    requires DottedQuad(s)
    ensures AllHostChars(s)
  {
    var i := NextIndex(s, '.', 0);
    var j := NextIndex(s, '.', i + 1);
    var k := NextIndex(s, '.', j + 1);
    forall p | 0 <= p < |s| ensures HostChar(s[p]) {
      if p < i {
        assert s[..i][p] == s[p];
      } else if i < p < j {
        assert s[i + 1..j][p - i - 1] == s[p];
      } else if j < p < k {
        assert s[j + 1..k][p - j - 1] == s[p];
      } else if k < p {
        assert s[k + 1..][p - k - 1] == s[p];
      }
    }
  }

  /** An accepted host name can sit in a configuration line: no `[`, no line break. */
  lemma HostnameIsConfigSafe(hostname: string)
    requires IsValidHostname(hostname)
    ensures Plain(hostname) && NoChar(hostname, '\n')
  {
    HostnameChars(hostname);
  }
}
