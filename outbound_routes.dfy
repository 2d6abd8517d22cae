/**
 * The outbound route service of the Nest backend: route documents, the
 * `[outbound]` context of extensions.conf that sends a dialled number out
 * through a trunk, and the `_X.` line it adds to the `[internal]` context so
 * that extensions can reach it.
 */
module OutboundRoutes {
  import opened Text
  import opened Records
  import opened Sections
  import opened Dialplan
  import opened Store
  import opened Ami

  /** The natural key of a route document. */
  function RouteName(r: OutboundRoute): string { r.name }

  // ---------------------------------------------------------------------
  // One route's extension
  // ---------------------------------------------------------------------

  /** The extension a route answers to: its pattern, with a leading `_` added when it has none. */
  function DialPattern(pattern: string): (p: string)
    ensures |p| > 0 && p[0] == '_'
    ensures |pattern| <= |p| <= |pattern| + 1 && p[|p| - |pattern|..] == pattern
  {
    if StartsWith(pattern, "_") then pattern else "_" + pattern
  }

  /** Adding the `_` once is enough, and a pattern is kept exactly when it has one. */
  lemma DialPatternOnce(pattern: string)
    ensures DialPattern(DialPattern(pattern)) == DialPattern(pattern)
    ensures DialPattern(pattern) == pattern <==> |pattern| > 0 && pattern[0] == '_'
  {
    var p := DialPattern(pattern);
    assert StartsWith(p, "_") by {
      assert p[..1] == [p[0]];
    }
    if |pattern| > 0 && pattern[0] == '_' {
      assert pattern[..1] == [pattern[0]];
    }
  }

  /**
   * The caller id lines: the name set when the route has a caller id name
   * or number (`name || number || '${CALLERID(name)}'`), the number set when
   * it has one.
   */
  function CallerIdApps(r: OutboundRoute): (apps: seq<string>)
    ensures |apps| <= 2
    ensures apps == [] <==> r.callerIdName == "" && r.callerIdNumber == ""
    ensures |apps| == 2 <==> r.callerIdNumber != ""
    ensures |apps| == 2 ==> apps[1] == "Set(CALLERID(num)=" + r.callerIdNumber + ")"
  {
    if r.callerIdName != "" || r.callerIdNumber != "" then
      ["Set(CALLERID(name)=" + Or(Or(r.callerIdName, r.callerIdNumber), "${CALLERID(name)}") + ")"]
      + (if r.callerIdNumber != "" then ["Set(CALLERID(num)=" + r.callerIdNumber + ")"] else [])
    else []
  }

  /**
   * The last fallback of the caller id name is never written: the line
   * exists only when the name or the number is set, and then it sets the
   * name to the caller id name, or to the number when there is no name.
   */
  lemma CallerIdNameSet(r: OutboundRoute)
    requires CallerIdApps(r) != []
    ensures CallerIdApps(r)[0] ==
      "Set(CALLERID(name)=" + (if r.callerIdName != "" then r.callerIdName else r.callerIdNumber) + ")"
  {
  }

  /**
   * The number handed to the trunk: the dialled number without the route's
   * prefix, after the prepend digits. The two branches of the source that
   * strip a prefix are one: an empty prefix has length 0.
   */
  function OutnumApp(r: OutboundRoute): (app: string)
    ensures r.prepend == "" && r.prefix == "" ==> app == "Set(OUTNUM=${EXTEN})"
    ensures r.prepend != "" || r.prefix != "" ==>
      app == "Set(OUTNUM=" + r.prepend + "${EXTEN:" + NatToString(|r.prefix|) + "})"
  {
    if r.prepend != "" then
      "Set(OUTNUM=" + r.prepend + "${EXTEN:" + NatToString(if r.prefix != "" then |r.prefix| else 0) + "})"
    else if r.prefix != "" then "Set(OUTNUM=${EXTEN:" + NatToString(|r.prefix|) + "})"
    else "Set(OUTNUM=${EXTEN})"
  }

  /** What the route's extension runs, in order. */
  function RouteApps(r: OutboundRoute): (apps: seq<string>)
    ensures |apps| == 4 + |CallerIdApps(r)|
    ensures apps[0] == "NoOp(Matched outbound route: " + r.name + ")"
    ensures apps[|apps| - 3] == OutnumApp(r)
    ensures apps[|apps| - 2] == "Dial(SIP/${OUTNUM}@" + r.trunk + ",60)"
    ensures apps[|apps| - 1] == "Hangup()"
  {
    ["NoOp(Matched outbound route: " + r.name + ")"] + CallerIdApps(r)
    + [OutnumApp(r), "Dial(SIP/${OUTNUM}@" + r.trunk + ",60)", "Hangup()"]
  }

  /** A route's extension: its lines on the dial pattern, and a blank line. */
  function RouteExtension(r: OutboundRoute): string
  {
    Concat(ExtenLines(DialPattern(r.pattern), RouteApps(r))) + "\n"
  }

  /** Every line of a route's extension belongs to its dial pattern; it starts by logging the match. */
  lemma RouteExtensionLines(r: OutboundRoute)
    ensures var ls := ExtenLines(DialPattern(r.pattern), RouteApps(r));
      |ls| == |RouteApps(r)| &&
      ls[0] == Exten(DialPattern(r.pattern), "1", "NoOp(Matched outbound route: " + r.name + ")") &&
      forall i :: 0 <= i < |ls| ==> StartsWith(ls[i], "exten => " + DialPattern(r.pattern) + ",")
  {
    ExtenLinesStart(DialPattern(r.pattern), RouteApps(r));
  }

  // ---------------------------------------------------------------------
  // The fixed texts
  // ---------------------------------------------------------------------

  /**
   * The fixed texts of the service: the comment and catch-all that open
   * `[outbound]`, the pieces of the regular expression that detects a
   * `_X.` line to `[outbound]` with the spacing of the line the service
   * writes, and the comment written before that line. The merge is stated
   * for any texts that have the properties `TextsReady` lists; the service
   * uses `ServiceTexts`, which has them.
   */
  datatype OutboundTexts = OutboundTexts(skeleton: string, intro: string, tokens: seq<string>, gaps: seq<string>, comment: string)

  /** A piece that white space cannot start, even after case folding. */
  predicate Opener(t: string)
  {
    |t| > 0 && !IsJsSpace(t[0]) && !IsJsSpace(AsciiUpper(t[0]))
  }

  /** A run of `\s` characters. */
  predicate Blank(g: string)
  {
    forall k :: 0 <= k < |g| ==> IsJsSpace(g[k])
  }

  predicate Openers(toks: seq<string>)
  {
    forall k :: 0 <= k < |toks| ==> Opener(toks[k])
  }

  predicate Blanks(gaps: seq<string>)
  {
    forall k :: 0 <= k < |gaps| ==> Blank(gaps[k])
  }

  predicate TextsReady(x: OutboundTexts)
  {
    Plain(x.intro) && |x.gaps| == |x.tokens| && Openers(x.tokens) && Blanks(x.gaps)
    && AllPlain(x.tokens) && AllPlain(x.gaps)
    && |x.comment| > 0 && x.comment[0] == '\n' && Plain(x.comment)
  }

  // ---------------------------------------------------------------------
  // The [outbound] context
  // ---------------------------------------------------------------------

  const OutboundHeader := "[outbound]"

  function OutboundContext(x: OutboundTexts, routes: seq<OutboundRoute>): string
  {
    OutboundHeader + x.intro + ConcatMap(routes, RouteExtension)
  }

  /** The context loop: the header and catch-all, then each route in order. */
  method BuildOutboundContext(x: OutboundTexts, routes: seq<OutboundRoute>) returns (ctx: string)
    ensures ctx == OutboundContext(x, routes)
  {
    ctx := OutboundHeader + x.intro;
    for i := 0 to |routes|
      invariant ctx == OutboundHeader + x.intro + ConcatMap(routes[..i], RouteExtension)
    {
      ConcatMapStep(routes, i, RouteExtension);
      AppendTwice(OutboundHeader + x.intro, ConcatMap(routes[..i], RouteExtension), RouteExtension(routes[i]));
      ctx := ctx + RouteExtension(routes[i]);
    }
    assert routes[..|routes|] == routes;
  }

  /** extensions.conf with the `[outbound]` span replaced, or the context appended after a newline. */
  function OutboundDialplan(x: OutboundTexts, current: string, routes: seq<OutboundRoute>): string
  {
    ReplaceContext(current, OutboundHeader, OutboundContext(x, routes), "\n")
  }

  /** The fields a route writes into the dialplan hold no `[`. */
  predicate PlainRoute(r: OutboundRoute)
  {
    Plain(r.name) && Plain(r.pattern) && Plain(r.trunk) && Plain(r.prepend)
    && Plain(r.callerIdName) && Plain(r.callerIdNumber)
  }

  predicate PlainRoutes(routes: seq<OutboundRoute>)
  {
    forall r :: r in routes ==> PlainRoute(r)
  }

  lemma DigitsPlain(n: nat)
    ensures Plain(NatToString(n))
  {
  }

  lemma CallerIdAppsPlain(r: OutboundRoute)
    requires PlainRoute(r)
    ensures AllPlain(CallerIdApps(r))
  {
    assert Plain("Set(CALLERID(name)=") && Plain("${CALLERID(name)}") && Plain("Set(CALLERID(num)=") && Plain(")");
  }

  lemma OutnumAppPlain(r: OutboundRoute)
    requires PlainRoute(r)
    ensures Plain(OutnumApp(r))
  {
    DigitsPlain(|r.prefix|);
    assert Plain("Set(OUTNUM=") && Plain("${EXTEN:") && Plain("})") && Plain("Set(OUTNUM=${EXTEN})");
  }

  lemma RouteAppsPlain(r: OutboundRoute)
    requires PlainRoute(r)
    ensures AllPlain(RouteApps(r))
  {
    assert Plain("NoOp(Matched outbound route: ") && Plain(")");
    CallerIdAppsPlain(r);
    OutnumAppPlain(r);
    assert Plain("Dial(SIP/${OUTNUM}@") && Plain(",60)") && Plain("Hangup()");
    var apps := RouteApps(r);
    forall i | 0 <= i < |apps| ensures Plain(apps[i]) {
      if 1 <= i < |apps| - 3 {
        assert apps[i] == CallerIdApps(r)[i - 1];
      }
    }
  }

  /** A route with plain fields writes no `[`. */
  lemma RouteExtensionPlain(r: OutboundRoute)
    requires PlainRoute(r)
    ensures Plain(RouteExtension(r))
  {
    RouteAppsPlain(r);
    assert Plain("_");
    ExtenLinesPlain(DialPattern(r.pattern), RouteApps(r));
  }

  lemma OutboundName()
    ensures HeaderName("outbound") && "[" + "outbound" + "]" == OutboundHeader
  {
  }

  /** Plain routes write no `[`. */
  lemma ExtensionsPlain(routes: seq<OutboundRoute>)
    requires PlainRoutes(routes)
    ensures Plain(ConcatMap(routes, RouteExtension))
  {
    forall i | 0 <= i < |routes| ensures Plain(RouteExtension(routes[i])) {
      assert routes[i] in routes;
      RouteExtensionPlain(routes[i]);
    }
    ConcatMapPlain(routes, RouteExtension);
  }

  /** With plain routes, the context opens no section besides its own. */
  lemma OutboundContextIsSection(x: OutboundTexts, routes: seq<OutboundRoute>)
    requires TextsReady(x) && PlainRoutes(routes)
    ensures BracketHeader(OutboundHeader)
    ensures SectionText(OutboundContext(x, routes), OutboundHeader)
  {
    ExtensionsPlain(routes);
    var body := x.intro + ConcatMap(routes, RouteExtension);
    OutboundName();
    SectionOfPlain("outbound", body);
    assert OutboundContext(x, routes) == OutboundHeader + body;
  }

  /** Merging twice with the same routes leaves extensions.conf as merging once did. */
  lemma OutboundDialplanIdempotent(x: OutboundTexts, current: string, routes: seq<OutboundRoute>)
    requires TextsReady(x) && PlainRoutes(routes)
    ensures OutboundDialplan(x, OutboundDialplan(x, current, routes), routes) == OutboundDialplan(x, current, routes)
  {
    OutboundContextIsSection(x, routes);
    ReplaceContextIdempotent(current, OutboundHeader, OutboundContext(x, routes), "\n");
  }

  /** After the merge, every route's extension is in extensions.conf, whatever the file held. */
  lemma OutboundDialplanCovers(x: OutboundTexts, current: string, routes: seq<OutboundRoute>, i: nat)
    requires i < |routes|
    ensures Contains(OutboundDialplan(x, current, routes), RouteExtension(routes[i]))
  {
    var ctx := OutboundContext(x, routes);
    ReplaceContextHolds(current, OutboundHeader, ctx, "\n");
    ConcatMapContains(routes, i, RouteExtension);
    ContainsPrefixed(OutboundHeader + x.intro, ConcatMap(routes, RouteExtension), RouteExtension(routes[i]));
    ContainsTrans(OutboundDialplan(x, current, routes), ctx, RouteExtension(routes[i]));
  }

  // ---------------------------------------------------------------------
  // A regular expression made of literal pieces with `\s*` between each
  // two, the `i` flag set and no `u` flag, matched anywhere in a text.
  // ---------------------------------------------------------------------

  /** The end of the run of white space that starts at `i`. */
  function SkipSpaces(s: string, i: nat): (j: nat)
    requires i <= |s|
    ensures i <= j <= |s| && Blank(s[i..j]) && (j == |s| || !IsJsSpace(s[j]))
    decreases |s| - i
  {
    if i < |s| && IsJsSpace(s[i]) then
      var j := SkipSpaces(s, i + 1);
      BlankStep(s, i, j);
      j
    else i
  }

  lemma BlankStep(s: string, i: nat, j: nat)
    requires i < j <= |s| && IsJsSpace(s[i]) && Blank(s[i + 1..j])
    ensures Blank(s[i..j])
  {
    forall k | 0 < k < j - i ensures IsJsSpace(s[i..j][k]) {
      assert s[i..j][k] == s[i + 1..j][k - 1];
    }
  }

  /** Any white space run ending before a non-space is the one SkipSpaces finds. */
  lemma SkipSpacesTo(s: string, i: nat, j: nat)
    requires i <= j <= |s| && Blank(s[i..j]) && (j == |s| || !IsJsSpace(s[j]))
    ensures SkipSpaces(s, i) == j
  {
  }

  /**
   * What the expression matches at `i`, as a backtracking matcher reads it:
   * each piece caselessly, and between two pieces any run of white space.
   */
  predicate RegexAt(s: string, i: nat, toks: seq<string>)
    decreases |toks|
  {
    toks == [] ||
    (CaselessAt(s, toks[0], i) &&
     (|toks| == 1 ||
      exists j :: i + |toks[0]| <= j <= |s| && Blank(s[i + |toks[0]|..j]) && RegexAt(s, j, toks[1..])))
  }

  /** The match without backtracking: every run of white space taken whole. */
  predicate TokensAt(s: string, i: nat, toks: seq<string>)
    decreases |toks|
  {
    toks == [] ||
    (CaselessAt(s, toks[0], i) && TokensAt(s, SkipSpaces(s, i + |toks[0]|), toks[1..]))
  }

  lemma OpenersTail(toks: seq<string>)
    requires Openers(toks) && |toks| > 0
    ensures Openers(toks[1..])
  {
    forall k | 0 <= k < |toks[1..]| ensures Opener(toks[1..][k]) {
      assert toks[1..][k] == toks[k + 1];
    }
  }

  /**
   * Taking every run whole loses no match when no piece can start with
   * white space: a piece after a shorter run would have to start on a space.
   */
  lemma {:induction false} GreedyIsRegex(s: string, i: nat, toks: seq<string>)
    requires Openers(toks)
    ensures TokensAt(s, i, toks) <==> RegexAt(s, i, toks)
    decreases |toks|
  {
    if toks != [] && CaselessAt(s, toks[0], i) && |toks| > 1 {
      var a := i + |toks[0]|;
      var rest := toks[1..];
      OpenersTail(toks);
      var g := SkipSpaces(s, a);
      GreedyIsRegex(s, g, rest);
      if RegexAt(s, i, toks) {
        var j :| a <= j <= |s| && Blank(s[a..j]) && RegexAt(s, j, rest);
        assert Opener(rest[0]);
        assert CaselessAt(s, rest[0], j);
        assert AsciiUpper(s[j + 0]) == AsciiUpper(rest[0][0]);
        SkipSpacesTo(s, a, j);
      }
    }
  }

  /** `re.test(s)`, with every run of white space taken whole. */
  predicate HasMatch(s: string, toks: seq<string>)
  {
    exists i :: 0 <= i <= |s| && TokensAt(s, i, toks)
  }

  /** The test answers as the backtracking matcher does. */
  lemma HasMatchIsRegex(s: string, toks: seq<string>)
    requires Openers(toks)
    ensures HasMatch(s, toks) <==> exists i :: 0 <= i <= |s| && RegexAt(s, i, toks)
  {
    if HasMatch(s, toks) {
      var i :| 0 <= i <= |s| && TokensAt(s, i, toks);
      GreedyIsRegex(s, i, toks);
    }
    if exists i :: 0 <= i <= |s| && RegexAt(s, i, toks) {
      var i :| 0 <= i <= |s| && RegexAt(s, i, toks);
      GreedyIsRegex(s, i, toks);
    }
  }

  /** Pieces written one after the other, each followed by its run of white space. */
  function Layout(toks: seq<string>, gaps: seq<string>): (t: string)
    ensures |toks| > 0 && |gaps| > 0 && |toks[0]| > 0 ==> |t| > 0 && t[0] == toks[0][0]
  {
    if |toks| == 0 || |gaps| == 0 then "" else toks[0] + gaps[0] + Layout(toks[1..], gaps[1..])
  }

  /** Laid out with blank gaps, the pieces match where the layout starts. */
  lemma {:induction false} LayoutMatches(s: string, i: nat, toks: seq<string>, gaps: seq<string>)
    requires |gaps| == |toks| && Openers(toks) && Blanks(gaps)
    requires i + |Layout(toks, gaps)| <= |s| && s[i..i + |Layout(toks, gaps)|] == Layout(toks, gaps)
    ensures TokensAt(s, i, toks)
    decreases |toks|
  {
    if toks != [] {
      var t, g, L := toks[0], gaps[0], Layout(toks, gaps);
      var rest := Layout(toks[1..], gaps[1..]);
      assert L == t + g + rest;
      LayoutHead(s, i, t, g, rest);
      if |toks| > 1 {
        assert Opener(toks[0]) && Opener(toks[1]) && Blank(gaps[0]);
        LayoutGap(s, i, t, g, rest);
        OpenersTail(toks);
        assert Blanks(gaps[1..]) by {
          forall k | 0 <= k < |gaps[1..]| ensures Blank(gaps[1..][k]) {
            assert gaps[1..][k] == gaps[k + 1];
          }
        }
        LayoutMatches(s, i + |t| + |g|, toks[1..], gaps[1..]);
      }
    }
  }

  /** The first piece of a layout is where the layout is, and the rest follows its gap. */
  lemma LayoutHead(s: string, i: nat, t: string, g: string, rest: string)
    requires i + |t + g + rest| <= |s| && s[i..i + |t + g + rest|] == t + g + rest
    ensures CaselessAt(s, t, i)
    ensures s[i + |t| + |g|..i + |t| + |g| + |rest|] == rest
  {
    var L := t + g + rest;
    forall k | 0 <= k < |t| ensures s[i + k] == t[k] {
      assert s[i + k] == s[i..i + |L|][k] == L[k];
    }
    var j := i + |t| + |g|;
    assert s[j..j + |rest|] == s[i..i + |L|][|t| + |g|..];
  }

  /** A blank gap before a piece that opens with a non-space is skipped whole. */
  lemma LayoutGap(s: string, i: nat, t: string, g: string, rest: string)
    requires i + |t + g + rest| <= |s| && s[i..i + |t + g + rest|] == t + g + rest
    requires Blank(g) && |rest| > 0 && !IsJsSpace(rest[0])
    ensures SkipSpaces(s, i + |t|) == i + |t| + |g|
  {
    var L := t + g + rest;
    var j := i + |t| + |g|;
    var w := s[i + |t|..j];
    assert Blank(w) by {
      forall k | 0 <= k < |w| ensures IsJsSpace(w[k]) {
        assert w[k] == s[i + |t| + k] == s[i..i + |L|][|t| + k] == L[|t| + k] == g[k];
      }
    }
    assert s[j] == s[i..i + |L|][|t| + |g|] == rest[0];
    SkipSpacesTo(s, i + |t|, j);
  }

  /** Plain pieces and gaps lay out plain. */
  lemma {:induction false} LayoutPlain(toks: seq<string>, gaps: seq<string>)
    requires AllPlain(toks) && AllPlain(gaps)
    ensures Plain(Layout(toks, gaps))
    decreases |toks|
  {
    if |toks| > 0 && |gaps| > 0 {
      assert Plain(toks[0]) && Plain(gaps[0]);
      assert AllPlain(toks[1..]) by {
        forall k | 0 <= k < |toks[1..]| ensures Plain(toks[1..][k]) {
          assert toks[1..][k] == toks[k + 1];
        }
      }
      assert AllPlain(gaps[1..]) by {
        forall k | 0 <= k < |gaps[1..]| ensures Plain(gaps[1..][k]) {
          assert gaps[1..][k] == gaps[k + 1];
        }
      }
      LayoutPlain(toks[1..], gaps[1..]);
    }
  }

  // ---------------------------------------------------------------------
  // updateInternalDialPlan
  // ---------------------------------------------------------------------

  /** The text inserted into `[internal]`: the comment line, then the `_X.` line. */
  function InternalRoute(x: OutboundTexts): string
  {
    x.comment + Layout(x.tokens, x.gaps) + "\n"
  }

  lemma InternalRoutePlain(x: OutboundTexts)
    requires TextsReady(x)
    ensures Plain(InternalRoute(x)) && InternalRoute(x)[0] == '\n'
  {
    LayoutPlain(x.tokens, x.gaps);
    assert Plain("\n");
  }

  /** The service adds the line when there is an `[internal]` header and no such line anywhere. */
  predicate NeedsOutboundRoute(x: OutboundTexts, s: string)
  {
    Contains(s, InternalHeader) && !HasMatch(s, x.tokens)
  }

  /**
   * The text written by `updateInternalDialPlan`: the line appended at the
   * end of the first `[internal]` span, before the next `[`.
   */
  function RouteInternal(x: OutboundTexts, s: string): string
  {
    if NeedsOutboundRoute(x, s) then
      var e := SectionEnd(s, IndexOf(s, InternalHeader, 0) + 1);
      s[..e] + InternalRoute(x) + s[e..]
    else s
  }

  /** A text with an `[internal]` header reaches the outbound context afterwards. */
  lemma RouteInternalRoutes(x: OutboundTexts, s: string)
    requires TextsReady(x) && Contains(s, InternalHeader)
    ensures HasMatch(RouteInternal(x, s), x.tokens)
  {
    if NeedsOutboundRoute(x, s) {
      var e := SectionEnd(s, IndexOf(s, InternalHeader, 0) + 1);
      var line := Layout(x.tokens, x.gaps);
      var r := s[..e] + InternalRoute(x) + s[e..];
      var p := e + |x.comment|;
      assert r == (s[..e] + x.comment) + line + ("\n" + s[e..]);
      assert r[p..p + |line|] == line;
      LayoutMatches(r, p, x.tokens, x.gaps);
    }
  }

  /** The text changes exactly when the line is needed. */
  lemma RouteInternalChanges(x: OutboundTexts, s: string)
    ensures RouteInternal(x, s) == s <==> !NeedsOutboundRoute(x, s)
  {
    if NeedsOutboundRoute(x, s) {
      assert |RouteInternal(x, s)| == |s| + |InternalRoute(x)|;
    }
  }

  /** Running it again adds nothing. */
  lemma RouteInternalIdempotent(x: OutboundTexts, s: string)
    requires TextsReady(x)
    ensures RouteInternal(x, RouteInternal(x, s)) == RouteInternal(x, s)
  {
    if NeedsOutboundRoute(x, s) {
      RouteInternalRoutes(x, s);
    }
  }

  /** The insertion keeps every text of `s` that has no `[`. */
  lemma RouteInternalKeeps(x: OutboundTexts, s: string, p: string)
    requires Contains(s, p) && Plain(p)
    ensures Contains(RouteInternal(x, s), p)
  {
    if NeedsOutboundRoute(x, s) {
      var e := SectionEnd(s, IndexOf(s, InternalHeader, 0) + 1);
      ContainsAfterInsert(s, p, e, InternalRoute(x), '[');
    }
  }

  /**
   * In a merged text, the first `[internal]` span ends before the
   * `[outbound]` context or after it, never inside it.
   */
  lemma InternalOutsideContext(pre: string, ctx: string, post: string, i: nat)
    requires SectionText(ctx, OutboundHeader) && (post == [] || post[0] == '[')
    requires OccursAt(pre + ctx + post, InternalHeader, i)
    ensures var m := pre + ctx + post;
      i + 1 <= |m| && var e := SectionEnd(m, i + 1); e <= |pre| || |pre| + |ctx| < e
  {
    var m := pre + ctx + post;
    SpliceFrame(pre, ctx, post);
    assert m[i] == '[' && m[i + 1] == 'i' by {
      assert m[i..i + |InternalHeader|] == InternalHeader;
    }
    assert ctx[0] == '[' && ctx[1] == 'o' by {
      assert ctx[..|OutboundHeader|] == OutboundHeader;
    }
    assert m[|pre|] == ctx[0] && m[|pre| + 1] == ctx[1];
  }

  /** The insertion before the context, seen as a longer prefix. */
  lemma InsertBefore(pre: string, ctx: string, post: string, e: nat, ins: string)
    requires e <= |pre|
    ensures var m := pre + ctx + post;
      e <= |m| && m[..e] + ins + m[e..] == (pre[..e] + ins + pre[e..]) + ctx + post
  {
    var m := pre + ctx + post;
    assert m[..e] == pre[..e];
    assert m[e..] == pre[e..] + ctx + post;
  }

  /** The insertion after the context, seen as a longer rest. */
  lemma InsertAfter(pre: string, ctx: string, post: string, e: nat, ins: string)
    requires |pre| + |ctx| < e <= |pre| + |ctx| + |post|
    ensures var m := pre + ctx + post; var k := e - |pre| - |ctx|;
      m[..e] + ins + m[e..] == pre + ctx + (post[..k] + ins + post[k..])
  {
    var m := pre + ctx + post;
    var k := e - |pre| - |ctx|;
    assert m[..e] == pre + ctx + post[..k];
    assert m[e..] == post[k..];
  }

  /**
   * Merging the same context into a text the internal route was added to
   * changes nothing: the insertion lands outside the context, and the
   * context is still the first `[outbound]` span.
   */
  lemma RouteInternalKeepsContext(x: OutboundTexts, pre: string, ctx: string, post: string)
    requires TextsReady(x)
    requires SectionText(ctx, OutboundHeader) && IndexOf(pre, OutboundHeader, 0) == -1
    requires post == [] || post[0] == '['
    ensures ReplaceContext(RouteInternal(x, pre + ctx + post), OutboundHeader, ctx, "\n") == RouteInternal(x, pre + ctx + post)
  {
    var m := pre + ctx + post;
    OutboundName();
    SectionOfPlain("outbound", "");
    if !NeedsOutboundRoute(x, m) {
      ReplaceContextSplice(pre, ctx, post, OutboundHeader, "\n");
    } else {
      var i := IndexOf(m, InternalHeader, 0);
      var e := SectionEnd(m, i + 1);
      var ins := InternalRoute(x);
      InternalOutsideContext(pre, ctx, post, i);
      InternalRoutePlain(x);
      if e <= |pre| {
        InsertKeepsAbsent(pre, e, ins, OutboundHeader);
        InsertBefore(pre, ctx, post, e, ins);
        ReplaceContextSplice(pre[..e] + ins + pre[e..], ctx, post, OutboundHeader, "\n");
      } else {
        var k := e - |pre| - |ctx|;
        InsertAfter(pre, ctx, post, e, ins);
        ReplaceContextSplice(pre, ctx, post[..k] + ins + post[k..], OutboundHeader, "\n");
      }
    }
  }

  // ---------------------------------------------------------------------
  // What one sync writes
  // ---------------------------------------------------------------------

  /**
   * The files after a sync: the routes by priority merged into
   * extensions.conf (the skeleton when it is missing), then the internal
   * route added. Both writes go to the same file, so the second remains.
   */
  function OutboundSyncFiles(x: OutboundTexts, files: map<string, string>, stored: seq<OutboundRoute>)
    : (r: map<string, string>)
    ensures ExtensionsConfFile in r
    ensures forall n :: n != ExtensionsConfFile ==> (n in r <==> n in files)
    ensures forall n :: n != ExtensionsConfFile && n in files ==> r[n] == files[n]
  {
    var merged := OutboundDialplan(x, FileOr(files, ExtensionsConfFile, x.skeleton), SortBy(stored, ByPriority));
    files[ExtensionsConfFile := RouteInternal(x, merged)]
  }

  /** Routes are written by ascending priority, and each stored route once. */
  lemma OutboundSyncOrdered(stored: seq<OutboundRoute>)
    ensures Sorted(SortBy(stored, ByPriority), ByPriority)
    ensures multiset(SortBy(stored, ByPriority)) == multiset(stored)
  {
    PriorityOrdersArePreorders();
    SortBySorted(stored, ByPriority);
  }

  lemma SortedPlain(stored: seq<OutboundRoute>)
    requires PlainRoutes(stored)
    ensures PlainRoutes(SortBy(stored, ByPriority))
  {
    var sorted := SortBy(stored, ByPriority);
    forall r | r in sorted ensures PlainRoute(r) {
      assert r in multiset(sorted);
    }
  }

  /** Merging and routing a text that was merged and routed with the same routes gives it back. */
  lemma MergeRouteIdempotent(x: OutboundTexts, current: string, routes: seq<OutboundRoute>)
    requires TextsReady(x) && PlainRoutes(routes)
    ensures var t := RouteInternal(x, OutboundDialplan(x, current, routes));
      RouteInternal(x, OutboundDialplan(x, t, routes)) == t
  {
    var ctx := OutboundContext(x, routes);
    OutboundContextIsSection(x, routes);
    var pre, post := ReplaceContextShape(current, OutboundHeader, ctx, "\n");
    RouteInternalKeepsContext(x, pre, ctx, post);
    RouteInternalIdempotent(x, pre + ctx + post);
  }

  /** Once synced, syncing again with the same routes writes the text the file already holds. */
  lemma OutboundSyncIdempotent(x: OutboundTexts, files: map<string, string>, stored: seq<OutboundRoute>)
    requires TextsReady(x) && PlainRoutes(stored)
    ensures OutboundSyncFiles(x, OutboundSyncFiles(x, files, stored), stored) == OutboundSyncFiles(x, files, stored)
  {
    var routes := SortBy(stored, ByPriority);
    var current := FileOr(files, ExtensionsConfFile, x.skeleton);
    SortedPlain(stored);
    MergeRouteIdempotent(x, current, routes);
    var t := RouteInternal(x, OutboundDialplan(x, current, routes));
    var once := files[ExtensionsConfFile := t];
    assert OutboundSyncFiles(x, files, stored) == once;
    WriteAgain(files, ExtensionsConfFile, t, x.skeleton);
  }

  /** After a sync, every stored route with plain fields is in extensions.conf. */
  lemma OutboundSyncCovers(x: OutboundTexts, files: map<string, string>, stored: seq<OutboundRoute>, r: OutboundRoute)
    requires r in stored && PlainRoute(r)
    ensures Contains(OutboundSyncFiles(x, files, stored)[ExtensionsConfFile], RouteExtension(r))
  {
    var routes := SortBy(stored, ByPriority);
    assert r in multiset(stored);
    var i :| 0 <= i < |routes| && routes[i] == r;
    var current := FileOr(files, ExtensionsConfFile, x.skeleton);
    OutboundDialplanCovers(x, current, routes, i);
    RouteExtensionPlain(r);
    RouteInternalKeeps(x, OutboundDialplan(x, current, routes), RouteExtension(r));
  }

  /** Whatever the file held, after a sync an `[internal]` context can dial out. */
  lemma OutboundSyncReachable(x: OutboundTexts, files: map<string, string>, stored: seq<OutboundRoute>)
    requires TextsReady(x)
    ensures var conf := OutboundSyncFiles(x, files, stored)[ExtensionsConfFile];
      Contains(conf, InternalHeader) ==> HasMatch(conf, x.tokens)
  {
    var merged := OutboundDialplan(x, FileOr(files, ExtensionsConfFile, x.skeleton), SortBy(stored, ByPriority));
    if Contains(merged, InternalHeader) {
      RouteInternalRoutes(x, merged);
    }
  }

  // ---------------------------------------------------------------------
  // The service
  // ---------------------------------------------------------------------

  /**
   * The outbound route service over its collection, the configuration
   * directory and the manager session. The `dialplan` reload's answer is a
   * parameter; its error propagates, after the store was changed.
   */
  class OutboundRoutesService {
    const routes: Collection<OutboundRoute>
    const files: ConfigFiles
    const ami: AsteriskService
    /** Always `ServiceTexts`. */
    const texts: OutboundTexts

    /** Ids are unique and no two routes share a non-empty name. */
    predicate Valid()
      reads this, routes
    {
      routes.Valid() && KeysUnique(routes.items, RouteName)
    }

    constructor(routes: Collection<OutboundRoute>, files: ConfigFiles, ami: AsteriskService)
      requires routes.Valid() && KeysUnique(routes.items, RouteName)
      ensures this.routes == routes && this.files == files && this.ami == ami
      ensures texts == ServiceTexts && TextsReady(texts)
      ensures Valid()
    {
      this.routes := routes;
      this.files := files;
      this.ami := ami;
      this.texts := ServiceTexts;
      ServiceTextsReady();
    }

    /** `findAll`: every route, by ascending priority. */
    method FindAll() returns (all: seq<OutboundRoute>)
      ensures Sorted(all, ByPriority) && multiset(all) == multiset(routes.Stored())
    {
      all := SortBy(routes.Stored(), ByPriority);
      OutboundSyncOrdered(routes.Stored());
    }

    /** `findOne(id)`. */
    method Get(id: nat) returns (r: Result<OutboundRoute>)
      requires Valid()
      ensures Records.FindById(routes.items, id).None? ==> r == Err(NotFound("outbound route"))
      ensures Records.FindById(routes.items, id).Some? ==>
        r == Ok(routes.items[Records.FindById(routes.items, id).value].rec)
    {
      var k := routes.FindById(id);
      if k.None? {
        return Err(NotFound("outbound route"));
      }
      r := Ok(routes.items[k.value].rec);
    }

    /**
     * `updateInternalDialPlan`: with an `[internal]` header and no `_X.`
     * line to `[outbound]`, the line is added and the file written again.
     */
    method UpdateInternalDialPlan(conf: string)
      modifies files
      ensures NeedsOutboundRoute(texts, conf) ==> files.files == old(files.files)[ExtensionsConfFile := RouteInternal(texts, conf)]
      ensures !NeedsOutboundRoute(texts, conf) ==> files.files == old(files.files)
    {
      var start := IndexOf(conf, InternalHeader, 0);
      if start == -1 {
        return;
      }
      if HasMatch(conf, texts.tokens) {
        return;
      }
      var end := IndexOf(conf, "[", start + 1);
      if end == -1 {
        end := |conf|;
      }
      SectionEndIsSearch(conf, start + 1);
      files.Write(ExtensionsConfFile, conf[..end] + InternalRoute(texts) + conf[end..]);
    }

    /**
     * `updateAsteriskConfig`: the routes by priority merged into
     * extensions.conf, the file written, the internal route added, then
     * the dialplan reloaded.
     */
    method SyncAsterisk(reply: Result<Response>) returns (r: Result<()>)
      modifies files, ami
      ensures files.files == OutboundSyncFiles(texts, old(files.files), routes.Stored())
      ensures ami.sent == old(ami.sent) + SentIf(old(ami.connected), ReloadAction("dialplan"))
      ensures r == Done(Awaited(old(ami.connected), reply))
      ensures ami.Session() == old(ami.Session())
    {
      ghost var files0 := files.files;
      var all := SortBy(routes.Stored(), ByPriority);
      var current := texts.skeleton;
      if ExtensionsConfFile in files.files {
        current := files.files[ExtensionsConfFile];
      }
      var ctx := BuildOutboundContext(texts, all);
      var merged := CutAndReinsert(current, OutboundHeader, ctx, "\n");
      files.Write(ExtensionsConfFile, merged);
      UpdateInternalDialPlan(merged);
      assert files.files == files0[ExtensionsConfFile := RouteInternal(texts, merged)];
      var reloaded := ami.ReloadModule("dialplan", reply);
      r := Done(reloaded);
    }

    /** `create`: refused when any route has the name; otherwise saved, then synced. */
    method Create(route: OutboundRoute, reply: Result<Response>) returns (r: Result<Entry<OutboundRoute>>)
      requires Valid()
      modifies routes, files, ami
      ensures Valid() && ami.Session() == old(ami.Session())
      ensures KeyHeldByOther(old(routes.items), RouteName, route.name, None) ==>
        r == Err(Conflict(route.name)) && routes.items == old(routes.items) &&
        files.files == old(files.files) && ami.sent == old(ami.sent)
      ensures !KeyHeldByOther(old(routes.items), RouteName, route.name, None) ==>
        routes.items == old(routes.items) + [Entry(old(routes.nextId), route)] &&
        files.files == OutboundSyncFiles(texts, old(files.files), routes.Stored()) &&
        ami.sent == old(ami.sent) + SentIf(old(ami.connected), ReloadAction("dialplan")) &&
        r == Then(Done(Awaited(old(ami.connected), reply)), Entry(old(routes.nextId), route))
    {
      var existing := routes.FindOne(RouteName, route.name, None);
      if existing.Some? {
        return Err(Conflict(route.name));
      }
      AppendKeepsKeysUnique(routes.items, RouteName, Entry(routes.nextId, route));
      var id := routes.Insert(route);
      var synced := SyncAsterisk(reply);
      r := Then(synced, Entry(id, route));
    }

    /**
     * `update`: a missing id, then a new non-empty name held by another
     * route, are refused; otherwise the fields are assigned and the
     * configuration synced. `name` is the DTO's name field, `patch` its
     * assignment.
     */
    method Update(id: nat, name: Option<string>, patch: OutboundRoute -> OutboundRoute, reply: Result<Response>)
      returns (r: Result<OutboundRoute>)
      requires Valid() && SetsKey(patch, RouteName, name)
      modifies routes, files, ami
      ensures Valid() && ami.Session() == old(ami.Session())
      ensures Records.FindById(old(routes.items), id).None? ==>
        r == Err(NotFound("outbound route")) && routes.items == old(routes.items) &&
        files.files == old(files.files) && ami.sent == old(ami.sent)
      ensures Records.FindById(old(routes.items), id).Some? ==>
        var k := Records.FindById(old(routes.items), id).value;
        (RenameConflict(old(routes.items), RouteName, k, name) ==>
          r == Err(Conflict(name.value)) && routes.items == old(routes.items) &&
          files.files == old(files.files) && ami.sent == old(ami.sent)) &&
        (!RenameConflict(old(routes.items), RouteName, k, name) ==>
          routes.items == old(routes.items)[k := Entry(id, patch(old(routes.items)[k].rec))] &&
          files.files == OutboundSyncFiles(texts, old(files.files), routes.Stored()) &&
          ami.sent == old(ami.sent) + SentIf(old(ami.connected), ReloadAction("dialplan")) &&
          r == Then(Done(Awaited(old(ami.connected), reply)), patch(old(routes.items)[k].rec)))
    {
      var found := routes.FindById(id);
      if found.None? {
        return Err(NotFound("outbound route"));
      }
      var k := found.value;
      var current := routes.items[k].rec;
      if name.Some? && name.value != "" && name.value != current.name {
        var other := routes.FindOne(RouteName, name.value, Some(id));
        if other.Some? {
          return Err(Conflict(name.value));
        }
      }
      UpdateKeepsKeysUnique(routes.items, RouteName, k, name, patch);
      var updated := patch(current);
      routes.Replace(k, updated);
      var synced := SyncAsterisk(reply);
      r := Then(synced, updated);
    }

    /** `remove`: a missing id is refused; otherwise the route is deleted and the configuration synced. */
    method Remove(id: nat, reply: Result<Response>) returns (r: Result<OutboundRoute>)
      requires Valid()
      modifies routes, files, ami
      ensures Valid() && ami.Session() == old(ami.Session())
      ensures Records.FindById(old(routes.items), id).None? ==>
        r == Err(NotFound("outbound route")) && routes.items == old(routes.items) &&
        files.files == old(files.files) && ami.sent == old(ami.sent)
      ensures Records.FindById(old(routes.items), id).Some? ==>
        var k := Records.FindById(old(routes.items), id).value;
        routes.items == old(routes.items)[..k] + old(routes.items)[k + 1..] &&
        files.files == OutboundSyncFiles(texts, old(files.files), routes.Stored()) &&
        ami.sent == old(ami.sent) + SentIf(old(ami.connected), ReloadAction("dialplan")) &&
        r == Then(Done(Awaited(old(ami.connected), reply)), old(routes.items)[k].rec)
    {
      var found := routes.FindById(id);
      if found.None? {
        return Err(NotFound("outbound route"));
      }
      RemoveKeepsKeysUnique(routes.items, RouteName, found.value);
      var removed := routes.Delete(found.value);
      var synced := SyncAsterisk(reply);
      r := Then(synced, removed.rec);
    }
  }
  // ---------------------------------------------------------------------
  // The fixed texts
  // ---------------------------------------------------------------------

  /** The comment and the catch-all extension that hangs up on a number no route matches. */
  const OutboundIntro := "\n; Outbound Routes\n" + Exten("_.", "1", "NoOp(No matching outbound route)")
    + Exten("_.", "n", "Hangup()") + "\n"

  /**
   * The pieces of `exten\s*=>\s*_X\.\s*,\s*1\s*,\s*Goto\s*\(\s*outbound\s*,
   * \s*\$\{EXTEN\}\s*,\s*1\s*\)`, in order.
   */
  const GotoTokens: seq<string> := GotoHead + GotoMiddle + GotoTail
  const GotoHead: seq<string> := ["exten", "=>", "_X.", ",", "1"]
  const GotoMiddle: seq<string> := [",", "Goto", "(", "outbound", ","]
  const GotoTail: seq<string> := ["${EXTEN}", ",", "1", ")"]

  /** The spacing of the line the service writes: one space around `=>`, none elsewhere. */
  const GotoGaps: seq<string> := GotoHeadGaps + GotoMiddleGaps + GotoTailGaps
  const GotoHeadGaps: seq<string> := [" ", " ", "", "", ""]
  const GotoMiddleGaps: seq<string> := ["", "", "", "", ""]
  const GotoTailGaps: seq<string> := ["", "", "", ""]

  /** The comment line, and the indentation of the line after it. */
  const RouteComment := "\n; Route to outbound context" + " for external calls\n  "

  const ServiceTexts := OutboundTexts(ExtensionsSkeleton, OutboundIntro, GotoTokens, GotoGaps, RouteComment)

  /** Laying out two runs of pieces one after the other. */
  lemma {:induction false} LayoutAppend(a: seq<string>, ga: seq<string>, b: seq<string>, gb: seq<string>)
    requires |a| == |ga|
    ensures Layout(a + b, ga + gb) == Layout(a, ga) + Layout(b, gb)
    decreases |a|
  {
    if |a| > 0 {
      assert (a + b)[1..] == a[1..] + b && (ga + gb)[1..] == ga[1..] + gb;
      LayoutAppend(a[1..], ga[1..], b, gb);
    } else {
      assert a + b == b && ga + gb == gb;
    }
  }

  lemma GotoHeadText()
    ensures Layout(GotoHead, GotoHeadGaps) == "exten => _X.,1"
  {
  }

  lemma GotoMiddleText()
    ensures Layout(GotoMiddle, GotoMiddleGaps) == ",Goto(outbound,"
  {
  }

  lemma GotoTailText()
    ensures Layout(GotoTail, GotoTailGaps) == "${EXTEN},1)"
  {
  }

  /** The line the service writes is the one the source spells out. */
  lemma GotoLineText()
    ensures Layout(GotoTokens, GotoGaps) == "exten => _X.,1" + ",Goto(outbound," + "${EXTEN},1)"
  {
    LayoutAppend(GotoHead, GotoHeadGaps, GotoMiddle, GotoMiddleGaps);
    LayoutAppend(GotoHead + GotoMiddle, GotoHeadGaps + GotoMiddleGaps, GotoTail, GotoTailGaps);
    GotoHeadText();
    GotoMiddleText();
    GotoTailText();
  }

  lemma OutboundIntroPlain()
    ensures Plain(OutboundIntro)
  {
    assert Plain("_.") && Plain("1") && Plain("n");
    assert Plain("NoOp(No matching outbound route)") && Plain("Hangup()");
    ExtenPlain("_.", "1", "NoOp(No matching outbound route)");
    ExtenPlain("_.", "n", "Hangup()");
    assert Plain("\n; Outbound Routes\n") && Plain("\n");
  }

  lemma GotoTokensReady()
    ensures Openers(GotoTokens) && AllPlain(GotoTokens)
  {
  }

  lemma GotoGapsReady()
    ensures Blanks(GotoGaps) && AllPlain(GotoGaps) && |GotoGaps| == |GotoTokens|
  {
  }

  lemma RouteCommentReady()
    ensures |RouteComment| > 0 && RouteComment[0] == '\n' && Plain(RouteComment)
  {
    assert Plain("\n; Route to outbound context") && Plain(" for external calls\n  ");
  }

  lemma ServiceTextsReady()
    ensures TextsReady(ServiceTexts)
  {
    OutboundIntroPlain();
    GotoTokensReady();
    GotoGapsReady();
    RouteCommentReady();
  }
}
