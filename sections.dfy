/**
 * The three ways the PBX rewrites one part of an Asterisk configuration file
 * while keeping the rest:
 *
 *  - the legacy server's regular-expression replace: the span runs from the
 *    first `[name]` to the next `[` after it, or to the end of the text;
 *  - the services' cut-and-reinsert of a dialplan context: the span runs from
 *    the first header to the next `[` after the header's first character;
 *  - the trunk service's replace between `;;; TRUNKS START ;;;` and
 *    `;;; TRUNKS END ;;;`, built from `split` pieces.
 */
module Sections {
  import opened Text

  /** A context header such as `[queues]`: one `[`, at the start, and no newline. */
  predicate BracketHeader(h: string)
  {
    |h| > 0 && h[0] == '[' && OnlyAtStart(h, '[') && NoChar(h, '\n')
  }

  /** A rendered section: starts with its header and opens no other section. */
  predicate SectionText(block: string, h: string)
  {
    |h| <= |block| && block[..|h|] == h && OnlyAtStart(block, '[')
  }

  /**
   * `e` ends a section that starts before `from`: it is the first `[` at or
   * after `from`, or the end of the text when there is none.
   */
  predicate IsSectionEnd(s: string, from: nat, e: nat)
  {
    from <= e <= |s| && (e < |s| ==> s[e] == '[') && forall i :: from <= i < e ==> s[i] != '['
  }

  /** There is one such end. */
  lemma SectionEndUnique(s: string, from: nat, e1: nat, e2: nat)
    requires IsSectionEnd(s, from, e1) && IsSectionEnd(s, from, e2)
    ensures e1 == e2
  {
  }

  /** `indexOf('[', from)` finds it. */
  lemma SectionEndSearch(s: string, from: nat)
    requires from <= |s|
    ensures IsSectionEnd(s, from, if IndexOf(s, "[", from) == -1 then |s| else IndexOf(s, "[", from))
  {
    CharIndexOf(s, '[', from);
  }

  /** Where a section that starts before `from` ends. */
  function SectionEnd(s: string, from: nat): (e: nat)
    requires from <= |s|
    ensures IsSectionEnd(s, from, e)
  {
    SectionEndSearch(s, from);
    var e :| from <= e <= |s| && IsSectionEnd(s, from, e);
    e
  }

  /** The end found is the first `[`, and any first `[` is the end found. */
  lemma SectionEndIsFirst(s: string, from: nat, e: nat)
    requires from <= e <= |s|
    ensures SectionEnd(s, from) == e <==>
      (e < |s| ==> s[e] == '[') && forall i :: from <= i < e ==> s[i] != '['
  {
    if IsSectionEnd(s, from, e) {
      SectionEndUnique(s, from, e, SectionEnd(s, from));
    }
  }

  /** The search the services run computes the end. */
  lemma SectionEndIsSearch(s: string, from: nat)
    requires from <= |s|
    ensures SectionEnd(s, from) == (if IndexOf(s, "[", from) == -1 then |s| else IndexOf(s, "[", from))
  {
    SectionEndSearch(s, from);
    SectionEndUnique(s, from, SectionEnd(s, from),
      if IndexOf(s, "[", from) == -1 then |s| else IndexOf(s, "[", from));
  }

  /** No `[` anywhere: text that can sit inside a section without ending it. */
  predicate Plain(s: string)
  {
    '[' !in s
  }

  /** A header name that can be written between brackets. */
  predicate HeaderName(name: string)
  {
    Plain(name) && NoChar(name, '\n')
  }

  /** The header `[name]`. */
  function Bracketed(name: string): (h: string)
    ensures |h| == |name| + 2 && h[0] == '['
  {
    "[" + name + "]"
  }

  lemma {:induction false} ConcatPlain(xs: seq<string>)
    requires forall i :: 0 <= i < |xs| ==> Plain(xs[i])
    ensures Plain(Concat(xs))
    decreases |xs|
  {
    if xs != [] {
      assert Plain(xs[0]);
      assert forall i :: 0 <= i < |xs[1..]| ==> xs[1..][i] == xs[i + 1];
      ConcatPlain(xs[1..]);
    }
  }

  lemma {:induction false} JoinPlain(xs: seq<string>, sep: string)
    requires Plain(sep) && forall i :: 0 <= i < |xs| ==> Plain(xs[i])
    ensures Plain(Join(xs, sep))
    decreases |xs|
  {
    if |xs| > 1 {
      assert Plain(xs[0]);
      assert forall i :: 0 <= i < |xs[1..]| ==> xs[1..][i] == xs[i + 1];
      JoinPlain(xs[1..], sep);
    } else if |xs| == 1 {
      assert Plain(xs[0]);
    }
  }

  lemma {:induction false} ConcatMapPlain<T>(xs: seq<T>, f: T -> string)
    requires forall i :: 0 <= i < |xs| ==> Plain(f(xs[i]))
    ensures Plain(ConcatMap(xs, f))
    decreases |xs|
  {
    if xs != [] {
      ConcatMapPlain(xs[..|xs| - 1], f);
    }
  }

  /** `[name]` followed by a plain body is a section that opens no other. */
  lemma SectionOfPlain(name: string, body: string)
    requires HeaderName(name) && Plain(body)
    ensures BracketHeader("[" + name + "]")
    ensures SectionText("[" + name + "]" + body, "[" + name + "]")
  {
    var h := "[" + name + "]";
    var b := h + body;
    assert b[..|h|] == h;
    assert forall k :: 1 <= k < |b| ==> b[k] != '[' by {
      forall k | 1 <= k < |b| ensures b[k] != '[' {
        if k <= |name| {
          assert b[k] == name[k - 1];
        } else if k > |name| + 1 {
          assert b[k] == body[k - |h|];
        }
      }
    }
  }

  // ---------------------------------------------------------------------
  // Legacy server: `content.match(re)` then `content.replace(re, block)`
  // with re = `\[name\](.*?)(?=\[|$)` and the `s` flag.
  // ---------------------------------------------------------------------

  /**
   * The text `String.prototype.replace` puts in place of a match of a
   * regular expression with one capture group, for the replacement string
   * `rep`: `$$` is `$`, `$&` the match, `` $` `` the text before it, `$'`
   * the text after it, `$1` and `$01` the group; `$2` to `$9`, `$0`, `$<`
   * and a `$` before any other character stay as written. A two-digit
   * reference above the group count falls back to one digit, so `$10` is
   * the group followed by `0`.
   */
  function Expand(rep: string, matched: string, before: string, after: string, group: string): string
    decreases |rep|
  {
    if rep == [] then []
    else if rep[0] != '$' || |rep| == 1 then [rep[0]] + Expand(rep[1..], matched, before, after, group)
    else if rep[1] == '$' then "$" + Expand(rep[2..], matched, before, after, group)
    else if rep[1] == '&' then matched + Expand(rep[2..], matched, before, after, group)
    else if rep[1] == '`' then before + Expand(rep[2..], matched, before, after, group)
    else if rep[1] == '\'' then after + Expand(rep[2..], matched, before, after, group)
    else if rep[1] == '1' then group + Expand(rep[2..], matched, before, after, group)
    else if rep[1] == '0' && |rep| > 2 && rep[2] == '1' then group + Expand(rep[3..], matched, before, after, group)
    else "$" + Expand(rep[1..], matched, before, after, group)
  }

  /** A `$` that `replace` expands: one followed by `$`, `&`, a quote, `1` or `01`. */
  predicate PatternAt(rep: string, k: nat)
  {
    k + 1 < |rep| && rep[k] == '$' &&
    (rep[k + 1] == '$' || rep[k + 1] == '&' || rep[k + 1] == '`' || rep[k + 1] == '\'' || rep[k + 1] == '1' ||
     (rep[k + 1] == '0' && k + 2 < |rep| && rep[k + 2] == '1'))
  }

  /** A replacement string that `replace` inserts as written. */
  predicate Literal(rep: string)
  {
    forall k :: 0 <= k < |rep| ==> !PatternAt(rep, k)
  }

  /** A text without expanding `$` patterns is inserted as written. */
  lemma {:induction false} ExpandLiteral(rep: string, matched: string, before: string, after: string, group: string)
    requires Literal(rep)
    ensures Expand(rep, matched, before, after, group) == rep
    decreases |rep|
  {
    if rep != [] {
      assert !PatternAt(rep, 0);
      assert Literal(rep[1..]) by {
        forall k | 0 <= k < |rep[1..]| ensures !PatternAt(rep[1..], k) {
          assert !PatternAt(rep, k + 1);
        }
      }
      ExpandLiteral(rep[1..], matched, before, after, group);
    }
  }

  lemma ExpandLiteralWhen(rep: string, matched: string, before: string, after: string, group: string)
    ensures Literal(rep) ==> Expand(rep, matched, before, after, group) == rep
  {
    if Literal(rep) {
      ExpandLiteral(rep, matched, before, after, group);
    }
  }

  /** A text without `$` is copied, and what follows it is expanded on its own. */
  lemma {:induction false} ExpandAppend(a: string, b: string, matched: string, before: string, after: string,
                                         group: string)
    requires '$' !in a
    ensures Expand(a + b, matched, before, after, group) == a + Expand(b, matched, before, after, group)
    decreases |a|
  {
    if a != [] {
      assert a[0] in a;
      var ab := a + b;
      assert ab[0] == a[0] && ab[1..] == a[1..] + b;
      assert Expand(ab, matched, before, after, group) == [a[0]] + Expand(ab[1..], matched, before, after, group);
      assert forall c :: c in a[1..] ==> c in a;
      ExpandAppend(a[1..], b, matched, before, after, group);
      assert a == [a[0]] + a[1..];
      assert [a[0]] + (a[1..] + Expand(b, matched, before, after, group)) == a + Expand(b, matched, before, after, group);
    } else {
      assert a + b == b;
    }
  }

  /** A text with an expanding pattern is not inserted as written: against an empty match it shrinks. */
  lemma ExpandChangesPattern(rep: string)
    requires !Literal(rep)
    ensures Expand(rep, "", "", "", "") != rep
  {
    var k :| 0 <= k < |rep| && PatternAt(rep, k);
    ExpandEmptyShorter(rep, k);
  }

  lemma {:induction false} ExpandEmptyShorter(rep: string, k: nat)
    requires PatternAt(rep, k)
    ensures |Expand(rep, "", "", "", "")| < |rep|
    decreases |rep|
  {
    if PatternAt(rep, 0) {
      ExpandEmptyNoLonger(rep[2..]);
      if |rep| >= 3 {
        ExpandEmptyNoLonger(rep[3..]);
      }
    } else {
      assert PatternAt(rep[1..], k - 1);
      ExpandEmptyShorter(rep[1..], k - 1);
      ExpandNoPatternAtStart(rep);
    }
  }

  /** Against an empty match, a `$` that starts no pattern is copied as one character. */
  lemma ExpandNoPatternAtStart(rep: string)
    requires |rep| > 0 && !PatternAt(rep, 0)
    ensures Expand(rep, "", "", "", "") == [rep[0]] + Expand(rep[1..], "", "", "", "")
  {
  }

  lemma {:induction false} ExpandEmptyNoLonger(rep: string)
    ensures |Expand(rep, "", "", "", "")| <= |rep|
    decreases |rep|
  {
    if rep != [] {
      ExpandEmptyNoLonger(rep[1..]);
      if |rep| >= 2 {
        ExpandEmptyNoLonger(rep[2..]);
      }
      if |rep| >= 3 {
        ExpandEmptyNoLonger(rep[3..]);
      }
    }
  }

  /**
   * `content.replace(re, block)` for the first `[name]` span, the header at
   * `i` and the span ending at `e`: the block with its `$` patterns expanded
   * against that match, between the text before and the text after.
   */
  function Substitute(s: string, block: string, i: nat, hlen: nat, e: nat): string
    requires i + hlen <= e <= |s|
  {
    s[..i] + Expand(block, s[i..e], s[..i], s[e..], s[i + hlen..e]) + s[e..]
  }

  /**
   * The replacement of the first `[name]` span by `block` (with its `$`
   * patterns expanded), or `block` appended as written, with no separator,
   * when the header is absent.
   */
  function RegexUpsert(s: string, h: string, block: string): string
    requires |h| > 0
  {
    var i := IndexOf(s, h, 0);
    if i == -1 then s + block else Substitute(s, block, i, |h|, SectionEnd(s, i + |h|))
  }

  /** `content.replace(re, '')`: the first `[name]` span removed, if any. */
  function RegexRemove(s: string, h: string): string
    requires |h| > 0
  {
    var i := IndexOf(s, h, 0);
    if i == -1 then s else s[..i] + s[SectionEnd(s, i + |h|)..]
  }

  /**
   * `content.replace(re, block)` on its own: the first `[name]` span
   * replaced, and nothing changed when there is none.
   */
  function RegexReplace(s: string, h: string, block: string): string
    requires |h| > 0
  {
    if Contains(s, h) then RegexUpsert(s, h, block) else s
  }

  /** An absent header: the block is appended as is, and removal changes nothing. */
  lemma RegexAbsent(s: string, h: string, block: string)
    requires |h| > 0 && !Contains(s, h)
    ensures RegexUpsert(s, h, block) == s + block
    ensures RegexRemove(s, h) == s
  {
  }

  /** Removing the span is replacing it by nothing. */
  lemma RemoveIsEmptyUpsert(s: string, h: string)
    requires |h| > 0 && Contains(s, h)
    ensures RegexRemove(s, h) == RegexUpsert(s, h, "")
  {
  }

  /**
   * With the first header at `i` and the first `[` after it at `e` (or no
   * `[` and `e` the end), the text from `i` to `e` is replaced by the
   * expanded block and the rest is kept; a literal block goes in as written.
   */
  lemma RegexUpsertFrame(s: string, h: string, block: string, i: nat, e: nat)
    requires |h| > 0 && OccursAt(s, h, i) && forall k :: 0 <= k < i ==> !OccursAt(s, h, k)
    requires IsSectionEnd(s, i + |h|, e)
    ensures RegexUpsert(s, h, block) == s[..i] + Expand(block, s[i..e], s[..i], s[e..], s[i + |h|..e]) + s[e..]
    ensures Literal(block) ==> RegexUpsert(s, h, block) == s[..i] + block + s[e..]
  {
    ExpandLiteralWhen(block, s[i..e], s[..i], s[e..], s[i + |h|..e]);
    IndexOfIsLeast(s, h, 0, i);
    SectionEndUnique(s, i + |h|, e, SectionEnd(s, i + |h|));
    RegexUpsertAt(s, h, block, i, e);
  }

  /** The three parts of a splice sit where they were put. */
  lemma SpliceFrame(pre: string, mid: string, post: string)
    ensures var r := pre + mid + post;
      |r| == |pre| + |mid| + |post| && r[..|pre|] == pre &&
      r[|pre|..|pre| + |mid|] == mid && r[|pre| + |mid|..] == post
  {
    var r := pre + mid + post;
    assert r[..|pre|] == pre;
    assert r[|pre|..|pre| + |mid|] == mid;
    assert r[|pre| + |mid|..] == post;
  }

  /**
   * The core of every idempotence argument: re-reading a text produced by a
   * splice finds the header where the block was put and the end of the span
   * where the block ends.
   */
  lemma {:induction false} SpliceFoundAgain(pre: string, block: string, post: string, h: string, off: nat)
    requires BracketHeader(h) && SectionText(block, h)
    requires IndexOf(pre, h, 0) == -1
    requires post == [] || post[0] == '['
    requires 1 <= off <= |h|
    ensures |pre| + off <= |pre + block + post|
    ensures IndexOf(pre + block + post, h, 0) == |pre|
    ensures SectionEnd(pre + block + post, |pre| + off) == |pre| + |block|
  {
    var s := pre + block + post;
    var b := block + post;
    assert s == pre + b;
    assert b[..|h|] == h;
    IndexOfAtStart(b, h);
    IndexOfConcat(pre, b, h);
    forall i | |pre| + off <= i < |pre| + |block| ensures s[i] != '[' {
      assert s[i] == block[i - |pre|];
    }
    if post != [] {
      assert s[|pre| + |block|] == post[0];
    }
    SectionEndIsFirst(s, |pre| + off, |pre| + |block|);
  }

  /** Writing the same literal block twice gives what writing it once gave. */
  lemma RegexUpsertIdempotent(s: string, h: string, block: string)
    requires BracketHeader(h) && SectionText(block, h) && Literal(block)
    ensures RegexUpsert(RegexUpsert(s, h, block), h, block) == RegexUpsert(s, h, block)
  {
    var i := IndexOf(s, h, 0);
    if i == -1 {
      assert RegexUpsert(s, h, block) == s + block + [];
      RegexUpsertSplice(s, block, [], h);
    } else {
      var e := SectionEnd(s, i + |h|);
      assert IndexOf(s[..i], h, 0) == -1 by {
        IndexOfPrefixBefore(s, h, i);
      }
      ExpandLiteral(block, s[i..e], s[..i], s[e..], s[i + |h|..e]);
      assert RegexUpsert(s, h, block) == s[..i] + block + s[e..];
      RegexUpsertSplice(s[..i], block, s[e..], h);
    }
  }

  /**
   * A block holding `$$` goes in as written when it is appended, and with
   * `$` when it replaces its own span, so writing it a second time changes
   * the text: a `[100]` section with `secret=pa$$w`.
   */
  lemma RegexUpsertDollarNotIdempotent()
    ensures var block := "[100]\nsecret=pa$$w\n";
      RegexUpsert("", "[100]", block) == block &&
      RegexUpsert(block, "[100]", block) == "[100]\nsecret=pa$w\n"
  {
    var head := "[100]\nsecret=pa";
    assert head[..5] == "[100]";
    assert forall k :: 1 <= k < |head| ==> head[k] != '[' && head[k] != '$';
    assert head[0] != '$';
    RegexUpsertDollarCollapses("[100]", head, "w\n");
    assert head + "$$" + "w\n" == "[100]\nsecret=pa$$w\n";
    assert head + "$" + "w\n" == "[100]\nsecret=pa$w\n";
  }

  /**
   * A one-section block `head $$ tail` is appended as written to a text
   * without its header, and rewrites itself as `head $ tail`.
   */
  lemma RegexUpsertDollarCollapses(h: string, head: string, tail: string)
    requires 0 < |h| <= |head| && head[..|h|] == h
    requires '$' !in head && '$' !in tail && '[' !in tail
    requires forall k :: 1 <= k < |head| ==> head[k] != '['
    ensures var block := head + "$$" + tail;
      RegexUpsert("", h, block) == block && RegexUpsert(block, h, block) == head + "$" + tail
  {
    var block := head + "$$" + tail;
    assert IndexOf("", h, 0) == -1;
    assert OccursAt(block, h, 0) by {
      assert block[..|h|] == head[..|h|];
    }
    IndexOfAtStart(block, h);
    var e := |block|;
    assert forall k :: |h| <= k < e ==> block[k] != '[' by {
      forall k | |h| <= k < e ensures block[k] != '[' {
        if k < |head| {
          assert block[k] == head[k];
        } else if k >= |head| + 2 {
          assert block[k] == tail[k - |head| - 2];
        }
      }
    }
    assert IsSectionEnd(block, |h|, e);
    SectionEndUnique(block, |h|, e, SectionEnd(block, |h|));
    assert RegexUpsert(block, h, block) == Substitute(block, block, 0, |h|, e);
    assert block[..0] == [] && block[e..] == [];
    var m, g := block[0..e], block[|h|..e];
    assert block == head + ("$$" + tail);
    ExpandAppend(head, "$$" + tail, m, [], [], g);
    ExpandDollarDollar(tail, m, [], [], g);
    ExpandAppend(tail, [], m, [], [], g);
    assert tail + [] == tail;
  }

  lemma ExpandDollarDollar(rest: string, matched: string, before: string, after: string, group: string)
    ensures Expand("$$" + rest, matched, before, after, group) == "$" + Expand(rest, matched, before, after, group)
  {
    var r := "$$" + rest;
    assert r[0] == '$' && r[1] == '$' && r[2..] == rest;
  }

  /** A text spliced by RegexUpsert is a fixed point of the same splice. */
  lemma RegexUpsertSplice(pre: string, block: string, post: string, h: string)
    requires BracketHeader(h) && SectionText(block, h) && Literal(block)
    requires IndexOf(pre, h, 0) == -1
    requires post == [] || post[0] == '['
    ensures RegexUpsert(pre + block + post, h, block) == pre + block + post
  {
    var s := pre + block + post;
    assert IndexOf(s, h, 0) == |pre| && SectionEnd(s, |pre| + |h|) == |pre| + |block| by {
      SpliceFoundAgain(pre, block, post, h, |h|);
    }
    assert s[..|pre|] == pre && s[|pre| + |block|..] == post by {
      SpliceFrame(pre, block, post);
    }
    RegexUpsertAt(s, h, block, |pre|, |pre| + |block|);
    ExpandLiteral(block, s[|pre|..|pre| + |block|], pre, post, s[|pre| + |h|..|pre| + |block|]);
  }

  /** RegexUpsert at a known header position and span end. */
  lemma RegexUpsertAt(s: string, h: string, block: string, i: nat, e: nat)
    requires |h| > 0 && i + |h| <= |s| && IndexOf(s, h, 0) == i && SectionEnd(s, i + |h|) == e
    ensures RegexUpsert(s, h, block) == Substitute(s, block, i, |h|, e)
  {
  }

  /** The same for the services' merge, whose span starts after the header's `[`. */
  lemma ReplaceContextSplice(pre: string, ctx: string, post: string, h: string, sep: string)
    requires BracketHeader(h) && SectionText(ctx, h)
    requires IndexOf(pre, h, 0) == -1
    requires post == [] || post[0] == '['
    ensures ReplaceContext(pre + ctx + post, h, ctx, sep) == pre + ctx + post
  {
    var s := pre + ctx + post;
    assert IndexOf(s, h, 0) == |pre| && SectionEnd(s, |pre| + 1) == |pre| + |ctx| by {
      SpliceFoundAgain(pre, ctx, post, h, 1);
    }
    assert s[..|pre|] == pre && s[|pre| + |ctx|..] == post by {
      SpliceFrame(pre, ctx, post);
    }
    ReplaceContextAt(s, h, ctx, sep, |pre|, |pre| + |ctx|);
  }

  /** ReplaceContext at a known header position and span end. */
  lemma ReplaceContextAt(s: string, h: string, ctx: string, sep: string, i: nat, e: nat)
    requires |h| > 0 && i < |s| && IndexOf(s, h, 0) == i && SectionEnd(s, i + 1) == e
    ensures ReplaceContext(s, h, ctx, sep) == s[..i] + ctx + s[e..]
  {
  }

  /**
   * A block that opens a second section (a pjsip trunk's `[name-auth]` and
   * `[name-aor]`) is not idempotent: the second write replaces only the span
   * of the first section and keeps the earlier copies of the others, so they
   * appear twice.
   */
  lemma RegexUpsertDuplicatesTrailingSections(s: string, h: string, block: string, k: nat)
    requires BracketHeader(h) && !Contains(s, h)
    requires |h| <= k < |block| && block[..|h|] == h && block[k] == '['
    requires forall j :: 1 <= j < k ==> block[j] != '['
    ensures RegexUpsert(s, h, block) == s + block
    ensures RegexUpsert(RegexUpsert(s, h, block), h, block) ==
      s + Expand(block, block[..k], s, block[k..], block[|h|..k]) + block[k..]
  {
    var r := s + block;
    RegexAbsent(s, h, block);
    assert RegexUpsert(s, h, block) == r;
    AppendedFoundAt(s, h, block);
    var e := SectionEnd(r, |s| + |h|);
    FirstBracketInBlock(s, block, |h|, k);
    assert e == |s| + k;
    assert r[..|s|] == s;
    assert r[e..] == block[k..];
    assert r[|s|..e] == block[..k] && r[|s| + |h|..e] == block[|h|..k];
    assert RegexUpsert(r, h, block) == Substitute(r, block, |s|, |h|, e);
  }

  /** A block appended after a text without its header is found where it starts. */
  lemma AppendedFoundAt(s: string, h: string, block: string)
    requires BracketHeader(h) && !Contains(s, h)
    requires |h| <= |block| && block[..|h|] == h
    ensures IndexOf(s + block, h, 0) == |s|
  {
    assert OccursAt(block, h, 0);
    IndexOfAtStart(block, h);
    IndexOfConcat(s, block, h);
  }

  /** The first `[` of `block` at or after `from` is the end of a span begun in `s`. */
  lemma FirstBracketInBlock(s: string, block: string, from: nat, k: nat)
    requires from <= k < |block| && block[k] == '['
    requires forall j :: from <= j < k ==> block[j] != '['
    ensures SectionEnd(s + block, |s| + from) == |s| + k
  {
    var r := s + block;
    forall j | |s| + from <= j < |s| + k ensures r[j] != '[' {
      assert r[j] == block[j - |s|];
    }
    assert r[|s| + k] == '[';
    SectionEndIsFirst(r, |s| + from, |s| + k);
  }

  // ---------------------------------------------------------------------
  // Services: cut the old context out and put the new one in its place.
  // ---------------------------------------------------------------------

  /**
   * The first `h` span (up to the next `[` after the header's first
   * character) replaced by `ctx`, or `sep + ctx` appended when `h` is absent.
   */
  function ReplaceContext(s: string, h: string, ctx: string, sep: string): string
    requires |h| > 0
  {
    var i := IndexOf(s, h, 0);
    if i == -1 then s + sep + ctx else s[..i] + ctx + s[SectionEnd(s, i + 1)..]
  }

  /**
   * A context written as its header followed by its body, and the span's
   * end found by searching for the next `[` as the services search for it.
   */
  lemma ReplaceContextWritten(s: string, h: string, body: string)
    requires |h| > 0
    ensures var i := IndexOf(s, h, 0);
      ReplaceContext(s, h, h + body, "") ==
        if i == -1 then s + h + body
        else s[..i] + h + body + s[(if IndexOf(s, "[", i + 1) == -1 then |s| else IndexOf(s, "[", i + 1))..]
  {
    var i := IndexOf(s, h, 0);
    if i == -1 {
      assert s + "" + (h + body) == s + h + body;
    } else {
      SectionEndIsSearch(s, i + 1);
      assert s[..i] + (h + body) == s[..i] + h + body;
    }
  }

  /**
   * The services' code path: cut the old span out, then insert the new
   * context at the position where the old one started.
   */
  method CutAndReinsert(content: string, h: string, ctx: string, sep: string) returns (r: string)
    requires |h| > 0
    ensures r == ReplaceContext(content, h, ctx, sep)
  {
    r := content;
    var found := false;
    var start := IndexOf(r, h, 0);
    if start != -1 {
      var next := IndexOf(r, "[", start + 1);
      if next != -1 {
        r := r[..start] + r[next..];
      } else {
        r := r[..start];
      }
      found := true;
    }
    if found {
      r := r[..start] + ctx + r[start..];
    } else {
      r := r + sep + ctx;
    }
    if start != -1 {
      SectionEndIsSearch(content, start + 1);
    }
  }

  /**
   * With the first header at `i` and the first `[` after the header's `[`
   * at `e` (or none and `e` the end), the text from `i` to `e` is replaced
   * and the rest is kept.
   */
  lemma ReplaceContextFrame(s: string, h: string, ctx: string, sep: string, i: nat, e: nat)
    requires |h| > 0 && OccursAt(s, h, i) && forall k :: 0 <= k < i ==> !OccursAt(s, h, k)
    requires IsSectionEnd(s, i + 1, e)
    ensures ReplaceContext(s, h, ctx, sep) == s[..i] + ctx + s[e..]
  {
    IndexOfIsLeast(s, h, 0, i);
    SectionEndUnique(s, i + 1, e, SectionEnd(s, i + 1));
    ReplaceContextAt(s, h, ctx, sep, i, e);
  }

  /** Without the header anywhere, the context is appended after the separator. */
  lemma ReplaceContextAbsent(s: string, h: string, ctx: string, sep: string)
    requires |h| > 0 && forall k :: 0 <= k ==> !OccursAt(s, h, k)
    ensures ReplaceContext(s, h, ctx, sep) == s + sep + ctx
  {
    IndexOfIsLeast(s, h, 0, -1);
  }

  /** Whichever path the merge takes, the new context is in the result. */
  lemma ReplaceContextHolds(s: string, h: string, ctx: string, sep: string)
    requires |h| > 0
    ensures Contains(ReplaceContext(s, h, ctx, sep), ctx)
  {
    var r := ReplaceContext(s, h, ctx, sep);
    var i := IndexOf(s, h, 0);
    if i == -1 {
      assert r == (s + sep) + ctx;
      ContainsEnd(s + sep, ctx);
    } else {
      var e := SectionEnd(s, i + 1);
      ReplaceContextAt(s, h, ctx, sep, i, e);
      SpliceFrame(s[..i], ctx, s[e..]);
      assert OccursAt(r, ctx, i);
      ContainsIffOccurs(r, ctx);
    }
  }

  /** The separator is empty or one newline, as in every caller. */
  predicate Separator(sep: string) { sep == "" || sep == "\n" }

  lemma SeparatorKeepsAbsent(s: string, h: string, sep: string)
    requires BracketHeader(h) && Separator(sep) && !Contains(s, h)
    ensures IndexOf(s + sep, h, 0) == -1
  {
    if sep == "\n" {
      assert !OccursAt("\n", h, 0);
      NewlineBarrier(s, "", h);
      assert s + "\n" + "" == s + sep;
    } else {
      assert s + sep == s;
    }
  }

  /**
   * Running the merge twice with the same context gives the text of running
   * it once, provided the context opens no other section (no `[` after its
   * header's first character).
   */
  lemma ReplaceContextIdempotent(s: string, h: string, ctx: string, sep: string)
    requires BracketHeader(h) && SectionText(ctx, h) && Separator(sep)
    ensures ReplaceContext(ReplaceContext(s, h, ctx, sep), h, ctx, sep) == ReplaceContext(s, h, ctx, sep)
  {
    var i := IndexOf(s, h, 0);
    if i == -1 {
      assert IndexOf(s + sep, h, 0) == -1 by {
        SeparatorKeepsAbsent(s, h, sep);
      }
      assert ReplaceContext(s, h, ctx, sep) == (s + sep) + ctx + [];
      ReplaceContextSplice(s + sep, ctx, [], h, sep);
    } else {
      var e := SectionEnd(s, i + 1);
      assert IndexOf(s[..i], h, 0) == -1 by {
        IndexOfPrefixBefore(s, h, i);
      }
      assert ReplaceContext(s, h, ctx, sep) == s[..i] + ctx + s[e..];
      ReplaceContextSplice(s[..i], ctx, s[e..], h, sep);
    }
  }

  /**
   * A merged text is the new context between a prefix without the header
   * and a rest that is empty or opens the next section.
   */
  lemma ReplaceContextShape(s: string, h: string, ctx: string, sep: string) returns (pre: string, post: string)
    requires BracketHeader(h) && Separator(sep)
    ensures ReplaceContext(s, h, ctx, sep) == pre + ctx + post
    ensures IndexOf(pre, h, 0) == -1 && (post == [] || post[0] == '[')
  {
    var i := IndexOf(s, h, 0);
    if i == -1 {
      assert IndexOf(s + sep, h, 0) == -1 by {
        SeparatorKeepsAbsent(s, h, sep);
      }
      pre, post := s + sep, [];
    } else {
      var e := SectionEnd(s, i + 1);
      assert IndexOf(s[..i], h, 0) == -1 by {
        IndexOfPrefixBefore(s, h, i);
      }
      pre, post := s[..i], s[e..];
    }
  }

  /**
   * Merging again after more sections were appended to a merged text
   * changes nothing: the context is found where the first merge put it.
   */
  lemma ReplaceContextIdempotentBefore(s: string, h: string, ctx: string, sep: string, t: string)
    requires BracketHeader(h) && SectionText(ctx, h) && Separator(sep)
    requires t == [] || t[0] == '['
    ensures ReplaceContext(ReplaceContext(s, h, ctx, sep) + t, h, ctx, sep) == ReplaceContext(s, h, ctx, sep) + t
  {
    var pre, post := ReplaceContextShape(s, h, ctx, sep);
    assert ReplaceContext(s, h, ctx, sep) + t == pre + ctx + (post + t);
    ReplaceContextSplice(pre, ctx, post + t, h, sep);
  }

  /**
   * Text that starts with a newline and opens no section, inserted anywhere
   * in a text without the header, does not make the header appear.
   */
  lemma InsertKeepsAbsent(pre: string, e: nat, ins: string, h: string)
    requires BracketHeader(h) && IndexOf(pre, h, 0) == -1 && e <= |pre|
    requires |ins| > 0 && ins[0] == '\n' && Plain(ins)
    ensures IndexOf(pre[..e] + ins + pre[e..], h, 0) == -1
  {
    var x, a, b := pre[..e], ins[1..], pre[e..];
    IndexOfPrefixBefore(pre, h, e);
    IndexOfLeast(pre, h, 0);
    IndexOfIsLeast(pre, h, e, -1);
    IndexOfSuffix(pre, h, e);
    assert IndexOf(b, h, 0) == -1;
    forall k | 0 <= k < |a| ensures !OccursAt(a + b, h, k) {
      assert (a + b)[k] == ins[k + 1];
    }
    IndexOfAfterPrefix(a, b, h);
    NewlineBarrier(x, a + b, h);
    assert x + "\n" + (a + b) == pre[..e] + ins + pre[e..];
  }

  /** A context that opens another section breaks idempotence: a witness. */
  lemma ReplaceContextNotIdempotentWithBracket()
    ensures ReplaceContext("", "[q]", "[q]\n[x]\n", "\n") == "\n[q]\n[x]\n"
    ensures ReplaceContext("\n[q]\n[x]\n", "[q]", "[q]\n[x]\n", "\n") == "\n[q]\n[x]\n[x]\n"
  {
    assert IndexOf("", "[q]", 0) == -1;
    var s := "\n[q]\n[x]\n";
    assert s[1..4] == "[q]";
    assert !OccursAt(s, "[q]", 0) by {
      assert s[0..3][0] != "[q]"[0];
    }
    assert OccursAt(s, "[q]", 1);
    IndexOfIsLeast(s, "[q]", 0, 1);
    SectionEndIsFirst(s, 2, 5);
    assert s[2] != '[' && s[3] != '[' && s[4] != '[' && s[5] == '[';
    assert SectionEnd(s, 2) == 5;
    assert s[..1] + "[q]\n[x]\n" + s[5..] == "\n[q]\n[x]\n[x]\n";
  }

  // ---------------------------------------------------------------------
  // Trunk service: marker block assembled from `split` pieces.
  // ---------------------------------------------------------------------

  const TrunksStart := ";;; TRUNKS START ;;;"
  const TrunksEnd := ";;; TRUNKS END ;;;"

  /** `s.split(sep)[0]`: the text before the first `sep`, or all of it. */
  function SplitHead(s: string, sep: string): string
  {
    var i := IndexOf(s, sep, 0);
    if i == -1 then s else s[..i]
  }

  /**
   * `s.split(sep)[1]` for a text that contains `sep`: the text between the
   * first `sep` and the next one, or to the end when there is no next one.
   */
  function SplitSecond(s: string, sep: string): string
    requires Contains(s, sep)
  {
    var a := IndexOf(s, sep, 0) + |sep|;
    var j := IndexOf(s, sep, a);
    if j == -1 then s[a..] else s[a..j]
  }

  /** SplitSecond at known positions of the first and the second `sep`. */
  lemma SplitSecondAt(s: string, sep: string, q: nat, j: int)
    requires q + |sep| <= |s| && IndexOf(s, sep, 0) == q && IndexOf(s, sep, q + |sep|) == j
    ensures SplitSecond(s, sep) == if j == -1 then s[q + |sep|..] else s[q + |sep|..j]
  {
  }

  /**
   * The second piece, for a first `sep` at `q`: it starts right after that
   * `sep`, holds no `sep`, and runs to the next one or to the end.
   */
  lemma SplitSecondFacts(s: string, sep: string, q: nat)
    requires |sep| > 0 && IndexOf(s, sep, 0) == q
    ensures q + |sep| + |SplitSecond(s, sep)| <= |s|
    ensures SplitSecond(s, sep) == s[q + |sep|..q + |sep| + |SplitSecond(s, sep)|]
    ensures !Contains(SplitSecond(s, sep), sep)
    ensures q + |sep| + |SplitSecond(s, sep)| == |s| || OccursAt(s, sep, q + |sep| + |SplitSecond(s, sep)|)
  {
    var a := q + |sep|;
    var j := IndexOf(s, sep, a);
    var t := IndexOf(s[a..], sep, 0);
    assert j == (if t == -1 then -1 else a + t) by {
      IndexOfSuffix(s, sep, a);
    }
    var r := SplitSecond(s, sep);
    assert r == if j == -1 then s[a..] else s[a..j] by {
      SplitSecondAt(s, sep, q, j);
    }
    if j == -1 {
      assert r == s[a..a + |r|] && !Contains(r, sep) && a + |r| == |s|;
    } else {
      assert !Contains(r, sep) by {
        IndexOfPrefixBefore(s[a..], sep, j - a);
        assert s[a..][..j - a] == r;
      }
      assert r == s[a..a + |r|] && OccursAt(s, sep, a + |r|);
    }
  }

  /** What follows the first `sep`, when no second one follows it. */
  lemma SplitSecondIsRest(s: string, sep: string, q: nat)
    requires |sep| > 0 && IndexOf(s, sep, 0) == q && q + |sep| <= |s|
    requires !Contains(s[q + |sep|..], sep)
    ensures SplitSecond(s, sep) == s[q + |sep|..]
  {
    assert IndexOf(s, sep, q + |sep|) == -1 by {
      IndexOfSuffix(s, sep, q + |sep|);
    }
    SplitSecondAt(s, sep, q, -1);
  }

  /**
   * The sip.conf text after a trunk sync: with both markers present, the
   * text before the first START, the new block, and the text between the
   * first and the second END; otherwise the block appended on new lines.
   */
  function TrunkMerge(cur: string, body: string): string
  {
    if Contains(cur, TrunksStart) && Contains(cur, TrunksEnd) then
      SplitHead(cur, TrunksStart) + TrunksStart + "\n" + body + TrunksEnd + SplitSecond(cur, TrunksEnd)
    else
      cur + "\n" + TrunksStart + "\n" + body + TrunksEnd + "\n"
  }

  /**
   * A file without both markers gets the marker block appended on a new
   * line; text after the second END is dropped by a sync.
   */
  lemma TrunkMergeShape(cur: string, body: string)
    ensures !(Contains(cur, TrunksStart) && Contains(cur, TrunksEnd)) ==>
      TrunkMerge(cur, body) == cur + "\n" + TrunksStart + "\n" + body + TrunksEnd + "\n"
    ensures Contains(cur, TrunksStart) && Contains(cur, TrunksEnd) ==>
      var e := IndexOf(cur, TrunksEnd, 0);
      var e2 := IndexOf(cur, TrunksEnd, e + |TrunksEnd|);
      e + |TrunksEnd| <= |cur| &&
      TrunkMerge(cur, body) ==
        cur[..IndexOf(cur, TrunksStart, 0)] + TrunksStart + "\n" + body + TrunksEnd
        + (if e2 == -1 then cur[e + |TrunksEnd|..] else cur[e + |TrunksEnd|..e2])
  {
    if Contains(cur, TrunksStart) && Contains(cur, TrunksEnd) {
      SplitPieces(cur, TrunksStart, TrunksEnd);
    }
  }

  /** The two `split` pieces the merge keeps, in terms of the marker positions. */
  lemma SplitPieces(cur: string, st: string, en: string)
    requires Contains(cur, st) && Contains(cur, en)
    ensures var e := IndexOf(cur, en, 0);
      var e2 := IndexOf(cur, en, e + |en|);
      e + |en| <= |cur| && SplitHead(cur, st) == cur[..IndexOf(cur, st, 0)] &&
      SplitSecond(cur, en) == (if e2 == -1 then cur[e + |en|..] else cur[e + |en|..e2])
  {
  }

  lemma MarkerFacts()
    ensures NoChar(TrunksStart, '\n') && NoChar(TrunksEnd, '\n')
    ensures |TrunksStart| == 20 && |TrunksEnd| == 18
    ensures IndexOf(TrunksStart, TrunksEnd, 0) == -1
  {
    var s, e := TrunksStart, TrunksEnd;
    assert s[11] == 'S';
    assert e[11] == 'E';
    assert s[3] == ' ';
    assert e[1] == ';' && e[2] == ';';
    forall i | 0 <= i ensures !OccursAt(s, e, i) {
      if i + |e| <= |s| {
        var w := s[i..i + |e|];
        if i == 0 {
          assert w[11] == s[11];
        } else if i == 1 {
          assert w[2] == s[3];
        } else {
          assert i == 2 && w[1] == s[3];
        }
      }
    }
    IndexOfIsLeast(s, e, 0, -1);
  }

  /** `p` does not start inside `before`, even reading on into a START. */
  predicate CleanOf(before: string, p: string)
  {
    forall i :: 0 <= i < |before| ==> !OccursAt(before + TrunksStart, p, i)
  }

  /** Neither marker starts inside `before`. */
  predicate Clean(before: string)
  {
    CleanOf(before, TrunksStart) && CleanOf(before, TrunksEnd)
  }

  /** Where the sync places START in its output. */
  lemma LayoutStart(before: string, rest: string)
    requires CleanOf(before, TrunksStart)
    requires |rest| >= |TrunksStart| && rest[..|TrunksStart|] == TrunksStart
    ensures IndexOf(before + rest, TrunksStart, 0) == |before|
  {
    var s := before + rest;
    var n := |before| + |TrunksStart|;
    assert s[..n] == (before + TrunksStart)[..n];
    PrefixAgree(before + TrunksStart, s, TrunksStart, n, |before|);
    IndexOfAtStart(rest, TrunksStart);
    IndexOfAfterPrefix(before, rest, TrunksStart);
  }

  /** A newline-terminated, END-free body is followed by the first END. */
  lemma BodyThenEnd(body: string, after: string)
    requires !Contains(body, TrunksEnd) && |body| > 0 && body[|body| - 1] == '\n'
    ensures IndexOf(body + TrunksEnd + after, TrunksEnd, 0) == |body|
  {
    MarkerFacts();
    var x := body[..|body| - 1];
    assert body == x + "\n";
    IndexOfPrefixBefore(body, TrunksEnd, |body| - 1);
    var tail := TrunksEnd + after;
    IndexOfAtStart(tail, TrunksEnd);
    NewlineBarrier(x, tail, TrunksEnd);
    assert body + TrunksEnd + after == x + "\n" + tail;
  }

  /** Where the sync places the first END in its output. */
  lemma LayoutEnd(before: string, body: string, after: string)
    requires CleanOf(before, TrunksEnd)
    requires !Contains(body, TrunksEnd) && |body| > 0 && body[|body| - 1] == '\n'
    ensures IndexOf(before + TrunksStart + "\n" + body + TrunksEnd + after, TrunksEnd, 0)
      == |before| + |TrunksStart| + 1 + |body|
  {
    MarkerFacts();
    var rest := TrunksStart + "\n" + (body + TrunksEnd + after);
    var s := before + rest;
    assert s == before + TrunksStart + "\n" + body + TrunksEnd + after;
    var n := |before| + |TrunksStart|;
    assert s[..n] == (before + TrunksStart)[..n];
    PrefixAgree(before + TrunksStart, s, TrunksEnd, n, |before|);
    BodyThenEnd(body, after);
    NewlineBarrier(TrunksStart, body + TrunksEnd + after, TrunksEnd);
    IndexOfAfterPrefix(before, rest, TrunksEnd);
  }

  /** The text a sync writes is read back as the same three parts. */
  lemma {:induction false} MergedLayout(before: string, body: string, after: string)
    requires Clean(before)
    requires !Contains(body, TrunksEnd) && |body| > 0 && body[|body| - 1] == '\n'
    requires !Contains(after, TrunksEnd)
    ensures var s := before + TrunksStart + "\n" + body + TrunksEnd + after;
      Contains(s, TrunksStart) && Contains(s, TrunksEnd) &&
      SplitHead(s, TrunksStart) == before && SplitSecond(s, TrunksEnd) == after
  {
    MarkerFacts();
    var s := before + TrunksStart + "\n" + body + TrunksEnd + after;
    LayoutStart(before, TrunksStart + "\n" + body + TrunksEnd + after);
    assert s == before + (TrunksStart + "\n" + body + TrunksEnd + after);
    LayoutEnd(before, body, after);
    var q := |before| + |TrunksStart| + 1 + |body|;
    assert s[q + |TrunksEnd|..] == after;
    SplitSecondIsRest(s, TrunksEnd, q);
  }

  /** With neither marker in the file, the appended block starts clean. */
  lemma CleanWhenAbsent(cur: string)
    requires !Contains(cur, TrunksStart) && !Contains(cur, TrunksEnd)
    ensures Clean(cur + "\n")
  {
    MarkerFacts();
    NewlineBarrier(cur, TrunksStart, TrunksStart);
    NewlineBarrier(cur, TrunksStart, TrunksEnd);
    assert cur + "\n" + TrunksStart == cur + "\n" + TrunksStart;
  }

  /** The text before a first START that precedes the first END is clean. */
  lemma CleanBeforeFirstStart(cur: string)
    requires Contains(cur, TrunksStart) && Contains(cur, TrunksEnd)
    requires IndexOf(cur, TrunksStart, 0) < IndexOf(cur, TrunksEnd, 0)
    ensures Clean(cur[..IndexOf(cur, TrunksStart, 0)])
  {
    MarkerFacts();
    var i := IndexOf(cur, TrunksStart, 0);
    var before := cur[..i];
    var n := i + |TrunksStart|;
    assert OccursAt(cur, TrunksStart, i);
    assert cur[..n] == before + TrunksStart;
    IndexOfLeast(cur, TrunksStart, 0);
    IndexOfPrefixBefore(cur, TrunksEnd, i);
    PrefixAgree(cur, before + TrunksStart, TrunksStart, n, i);
    PrefixAgree(cur, before + TrunksStart, TrunksEnd, n, i);
  }

  /**
   * A second sync with the same body leaves the file as the first one left
   * it, when the body holds no END and ends with a newline, and the file
   * either has neither marker or has its first START before its first END.
   */
  lemma {:induction false} TrunkMergeIdempotent(cur: string, body: string)
    requires !Contains(body, TrunksEnd)
    requires |body| > 0 && body[|body| - 1] == '\n'
    requires (!Contains(cur, TrunksStart) && !Contains(cur, TrunksEnd)) ||
             (Contains(cur, TrunksStart) && Contains(cur, TrunksEnd) &&
              IndexOf(cur, TrunksStart, 0) < IndexOf(cur, TrunksEnd, 0))
    ensures TrunkMerge(TrunkMerge(cur, body), body) == TrunkMerge(cur, body)
  {
    MarkerFacts();
    var before, after;
    if !Contains(cur, TrunksStart) {
      CleanWhenAbsent(cur);
      before, after := cur + "\n", "\n";
      assert IndexOf(after, TrunksEnd, 0) == -1;
    } else {
      CleanBeforeFirstStart(cur);
      SplitSecondFacts(cur, TrunksEnd, IndexOf(cur, TrunksEnd, 0));
      before, after := cur[..IndexOf(cur, TrunksStart, 0)], SplitSecond(cur, TrunksEnd);
    }
    assert TrunkMerge(cur, body) == before + TrunksStart + "\n" + body + TrunksEnd + after;
    MergedLayout(before, body, after);
  }

  /**
   * A file holding START but no END is changed again by a second sync: the
   * first sync appends a second marker block, the second one cuts the file
   * at the first START and so shortens it.
   */
  lemma TrunkMergeStartWithoutEnd(cur: string, body: string)
    requires Contains(cur, TrunksStart) && !Contains(cur, TrunksEnd)
    requires !Contains(body, TrunksEnd) && |body| > 0 && body[|body| - 1] == '\n'
    ensures |TrunkMerge(TrunkMerge(cur, body), body)| < |TrunkMerge(cur, body)|
  {
    MarkerFacts();
    var before := cur + "\n";
    var once := before + TrunksStart + "\n" + body + TrunksEnd + "\n";
    assert TrunkMerge(cur, body) == once;
    NewlineBarrier(cur, TrunksStart, TrunksEnd);
    assert before + TrunksStart == cur + "\n" + TrunksStart;
    assert CleanOf(before, TrunksEnd);
    LayoutEnd(before, body, "\n");
    var q := |before| + |TrunksStart| + 1 + |body|;
    assert once[q + |TrunksEnd|..] == "\n";
    assert IndexOf("\n", TrunksEnd, 0) == -1;
    SplitSecondIsRest(once, TrunksEnd, q);
    StartKept(cur, once);
  }

  /** A START in `cur` is found, no later, in a text that begins with `cur`. */
  lemma StartKept(cur: string, s: string)
    requires Contains(cur, TrunksStart) && |cur| <= |s| && s[..|cur|] == cur
    ensures Contains(s, TrunksStart)
    ensures IndexOf(s, TrunksStart, 0) + |TrunksStart| <= |cur|
  {
    var i := IndexOf(cur, TrunksStart, 0);
    PrefixOccurs(cur, s, TrunksStart, i);
    IndexOfLeast(s, TrunksStart, 0);
  }

  /** An occurrence in a prefix is an occurrence in the whole text. */
  lemma PrefixOccurs(t: string, s: string, p: string, i: nat)
    requires |t| <= |s| && s[..|t|] == t && OccursAt(t, p, i)
    ensures OccursAt(s, p, i)
  {
    assert s[i..i + |p|] == s[..|t|][i..i + |p|];
  }
}
