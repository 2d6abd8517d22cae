/**
 * The extension service of the Nest backend: extension documents keyed by
 * their number, sip.conf regenerated from them, and the `[internal]`
 * context of extensions.conf that dials each of them, with a default
 * `[from-trunk]` context added when the file has none.
 */
module Extensions {
  import opened Text
  import opened Records
  import opened Sections
  import opened Dialplan
  import opened Store
  import opened Ami

  /** The natural key of an extension document. */
  function ExtensionNumber(e: Extension): string { e.extension }

  /** Every extension number is free of `[`. */
  predicate PlainNumbers(exts: seq<Extension>)
  {
    forall i :: 0 <= i < |exts| ==> Plain(exts[i].extension)
  }

  // ---------------------------------------------------------------------
  // sip.conf
  // ---------------------------------------------------------------------

  /**
   * The fixed texts the service writes around what it generates: the start
   * of sip.conf, the feature codes that close `[internal]`, the
   * extensions.conf it starts from when the file is missing, and the lines
   * of the default `[from-trunk]` context. The service always holds
   * `ServiceTexts`, defined at the end of this module; the functions below
   * take the texts as a parameter so that their properties are stated for
   * any texts that keep the feature codes free of `[`.
   */
  datatype Boilerplate = Boilerplate(sipPreamble: string, featureCodes: string,
                                     confDefault: string, fromTrunkLines: string)

  /** The feature codes open no section of their own. */
  predicate MergeReady(b: Boilerplate)
  {
    Plain(b.featureCodes)
  }

  // ---------------------------------------------------------------------
  // sip.conf
  // ---------------------------------------------------------------------

  /** `key=value` (the key given with its `=`) when the value is set; an empty line otherwise. */
  function OptionalLine(key: string, value: string): string
  {
    Line(if value != "" then key + value else "")
  }

  /** Header, caller id, secret and mailbox (the number when no mailbox is set). */
  function ExtensionPeer(e: Extension): string
  {
    "\n  [" + e.extension + "](template-internal)"
    + Line("callerid=\"" + e.name + "\" <" + e.extension + ">")
    + Line("secret=" + e.secret)
    + Line("mailbox=" + Or(e.mailbox, e.extension))
  }

  /** The lines written only for a set field. */
  function ExtensionGroups(e: Extension): string
  {
    OptionalLine("email=", e.email) + OptionalLine("callgroup=", e.callGroup)
    + OptionalLine("pickupgroup=", e.pickupGroup)
  }

  /** Host, media and codec settings, each with its default. */
  function ExtensionMedia(e: Extension): string
  {
    Line("host=" + Or(e.host, "dynamic")) + Line("dtmfmode=" + Or(e.dtmfMode, "rfc2833"))
    + Line("transport=" + Or(e.transport, "udp")) + Line("nat=" + Or(e.natMode, "yes"))
    + Line("call-limit=" + IntToString(OrInt(e.callLimit, 5)))
    + Line("disallow=" + Or(e.disallow, "all")) + Line("allow=" + Or(e.allow, "ulaw,alaw,g722"))
  }

  /** One extension's section of sip.conf, derived from the template. */
  function ExtensionSection(e: Extension): string
  {
    ExtensionPeer(e) + ExtensionGroups(e) + ExtensionMedia(e) + "\n  "
  }

  /** The whole of sip.conf: the preamble, then every extension in natural order. */
  function SipConf(b: Boilerplate, exts: seq<Extension>): string
  {
    b.sipPreamble + ConcatMap(exts, ExtensionSection)
  }

  /** The rendering loop of sip.conf. */
  method RenderSipConf(b: Boilerplate, exts: seq<Extension>) returns (content: string)
    ensures content == SipConf(b, exts)
  {
    content := b.sipPreamble;
    for i := 0 to |exts|
      invariant content == b.sipPreamble + ConcatMap(exts[..i], ExtensionSection)
    {
      ConcatMapStep(exts, i, ExtensionSection);
      AppendTwice(b.sipPreamble, ConcatMap(exts[..i], ExtensionSection), ExtensionSection(exts[i]));
      content := content + ExtensionSection(exts[i]);
    }
    assert exts[..|exts|] == exts;
  }

  /** Every extension of the collection has its section in sip.conf. */
  lemma SipConfSections(b: Boilerplate, exts: seq<Extension>, i: nat)
    requires i < |exts|
    ensures Contains(SipConf(b, exts), ExtensionSection(exts[i]))
  {
    ConcatMapContains(exts, i, ExtensionSection);
    ContainsPrefixed(b.sipPreamble, ConcatMap(exts, ExtensionSection), ExtensionSection(exts[i]));
  }

  /** An extension with every unset setting replaced by the value its section writes. */
  function WithDefaults(e: Extension): Extension
  {
    e.(mailbox := Or(e.mailbox, e.extension), host := Or(e.host, "dynamic"),
       dtmfMode := Or(e.dtmfMode, "rfc2833"), transport := Or(e.transport, "udp"),
       natMode := Or(e.natMode, "yes"), callLimit := OrInt(e.callLimit, 5),
       disallow := Or(e.disallow, "all"), allow := Or(e.allow, "ulaw,alaw,g722"))
  }

  /**
   * The section of an extension is that of the extension with its defaults
   * filled in; an extension without a mailbox gets the mailbox of its own
   * number, and a set e-mail address or group gets its line.
   */
  lemma ExtensionSectionDefaults(e: Extension)
    ensures ExtensionSection(e) == ExtensionSection(WithDefaults(e))
    ensures e.mailbox == "" ==> Contains(ExtensionSection(e), Line("mailbox=" + e.extension))
    ensures e.email != "" ==> Contains(ExtensionSection(e), Line("email=" + e.email))
    ensures e.callGroup != "" ==> Contains(ExtensionSection(e), Line("callgroup=" + e.callGroup))
    ensures e.pickupGroup != "" ==> Contains(ExtensionSection(e), Line("pickupgroup=" + e.pickupGroup))
  {
    var d := WithDefaults(e);
    assert ExtensionPeer(d) == ExtensionPeer(e) by {
      assert Or(d.mailbox, d.extension) == Or(e.mailbox, e.extension);
    }
    assert ExtensionMedia(d) == ExtensionMedia(e) by {
      assert OrInt(d.callLimit, 5) == OrInt(e.callLimit, 5);
    }
    var head := "\n  [" + e.extension + "](template-internal)"
      + Line("callerid=\"" + e.name + "\" <" + e.extension + ">") + Line("secret=" + e.secret);
    ContainsEnd(head, Line("mailbox=" + Or(e.mailbox, e.extension)));
    InPeer(e, Line("mailbox=" + Or(e.mailbox, e.extension)));
    var g1 := OptionalLine("email=", e.email);
    var g2 := OptionalLine("callgroup=", e.callGroup);
    var g3 := OptionalLine("pickupgroup=", e.pickupGroup);
    ContainsStart(g1, g2);
    ContainsExtend(g1 + g2, g3, g1);
    InGroups(e, g1);
    ContainsEnd(g1, g2);
    ContainsExtend(g1 + g2, g3, g2);
    InGroups(e, g2);
    ContainsEnd(g1 + g2, g3);
    InGroups(e, g3);
  }

  lemma InPeer(e: Extension, p: string)
    requires Contains(ExtensionPeer(e), p)
    ensures Contains(ExtensionSection(e), p)
  {
    ContainsExtend(ExtensionPeer(e), ExtensionGroups(e), p);
    ContainsExtend(ExtensionPeer(e) + ExtensionGroups(e), ExtensionMedia(e), p);
    ContainsExtend(ExtensionPeer(e) + ExtensionGroups(e) + ExtensionMedia(e), "\n  ", p);
  }

  lemma InGroups(e: Extension, p: string)
    requires Contains(ExtensionGroups(e), p)
    ensures Contains(ExtensionSection(e), p)
  {
    ContainsPrefixed(ExtensionPeer(e), ExtensionGroups(e), p);
    ContainsExtend(ExtensionPeer(e) + ExtensionGroups(e), ExtensionMedia(e), p);
    ContainsExtend(ExtensionPeer(e) + ExtensionGroups(e) + ExtensionMedia(e), "\n  ", p);
  }

  // ---------------------------------------------------------------------
  // The [internal] context of extensions.conf
  // ---------------------------------------------------------------------

  const InternalIntro := "\n  ; Internal extensions pattern\n  "

  /** The three lines that ring one extension for 20 seconds, then a blank line. */
  function InternalExtension(e: Extension): string
  {
    var n := e.extension;
    Exten(n, "1", "NoOp(Dialing extension " + n + ")") + "  "
    + Exten(n, "n", "Dial(SIP/" + n + ",20)") + "  "
    + Exten(n, "n", "Hangup()") + "  \n  "
  }

  /** The line that rings the extension. */
  function DialLine(n: string): string
  {
    Exten(n, "n", "Dial(SIP/" + n + ",20)")
  }

  /** What follows the header: the extensions in natural order, then the feature codes. */
  function InternalBody(b: Boilerplate, exts: seq<Extension>): string
  {
    InternalIntro + ConcatMap(exts, InternalExtension) + b.featureCodes
  }

  function InternalContext(b: Boilerplate, exts: seq<Extension>): string
  {
    InternalHeader + InternalBody(b, exts)
  }

  /** The context loop: three lines and a blank line per extension, then the feature codes. */
  method BuildInternalBody(b: Boilerplate, exts: seq<Extension>) returns (body: string)
    ensures body == InternalBody(b, exts)
  {
    body := InternalIntro;
    for i := 0 to |exts|
      invariant body == InternalIntro + ConcatMap(exts[..i], InternalExtension)
    {
      ConcatMapStep(exts, i, InternalExtension);
      AppendTwice(InternalIntro, ConcatMap(exts[..i], InternalExtension), InternalExtension(exts[i]));
      body := body + InternalExtension(exts[i]);
    }
    assert exts[..|exts|] == exts;
    body := body + b.featureCodes;
  }

  /** With numbers free of `[`, the context opens no section besides its own. */
  lemma InternalContextIsSection(b: Boilerplate, exts: seq<Extension>)
    requires MergeReady(b) && PlainNumbers(exts)
    ensures BracketHeader(InternalHeader)
    ensures SectionText(InternalContext(b, exts), InternalHeader)
  {
    InternalBodyPlain(b, exts);
    InternalName();
    SectionOfPlain("internal", InternalBody(b, exts));
    assert "[" + "internal" + "]" == InternalHeader;
  }

  lemma InternalName()
    ensures HeaderName("internal")
  {
  }

  lemma InternalBodyPlain(b: Boilerplate, exts: seq<Extension>)
    requires MergeReady(b) && PlainNumbers(exts)
    ensures Plain(InternalBody(b, exts))
  {
    forall i | 0 <= i < |exts| ensures Plain(InternalExtension(exts[i])) {
      InternalExtensionPlain(exts[i]);
    }
    ConcatMapPlain(exts, InternalExtension);
    InternalIntroPlain();
  }

  lemma InternalIntroPlain()
    ensures Plain(InternalIntro)
  {
  }

  lemma InternalExtensionPlain(e: Extension)
    requires Plain(e.extension)
    ensures Plain(InternalExtension(e))
  {
    var n := e.extension;
    ExtenPlain(n, "1", "NoOp(Dialing extension " + n + ")");
    ExtenPlain(n, "n", "Dial(SIP/" + n + ",20)");
    ExtenPlain(n, "n", "Hangup()");
  }

  /** The lines of an extension include the one that rings it. */
  lemma InternalExtensionDials(e: Extension)
    ensures Contains(InternalExtension(e), DialLine(e.extension))
  {
    var n := e.extension;
    var first := Exten(n, "1", "NoOp(Dialing extension " + n + ")") + "  ";
    assert InternalExtension(e) == first + DialLine(n) + ("  " + Exten(n, "n", "Hangup()") + "  \n  ");
    ContainsMiddle(first, DialLine(n), "  " + Exten(n, "n", "Hangup()") + "  \n  ");
  }

  /** Every extension is dialled from the context. */
  lemma InternalContextDials(b: Boilerplate, exts: seq<Extension>, i: nat)
    requires i < |exts|
    ensures Contains(InternalContext(b, exts), DialLine(exts[i].extension))
  {
    var p := DialLine(exts[i].extension);
    var dials := ConcatMap(exts, InternalExtension);
    InternalExtensionDials(exts[i]);
    ConcatMapContains(exts, i, InternalExtension);
    ContainsTrans(dials, InternalExtension(exts[i]), p);
    ContainsPrefixed(InternalIntro, dials, p);
    ContainsExtend(InternalIntro + dials, b.featureCodes, p);
    ContainsPrefixed(InternalHeader, InternalBody(b, exts), p);
  }

  // ---------------------------------------------------------------------
  // extensions.conf after a sync
  // ---------------------------------------------------------------------

  /** The default `[from-trunk]` context: its header, then its lines. */
  function FromTrunkDefault(b: Boilerplate): (r: string)
    ensures Contains(r, FromTrunkHeader) && r[0] == '['
  {
    ContainsStart(FromTrunkHeader, b.fromTrunkLines);
    FromTrunkHeader + b.fromTrunkLines
  }

  /**
   * The `[internal]` span (from its header to the next `[` after it)
   * replaced, or the context appended with nothing in between.
   */
  function InternalMerged(b: Boilerplate, current: string, exts: seq<Extension>): string
  {
    ReplaceContext(current, InternalHeader, InternalContext(b, exts), "")
  }

  /** The default `[from-trunk]` appended when the text has none. */
  function WithFromTrunk(b: Boilerplate, merged: string): (r: string)
    ensures Contains(r, FromTrunkHeader)
  {
    if Contains(merged, FromTrunkHeader) then merged
    else
      ContainsPrefixed(merged, FromTrunkDefault(b), FromTrunkHeader);
      merged + FromTrunkDefault(b)
  }

  /** Nothing the merged text holds is lost by adding `[from-trunk]`. */
  lemma WithFromTrunkKeeps(b: Boilerplate, merged: string, p: string)
    requires Contains(merged, p)
    ensures Contains(WithFromTrunk(b, merged), p)
  {
    if !Contains(merged, FromTrunkHeader) {
      ContainsExtend(merged, FromTrunkDefault(b), p);
    }
  }

  /** `[internal]` merged, then `[from-trunk]` added when missing. */
  function ExtensionsDialplan(b: Boilerplate, current: string, exts: seq<Extension>): string
  {
    WithFromTrunk(b, InternalMerged(b, current, exts))
  }

  /** The merged text holds every extension's dial line and a `[from-trunk]` context. */
  lemma ExtensionsDialplanCovers(b: Boilerplate, current: string, exts: seq<Extension>, i: nat)
    requires i < |exts|
    ensures Contains(ExtensionsDialplan(b, current, exts), DialLine(exts[i].extension))
    ensures Contains(ExtensionsDialplan(b, current, exts), FromTrunkHeader)
  {
    var merged := InternalMerged(b, current, exts);
    ReplaceContextHolds(current, InternalHeader, InternalContext(b, exts), "");
    InternalContextDials(b, exts, i);
    ContainsTrans(merged, InternalContext(b, exts), DialLine(exts[i].extension));
    WithFromTrunkKeeps(b, merged, DialLine(exts[i].extension));
  }

  /**
   * Replacing the `[internal]` span keeps a `[from-trunk]` header: it lies
   * before the span or after it, since both headers start with `[` and
   * the span ends at the next `[`.
   */
  lemma MergeKeepsFromTrunk(current: string, ctx: string)
    requires Contains(current, FromTrunkHeader)
    ensures Contains(ReplaceContext(current, InternalHeader, ctx, ""), FromTrunkHeader)
  {
    var merged := ReplaceContext(current, InternalHeader, ctx, "");
    var k := IndexOf(current, FromTrunkHeader, 0);
    var i := IndexOf(current, InternalHeader, 0);
    if i == -1 {
      assert merged == current + "" + ctx;
      assert merged[k..k + |FromTrunkHeader|] == current[k..k + |FromTrunkHeader|];
      assert OccursAt(merged, FromTrunkHeader, k);
    } else {
      var e := SectionEnd(current, i + 1);
      ReplaceContextAt(current, InternalHeader, ctx, "", i, e);
      assert current[k] == '[' by {
        assert current[k..k + |FromTrunkHeader|][0] == FromTrunkHeader[0];
      }
      assert current[i + 1] == 'i' by {
        assert current[i..i + |InternalHeader|][1] == InternalHeader[1];
      }
      assert current[k + 1] == 'f' by {
        assert current[k..k + |FromTrunkHeader|][1] == FromTrunkHeader[1];
      }
      if k < i {
        assert current[i] == '[' by {
          assert current[i..i + |InternalHeader|][0] == InternalHeader[0];
        }
        EndsBeforeNext(current, FromTrunkHeader, '[', k, i);
        OccursBeforeSplice(current, FromTrunkHeader, k, i, e, ctx);
      } else {
        assert e <= k;
        OccursAfterSplice(current, FromTrunkHeader, k, i, e, ctx);
      }
    }
    ContainsIffOccurs(merged, FromTrunkHeader);
  }

  /**
   * A `[from-trunk]` context already in the file is never rewritten and no
   * second one is added: the text gets nothing appended.
   */
  lemma FromTrunkKept(b: Boilerplate, current: string, exts: seq<Extension>)
    requires Contains(current, FromTrunkHeader)
    ensures ExtensionsDialplan(b, current, exts) == InternalMerged(b, current, exts)
  {
    MergeKeepsFromTrunk(current, InternalContext(b, exts));
  }

  /** Merging a section and adding `[from-trunk]` twice gives what doing it once gave. */
  lemma MergeIdempotent(b: Boilerplate, current: string, ctx: string)
    requires SectionText(ctx, InternalHeader)
    ensures var once := WithFromTrunk(b, ReplaceContext(current, InternalHeader, ctx, ""));
      WithFromTrunk(b, ReplaceContext(once, InternalHeader, ctx, "")) == once
  {
    var merged := ReplaceContext(current, InternalHeader, ctx, "");
    if Contains(merged, FromTrunkHeader) {
      ReplaceContextIdempotent(current, InternalHeader, ctx, "");
    } else {
      ReplaceContextIdempotentBefore(current, InternalHeader, ctx, "", FromTrunkDefault(b));
    }
  }

  /** Syncing twice with the same extensions leaves extensions.conf as syncing once did. */
  lemma ExtensionsDialplanIdempotent(b: Boilerplate, current: string, exts: seq<Extension>)
    requires MergeReady(b) && PlainNumbers(exts)
    ensures ExtensionsDialplan(b, ExtensionsDialplan(b, current, exts), exts) == ExtensionsDialplan(b, current, exts)
  {
    InternalContextIsSection(b, exts);
    MergeIdempotent(b, current, InternalContext(b, exts));
  }

  /**
   * The merge as `updateExtensionsConf` performs it: the `[internal]` span
   * cut out and the new context written at its place, or the context
   * appended; then `[from-trunk]` appended when the result has none.
   */
  method MergeExtensionsConf(b: Boilerplate, current: string, all: seq<Extension>) returns (merged: string)
    ensures merged == ExtensionsDialplan(b, current, all)
  {
    var body := BuildInternalBody(b, all);
    var start := IndexOf(current, InternalHeader, 0);
    if start != -1 {
      var end := IndexOf(current, "[", start + 1);
      if end == -1 {
        end := |current|;
      }
      merged := current[..start] + InternalHeader + body + current[end..];
    } else {
      merged := current + InternalHeader + body;
    }
    ReplaceContextWritten(current, InternalHeader, body);
    var fromTrunk := IndexOf(merged, FromTrunkHeader, 0);
    if fromTrunk == -1 {
      merged := merged + (FromTrunkHeader + b.fromTrunkLines);
    }
  }

  // ---------------------------------------------------------------------
  // What one sync writes and sends
  // ---------------------------------------------------------------------

  /** The files after a sync: sip.conf rewritten whole, extensions.conf merged. */
  function ExtensionSyncFiles(b: Boilerplate, files: map<string, string>, exts: seq<Extension>)
    : (r: map<string, string>)
    ensures SipConfFile in r && ExtensionsConfFile in r
  {
    files[SipConfFile := SipConf(b, exts)]
         [ExtensionsConfFile := ExtensionsDialplan(b, FileOr(files, ExtensionsConfFile, b.confDefault), exts)]
  }

  /**
   * The reloads a sync asks for: `dialplan` first, whose answer is only
   * logged, then `sip`, which is awaited.
   */
  function ExtensionSyncSent(connected: bool): (r: seq<ActionParams>)
    ensures |r| == (if connected then 2 else 0)
    ensures connected ==> r == [ReloadAction("dialplan"), ReloadAction("sip")]
  {
    SentIf(connected, ReloadAction("dialplan")) + SentIf(connected, ReloadAction("sip"))
  }

  /** A sync touches no file but sip.conf and extensions.conf, and creates no other. */
  lemma ExtensionSyncKeepsOthers(b: Boilerplate, files: map<string, string>, exts: seq<Extension>)
    ensures var r := ExtensionSyncFiles(b, files, exts);
      (forall n :: n in files && n != SipConfFile && n != ExtensionsConfFile ==> n in r && r[n] == files[n]) &&
      (forall n :: n in r ==> n in files || n == SipConfFile || n == ExtensionsConfFile)
  {
    WriteTwoKeepsOthers(files, SipConfFile, SipConf(b, exts), ExtensionsConfFile,
                        ExtensionsDialplan(b, FileOr(files, ExtensionsConfFile, b.confDefault), exts));
  }

  /** Syncing again with the same extensions rewrites both files with the text they hold. */
  lemma ExtensionSyncIdempotent(b: Boilerplate, files: map<string, string>, exts: seq<Extension>)
    requires MergeReady(b) && PlainNumbers(exts)
    ensures ExtensionSyncFiles(b, ExtensionSyncFiles(b, files, exts), exts) == ExtensionSyncFiles(b, files, exts)
  {
    var current := FileOr(files, ExtensionsConfFile, b.confDefault);
    var merged := ExtensionsDialplan(b, current, exts);
    WriteTwoAgain(files, SipConfFile, SipConf(b, exts), ExtensionsConfFile, merged);
    var once := files[SipConfFile := SipConf(b, exts)][ExtensionsConfFile := merged];
    assert ExtensionSyncFiles(b, files, exts) == once;
    ExtensionsDialplanIdempotent(b, current, exts);
    assert ExtensionSyncFiles(b, once, exts) == once[SipConfFile := SipConf(b, exts)][ExtensionsConfFile := merged] by {
      assert FileOr(once, ExtensionsConfFile, b.confDefault) == merged;
    }
  }

  /** After a sync every extension has its peer in sip.conf and its dial line in extensions.conf. */
  lemma ExtensionSyncCovers(b: Boilerplate, files: map<string, string>, exts: seq<Extension>, i: nat)
    requires i < |exts|
    ensures Contains(ExtensionSyncFiles(b, files, exts)[SipConfFile], ExtensionSection(exts[i]))
    ensures Contains(ExtensionSyncFiles(b, files, exts)[ExtensionsConfFile], DialLine(exts[i].extension))
    ensures Contains(ExtensionSyncFiles(b, files, exts)[ExtensionsConfFile], FromTrunkHeader)
  {
    SipConfSections(b, exts, i);
    ExtensionsDialplanCovers(b, FileOr(files, ExtensionsConfFile, b.confDefault), exts, i);
  }

  // ---------------------------------------------------------------------
  // The service
  // ---------------------------------------------------------------------

  /**
   * The extension service over its collection, the configuration directory
   * and the manager session. A reload's answer is a parameter (`...Reply`).
   */
  class ExtensionsService {
    const extensions: Collection<Extension>
    const files: ConfigFiles
    const ami: AsteriskService
    /** The fixed texts it writes: always `ServiceTexts`. */
    const texts: Boilerplate

    /** Ids are unique and no two extensions share a number. */
    predicate Valid()
      reads this, extensions
    {
      extensions.Valid() && KeysUnique(extensions.items, ExtensionNumber)
    }

    constructor(extensions: Collection<Extension>, files: ConfigFiles, ami: AsteriskService)
      requires extensions.Valid() && KeysUnique(extensions.items, ExtensionNumber)
      ensures this.extensions == extensions && this.files == files && this.ami == ami
      ensures texts == ServiceTexts && MergeReady(texts)
      ensures Valid()
    {
      this.extensions := extensions;
      this.files := files;
      this.ami := ami;
      texts := ServiceTexts;
      ServiceTextsReady();
    }

    /**
     * `updateExtensionsConf`: merge `[internal]`, add `[from-trunk]` when
     * missing, write, and ask for a dialplan reload whose outcome is only logged.
     */
    method UpdateExtensionsConf(all: seq<Extension>, dialplanReply: Result<Response>)
      modifies files, ami
      ensures files.files == old(files.files)[ExtensionsConfFile :=
        ExtensionsDialplan(texts, FileOr(old(files.files), ExtensionsConfFile, texts.confDefault), all)]
      ensures ami.sent == old(ami.sent) + SentIf(old(ami.connected), ReloadAction("dialplan"))
      ensures ami.Session() == old(ami.Session())
    {
      var current := texts.confDefault;
      if ExtensionsConfFile in files.files {
        current := files.files[ExtensionsConfFile];
      }
      var merged := MergeExtensionsConf(texts, current, all);
      files.Write(ExtensionsConfFile, merged);
      var logged := ami.ReloadModule("dialplan", dialplanReply);
    }

    /** `updateAsteriskConfig`: sip.conf and extensions.conf from every extension, then `sip` reloaded. */
    method SyncAsterisk(dialplanReply: Result<Response>, sipReply: Result<Response>) returns (r: Result<()>)
      modifies files, ami
      ensures files.files == ExtensionSyncFiles(texts, old(files.files), extensions.Stored())
      ensures ami.sent == old(ami.sent) + ExtensionSyncSent(old(ami.connected))
      ensures r == Done(Awaited(old(ami.connected), sipReply))
      ensures ami.Session() == old(ami.Session())
    {
      ghost var sent0, connected := ami.sent, ami.connected;
      var all := extensions.Stored();
      var content := RenderSipConf(texts, all);
      ghost var files0 := files.files;
      files.Write(SipConfFile, content);
      UpdateExtensionsConf(all, dialplanReply);
      assert FileOr(files0[SipConfFile := content], ExtensionsConfFile, texts.confDefault)
          == FileOr(files0, ExtensionsConfFile, texts.confDefault) by {
        assert |SipConfFile| != |ExtensionsConfFile|;
        FileOrOther(files0, SipConfFile, content, ExtensionsConfFile, texts.confDefault);
      }
      assert files.files == ExtensionSyncFiles(texts, files0, all);
      var reloaded := ami.ReloadModule("sip", sipReply);
      r := Done(reloaded);
      assert ami.sent == sent0 + ExtensionSyncSent(connected) by {
        AppendTwice(sent0, SentIf(connected, ReloadAction("dialplan")), SentIf(connected, ReloadAction("sip")));
      }
    }

    /** `findOne(id)`. */
    method Get(id: nat) returns (r: Result<Extension>)
      requires Valid()
      ensures Records.FindById(extensions.items, id).None? ==> r == Err(NotFound("extension"))
      ensures Records.FindById(extensions.items, id).Some? ==>
        r == Ok(extensions.items[Records.FindById(extensions.items, id).value].rec)
    {
      var k := extensions.FindById(id);
      if k.None? {
        return Err(NotFound("extension"));
      }
      r := Ok(extensions.items[k.value].rec);
    }

    /** `findByExtensionNumber`: the first extension with that number. */
    method FindByNumber(number: string) returns (r: Result<Extension>)
      ensures !KeyHeldByOther(extensions.items, ExtensionNumber, number, None) ==> r == Err(NotFound("extension"))
      ensures KeyHeldByOther(extensions.items, ExtensionNumber, number, None) ==> r.Ok?
      ensures r.Ok? ==> r.value.extension == number && exists j :: 0 <= j < |extensions.items| && extensions.items[j].rec == r.value
    {
      var k := extensions.FindOne(ExtensionNumber, number, None);
      if k.None? {
        return Err(NotFound("extension"));
      }
      r := Ok(extensions.items[k.value].rec);
    }

    /** `create`: refused when any extension has the number; otherwise saved, then synced. */
    method Create(x: Extension, dialplanReply: Result<Response>, sipReply: Result<Response>)
      returns (r: Result<Entry<Extension>>)
      requires Valid()
      modifies extensions, files, ami
      ensures Valid() && ami.Session() == old(ami.Session())
      ensures KeyHeldByOther(old(extensions.items), ExtensionNumber, x.extension, None) ==>
        r == Err(Conflict(x.extension)) && extensions.items == old(extensions.items) &&
        files.files == old(files.files) && ami.sent == old(ami.sent)
      ensures !KeyHeldByOther(old(extensions.items), ExtensionNumber, x.extension, None) ==>
        extensions.items == old(extensions.items) + [Entry(old(extensions.nextId), x)] &&
        files.files == ExtensionSyncFiles(texts, old(files.files), extensions.Stored()) &&
        ami.sent == old(ami.sent) + ExtensionSyncSent(old(ami.connected)) &&
        r == Then(Done(Awaited(old(ami.connected), sipReply)), Entry(old(extensions.nextId), x))
    {
      var existing := extensions.FindOne(ExtensionNumber, x.extension, None);
      if existing.Some? {
        return Err(Conflict(x.extension));
      }
      AppendKeepsKeysUnique(extensions.items, ExtensionNumber, Entry(extensions.nextId, x));
      var id := extensions.Insert(x);
      var synced := SyncAsterisk(dialplanReply, sipReply);
      r := Then(synced, Entry(id, x));
    }

    /**
     * `update`: missing id, then a clash of a new non-empty number with
     * another extension, are refused; otherwise the fields are assigned and
     * the configuration synced. `number` is the DTO's extension field,
     * `patch` its assignment.
     */
    method Update(id: nat, number: Option<string>, patch: Extension -> Extension,
                  dialplanReply: Result<Response>, sipReply: Result<Response>)
      returns (r: Result<Extension>)
      requires Valid() && SetsKey(patch, ExtensionNumber, number)
      modifies extensions, files, ami
      ensures Valid() && ami.Session() == old(ami.Session())
      ensures Records.FindById(old(extensions.items), id).None? ==>
        r == Err(NotFound("extension")) && extensions.items == old(extensions.items) &&
        files.files == old(files.files) && ami.sent == old(ami.sent)
      ensures Records.FindById(old(extensions.items), id).Some? ==>
        var k := Records.FindById(old(extensions.items), id).value;
        (RenameConflict(old(extensions.items), ExtensionNumber, k, number) ==>
          r == Err(Conflict(number.value)) && extensions.items == old(extensions.items) &&
          files.files == old(files.files) && ami.sent == old(ami.sent)) &&
        (!RenameConflict(old(extensions.items), ExtensionNumber, k, number) ==>
          extensions.items == old(extensions.items)[k := Entry(id, patch(old(extensions.items)[k].rec))] &&
          files.files == ExtensionSyncFiles(texts, old(files.files), extensions.Stored()) &&
          ami.sent == old(ami.sent) + ExtensionSyncSent(old(ami.connected)) &&
          r == Then(Done(Awaited(old(ami.connected), sipReply)), patch(old(extensions.items)[k].rec)))
    {
      var found := extensions.FindById(id);
      if found.None? {
        return Err(NotFound("extension"));
      }
      var k := found.value;
      var current := extensions.items[k].rec;
      if number.Some? && number.value != "" && number.value != current.extension {
        var other := extensions.FindOne(ExtensionNumber, number.value, Some(id));
        if other.Some? {
          return Err(Conflict(number.value));
        }
      }
      UpdateKeepsKeysUnique(extensions.items, ExtensionNumber, k, number, patch);
      var updated := patch(current);
      extensions.Replace(k, updated);
      var synced := SyncAsterisk(dialplanReply, sipReply);
      r := Then(synced, updated);
    }

    /** `remove`: a missing id is refused; otherwise the extension is deleted and the configuration synced. */
    method Remove(id: nat, dialplanReply: Result<Response>, sipReply: Result<Response>)
      returns (r: Result<Extension>)
      requires Valid()
      modifies extensions, files, ami
      ensures Valid() && ami.Session() == old(ami.Session())
      ensures Records.FindById(old(extensions.items), id).None? ==>
        r == Err(NotFound("extension")) && extensions.items == old(extensions.items) &&
        files.files == old(files.files) && ami.sent == old(ami.sent)
      ensures Records.FindById(old(extensions.items), id).Some? ==>
        var k := Records.FindById(old(extensions.items), id).value;
        extensions.items == old(extensions.items)[..k] + old(extensions.items)[k + 1..] &&
        files.files == ExtensionSyncFiles(texts, old(files.files), extensions.Stored()) &&
        ami.sent == old(ami.sent) + ExtensionSyncSent(old(ami.connected)) &&
        r == Then(Done(Awaited(old(ami.connected), sipReply)), old(extensions.items)[k].rec)
    {
      var found := extensions.FindById(id);
      if found.None? {
        return Err(NotFound("extension"));
      }
      RemoveKeepsKeysUnique(extensions.items, ExtensionNumber, found.value);
      var removed := extensions.Delete(found.value);
      var synced := SyncAsterisk(dialplanReply, sipReply);
      r := Then(synced, removed.rec);
    }
  }
  // ---------------------------------------------------------------------
  // The fixed texts
  // ---------------------------------------------------------------------

  /** The fixed start of sip.conf: `[general]`, then the `[template-internal](!)` template. */
  const SipPreambleLines: seq<string> := [
    "context=default", "allowoverlap=no", "udpbindaddr=0.0.0.0", "tcpbindaddr=0.0.0.0",
    "tcpenable=yes", "transport=udp,tcp", "srvlookup=yes", "realm=pbx.local", "useragent=NestPBX",
    "alwaysauthreject=yes", "rtcachefriends=yes", "rtsavesysname=yes", "rtupdate=yes",
    "rtautoclear=yes", "ignoreregexpire=no", "registertimeout=20", "registerattempts=10",
    "notifyringing=yes", "notifyhold=yes", "notifycid=yes", "callevents=yes", "allowsubscribe=yes",
    "subscribecontext=default", "language=en", "videosupport=yes", "disallow=all", "allow=alaw",
    "allow=ulaw", "allow=gsm", "allow=g722", "allow=h264", "allow=h263", "allow=h263p",
    "nat=force_rport,comedia", "directmedia=no", "", "; M\U{1EAB}u SIP client",
    "[template-internal](!)", "type=friend", "host=dynamic", "context=internal", "disallow=all",
    "allow=alaw", "allow=ulaw", "allow=gsm", "nat=force_rport,comedia", "qualify=yes",
    "directmedia=no", "dtmfmode=auto", "call-limit=5", "videosupport=yes", "",
    "; Extension \U{111}\U{1B0}\U{1EE3}c t\U{1EA1}o b\U{1EDF}i NestJS API", ""
  ]

  const SipPreamble := "[general]" + Indented(SipPreambleLines)

  /** The fixed feature codes: voicemail *98, echo test *43, time *60, pickup *8. */
  const VoicemailCode :=
    Line("; Voicemail access") + ExtenLine("*98", "1", "NoOp(Voicemail)")
    + ExtenLine("*98", "n", "VoiceMailMain(${CALLERID(num)}@default)") + ExtenLine("*98", "n", "Hangup()")
    + Line("")

  const EchoTestCode :=
    Line("; Echo Test") + ExtenLine("*43", "1", "NoOp(Echo Test)") + ExtenLine("*43", "n", "Answer()")
    + ExtenLine("*43", "n", "Playback(demo-echotest)") + ExtenLine("*43", "n", "Echo()")
    + ExtenLine("*43", "n", "Playback(demo-echodone)") + ExtenLine("*43", "n", "Hangup()") + Line("")

  const TimeCode :=
    Line("; Time") + ExtenLine("*60", "1", "NoOp(Time)") + ExtenLine("*60", "n", "Answer()")
    + ExtenLine("*60", "n", "Wait(1)") + ExtenLine("*60", "n", "SayUnixTime()")
    + ExtenLine("*60", "n", "Hangup()") + Line("")

  const PickupCode :=
    Line("; Call Pickup") + ExtenLine("*8", "1", "NoOp(Call Pickup)") + ExtenLine("*8", "n", "PickUp()")
    + ExtenLine("*8", "n", "Hangup()") + Line("")

  const FeatureCodes := VoicemailCode + EchoTestCode + TimeCode + PickupCode + Line("")

  lemma VoicemailCodePlain()
    ensures Plain(VoicemailCode)
  {
    LinePlain("; Voicemail access");
    ExtenLinePlain("*98", "1", "NoOp(Voicemail)");
    ExtenLinePlain("*98", "n", "VoiceMailMain(${CALLERID(num)}@default)");
    ExtenLinePlain("*98", "n", "Hangup()");
    LinePlain("");
  }

  lemma EchoTestCodePlain()
    ensures Plain(EchoTestCode)
  {
    LinePlain("; Echo Test");
    ExtenLinePlain("*43", "1", "NoOp(Echo Test)");
    ExtenLinePlain("*43", "n", "Answer()");
    ExtenLinePlain("*43", "n", "Playback(demo-echotest)");
    ExtenLinePlain("*43", "n", "Echo()");
    ExtenLinePlain("*43", "n", "Playback(demo-echodone)");
    ExtenLinePlain("*43", "n", "Hangup()");
    LinePlain("");
  }

  lemma TimeCodePlain()
    ensures Plain(TimeCode)
  {
    LinePlain("; Time");
    ExtenLinePlain("*60", "1", "NoOp(Time)");
    ExtenLinePlain("*60", "n", "Answer()");
    ExtenLinePlain("*60", "n", "Wait(1)");
    ExtenLinePlain("*60", "n", "SayUnixTime()");
    ExtenLinePlain("*60", "n", "Hangup()");
    LinePlain("");
  }

  lemma PickupCodePlain()
    ensures Plain(PickupCode)
  {
    LinePlain("; Call Pickup");
    ExtenLinePlain("*8", "1", "NoOp(Call Pickup)");
    ExtenLinePlain("*8", "n", "PickUp()");
    ExtenLinePlain("*8", "n", "Hangup()");
    LinePlain("");
  }

  lemma FeatureCodesPlain()
    ensures Plain(FeatureCodes)
  {
    VoicemailCodePlain();
    EchoTestCodePlain();
    TimeCodePlain();
    PickupCodePlain();
    LinePlain("");
  }

  /** The extensions.conf this service starts from when the file is missing. */
  const ExtensionsConfDefaultLines: seq<string> := [
    "static=yes", "writeprotect=no", "autofallthrough=yes", "extenpatternmatchnew=yes",
    "clearglobalvars=no", "", "[globals]", "CONSOLE=Console/dsp", "IAXINFO=guest",
    "TRUNK=DAHDI/G2", "TRUNKMSD=1", "", "[default]",
    "exten => s,1,Verbose(1,Unrouted call handler)", "exten => s,n,Answer()",
    "exten => s,n,Wait(1)", "exten => s,n,Playback(tt-weasels)", "exten => s,n,Hangup()", "",
    "exten => _.,1,Verbose(1,Catch-all extension)", "exten => _.,n,Answer()",
    "exten => _.,n,Wait(1)", "exten => _.,n,Playback(invalid)", "exten => _.,n,Hangup()", "", ""
  ]

  const ExtensionsConfDefault := "[general]" + Indented(ExtensionsConfDefaultLines)

  /** Inbound trunk calls go to extension 100 of `[internal]`. */
  const FromTrunkBody: seq<string> := [
    "; Inbound calls from trunks will be handled by this context",
    "exten => _X.,1,NoOp(Inbound call from trunk)",
    "exten => _X.,n,Set(CALLERID(name)=${CALLERID(num)})",
    "exten => _X.,n,Goto(internal,100,1)  ; Redirect to the operator/receptionist", ""
  ]

  const FromTrunkLines := Indented(FromTrunkBody)

  /** The texts the service writes. */
  const ServiceTexts := Boilerplate(SipPreamble, FeatureCodes, ExtensionsConfDefault, FromTrunkLines)

  lemma ServiceTextsReady()
    ensures MergeReady(ServiceTexts)
  {
    FeatureCodesPlain();
  }

}
