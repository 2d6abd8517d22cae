/**
 * The configuration side of the legacy Express server (backend-api/server.js):
 * which file each configuration type lives in and what a missing file reads
 * as, the section templates for extensions, trunks and queues, the
 * read-modify-write of one section with the regular-expression replace, the
 * regeneration of the `[from-internal]` and `[from-trunk]` dialplan contexts,
 * the dispatch of Asterisk events, and the active-call count of the
 * dashboard.
 */
module LegacyServer {
  import opened Text
  import opened Records
  import opened Sections
  import opened JsNumbers
  import opened Dialplan

  // ---------------------------------------------------------------------
  // Configuration types and files.
  // ---------------------------------------------------------------------

  datatype ConfigType = SipConf | PjsipConf | IaxConf | ExtensionsConf | QueuesConf

  /** The name a caller passes for a configuration type. */
  function TypeName(c: ConfigType): string
  {
    match c
    case SipConf => "sip"
    case PjsipConf => "pjsip"
    case IaxConf => "iax"
    case ExtensionsConf => "extensions"
    case QueuesConf => "queues"
  }

  function FileName(c: ConfigType): string
  {
    TypeName(c) + ".conf"
  }

  /** `getConfigPath(type)`: the file of a known type; any other name throws. */
  function GetConfigPath(t: string): (r: Result<string>)
    ensures r.Ok? <==> t in {"sip", "pjsip", "iax", "extensions", "queues"}
    ensures r.Ok? ==> r.value == t + ".conf"
    ensures r.Err? ==> r.error == UnknownConfigType(t)
  {
    if t == "sip" then Ok("sip.conf")
    else if t == "pjsip" then Ok("pjsip.conf")
    else if t == "iax" then Ok("iax.conf")
    else if t == "extensions" then Ok("extensions.conf")
    else if t == "queues" then Ok("queues.conf")
    else Err(UnknownConfigType(t))
  }

  /** Every configuration type has its file, and no two types share one. */
  lemma ConfigPathsOfTypes(c: ConfigType, d: ConfigType)
    ensures GetConfigPath(TypeName(c)) == Ok(FileName(c))
    ensures c != d ==> FileName(c) != FileName(d)
  {
    if c != d {
      assert FileName(c)[..|FileName(c)| - 5] == TypeName(c);
      assert FileName(d)[..|FileName(d)| - 5] == TypeName(d);
    }
  }

  /** The module Asterisk reloads after a file of this type is written. */
  function ReloadModuleFor(c: ConfigType): string
  {
    match c
    case SipConf => "chan_sip.so"
    case PjsipConf => "chan_pjsip.so"
    case IaxConf => "chan_iax2.so"
    case QueuesConf => "app_queue.so"
    case ExtensionsConf => "pbx_config.so"
  }

  lemma ReloadModulesDistinct(c: ConfigType, d: ConfigType)
    ensures c != d ==> ReloadModuleFor(c) != ReloadModuleFor(d)
  {
  }

  // ---------------------------------------------------------------------
  // Default skeletons for a missing file.
  // ---------------------------------------------------------------------

  const ExtensionsPreamble := ";Extensions Configuration\n\n" + "[general]\nstatic=yes\nwriteprotect=no\n\n"

  /** The three catch-all lines every `[from-internal]` starts with. */
  const FromInternalHead := "[from-internal]" + FromInternalCatchAll

  const FromInternalCatchAll :=
    "\n" +
    Exten("_X.", "1", "NoOp(Dialed extension ${EXTEN})") +
    Exten("_X.", "n", "Dial(SIP/${EXTEN},30)") +
    Exten("_X.", "n", "Hangup()") + "\n"

  const DefaultFromTrunk := "[from-trunk]" + DefaultFromTrunkLines

  const DefaultFromTrunkLines :=
    "\n" +
    Exten("_X.", "1", "NoOp(Incoming call)") +
    Exten("_X.", "n", "Goto(from-internal,${EXTEN},1)") + "\n"

  /**
   * `getDefaultConfig(type)` as the skeleton reads once `${EXTEN}` is
   * written literally, as the dialplan lines elsewhere in the server write
   * it. Unknown types give the empty text.
   */
  function DefaultConfig(t: string): string
  {
    if t == "sip" then ";SIP Configuration\n\n" + "[general]\ncontext=from-internal\nallowguest=no\n\n"
    else if t == "pjsip" then
      ";PJSIP Configuration\n\n" + "[global]\ntype=global\n\n" +
      "[transport-udp]\ntype=transport\n" + "protocol=udp\nbind=0.0.0.0\n\n"
    else if t == "iax" then ";IAX Configuration\n\n" + "[general]\nbandwidth=high\n\n"
    else if t == "extensions" then ExtensionsPreamble + FromInternalHead + DefaultFromTrunk
    else if t == "queues" then
      ";Queue Configuration\n\n" + "[general]\npersistentmembers=yes\n" + "monitor-type=MixMonitor\n\n"
    else ""
  }

  /**
   * `getDefaultConfig(type)` as written: the `extensions` skeleton is a
   * template literal in which `${EXTEN}` is an interpolation of a variable
   * the server never declares, so building it throws a ReferenceError.
   */
  function DefaultConfigAsWritten(t: string): (r: Result<string>)
    ensures r.Err? <==> t == "extensions"
    ensures r.Err? ==> r.error == ReferenceError("EXTEN")
    ensures r.Ok? ==> r.value == DefaultConfig(t)
  {
    if t == "extensions" then Err(ReferenceError("EXTEN")) else Ok(DefaultConfig(t))
  }

  /**
   * The corrected skeleton already holds both dialplan contexts, and its
   * `[from-internal]` context is exactly the one `updateDialplanConfig`
   * writes when there is no outbound route.
   */
  lemma DefaultExtensionsHoldsDialplan()
    ensures Contains(DefaultConfig("extensions"), "[from-internal]")
    ensures Contains(DefaultConfig("extensions"), "[from-trunk]")
    ensures FromInternalSection([]) == FromInternalHead
  {
    var p := ExtensionsPreamble;
    var s := DefaultConfig("extensions");
    assert s == p + ("[from-internal]" + FromInternalCatchAll) + DefaultFromTrunk;
    assert s == p + "[from-internal]" + (FromInternalCatchAll + DefaultFromTrunk);
    ContainsMiddle(p, "[from-internal]", FromInternalCatchAll + DefaultFromTrunk);
    assert s == (p + FromInternalHead) + "[from-trunk]" + DefaultFromTrunkLines;
    ContainsMiddle(p + FromInternalHead, "[from-trunk]", DefaultFromTrunkLines);
    assert FromInternalHead + "" == FromInternalHead;
  }

  /** The text `readConfigFile(type)` yields: the file, or the skeleton when missing. */
  function ReadConfigFile(files: map<string, string>, c: ConfigType): (r: string)
    ensures FileName(c) in files ==> r == files[FileName(c)]
    ensures FileName(c) !in files ==> r == DefaultConfig(TypeName(c))
  {
    if FileName(c) in files then files[FileName(c)] else DefaultConfig(TypeName(c))
  }

  /** `readConfigFile` as written: a missing `extensions.conf` throws. */
  function ReadConfigFileAsWritten(files: map<string, string>, c: ConfigType): (r: Result<string>)
    ensures r.Err? <==> c == ExtensionsConf && FileName(c) !in files
    ensures r.Ok? ==> r.value == ReadConfigFile(files, c)
  {
    if FileName(c) in files then Ok(files[FileName(c)]) else DefaultConfigAsWritten(TypeName(c))
  }

  /** On a fresh install the dialplan update fails before writing anything. */
  lemma FreshDialplanThrows(files: map<string, string>)
    requires "extensions.conf" !in files
    ensures ReadConfigFileAsWritten(files, ExtensionsConf) == Err(ReferenceError("EXTEN"))
  {
    assert FileName(ExtensionsConf) == "extensions.conf";
  }

  // ---------------------------------------------------------------------
  // Section templates.
  // ---------------------------------------------------------------------

  /** A value interpolated without a fallback: an unset one renders as "undefined". */
  function Interp(v: Option<string>): string
  {
    match v
    case None => "undefined"
    case Some(s) => s
  }

  /** The peer lines of an extension's section. */
  function ExtensionPeerLines(e: Extension): string
  {
    "\ntype=friend\n" +
    "secret=" + e.secret + "\n" +
    "host=" + Or(e.host, "dynamic") + "\n" +
    "context=" + Or(e.context, "from-internal") + "\n"
  }

  function ExtensionGroupLines(e: Extension): string
  {
    "callgroup=" + e.callGroup + "\n" +
    "pickupgroup=" + e.pickupGroup + "\n" +
    "mailbox=" + Or(e.mailbox, e.extension) + "\n" +
    "callerid=\"" + e.name + "\" <" + e.extension + ">\n"
  }

  function ExtensionMediaLines(e: Extension): string
  {
    "dtmfmode=" + Or(e.dtmfMode, "rfc2833") + "\n" +
    "transport=" + Or(e.transport, "udp") + "\n" +
    "nat=" + Or(e.natMode, "yes") + "\n" +
    "call-limit=" + IntToString(OrInt(e.callLimit, 5)) + "\n"
  }

  function CodecLines(disallow: string, allow: string): string
  {
    "disallow=" + Or(disallow, "all") + "\n" +
    "allow=" + Or(allow, "ulaw,alaw,g722,g729") + "\n"
  }

  function ExtensionBody(e: Extension): string
  {
    ExtensionPeerLines(e) + ExtensionGroupLines(e) + ExtensionMediaLines(e) +
    CodecLines(e.disallow, e.allow) + "\n"
  }

  /** The sip.conf section of one extension. */
  function ExtensionConfig(e: Extension): string
  {
    Bracketed(e.extension) + ExtensionBody(e)
  }

  /** Every field an extension section prints is free of `[`. */
  predicate PlainExtension(e: Extension)
  {
    HeaderName(e.extension) && Plain(e.secret) && Plain(e.host) && Plain(e.context) &&
    Plain(e.callGroup) && Plain(e.pickupGroup) && Plain(e.mailbox) && Plain(e.name) &&
    Plain(e.dtmfMode) && Plain(e.transport) && Plain(e.natMode) && Plain(e.disallow) && Plain(e.allow)
  }

  lemma IntToStringPlain(n: int)
    ensures Plain(IntToString(n))
  {
    var r := IntToString(n);
    var d := NatToString(if n < 0 then -n else n);
    assert r == (if n < 0 then "-" + d else d);
    assert forall i :: 0 <= i < |d| ==> d[i] != '[';
  }

  lemma CodecLinesPlain(disallow: string, allow: string)
    requires Plain(disallow) && Plain(allow)
    ensures Plain(CodecLines(disallow, allow))
  {
  }

  lemma ExtensionBodyPlain(e: Extension)
    requires PlainExtension(e)
    ensures Plain(ExtensionBody(e))
  {
    ExtensionPeerLinesPlain(e);
    ExtensionGroupLinesPlain(e);
    ExtensionMediaLinesPlain(e);
    CodecLinesPlain(e.disallow, e.allow);
  }

  lemma ExtensionPeerLinesPlain(e: Extension)
    requires PlainExtension(e)
    ensures Plain(ExtensionPeerLines(e))
  {
  }

  lemma ExtensionGroupLinesPlain(e: Extension)
    requires PlainExtension(e)
    ensures Plain(ExtensionGroupLines(e))
  {
  }

  lemma ExtensionMediaLinesPlain(e: Extension)
    requires PlainExtension(e)
    ensures Plain(ExtensionMediaLines(e))
  {
    IntToStringPlain(OrInt(e.callLimit, 5));
  }

  /** An extension's section opens no other section. */
  lemma ExtensionConfigIsSection(e: Extension)
    requires PlainExtension(e)
    ensures BracketHeader(Bracketed(e.extension))
    ensures SectionText(ExtensionConfig(e), Bracketed(e.extension))
  {
    ExtensionBodyPlain(e);
    SectionOfPlain(e.extension, ExtensionBody(e));
  }

  /**
   * An extension with every optional field unset is written as if it had
   * host dynamic, context from-internal, its own number as mailbox,
   * dtmfmode rfc2833, transport udp, nat yes, call-limit 5, disallow all and
   * allow ulaw,alaw,g722,g729.
   */
  lemma ExtensionDefaults(e: Extension)
    requires e.host == "" && e.context == "" && e.mailbox == "" && e.dtmfMode == "" && e.transport == ""
    requires e.natMode == "" && e.callLimit == 0 && e.disallow == "" && e.allow == ""
    ensures ExtensionConfig(e) == ExtensionConfig(e.(host := "dynamic", context := "from-internal",
      mailbox := e.extension, dtmfMode := "rfc2833", transport := "udp", natMode := "yes", callLimit := 5,
      disallow := "all", allow := "ulaw,alaw,g722,g729"))
  {
  }

  function TrunkPeerLines(t: Trunk): string
  {
    "\ntype=peer\n" +
    "host=" + t.host + "\n" +
    "username=" + Or(t.username, t.name) + "\n" +
    "secret=" + Interp(t.secret) + "\n" +
    "context=" + Or(t.context, "from-trunk") + "\n"
  }

  function SipTrunkNatLines(t: Trunk): string
  {
    "dtmfmode=" + Or(t.dtmfMode, "rfc2833") + "\n" +
    "transport=" + Or(t.transport, "udp") + "\n" +
    "insecure=" + Or(t.insecure, "port,invite") + "\n" +
    "nat=" + Or(t.natMode, "yes") + "\n"
  }

  function SipTrunkBody(t: Trunk): string
  {
    TrunkPeerLines(t) + SipTrunkNatLines(t) +
    "qualify=yes\n" +
    "qualifyfreq=" + IntToString(OrInt(t.qualifyFreq, 60)) + "\n" +
    CodecLines(t.disallow, t.allow) + "\n"
  }

  /** The endpoint part of a pjsip trunk, up to the `[name-auth]` header. */
  function PjsipEndpointBody(t: Trunk): string
  {
    PjsipEndpointLines(t) + CodecLines(t.disallow, t.allow) + PjsipDomainLines(t) + PjsipMediaFlags
  }

  function PjsipEndpointLines(t: Trunk): string
  {
    "\ntype=endpoint\n" +
    "transport=transport-udp\n" +
    "context=" + Or(t.context, "from-trunk") + "\n"
  }

  function PjsipDomainLines(t: Trunk): string
  {
    "from_domain=" + t.host + "\n" +
    "dtmf_mode=" + Or(t.dtmfMode, "rfc4733") + "\n"
  }

  const PjsipMediaFlags := "direct_media=no\n" + "rtp_symmetric=yes\n" +
    "force_rport=yes\n" + "rewrite_contact=yes\n" + "ice_support=yes\n" + "\n"

  /** The `[name-auth]` section of a pjsip trunk. */
  function PjsipAuth(t: Trunk): string
  {
    Bracketed(t.name + "-auth") +
    "\ntype=auth\n" + "auth_type=userpass\n" +
    "username=" + Or(t.username, t.name) + "\n" +
    "password=" + Interp(t.secret) + "\n" +
    "\n"
  }

  /** The `[name-aor]` section of a pjsip trunk. */
  function PjsipAor(t: Trunk): string
  {
    Bracketed(t.name + "-aor") +
    "\ntype=aor\n" +
    "contact=sip:" + t.host + "\n" +
    "qualify_frequency=" + IntToString(OrInt(t.qualifyFreq, 60)) + "\n" +
    "\n"
  }

  function IaxTrunkBody(t: Trunk): string
  {
    TrunkPeerLines(t) +
    "qualify=yes\n" +
    CodecLines(t.disallow, t.allow) + "\n"
  }

  /** The configuration file a trunk of this type lives in. */
  function TrunkFile(k: TrunkType): ConfigType
  {
    match k
    case Sip => SipConf
    case Pjsip => PjsipConf
    case Iax => IaxConf
  }

  /** The block written for a trunk: one section, or three for pjsip. */
  function TrunkConfig(t: Trunk): string
  {
    match t.kind
    case Sip => Bracketed(t.name) + SipTrunkBody(t)
    case Pjsip => Bracketed(t.name) + PjsipEndpointBody(t) + PjsipAuth(t) + PjsipAor(t)
    case Iax => Bracketed(t.name) + IaxTrunkBody(t)
  }

  predicate PlainTrunk(t: Trunk)
  {
    HeaderName(t.name) && Plain(t.host) && Plain(t.username) && Plain(Interp(t.secret)) &&
    Plain(t.context) && Plain(t.dtmfMode) && Plain(t.transport) && Plain(t.insecure) &&
    Plain(t.natMode) && Plain(t.disallow) && Plain(t.allow)
  }

  lemma TrunkPeerLinesPlain(t: Trunk)
    requires PlainTrunk(t)
    ensures Plain(TrunkPeerLines(t))
  {
  }

  lemma SipTrunkNatLinesPlain(t: Trunk)
    requires PlainTrunk(t)
    ensures Plain(SipTrunkNatLines(t))
  {
  }

  lemma SipTrunkBodyPlain(t: Trunk)
    requires PlainTrunk(t)
    ensures Plain(SipTrunkBody(t))
  {
    TrunkPeerLinesPlain(t);
    SipTrunkNatLinesPlain(t);
    IntToStringPlain(OrInt(t.qualifyFreq, 60));
    CodecLinesPlain(t.disallow, t.allow);
  }

  lemma IaxTrunkBodyPlain(t: Trunk)
    requires PlainTrunk(t)
    ensures Plain(IaxTrunkBody(t))
  {
    TrunkPeerLinesPlain(t);
    CodecLinesPlain(t.disallow, t.allow);
  }

  lemma PjsipMediaFlagsPlain()
    ensures Plain(PjsipMediaFlags)
  {
  }

  lemma PjsipEndpointBodyPlain(t: Trunk)
    requires PlainTrunk(t)
    ensures Plain(PjsipEndpointBody(t))
  {
    PjsipEndpointLinesPlain(t);
    CodecLinesPlain(t.disallow, t.allow);
    PjsipDomainLinesPlain(t);
    PjsipMediaFlagsPlain();
  }

  lemma PjsipEndpointLinesPlain(t: Trunk)
    requires PlainTrunk(t)
    ensures Plain(PjsipEndpointLines(t))
  {
  }

  lemma PjsipDomainLinesPlain(t: Trunk)
    requires PlainTrunk(t)
    ensures Plain(PjsipDomainLines(t))
  {
  }

  /** A sip or iax trunk's block is one section. */
  lemma TrunkConfigIsSection(t: Trunk)
    requires PlainTrunk(t) && !t.kind.Pjsip?
    ensures BracketHeader(Bracketed(t.name))
    ensures SectionText(TrunkConfig(t), Bracketed(t.name))
  {
    if t.kind.Sip? {
      SipTrunkBodyPlain(t);
      SectionOfPlain(t.name, SipTrunkBody(t));
    } else {
      IaxTrunkBodyPlain(t);
      SectionOfPlain(t.name, IaxTrunkBody(t));
    }
  }

  /** Where the `[name-auth]` header sits in a pjsip trunk's block. */
  lemma PjsipAuthOffset(t: Trunk)
    requires PlainTrunk(t) && t.kind.Pjsip?
    ensures var b := TrunkConfig(t);
      var k := |Bracketed(t.name) + PjsipEndpointBody(t)|;
      var h := Bracketed(t.name);
      |h| <= k < |b| && b[..|h|] == h && b[k..] == PjsipAuth(t) + PjsipAor(t) && b[k] == '[' &&
      forall j :: 1 <= j < k ==> b[j] != '['
  {
    var front := Bracketed(t.name) + PjsipEndpointBody(t);
    var tail := PjsipAuth(t) + PjsipAor(t);
    assert TrunkConfig(t) == front + tail;
    PjsipEndpointBodyPlain(t);
    SectionOfPlain(t.name, PjsipEndpointBody(t));
    SectionThenHeader(front, tail, Bracketed(t.name));
  }

  /** A section followed by text that opens the next one. */
  lemma SectionThenHeader(front: string, tail: string, h: string)
    requires SectionText(front, h) && |tail| > 0 && tail[0] == '['
    ensures var b := front + tail;
      |h| <= |front| < |b| && b[..|h|] == h && b[|front|..] == tail && b[|front|] == '[' &&
      forall j :: 1 <= j < |front| ==> b[j] != '['
  {
    var b := front + tail;
    assert b[..|h|] == front[..|h|];
    assert forall j :: 1 <= j < |front| ==> b[j] == front[j];
  }

  /** One `member=SIP/<m>` line per member, in list order. */
  function MemberLines(members: seq<string>): (r: seq<string>)
    ensures |r| == |members|
    ensures forall i :: 0 <= i < |r| ==> r[i] == "member=SIP/" + members[i]
  {
    if members == [] then [] else ["member=SIP/" + members[0]] + MemberLines(members[1..])
  }

  function QueueTimingLines(q: Queue): string
  {
    "\nstrategy=" + Or(q.strategy, "ringall") + "\n" +
    "timeout=" + IntToString(OrInt(q.timeout, 15)) + "\n" +
    "wrapuptime=" + IntToString(OrInt(q.wrapuptime, 0)) + "\n" +
    "maxlen=" + IntToString(OrInt(q.maxlen, 0)) + "\n"
  }

  function QueueBody(q: Queue): string
  {
    QueueTimingLines(q) +
    "announce=" + q.announce + "\n" +
    "musicclass=" + Or(q.musicClass, "default") + "\n" +
    Join(MemberLines(q.members), "\n") + "\n" +
    "\n"
  }

  /** The queues.conf section of one queue. */
  function QueueConfig(q: Queue): string
  {
    Bracketed(q.name) + QueueBody(q)
  }

  predicate PlainQueue(q: Queue)
  {
    HeaderName(q.name) && Plain(q.strategy) && Plain(q.announce) && Plain(q.musicClass) &&
    forall i :: 0 <= i < |q.members| ==> Plain(q.members[i])
  }

  lemma QueueTimingLinesPlain(q: Queue)
    requires PlainQueue(q)
    ensures Plain(QueueTimingLines(q))
  {
    IntToStringPlain(OrInt(q.timeout, 15));
    IntToStringPlain(OrInt(q.wrapuptime, 0));
    IntToStringPlain(OrInt(q.maxlen, 0));
  }

  lemma QueueBodyPlain(q: Queue)
    requires PlainQueue(q)
    ensures Plain(QueueBody(q))
  {
    IntToStringPlain(OrInt(q.timeout, 15));
    IntToStringPlain(OrInt(q.wrapuptime, 0));
    IntToStringPlain(OrInt(q.maxlen, 0));
    QueueTimingLinesPlain(q);
    var ls := MemberLines(q.members);
    forall i | 0 <= i < |ls| ensures Plain(ls[i]) {
      assert Plain(q.members[i]);
    }
    JoinPlain(ls, "\n");
  }

  lemma QueueConfigIsSection(q: Queue)
    requires PlainQueue(q)
    ensures BracketHeader(Bracketed(q.name))
    ensures SectionText(QueueConfig(q), Bracketed(q.name))
  {
    QueueBodyPlain(q);
    SectionOfPlain(q.name, QueueBody(q));
  }

  /**
   * A queue with strategy, timeout and music class unset is written as if it
   * had strategy ringall, timeout 15 and music class default; unset
   * wrap-up time and maximum length stay 0.
   */
  lemma QueueDefaults(q: Queue)
    requires q.strategy == "" && q.timeout == 0 && q.musicClass == ""
    ensures QueueConfig(q) == QueueConfig(q.(strategy := "ringall", timeout := 15, musicClass := "default"))
  {
  }

  // ---------------------------------------------------------------------
  // Dialplan contexts.
  // ---------------------------------------------------------------------

  /** The applications an outbound route runs, in order. */
  function OutboundApps(r: OutboundRoute): seq<string>
  {
    ["NoOp(Matched outbound route " + r.name + ")"] +
    (if r.callerIdName != "" || r.callerIdNumber != "" then
       ["Set(CALLERID(name)=" + Or(r.callerIdName, "${CALLERID(name)}") + ")",
        "Set(CALLERID(num)=" + Or(r.callerIdNumber, "${CALLERID(num)}") + ")"]
     else []) +
    (if r.prepend != "" then ["Set(EXTEN=" + r.prepend + "${EXTEN})"] else []) +
    (if r.prefix != "" then
       ["Set(EXTEN=" + r.prefix + "${EXTEN:" + NatToString(CountChar(r.pattern, 'X')) + "})"]
     else []) +
    ["Dial(SIP/" + r.trunk + "/${EXTEN},30)", "Hangup()"]
  }

  /** The block of one outbound route in `[from-internal]`. */
  function OutboundBlock(r: OutboundRoute): string
  {
    "; Outbound route: " + r.name + "\n" + Concat(ExtenLines("_" + r.pattern, OutboundApps(r))) + "\n"
  }

  /** How many caller-ID steps an outbound route has. */
  function OutboundCallerIdSteps(r: OutboundRoute): nat
  {
    if r.callerIdName != "" || r.callerIdNumber != "" then 2 else 0
  }

  /**
   * The steps of an outbound route: the caller-ID pair only when a caller-ID
   * field is set, each falling back to the caller's own value; the prepend
   * step, when present, before the prefix step; the prefix step skipping as
   * many digits as the pattern has `X`s; the dial through the trunk and the
   * hang-up last.
   */
  lemma OutboundSteps(r: OutboundRoute)
    ensures var apps := OutboundApps(r);
      var cid := OutboundCallerIdSteps(r);
      var pre := if r.prepend != "" then 1 else 0;
      |apps| == 3 + cid + (if r.prepend != "" then 1 else 0) + (if r.prefix != "" then 1 else 0) &&
      apps[0] == "NoOp(Matched outbound route " + r.name + ")" &&
      (cid == 2 ==> apps[1] == "Set(CALLERID(name)=" + Or(r.callerIdName, "${CALLERID(name)}") + ")") &&
      (cid == 2 ==> apps[2] == "Set(CALLERID(num)=" + Or(r.callerIdNumber, "${CALLERID(num)}") + ")") &&
      (pre == 1 ==> apps[1 + cid] == "Set(EXTEN=" + r.prepend + "${EXTEN})") &&
      (r.prefix != "" ==>
         apps[1 + cid + pre] == "Set(EXTEN=" + r.prefix + "${EXTEN:" + NatToString(CountChar(r.pattern, 'X')) + "})") &&
      apps[|apps| - 2] == "Dial(SIP/" + r.trunk + "/${EXTEN},30)" &&
      apps[|apps| - 1] == "Hangup()"
  {
  }

  /** Every dial-plan line of an outbound route is for the extension `_` + pattern. */
  lemma OutboundExtension(r: OutboundRoute)
    ensures var ls := ExtenLines("_" + r.pattern, OutboundApps(r));
      forall i :: 0 <= i < |ls| ==> StartsWith(ls[i], "exten => _" + r.pattern + ",")
  {
    ExtenLinesStart("_" + r.pattern, OutboundApps(r));
    assert "exten => " + ("_" + r.pattern) + "," == "exten => _" + r.pattern + ",";
  }

  /** Each route's block, in list order. */
  function OutboundBlocks(routes: seq<OutboundRoute>): string
  {
    if routes == [] then ""
    else OutboundBlocks(routes[..|routes| - 1]) + OutboundBlock(routes[|routes| - 1])
  }

  function FromInternalSection(routes: seq<OutboundRoute>): string
  {
    FromInternalHead + OutboundBlocks(routes)
  }

  /** The extension an inbound route's lines use: the DID, or `_X.` when it has none. */
  function InboundExten(r: InboundRoute): string
  {
    Or(r.did, "_X.")
  }

  /** The routing step for a destination type; other types route nowhere. */
  function InboundDestination(r: InboundRoute): seq<string>
  {
    if r.destinationType == "extension" then ["Dial(SIP/" + r.destination + ",30)"]
    else if r.destinationType == "queue" then ["Queue(" + r.destination + ")"]
    else if r.destinationType == "ivr" then ["Goto(ivr-" + r.destination + ",s,1)"]
    else []
  }

  /** The applications an inbound route runs, in order. */
  function InboundApps(r: InboundRoute): seq<string>
  {
    [if r.did != "" then "NoOp(Matched inbound route " + r.name + ")"
     else "NoOp(Matched default inbound route " + r.name + ")"] +
    (if r.callerIdName != "" then ["Set(CALLERID(name)=" + r.callerIdName + ")"] else []) +
    InboundDestination(r) +
    ["Hangup()"]
  }

  /** The block of one inbound route in `[from-trunk]`. */
  function InboundBlock(r: InboundRoute): string
  {
    "; Inbound route: " + r.name + "\n" + Concat(ExtenLines(InboundExten(r), InboundApps(r))) + "\n"
  }

  /**
   * The steps of an inbound route: the caller-ID name only when set; exactly
   * one routing step for the types extension, queue and ivr, and none for
   * any other; the hang-up last.
   */
  lemma InboundSteps(r: InboundRoute)
    ensures var apps := InboundApps(r);
      var cid := if r.callerIdName != "" then 1 else 0;
      |apps| == 2 + cid + (if r.destinationType in {"extension", "queue", "ivr"} then 1 else 0) &&
      (cid == 1 ==> apps[1] == "Set(CALLERID(name)=" + r.callerIdName + ")") &&
      (r.destinationType == "extension" ==> apps[1 + cid] == "Dial(SIP/" + r.destination + ",30)") &&
      (r.destinationType == "queue" ==> apps[1 + cid] == "Queue(" + r.destination + ")") &&
      (r.destinationType == "ivr" ==> apps[1 + cid] == "Goto(ivr-" + r.destination + ",s,1)") &&
      apps[|apps| - 1] == "Hangup()"
  {
  }

  /** Every line of an inbound route is for its DID, or for `_X.` without one. */
  lemma InboundExtension(r: InboundRoute)
    ensures var ls := ExtenLines(InboundExten(r), InboundApps(r));
      forall i :: 0 <= i < |ls| ==> StartsWith(ls[i], "exten => " + Or(r.did, "_X.") + ",")
  {
    ExtenLinesStart(InboundExten(r), InboundApps(r));
  }

  function InboundBlocks(routes: seq<InboundRoute>): string
  {
    if routes == [] then ""
    else InboundBlocks(routes[..|routes| - 1]) + InboundBlock(routes[|routes| - 1])
  }

  function FromTrunkSection(routes: seq<InboundRoute>): string
  {
    "[from-trunk]\n" + InboundBlocks(routes)
  }

  /** `[from-internal]` is rebuilt one route block at a time. */
  method BuildFromInternal(routes: seq<OutboundRoute>) returns (section: string)
    ensures section == FromInternalSection(routes)
  {
    var blocks := "";
    for i := 0 to |routes|
      invariant blocks == OutboundBlocks(routes[..i])
    {
      assert routes[..i + 1][..i] == routes[..i];
      blocks := blocks + OutboundBlock(routes[i]);
    }
    assert routes[..|routes|] == routes;
    section := FromInternalHead + blocks;
  }

  /** `[from-trunk]` is rebuilt one route block at a time. */
  method BuildFromTrunk(routes: seq<InboundRoute>) returns (section: string)
    ensures section == FromTrunkSection(routes)
  {
    var blocks := "";
    for i := 0 to |routes|
      invariant blocks == InboundBlocks(routes[..i])
    {
      assert routes[..i + 1][..i] == routes[..i];
      blocks := blocks + InboundBlock(routes[i]);
    }
    assert routes[..|routes|] == routes;
    section := "[from-trunk]\n" + blocks;
  }

  /**
   * The new extensions.conf text: each context replaced where the text read
   * holds it and appended where it does not. Whether `[from-trunk]` is there
   * is decided on the text read, before `[from-internal]` changed.
   */
  function MergeContexts(c: string, fromInternal: string, fromTrunk: string): string
  {
    var fi := if Contains(c, "[from-internal]") then RegexReplace(c, "[from-internal]", fromInternal)
      else c + fromInternal;
    if Contains(c, "[from-trunk]") then RegexReplace(fi, "[from-trunk]", fromTrunk) else fi + fromTrunk
  }

  function DialplanText(c: string, outbound: seq<OutboundRoute>, inbound: seq<InboundRoute>): string
  {
    MergeContexts(c, FromInternalSection(outbound), FromTrunkSection(inbound))
  }

  // ---------------------------------------------------------------------
  // The configuration directory and its read-modify-write operations.
  // ---------------------------------------------------------------------

  /** What a reload reports: success, or the failure rethrown to the caller. */
  function ReloadResult(moduleName: string, ok: bool): Result<bool>
  {
    if ok then Ok(true) else Err(ReloadFailed(moduleName))
  }

  /** The new text of a file after the section `[name]` is written. */
  function UpsertedText(files: map<string, string>, c: ConfigType, name: string, block: string): string
  {
    RegexUpsert(ReadConfigFile(files, c), Bracketed(name), block)
  }

  /**
   * The Asterisk configuration directory as the server sees it: the files
   * by name (a name that is not a key is a missing file) and the modules it
   * has asked Asterisk to reload, in order. Whether a reload succeeds is a
   * parameter of each operation.
   */
  class ConfigDir {
    var files: map<string, string>
    var reloads: seq<string>

    constructor(initial: map<string, string>)
      ensures files == initial && reloads == []
    {
      files := initial;
      reloads := [];
    }

    /** `updateConfigFile` then `reloadAsteriskModule`. */
    method WriteAndReload(c: ConfigType, content: string, ok: bool) returns (r: Result<bool>)
      modifies this
      ensures files == old(files)[FileName(c) := content]
      ensures reloads == old(reloads) + [ReloadModuleFor(c)]
      ensures r == ReloadResult(ReloadModuleFor(c), ok)
    {
      files := files[FileName(c) := content];
      reloads := reloads + [ReloadModuleFor(c)];
      r := ReloadResult(ReloadModuleFor(c), ok);
    }

    /** Replace the `[name]` span with `block`, or append `block`. */
    method UpsertSection(c: ConfigType, name: string, block: string, ok: bool) returns (r: Result<bool>)
      modifies this
      ensures files == old(files)[FileName(c) := UpsertedText(old(files), c, name, block)]
      ensures reloads == old(reloads) + [ReloadModuleFor(c)]
      ensures r == ReloadResult(ReloadModuleFor(c), ok)
    {
      var content := ReadConfigFile(files, c);
      var header := Bracketed(name);
      if Contains(content, header) {
        content := RegexReplace(content, header, block);
      } else {
        content := content + block;
      }
      r := WriteAndReload(c, content, ok);
    }

    method UpdateExtensionConfig(e: Extension, ok: bool) returns (r: Result<bool>)
      modifies this
      ensures files == old(files)[FileName(SipConf) := UpsertedText(old(files), SipConf, e.extension, ExtensionConfig(e))]
      ensures reloads == old(reloads) + [ReloadModuleFor(SipConf)]
      ensures r == ReloadResult(ReloadModuleFor(SipConf), ok)
    {
      r := UpsertSection(SipConf, e.extension, ExtensionConfig(e), ok);
    }

    method RemoveExtensionConfig(e: Extension, ok: bool) returns (r: Result<bool>)
      modifies this
      ensures files == old(files)[FileName(SipConf) := RegexRemove(ReadConfigFile(old(files), SipConf), Bracketed(e.extension))]
      ensures reloads == old(reloads) + [ReloadModuleFor(SipConf)]
      ensures r == ReloadResult(ReloadModuleFor(SipConf), ok)
    {
      var content := ReadConfigFile(files, SipConf);
      content := RegexRemove(content, Bracketed(e.extension));
      r := WriteAndReload(SipConf, content, ok);
    }

    method UpdateTrunkConfig(t: Trunk, ok: bool) returns (r: Result<bool>)
      modifies this
      ensures files == old(files)[FileName(TrunkFile(t.kind)) :=
        UpsertedText(old(files), TrunkFile(t.kind), t.name, TrunkConfig(t))]
      ensures reloads == old(reloads) + [ReloadModuleFor(TrunkFile(t.kind))]
      ensures r == ReloadResult(ReloadModuleFor(TrunkFile(t.kind)), ok)
    {
      r := UpsertSection(TrunkFile(t.kind), t.name, TrunkConfig(t), ok);
    }

    /** For pjsip the `[name-auth]` and `[name-aor]` spans go too. */
    method RemoveTrunkConfig(t: Trunk, ok: bool) returns (r: Result<bool>)
      modifies this
      ensures files == old(files)[FileName(TrunkFile(t.kind)) := TrunkRemoved(ReadConfigFile(old(files), TrunkFile(t.kind)), t)]
      ensures reloads == old(reloads) + [ReloadModuleFor(TrunkFile(t.kind))]
      ensures r == ReloadResult(ReloadModuleFor(TrunkFile(t.kind)), ok)
    {
      var c := TrunkFile(t.kind);
      var content := ReadConfigFile(files, c);
      content := RegexRemove(content, Bracketed(t.name));
      if t.kind == Pjsip {
        content := RegexRemove(content, Bracketed(t.name + "-auth"));
        content := RegexRemove(content, Bracketed(t.name + "-aor"));
      }
      r := WriteAndReload(c, content, ok);
    }

    method UpdateQueueConfig(q: Queue, ok: bool) returns (r: Result<bool>)
      modifies this
      ensures files == old(files)[FileName(QueuesConf) := UpsertedText(old(files), QueuesConf, q.name, QueueConfig(q))]
      ensures reloads == old(reloads) + [ReloadModuleFor(QueuesConf)]
      ensures r == ReloadResult(ReloadModuleFor(QueuesConf), ok)
    {
      r := UpsertSection(QueuesConf, q.name, QueueConfig(q), ok);
    }

    method RemoveQueueConfig(q: Queue, ok: bool) returns (r: Result<bool>)
      modifies this
      ensures files == old(files)[FileName(QueuesConf) := RegexRemove(ReadConfigFile(old(files), QueuesConf), Bracketed(q.name))]
      ensures reloads == old(reloads) + [ReloadModuleFor(QueuesConf)]
      ensures r == ReloadResult(ReloadModuleFor(QueuesConf), ok)
    {
      var content := ReadConfigFile(files, QueuesConf);
      content := RegexRemove(content, Bracketed(q.name));
      r := WriteAndReload(QueuesConf, content, ok);
    }

    /**
     * Regenerate `[from-internal]` from the outbound routes and
     * `[from-trunk]` from the inbound routes, both ordered by name.
     */
    method UpdateDialplanConfig(outbound: seq<OutboundRoute>, inbound: seq<InboundRoute>, ok: bool)
      returns (r: Result<bool>)
      modifies this
      ensures files == old(files)[FileName(ExtensionsConf) := DialplanText(ReadConfigFile(old(files), ExtensionsConf),
        SortBy(outbound, OutboundByName), SortBy(inbound, InboundByName))]
      ensures reloads == old(reloads) + [ReloadModuleFor(ExtensionsConf)]
      ensures r == ReloadResult(ReloadModuleFor(ExtensionsConf), ok)
    {
      var outboundRoutes := SortBy(outbound, OutboundByName);
      var inboundRoutes := SortBy(inbound, InboundByName);
      var content := ReadConfigFile(files, ExtensionsConf);
      var original := content;
      var fromInternalFound := Contains(content, "[from-internal]");
      var fromTrunkFound := Contains(content, "[from-trunk]");
      var fromInternalSection := BuildFromInternal(outboundRoutes);
      var fromTrunkSection := BuildFromTrunk(inboundRoutes);
      if fromInternalFound {
        content := RegexReplace(content, "[from-internal]", fromInternalSection);
      } else {
        content := content + fromInternalSection;
      }
      if fromTrunkFound {
        content := RegexReplace(content, "[from-trunk]", fromTrunkSection);
      } else {
        content := content + fromTrunkSection;
      }
      assert content == DialplanText(original, outboundRoutes, inboundRoutes);
      r := WriteAndReload(ExtensionsConf, content, ok);
    }
  }

  /** The text left after a trunk's sections are removed. */
  function TrunkRemoved(c: string, t: Trunk): string
  {
    var s := RegexRemove(c, Bracketed(t.name));
    if t.kind == Pjsip then RegexRemove(RegexRemove(s, Bracketed(t.name + "-auth")), Bracketed(t.name + "-aor"))
    else s
  }

  // ---------------------------------------------------------------------
  // Properties of the read-modify-write operations.
  // ---------------------------------------------------------------------

  /**
   * Writing the same extension twice leaves sip.conf as one write left it,
   * when its block holds no `$` pattern that the second write, a `replace`,
   * would expand (Sections.RegexUpsertDollarNotIdempotent shows one that does).
   */
  lemma UpdateExtensionIdempotent(files: map<string, string>, e: Extension)
    requires PlainExtension(e) && Literal(ExtensionConfig(e))
    ensures var once := files[FileName(SipConf) := UpsertedText(files, SipConf, e.extension, ExtensionConfig(e))];
      UpsertedText(once, SipConf, e.extension, ExtensionConfig(e)) == once[FileName(SipConf)]
  {
    ExtensionConfigIsSection(e);
    RegexUpsertIdempotent(ReadConfigFile(files, SipConf), Bracketed(e.extension), ExtensionConfig(e));
  }

  /** The same for a queue whose block holds no expanding `$` pattern. */
  lemma UpdateQueueIdempotent(files: map<string, string>, q: Queue)
    requires PlainQueue(q) && Literal(QueueConfig(q))
    ensures var once := files[FileName(QueuesConf) := UpsertedText(files, QueuesConf, q.name, QueueConfig(q))];
      UpsertedText(once, QueuesConf, q.name, QueueConfig(q)) == once[FileName(QueuesConf)]
  {
    QueueConfigIsSection(q);
    RegexUpsertIdempotent(ReadConfigFile(files, QueuesConf), Bracketed(q.name), QueueConfig(q));
  }

  /** The same for a sip or iax trunk whose block holds no expanding `$` pattern. */
  lemma UpdateSipOrIaxTrunkIdempotent(files: map<string, string>, t: Trunk)
    requires PlainTrunk(t) && !t.kind.Pjsip? && Literal(TrunkConfig(t))
    ensures var c := TrunkFile(t.kind);
      var once := files[FileName(c) := UpsertedText(files, c, t.name, TrunkConfig(t))];
      UpsertedText(once, c, t.name, TrunkConfig(t)) == once[FileName(c)]
  {
    TrunkConfigIsSection(t);
    RegexUpsertIdempotent(ReadConfigFile(files, TrunkFile(t.kind)), Bracketed(t.name), TrunkConfig(t));
  }

  /**
   * A pjsip trunk written twice into a file that did not hold it ends with
   * its `[name-auth]` and `[name-aor]` sections twice: the second write
   * replaces only the `[name]` span (for a block with no expanding `$` pattern).
   */
  lemma UpdatePjsipTrunkDuplicates(c: string, t: Trunk)
    requires PlainTrunk(t) && t.kind.Pjsip? && !Contains(c, Bracketed(t.name)) && Literal(TrunkConfig(t))
    ensures RegexUpsert(c, Bracketed(t.name), TrunkConfig(t)) == c + TrunkConfig(t)
    ensures RegexUpsert(RegexUpsert(c, Bracketed(t.name), TrunkConfig(t)), Bracketed(t.name), TrunkConfig(t)) ==
      c + TrunkConfig(t) + PjsipAuth(t) + PjsipAor(t)
  {
    SectionOfPlain(t.name, "");
    PjsipAuthOffset(t);
    var k := |Bracketed(t.name) + PjsipEndpointBody(t)|;
    RegexUpsertDuplicatesTrailingSections(c, Bracketed(t.name), TrunkConfig(t), k);
    var b := TrunkConfig(t);
    ExpandLiteral(b, b[..k], c, b[k..], b[|Bracketed(t.name)|..k]);
  }

  /** Removing a section that is not there changes nothing, for any trunk. */
  lemma RemoveAbsentTrunk(c: string, t: Trunk)
    requires !Contains(c, Bracketed(t.name)) && !Contains(c, Bracketed(t.name + "-auth")) &&
             !Contains(c, Bracketed(t.name + "-aor"))
    ensures TrunkRemoved(c, t) == c
  {
    RegexAbsent(c, Bracketed(t.name), "");
    RegexAbsent(c, Bracketed(t.name + "-auth"), "");
    RegexAbsent(c, Bracketed(t.name + "-aor"), "");
  }

  // ---------------------------------------------------------------------
  // Asterisk events.
  // ---------------------------------------------------------------------

  /** An AMI event: its fields by (lower-case) name. */
  type AmiEvent = map<string, string>

  /** A field of the event; an absent one reads as "". */
  function Field(e: AmiEvent, k: string): string
  {
    if k in e then e[k] else ""
  }

  datatype EventOutcome =
    | LogNewChannel(channel: string, callerIdNum: string)
    | LogHangup(channel: string, cause: string)
    | SaveCdr(cdr: Cdr)
    | Ignored

  /** The record `saveCDRToDatabase` builds; `toDate` stands for `new Date(...)`. */
  function CdrOfEvent(e: AmiEvent, toDate: string -> Option<int>): Cdr
  {
    Cdr(Field(e, "uniqueid"), Field(e, "source"), Field(e, "destination"), Field(e, "context"),
        Field(e, "callerid"), Field(e, "channel"), Field(e, "destchannel"), Field(e, "lastapp"),
        Field(e, "lastdata"), toDate(Field(e, "starttime")), toDate(Field(e, "answertime")),
        toDate(Field(e, "endtime")), ParseIntOrZero(Field(e, "duration")),
        ParseIntOrZero(Field(e, "billseconds")), Field(e, "disposition"), Field(e, "amaflags"),
        Field(e, "accountcode"), Field(e, "userfield"), Field(e, "recordingfile"))
  }

  /** `handleAsteriskEvent`: log new channels and hang-ups, save CDRs, ignore the rest. */
  function HandleAsteriskEvent(e: AmiEvent, toDate: string -> Option<int>): (r: EventOutcome)
    ensures r.SaveCdr? <==> Field(e, "event") == "Cdr"
    ensures r.LogNewChannel? <==> Field(e, "event") == "Newchannel"
    ensures r.LogHangup? <==> Field(e, "event") == "Hangup"
    ensures r.Ignored? <==> Field(e, "event") !in {"Cdr", "Newchannel", "Hangup"}
    ensures r.SaveCdr? ==> r.cdr.uniqueid == Field(e, "uniqueid") && r.cdr.src == Field(e, "source")
    ensures r.SaveCdr? ==> r.cdr.dst == Field(e, "destination") && r.cdr.disposition == Field(e, "disposition")
  {
    var kind := Field(e, "event");
    if kind == "Newchannel" then LogNewChannel(Field(e, "channel"), Field(e, "calleridnum"))
    else if kind == "Hangup" then LogHangup(Field(e, "channel"), Field(e, "cause"))
    else if kind == "Cdr" then SaveCdr(CdrOfEvent(e, toDate))
    else Ignored
  }

  /**
   * A CDR event whose duration fields are decimal numbers is saved with
   * those numbers; a missing or non-numeric field is saved as 0.
   */
  lemma CdrDurations(e: AmiEvent, toDate: string -> Option<int>, d: nat, b: nat)
    requires Field(e, "event") == "Cdr"
    ensures Field(e, "duration") == NatToString(d) ==> HandleAsteriskEvent(e, toDate).cdr.duration == d
    ensures Field(e, "billseconds") == NatToString(b) ==> HandleAsteriskEvent(e, toDate).cdr.billsec == b
    ensures "duration" !in e ==> HandleAsteriskEvent(e, toDate).cdr.duration == 0
  {
    NatRoundTrip(d, "");
    NatRoundTrip(b, "");
    assert NatToString(d) + "" == NatToString(d);
    assert NatToString(b) + "" == NatToString(b);
    NoDigitsIsNaN("");
  }

  // ---------------------------------------------------------------------
  // Dashboard: the number of active calls.
  // ---------------------------------------------------------------------

  /**
   * The reply of the channel query: the CLI text of `core show channels`
   * (empty when absent), the AMI list of channel items when present (its
   * length), and the AMI channel count field (empty when absent).
   */
  datatype ChannelsReply = ChannelsReply(output: string, listItems: Option<nat>, channelCount: string)

  /** Where the run of digits starting at `i` ends. */
  function RunEnd(s: string, i: nat): (j: nat)
    requires i <= |s|
    ensures i <= j <= |s|
  {
    i + DigitRun(s[i..], false)
  }

  /**
   * `/(\d+) active channel/i` matches at `i`: the digits from `i` are
   * followed by " active channel". Backtracking into the digit run cannot
   * help, since a shorter run is followed by a digit, not a space.
   */
  predicate ActiveChannelAt(s: string, i: nat)
  {
    i < |s| && IsDigit(s[i]) && CaselessAt(s, " active channel", RunEnd(s, i))
  }

  /** The leftmost match at or after `from`. */
  function FindActiveChannel(s: string, from: nat): (r: Option<nat>)
    requires from <= |s|
    ensures r.Some? ==> from <= r.value && ActiveChannelAt(s, r.value)
    ensures r.Some? ==> forall k :: from <= k < r.value ==> !ActiveChannelAt(s, k)
    ensures r.None? ==> forall k :: from <= k ==> !ActiveChannelAt(s, k)
    decreases |s| - from
  {
    if from == |s| then None
    else if ActiveChannelAt(s, from) then Some(from)
    else FindActiveChannel(s, from + 1)
  }

  /** The digits the match captures, read as a number; 0 when nothing matches. */
  function CountFromOutput(s: string): nat
  {
    match FindActiveChannel(s, 0)
    case None => 0
    case Some(i) =>
      var j := RunEnd(s, i);
      assert forall k :: 0 <= k < j - i ==> s[i..j][k] == s[i..][k];
      DigitsValue(s[i..j])
  }

  /**
   * The active-call count of the dashboard: parsed from the CLI text when
   * there is one, else the length of the AMI item list, else `parseInt` of
   * the channel count, else 0. `None` is NaN.
   */
  function ActiveCalls(reply: ChannelsReply): (r: Option<int>)
    ensures reply.output != "" ==> r == Some(CountFromOutput(reply.output))
    ensures reply.output == "" && reply.listItems.Some? ==> r == Some(reply.listItems.value)
    ensures reply.output == "" && reply.listItems.None? && reply.channelCount == "" ==> r == Some(0)
  {
    if reply.output != "" then Some(CountFromOutput(reply.output))
    else if reply.listItems.Some? then Some(reply.listItems.value)
    else if reply.channelCount != "" then ParseInt(reply.channelCount)
    else Some(0)
  }

  /**
   * The CLI line "<n> active channels" after a header with no digit gives
   * n, whatever follows.
   */
  lemma CountAfterHeader(header: string, n: nat, rest: string)
    requires forall i :: 0 <= i < |header| ==> !IsDigit(header[i])
    ensures CountFromOutput(header + NatToString(n) + " active channel" + rest) == n
  {
    var d := NatToString(n);
    var s := header + d + " active channel" + rest;
    var i := |header|;
    forall k | 0 <= k < i ensures !ActiveChannelAt(s, k) {
      assert s[k] == header[k];
    }
    MatchAfterHeader(header, d, rest);
    FindFirst(s, i);
    assert s[i..RunEnd(s, i)] == d;
    NatToStringRoundTrip(n);
  }

  /** The numeral right after the header starts a match, and its run is the numeral. */
  lemma MatchAfterHeader(header: string, d: string, rest: string)
    requires |d| > 0 && forall i :: 0 <= i < |d| ==> IsDigit(d[i])
    ensures var s := header + d + " active channel" + rest;
      RunEnd(s, |header|) == |header| + |d| && ActiveChannelAt(s, |header|)
  {
    var p := " active channel";
    var s := header + d + p + rest;
    var i := |header|;
    assert s[i..] == d + (p + rest);
    DigitRunOfNumeral(d, p + rest, false);
    assert s[i] == d[0];
    forall k | 0 <= k < |p| ensures AsciiUpper(s[i + |d| + k]) == AsciiUpper(p[k]) {
      assert s[i + |d| + k] == p[k];
    }
  }

  /** A match at `i` with none before it is the one found. */
  lemma {:induction false} FindFirst(s: string, i: nat)
    requires i < |s| && ActiveChannelAt(s, i)
    requires forall k :: 0 <= k < i ==> !ActiveChannelAt(s, k)
    ensures FindActiveChannel(s, 0) == Some(i)
  {
    var r := FindActiveChannel(s, 0);
    assert r.Some?;
    assert r.value == i by {
      assert !(r.value < i);
      assert !(i < r.value);
    }
  }

  /** Two texts that differ at most in the case of ASCII letters. */
  predicate SameUpToCase(s: string, t: string)
  {
    |s| == |t| && forall i :: 0 <= i < |s| ==> AsciiUpper(s[i]) == AsciiUpper(t[i])
  }

  /**
   * The count ignores letter case: outputs that differ only in the case of
   * their letters ("3 Active Channels", "3 active channels") give the same
   * active-call count.
   */
  lemma CountIgnoresCase(reply: ChannelsReply, t: string)
    requires SameUpToCase(reply.output, t)
    ensures CountFromOutput(reply.output) == CountFromOutput(t)
    ensures ActiveCalls(reply) == ActiveCalls(reply.(output := t))
  {
    var s := reply.output;
    FindSameUpToCase(s, t, 0);
    match FindActiveChannel(s, 0)
    case None =>
    case Some(i) =>
      RunSameUpToCase(s, t, i);
  }

  /** A character whose upper case is a digit is that digit. */
  lemma DigitSameUpToCase(a: char, b: char)
    requires AsciiUpper(a) == AsciiUpper(b) && IsDigit(a)
    ensures b == a
  {
  }

  /** The digit runs of two texts equal up to case are the same digits. */
  lemma {:induction false} DigitRunSameUpToCase(x: string, y: string)
    requires SameUpToCase(x, y)
    ensures DigitRun(x, false) == DigitRun(y, false)
    ensures x[..DigitRun(x, false)] == y[..DigitRun(y, false)]
    decreases |x|
  {
    if x != [] {
      if IsRadixDigit(x[0], false) {
        DigitSameUpToCase(x[0], y[0]);
      } else if IsRadixDigit(y[0], false) {
        DigitSameUpToCase(y[0], x[0]);
      }
      if IsRadixDigit(x[0], false) {
        assert SameUpToCase(x[1..], y[1..]) by {
          forall i | 0 <= i < |x[1..]| ensures AsciiUpper(x[1..][i]) == AsciiUpper(y[1..][i]) {
            assert x[1..][i] == x[i + 1] && y[1..][i] == y[i + 1];
          }
        }
        DigitRunSameUpToCase(x[1..], y[1..]);
        var n := DigitRun(x[1..], false);
        assert x[..n + 1] == [x[0]] + x[1..][..n];
        assert y[..n + 1] == [y[0]] + y[1..][..n];
      }
    }
  }

  /** From any position the run ends at the same place and holds the same digits. */
  lemma RunSameUpToCase(s: string, t: string, i: nat)
    requires SameUpToCase(s, t) && i <= |s|
    ensures RunEnd(s, i) == RunEnd(t, i) && s[i..RunEnd(s, i)] == t[i..RunEnd(t, i)]
  {
    assert SameUpToCase(s[i..], t[i..]) by {
      forall k | 0 <= k < |s[i..]| ensures AsciiUpper(s[i..][k]) == AsciiUpper(t[i..][k]) {
        assert s[i..][k] == s[i + k] && t[i..][k] == t[i + k];
      }
    }
    DigitRunSameUpToCase(s[i..], t[i..]);
    var n := DigitRun(s[i..], false);
    assert s[i..i + n] == s[i..][..n] && t[i..i + n] == t[i..][..n];
  }

  /** A match starts at the same places in two texts equal up to case. */
  lemma MatchSameUpToCase(s: string, t: string, i: nat)
    requires SameUpToCase(s, t)
    ensures ActiveChannelAt(s, i) <==> ActiveChannelAt(t, i)
  {
    if i < |s| {
      RunSameUpToCase(s, t, i);
      if IsDigit(s[i]) {
        DigitSameUpToCase(s[i], t[i]);
      } else if IsDigit(t[i]) {
        DigitSameUpToCase(t[i], s[i]);
      }
    }
  }

  lemma {:induction false} FindSameUpToCase(s: string, t: string, from: nat)
    requires SameUpToCase(s, t) && from <= |s|
    ensures FindActiveChannel(s, from) == FindActiveChannel(t, from)
    decreases |s| - from
  {
    if from < |s| {
      MatchSameUpToCase(s, t, from);
      if !ActiveChannelAt(s, from) {
        FindSameUpToCase(s, t, from + 1);
      }
    }
  }
}
