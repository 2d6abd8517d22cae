/**
 * The trunk service of the Nest backend: trunk documents keyed by their
 * name, and the block of sip.conf between the `;;; TRUNKS START ;;;` and
 * `;;; TRUNKS END ;;;` markers that holds a peer for every SIP trunk.
 */
module Trunks {
  import opened Text
  import opened Records
  import opened Sections
  import opened Store
  import opened Ami

  /** The natural key of a trunk document. */
  function TrunkName(t: Trunk): string { t.name }

  // ---------------------------------------------------------------------
  // One trunk's peer
  // ---------------------------------------------------------------------

  /** A `key=value` line of a peer. */
  datatype Setting = Setting(key: string, value: string)

  function Render(s: Setting): string
  {
    s.key + "=" + s.value + "\n"
  }

  predicate HasKey(ss: seq<Setting>, key: string)
  {
    exists i :: 0 <= i < |ss| && ss[i].key == key
  }

  /** The secret as the template reads it: unset is empty. */
  function Secret(t: Trunk): string
  {
    if t.secret.Some? then t.secret.value else ""
  }

  /** A setting written only when its value is set. */
  function Optional(key: string, value: string): (ss: seq<Setting>)
    ensures ss == [] <==> value == ""
    ensures forall i :: 0 <= i < |ss| ==> ss[i] == Setting(key, value)
  {
    if value != "" then [Setting(key, value)] else []
  }

  /** The fields after the credentials, each with its default. */
  function SipOptions(t: Trunk): seq<Setting>
  {
    [Setting("context", Or(t.context, "from-trunk")),
     Setting("dtmfmode", Or(t.dtmfMode, "rfc2833")),
     Setting("transport", Or(t.transport, "udp")),
     Setting("insecure", Or(t.insecure, "port,invite")),
     Setting("nat", Or(t.natMode, "yes"))]
  }

  function SipMedia(t: Trunk): seq<Setting>
  {
    [Setting("qualify", "yes"),
     Setting("qualifyfreq", IntToString(OrInt(t.qualifyFreq, 60))),
     Setting("disallow", Or(t.disallow, "all")),
     Setting("allow", Or(t.allow, "ulaw,alaw,g722"))]
  }

  /**
   * The settings of a SIP trunk's peer, in order: the host, the username
   * and the secret when set, then every other field with its default.
   */
  function SipSettings(t: Trunk): (ss: seq<Setting>)
    ensures |ss| == 10 + |Optional("username", t.username)| + |Optional("secret", Secret(t))|
    ensures ss[0] == Setting("host", t.host)
  {
    [Setting("host", t.host)] + Optional("username", t.username) + Optional("secret", Secret(t))
    + SipOptions(t) + SipMedia(t)
  }

  /**
   * The credentials are written exactly when they are set, with the
   * trunk's values, and every setting but the host has a value.
   */
  lemma SipSettingsFacts(t: Trunk)
    ensures HasKey(SipSettings(t), "username") <==> t.username != ""
    ensures HasKey(SipSettings(t), "secret") <==> Secret(t) != ""
    ensures forall i :: 0 <= i < |SipSettings(t)| && SipSettings(t)[i].key == "username" ==>
      SipSettings(t)[i].value == t.username
    ensures forall i :: 0 <= i < |SipSettings(t)| && SipSettings(t)[i].key == "secret" ==>
      SipSettings(t)[i].value == Secret(t)
    ensures forall i :: 0 <= i < |SipSettings(t)| && SipSettings(t)[i].key != "host" ==>
      SipSettings(t)[i].value != ""
  {
    var ss := SipSettings(t);
    var u, s := Optional("username", t.username), Optional("secret", Secret(t));
    var rest := SipOptions(t) + SipMedia(t);
    assert ss == [Setting("host", t.host)] + u + s + rest;
    assert forall i :: 0 <= i < |rest| ==> rest[i].key != "username" && rest[i].key != "secret" && rest[i].value != "";
    forall i | 0 <= i < |ss|
      ensures ss[i] == Setting("host", t.host) || (ss[i] in u) || (ss[i] in s) || (ss[i] in rest)
    {
      if 1 <= i < 1 + |u| {
        assert ss[i] == u[i - 1];
      } else if 1 + |u| <= i < 1 + |u| + |s| {
        assert ss[i] == s[i - 1 - |u|];
      } else if 1 + |u| + |s| <= i {
        assert ss[i] == rest[i - 1 - |u| - |s|];
      }
    }
    if t.username != "" {
      assert ss[1] == Setting("username", t.username);
    }
    if Secret(t) != "" {
      assert ss[1 + |u|] == Setting("secret", Secret(t));
    }
  }

  /** `[<name>](template-trunk)`, the settings, and a blank line. */
  function SipSection(t: Trunk): string
  {
    "[" + t.name + "](template-trunk)\n" + ConcatMap(SipSettings(t), Render) + "\n"
  }

  /** Fields left unset are written with the defaults of the trunk schema. */
  lemma SipDefaults(t: Trunk)
    requires t.context == "" && t.dtmfMode == "" && t.transport == "" && t.insecure == ""
    requires t.natMode == "" && t.qualifyFreq == 0 && t.disallow == "" && t.allow == ""
    ensures SipSection(t) == SipSection(t.(context := "from-trunk", dtmfMode := "rfc2833", transport := "udp",
      insecure := "port,invite", natMode := "yes", qualifyFreq := 60, disallow := "all", allow := "ulaw,alaw,g722"))
  {
  }

  /** Only SIP trunks are written; a pjsip or IAX trunk writes nothing. */
  function TrunkSection(t: Trunk): string
  {
    if t.kind == Sip then SipSection(t) else ""
  }

  // ---------------------------------------------------------------------
  // The marker block
  // ---------------------------------------------------------------------

  /**
   * The fixed text that opens the block. The merge is stated for any
   * opening that ends a line; the service uses `ServiceTexts`.
   */
  datatype TrunkTexts = TrunkTexts(intro: string)

  predicate TextsReady(x: TrunkTexts)
  {
    |x.intro| > 0 && x.intro[|x.intro| - 1] == '\n'
  }

  /** What goes between the markers: the opening comment, then every SIP trunk's peer. */
  function SipBody(x: TrunkTexts, trunks: seq<Trunk>): string
  {
    x.intro + ConcatMap(trunks, TrunkSection)
  }

  /** The render loop. */
  method BuildSipBody(x: TrunkTexts, trunks: seq<Trunk>) returns (body: string)
    ensures body == SipBody(x, trunks)
  {
    body := x.intro;
    for i := 0 to |trunks|
      invariant body == x.intro + ConcatMap(trunks[..i], TrunkSection)
    {
      ConcatMapStep(trunks, i, TrunkSection);
      if trunks[i].kind == Sip {
        AppendTwice(x.intro, ConcatMap(trunks[..i], TrunkSection), SipSection(trunks[i]));
        body := body + SipSection(trunks[i]);
      } else {
        assert ConcatMap(trunks[..i + 1], TrunkSection) == ConcatMap(trunks[..i], TrunkSection) + "";
      }
    }
    assert trunks[..|trunks|] == trunks;
  }

  /** The SIP trunks, in their order. */
  function SipOnly(trunks: seq<Trunk>): (w: seq<Trunk>)
    ensures forall t :: t in w <==> t in trunks && t.kind == Sip
  {
    if trunks == [] then []
    else
      var init := SipOnly(trunks[..|trunks| - 1]);
      var last := trunks[|trunks| - 1];
      assert trunks == trunks[..|trunks| - 1] + [last];
      if last.kind == Sip then init + [last] else init
  }

  /** Trunks of other types write nothing: the body is the one of the SIP trunks. */
  lemma {:induction false} OthersWriteNothing(trunks: seq<Trunk>)
    ensures ConcatMap(trunks, TrunkSection) == ConcatMap(SipOnly(trunks), TrunkSection)
  {
    if trunks != [] {
      var init := trunks[..|trunks| - 1];
      var last := trunks[|trunks| - 1];
      OthersWriteNothing(init);
      if last.kind == Sip {
        ConcatMapAppend(SipOnly(init), [last], TrunkSection);
        assert ConcatMap([last], TrunkSection) == TrunkSection(last);
      }
    }
  }

  /** The body ends a line, so the END marker starts one. */
  lemma SipBodyEndsLine(x: TrunkTexts, trunks: seq<Trunk>)
    requires TextsReady(x)
    ensures |SipBody(x, trunks)| > 0 && SipBody(x, trunks)[|SipBody(x, trunks)| - 1] == '\n'
  {
    var b := SipBody(x, trunks);
    if |trunks| > 0 {
      var last := trunks[|trunks| - 1];
      var front := x.intro + ConcatMap(trunks[..|trunks| - 1], TrunkSection);
      assert b == front + TrunkSection(last);
      if last.kind == Sip {
        var h := "[" + last.name + "](template-trunk)\n" + ConcatMap(SipSettings(last), Render);
        assert TrunkSection(last) == h + "\n";
        assert b == (front + h) + "\n";
      } else {
        assert b == front;
        SipBodyEndsLine(x, trunks[..|trunks| - 1]);
      }
    }
  }

  /** The marker block a sync writes holds every SIP trunk's peer. */
  lemma SipBodyCovers(x: TrunkTexts, trunks: seq<Trunk>, i: nat)
    requires i < |trunks| && trunks[i].kind == Sip
    ensures Contains(SipBody(x, trunks), SipSection(trunks[i]))
  {
    ConcatMapContains(trunks, i, TrunkSection);
    ContainsPrefixed(x.intro, ConcatMap(trunks, TrunkSection), SipSection(trunks[i]));
  }

  /** Whatever sip.conf held, the merged file holds the whole marker block. */
  lemma TrunkMergeHolds(cur: string, body: string)
    ensures Contains(TrunkMerge(cur, body), TrunksStart + "\n" + body + TrunksEnd)
  {
    if Contains(cur, TrunksStart) && Contains(cur, TrunksEnd) {
      HoldsReplaced(cur, body);
    } else {
      HoldsAppended(cur, body);
    }
  }

  lemma HoldsReplaced(cur: string, body: string)
    requires Contains(cur, TrunksStart) && Contains(cur, TrunksEnd)
    ensures Contains(TrunkMerge(cur, body), TrunksStart + "\n" + body + TrunksEnd)
  {
    var block := TrunksStart + "\n" + body + TrunksEnd;
    assert TrunkMerge(cur, body) == SplitHead(cur, TrunksStart) + block + SplitSecond(cur, TrunksEnd);
    ContainsMiddle(SplitHead(cur, TrunksStart), block, SplitSecond(cur, TrunksEnd));
  }

  lemma HoldsAppended(cur: string, body: string)
    requires !(Contains(cur, TrunksStart) && Contains(cur, TrunksEnd))
    ensures Contains(TrunkMerge(cur, body), TrunksStart + "\n" + body + TrunksEnd)
  {
    var block := TrunksStart + "\n" + body + TrunksEnd;
    assert TrunkMerge(cur, body) == cur + "\n" + block + "\n";
    ContainsMiddle(cur + "\n", block, "\n");
  }

  /** The text before the first START, or the whole file when a marker is missing, is kept at the front. */
  lemma TrunkMergeKeepsBefore(cur: string, body: string)
    ensures Contains(cur, TrunksStart) && Contains(cur, TrunksEnd) ==>
      StartsWith(TrunkMerge(cur, body), SplitHead(cur, TrunksStart))
    ensures !(Contains(cur, TrunksStart) && Contains(cur, TrunksEnd)) ==> StartsWith(TrunkMerge(cur, body), cur)
  {
    if Contains(cur, TrunksStart) && Contains(cur, TrunksEnd) {
      KeepsHead(cur, body);
    } else {
      KeepsAll(cur, body);
    }
  }

  lemma KeepsHead(cur: string, body: string)
    requires Contains(cur, TrunksStart) && Contains(cur, TrunksEnd)
    ensures StartsWith(TrunkMerge(cur, body), SplitHead(cur, TrunksStart))
  {
    var h := SplitHead(cur, TrunksStart);
    var rest := TrunksStart + "\n" + body + TrunksEnd + SplitSecond(cur, TrunksEnd);
    assert TrunkMerge(cur, body) == h + rest;
    StartsWithConcat(h, rest);
  }

  lemma KeepsAll(cur: string, body: string)
    requires !(Contains(cur, TrunksStart) && Contains(cur, TrunksEnd))
    ensures StartsWith(TrunkMerge(cur, body), cur)
  {
    var rest := "\n" + TrunksStart + "\n" + body + TrunksEnd + "\n";
    assert TrunkMerge(cur, body) == cur + rest;
    StartsWithConcat(cur, rest);
  }

  // ---------------------------------------------------------------------
  // sip.conf after a sync
  // ---------------------------------------------------------------------

  /** sip.conf is missing or has neither marker, or has its first START before its first END. */
  predicate MarkersInOrder(cur: string)
  {
    (!Contains(cur, TrunksStart) && !Contains(cur, TrunksEnd)) ||
    (Contains(cur, TrunksStart) && Contains(cur, TrunksEnd) &&
     IndexOf(cur, TrunksStart, 0) < IndexOf(cur, TrunksEnd, 0))
  }

  /** The files after a sync: the marker block of sip.conf rewritten (an empty file when it is missing). */
  function TrunkSyncFiles(x: TrunkTexts, files: map<string, string>, stored: seq<Trunk>): (r: map<string, string>)
    ensures SipConfFile in r
    ensures forall n :: n != SipConfFile ==> (n in r <==> n in files)
    ensures forall n :: n != SipConfFile && n in files ==> r[n] == files[n]
  {
    files[SipConfFile := TrunkMerge(FileOr(files, SipConfFile, ""), SipBody(x, stored))]
  }

  /** After a sync, sip.conf holds the peer of every stored SIP trunk. */
  lemma TrunkSyncCovers(x: TrunkTexts, files: map<string, string>, stored: seq<Trunk>, i: nat)
    requires i < |stored| && stored[i].kind == Sip
    ensures Contains(TrunkSyncFiles(x, files, stored)[SipConfFile], SipSection(stored[i]))
  {
    var body := SipBody(x, stored);
    var merged := TrunkMerge(FileOr(files, SipConfFile, ""), body);
    TrunkMergeHolds(FileOr(files, SipConfFile, ""), body);
    SipBodyCovers(x, stored, i);
    ContainsMiddle(TrunksStart + "\n", body, TrunksEnd);
    ContainsTrans(merged, TrunksStart + "\n" + body + TrunksEnd, body);
    ContainsTrans(merged, body, SipSection(stored[i]));
  }

  /**
   * Syncing again with the same trunks writes the text sip.conf already
   * holds, when no peer writes the END marker and the file's markers were
   * in order.
   */
  lemma TrunkSyncIdempotent(x: TrunkTexts, files: map<string, string>, stored: seq<Trunk>)
    requires TextsReady(x) && !Contains(SipBody(x, stored), TrunksEnd)
    requires MarkersInOrder(FileOr(files, SipConfFile, ""))
    ensures TrunkSyncFiles(x, TrunkSyncFiles(x, files, stored), stored) == TrunkSyncFiles(x, files, stored)
  {
    var body := SipBody(x, stored);
    var cur := FileOr(files, SipConfFile, "");
    SipBodyEndsLine(x, stored);
    TrunkMergeIdempotent(cur, body);
    WriteAgain(files, SipConfFile, TrunkMerge(cur, body), "");
  }

  // ---------------------------------------------------------------------
  // The rename check
  // ---------------------------------------------------------------------

  /**
   * `update`'s check as written: a new non-empty name is refused when any
   * trunk other than this one exists, whatever its name, because the query
   * filters on the id alone.
   */
  predicate RenameRefusedAsWritten(items: seq<Entry<Trunk>>, k: nat, given: Option<string>)
    requires k < |items|
  {
    given.Some? && given.value != "" && given.value != items[k].rec.name &&
    exists j :: 0 <= j < |items| && Some(items[j].id) != Some(items[k].id)
  }

  /** The intended check refuses only what the written one refuses. */
  lemma ConflictIsRefusedAsWritten(items: seq<Entry<Trunk>>, k: nat, given: Option<string>)
    requires k < |items|
    ensures RenameConflict(items, TrunkName, k, given) ==> RenameRefusedAsWritten(items, k, given)
  {
  }

  /**
   * With two trunks `a` and `b`, renaming `a` to `c` is refused as written,
   * although no trunk is named `c`; the intended check accepts it.
   */
  lemma RenameRefusedWithoutClash()
    ensures var t := Trunk("a", Sip, "h", "", None, "", "", "", "", "", 0, "", "");
      var items := [Entry(0, t), Entry(1, t.(name := "b"))];
      RenameRefusedAsWritten(items, 0, Some("c")) && !RenameConflict(items, TrunkName, 0, Some("c"))
  {
    var t := Trunk("a", Sip, "h", "", None, "", "", "", "", "", 0, "", "");
    var items := [Entry(0, t), Entry(1, t.(name := "b"))];
    assert Some(items[1].id) != Some(items[0].id);
    assert items[0].rec.name == "a" && items[1].rec.name == "b";
  }

  // ---------------------------------------------------------------------
  // The service
  // ---------------------------------------------------------------------

  /**
   * The trunk service over its collection, the configuration directory and
   * the manager session. The `sip` reload's answer is a parameter; its
   * error propagates, after the store was changed.
   */
  class TrunksService {
    const trunks: Collection<Trunk>
    const files: ConfigFiles
    const ami: AsteriskService
    /** Always `ServiceTexts`. */
    const texts: TrunkTexts

    /** Ids are unique and no two trunks share a non-empty name. */
    predicate Valid()
      reads this, trunks
    {
      trunks.Valid() && KeysUnique(trunks.items, TrunkName)
    }

    constructor(trunks: Collection<Trunk>, files: ConfigFiles, ami: AsteriskService)
      requires trunks.Valid() && KeysUnique(trunks.items, TrunkName)
      ensures this.trunks == trunks && this.files == files && this.ami == ami
      ensures texts == ServiceTexts && TextsReady(texts)
      ensures Valid()
    {
      this.trunks := trunks;
      this.files := files;
      this.ami := ami;
      this.texts := ServiceTexts;
      ServiceTextsReady();
    }

    /** `findAll`: every trunk, in store order. */
    method FindAll() returns (all: seq<Trunk>)
      ensures all == trunks.Stored()
    {
      all := trunks.Stored();
    }

    /** `findOne(id)`. */
    method Get(id: nat) returns (r: Result<Trunk>)
      requires Valid()
      ensures Records.FindById(trunks.items, id).None? ==> r == Err(NotFound("trunk"))
      ensures Records.FindById(trunks.items, id).Some? ==>
        r == Ok(trunks.items[Records.FindById(trunks.items, id).value].rec)
    {
      var k := trunks.FindById(id);
      if k.None? {
        return Err(NotFound("trunk"));
      }
      r := Ok(trunks.items[k.value].rec);
    }

    /**
     * `updateAsteriskConfig`: the SIP trunks rendered in store order, the
     * marker block of sip.conf rewritten, then `sip` reloaded.
     */
    method SyncAsterisk(reply: Result<Response>) returns (r: Result<()>)
      modifies files, ami
      ensures files.files == TrunkSyncFiles(texts, old(files.files), trunks.Stored())
      ensures ami.sent == old(ami.sent) + SentIf(old(ami.connected), ReloadAction("sip"))
      ensures r == Done(Awaited(old(ami.connected), reply))
      ensures ami.Session() == old(ami.Session())
    {
      var body := BuildSipBody(texts, trunks.Stored());
      var current := "";
      if SipConfFile in files.files {
        current := files.files[SipConfFile];
      }
      var merged;
      if Contains(current, TrunksStart) && Contains(current, TrunksEnd) {
        merged := SplitHead(current, TrunksStart) + TrunksStart + "\n" + body + TrunksEnd + SplitSecond(current, TrunksEnd);
      } else {
        merged := current + "\n" + TrunksStart + "\n" + body + TrunksEnd + "\n";
      }
      files.Write(SipConfFile, merged);
      var reloaded := ami.ReloadModule("sip", reply);
      r := Done(reloaded);
    }

    /** `create`: refused when any trunk has the name; otherwise saved, then synced. */
    method Create(trunk: Trunk, reply: Result<Response>) returns (r: Result<Entry<Trunk>>)
      requires Valid()
      modifies trunks, files, ami
      ensures Valid() && ami.Session() == old(ami.Session())
      ensures KeyHeldByOther(old(trunks.items), TrunkName, trunk.name, None) ==>
        r == Err(Conflict(trunk.name)) && trunks.items == old(trunks.items) &&
        files.files == old(files.files) && ami.sent == old(ami.sent)
      ensures !KeyHeldByOther(old(trunks.items), TrunkName, trunk.name, None) ==>
        trunks.items == old(trunks.items) + [Entry(old(trunks.nextId), trunk)] &&
        files.files == TrunkSyncFiles(texts, old(files.files), trunks.Stored()) &&
        ami.sent == old(ami.sent) + SentIf(old(ami.connected), ReloadAction("sip")) &&
        r == Then(Done(Awaited(old(ami.connected), reply)), Entry(old(trunks.nextId), trunk))
    {
      var existing := trunks.FindOne(TrunkName, trunk.name, None);
      if existing.Some? {
        return Err(Conflict(trunk.name));
      }
      AppendKeepsKeysUnique(trunks.items, TrunkName, Entry(trunks.nextId, trunk));
      var id := trunks.Insert(trunk);
      var synced := SyncAsterisk(reply);
      r := Then(synced, Entry(id, trunk));
    }

    /**
     * `update` with the intended rename check: a missing id, then a new
     * non-empty name held by another trunk, are refused; otherwise the
     * fields are assigned and the configuration synced.
     */
    method Update(id: nat, name: Option<string>, patch: Trunk -> Trunk, reply: Result<Response>)
      returns (r: Result<Trunk>)
      requires Valid() && SetsKey(patch, TrunkName, name)
      modifies trunks, files, ami
      ensures Valid() && ami.Session() == old(ami.Session())
      ensures Records.FindById(old(trunks.items), id).None? ==>
        r == Err(NotFound("trunk")) && trunks.items == old(trunks.items) &&
        files.files == old(files.files) && ami.sent == old(ami.sent)
      ensures Records.FindById(old(trunks.items), id).Some? ==>
        var k := Records.FindById(old(trunks.items), id).value;
        (RenameConflict(old(trunks.items), TrunkName, k, name) ==>
          r == Err(Conflict(name.value)) && trunks.items == old(trunks.items) &&
          files.files == old(files.files) && ami.sent == old(ami.sent)) &&
        (!RenameConflict(old(trunks.items), TrunkName, k, name) ==>
          trunks.items == old(trunks.items)[k := Entry(id, patch(old(trunks.items)[k].rec))] &&
          files.files == TrunkSyncFiles(texts, old(files.files), trunks.Stored()) &&
          ami.sent == old(ami.sent) + SentIf(old(ami.connected), ReloadAction("sip")) &&
          r == Then(Done(Awaited(old(ami.connected), reply)), patch(old(trunks.items)[k].rec)))
    {
      var found := trunks.FindById(id);
      if found.None? {
        return Err(NotFound("trunk"));
      }
      var k := found.value;
      var current := trunks.items[k].rec;
      if name.Some? && name.value != "" && name.value != current.name {
        var other := trunks.FindOne(TrunkName, name.value, Some(id));
        if other.Some? {
          return Err(Conflict(name.value));
        }
      }
      UpdateKeepsKeysUnique(trunks.items, TrunkName, k, name, patch);
      var updated := patch(current);
      trunks.Replace(k, updated);
      var synced := SyncAsterisk(reply);
      r := Then(synced, updated);
    }

    /** `remove`: a missing id is refused; otherwise the trunk is deleted and the configuration synced. */
    method Remove(id: nat, reply: Result<Response>) returns (r: Result<Trunk>)
      requires Valid()
      modifies trunks, files, ami
      ensures Valid() && ami.Session() == old(ami.Session())
      ensures Records.FindById(old(trunks.items), id).None? ==>
        r == Err(NotFound("trunk")) && trunks.items == old(trunks.items) &&
        files.files == old(files.files) && ami.sent == old(ami.sent)
      ensures Records.FindById(old(trunks.items), id).Some? ==>
        var k := Records.FindById(old(trunks.items), id).value;
        trunks.items == old(trunks.items)[..k] + old(trunks.items)[k + 1..] &&
        files.files == TrunkSyncFiles(texts, old(files.files), trunks.Stored()) &&
        ami.sent == old(ami.sent) + SentIf(old(ami.connected), ReloadAction("sip")) &&
        r == Then(Done(Awaited(old(ami.connected), reply)), old(trunks.items)[k].rec)
    {
      var found := trunks.FindById(id);
      if found.None? {
        return Err(NotFound("trunk"));
      }
      RemoveKeepsKeysUnique(trunks.items, TrunkName, found.value);
      var removed := trunks.Delete(found.value);
      var synced := SyncAsterisk(reply);
      r := Then(synced, removed.rec);
    }
  }

  // ---------------------------------------------------------------------
  // The fixed texts
  // ---------------------------------------------------------------------

  /** The comment that opens the block, and a blank line. */
  const TrunksIntro := "; Trunks được tạo" + " bởi NestJS API" + "\n\n"

  const ServiceTexts := TrunkTexts(TrunksIntro)

  lemma ServiceTextsReady()
    ensures TextsReady(ServiceTexts)
  {
    var a := "; Trunks được tạo" + " bởi NestJS API";
    assert TrunksIntro == a + "\n\n";
  }
}
