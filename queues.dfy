/**
 * The queue service of the Nest backend: queue documents with their static
 * members, queues.conf regenerated from them, the `[queues]` context of
 * extensions.conf that sends a call to a queue's name into that queue, and
 * the `queue ...` commands it sends through the manager session.
 */
module Queues {
  import opened Text
  import opened Records
  import opened Sections
  import opened Dialplan
  import opened Store
  import opened Ami

  /** The natural key of a queue document. */
  function QueueName(q: Queue): string { q.name }

  // ---------------------------------------------------------------------
  // queues.conf
  // ---------------------------------------------------------------------

  const QueuesGeneral := "[general]\n  persistentmembers = yes\n  autofill = yes\n"
    + "  monitor-type = MixMonitor\n  shared_lastcall = yes\n  \n  "

  /** The announce setting, written only for a queue that has an announcement. */
  function AnnounceLine(announce: string): string
  {
    if announce != "" then "announce = " + announce else ""
  }

  /** One `key = value` line of a queue's settings, opened by the indented line break. */
  function Setting(key: string, value: string): string
  {
    "\n  " + key + " = " + value
  }

  /** A queue's header and settings, unset ones replaced by their defaults. */
  function QueueSettings(q: Queue): string
  {
    "[" + q.name + "]" + Setting("strategy", Or(q.strategy, "ringall"))
    + Setting("timeout", IntToString(OrInt(q.timeout, 15)))
    + Setting("wrapuptime", IntToString(OrInt(q.wrapuptime, 0)))
    + Setting("maxlen", IntToString(OrInt(q.maxlen, 0)))
    + "\n  " + AnnounceLine(q.announce)
    + Setting("musicclass", Or(q.musicClass, "default")) + "\n  "
  }

  function MemberLine(member: string): string
  {
    "member = SIP/" + member + "\n"
  }

  /** One queue's section: its settings, a line per static member, a blank line. */
  function QueueSection(q: Queue): string
  {
    QueueSettings(q) + ConcatMap(q.members, MemberLine) + "\n"
  }

  /** The whole of queues.conf: the fixed `[general]` part, then every queue. */
  function QueuesConf(queues: seq<Queue>): string
  {
    QueuesGeneral + ConcatMap(queues, QueueSection)
  }

  /** One queue's section: its settings, then its members one line at a time. */
  method RenderQueueSection(q: Queue) returns (section: string)
    ensures section == QueueSection(q)
  {
    var lines := "";
    for j := 0 to |q.members|
      invariant lines == ConcatMap(q.members[..j], MemberLine)
    {
      ConcatMapStep(q.members, j, MemberLine);
      lines := lines + MemberLine(q.members[j]);
    }
    assert q.members[..|q.members|] == q.members;
    section := QueueSettings(q) + lines + "\n";
  }

  /** The rendering loop of queues.conf: the `[general]` part, then each queue's section. */
  method RenderQueuesConf(queues: seq<Queue>) returns (content: string)
    ensures content == QueuesConf(queues)
  {
    var sections := "";
    for i := 0 to |queues|
      invariant sections == ConcatMap(queues[..i], QueueSection)
    {
      var section := RenderQueueSection(queues[i]);
      ConcatMapStep(queues, i, QueueSection);
      sections := sections + section;
    }
    assert queues[..|queues|] == queues;
    content := QueuesGeneral + sections;
  }

  /** Every queue of the collection has its section in queues.conf. */
  lemma QueuesConfSections(queues: seq<Queue>, i: nat)
    requires i < |queues|
    ensures Contains(QueuesConf(queues), QueueSection(queues[i]))
  {
    ConcatMapContains(queues, i, QueueSection);
    ContainsPrefixed(QueuesGeneral, ConcatMap(queues, QueueSection), QueueSection(queues[i]));
  }

  /** Every static member of a queue has its `member = SIP/<m>` line in the queue's section. */
  lemma QueueSectionMembers(q: Queue, i: nat)
    requires i < |q.members|
    ensures Contains(QueueSection(q), MemberLine(q.members[i]))
  {
    var p := MemberLine(q.members[i]);
    ConcatMapContains(q.members, i, MemberLine);
    ContainsPrefixed(QueueSettings(q), ConcatMap(q.members, MemberLine), p);
    ContainsExtend(QueueSettings(q) + ConcatMap(q.members, MemberLine), "\n", p);
  }

  /** A queue with every unset setting replaced by the value the section writes for it. */
  function WithDefaults(q: Queue): Queue
  {
    q.(strategy := Or(q.strategy, "ringall"), timeout := OrInt(q.timeout, 15),
       wrapuptime := OrInt(q.wrapuptime, 0), maxlen := OrInt(q.maxlen, 0),
       musicClass := Or(q.musicClass, "default"))
  }

  /**
   * Unset strategy, timeout and music class are written as ringall, 15 and
   * default, and the section is that of the queue with its defaults filled in.
   */
  lemma QueueSectionDefaults(q: Queue)
    ensures QueueSection(q) == QueueSection(WithDefaults(q))
    ensures q.strategy == "" ==> Contains(QueueSettings(q), Setting("strategy", "ringall"))
    ensures q.timeout == 0 ==> Contains(QueueSettings(q), Setting("timeout", "15"))
    ensures q.musicClass == "" ==> Contains(QueueSettings(q), Setting("musicclass", "default"))
  {
    var h := "[" + q.name + "]";
    var s1 := Setting("strategy", Or(q.strategy, "ringall"));
    var s2 := Setting("timeout", IntToString(OrInt(q.timeout, 15)));
    var s3 := Setting("wrapuptime", IntToString(OrInt(q.wrapuptime, 0)));
    var s4 := Setting("maxlen", IntToString(OrInt(q.maxlen, 0)));
    var an := "\n  " + AnnounceLine(q.announce);
    var s5 := Setting("musicclass", Or(q.musicClass, "default"));
    var tail := "\n  ";
    assert QueueSettings(q) == h + s1 + s2 + s3 + s4 + an + s5 + tail;
    ContainsEnd(h, s1);
    ContainsExtend(h + s1, s2, s1);
    ContainsEnd(h + s1, s2);
    ContainsExtendAll(h + s1 + s2, s1, s2, s3, s4, an, s5, tail);
    ContainsEnd(h + s1 + s2 + s3 + s4 + an, s5);
    ContainsExtend(h + s1 + s2 + s3 + s4 + an + s5, tail, s5);
    if q.timeout == 0 {
      assert IntToString(15) == "15";
    }
  }

  /** Two pieces of `a` are kept in `a` followed by five more parts. */
  lemma ContainsExtendAll(a: string, p1: string, p2: string, b: string, c: string, d: string, e: string, f: string)
    requires Contains(a, p1) && Contains(a, p2)
    ensures Contains(a + b + c + d + e + f, p1) && Contains(a + b + c + d + e + f, p2)
  {
    ContainsExtend(a, b, p1);
    ContainsExtend(a + b, c, p1);
    ContainsExtend(a + b + c, d, p1);
    ContainsExtend(a + b + c + d, e, p1);
    ContainsExtend(a + b + c + d + e, f, p1);
    ContainsExtend(a, b, p2);
    ContainsExtend(a + b, c, p2);
    ContainsExtend(a + b + c, d, p2);
    ContainsExtend(a + b + c + d, e, p2);
    ContainsExtend(a + b + c + d + e, f, p2);
  }

  // ---------------------------------------------------------------------
  // The [queues] context of extensions.conf
  // ---------------------------------------------------------------------

  const QueuesHeader := "[queues]"

  function QueueApps(q: Queue): seq<string>
  {
    ["Answer()", "Queue(" + q.name + ")", "Hangup()"]
  }

  /** A queue's extension, dialled by its name: answer, enter the queue, hang up. */
  function QueueExtension(q: Queue): string
  {
    Concat(ExtenLines(q.name, QueueApps(q))) + "\n"
  }

  function QueuesContext(queues: seq<Queue>): string
  {
    QueuesHeader + "\n" + ConcatMap(queues, QueueExtension)
  }

  /** The context loop: three lines and a blank line per queue. */
  method BuildQueuesContext(queues: seq<Queue>) returns (ctx: string)
    ensures ctx == QueuesContext(queues)
  {
    var extensions := "";
    for i := 0 to |queues|
      invariant extensions == ConcatMap(queues[..i], QueueExtension)
    {
      ConcatMapStep(queues, i, QueueExtension);
      extensions := extensions + QueueExtension(queues[i]);
    }
    assert queues[..|queues|] == queues;
    ctx := QueuesHeader + "\n" + extensions;
  }

  /** extensions.conf after the sync: the `[queues]` span replaced, or appended after a newline. */
  function QueuesDialplan(current: string, queues: seq<Queue>): string
  {
    ReplaceContext(current, QueuesHeader, QueuesContext(queues), "\n")
  }

  predicate PlainNames(queues: seq<Queue>)
  {
    forall i :: 0 <= i < |queues| ==> Plain(queues[i].name)
  }

  /** With names free of `[`, the context opens no section besides its own. */
  lemma QueuesContextIsSection(queues: seq<Queue>)
    requires PlainNames(queues)
    ensures BracketHeader(QueuesHeader)
    ensures SectionText(QueuesContext(queues), QueuesHeader)
  {
    forall i | 0 <= i < |queues| ensures Plain(QueueExtension(queues[i])) {
      var q := queues[i];
      assert Plain(q.name);
      assert AllPlain(QueueApps(q));
      ExtenLinesPlain(q.name, QueueApps(q));
    }
    ConcatMapPlain(queues, QueueExtension);
    var body := "\n" + ConcatMap(queues, QueueExtension);
    SectionOfPlain("queues", body);
    assert "[" + "queues" + "]" == QueuesHeader;
    assert QueuesContext(queues) == QueuesHeader + body;
  }

  /** Syncing twice with the same queues leaves extensions.conf as syncing once did. */
  lemma QueuesDialplanIdempotent(current: string, queues: seq<Queue>)
    requires PlainNames(queues)
    ensures QueuesDialplan(QueuesDialplan(current, queues), queues) == QueuesDialplan(current, queues)
  {
    QueuesContextIsSection(queues);
    ReplaceContextIdempotent(current, QueuesHeader, QueuesContext(queues), "\n");
  }

  /** After the merge, every queue's extension is in extensions.conf, whatever the file held. */
  lemma QueuesDialplanCovers(current: string, queues: seq<Queue>, i: nat)
    requires i < |queues|
    ensures Contains(QueuesDialplan(current, queues), QueueExtension(queues[i]))
  {
    var ctx := QueuesContext(queues);
    ReplaceContextHolds(current, QueuesHeader, ctx, "\n");
    ConcatMapContains(queues, i, QueueExtension);
    ContainsPrefixed(QueuesHeader + "\n", ConcatMap(queues, QueueExtension), QueueExtension(queues[i]));
    ContainsTrans(QueuesDialplan(current, queues), ctx, QueueExtension(queues[i]));
  }

  // ---------------------------------------------------------------------
  // Static members
  // ---------------------------------------------------------------------

  /** `members.indexOf(m)`: the first position holding `m`, or -1. */
  function IndexOfMember(members: seq<string>, m: string): (r: int)
    ensures r == -1 <==> m !in members
    ensures r != -1 ==> 0 <= r < |members| && members[r] == m && m !in members[..r]
  {
    if members == [] then -1
    else if members[0] == m then 0
    else
      var j := IndexOfMember(members[1..], m);
      if j == -1 then -1
      else
        assert members[..j + 1] == [members[0]] + members[1..][..j];
        j + 1
  }

  /** The members after `addMemberToQueue`: unchanged when `m` is already one, else `m` appended. */
  function WithMember(members: seq<string>, m: string): (r: seq<string>)
    ensures members <= r
    ensures forall x :: x in r <==> x in members || x == m
  {
    if m in members then members else members + [m]
  }

  /** The members after `removeMemberFromQueue`: the first copy of `m` spliced out, if any. */
  function WithoutMember(members: seq<string>, m: string): (r: seq<string>)
  {
    var i := IndexOfMember(members, m);
    if i == -1 then members else members[..i] + members[i + 1..]
  }

  /** Removing takes away exactly one copy of the member, or nothing when it is absent. */
  lemma WithoutMemberMultiset(members: seq<string>, m: string)
    ensures multiset(WithoutMember(members, m)) == multiset(members) - multiset{m}
    ensures m in members ==> |WithoutMember(members, m)| == |members| - 1
    ensures m !in members ==> WithoutMember(members, m) == members
  {
    var i := IndexOfMember(members, m);
    if i != -1 {
      assert members == members[..i] + [m] + members[i + 1..];
      assert multiset(members) == multiset(members[..i]) + multiset{m} + multiset(members[i + 1..]);
    } else {
      assert multiset(members)[m] == 0;
    }
  }

  /** Adding a new member and removing it again gives back the members. */
  lemma AddThenRemoveMember(members: seq<string>, m: string)
    requires m !in members
    ensures WithoutMember(WithMember(members, m), m) == members
  {
    var s := members + [m];
    assert s[|members|] == m;
    assert s[..|members|] == members;
    assert IndexOfMember(s, m) == |members|;
    assert s[|members| + 1..] == [];
  }

  /** Adding the same member twice adds it once. */
  lemma AddMemberIdempotent(members: seq<string>, m: string)
    ensures WithMember(WithMember(members, m), m) == WithMember(members, m)
    ensures multiset(WithMember(members, m))[m] == multiset(members)[m] + (if m in members then 0 else 1)
  {
    if m !in members {
      assert m in members + [m];
      assert multiset(members + [m]) == multiset(members) + multiset{m};
    }
  }

  // ---------------------------------------------------------------------
  // Queue commands sent through the manager's `Command` action
  // ---------------------------------------------------------------------

  function ShowQueueCommand(name: string): string { "queue show " + name }

  const ShowAllQueuesCommand := "queue show"

  /** `queue pause member`, with ` reason <r>` only when a reason is given. */
  function PauseCommand(name: string, member: string, reason: string): (c: string)
    ensures StartsWith(c, "queue pause member SIP/" + member + " queue " + name)
    ensures reason == "" <==> c == "queue pause member SIP/" + member + " queue " + name
  {
    var base := "queue pause member SIP/" + member + " queue " + name;
    if reason != "" then base + " reason " + reason else base
  }

  function UnpauseCommand(name: string, member: string): string
  {
    "queue unpause member SIP/" + member + " queue " + name
  }

  function RemoveMemberCommand(name: string, member: string): string
  {
    "queue remove member SIP/" + member + " from " + name
  }

  /** `queue add member`, with ` penalty <p>` whenever a penalty is given, 0 included. */
  function AddMemberCommand(name: string, member: string, penalty: Option<int>): (c: string)
    ensures StartsWith(c, "queue add member SIP/" + member + " to " + name)
    ensures penalty.None? <==> c == "queue add member SIP/" + member + " to " + name
  {
    var base := "queue add member SIP/" + member + " to " + name;
    if penalty.Some? then base + " penalty " + IntToString(penalty.value) else base
  }

  function ResetStatsCommand(name: string): string { "queue reset stats " + name }

  /** A given penalty is written out even when it is 0, unlike a missing one. */
  lemma ZeroPenaltyIsSent(name: string, member: string)
    ensures AddMemberCommand(name, member, Some(0)) == AddMemberCommand(name, member, None) + " penalty 0"
  {
    assert IntToString(0) == "0";
  }

  // ---------------------------------------------------------------------
  // What one sync writes, sends and yields
  // ---------------------------------------------------------------------

  /**
   * The files after a sync: queues.conf always rewritten; extensions.conf
   * merged only when the `queues` reload before it succeeded, starting from
   * the skeleton when the file is missing.
   */
  function QueueSyncFiles(files: map<string, string>, queues: seq<Queue>, queuesReloaded: bool)
    : (r: map<string, string>)
    ensures QueuesConfFile in r && r[QueuesConfFile] == QueuesConf(queues)
    ensures ExtensionsConfFile in r <==> ExtensionsConfFile in files || queuesReloaded
  {
    var written := files[QueuesConfFile := QueuesConf(queues)];
    if queuesReloaded then
      written[ExtensionsConfFile := QueuesDialplan(FileOr(written, ExtensionsConfFile, ExtensionsSkeleton), queues)]
    else written
  }

  /** A sync touches no file but queues.conf and extensions.conf, and creates no other. */
  lemma QueueSyncKeepsOthers(files: map<string, string>, queues: seq<Queue>, queuesReloaded: bool)
    ensures var r := QueueSyncFiles(files, queues, queuesReloaded);
      (forall n :: n in files && n != QueuesConfFile && n != ExtensionsConfFile ==> n in r && r[n] == files[n]) &&
      (forall n :: n in r ==> n in files || n == QueuesConfFile || n == ExtensionsConfFile)
  {
  }

  /** The reloads a sync asks for: `queues`, then `dialplan` once `queues` has succeeded. */
  function QueueSyncSent(connected: bool, queuesReply: Result<Response>): (r: seq<ActionParams>)
    ensures |r| <= 2 && (|r| > 0 <==> connected)
    ensures |r| > 0 ==> r[0] == ReloadAction("queues")
    ensures |r| == 2 <==> connected && queuesReply.Ok?
  {
    SentIf(connected, ReloadAction("queues")) + SentIf(connected && queuesReply.Ok?, ReloadAction("dialplan"))
  }

  /** A sync succeeds exactly when the session is up and both reloads succeed. */
  function QueueSyncResult(connected: bool, queuesReply: Result<Response>, dialplanReply: Result<Response>)
    : (r: Result<()>)
    ensures r.Ok? <==> connected && queuesReply.Ok? && dialplanReply.Ok?
    ensures !connected ==> r == Err(NotConnected)
  {
    var q := Awaited(connected, queuesReply);
    if q.Err? then Err(q.error) else Done(Awaited(connected, dialplanReply))
  }

  /**
   * Once a sync has merged extensions.conf, syncing again with the same
   * queues rewrites both files with the text they already hold.
   */
  lemma QueueSyncIdempotent(files: map<string, string>, queues: seq<Queue>)
    requires PlainNames(queues)
    ensures QueueSyncFiles(QueueSyncFiles(files, queues, true), queues, true) == QueueSyncFiles(files, queues, true)
  {
    var once := QueueSyncFiles(files, queues, true);
    var current := FileOr(files[QueuesConfFile := QueuesConf(queues)], ExtensionsConfFile, ExtensionsSkeleton);
    QueuesDialplanIdempotent(current, queues);
    assert FileOr(once[QueuesConfFile := QueuesConf(queues)], ExtensionsConfFile, ExtensionsSkeleton)
      == QueuesDialplan(current, queues);
  }

  /** After a sync whose `queues` reload succeeded, every queue can be dialled by its name. */
  lemma QueueSyncCovers(files: map<string, string>, queues: seq<Queue>, i: nat)
    requires i < |queues|
    ensures Contains(QueueSyncFiles(files, queues, true)[ExtensionsConfFile], QueueExtension(queues[i]))
    ensures Contains(QueueSyncFiles(files, queues, true)[QueuesConfFile], QueueSection(queues[i]))
  {
    var current := FileOr(files[QueuesConfFile := QueuesConf(queues)], ExtensionsConfFile, ExtensionsSkeleton);
    QueuesDialplanCovers(current, queues, i);
    QueuesConfSections(queues, i);
  }

  // ---------------------------------------------------------------------
  // The service
  // ---------------------------------------------------------------------

  /**
   * The queue service over its collection, the configuration directory and
   * the manager session. A reload's answer is a parameter (`...Reply`); an
   * error from an awaited reload propagates, after the store was changed.
   */
  class QueuesService {
    const queues: Collection<Queue>
    const files: ConfigFiles
    const ami: AsteriskService

    /** Ids are unique and no two queues share a non-empty name. */
    predicate Valid()
      reads this, queues
    {
      queues.Valid() && KeysUnique(queues.items, QueueName)
    }

    constructor(queues: Collection<Queue>, files: ConfigFiles, ami: AsteriskService)
      requires queues.Valid() && KeysUnique(queues.items, QueueName)
      ensures this.queues == queues && this.files == files && this.ami == ami
      ensures Valid()
    {
      this.queues := queues;
      this.files := files;
      this.ami := ami;
    }

    /** `updateExtensionsConfForQueues`: merge the `[queues]` context, write, reload the dialplan. */
    method UpdateExtensionsConfForQueues(all: seq<Queue>, dialplanReply: Result<Response>) returns (r: Result<()>)
      modifies files, ami
      ensures files.files == old(files.files)[ExtensionsConfFile :=
        QueuesDialplan(FileOr(old(files.files), ExtensionsConfFile, ExtensionsSkeleton), all)]
      ensures ami.sent == old(ami.sent) + SentIf(old(ami.connected), ReloadAction("dialplan"))
      ensures r == Done(Awaited(old(ami.connected), dialplanReply))
      ensures ami.Session() == old(ami.Session())
    {
      var current := ExtensionsSkeleton;
      if ExtensionsConfFile in files.files {
        current := files.files[ExtensionsConfFile];
      }
      var ctx := BuildQueuesContext(all);
      var merged := CutAndReinsert(current, QueuesHeader, ctx, "\n");
      files.Write(ExtensionsConfFile, merged);
      var reloaded := ami.ReloadModule("dialplan", dialplanReply);
      r := Done(reloaded);
    }

    /** `updateAsteriskConfig`: every queue, in natural order, into queues.conf and extensions.conf. */
    method SyncAsterisk(queuesReply: Result<Response>, dialplanReply: Result<Response>) returns (r: Result<()>)
      modifies files, ami
      ensures files.files == QueueSyncFiles(old(files.files), queues.Stored(),
                                            Awaited(old(ami.connected), queuesReply).Ok?)
      ensures ami.sent == old(ami.sent) + QueueSyncSent(old(ami.connected), queuesReply)
      ensures r == QueueSyncResult(old(ami.connected), queuesReply, dialplanReply)
      ensures ami.Session() == old(ami.Session())
    {
      ghost var sent0, connected := ami.sent, ami.connected;
      var all := queues.Stored();
      var content := RenderQueuesConf(all);
      files.Write(QueuesConfFile, content);
      var reloaded := ami.ReloadModule("queues", queuesReply);
      if reloaded.Err? {
        assert QueueSyncSent(connected, queuesReply) == SentIf(connected, ReloadAction("queues")) + [];
        return Err(reloaded.error);
      }
      ghost var sent1 := ami.sent;
      r := UpdateExtensionsConfForQueues(all, dialplanReply);
      assert ami.sent == sent0 + QueueSyncSent(connected, queuesReply) by {
        AppendTwice(sent0, SentIf(connected, ReloadAction("queues")), SentIf(connected, ReloadAction("dialplan")));
      }
    }

    /** `findOne(id)`. */
    method Get(id: nat) returns (r: Result<Queue>)
      requires Valid()
      ensures Records.FindById(queues.items, id).None? ==> r == Err(NotFound("queue"))
      ensures Records.FindById(queues.items, id).Some? ==>
        r == Ok(queues.items[Records.FindById(queues.items, id).value].rec)
    {
      var k := queues.FindById(id);
      if k.None? {
        return Err(NotFound("queue"));
      }
      r := Ok(queues.items[k.value].rec);
    }

    /** `create`: refused when any queue has the name; otherwise saved, then synced. */
    method Create(q: Queue, queuesReply: Result<Response>, dialplanReply: Result<Response>)
      returns (r: Result<Entry<Queue>>)
      requires Valid()
      modifies queues, files, ami
      ensures Valid() && ami.Session() == old(ami.Session())
      ensures KeyHeldByOther(old(queues.items), QueueName, q.name, None) ==>
        r == Err(Conflict(q.name)) && queues.items == old(queues.items) &&
        files.files == old(files.files) && ami.sent == old(ami.sent)
      ensures !KeyHeldByOther(old(queues.items), QueueName, q.name, None) ==>
        queues.items == old(queues.items) + [Entry(old(queues.nextId), q)] &&
        files.files == QueueSyncFiles(old(files.files), queues.Stored(), Awaited(old(ami.connected), queuesReply).Ok?) &&
        ami.sent == old(ami.sent) + QueueSyncSent(old(ami.connected), queuesReply) &&
        r == Then(QueueSyncResult(old(ami.connected), queuesReply, dialplanReply), Entry(old(queues.nextId), q))
    {
      var existing := queues.FindOne(QueueName, q.name, None);
      if existing.Some? {
        return Err(Conflict(q.name));
      }
      AppendKeepsKeysUnique(queues.items, QueueName, Entry(queues.nextId, q));
      var id := queues.Insert(q);
      var synced := SyncAsterisk(queuesReply, dialplanReply);
      r := Then(synced, Entry(id, q));
    }

    /**
     * `update`: missing id, then a clash of a new non-empty name with
     * another queue, are refused; otherwise the fields are assigned and the
     * configuration synced. `name` is the DTO's name field, `patch` its
     * assignment.
     */
    method Update(id: nat, name: Option<string>, patch: Queue -> Queue,
                  queuesReply: Result<Response>, dialplanReply: Result<Response>)
      returns (r: Result<Queue>)
      requires Valid() && SetsKey(patch, QueueName, name)
      modifies queues, files, ami
      ensures Valid() && ami.Session() == old(ami.Session())
      ensures Records.FindById(old(queues.items), id).None? ==>
        r == Err(NotFound("queue")) && queues.items == old(queues.items) &&
        files.files == old(files.files) && ami.sent == old(ami.sent)
      ensures Records.FindById(old(queues.items), id).Some? ==>
        var k := Records.FindById(old(queues.items), id).value;
        (RenameConflict(old(queues.items), QueueName, k, name) ==>
          r == Err(Conflict(name.value)) && queues.items == old(queues.items) &&
          files.files == old(files.files) && ami.sent == old(ami.sent)) &&
        (!RenameConflict(old(queues.items), QueueName, k, name) ==>
          queues.items == old(queues.items)[k := Entry(id, patch(old(queues.items)[k].rec))] &&
          files.files == QueueSyncFiles(old(files.files), queues.Stored(), Awaited(old(ami.connected), queuesReply).Ok?) &&
          ami.sent == old(ami.sent) + QueueSyncSent(old(ami.connected), queuesReply) &&
          r == Then(QueueSyncResult(old(ami.connected), queuesReply, dialplanReply), patch(old(queues.items)[k].rec)))
    {
      var found := queues.FindById(id);
      if found.None? {
        return Err(NotFound("queue"));
      }
      var k := found.value;
      var current := queues.items[k].rec;
      if name.Some? && name.value != "" && name.value != current.name {
        var other := queues.FindOne(QueueName, name.value, Some(id));
        if other.Some? {
          return Err(Conflict(name.value));
        }
      }
      UpdateKeepsKeysUnique(queues.items, QueueName, k, name, patch);
      var updated := patch(current);
      queues.Replace(k, updated);
      var synced := SyncAsterisk(queuesReply, dialplanReply);
      r := Then(synced, updated);
    }

    /** `remove`: a missing id is refused; otherwise the queue is deleted and the configuration synced. */
    method Remove(id: nat, queuesReply: Result<Response>, dialplanReply: Result<Response>)
      returns (r: Result<Queue>)
      requires Valid()
      modifies queues, files, ami
      ensures Valid() && ami.Session() == old(ami.Session())
      ensures Records.FindById(old(queues.items), id).None? ==>
        r == Err(NotFound("queue")) && queues.items == old(queues.items) &&
        files.files == old(files.files) && ami.sent == old(ami.sent)
      ensures Records.FindById(old(queues.items), id).Some? ==>
        var k := Records.FindById(old(queues.items), id).value;
        queues.items == old(queues.items)[..k] + old(queues.items)[k + 1..] &&
        files.files == QueueSyncFiles(old(files.files), queues.Stored(), Awaited(old(ami.connected), queuesReply).Ok?) &&
        ami.sent == old(ami.sent) + QueueSyncSent(old(ami.connected), queuesReply) &&
        r == Then(QueueSyncResult(old(ami.connected), queuesReply, dialplanReply), old(queues.items)[k].rec)
    {
      var found := queues.FindById(id);
      if found.None? {
        return Err(NotFound("queue"));
      }
      RemoveKeepsKeysUnique(queues.items, QueueName, found.value);
      var removed := queues.Delete(found.value);
      var synced := SyncAsterisk(queuesReply, dialplanReply);
      r := Then(synced, removed.rec);
    }

    /**
     * `addMemberToQueue`: a member already present returns the queue as it
     * is, with nothing saved or synced; a new one is appended, saved, synced.
     */
    method AddMember(id: nat, member: string, queuesReply: Result<Response>, dialplanReply: Result<Response>)
      returns (r: Result<Queue>)
      requires Valid()
      modifies queues, files, ami
      ensures Valid() && ami.Session() == old(ami.Session())
      ensures Records.FindById(old(queues.items), id).None? ==>
        r == Err(NotFound("queue")) && queues.items == old(queues.items) &&
        files.files == old(files.files) && ami.sent == old(ami.sent)
      ensures Records.FindById(old(queues.items), id).Some? ==>
        var k := Records.FindById(old(queues.items), id).value;
        var q := old(queues.items)[k].rec;
        var added := q.(members := WithMember(q.members, member));
        queues.items == old(queues.items)[k := Entry(id, added)] &&
        (member in q.members ==> r == Ok(q) && files.files == old(files.files) && ami.sent == old(ami.sent)) &&
        (member !in q.members ==>
          files.files == QueueSyncFiles(old(files.files), queues.Stored(), Awaited(old(ami.connected), queuesReply).Ok?) &&
          ami.sent == old(ami.sent) + QueueSyncSent(old(ami.connected), queuesReply) &&
          r == Then(QueueSyncResult(old(ami.connected), queuesReply, dialplanReply), added))
    {
      var found := queues.FindById(id);
      if found.None? {
        return Err(NotFound("queue"));
      }
      var k := found.value;
      var q := queues.items[k].rec;
      if member in q.members {
        assert queues.items[k := Entry(id, q)] == queues.items;
        return Ok(q);
      }
      var added := q.(members := q.members + [member]);
      ReplaceKeepsKeysUnique(queues.items, QueueName, k, added);
      queues.Replace(k, added);
      var synced := SyncAsterisk(queuesReply, dialplanReply);
      r := Then(synced, added);
    }

    /**
     * `removeMemberFromQueue`: an absent member returns the queue as it is;
     * otherwise its first copy is spliced out, saved, synced.
     */
    method RemoveMember(id: nat, member: string, queuesReply: Result<Response>, dialplanReply: Result<Response>)
      returns (r: Result<Queue>)
      requires Valid()
      modifies queues, files, ami
      ensures Valid() && ami.Session() == old(ami.Session())
      ensures Records.FindById(old(queues.items), id).None? ==>
        r == Err(NotFound("queue")) && queues.items == old(queues.items) &&
        files.files == old(files.files) && ami.sent == old(ami.sent)
      ensures Records.FindById(old(queues.items), id).Some? ==>
        var k := Records.FindById(old(queues.items), id).value;
        var q := old(queues.items)[k].rec;
        var removed := q.(members := WithoutMember(q.members, member));
        queues.items == old(queues.items)[k := Entry(id, removed)] &&
        (member !in q.members ==> r == Ok(q) && files.files == old(files.files) && ami.sent == old(ami.sent)) &&
        (member in q.members ==>
          files.files == QueueSyncFiles(old(files.files), queues.Stored(), Awaited(old(ami.connected), queuesReply).Ok?) &&
          ami.sent == old(ami.sent) + QueueSyncSent(old(ami.connected), queuesReply) &&
          r == Then(QueueSyncResult(old(ami.connected), queuesReply, dialplanReply), removed))
    {
      var found := queues.FindById(id);
      if found.None? {
        return Err(NotFound("queue"));
      }
      var k := found.value;
      var q := queues.items[k].rec;
      var index := IndexOfMember(q.members, member);
      if index == -1 {
        assert queues.items[k := Entry(id, q)] == queues.items;
        return Ok(q);
      }
      var removed := q.(members := q.members[..index] + q.members[index + 1..]);
      ReplaceKeepsKeysUnique(queues.items, QueueName, k, removed);
      queues.Replace(k, removed);
      var synced := SyncAsterisk(queuesReply, dialplanReply);
      r := Then(synced, removed);
    }

    /** `getQueueStatus`: the stored queue with that name and the answer to `queue show <name>`. */
    method GetQueueStatus(name: string, reply: Result<Response>) returns (r: Result<(Queue, Response)>)
      modifies ami
      ensures ami.Session() == old(ami.Session())
      ensures FindOneFrom(queues.items, QueueName, name, None, 0).None? ==>
        r == Err(NotFound("queue")) && ami.sent == old(ami.sent)
      ensures FindOneFrom(queues.items, QueueName, name, None, 0).Some? ==>
        var q := queues.items[FindOneFrom(queues.items, QueueName, name, None, 0).value].rec;
        var answer := Awaited(old(ami.connected), reply);
        ami.sent == old(ami.sent) + SentIf(old(ami.connected), CommandAction(ShowQueueCommand(name))) &&
        r == (if answer.Ok? then Ok((q, answer.value)) else Err(answer.error))
    {
      var k := queues.FindOne(QueueName, name, None);
      if k.None? {
        return Err(NotFound("queue"));
      }
      var q := queues.items[k.value].rec;
      var answer := ami.ExecuteCommand(ShowQueueCommand(name), reply);
      if answer.Err? {
        return Err(answer.error);
      }
      r := Ok((q, answer.value));
    }

    /** `getAllQueueStatuses`: `queue show` first; the stored queues only when it answered. */
    method GetAllQueueStatuses(reply: Result<Response>) returns (r: Result<(seq<Queue>, Response)>)
      modifies ami
      ensures ami.Session() == old(ami.Session())
      ensures ami.sent == old(ami.sent) + SentIf(old(ami.connected), CommandAction(ShowAllQueuesCommand))
      ensures var answer := Awaited(old(ami.connected), reply);
        r == (if answer.Ok? then Ok((queues.Stored(), answer.value)) else Err(answer.error))
    {
      var answer := ami.ExecuteCommand(ShowAllQueuesCommand, reply);
      if answer.Err? {
        return Err(answer.error);
      }
      r := Ok((queues.Stored(), answer.value));
    }

    /**
     * The checks `pauseQueueMember` and `unpauseQueueMember` make before
     * sending: the queue exists, and `member` is one of its static members.
     */
    function MemberCheck(name: string, member: string): (e: Option<Error>)
      reads this, queues
      ensures e == None <==>
        exists k :: 0 <= k < |queues.items| &&
          queues.items[k].rec.name == name && member in queues.items[k].rec.members &&
          FindOneFrom(queues.items, QueueName, name, None, 0) == Some(k)
    {
      match FindOneFrom(queues.items, QueueName, name, None, 0)
      case None => Some(NotFound("queue"))
      case Some(k) => if member in queues.items[k].rec.members then None else Some(NotFound("member"))
    }

    /** `pauseQueueMember`: refused for an unknown queue or member; otherwise one command. */
    method Pause(name: string, member: string, reason: string, reply: Result<Response>)
      returns (r: Result<Response>)
      modifies ami
      ensures ami.Session() == old(ami.Session())
      ensures MemberCheck(name, member).Some? ==>
        r == Err(MemberCheck(name, member).value) && ami.sent == old(ami.sent)
      ensures MemberCheck(name, member).None? ==>
        r == Awaited(old(ami.connected), reply) &&
        ami.sent == old(ami.sent) + SentIf(old(ami.connected), CommandAction(PauseCommand(name, member, reason)))
    {
      var k := queues.FindOne(QueueName, name, None);
      if k.None? {
        return Err(NotFound("queue"));
      }
      if member !in queues.items[k.value].rec.members {
        return Err(NotFound("member"));
      }
      r := ami.ExecuteCommand(PauseCommand(name, member, reason), reply);
    }

    /** `unpauseQueueMember`: the same checks as pausing. */
    method Unpause(name: string, member: string, reply: Result<Response>) returns (r: Result<Response>)
      modifies ami
      ensures ami.Session() == old(ami.Session())
      ensures MemberCheck(name, member).Some? ==>
        r == Err(MemberCheck(name, member).value) && ami.sent == old(ami.sent)
      ensures MemberCheck(name, member).None? ==>
        r == Awaited(old(ami.connected), reply) &&
        ami.sent == old(ami.sent) + SentIf(old(ami.connected), CommandAction(UnpauseCommand(name, member)))
    {
      var k := queues.FindOne(QueueName, name, None);
      if k.None? {
        return Err(NotFound("queue"));
      }
      if member !in queues.items[k.value].rec.members {
        return Err(NotFound("member"));
      }
      r := ami.ExecuteCommand(UnpauseCommand(name, member), reply);
    }

    /**
     * A command about a queue that must exist in the store but whose member
     * need not: `removeDynamicMember`, `addDynamicMember`, `resetQueueStats`.
     */
    method QueueCommand(name: string, command: string, reply: Result<Response>) returns (r: Result<Response>)
      modifies ami
      ensures ami.Session() == old(ami.Session())
      ensures !KeyHeldByOther(queues.items, QueueName, name, None) ==>
        r == Err(NotFound("queue")) && ami.sent == old(ami.sent)
      ensures KeyHeldByOther(queues.items, QueueName, name, None) ==>
        r == Awaited(old(ami.connected), reply) &&
        ami.sent == old(ami.sent) + SentIf(old(ami.connected), CommandAction(command))
    {
      var k := queues.FindOne(QueueName, name, None);
      if k.None? {
        return Err(NotFound("queue"));
      }
      r := ami.ExecuteCommand(command, reply);
    }

    method RemoveDynamic(name: string, member: string, reply: Result<Response>) returns (r: Result<Response>)
      modifies ami
      ensures ami.Session() == old(ami.Session())
      ensures !KeyHeldByOther(queues.items, QueueName, name, None) ==>
        r == Err(NotFound("queue")) && ami.sent == old(ami.sent)
      ensures KeyHeldByOther(queues.items, QueueName, name, None) ==>
        r == Awaited(old(ami.connected), reply) &&
        ami.sent == old(ami.sent) + SentIf(old(ami.connected), CommandAction(RemoveMemberCommand(name, member)))
    {
      r := QueueCommand(name, RemoveMemberCommand(name, member), reply);
    }

    method AddDynamic(name: string, member: string, penalty: Option<int>, reply: Result<Response>)
      returns (r: Result<Response>)
      modifies ami
      ensures ami.Session() == old(ami.Session())
      ensures !KeyHeldByOther(queues.items, QueueName, name, None) ==>
        r == Err(NotFound("queue")) && ami.sent == old(ami.sent)
      ensures KeyHeldByOther(queues.items, QueueName, name, None) ==>
        r == Awaited(old(ami.connected), reply) &&
        ami.sent == old(ami.sent) + SentIf(old(ami.connected), CommandAction(AddMemberCommand(name, member, penalty)))
    {
      r := QueueCommand(name, AddMemberCommand(name, member, penalty), reply);
    }

    method ResetStats(name: string, reply: Result<Response>) returns (r: Result<Response>)
      modifies ami
      ensures ami.Session() == old(ami.Session())
      ensures !KeyHeldByOther(queues.items, QueueName, name, None) ==>
        r == Err(NotFound("queue")) && ami.sent == old(ami.sent)
      ensures KeyHeldByOther(queues.items, QueueName, name, None) ==>
        r == Awaited(old(ami.connected), reply) &&
        ami.sent == old(ami.sent) + SentIf(old(ami.connected), CommandAction(ResetStatsCommand(name)))
    {
      r := QueueCommand(name, ResetStatsCommand(name), reply);
    }
  }
}
