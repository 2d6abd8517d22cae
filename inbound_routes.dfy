/**
 * The inbound route service of the Nest backend: route documents, keyed by
 * their name and by their DID, and the `[from-trunk]` context of
 * extensions.conf that sends a call arriving on a DID to an extension, a
 * queue or an IVR.
 */
module InboundRoutes {
  import opened Text
  import opened Records
  import opened Sections
  import opened Dialplan
  import opened Store
  import opened Ami

  /** The natural key of a route document. */
  function RouteName(r: InboundRoute): string { r.name }

  /** The second key: the number the route answers. An empty DID is no DID. */
  function RouteDid(r: InboundRoute): string { r.did }

  // ---------------------------------------------------------------------
  // One route's extension
  // ---------------------------------------------------------------------

  /** The three kinds of destination; a type outside the enum is an extension. */
  datatype Destination = ToExtension | ToQueue | ToIvr

  function Kind(r: InboundRoute): Destination
  {
    if r.destinationType == "queue" then ToQueue
    else if r.destinationType == "ivr" then ToIvr
    else ToExtension
  }

  /** The jump to the route's destination, by its type. */
  function GotoApp(r: InboundRoute): string
  {
    if r.destinationType == "extension" then "Goto(internal," + r.destination + ",1)"
    else if r.destinationType == "queue" then "Goto(queues," + r.destination + ",1)"
    else if r.destinationType == "ivr" then "Goto(ivr-" + r.destination + ",s,1)"
    else "Goto(internal," + r.destination + ",1)"
  }

  /** A type outside the enum is routed as an extension. */
  lemma UnknownTypeIsExtension(r: InboundRoute)
    requires Kind(r) == ToExtension
    ensures GotoApp(r) == GotoApp(r.(destinationType := "extension"))
    ensures GotoApp(r) == "Goto(internal," + r.destination + ",1)"
  {
  }

  lemma Unwrap(p: string, a: string, b: string, q: string)
    requires p + a + q == p + b + q
    ensures a == b
  {
    var s := p + a + q;
    assert |a| == |b|;
    assert s[|p|..|p| + |a|] == a;
    assert (p + b + q)[|p|..|p| + |b|] == b;
  }

  /** The first characters of a jump, which tell its kind. */
  function Tag(k: Destination): string
  {
    match k
    case ToExtension => "Goto(in"
    case ToQueue => "Goto(qu"
    case ToIvr => "Goto(iv"
  }

  lemma GotoTag(r: InboundRoute)
    ensures |GotoApp(r)| >= 7 && GotoApp(r)[..7] == Tag(Kind(r))
  {
  }

  /**
   * Two routes jump to the same place exactly when they have the same kind
   * of destination and the same destination: the jump tells the kind and
   * the destination apart.
   */
  lemma GotoAppInjective(r1: InboundRoute, r2: InboundRoute)
    ensures GotoApp(r1) == GotoApp(r2) <==> Kind(r1) == Kind(r2) && r1.destination == r2.destination
  {
    var a, b := GotoApp(r1), GotoApp(r2);
    if a == b {
      GotoTag(r1);
      GotoTag(r2);
      assert a[..7] == b[..7];
      assert Kind(r1) == Kind(r2);
      match Kind(r1)
      case ToExtension => Unwrap("Goto(internal,", r1.destination, r2.destination, ",1)");
      case ToQueue => Unwrap("Goto(queues,", r1.destination, r2.destination, ",1)");
      case ToIvr => Unwrap("Goto(ivr-", r1.destination, r2.destination, ",s,1)");
    }
  }

  /** What a call on the route's DID runs, in order. */
  function InboundApps(r: InboundRoute): (apps: seq<string>)
    ensures |apps| == (if r.callerIdName != "" then 4 else 3)
    ensures apps[0] == "NoOp(Inbound call for DID: " + r.did + ")"
    ensures r.callerIdName != "" ==> apps[1] == "Set(CALLERID(name)=" + r.callerIdName + ")"
    ensures apps[|apps| - 2] == GotoApp(r) && apps[|apps| - 1] == "Hangup()"
  {
    ["NoOp(Inbound call for DID: " + r.did + ")"]
    + (if r.callerIdName != "" then ["Set(CALLERID(name)=" + r.callerIdName + ")"] else [])
    + [GotoApp(r), "Hangup()"]
  }

  /** The lines of a route with a DID, and a blank line. */
  function DidLines(r: InboundRoute): string
  {
    Concat(ExtenLines(r.did, InboundApps(r))) + "\n"
  }

  /** What a route writes: nothing without a DID. */
  function DidExtension(r: InboundRoute): string
  {
    if r.did == "" then "" else DidLines(r)
  }

  /**
   * A route with a DID answers it: every line belongs to the DID, the first
   * logs the call and the jump to the destination comes just before the
   * hang-up.
   */
  lemma DidLinesShape(r: InboundRoute)
    ensures var ls := ExtenLines(r.did, InboundApps(r));
      ls[0] == Exten(r.did, "1", "NoOp(Inbound call for DID: " + r.did + ")") &&
      ls[|ls| - 2] == Exten(r.did, "n", GotoApp(r)) &&
      ls[|ls| - 1] == Exten(r.did, "n", "Hangup()") &&
      forall i :: 0 <= i < |ls| ==> StartsWith(ls[i], "exten => " + r.did + ",")
  {
    ExtenLinesStart(r.did, InboundApps(r));
  }

  // ---------------------------------------------------------------------
  // The [from-trunk] context
  // ---------------------------------------------------------------------

  /**
   * The fixed texts of the service: the skeleton of a missing
   * extensions.conf, and the comment and default handler that open
   * `[from-trunk]`. The merge is stated for any texts that have the
   * properties `TextsReady` lists; the service uses `ServiceTexts`.
   */
  datatype InboundTexts = InboundTexts(skeleton: string, intro: string)

  predicate TextsReady(x: InboundTexts)
  {
    Plain(x.intro)
  }

  function InboundContext(x: InboundTexts, routes: seq<InboundRoute>): string
  {
    FromTrunkHeader + x.intro + ConcatMap(routes, DidExtension)
  }

  /** The context loop: the header and default handler, then each route that has a DID. */
  method BuildFromTrunkContext(x: InboundTexts, routes: seq<InboundRoute>) returns (ctx: string)
    ensures ctx == InboundContext(x, routes)
  {
    ctx := FromTrunkHeader + x.intro;
    for i := 0 to |routes|
      invariant ctx == FromTrunkHeader + x.intro + ConcatMap(routes[..i], DidExtension)
    {
      ConcatMapStep(routes, i, DidExtension);
      if routes[i].did != "" {
        AppendTwice(FromTrunkHeader + x.intro, ConcatMap(routes[..i], DidExtension), DidLines(routes[i]));
        ctx := ctx + DidLines(routes[i]);
      } else {
        assert ConcatMap(routes[..i + 1], DidExtension) == ConcatMap(routes[..i], DidExtension) + "";
      }
    }
    assert routes[..|routes|] == routes;
  }

  /** extensions.conf with the `[from-trunk]` span replaced, or the context appended after a newline. */
  function InboundDialplan(x: InboundTexts, current: string, routes: seq<InboundRoute>): string
  {
    ReplaceContext(current, FromTrunkHeader, InboundContext(x, routes), "\n")
  }

  /** The routes that have a DID, in their order. */
  function WithDid(routes: seq<InboundRoute>): (w: seq<InboundRoute>)
    ensures forall r :: r in w <==> r in routes && r.did != ""
  {
    if routes == [] then []
    else
      var init := WithDid(routes[..|routes| - 1]);
      var last := routes[|routes| - 1];
      assert routes == routes[..|routes| - 1] + [last];
      if last.did != "" then init + [last] else init
  }

  /** Routes without a DID write nothing: the context is the one of the routes that have one. */
  lemma {:induction false} DidlessWriteNothing(routes: seq<InboundRoute>)
    ensures ConcatMap(routes, DidExtension) == ConcatMap(WithDid(routes), DidExtension)
  {
    if routes != [] {
      var init := routes[..|routes| - 1];
      var last := routes[|routes| - 1];
      DidlessWriteNothing(init);
      if last.did != "" {
        ConcatMapAppend(WithDid(init), [last], DidExtension);
        assert ConcatMap([last], DidExtension) == DidExtension(last);
      }
    }
  }

  /** The fields a route writes into the dialplan hold no `[`. */
  predicate PlainRoute(r: InboundRoute)
  {
    Plain(r.did) && Plain(r.destination) && Plain(r.callerIdName)
  }

  predicate PlainRoutes(routes: seq<InboundRoute>)
  {
    forall r :: r in routes ==> PlainRoute(r)
  }

  lemma InboundAppsPlain(r: InboundRoute)
    requires PlainRoute(r)
    ensures AllPlain(InboundApps(r))
  {
    assert Plain("NoOp(Inbound call for DID: ") && Plain(")") && Plain("Set(CALLERID(name)=");
    assert Plain("Goto(internal,") && Plain("Goto(queues,") && Plain("Goto(ivr-") && Plain(",1)") && Plain(",s,1)");
    assert Plain("Hangup()");
    var apps := InboundApps(r);
    forall i | 0 <= i < |apps| ensures Plain(apps[i]) {
    }
  }

  /** A route with plain fields writes no `[`. */
  lemma DidExtensionPlain(r: InboundRoute)
    requires PlainRoute(r)
    ensures Plain(DidExtension(r))
  {
    if r.did != "" {
      InboundAppsPlain(r);
      ExtenLinesPlain(r.did, InboundApps(r));
    }
  }

  lemma FromTrunkName()
    ensures HeaderName("from-trunk") && "[" + "from-trunk" + "]" == FromTrunkHeader
  {
  }

  /** Plain routes write no `[`. */
  lemma ExtensionsPlain(routes: seq<InboundRoute>)
    requires PlainRoutes(routes)
    ensures Plain(ConcatMap(routes, DidExtension))
  {
    forall i | 0 <= i < |routes| ensures Plain(DidExtension(routes[i])) {
      assert routes[i] in routes;
      DidExtensionPlain(routes[i]);
    }
    ConcatMapPlain(routes, DidExtension);
  }

  /** With plain routes, the context opens no section besides its own. */
  lemma InboundContextIsSection(x: InboundTexts, routes: seq<InboundRoute>)
    requires TextsReady(x) && PlainRoutes(routes)
    ensures BracketHeader(FromTrunkHeader)
    ensures SectionText(InboundContext(x, routes), FromTrunkHeader)
  {
    ExtensionsPlain(routes);
    var body := x.intro + ConcatMap(routes, DidExtension);
    FromTrunkName();
    SectionOfPlain("from-trunk", body);
    assert InboundContext(x, routes) == FromTrunkHeader + body;
  }

  /** Merging twice with the same routes leaves extensions.conf as merging once did. */
  lemma InboundDialplanIdempotent(x: InboundTexts, current: string, routes: seq<InboundRoute>)
    requires TextsReady(x) && PlainRoutes(routes)
    ensures InboundDialplan(x, InboundDialplan(x, current, routes), routes) == InboundDialplan(x, current, routes)
  {
    InboundContextIsSection(x, routes);
    ReplaceContextIdempotent(current, FromTrunkHeader, InboundContext(x, routes), "\n");
  }

  /**
   * After the merge, extensions.conf holds the default handler and every
   * route's extension, whatever the file held.
   */
  lemma InboundDialplanCovers(x: InboundTexts, current: string, routes: seq<InboundRoute>, i: nat)
    requires i < |routes|
    ensures Contains(InboundDialplan(x, current, routes), FromTrunkHeader + x.intro)
    ensures Contains(InboundDialplan(x, current, routes), DidExtension(routes[i]))
  {
    var ctx := InboundContext(x, routes);
    ReplaceContextHolds(current, FromTrunkHeader, ctx, "\n");
    ContainsStart(FromTrunkHeader + x.intro, ConcatMap(routes, DidExtension));
    ContainsTrans(InboundDialplan(x, current, routes), ctx, FromTrunkHeader + x.intro);
    ConcatMapContains(routes, i, DidExtension);
    ContainsPrefixed(FromTrunkHeader + x.intro, ConcatMap(routes, DidExtension), DidExtension(routes[i]));
    ContainsTrans(InboundDialplan(x, current, routes), ctx, DidExtension(routes[i]));
  }

  // ---------------------------------------------------------------------
  // extensions.conf after a sync
  // ---------------------------------------------------------------------

  /** The files after a sync: the routes by priority merged into extensions.conf, or the skeleton when it is missing. */
  function InboundSyncFiles(x: InboundTexts, files: map<string, string>, stored: seq<InboundRoute>)
    : (r: map<string, string>)
    ensures ExtensionsConfFile in r
    ensures forall n :: n != ExtensionsConfFile ==> (n in r <==> n in files)
    ensures forall n :: n != ExtensionsConfFile && n in files ==> r[n] == files[n]
  {
    files[ExtensionsConfFile :=
      InboundDialplan(x, FileOr(files, ExtensionsConfFile, x.skeleton), SortBy(stored, InboundByPriority))]
  }

  /** Routes are written by ascending priority, and each stored route once. */
  lemma InboundSyncOrdered(stored: seq<InboundRoute>)
    ensures Sorted(SortBy(stored, InboundByPriority), InboundByPriority)
    ensures multiset(SortBy(stored, InboundByPriority)) == multiset(stored)
  {
    PriorityOrdersArePreorders();
    SortBySorted(stored, InboundByPriority);
  }

  lemma SortedPlain(stored: seq<InboundRoute>)
    requires PlainRoutes(stored)
    ensures PlainRoutes(SortBy(stored, InboundByPriority))
  {
    var sorted := SortBy(stored, InboundByPriority);
    forall r | r in sorted ensures PlainRoute(r) {
      assert r in multiset(sorted);
    }
  }

  /** Once synced, syncing again with the same routes writes the text the file already holds. */
  lemma InboundSyncIdempotent(x: InboundTexts, files: map<string, string>, stored: seq<InboundRoute>)
    requires TextsReady(x) && PlainRoutes(stored)
    ensures InboundSyncFiles(x, InboundSyncFiles(x, files, stored), stored) == InboundSyncFiles(x, files, stored)
  {
    var routes := SortBy(stored, InboundByPriority);
    var current := FileOr(files, ExtensionsConfFile, x.skeleton);
    SortedPlain(stored);
    InboundDialplanIdempotent(x, current, routes);
    var t := InboundDialplan(x, current, routes);
    var once := files[ExtensionsConfFile := t];
    assert InboundSyncFiles(x, files, stored) == once;
    WriteAgain(files, ExtensionsConfFile, t, x.skeleton);
  }

  /**
   * After a sync, extensions.conf holds the default handler and the
   * extension of every stored route that has a DID.
   */
  lemma InboundSyncCovers(x: InboundTexts, files: map<string, string>, stored: seq<InboundRoute>, r: InboundRoute)
    requires r in stored && r.did != ""
    ensures Contains(InboundSyncFiles(x, files, stored)[ExtensionsConfFile], FromTrunkHeader + x.intro)
    ensures Contains(InboundSyncFiles(x, files, stored)[ExtensionsConfFile], DidLines(r))
  {
    var routes := SortBy(stored, InboundByPriority);
    assert r in multiset(stored);
    var i :| 0 <= i < |routes| && routes[i] == r;
    InboundDialplanCovers(x, FileOr(files, ExtensionsConfFile, x.skeleton), routes, i);
  }

  // ---------------------------------------------------------------------
  // The service
  // ---------------------------------------------------------------------

  /** `create`'s DID check: a non-empty DID that some route already has. */
  predicate DidTaken(items: seq<Entry<InboundRoute>>, did: string)
  {
    did != "" && KeyHeldByOther(items, RouteDid, did, None)
  }

  /**
   * The inbound route service over its collection, the configuration
   * directory and the manager session. The `dialplan` reload's answer is a
   * parameter; its error propagates, after the store was changed.
   */
  class InboundRoutesService {
    const routes: Collection<InboundRoute>
    const files: ConfigFiles
    const ami: AsteriskService
    /** Always `ServiceTexts`. */
    const texts: InboundTexts

    /** Ids are unique, and no two routes share a non-empty name or a non-empty DID. */
    predicate Valid()
      reads this, routes
    {
      routes.Valid() && KeysUnique(routes.items, RouteName) && KeysUnique(routes.items, RouteDid)
    }

    constructor(routes: Collection<InboundRoute>, files: ConfigFiles, ami: AsteriskService)
      requires routes.Valid() && KeysUnique(routes.items, RouteName) && KeysUnique(routes.items, RouteDid)
      ensures this.routes == routes && this.files == files && this.ami == ami
      ensures texts == ServiceTexts && TextsReady(texts)
      ensures Valid()
    {
      this.routes := routes;
      this.files := files;
      this.ami := ami;
      this.texts := ServiceTexts;
      ServiceTextsReady();
    }

    /** `findAll`: every route, by ascending priority. */
    method FindAll() returns (all: seq<InboundRoute>)
      ensures Sorted(all, InboundByPriority) && multiset(all) == multiset(routes.Stored())
    {
      all := SortBy(routes.Stored(), InboundByPriority);
      InboundSyncOrdered(routes.Stored());
    }

    /** `findOne(id)`. */
    method Get(id: nat) returns (r: Result<InboundRoute>)
      requires Valid()
      ensures Records.FindById(routes.items, id).None? ==> r == Err(NotFound("inbound route"))
      ensures Records.FindById(routes.items, id).Some? ==>
        r == Ok(routes.items[Records.FindById(routes.items, id).value].rec)
    {
      var k := routes.FindById(id);
      if k.None? {
        return Err(NotFound("inbound route"));
      }
      r := Ok(routes.items[k.value].rec);
    }

    /**
     * `updateAsteriskConfig`: the routes by priority merged into
     * extensions.conf, the file written, then the dialplan reloaded.
     */
    method SyncAsterisk(reply: Result<Response>) returns (r: Result<()>)
      modifies files, ami
      ensures files.files == InboundSyncFiles(texts, old(files.files), routes.Stored())
      ensures ami.sent == old(ami.sent) + SentIf(old(ami.connected), ReloadAction("dialplan"))
      ensures r == Done(Awaited(old(ami.connected), reply))
      ensures ami.Session() == old(ami.Session())
    {
      var all := SortBy(routes.Stored(), InboundByPriority);
      var current := texts.skeleton;
      if ExtensionsConfFile in files.files {
        current := files.files[ExtensionsConfFile];
      }
      var ctx := BuildFromTrunkContext(texts, all);
      var merged := CutAndReinsert(current, FromTrunkHeader, ctx, "\n");
      files.Write(ExtensionsConfFile, merged);
      var reloaded := ami.ReloadModule("dialplan", reply);
      r := Done(reloaded);
    }

    /**
     * `create`: refused when any route has the name, then when the DID is
     * set and any route has it; otherwise saved, then synced.
     */
    method Create(route: InboundRoute, reply: Result<Response>) returns (r: Result<Entry<InboundRoute>>)
      requires Valid()
      modifies routes, files, ami
      ensures Valid() && ami.Session() == old(ami.Session())
      ensures KeyHeldByOther(old(routes.items), RouteName, route.name, None) ==>
        r == Err(Conflict(route.name)) && routes.items == old(routes.items) &&
        files.files == old(files.files) && ami.sent == old(ami.sent)
      ensures !KeyHeldByOther(old(routes.items), RouteName, route.name, None) && DidTaken(old(routes.items), route.did) ==>
        r == Err(Conflict(route.did)) && routes.items == old(routes.items) &&
        files.files == old(files.files) && ami.sent == old(ami.sent)
      ensures !KeyHeldByOther(old(routes.items), RouteName, route.name, None) && !DidTaken(old(routes.items), route.did) ==>
        routes.items == old(routes.items) + [Entry(old(routes.nextId), route)] &&
        files.files == InboundSyncFiles(texts, old(files.files), routes.Stored()) &&
        ami.sent == old(ami.sent) + SentIf(old(ami.connected), ReloadAction("dialplan")) &&
        r == Then(Done(Awaited(old(ami.connected), reply)), Entry(old(routes.nextId), route))
    {
      var existing := routes.FindOne(RouteName, route.name, None);
      if existing.Some? {
        return Err(Conflict(route.name));
      }
      if route.did != "" {
        var holder := routes.FindOne(RouteDid, route.did, None);
        if holder.Some? {
          return Err(Conflict(route.did));
        }
      }
      AppendKeepsKeysUnique(routes.items, RouteName, Entry(routes.nextId, route));
      AppendKeepsKeysUnique(routes.items, RouteDid, Entry(routes.nextId, route));
      var id := routes.Insert(route);
      var synced := SyncAsterisk(reply);
      r := Then(synced, Entry(id, route));
    }

    /**
     * `update`: a missing id, then a new non-empty name held by another
     * route, then a new non-empty DID held by another route, are refused;
     * otherwise the fields are assigned and the configuration synced.
     * `name` and `did` are the DTO's fields, `patch` its assignment.
     */
    method Update(id: nat, name: Option<string>, did: Option<string>, patch: InboundRoute -> InboundRoute,
                  reply: Result<Response>)
      returns (r: Result<InboundRoute>)
      requires Valid() && SetsKey(patch, RouteName, name) && SetsKey(patch, RouteDid, did)
      modifies routes, files, ami
      ensures Valid() && ami.Session() == old(ami.Session())
      ensures Records.FindById(old(routes.items), id).None? ==>
        r == Err(NotFound("inbound route")) && routes.items == old(routes.items) &&
        files.files == old(files.files) && ami.sent == old(ami.sent)
      ensures Records.FindById(old(routes.items), id).Some? ==>
        var k := Records.FindById(old(routes.items), id).value;
        (RenameConflict(old(routes.items), RouteName, k, name) ==>
          r == Err(Conflict(name.value)) && routes.items == old(routes.items) &&
          files.files == old(files.files) && ami.sent == old(ami.sent)) &&
        (!RenameConflict(old(routes.items), RouteName, k, name) && RenameConflict(old(routes.items), RouteDid, k, did) ==>
          r == Err(Conflict(did.value)) && routes.items == old(routes.items) &&
          files.files == old(files.files) && ami.sent == old(ami.sent)) &&
        (!RenameConflict(old(routes.items), RouteName, k, name) && !RenameConflict(old(routes.items), RouteDid, k, did) ==>
          routes.items == old(routes.items)[k := Entry(id, patch(old(routes.items)[k].rec))] &&
          files.files == InboundSyncFiles(texts, old(files.files), routes.Stored()) &&
          ami.sent == old(ami.sent) + SentIf(old(ami.connected), ReloadAction("dialplan")) &&
          r == Then(Done(Awaited(old(ami.connected), reply)), patch(old(routes.items)[k].rec)))
    {
      var found := routes.FindById(id);
      if found.None? {
        return Err(NotFound("inbound route"));
      }
      var k := found.value;
      var current := routes.items[k].rec;
      var refused := UpdateConflict(k, name, did);
      if refused.Some? {
        return Err(refused.value);
      }
      UpdateKeepsKeysUnique(routes.items, RouteName, k, name, patch);
      UpdateKeepsKeysUnique(routes.items, RouteDid, k, did, patch);
      var updated := patch(current);
      routes.Replace(k, updated);
      var synced := SyncAsterisk(reply);
      r := Then(synced, updated);
    }

    /** `update`'s two checks, in order: the name, then the DID. */
    method UpdateConflict(k: nat, name: Option<string>, did: Option<string>) returns (e: Option<Error>)
      requires Valid() && k < |routes.items|
      ensures RenameConflict(routes.items, RouteName, k, name) ==> e == Some(Conflict(name.value))
      ensures !RenameConflict(routes.items, RouteName, k, name) && RenameConflict(routes.items, RouteDid, k, did) ==>
        e == Some(Conflict(did.value))
      ensures !RenameConflict(routes.items, RouteName, k, name) && !RenameConflict(routes.items, RouteDid, k, did) ==>
        e == None
    {
      var current := routes.items[k];
      if name.Some? && name.value != "" && name.value != current.rec.name {
        var other := routes.FindOne(RouteName, name.value, Some(current.id));
        if other.Some? {
          return Some(Conflict(name.value));
        }
      }
      if did.Some? && did.value != "" && did.value != current.rec.did {
        var other := routes.FindOne(RouteDid, did.value, Some(current.id));
        if other.Some? {
          return Some(Conflict(did.value));
        }
      }
      e := None;
    }

    /** `remove`: a missing id is refused; otherwise the route is deleted and the configuration synced. */
    method Remove(id: nat, reply: Result<Response>) returns (r: Result<InboundRoute>)
      requires Valid()
      modifies routes, files, ami
      ensures Valid() && ami.Session() == old(ami.Session())
      ensures Records.FindById(old(routes.items), id).None? ==>
        r == Err(NotFound("inbound route")) && routes.items == old(routes.items) &&
        files.files == old(files.files) && ami.sent == old(ami.sent)
      ensures Records.FindById(old(routes.items), id).Some? ==>
        var k := Records.FindById(old(routes.items), id).value;
        routes.items == old(routes.items)[..k] + old(routes.items)[k + 1..] &&
        files.files == InboundSyncFiles(texts, old(files.files), routes.Stored()) &&
        ami.sent == old(ami.sent) + SentIf(old(ami.connected), ReloadAction("dialplan")) &&
        r == Then(Done(Awaited(old(ami.connected), reply)), old(routes.items)[k].rec)
    {
      var found := routes.FindById(id);
      if found.None? {
        return Err(NotFound("inbound route"));
      }
      RemoveKeepsKeysUnique(routes.items, RouteName, found.value);
      RemoveKeepsKeysUnique(routes.items, RouteDid, found.value);
      var removed := routes.Delete(found.value);
      var synced := SyncAsterisk(reply);
      r := Then(synced, removed.rec);
    }
  }

  // ---------------------------------------------------------------------
  // The fixed texts
  // ---------------------------------------------------------------------

  const DefaultNoOp := "NoOp(Inbound call" + " from trunk" + " - default handler)"

  /** The default jump, with the comment the service writes after it. */
  const DefaultGoto := "Goto(internal,100,1)" + " ; Chuyển hướng" + " đến số mặc định"

  /** The comment and the handler of calls that match no DID: they go to extension 100. */
  const InboundIntro := "\n; Inbound Routes\n" + Exten("s", "1", DefaultNoOp) + Exten("s", "n", DefaultGoto) + "\n"

  const ServiceTexts := InboundTexts(ExtensionsSkeleton, InboundIntro)

  lemma ServiceTextsReady()
    ensures TextsReady(ServiceTexts)
  {
    assert Plain("NoOp(Inbound call") && Plain(" from trunk") && Plain(" - default handler)");
    assert Plain("Goto(internal,100,1)") && Plain(" ; Chuyển hướng") && Plain(" đến số mặc định");
    assert Plain("s") && Plain("1") && Plain("n");
    ExtenPlain("s", "1", DefaultNoOp);
    ExtenPlain("s", "n", DefaultGoto);
    assert Plain("\n; Inbound Routes\n") && Plain("\n");
  }
}
