# A verified model of the PBX configuration core

The PBX keeps its extensions, trunks, queues and dial routes in a document
store. It turns them into Asterisk configuration files and supervises a
session with the Asterisk Manager Interface (AMI). This project models that
core in Dafny and proves what it promises:

- **The legacy server** (`backend-api/server.js`):
  - which file each configuration type lives in and which module reloads it;
  - the skeleton a missing file reads as;
  - the section templates for extensions, trunks and queues;
  - the regular-expression replace of one `[name]` span;
  - the rebuild of the `[from-internal]` and `[from-trunk]` dial plans;
  - the Asterisk event dispatch;
  - the dashboard's active-call count.
- **The services of the Nest backend** (queues, extensions, outbound and inbound routes, trunks):
  - the natural-key checks on create and update;
  - queue membership;
  - the rendering loops;
  - the two other merge strategies: cut-and-reinsert of a dial-plan context, and the `;;; TRUNKS START ;;;` / `;;; TRUNKS END ;;;` marker block;
  - the files and reloads one synchronisation produces.
- **The AMI supervisor**:
  - a class with the fields `connected`, `reconnectAttempts` and the pending reconnect timer;
  - capped exponential backoff;
  - the not-connected gate in front of every action;
  - the Originate and Reload action maps.
- **The CDR and dashboard services**:
  - query construction;
  - pagination;
  - the daily disposition tally;
  - the active-channel filter and its error fallbacks.
- **The UI helpers** (`pbx/lib/utils.ts`): duration and phone formatting, status colours, and user-name and host-name validation.

Modelling choices:
- Files are strings passed in and out. A configuration directory is a `map` from file name to text, and a missing key is a missing file.
- The store is a class (`Store.Collection`) holding a `seq` of documents, each with an id.
- The answers of Asterisk (reload outcomes, command replies) are parameters. So are the clock's "today" and the store's case-insensitive pattern test.

Modules, one per file:

| file | module | models |
|---|---|---|
| text.dfy | Text | `indexOf`, decimal rendering, ASCII upper case, concatenation helpers |
| records.dfy | Records | the entities, `||` defaults, `Result`, key uniqueness, the store's sort |
| store.dfy | Store | the document collection and the configuration directory |
| sections.dfy | Sections | the three section-merge strategies and their frame and idempotence laws |
| dialplan.dfy | Dialplan | `exten => <ext>,<priority>,<app>` lines |
| js_numbers.dfy | JsNumbers | `parseInt` without a radix |
| legacy_server.dfy | LegacyServer | server.js |
| ami.dfy | Ami | asterisk.service.ts |
| queues.dfy, extensions.dfy, outbound_routes.dfy, inbound_routes.dfy, trunks.dfy | Queues, Extensions, OutboundRoutes, InboundRoutes, Trunks | the five configuration services |
| cdr.dfy, dashboard.dfy | Cdrs, Dashboard | cdr.service.ts, dashboard.service.ts |
| ui_utils.dfy | UiUtils | pbx/lib/utils.ts |

## Model

| member | source | states |
|---|---|---|
| Text.IndexOf | pbx-backend/src/queues/queues.service.ts:237-245 | `indexOf(p, from)` is -1 or an occurrence at or after `from` with none between `from` and it |
| Text.NatToStringRoundTrip | pbx-backend/src/queues/queues.service.ts:174 | the decimal rendering of a number (`${n}`) reads back as that number |
| Records.AppendKeepsKeysUnique | pbx-backend/src/queues/queues.service.ts:37-47 | saving a document whose key nobody holds keeps natural keys unique |
| Records.ReplaceKeepsKeysUnique | pbx-backend/src/queues/queues.service.ts:75-89 | an update whose key is unchanged, empty or free keeps keys unique |
| Records.RemoveKeepsKeysUnique | pbx-backend/src/queues/queues.service.ts:101-105 | deleting a document keeps keys unique |
| Records.SortBySorted | pbx-backend/src/routes/outbound-routes.service.ts:133-136 | `find().sort({priority: 1})` returns the documents ordered and as a permutation of the stored ones |
| Records.InsertSorted | pbx-backend/src/routes/outbound-routes.service.ts:133-136 | inserting into a sorted list keeps it sorted |
| Records.NameOrdersArePreorders | backend-api/server.js:632-635 | `localeCompare` on names, modelled as lexicographic order, is a total preorder |
| Store.Collection.FindById | pbx-backend/src/queues/queues.service.ts:59-65 | `findById` finds the position holding the id, or nothing exactly when no document has it |
| Store.Collection.FindOne | pbx-backend/src/queues/queues.service.ts:76-79 | `findOne({key, _id: {$ne}})` finds the first other document with the key, or nothing exactly when none has it |
| Store.Collection.Insert | pbx-backend/src/queues/queues.service.ts:46-47 | a saved document is appended under an id no document had |
| Store.Collection.Replace | pbx-backend/src/queues/queues.service.ts:87-89 | `findByIdAndUpdate` replaces that document's fields and nothing else |
| Store.Collection.Delete | pbx-backend/src/queues/queues.service.ts:102 | `findByIdAndDelete` removes that document and keeps the others in order |
| Store.FindOneHeld | pbx-backend/src/queues/queues.service.ts:76-84 | the clash query finds nothing exactly when no other document holds the key |
| Store.UpdateKeepsKeysUnique | pbx-backend/src/queues/queues.service.ts:75-89 | an update that passes the rename check leaves non-empty keys unique |
| Store.ConfigFiles.Write | pbx-backend/src/queues/queues.service.ts:193 | `writeFileSync` replaces or creates that file and no other |
| Sections.SectionEndIsSearch | backend-api/server.js:354 | the end of a span is the first `[` after the header, or the end of the text |
| Sections.RegexAbsent | backend-api/server.js:379-381 | without `[name]` the block is appended with no separator, and removal changes nothing |
| Sections.RemoveIsEmptyUpsert | backend-api/server.js:403-404 | removing a section replaces its span by nothing |
| Sections.RegexUpsertFrame | backend-api/server.js:354-381 | with the first header at `i` and the next `[` at `e`, exactly `s[i..e]` is replaced, by the block with its `$` patterns expanded against that match; the text before and after is unchanged, and a block with no `$` pattern goes in as written |
| Sections.RegexUpsertIdempotent | backend-api/server.js:377-381 | writing a block that opens no other section and holds no `$` replacement pattern twice gives what writing it once gave |
| Sections.RegexUpsertDuplicatesTrailingSections | backend-api/server.js:494-495 | a block that opens further sections is not idempotent: the second write keeps them and writes the block again, expanded, before them |
| Sections.ExpandLiteral | backend-api/server.js:378 | a replacement with no `$` pattern is inserted exactly as written |
| Sections.ExpandChangesPattern | backend-api/server.js:378 | a replacement holding a `$` pattern is not inserted as written, whatever it is matched against |
| Sections.RegexUpsertDollarNotIdempotent | backend-api/server.js:377-381 | a section holding `$$`, appended and then written again, loses one `$`: the replace path is not idempotent for it |
| Sections.CutAndReinsert | pbx-backend/src/queues/queues.service.ts:236-283 | the services' cut-then-insert equals replacing the span from the header to the next `[` after its first character |
| Sections.ReplaceContextFrame | pbx-backend/src/routes/outbound-routes.service.ts:161-236 | only the first `[outbound]` span is replaced; text before and after is kept |
| Sections.ReplaceContextAbsent | pbx-backend/src/queues/queues.service.ts:280-283 | without the header, the separator and the context are appended |
| Sections.ReplaceContextHolds | pbx-backend/src/routes/inbound-routes.service.ts:256-265 | whichever path the merge takes, the new context is in the result |
| Sections.ReplaceContextIdempotent | pbx-backend/src/queues/queues.service.ts:236-283 | merging the same context twice equals merging it once, when the context opens no other section |
| Sections.ReplaceContextIdempotentBefore | pbx-backend/src/routes/outbound-routes.service.ts:227-236 | merging again after text was appended behind a merged context changes nothing |
| Sections.ReplaceContextNotIdempotentWithBracket | pbx-backend/src/queues/queues.service.ts:242-251 | a name holding `[` makes the merge non-idempotent: a witness text |
| Sections.SplitSecondFacts | pbx-backend/src/trunks/trunks.service.ts:166-168 | `split(END)[1]` starts after the first END and runs to the second END or to the end |
| Sections.TrunkMergeShape | pbx-backend/src/trunks/trunks.service.ts:155-185 | with both markers the file is prefix, START, body, END and the text up to the second END; otherwise the block is appended on a new line |
| Sections.MergedLayout | pbx-backend/src/trunks/trunks.service.ts:160-174 | the text a sync writes reads back as the same prefix, body and rest |
| Sections.TrunkMergeIdempotent | pbx-backend/src/trunks/trunks.service.ts:155-185 | a second sync with the same END-free body leaves the file as the first left it, when its markers are in order |
| Sections.TrunkMergeStartWithoutEnd | pbx-backend/src/trunks/trunks.service.ts:175-185 | with START but no END, a second sync still changes the file: a witness |
| Dialplan.ExtenLinesStart | pbx-backend/src/queues/queues.service.ts:268-270 | every line of an extension is `exten => <ext>,` followed by its step |
| JsNumbers.NatRoundTrip | backend-api/server.js:138-139 | `parseInt` of a rendered natural reads back that natural when nothing follows it or the next character is neither a hex digit nor `x` |
| JsNumbers.IntRoundTrip | backend-api/server.js:138-139 | `parseInt` of a rendered integer, sign included, is that integer |
| JsNumbers.SpaceIgnored | backend-api/server.js:138-139 | leading white space does not change what `parseInt` reads |
| JsNumbers.NoDigitsIsNaN | backend-api/server.js:138-139 | a text whose first non-space character starts no numeral reads as NaN |
| JsNumbers.HexPrefix | backend-api/server.js:138-139 | a `0x` prefix makes `parseInt` read base 16 |
| LegacyServer.GetConfigPath | backend-api/server.js:284-299 | a known type maps to its own file, and any other name throws |
| LegacyServer.ConfigPathsOfTypes | backend-api/server.js:284-299 | every type has a file and no two types share one |
| LegacyServer.ReloadModulesDistinct | backend-api/server.js:504-510 | sip, pjsip and iax trunks reload chan_sip.so, chan_pjsip.so and chan_iax2.so, all distinct |
| LegacyServer.DefaultConfigAsWritten | backend-api/server.js:330-345 | the `extensions` skeleton throws, because its template interpolates an undeclared `EXTEN`; the other types give their skeleton |
| LegacyServer.DefaultExtensionsHoldsDialplan | backend-api/server.js:339 | the corrected skeleton holds both dial-plan contexts, and its `[from-internal]` is what the rebuild writes with no routes |
| LegacyServer.ReadConfigFile | backend-api/server.js:314-327 | a present file reads as itself, a missing one as its skeleton |
| LegacyServer.ReadConfigFileAsWritten | backend-api/server.js:320-323 | as written, reading a missing extensions.conf throws |
| LegacyServer.FreshDialplanThrows | backend-api/server.js:629-631 | on a fresh install the dial-plan update fails before writing anything |
| LegacyServer.ExtensionConfigIsSection | backend-api/server.js:358-374 | an extension's block opens no section but its own |
| LegacyServer.ExtensionDefaults | backend-api/server.js:358-374 | an extension with unset fields is written as one with host dynamic, context from-internal, its number as mailbox, rfc2833, udp, nat yes, call-limit 5 and the default codecs |
| LegacyServer.TrunkConfigIsSection | backend-api/server.js:435-490 | a sip or iax trunk's block is one section |
| LegacyServer.PjsipAuthOffset | backend-api/server.js:453-478 | the pjsip block holds `[name-auth]` right after the endpoint section |
| LegacyServer.MemberLines | backend-api/server.js:571 | one `member=SIP/<m>` line per member, in list order |
| LegacyServer.QueueConfigIsSection | backend-api/server.js:574-583 | a queue's block opens no section but its own |
| LegacyServer.QueueDefaults | backend-api/server.js:574-583 | a queue with unset fields is written as one with ringall, timeout 15 and music class default |
| LegacyServer.OutboundSteps | backend-api/server.js:656-673 | the caller-ID pair only when a caller-ID field is set; prepend before prefix; the prefix cut counts the pattern's `X`s; then Dial |
| LegacyServer.OutboundExtension | backend-api/server.js:656-673 | every line of an outbound route is for `_` + its stored pattern |
| LegacyServer.InboundSteps | backend-api/server.js:681-701 | the caller-ID name only when set; one routing step for extension, queue and ivr and none for other types; Hangup last |
| LegacyServer.InboundExtension | backend-api/server.js:681-685 | every line of an inbound route is for its DID, or `_X.` without one |
| LegacyServer.BuildFromInternal | backend-api/server.js:654-675 | the loop builds the header followed by each route's block in order |
| LegacyServer.BuildFromTrunk | backend-api/server.js:678-702 | the loop builds the header followed by each route's block in order |
| LegacyServer.ConfigDir.constructor | backend-api/server.js:302-311 | the directory holds the given files and no reload yet |
| LegacyServer.ConfigDir.WriteAndReload | backend-api/server.js:302-311 | the file is replaced, its module's reload is asked for, and the result is that reload's |
| LegacyServer.ConfigDir.UpsertSection | backend-api/server.js:377-387 | the file becomes the regex-upserted text: the block replaces the section with its `$` patterns expanded, or is appended as written; one reload is asked for |
| LegacyServer.ConfigDir.UpdateExtensionConfig | backend-api/server.js:348-394 | sip.conf gets the extension's section, upserted (its `$` patterns expanded when a section is replaced); chan_sip.so is reloaded |
| LegacyServer.ConfigDir.RemoveExtensionConfig | backend-api/server.js:397-417 | sip.conf loses the extension's first span; chan_sip.so is reloaded |
| LegacyServer.ConfigDir.UpdateTrunkConfig | backend-api/server.js:420-517 | the trunk type's file gets the trunk's block, upserted at `[name]` (its `$` patterns expanded when a section is replaced); that type's module is reloaded |
| LegacyServer.ConfigDir.RemoveTrunkConfig | backend-api/server.js:520-558 | the `[name]` span goes, and for pjsip the `[name-auth]` and `[name-aor]` spans too |
| LegacyServer.ConfigDir.UpdateQueueConfig | backend-api/server.js:561-603 | queues.conf gets the queue's section, upserted (its `$` patterns expanded when a section is replaced); app_queue.so is reloaded |
| LegacyServer.ConfigDir.RemoveQueueConfig | backend-api/server.js:606-626 | queues.conf loses the queue's first span; app_queue.so is reloaded |
| LegacyServer.ConfigDir.UpdateDialplanConfig | backend-api/server.js:629-728 | extensions.conf gets both contexts rebuilt from the routes sorted by name, each replacing its old context with `$` patterns expanded; pbx_config.so is reloaded |
| LegacyServer.UpdateExtensionIdempotent | backend-api/server.js:348-394 | writing the same extension twice gives what one write gave, for an extension whose section holds no `$` replacement pattern |
| LegacyServer.UpdateQueueIdempotent | backend-api/server.js:561-603 | writing the same queue twice gives what one write gave, for a queue whose section holds no `$` replacement pattern |
| LegacyServer.UpdateSipOrIaxTrunkIdempotent | backend-api/server.js:420-517 | writing the same sip or iax trunk twice gives what one write gave, for a block with no `$` replacement pattern |
| LegacyServer.UpdatePjsipTrunkDuplicates | backend-api/server.js:453-498 | a pjsip trunk whose block holds no `$` replacement pattern, written twice, leaves its auth and aor sections twice |
| LegacyServer.RemoveAbsentTrunk | backend-api/server.js:529-539 | removing a trunk none of whose sections is present changes nothing |
| LegacyServer.HandleAsteriskEvent | backend-api/server.js:103-120 | Newchannel and Hangup are logged, Cdr is saved, any other event is ignored |
| LegacyServer.CdrDurations | backend-api/server.js:138-139 | decimal duration fields are saved as their numbers; missing or non-numeric ones as 0 |
| LegacyServer.FindActiveChannel | backend-api/server.js:828 | the `/(\d+) active channel/i` match found is the leftmost one |
| LegacyServer.ActiveCalls | backend-api/server.js:824-837 | CLI output is parsed first, then the AMI item count, then `ChannelCount`; 0 otherwise |
| LegacyServer.CountAfterHeader | backend-api/server.js:826-831 | the line "<n> active channels" after a header without digits gives n |
| LegacyServer.CountIgnoresCase | backend-api/server.js:828 | for every output, changing the letter case of any characters leaves the count and the active-call figure unchanged |
| Ami.BackoffDelay | pbx-backend/src/asterisk/asterisk.service.ts:83 | the delay never exceeds 30000 ms, and from the first attempt on it is at least 2000 ms |
| Ami.BackoffSchedule | pbx-backend/src/asterisk/asterisk.service.ts:81-90 | the delays are 2000, 4000, 8000, 16000, then 30000 for every later attempt |
| Ami.BackoffMonotone | pbx-backend/src/asterisk/asterisk.service.ts:83 | a later attempt never waits less |
| Ami.ReloadAction | pbx-backend/src/asterisk/asterisk.service.ts:306-312 | `Module` is sent exactly when the module name is non-empty |
| Ami.VarKeyFacts | pbx-backend/src/asterisk/asterisk.service.ts:261-263 | each variable's key is a `Variable: ` key, and the name read back after its 10-character prefix is the variable's own |
| Ami.OriginateAction | pbx-backend/src/asterisk/asterisk.service.ts:238-264 | the defaults are Context internal, Priority 1 and Async 'true'; CallerID is present exactly when given; each variable has its key |
| Ami.AddVariables | pbx-backend/src/asterisk/asterisk.service.ts:260-264 | the loop adds one key per variable and keeps every other key |
| Ami.AsteriskService.constructor | pbx-backend/src/asterisk/asterisk.service.ts:15-18 | not connected, 0 attempts, no timer |
| Ami.AsteriskService.ScheduleReconnect | pbx-backend/src/asterisk/asterisk.service.ts:76-96 | the old timer is cleared; below 10 attempts one more is counted and one timer with its backoff is set; at 10 nothing is set |
| Ami.AsteriskService.Connect | pbx-backend/src/asterisk/asterisk.service.ts:30-74 | a client is created, or a throw schedules a reconnect |
| Ami.AsteriskService.OnConnect | pbx-backend/src/asterisk/asterisk.service.ts:52-56 | connected, and the attempts start over at 0 |
| Ami.AsteriskService.OnDisconnect | pbx-backend/src/asterisk/asterisk.service.ts:58-62 | not connected, and a reconnect is scheduled |
| Ami.AsteriskService.OnTimerFired | pbx-backend/src/asterisk/asterisk.service.ts:88-90 | the pending timer runs `connect()` |
| Ami.AsteriskService.Disconnect | pbx-backend/src/asterisk/asterisk.service.ts:98-109 | the timer is cleared, and a present client is marked down |
| Ami.AsteriskService.Perform | pbx-backend/src/asterisk/asterisk.service.ts:135-138 | while not connected an action is refused and nothing is sent; otherwise it is sent once and the reply returned |
| Ami.AsteriskService.ExecuteCommand | pbx-backend/src/asterisk/asterisk.service.ts:133-154 | a `Command` action through the gate |
| Ami.AsteriskService.GetStatus | pbx-backend/src/asterisk/asterisk.service.ts:156-176 | a `CoreStatus` action through the gate |
| Ami.AsteriskService.GetChannels | pbx-backend/src/asterisk/asterisk.service.ts:178-198 | a `CoreShowChannels` action through the gate |
| Ami.AsteriskService.GetExtensionStatus | pbx-backend/src/asterisk/asterisk.service.ts:200-222 | an `ExtensionState` action through the gate |
| Ami.AsteriskService.OriginateCall | pbx-backend/src/asterisk/asterisk.service.ts:224-274 | the Originate map is sent only once the gate is passed |
| Ami.AsteriskService.HangupChannel | pbx-backend/src/asterisk/asterisk.service.ts:276-297 | a `Hangup` action through the gate |
| Ami.AsteriskService.ReloadModule | pbx-backend/src/asterisk/asterisk.service.ts:299-322 | the Reload map is sent through the gate |
| Ami.AsteriskService.GetActivePeers | pbx-backend/src/asterisk/asterisk.service.ts:324-345 | a `SIPpeers` action through the gate |
| Ami.AsteriskService.CreateSipConfig | pbx-backend/src/asterisk/asterisk.service.ts:347-358 | `sip reload` is sent; the result is true exactly when it succeeded |
| Ami.DisconnectStorm | pbx-backend/src/asterisk/asterisk.service.ts:58-96 | after n disconnects the attempt count is min(n, 10) and the scheduled delays are exactly the back-off delays of attempts 1 to that count |
| Queues.RenderQueuesConf | pbx-backend/src/queues/queues.service.ts:162-189 | the loop writes `[general]`, then each queue's section in list order |
| Queues.QueuesConfSections | pbx-backend/src/queues/queues.service.ts:171-189 | every queue has its section in queues.conf |
| Queues.QueueSectionMembers | pbx-backend/src/queues/queues.service.ts:182-186 | every member has its `member = SIP/<m>` line in its queue's section |
| Queues.QueueSectionDefaults | pbx-backend/src/queues/queues.service.ts:173-178 | unset strategy, timeout and music class become ringall, 15 and default, and writing the queue is the same as writing it with every default filled in |
| Queues.BuildQueuesContext | pbx-backend/src/queues/queues.service.ts:264-271 | the loop writes three lines and a blank line per queue |
| Queues.QueuesDialplanIdempotent | pbx-backend/src/queues/queues.service.ts:236-283 | merging `[queues]` twice with the same queues equals merging once, when names hold no `[` |
| Queues.QueuesDialplanCovers | pbx-backend/src/queues/queues.service.ts:264-283 | after the merge every queue's extension is in extensions.conf |
| Queues.IndexOfMember | pbx-backend/src/queues/queues.service.ts:141 | `members.indexOf(m)` is the first position of `m`, or -1 when it is absent |
| Queues.WithMember | pbx-backend/src/queues/queues.service.ts:119-125 | the members are unchanged when `m` is present, else `m` is appended |
| Queues.WithoutMemberMultiset | pbx-backend/src/queues/queues.service.ts:141-147 | removal takes away exactly the first copy, or nothing when the member is absent |
| Queues.AddThenRemoveMember | pbx-backend/src/queues/queues.service.ts:113-154 | adding a new member and removing it gives the members back |
| Queues.AddMemberIdempotent | pbx-backend/src/queues/queues.service.ts:119-122 | adding the same member twice adds it once |
| Queues.PauseCommand | pbx-backend/src/queues/queues.service.ts:372-375 | ` reason <r>` is appended exactly when a reason is given |
| Queues.AddMemberCommand | pbx-backend/src/queues/queues.service.ts:475-478 | ` penalty <p>` is appended exactly when a penalty is given, 0 included |
| Queues.ZeroPenaltyIsSent | pbx-backend/src/queues/queues.service.ts:476 | penalty 0 is sent, unlike a missing penalty |
| Queues.QueueSyncFiles | pbx-backend/src/queues/queues.service.ts:156-209 | queues.conf is always rewritten; extensions.conf is merged only after the `queues` reload succeeded |
| Queues.QueueSyncKeepsOthers | pbx-backend/src/queues/queues.service.ts:193-286 | a sync touches no other file |
| Queues.QueueSyncSent | pbx-backend/src/queues/queues.service.ts:197-292 | the reloads are `queues`, then `dialplan` once `queues` has succeeded |
| Queues.QueueSyncResult | pbx-backend/src/queues/queues.service.ts:196-208 | a sync succeeds exactly when the session is up and both reloads succeed |
| Queues.QueueSyncIdempotent | pbx-backend/src/queues/queues.service.ts:156-301 | once synced, syncing again with the same queues writes what the files hold, when queue names hold no `[` |
| Queues.QueueSyncCovers | pbx-backend/src/queues/queues.service.ts:264-283 | after a sync whose queue reload succeeded, every queue can be dialled by name |
| Queues.QueuesService.UpdateExtensionsConfForQueues | pbx-backend/src/queues/queues.service.ts:211-301 | extensions.conf becomes the merged text and `dialplan` is reloaded |
| Queues.QueuesService.SyncAsterisk | pbx-backend/src/queues/queues.service.ts:156-209 | the files and reloads are those QueueSyncFiles and QueueSyncSent give for the stored queues |
| Queues.QueuesService.Get | pbx-backend/src/queues/queues.service.ts:59-65 | the stored queue, or NotFound |
| Queues.QueuesService.Create | pbx-backend/src/queues/queues.service.ts:35-53 | Conflict when any queue has the name; otherwise the queue is saved and synced |
| Queues.QueuesService.Update | pbx-backend/src/queues/queues.service.ts:67-99 | NotFound for a missing id; Conflict only when a new non-empty name is held by another queue; otherwise fields are replaced and synced; keys stay unique |
| Queues.QueuesService.Remove | pbx-backend/src/queues/queues.service.ts:101-111 | NotFound for a missing id; otherwise deleted and synced |
| Queues.QueuesService.AddMember | pbx-backend/src/queues/queues.service.ts:113-132 | a present member returns the queue with nothing saved or synced; otherwise appended, saved and synced |
| Queues.QueuesService.RemoveMember | pbx-backend/src/queues/queues.service.ts:134-154 | an absent member returns the queue as it is; otherwise its first copy goes, then save and sync |
| Queues.QueuesService.GetQueueStatus | pbx-backend/src/queues/queues.service.ts:303-329 | NotFound for an unknown name; otherwise one `queue show <name>` |
| Queues.QueuesService.GetAllQueueStatuses | pbx-backend/src/queues/queues.service.ts:331-348 | `queue show` first; the stored queues only when it answered |
| Queues.QueuesService.MemberCheck | pbx-backend/src/queues/queues.service.ts:357-370 | the queue must exist and hold the member as a static member |
| Queues.QueuesService.Pause | pbx-backend/src/queues/queues.service.ts:350-393 | NotFound for an unknown queue or member; otherwise one pause command |
| Queues.QueuesService.Unpause | pbx-backend/src/queues/queues.service.ts:395-429 | the same checks, then one unpause command |
| Queues.QueuesService.RemoveDynamic | pbx-backend/src/queues/queues.service.ts:431-458 | NotFound for an unknown queue; otherwise one `queue remove member` |
| Queues.QueuesService.AddDynamic | pbx-backend/src/queues/queues.service.ts:460-496 | NotFound for an unknown queue; otherwise one `queue add member` |
| Queues.QueuesService.ResetStats | pbx-backend/src/queues/queues.service.ts:498-524 | NotFound for an unknown queue; otherwise one `queue reset stats` |
| Extensions.RenderSipConf | pbx-backend/src/extensions/extensions.service.ts:147-221 | the loop writes the preamble, then each extension's section in list order |
| Extensions.SipConfSections | pbx-backend/src/extensions/extensions.service.ts:204-221 | every extension has its `[ext](template-internal)` section |
| Extensions.ExtensionSectionDefaults | pbx-backend/src/extensions/extensions.service.ts:209-219 | mailbox defaults to the number; host dynamic, rfc2833, udp, nat yes, call-limit 5, disallow all, allow ulaw,alaw,g722; email and group lines only when set |
| Extensions.BuildInternalBody | pbx-backend/src/extensions/extensions.service.ts:285-325 | three lines and a blank line per extension, then the feature codes |
| Extensions.InternalContextDials | pbx-backend/src/extensions/extensions.service.ts:290-296 | every extension has its `Dial(SIP/<ext>,20)` line |
| Extensions.WithFromTrunkKeeps | pbx-backend/src/extensions/extensions.service.ts:369-376 | adding `[from-trunk]` loses nothing |
| Extensions.FromTrunkKept | pbx-backend/src/extensions/extensions.service.ts:373-376 | an existing `[from-trunk]` is never rewritten, and no second one is added |
| Extensions.MergeKeepsFromTrunk | pbx-backend/src/extensions/extensions.service.ts:329-357 | replacing `[internal]` keeps a `[from-trunk]` header |
| Extensions.MergeExtensionsConf | pbx-backend/src/extensions/extensions.service.ts:329-376 | the cut-and-insert path equals the span replace followed by the add-if-missing |
| Extensions.ExtensionsDialplanCovers | pbx-backend/src/extensions/extensions.service.ts:290-376 | the merged text holds every extension's dial line and a `[from-trunk]` context |
| Extensions.MergeIdempotent | pbx-backend/src/extensions/extensions.service.ts:329-376 | merging and adding `[from-trunk]` twice equals doing it once, for a context text that opens no other section |
| Extensions.ExtensionsDialplanIdempotent | pbx-backend/src/extensions/extensions.service.ts:241-397 | syncing twice with the same extensions equals syncing once, when extension numbers hold no `[` |
| Extensions.ExtensionSyncFiles | pbx-backend/src/extensions/extensions.service.ts:141-239 | after a sync both sip.conf and extensions.conf exist, and every other file is kept as it was |
| Extensions.ExtensionSyncSent | pbx-backend/src/extensions/extensions.service.ts:229-237 | `dialplan` is reloaded first and its answer only logged; then `sip`, which is awaited |
| Extensions.ExtensionSyncKeepsOthers | pbx-backend/src/extensions/extensions.service.ts:225-379 | a sync touches no other file |
| Extensions.ExtensionSyncIdempotent | pbx-backend/src/extensions/extensions.service.ts:141-239 | once synced, syncing again writes what the files hold, when extension numbers hold no `[` |
| Extensions.ExtensionSyncCovers | pbx-backend/src/extensions/extensions.service.ts:204-296 | after a sync every extension has its peer and its dial line |
| Extensions.ExtensionsService.UpdateExtensionsConf | pbx-backend/src/extensions/extensions.service.ts:241-397 | extensions.conf becomes the merged text; the dial-plan reload's failure does not propagate |
| Extensions.ExtensionsService.SyncAsterisk | pbx-backend/src/extensions/extensions.service.ts:141-239 | the files and reloads are those of ExtensionSyncFiles and ExtensionSyncSent; the `sip` reload's failure is the result |
| Extensions.ExtensionsService.Get | pbx-backend/src/extensions/extensions.service.ts:61-67 | the stored extension, or NotFound |
| Extensions.ExtensionsService.FindByNumber | pbx-backend/src/extensions/extensions.service.ts:69-83 | NotFound exactly when no stored extension has the number; otherwise a stored extension with that number |
| Extensions.ExtensionsService.Create | pbx-backend/src/extensions/extensions.service.ts:35-55 | Conflict when any extension has the number; otherwise saved and synced |
| Extensions.ExtensionsService.Update | pbx-backend/src/extensions/extensions.service.ts:85-125 | NotFound for a missing id; Conflict only when a new non-empty number is held by another extension; otherwise replaced and synced |
| Extensions.ExtensionsService.Remove | pbx-backend/src/extensions/extensions.service.ts:127-139 | NotFound for a missing id; otherwise deleted and synced |
| OutboundRoutes.DialPattern | pbx-backend/src/routes/outbound-routes.service.ts:198-200 | the result starts with `_` and ends with the pattern, adding at most one character |
| OutboundRoutes.DialPatternOnce | pbx-backend/src/routes/outbound-routes.service.ts:198-200 | normalising twice equals normalising once, and a pattern stays as it is exactly when it already starts with `_` |
| OutboundRoutes.CallerIdApps | pbx-backend/src/routes/outbound-routes.service.ts:205-210 | no caller-ID line when neither field is set; two lines exactly when the number is set, the second setting CALLERID(num) to it |
| OutboundRoutes.CallerIdNameSet | pbx-backend/src/routes/outbound-routes.service.ts:206 | the first caller-ID line sets the name to the route's caller-ID name, or to its number when the name is unset, so the `${CALLERID(name)}` fallback is never written |
| OutboundRoutes.OutnumApp | pbx-backend/src/routes/outbound-routes.service.ts:213-219 | OUTNUM is the prepend digits followed by the dialled number minus the prefix, or `${EXTEN}` with neither |
| OutboundRoutes.RouteApps | pbx-backend/src/routes/outbound-routes.service.ts:202-223 | four steps plus the caller-ID lines: NoOp first, then OUTNUM, `Dial(SIP/${OUTNUM}@<trunk>,60)` and Hangup last |
| OutboundRoutes.RouteExtensionLines | pbx-backend/src/routes/outbound-routes.service.ts:202-223 | every line of a route is for its dial pattern, and the first logs the match |
| OutboundRoutes.BuildOutboundContext | pbx-backend/src/routes/outbound-routes.service.ts:190-224 | the loop builds OutboundContext: the header and `_.` catch-all first, then each route in order |
| OutboundRoutes.OutboundDialplanIdempotent | pbx-backend/src/routes/outbound-routes.service.ts:161-236 | merging twice with the same routes equals merging once, when route fields hold no `[` |
| OutboundRoutes.OutboundDialplanCovers | pbx-backend/src/routes/outbound-routes.service.ts:197-236 | after the merge every route's extension is in the file |
| OutboundRoutes.HasMatchIsRegex | pbx-backend/src/routes/outbound-routes.service.ts:270-273 | the greedy scan answers as the regular expression's matcher does |
| OutboundRoutes.LayoutMatches | pbx-backend/src/routes/outbound-routes.service.ts:270-273 | the line the service writes, with any blank gaps, matches the test |
| OutboundRoutes.RouteInternalChanges | pbx-backend/src/routes/outbound-routes.service.ts:259-294 | the text changes exactly when `[internal]` exists and no route line matches |
| OutboundRoutes.RouteInternalRoutes | pbx-backend/src/routes/outbound-routes.service.ts:279-294 | after the insertion a file with `[internal]` routes to the outbound context |
| OutboundRoutes.RouteInternalIdempotent | pbx-backend/src/routes/outbound-routes.service.ts:259-294 | running the insertion twice adds nothing the second time |
| OutboundRoutes.RouteInternalKeeps | pbx-backend/src/routes/outbound-routes.service.ts:288-291 | the insertion keeps every piece of text of the file that holds no `[` |
| OutboundRoutes.RouteInternalKeepsContext | pbx-backend/src/routes/outbound-routes.service.ts:227-294 | merging the same context into a file after the insertion changes nothing |
| OutboundRoutes.OutboundSyncFiles | pbx-backend/src/routes/outbound-routes.service.ts:130-257 | extensions.conf is written, and every other file is kept as it was |
| OutboundRoutes.OutboundSyncOrdered | pbx-backend/src/routes/outbound-routes.service.ts:133-136 | routes are written in ascending priority, each stored route once |
| OutboundRoutes.OutboundSyncIdempotent | pbx-backend/src/routes/outbound-routes.service.ts:130-296 | once synced, syncing again writes what the file holds, when route fields hold no `[` |
| OutboundRoutes.OutboundSyncCovers | pbx-backend/src/routes/outbound-routes.service.ts:197-239 | after a sync every stored route is in extensions.conf |
| OutboundRoutes.OutboundSyncReachable | pbx-backend/src/routes/outbound-routes.service.ts:245 | after a sync any `[internal]` context can dial out |
| OutboundRoutes.OutboundRoutesService.FindAll | pbx-backend/src/routes/outbound-routes.service.ts:62-64 | every route, sorted by priority |
| OutboundRoutes.OutboundRoutesService.Get | pbx-backend/src/routes/outbound-routes.service.ts:66-72 | the stored route, or NotFound |
| OutboundRoutes.OutboundRoutesService.UpdateInternalDialPlan | pbx-backend/src/routes/outbound-routes.service.ts:259-296 | when the line is needed extensions.conf becomes the text with the route line inserted; otherwise nothing is written |
| OutboundRoutes.OutboundRoutesService.SyncAsterisk | pbx-backend/src/routes/outbound-routes.service.ts:130-257 | the files are those of OutboundSyncFiles; `dialplan` is reloaded |
| OutboundRoutes.OutboundRoutesService.Create | pbx-backend/src/routes/outbound-routes.service.ts:38-60 | Conflict when any route has the name; otherwise saved and synced |
| OutboundRoutes.OutboundRoutesService.Update | pbx-backend/src/routes/outbound-routes.service.ts:74-114 | NotFound for a missing id; Conflict only for a new non-empty name held by another route; otherwise replaced and synced |
| OutboundRoutes.OutboundRoutesService.Remove | pbx-backend/src/routes/outbound-routes.service.ts:116-128 | NotFound for a missing id; otherwise deleted and synced |
| InboundRoutes.UnknownTypeIsExtension | pbx-backend/src/routes/inbound-routes.service.ts:237-249 | a type outside the enum is routed as an extension, with `Goto(internal,<destination>,1)` |
| InboundRoutes.GotoAppInjective | pbx-backend/src/routes/inbound-routes.service.ts:237-249 | two routes jump to the same place exactly when kind and destination agree |
| InboundRoutes.InboundApps | pbx-backend/src/routes/inbound-routes.service.ts:229-251 | NoOp, the caller-ID name only when set, the jump to the destination, Hangup |
| InboundRoutes.DidLinesShape | pbx-backend/src/routes/inbound-routes.service.ts:227-253 | every line is for the DID; the first logs the call and the jump comes just before the hang-up |
| InboundRoutes.BuildFromTrunkContext | pbx-backend/src/routes/inbound-routes.service.ts:220-253 | the loop builds InboundContext: the header and the default `s` handler, then each route with a DID |
| InboundRoutes.DidlessWriteNothing | pbx-backend/src/routes/inbound-routes.service.ts:228 | routes without a DID write nothing |
| InboundRoutes.InboundDialplanIdempotent | pbx-backend/src/routes/inbound-routes.service.ts:190-265 | merging twice with the same routes equals merging once, when route fields hold no `[` |
| InboundRoutes.InboundDialplanCovers | pbx-backend/src/routes/inbound-routes.service.ts:220-265 | after the merge the file holds the default handler and every route's extension |
| InboundRoutes.InboundSyncFiles | pbx-backend/src/routes/inbound-routes.service.ts:160-283 | extensions.conf is written, and every other file is kept as it was |
| InboundRoutes.InboundSyncOrdered | pbx-backend/src/routes/inbound-routes.service.ts:163-166 | routes are written in ascending priority, each stored route once |
| InboundRoutes.InboundSyncIdempotent | pbx-backend/src/routes/inbound-routes.service.ts:160-283 | once synced, syncing again writes what the file holds, when route fields hold no `[` |
| InboundRoutes.InboundSyncCovers | pbx-backend/src/routes/inbound-routes.service.ts:220-265 | after a sync the file holds the default handler and every stored route with a DID |
| InboundRoutes.InboundRoutesService.FindAll | pbx-backend/src/routes/inbound-routes.service.ts:75-77 | every route, sorted by priority |
| InboundRoutes.InboundRoutesService.Get | pbx-backend/src/routes/inbound-routes.service.ts:79-85 | the stored route, or NotFound |
| InboundRoutes.InboundRoutesService.SyncAsterisk | pbx-backend/src/routes/inbound-routes.service.ts:160-283 | the file is that of InboundSyncFiles; `dialplan` is reloaded |
| InboundRoutes.InboundRoutesService.Create | pbx-backend/src/routes/inbound-routes.service.ts:38-73 | Conflict when the name is taken, then when a given DID is taken; otherwise saved and synced |
| InboundRoutes.InboundRoutesService.Update | pbx-backend/src/routes/inbound-routes.service.ts:87-144 | NotFound for a missing id; Conflict for a new name, then a new DID, held by another route; otherwise replaced and synced |
| InboundRoutes.InboundRoutesService.UpdateConflict | pbx-backend/src/routes/inbound-routes.service.ts:98-129 | the name check comes first, then the DID check |
| InboundRoutes.InboundRoutesService.Remove | pbx-backend/src/routes/inbound-routes.service.ts:146-158 | NotFound for a missing id; otherwise deleted and synced |
| Trunks.SipSettingsFacts | pbx-backend/src/trunks/trunks.service.ts:121-142 | username and secret are written exactly when set, with the trunk's values, and no setting but host is written empty |
| Trunks.SipDefaults | pbx-backend/src/trunks/trunks.service.ts:125-142 | unset fields become from-trunk, rfc2833, udp, port,invite, yes, 60, all and ulaw,alaw,g722 |
| Trunks.BuildSipBody | pbx-backend/src/trunks/trunks.service.ts:118-144 | the loop builds SipBody: each sip trunk's section in order |
| Trunks.OthersWriteNothing | pbx-backend/src/trunks/trunks.service.ts:121 | only `type === 'sip'` trunks are written |
| Trunks.SipBodyCovers | pbx-backend/src/trunks/trunks.service.ts:118-185 | the marker block holds every sip trunk's peer |
| Trunks.TrunkMergeHolds | pbx-backend/src/trunks/trunks.service.ts:155-185 | whatever sip.conf held, the result holds the whole marker block |
| Trunks.TrunkMergeKeepsBefore | pbx-backend/src/trunks/trunks.service.ts:160-185 | the text before the first START, or the whole file when a marker is missing, stays at the front |
| Trunks.TrunkSyncFiles | pbx-backend/src/trunks/trunks.service.ts:147-192 | sip.conf is written, and every other file is kept as it was |
| Trunks.TrunkSyncCovers | pbx-backend/src/trunks/trunks.service.ts:118-192 | after a sync sip.conf holds every stored sip trunk's peer |
| Trunks.TrunkSyncIdempotent | pbx-backend/src/trunks/trunks.service.ts:155-192 | syncing again writes what sip.conf holds, when no peer writes END and the markers are in order |
| Trunks.ConflictIsRefusedAsWritten | pbx-backend/src/trunks/trunks.service.ts:75-83 | the intended name-clash check refuses only what the written check refuses |
| Trunks.RenameRefusedWithoutClash | pbx-backend/src/trunks/trunks.service.ts:75-83 | with trunks `a` and `b`, renaming `a` to `c` is refused as written, though no trunk is named `c` |
| Trunks.TrunksService.FindAll | pbx-backend/src/trunks/trunks.service.ts:55-57 | every trunk, in store order |
| Trunks.TrunksService.Get | pbx-backend/src/trunks/trunks.service.ts:59-65 | the stored trunk, or NotFound |
| Trunks.TrunksService.SyncAsterisk | pbx-backend/src/trunks/trunks.service.ts:112-198 | sip.conf is that of TrunkSyncFiles; `sip` is reloaded |
| Trunks.TrunksService.Create | pbx-backend/src/trunks/trunks.service.ts:35-53 | Conflict when any trunk has the name; otherwise saved and synced |
| Trunks.TrunksService.Update | pbx-backend/src/trunks/trunks.service.ts:67-98 | NotFound for a missing id; Conflict only for a new non-empty name held by another trunk (the corrected check); otherwise replaced and synced |
| Trunks.TrunksService.Remove | pbx-backend/src/trunks/trunks.service.ts:100-110 | NotFound for a missing id; otherwise deleted and synced |
| Cdrs.QueryOf | pbx-backend/src/cdr/cdr.service.ts:32-43 | the start range is present exactly when a start or end date is given |
| Cdrs.BuildQuery | pbx-backend/src/cdr/cdr.service.ts:32-43 | the field-by-field construction gives QueryOf |
| Cdrs.QueryMeaning | pbx-backend/src/cdr/cdr.service.ts:32-43 | a record matches exactly when it meets each given filter; the disposition is an exact match |
| Cdrs.Select | pbx-backend/src/cdr/cdr.service.ts:46-50 | a record is selected exactly when it is stored and matches |
| Cdrs.Pages | pbx-backend/src/cdr/cdr.service.ts:47 | `Math.ceil(total / limit)`: the least count of pages that holds the total; Infinity or NaN for limit 0 |
| Cdrs.PageOfRecord | pbx-backend/src/cdr/cdr.service.ts:45-47 | record `i` is on page `i / limit + 1`, which is among the counted pages |
| Cdrs.PagesAreFull | pbx-backend/src/cdr/cdr.service.ts:45-47 | no counted page is empty |
| Cdrs.Window | pbx-backend/src/cdr/cdr.service.ts:51-54 | a negative skip is refused; limit 0 is no limit and a negative limit counts as its absolute value; the window holds the records from `skip` on, at most `limit` of them |
| Cdrs.ListingFacts | pbx-backend/src/cdr/cdr.service.ts:13-62 | the defaults are limit 50 and page 1; a page holds at most `limit` matching records, latest first; the total counts every match |
| Cdrs.BucketOf | pbx-backend/src/cdr/cdr.service.ts:291-308 | the no-answer bucket takes exactly NO ANSWER and NOANSWER |
| Cdrs.Average | pbx-backend/src/cdr/cdr.service.ts:310 | 0 when nothing was answered, else the total duration divided by the answered count |
| Cdrs.BucketsBounded | pbx-backend/src/cdr/cdr.service.ts:284-308 | answered + noanswer + busy + failed ≤ total |
| Cdrs.DurationOfUnanswered | pbx-backend/src/cdr/cdr.service.ts:293-295 | only answered calls add to the total duration |
| Cdrs.Tally | pbx-backend/src/cdr/cdr.service.ts:285-310 | the counting loop gives each bucket's count and the average |
| Cdrs.StartedBetween | pbx-backend/src/cdr/cdr.service.ts:274-281 | exactly the calls that started in `[today, tomorrow)` |
| Cdrs.CdrService.FindAll | pbx-backend/src/cdr/cdr.service.ts:13-62 | the result is the listing of the stored records |
| Cdrs.CdrService.GetRecentCalls | pbx-backend/src/cdr/cdr.service.ts:253-255 | the first `limit` calls (10 when absent, all when 0, the absolute value when negative) of the stored calls sorted latest first: sorted, drawn from the store, and every stored call left out started no later than each returned one |
| Cdrs.RecentAreLatest | pbx-backend/src/cdr/cdr.service.ts:253-255 | for every store and limit, the window of the latest-first order is sorted, a sub-multiset of the store, and no left-out call started later than a returned one |
| Cdrs.CdrService.Get | pbx-backend/src/cdr/cdr.service.ts:64-70 | the stored record, or NotFound |
| Cdrs.CdrService.FindByUniqueId | pbx-backend/src/cdr/cdr.service.ts:72-80 | NotFound when no record has that `uniqueid`; otherwise a stored record with it |
| Cdrs.CdrService.GetTodayCalls | pbx-backend/src/cdr/cdr.service.ts:257-320 | each count is over today's calls, the buckets sum to at most the total, and the average is that of the answered calls |
| Dashboard.ActiveChannels | pbx-backend/src/dashboard/dashboard.service.ts:94-101 | an event is kept exactly when it is `CoreShowChannel` and not in state 6 |
| Dashboard.AllCountedIffAllActive | pbx-backend/src/dashboard/dashboard.service.ts:94-101 | every event counts exactly when every event is active |
| Dashboard.UpChannelsNotCounted | pbx-backend/src/dashboard/dashboard.service.ts:97-99 | channels that are all up count for nothing |
| Dashboard.ActiveCallsCount | pbx-backend/src/dashboard/dashboard.service.ts:89-109 | 0 when there are no events or the lookup throws; otherwise at most the number of events, and equal to it exactly when every event is active |
| Dashboard.StatusOrError | pbx-backend/src/dashboard/dashboard.service.ts:45-53 | a failed status lookup becomes an error object, never a throw |
| Dashboard.ChannelsOrError | pbx-backend/src/dashboard/dashboard.service.ts:55-63 | a failed channel lookup becomes an error object, never a throw |
| Dashboard.StartedSince | pbx-backend/src/dashboard/dashboard.service.ts:77 | exactly the calls that started at or after today's midnight |
| Dashboard.GetCounts | pbx-backend/src/dashboard/dashboard.service.ts:65-87 | the counts of stored extensions, trunks and queues and the active-call count; today's record count is at most the number of records |
| Dashboard.GetDashboardData | pbx-backend/src/dashboard/dashboard.service.ts:28-43 | status and channels are unavailable exactly when their lookup failed; the counts are those of the separate count reply |
| Dashboard.CountsCoverTodayCalls | pbx-backend/src/dashboard/dashboard.service.ts:77 | the dashboard's count of today's records is at least the CDR service's total for the day |
| UiUtils.DurationRoundTrip | pbx/lib/utils.ts:21-31 | `HH:MM:SS` reads back as h = s div 3600 and m, sec < 60, with h·3600 + m·60 + sec = s; each part has at least two digits |
| UiUtils.DurationInjective | pbx/lib/utils.ts:21-31 | different durations never share a text |
| UiUtils.FormatPhoneNumber | pbx/lib/utils.ts:33-53 | "" gives ""; 10 digits give a 14-character text and 11 digits starting with 1 a 17-character one; any other input is returned unchanged |
| UiUtils.PhoneKeepsDigits | pbx/lib/utils.ts:38-52 | formatting adds and drops no digit |
| UiUtils.PhoneIdempotent | pbx/lib/utils.ts:33-53 | formatting a formatted number changes nothing |
| UiUtils.GetCallStatusColor | pbx/lib/utils.ts:56-72 | the class string of exactly one colour: green iff ANSWERED, yellow iff NO ANSWER or NOANSWER, orange iff BUSY, red iff FAILED, purple iff CONGESTION, gray for a missing or any other disposition, all compared in upper case |
| UiUtils.ColorIgnoresCase | pbx/lib/utils.ts:57 | dispositions that differ only in letter case get the same colour |
| UiUtils.NoAnswerSpellings | pbx/lib/utils.ts:61-63 | NO ANSWER and NOANSWER, and only they, are yellow |
| UiUtils.UnknownIsGray | pbx/lib/utils.ts:69-71 | a disposition is gray exactly when it is missing or not one of the six known ones, in any letter case |
| UiUtils.ClassNamesDistinct | pbx/lib/utils.ts:58-71 | different colours give different class strings |
| UiUtils.BucketsAgreeWithColors | pbx/lib/utils.ts:56-72 | each disposition the daily count puts in a bucket is shown in that bucket's colour |
| UiUtils.IsValidSipUsername | pbx/lib/utils.ts:78-81 | accepted exactly when non-empty and every character is in `[A-Za-z0-9_.-]` |
| UiUtils.UsernameIsConfigSafe | pbx/lib/utils.ts:78-81 | an accepted user name holds no `[`, line break or `=` |
| UiUtils.DottedNameMeaning | pbx/lib/utils.ts:84 | splitting at the last dot accepts exactly the names the pattern matches at some split |
| UiUtils.DottedQuadMeaning | pbx/lib/utils.ts:86 | splitting at the first three dots accepts exactly the texts the pattern matches at some split |
| UiUtils.HostnameMeaning | pbx/lib/utils.ts:83-91 | accepted exactly by a dotted name with an alphabetic TLD of at least 2 letters, `localhost`, four dotted 1-3 digit groups, or `dynamic` |
| UiUtils.HostnameChars | pbx/lib/utils.ts:83-91 | every character of an accepted host name is a letter, a digit, `.` or `-` |
| UiUtils.HostnameIsConfigSafe | pbx/lib/utils.ts:83-91 | an accepted host name holds no `[` and no line break |

## Left out

- File I/O, Mongo queries and `child_process.exec` are not performed. Files are a map of texts, and the store is an in-memory sequence. The legacy server's CLI fallback when no AMI client exists is the same reload and command, with its outcome a parameter.
- Real time is a parameter: reconnect timers are recorded, not run, and "today" is given as a number. `new Date()` parsing and the validity of dates are not modelled.
- The `asterisk-manager` library is not modelled: framing, correlation of actions and replies, `keepConnected`, and event delivery. The replies and the `connect`/`disconnect` events are inputs.
- The legacy server's own AMI connection with its fixed 5 s retry is library plumbing and is not modelled.
- Concurrency is not modelled. Each service's sync is one sequential call. Several services write extensions.conf, and the extension and trunk services both write sip.conf.
  - The extension sync overwrites sip.conf whole, so it drops a trunk marker block that was there. The model shows this by writing the whole file.
- LegacyServer.ConfigDir.UpsertSection: the name is put into a regular expression unescaped. The model matches it literally, which agrees with the code only for names without regular-expression metacharacters. The `$` patterns of the block (`$$`, `$&`, `` $` ``, `$'`, `$1`, `$01`) are modelled on the replace path; the append path adds the block as written.
- Sections.RegexUpsertIdempotent: stated for blocks with no `$` replacement pattern. Sections.RegexUpsertDollarNotIdempotent shows a block holding `$$` loses a `$` on its second write.
- LegacyServer.UpdateExtensionIdempotent: stated for an extension whose section holds no `$` replacement pattern, for the same reason.
- LegacyServer.UpdateQueueIdempotent: stated for a queue whose section holds no `$` replacement pattern, for the same reason.
- LegacyServer.UpdateSipOrIaxTrunkIdempotent: stated for a trunk block with no `$` replacement pattern, for the same reason.
- LegacyServer.UpdatePjsipTrunkDuplicates: stated for a trunk block with no `$` replacement pattern, for the same reason.
- Counts such as timeout, priority, penalty, qualifyfreq and call limit are integers. A fractional stored value, which JavaScript would write out as a decimal, is not modelled.
- Records.SortBy: Mongo does not fix the order of documents with equal priority. The model uses a stable sort, so its tie order is one of the orders Mongo may return.
- Cdrs.Select: the `$regex` test with option `i` for `src`/`dst` is a parameter. Case folding under a Unicode regular expression is not modelled.
- cdr.service.ts `create`, `getStats`, `getMostCalledDestinations` and `getMostActiveCallers` are Mongo inserts and aggregation pipelines, and are not modelled.
- Cdrs.Average: an exact `real` quotient. Floating-point rounding of `totalDuration / answered` is not modelled.
- UiUtils.Upper: ASCII letters only. JavaScript's `toUpperCase` also maps other characters (for example 'ſ' to 'S'), so a non-ASCII disposition may be coloured differently.
- UiUtils.DurationRoundTrip: natural-number inputs only. Negative and fractional seconds are not modelled.
- UiUtils.DottedQuadMeaning: the host-name pattern accepts groups up to 999, as written; no range check is added.
- Queues.QueuesDialplanIdempotent: stated for queue names without `[`. Sections.ReplaceContextNotIdempotentWithBracket shows a name with `[` breaks idempotence, so this restriction is needed.
- Queues.QueueSyncIdempotent: stated for queue names without `[`, for the same reason.
- Extensions.MergeIdempotent: stated for a context text that opens no section besides `[from-internal]`, for the same reason.
- Extensions.ExtensionsDialplanIdempotent: stated for extension numbers without `[`, for the same reason.
- Extensions.ExtensionSyncIdempotent: stated for extension numbers without `[`, for the same reason.
- OutboundRoutes.OutboundDialplanIdempotent: stated for routes whose fields hold no `[`, for the same reason.
- OutboundRoutes.OutboundSyncIdempotent: stated for routes whose fields hold no `[`, for the same reason.
- InboundRoutes.InboundDialplanIdempotent: stated for routes whose fields hold no `[`, for the same reason.
- InboundRoutes.InboundSyncIdempotent: stated for routes whose fields hold no `[`, for the same reason.
- Trunks.TrunkSyncIdempotent: stated for peers that never write the END marker, and for a file whose markers are in order. Sections.TrunkMergeStartWithoutEnd shows a file with START and no END is changed again.
- OutboundRoutes.OutboundSyncCovers: stated for routes whose fields hold no `[`. A `[` in a field opens a new section, which a later merge may cut.
- JsNumbers.NatRoundTrip: stated for trailing text that is empty or starts with neither a hex digit nor `x`. Trailing letters `a`-`f` after a non-zero number also leave the reading unchanged, but that case is not stated.
- Extensions.ExtensionsService.FindByNumber: does not say which extension is returned when several share a number. `findOne` returns one of them in an order the store picks.
- Cdrs.CdrService.FindByUniqueId: does not say which record is returned when several share a `uniqueid`, for the same reason.
- Dashboard.GetCounts: today's record count is bounded by the number of records. Its link to the calls of the day is stated by Dashboard.CountsCoverTodayCalls.
- Dashboard.GetDashboardData: the service asks for the channel list twice, once for the list and once for the count. Both answers are parameters and may differ.
- Controllers, DTO validation, guards, authentication, `sip-logger.service.ts` and every frontend file except `pbx/lib/utils.ts` are not part of this model.

## Findings

| source | as written | input that shows it | evidently intended | confidence | as-written member | corrected member |
|---|---|---|---|---|---|---|
| backend-api/server.js:339 | the `extensions` skeleton is a template literal containing `${EXTEN}`, an interpolation of an undeclared variable, so building it throws | `readConfigFile('extensions')` on an install without extensions.conf | the literal dial-plan text `${EXTEN}`, as in the single-quoted default at line 649 | high (not executed) | LegacyServer.DefaultConfigAsWritten | LegacyServer.DefaultExtensionsHoldsDialplan |
| pbx-backend/src/trunks/trunks.service.ts:75-83 | the clash query filters on `_id: {$ne: id}` alone, so any other trunk refuses the rename | trunks `a` and `b`; rename `a` to `c` | refuse only a name held by another trunk, as the other services do | high (not executed) | Trunks.RenameRefusedWithoutClash | Trunks.TrunksService.Update |
