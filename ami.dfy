/**
 * The Asterisk Manager Interface supervisor of the Nest backend: whether the
 * manager session is up, how many reconnects have been tried, the one pending
 * reconnect timer, and the gate that refuses every action while the session
 * is down.
 *
 * The manager library itself (the socket, its own `keepConnected` retries,
 * matching responses to actions) is outside the model: an event it raises is
 * a method call here, and the answer it gives to an action is a parameter.
 * Timers are not run; the supervisor records the delay it asked for.
 */
module Ami {
  import opened Records

  const MaxReconnectAttempts: nat := 10

  /** `Math.pow(2, n)` on naturals. */
  function Pow2(n: nat): (r: nat)
    ensures r >= 1
  {
    if n == 0 then 1 else 2 * Pow2(n - 1)
  }

  lemma {:induction false} Pow2Monotone(m: nat, n: nat)
    requires m <= n
    ensures Pow2(m) <= Pow2(n)
    decreases n
  {
    if m < n {
      Pow2Monotone(m, n - 1);
    }
  }

  /** `Math.min(30000, Math.pow(2, n) * 1000)` milliseconds. */
  function BackoffDelay(n: nat): (d: nat)
    ensures d <= 30000
    ensures 1 <= n ==> 2000 <= d
  {
    if n == 0 then 1000
    else
      Pow2Monotone(1, n);
      if Pow2(n) * 1000 < 30000 then Pow2(n) * 1000 else 30000
  }

  /** The delays of the first attempts double from 2 s; from the fifth on they are capped at 30 s. */
  lemma BackoffSchedule(n: nat)
    ensures BackoffDelay(1) == 2000 && BackoffDelay(2) == 4000
    ensures BackoffDelay(3) == 8000 && BackoffDelay(4) == 16000
    ensures 5 <= n ==> BackoffDelay(n) == 30000
  {
    assert Pow2(5) == 32;
    if 5 <= n {
      Pow2Monotone(5, n);
    }
  }

  /** Later attempts never wait less. */
  lemma BackoffMonotone(m: nat, n: nat)
    requires m <= n
    ensures BackoffDelay(m) <= BackoffDelay(n)
  {
    Pow2Monotone(m, n);
  }

  /** A value of an action field: AMI fields are text, `Priority` is a number. */
  datatype Value = Str(s: string) | Num(n: int)

  /** The field map handed to the manager library's `action`. */
  type ActionParams = map<string, Value>

  /** The fields of a manager response, as the library parsed them. */
  type Response = map<string, string>

  function CommandAction(command: string): ActionParams
  {
    map["Action" := Str("Command"), "Command" := Str(command)]
  }

  function CoreStatusAction(): ActionParams { map["Action" := Str("CoreStatus")] }

  function CoreShowChannelsAction(): ActionParams { map["Action" := Str("CoreShowChannels")] }

  function ExtensionStateAction(extension: string): ActionParams
  {
    map["Action" := Str("ExtensionState"), "Exten" := Str(extension), "Context" := Str("internal")]
  }

  function HangupAction(channel: string): ActionParams
  {
    map["Action" := Str("Hangup"), "Channel" := Str(channel)]
  }

  function SipPeersAction(): ActionParams { map["Action" := Str("SIPpeers")] }

  /** The `Reload` action: `Module` is sent only for a non-empty module name. */
  function ReloadAction(moduleName: string): (a: ActionParams)
    ensures "Action" in a && a["Action"] == Str("Reload")
    ensures "Module" in a <==> moduleName != ""
    ensures "Module" in a ==> a["Module"] == Str(moduleName)
    ensures forall k :: k in a ==> k == "Action" || k == "Module"
  {
    if moduleName != "" then map["Action" := Str("Reload"), "Module" := Str(moduleName)]
    else map["Action" := Str("Reload")]
  }

  /** The key under which an originated call's channel variable is sent. */
  function VarKey(name: string): string { "Variable: " + name }

  /** A key that is a variable key. */
  predicate IsVarKey(key: string) { |key| >= 10 && key[..10] == "Variable: " }

  lemma VarKeyFacts(name: string)
    ensures IsVarKey(VarKey(name)) && VarKey(name)[10..] == name
  {
  }

  /** The keys of an Originate action other than the variable keys. */
  const OriginateFixedKeys: set<string> :=
    {"Action", "Channel", "Exten", "Context", "Priority", "Async", "CallerID"}

  lemma FixedKeysAreNotVarKeys()
    ensures forall k :: k in OriginateFixedKeys ==> !IsVarKey(k)
  {
  }

  /**
   * The fixed part of an Originate action. `context` and `priority` take
   * their defaults only when they are not given at all; the caller ID is
   * sent only when it is non-empty.
   */
  function OriginateBase(channel: string, extension: string, context: Option<string>,
                         priority: Option<int>, callerid: string): ActionParams
  {
    var base := map[
      "Action" := Str("Originate"),
      "Channel" := Str(channel),
      "Exten" := Str(extension),
      "Context" := Str(if context.Some? then context.value else "internal"),
      "Priority" := Num(if priority.Some? then priority.value else 1),
      "Async" := Str("true")];
    if callerid != "" then base["CallerID" := Str(callerid)] else base
  }

  /** The Originate field map, one `Variable: name` entry per channel variable. */
  method OriginateAction(channel: string, extension: string, context: Option<string>,
                         priority: Option<int>, variables: map<string, string>, callerid: string)
    returns (a: ActionParams)
    ensures "Action" in a && a["Action"] == Str("Originate")
    ensures "Context" in a && a["Context"] == Str(if context.Some? then context.value else "internal")
    ensures "Priority" in a && a["Priority"] == Num(if priority.Some? then priority.value else 1)
    ensures "Async" in a && a["Async"] == Str("true")
    ensures "Channel" in a && a["Channel"] == Str(channel) && "Exten" in a && a["Exten"] == Str(extension)
    ensures ("CallerID" in a) <==> callerid != ""
    ensures "CallerID" in a ==> a["CallerID"] == Str(callerid)
    ensures forall name :: (VarKey(name) in a) <==> name in variables
    ensures forall name :: name in variables ==> a[VarKey(name)] == Str(variables[name])
    ensures forall k :: k in a ==> k in OriginateFixedKeys || (IsVarKey(k) && k[10..] in variables)
  {
    var base := OriginateBase(channel, extension, context, priority, callerid);
    assert forall k :: k in base ==> k in OriginateFixedKeys;
    FixedKeysAreNotVarKeys();
    a := AddVariables(base, variables);
  }

  /** `actionParams[`Variable: ${key}`] = value` for every entry of `variables`. */
  method AddVariables(base: ActionParams, variables: map<string, string>) returns (a: ActionParams)
    requires forall k :: k in base ==> !IsVarKey(k)
    ensures forall k :: k in base ==> k in a && a[k] == base[k]
    ensures forall name :: (VarKey(name) in a) <==> name in variables
    ensures forall name :: name in variables ==> a[VarKey(name)] == Str(variables[name])
    ensures forall k :: k in a ==> k in base || (IsVarKey(k) && k[10..] in variables)
  {
    a := base;
    var todo := variables.Keys;
    while todo != {}
      invariant todo <= variables.Keys
      invariant forall k :: k in base ==> k in a && a[k] == base[k]
      invariant forall name :: (VarKey(name) in a) <==> name in variables && name !in todo
      invariant forall name :: name in variables && name !in todo ==> a[VarKey(name)] == Str(variables[name])
      invariant forall k :: k in a ==> k in base || (IsVarKey(k) && k[10..] in variables && k[10..] !in todo)
      decreases |todo|
    {
      var name :| name in todo;
      VarKeyFacts(name);
      a := a[VarKey(name) := Str(variables[name])];
      todo := todo - {name};
      forall k | k in a && k !in base
        ensures IsVarKey(k) && k[10..] in variables && k[10..] !in todo
      {
        if k == VarKey(name) {
          assert k[10..] == name;
        }
      }
    }
  }

  /** The actions one request hands to the library: none while the session is down. */
  function SentIf(connected: bool, action: ActionParams): seq<ActionParams>
  {
    if connected then [action] else []
  }

  /** Two requests sent one after the other extend the log by both. */
  lemma AppendTwice<T>(s: seq<T>, a: seq<T>, b: seq<T>)
    ensures s + a + b == s + (a + b)
  {
  }

  /** What awaiting one request yields: the library's answer, or the gate's refusal. */
  function Awaited(connected: bool, reply: Result<Response>): Result<Response>
  {
    if connected then reply else Err(NotConnected)
  }

  /**
   * The supervisor. `reconnectTimeout` is the handle of the last timer set
   * (here: the delay it was set with); like the handle, it is kept after the
   * timer fires and cleared only by `Disconnect`. `timerArmed` says whether
   * that timer is still due to fire; `hasManager` whether a manager client
   * was ever created; `sent` is every action handed to the library.
   */
  class AsteriskService {
    var connected: bool
    var reconnectAttempts: nat
    var reconnectTimeout: Option<nat>
    var timerArmed: bool
    var hasManager: bool
    var sent: seq<ActionParams>

    /** The supervisor's own state, which sending an action leaves alone. */
    function Session(): (bool, nat, Option<nat>, bool, bool)
      reads this
    {
      (connected, reconnectAttempts, reconnectTimeout, timerArmed, hasManager)
    }

    /** Attempts stay within the bound; an armed timer is the one the handle names. */
    predicate Valid()
      reads this
    {
      reconnectAttempts <= MaxReconnectAttempts &&
      (timerArmed ==> reconnectTimeout.Some?) &&
      (reconnectTimeout.Some? ==> 2000 <= reconnectTimeout.value <= 30000)
    }

    constructor()
      ensures Valid()
      ensures !connected && reconnectAttempts == 0 && reconnectTimeout.None? && !timerArmed
      ensures !hasManager && sent == []
    {
      connected := false;
      reconnectAttempts := 0;
      reconnectTimeout := None;
      timerArmed := false;
      hasManager := false;
      sent := [];
    }

    /**
     * Clear the old timer, then, below the attempt bound, count one more
     * attempt and set a timer with the backoff delay for it.
     */
    method ScheduleReconnect() returns (delay: Option<nat>)
      requires Valid()
      modifies this
      ensures Valid()
      ensures old(reconnectAttempts) < MaxReconnectAttempts ==>
        reconnectAttempts == old(reconnectAttempts) + 1 &&
        delay == Some(BackoffDelay(reconnectAttempts)) &&
        reconnectTimeout == delay && timerArmed
      ensures old(reconnectAttempts) >= MaxReconnectAttempts ==>
        reconnectAttempts == old(reconnectAttempts) && delay.None? &&
        reconnectTimeout == old(reconnectTimeout) && !timerArmed
      ensures connected == old(connected) && hasManager == old(hasManager) && sent == old(sent)
    {
      if reconnectTimeout.Some? {
        timerArmed := false;
      }
      if reconnectAttempts < MaxReconnectAttempts {
        reconnectAttempts := reconnectAttempts + 1;
        var d := BackoffDelay(reconnectAttempts);
        reconnectTimeout := Some(d);
        timerArmed := true;
        delay := Some(d);
      } else {
        delay := None;
      }
    }

    /**
     * Create a manager client and subscribe to its events; when creating it
     * throws (`clientThrows`), schedule a reconnect instead.
     */
    method Connect(clientThrows: bool) returns (delay: Option<nat>)
      requires Valid()
      modifies this
      ensures Valid()
      ensures !clientThrows ==>
        hasManager && delay.None? && reconnectAttempts == old(reconnectAttempts) &&
        reconnectTimeout == old(reconnectTimeout) && timerArmed == old(timerArmed)
      ensures clientThrows ==> hasManager == old(hasManager)
      ensures clientThrows && old(reconnectAttempts) < MaxReconnectAttempts ==>
        reconnectAttempts == old(reconnectAttempts) + 1 && delay == Some(BackoffDelay(reconnectAttempts))
      ensures connected == old(connected) && sent == old(sent)
    {
      if clientThrows {
        delay := ScheduleReconnect();
      } else {
        hasManager := true;
        delay := None;
      }
    }

    /** The `connect` event: the session is up and the attempt count starts over. */
    method OnConnect()
      requires Valid()
      modifies this
      ensures Valid()
      ensures connected && reconnectAttempts == 0
      ensures reconnectTimeout == old(reconnectTimeout) && timerArmed == old(timerArmed)
      ensures hasManager == old(hasManager) && sent == old(sent)
    {
      connected := true;
      reconnectAttempts := 0;
    }

    /** The `disconnect` event: the session is down and a reconnect is scheduled. */
    method OnDisconnect() returns (delay: Option<nat>)
      requires Valid()
      modifies this
      ensures Valid()
      ensures !connected
      ensures old(reconnectAttempts) < MaxReconnectAttempts ==>
        reconnectAttempts == old(reconnectAttempts) + 1 && delay == Some(BackoffDelay(reconnectAttempts)) && timerArmed
      ensures old(reconnectAttempts) >= MaxReconnectAttempts ==>
        reconnectAttempts == old(reconnectAttempts) && delay.None? && !timerArmed
      ensures hasManager == old(hasManager) && sent == old(sent)
    {
      connected := false;
      delay := ScheduleReconnect();
    }

    /** The reconnect timer fires and runs `connect()`. */
    method OnTimerFired(clientThrows: bool) returns (delay: Option<nat>)
      requires Valid() && timerArmed
      modifies this
      ensures Valid()
      ensures !clientThrows ==> hasManager && !timerArmed && reconnectAttempts == old(reconnectAttempts)
      ensures connected == old(connected) && sent == old(sent)
    {
      timerArmed := false;
      delay := Connect(clientThrows);
    }

    /** Module shutdown: clear the timer, and mark the session down if a client exists. */
    method Disconnect()
      requires Valid()
      modifies this
      ensures Valid()
      ensures reconnectTimeout.None? && !timerArmed
      ensures hasManager ==> !connected
      ensures !hasManager ==> connected == old(connected)
      ensures reconnectAttempts == old(reconnectAttempts) && hasManager == old(hasManager) && sent == old(sent)
    {
      if reconnectTimeout.Some? {
        timerArmed := false;
        reconnectTimeout := None;
      }
      if hasManager {
        connected := false;
      }
    }

    /**
     * The gate every action passes: refused with no effect while the session
     * is down, otherwise handed to the library, whose answer is `reply`.
     */
    method Perform(action: ActionParams, reply: Result<Response>) returns (r: Result<Response>)
      modifies this
      ensures !connected ==> r == Err(NotConnected) && sent == old(sent)
      ensures connected ==> r == reply && sent == old(sent) + [action]
      ensures connected == old(connected) && reconnectAttempts == old(reconnectAttempts)
      ensures reconnectTimeout == old(reconnectTimeout) && timerArmed == old(timerArmed)
      ensures hasManager == old(hasManager)
    {
      if !connected {
        r := Err(NotConnected);
      } else {
        sent := sent + [action];
        r := reply;
      }
    }

    method ExecuteCommand(command: string, reply: Result<Response>) returns (r: Result<Response>)
      modifies this
      ensures !connected ==> r == Err(NotConnected) && sent == old(sent)
      ensures connected ==> r == reply && sent == old(sent) + [CommandAction(command)]
      ensures r == Awaited(old(connected), reply) && sent == old(sent) + SentIf(old(connected), CommandAction(command))
      ensures Session() == old(Session())
    {
      r := Perform(CommandAction(command), reply);
    }

    method GetStatus(reply: Result<Response>) returns (r: Result<Response>)
      modifies this
      ensures !connected ==> r == Err(NotConnected) && sent == old(sent)
      ensures connected ==> r == reply && sent == old(sent) + [CoreStatusAction()]
      ensures connected == old(connected) && reconnectAttempts == old(reconnectAttempts)
    {
      r := Perform(CoreStatusAction(), reply);
    }

    method GetChannels(reply: Result<Response>) returns (r: Result<Response>)
      modifies this
      ensures !connected ==> r == Err(NotConnected) && sent == old(sent)
      ensures connected ==> r == reply && sent == old(sent) + [CoreShowChannelsAction()]
      ensures connected == old(connected) && reconnectAttempts == old(reconnectAttempts)
    {
      r := Perform(CoreShowChannelsAction(), reply);
    }

    method GetExtensionStatus(extension: string, reply: Result<Response>) returns (r: Result<Response>)
      modifies this
      ensures !connected ==> r == Err(NotConnected) && sent == old(sent)
      ensures connected ==> r == reply && sent == old(sent) + [ExtensionStateAction(extension)]
      ensures connected == old(connected) && reconnectAttempts == old(reconnectAttempts)
    {
      r := Perform(ExtensionStateAction(extension), reply);
    }

    /** The action map is built only once the gate has been passed. */
    method OriginateCall(channel: string, extension: string, context: Option<string>,
                         priority: Option<int>, variables: map<string, string>, callerid: string,
                         reply: Result<Response>)
      returns (r: Result<Response>)
      modifies this
      ensures !connected ==> r == Err(NotConnected) && sent == old(sent)
      ensures connected ==> r == reply && |sent| == |old(sent)| + 1 && sent[..|old(sent)|] == old(sent)
      ensures connected ==> "Action" in sent[|old(sent)|] && sent[|old(sent)|]["Action"] == Str("Originate")
      ensures connected == old(connected) && reconnectAttempts == old(reconnectAttempts)
    {
      if !connected {
        r := Err(NotConnected);
        return;
      }
      var a := OriginateAction(channel, extension, context, priority, variables, callerid);
      r := Perform(a, reply);
    }

    method HangupChannel(channel: string, reply: Result<Response>) returns (r: Result<Response>)
      modifies this
      ensures !connected ==> r == Err(NotConnected) && sent == old(sent)
      ensures connected ==> r == reply && sent == old(sent) + [HangupAction(channel)]
      ensures connected == old(connected) && reconnectAttempts == old(reconnectAttempts)
    {
      r := Perform(HangupAction(channel), reply);
    }

    method ReloadModule(moduleName: string, reply: Result<Response>) returns (r: Result<Response>)
      modifies this
      ensures !connected ==> r == Err(NotConnected) && sent == old(sent)
      ensures connected ==> r == reply && sent == old(sent) + [ReloadAction(moduleName)]
      ensures r == Awaited(old(connected), reply) && sent == old(sent) + SentIf(old(connected), ReloadAction(moduleName))
      ensures Session() == old(Session())
    {
      r := Perform(ReloadAction(moduleName), reply);
    }

    method GetActivePeers(reply: Result<Response>) returns (r: Result<Response>)
      modifies this
      ensures !connected ==> r == Err(NotConnected) && sent == old(sent)
      ensures connected ==> r == reply && sent == old(sent) + [SipPeersAction()]
      ensures connected == old(connected) && reconnectAttempts == old(reconnectAttempts)
    {
      r := Perform(SipPeersAction(), reply);
    }

    /** `sip reload` through the CLI; any failure becomes `false`. */
    method CreateSipConfig(reply: Result<Response>) returns (ok: bool)
      modifies this
      ensures ok <==> connected && reply.Ok?
      ensures !connected ==> sent == old(sent)
      ensures connected ==> sent == old(sent) + [CommandAction("sip reload")]
      ensures connected == old(connected) && reconnectAttempts == old(reconnectAttempts)
    {
      var r := ExecuteCommand("sip reload", reply);
      ok := r.Ok?;
    }
  }

  /**
   * However the events interleave, the attempt count stays within the bound
   * and every delay asked for is between 2 and 30 seconds: a run of `n`
   * disconnects in a row from a fresh service.
   */
  method DisconnectStorm(n: nat) returns (s: AsteriskService, delays: seq<nat>)
    ensures fresh(s) && s.Valid()
    ensures s.reconnectAttempts == if n <= MaxReconnectAttempts then n else MaxReconnectAttempts
    ensures |delays| == s.reconnectAttempts
    ensures forall i :: 0 <= i < |delays| ==> delays[i] == BackoffDelay(i + 1)
  {
    s := new AsteriskService();
    delays := [];
    var i := 0;
    while i < n
      invariant 0 <= i <= n && s.Valid()
      invariant s.reconnectAttempts == if i <= MaxReconnectAttempts then i else MaxReconnectAttempts
      invariant |delays| == s.reconnectAttempts
      invariant forall j :: 0 <= j < |delays| ==> delays[j] == BackoffDelay(j + 1)
    {
      var d := s.OnDisconnect();
      if d.Some? {
        delays := delays + [d.value];
      }
      i := i + 1;
    }
  }
}
