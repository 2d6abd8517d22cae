/**
 * The dashboard service of the Nest backend: the count of active calls
 * taken from the channel list Asterisk reports, the error values that
 * stand in for a failed status or channel lookup, and the entity counts.
 * The manager's replies are parameters; a lookup that throws is an `Err`.
 */
module Dashboard {
  import opened Records
  import opened Cdrs
  import opened Ami

  /** One event of a `CoreShowChannels` reply; a missing field is `None`. */
  datatype ChannelEvent = ChannelEvent(event: Option<string>, channelstate: Option<string>)

  /** The channel list reply; `events` is `None` when the reply has none. */
  datatype ChannelsReply = ChannelsReply(events: Option<seq<ChannelEvent>>)

  /** A `CoreShowChannel` event for a channel not in state 6 ("Up"); a missing state is not 6. */
  predicate IsActive(e: ChannelEvent)
  {
    e.event == Some("CoreShowChannel") && e.channelstate != Some("6")
  }

  /** The events kept by the filter, in reply order. */
  function ActiveChannels(events: seq<ChannelEvent>): (r: seq<ChannelEvent>)
    ensures |r| <= |events|
    ensures forall e :: e in r <==> e in events && IsActive(e)
  {
    if events == [] then []
    else
      var init := ActiveChannels(events[..|events| - 1]);
      var last := events[|events| - 1];
      assert events == events[..|events| - 1] + [last];
      if IsActive(last) then init + [last] else init
  }

  /** Every event is counted exactly when every event is active. */
  lemma {:induction false} AllCountedIffAllActive(events: seq<ChannelEvent>)
    ensures |ActiveChannels(events)| == |events| <==> forall i :: 0 <= i < |events| ==> IsActive(events[i])
  {
    if events != [] {
      var init := events[..|events| - 1];
      AllCountedIffAllActive(init);
      if !IsActive(events[|events| - 1]) {
        assert |ActiveChannels(events)| <= |init|;
      }
    }
  }

  /** Channels that are all up count for nothing. */
  lemma {:induction false} UpChannelsNotCounted(events: seq<ChannelEvent>)
    requires forall i :: 0 <= i < |events| ==> events[i].channelstate == Some("6")
    ensures ActiveChannels(events) == []
  {
    if events != [] {
      UpChannelsNotCounted(events[..|events| - 1]);
    }
  }

  /**
   * `getActiveCallsCount`: the number of active channels; 0 when the reply
   * has no events and when the lookup throws.
   */
  function ActiveCallsCount(reply: Result<ChannelsReply>): (n: nat)
    ensures reply.Err? || reply.value.events.None? ==> n == 0
    ensures reply.Ok? && reply.value.events.Some? ==>
      n <= |reply.value.events.value| &&
      (n == |reply.value.events.value| <==>
        forall i :: 0 <= i < |reply.value.events.value| ==> IsActive(reply.value.events.value[i]))
  {
    match reply
    case Err(_) => 0
    case Ok(channels) =>
      if channels.events.Some? then
        AllCountedIffAllActive(channels.events.value);
        |ActiveChannels(channels.events.value)|
      else 0
  }

  /** A lookup's outcome as the dashboard returns it: the reply, or an `{error}` object. */
  datatype Lookup<T> = Reported(value: T) | Unavailable(error: string)

  const StatusError := "Không thể kết nối" + " với Asterisk"
  const ChannelsError := "Không thể lấy" + " thông tin kênh"

  /** `getAsteriskStatus`: a failed status lookup becomes an error object, never a throw. */
  function StatusOrError(reply: Result<Response>): (r: Lookup<Response>)
    ensures reply.Ok? ==> r == Reported(reply.value)
    ensures reply.Err? ==> r == Unavailable(StatusError)
  {
    if reply.Ok? then Reported(reply.value) else Unavailable(StatusError)
  }

  /** `getActiveChannels`: a failed channel lookup becomes an error object, never a throw. */
  function ChannelsOrError(reply: Result<ChannelsReply>): (r: Lookup<ChannelsReply>)
    ensures reply.Ok? ==> r == Reported(reply.value)
    ensures reply.Err? ==> r == Unavailable(ChannelsError)
  {
    if reply.Ok? then Reported(reply.value) else Unavailable(ChannelsError)
  }

  /** The calls whose start is at or after `since` (`{start: {$gte: today}}`), in store order. */
  function StartedSince(xs: seq<Cdr>, since: int): (ys: seq<Cdr>)
    ensures |ys| <= |xs|
    ensures forall c :: c in ys <==> c in xs && c.start.Some? && c.start.value >= since
  {
    if xs == [] then []
    else
      var init := StartedSince(xs[..|xs| - 1], since);
      var last := xs[|xs| - 1];
      assert xs == xs[..|xs| - 1] + [last];
      if last.start.Some? && last.start.value >= since then init + [last] else init
  }

  /** Fewer calls start within a day than from its start on. */
  lemma {:induction false} TodayWithinSince(xs: seq<Cdr>, today: int, tomorrow: int)
    ensures |StartedBetween(xs, today, tomorrow)| <= |StartedSince(xs, today)|
  {
    if xs != [] {
      TodayWithinSince(xs[..|xs| - 1], today, tomorrow);
    }
  }

  datatype Counts = Counts(extensions: nat, trunks: nat, queues: nat, activeCalls: nat, cdrsToday: nat)

  /** `getCounts`, for the midnight `today` the clock gives. */
  function GetCounts(extensions: seq<Extension>, trunks: seq<Trunk>, queues: seq<Queue>,
                     channels: Result<ChannelsReply>, cdrs: seq<Cdr>, today: int): (c: Counts)
    ensures c.extensions == |extensions| && c.trunks == |trunks| && c.queues == |queues|
    ensures c.activeCalls == ActiveCallsCount(channels)
    ensures c.cdrsToday <= |cdrs|
  {
    Counts(|extensions|, |trunks|, |queues|, ActiveCallsCount(channels), |StartedSince(cdrs, today)|)
  }

  datatype DashboardData = DashboardData(status: Lookup<Response>, channels: Lookup<ChannelsReply>, counts: Counts)

  /**
   * `getDashboardData`: the status, the channel list and the counts. The
   * channel list is asked for twice, once for the list and once for the
   * count, and the two answers can differ.
   */
  function GetDashboardData(statusReply: Result<Response>, channelsReply: Result<ChannelsReply>,
                            countReply: Result<ChannelsReply>, extensions: seq<Extension>,
                            trunks: seq<Trunk>, queues: seq<Queue>, cdrs: seq<Cdr>, today: int)
    : (d: DashboardData)
    ensures d.status.Unavailable? <==> statusReply.Err?
    ensures d.channels.Unavailable? <==> channelsReply.Err?
    ensures d.counts == GetCounts(extensions, trunks, queues, countReply, cdrs, today)
  {
    DashboardData(StatusOrError(statusReply), ChannelsOrError(channelsReply),
                  GetCounts(extensions, trunks, queues, countReply, cdrs, today))
  }

  /**
   * The dashboard's count of today's records is never below the total of
   * today's calls the CDR service reports for the same day.
   */
  lemma CountsCoverTodayCalls(extensions: seq<Extension>, trunks: seq<Trunk>, queues: seq<Queue>,
                              channels: Result<ChannelsReply>, cdrs: seq<Cdr>, today: int, tomorrow: int)
    ensures GetCounts(extensions, trunks, queues, channels, cdrs, today).cdrsToday
      >= |StartedBetween(cdrs, today, tomorrow)|
  {
    TodayWithinSince(cdrs, today, tomorrow);
  }
}
