/** The light sensor's events and state as values, and the specification of
    what LightSensor::enable, setInitialState and readEvents do to them. */
module LightEvents {
  import opened LuxTable

  datatype Option<T> = None | Some(value: T)

  /** Event types of the Linux input layer. */
  const EV_SYN: int := 0x00
  const EV_ABS: int := 0x03
  /** The absolute axis the light driver reports on (ABS_MISC). */
  const EVENT_TYPE_LIGHT: int := 0x28
  /** errno values the driver returns negated. */
  const EINVAL: int := 22
  const EAGAIN: int := 11

  /** An input event as the kernel delivers it; `time` is the event's
      timestamp already converted to nanoseconds. */
  datatype InputEvent = InputEvent(time: int, kind: int, code: int, value: int)

  /** The part of a sensor event the driver fills in: the lux level and the
      timestamp (version, sensor id and type are fixed at construction). */
  datatype SensorEvent = SensorEvent(light: int, timestamp: int)

  /** The outcome of the input reader's fill: a negative error, or the
      events it read from the device. */
  datatype Fill = FillFailed(code: int) | Filled(arrived: seq<InputEvent>)

  /** The driver's state. `stream` is every event the input reader has
      buffered, `cursor` the position of the next one to read. */
  datatype SensorState = SensorState(
    enabled: int,
    deviceOpen: bool,
    stream: seq<InputEvent>,
    cursor: nat,
    pending: SensorEvent,
    hasPending: bool)
  {
    /** The enable flag is 0 or 1, the control device is open exactly while
        enabled, and the cursor stays inside the buffered stream. */
    predicate Valid() {
      && (enabled == 0 || enabled == 1)
      && deviceOpen == (enabled == 1)
      && cursor <= |stream|
    }
  }

  /** The state of a freshly constructed driver, before it enables itself. */
  const Initial: SensorState :=
    SensorState(0, false, [], 0, SensorEvent(0, 0), false)

  // ---------------------------------------------------------------- enable

  /** setInitialState: when the axis query succeeds (`absinfo` holds its
      value) the reading becomes the pending event's light value, as read
      and without conversion, and an event is pending. */
  function AfterInitialState(s: SensorState, absinfo: Option<int>): (t: SensorState)
    ensures t.enabled == s.enabled && t.deviceOpen == s.deviceOpen
    ensures t.stream == s.stream && t.cursor == s.cursor
    ensures t.pending.timestamp == s.pending.timestamp
    ensures t.hasPending == (s.hasPending || absinfo.Some?)
    ensures absinfo.Some? ==> t.pending.light == absinfo.value
    ensures absinfo.None? ==> t == s
  {
    match absinfo
    case None => s
    case Some(v) => s.(pending := s.pending.(light := v), hasPending := true)
  }

  datatype EnableOutcome = EnableOutcome(err: int, next: SensorState)

  /** The enable flag that `en` asks for: any non-zero value means on. */
  function Requested(en: int): (r: int)
    ensures r == 0 || r == 1
    ensures r == 1 <==> en != 0
  {
    if en != 0 then 1 else 0
  }

  /** enable: `timer` is what the polling-timer ioctl returns (arming it
      when switching on, cancelling it when switching off) and `absinfo` the
      outcome of the axis query made by setInitialState. */
  function EnableSpec(s: SensorState, en: int, timer: int, absinfo: Option<int>): (o: EnableOutcome)
    requires s.Valid()
    ensures o.next.Valid()
    ensures o.next.enabled == Requested(en)
    ensures o.next.stream == s.stream && o.next.cursor == s.cursor
  {
    var newState := Requested(en);
    if newState == s.enabled then
      EnableOutcome(0, s)
    else if newState == 1 then
      EnableOutcome(timer, AfterInitialState(s.(enabled := 1, deviceOpen := true), absinfo))
    else
      EnableOutcome(timer, s.(enabled := 0, deviceOpen := false))
  }

  /** Asking for the state the driver is already in does nothing and
      succeeds. */
  lemma EnableUnchangedIsNoOp(s: SensorState, en: int, timer: int, absinfo: Option<int>)
    requires s.Valid()
    requires Requested(en) == s.enabled
    ensures EnableSpec(s, en, timer, absinfo) == EnableOutcome(0, s)
  {
  }

  /** Every non-zero argument behaves like 1. */
  lemma EnableNormalises(s: SensorState, en: int, timer: int, absinfo: Option<int>)
    requires s.Valid()
    requires en != 0
    ensures EnableSpec(s, en, timer, absinfo) == EnableSpec(s, 1, timer, absinfo)
  {
  }

  /** Switching on opens the control device, reports the timer ioctl's
      result and makes the initial reading pending when the query succeeds;
      switching off closes the device, reports the cancel ioctl's result and
      leaves the pending event alone. */
  lemma EnableEdges(s: SensorState, en: int, timer: int, absinfo: Option<int>)
    requires s.Valid()
    requires Requested(en) != s.enabled
    ensures var o := EnableSpec(s, en, timer, absinfo);
      && o.err == timer
      && (en != 0 ==> !s.deviceOpen && o.next.deviceOpen
                      && o.next == AfterInitialState(s.(enabled := 1, deviceOpen := true), absinfo))
      && (en == 0 ==> s.deviceOpen && !o.next.deviceOpen
                      && o.next.pending == s.pending && o.next.hasPending == s.hasPending)
  {
  }

  /** Repeating an enable call with the same argument changes nothing and
      issues no ioctl, whatever the device would answer. */
  lemma EnableIdempotent(s: SensorState, en: int, timer1: int, absinfo1: Option<int>,
                         timer2: int, absinfo2: Option<int>)
    requires s.Valid()
    ensures var first := EnableSpec(s, en, timer1, absinfo1);
      EnableSpec(first.next, en, timer2, absinfo2) == EnableOutcome(0, first.next)
  {
  }

  // ---------------------------------------------------------- readEvents

  /** The staged event after one input event: a light reading replaces its
      lux level, a sync stamps it with the event's time, anything else
      leaves it alone. */
  function Stage(staged: SensorEvent, e: InputEvent): (t: SensorEvent)
    ensures e.kind != EV_SYN ==> t.timestamp == staged.timestamp
    ensures e.kind == EV_SYN ==> t == staged.(timestamp := e.time)
    ensures !(e.kind == EV_ABS && e.code == EVENT_TYPE_LIGHT) ==> t.light == staged.light
    ensures e.kind == EV_ABS && e.code == EVENT_TYPE_LIGHT ==> IsLuxLevel(t.light)
  {
    if e.kind == EV_ABS then
      if e.code == EVENT_TYPE_LIGHT then staged.(light := LuxLevel(ToSizeT(e.value))) else staged
    else if e.kind == EV_SYN then
      staged.(timestamp := e.time)
    else
      staged
  }

  /** The number of sync events in a stream. */
  function SyncCount(events: seq<InputEvent>): (n: nat)
    ensures n <= |events|
  {
    if events == [] then 0
    else (if events[0].kind == EV_SYN then 1 else 0) + SyncCount(events[1..])
  }

  /** The times of the sync events in a stream, in order. */
  function SyncTimes(events: seq<InputEvent>): seq<int> {
    if events == [] then []
    else (if events[0].kind == EV_SYN then [events[0].time] else []) + SyncTimes(events[1..])
  }

  /** The timestamps of a sequence of sensor events. */
  function Timestamps(out: seq<SensorEvent>): seq<int> {
    if out == [] then [] else [out[0].timestamp] + Timestamps(out[1..])
  }

  /** Reference semantics without an output limit: every sensor event that
      processing the whole stream emits, one per sync event. */
  function Emitted(events: seq<InputEvent>, staged: SensorEvent): seq<SensorEvent> {
    if events == [] then []
    else
      var next := Stage(staged, events[0]);
      (if events[0].kind == EV_SYN then [next] else []) + Emitted(events[1..], next)
  }

  /** Reference semantics without an output limit: the staged event after
      processing the whole stream. */
  function StagedAfter(events: seq<InputEvent>, staged: SensorEvent): SensorEvent {
    if events == [] then staged else StagedAfter(events[1..], Stage(staged, events[0]))
  }

  datatype Consumed = Consumed(out: seq<SensorEvent>, used: nat, staged: SensorEvent)

  /** readEvents' loop: process events while output slots and events
      remain; `used` is how many events it went past. */
  function Consume(events: seq<InputEvent>, slots: nat, staged: SensorEvent): (c: Consumed)
    ensures c.used <= |events|
    ensures |c.out| <= slots
    ensures c.used < |events| ==> |c.out| == slots
    ensures slots > 0 ==> c.used > 0 || events == []
  {
    if slots == 0 || events == [] then Consumed([], 0, staged)
    else
      var next := Stage(staged, events[0]);
      if events[0].kind == EV_SYN then
        var rest := Consume(events[1..], slots - 1, next);
        Consumed([next] + rest.out, rest.used + 1, rest.staged)
      else
        var rest := Consume(events[1..], slots, next);
        Consumed(rest.out, rest.used + 1, rest.staged)
  }

  /** One turn of readEvents' loop: the first event is staged, a sync event
      emits the staged event into one slot, and the loop goes on with the
      rest. */
  lemma ConsumeUnfold(events: seq<InputEvent>, slots: nat, staged: SensorEvent)
    requires slots > 0 && events != []
    ensures var next := Stage(staged, events[0]);
      var sync := events[0].kind == EV_SYN;
      var rest := Consume(events[1..], if sync then slots - 1 else slots, next);
      var c := Consume(events, slots, staged);
      && c.out == (if sync then [next] else []) + rest.out
      && c.used == rest.used + 1
      && c.staged == rest.staged
  {
  }

  /** Halfway through readEvents' loop: the run over `events` from `start`
      that produces `all` is at `position` with `slots` slots left, has
      emitted the first `received` events of `all.out`, and what remains to
      be done is the loop's run from `position`. */
  ghost predicate RunAt(all: Consumed, events: seq<InputEvent>, start: nat, position: nat,
                        slots: nat, staged: SensorEvent, received: nat)
  {
    && start <= position <= |events|
    && received <= |all.out|
    && var rest := Consume(events[position..], slots, staged);
    && rest.out == all.out[received..]
    && all.used == position - start + rest.used
    && all.staged == rest.staged
  }

  /** One turn of the loop keeps RunAt, and a sync event writes the next
      event of `all.out`. */
  lemma RunAtAdvance(all: Consumed, events: seq<InputEvent>, start: nat, position: nat,
                     slots: nat, staged: SensorEvent, received: nat)
    requires RunAt(all, events, start, position, slots, staged, received)
    requires position < |events| && slots > 0
    ensures var next := Stage(staged, events[position]);
      var sync := events[position].kind == EV_SYN;
      && (sync ==> received < |all.out| && all.out[received] == next)
      && RunAt(all, events, start, position + 1, if sync then slots - 1 else slots, next,
               if sync then received + 1 else received)
  {
    var todo := events[position..];
    assert todo[0] == events[position] && todo[1..] == events[position + 1..];
    ConsumeUnfold(todo, slots, staged);
    if events[position].kind == EV_SYN {
      assert all.out[received + 1..] == all.out[received..][1..];
    }
  }

  /** Once the loop stops, it has emitted all of `all.out`. */
  lemma RunAtEnd(all: Consumed, events: seq<InputEvent>, start: nat, position: nat,
                 slots: nat, staged: SensorEvent, received: nat)
    requires RunAt(all, events, start, position, slots, staged, received)
    requires slots == 0 || position == |events|
    ensures received == |all.out| && all.used == position - start && all.staged == staged
  {
  }

  /** The loop does exactly what processing the events it went past does
      without a limit, and it stops early only right after the sync event
      that filled the last slot. */
  lemma {:induction false} ConsumeIsPrefixRun(events: seq<InputEvent>, slots: nat, staged: SensorEvent)
    ensures var c := Consume(events, slots, staged);
      && c.out == Emitted(events[..c.used], staged)
      && c.staged == StagedAfter(events[..c.used], staged)
      && (0 < c.used < |events| ==> events[c.used - 1].kind == EV_SYN)
  {
    if slots > 0 && events != [] {
      var c := Consume(events, slots, staged);
      var next := Stage(staged, events[0]);
      var n := if events[0].kind == EV_SYN then slots - 1 else slots;
      ConsumeIsPrefixRun(events[1..], n, next);
      var rest := Consume(events[1..], n, next);
      assert c.used == rest.used + 1;
      assert events[..c.used][1..] == events[1..][..rest.used];
      assert events[..c.used][0] == events[0];
    }
  }

  /** One sensor event per sync event. */
  lemma {:induction false} EmittedCount(events: seq<InputEvent>, staged: SensorEvent)
    ensures |Emitted(events, staged)| == SyncCount(events)
  {
    if events != [] {
      EmittedCount(events[1..], Stage(staged, events[0]));
    }
  }

  lemma {:induction false} TimestampsAppend(a: seq<SensorEvent>, b: seq<SensorEvent>)
    ensures Timestamps(a + b) == Timestamps(a) + Timestamps(b)
  {
    if a != [] {
      assert (a + b)[1..] == a[1..] + b;
      TimestampsAppend(a[1..], b);
    } else {
      assert a + b == b;
    }
  }

  /** Each emitted event carries the time of the sync event that emitted it. */
  lemma {:induction false} EmittedTimestamps(events: seq<InputEvent>, staged: SensorEvent)
    ensures Timestamps(Emitted(events, staged)) == SyncTimes(events)
  {
    if events != [] {
      var next := Stage(staged, events[0]);
      EmittedTimestamps(events[1..], next);
      TimestampsAppend(if events[0].kind == EV_SYN then [next] else [], Emitted(events[1..], next));
    }
  }

  /** Each emitted light value is a table level, unless no light event came
      before it, in which case it is the light value staged at the start. */
  lemma {:induction false} EmittedLights(events: seq<InputEvent>, staged: SensorEvent, i: nat)
    requires i < |Emitted(events, staged)|
    ensures var l := Emitted(events, staged)[i].light; l == staged.light || IsLuxLevel(l)
  {
    var next := Stage(staged, events[0]);
    var head := if events[0].kind == EV_SYN then [next] else [];
    if i >= |head| {
      EmittedLights(events[1..], next, i - |head|);
    }
  }

  datatype ReadOutcome = ReadOutcome(result: int, out: seq<SensorEvent>, next: SensorState)

  /** readEvents with room for `count` events; `now` is the clock reading
      used to stamp a pending event and `fill` the reader's fill outcome. */
  function ReadSpec(s: SensorState, count: int, now: int, fill: Fill): (o: ReadOutcome)
    requires s.Valid()
    requires fill.FillFailed? ==> fill.code < 0
    ensures o.next.Valid()
    ensures |o.out| <= if count < 1 then 0 else count
    ensures o.result >= 0 ==> o.result == |o.out|
    ensures o.result < 0 ==> o.out == [] && o.next == s
    ensures o.next.enabled == s.enabled && o.next.deviceOpen == s.deviceOpen
  {
    if count < 1 then
      ReadOutcome(-EINVAL, [], s)
    else if s.hasPending then
      var ev := s.pending.(timestamp := now);
      ReadOutcome(1, [ev], s.(pending := ev, hasPending := false))
    else
      match fill
      case FillFailed(code) => ReadOutcome(code, [], s)
      case Filled(arrived) =>
        var stream := s.stream + arrived;
        var c := Consume(stream[s.cursor..], count, s.pending);
        ReadOutcome(|c.out|, c.out, s.(stream := stream, cursor := s.cursor + c.used, pending := c.staged))
  }

  /** A request for fewer than one event is refused with -EINVAL and
      changes nothing. */
  lemma ReadRejectsEmptyRequest(s: SensorState, count: int, now: int, fill: Fill)
    requires s.Valid()
    requires fill.FillFailed? ==> fill.code < 0
    requires count < 1
    ensures ReadSpec(s, count, now, fill) == ReadOutcome(-EINVAL, [], s)
  {
  }

  /** A pending event is delivered alone, stamped with the current time,
      before the input device is looked at. */
  lemma ReadServesPendingFirst(s: SensorState, count: int, now: int, fill: Fill)
    requires s.Valid()
    requires fill.FillFailed? ==> fill.code < 0
    requires s.hasPending && count >= 1
    ensures var o := ReadSpec(s, count, now, fill);
      && o.result == 1
      && o.out == [s.pending.(timestamp := now)]
      && !o.next.hasPending
      && o.next.stream == s.stream && o.next.cursor == s.cursor
  {
  }

  /** A failing fill is passed through as the result and changes nothing. */
  lemma ReadPassesFillError(s: SensorState, count: int, now: int, code: int)
    requires s.Valid()
    requires code < 0
    requires !s.hasPending && count >= 1
    ensures ReadSpec(s, count, now, FillFailed(code)) == ReadOutcome(code, [], s)
  {
  }

  /** Without a pending event, readEvents appends what the reader read,
      goes past a prefix of the unread events and returns the number of
      sync events in it; that prefix is all of them or ends with the sync
      event that filled the last slot. What it emits and stages is what
      processing that prefix emits and stages. */
  lemma ReadCountsSyncs(s: SensorState, count: int, now: int, arrived: seq<InputEvent>)
    requires s.Valid()
    requires !s.hasPending && count >= 1
    ensures var o := ReadSpec(s, count, now, Filled(arrived));
      var unread := (s.stream + arrived)[s.cursor..];
      var done := o.next.cursor - s.cursor;
      && 0 <= o.result <= count
      && o.next.stream == s.stream + arrived
      && 0 <= done <= |unread|
      && o.result == SyncCount(unread[..done])
      && o.out == Emitted(unread[..done], s.pending)
      && o.next.pending == StagedAfter(unread[..done], s.pending)
      && Timestamps(o.out) == SyncTimes(unread[..done])
      && (done == |unread| || (o.result == count && unread[done - 1].kind == EV_SYN))
      && !o.next.hasPending
  {
    var unread := (s.stream + arrived)[s.cursor..];
    var c := Consume(unread, count, s.pending);
    var o := ReadSpec(s, count, now, Filled(arrived));
    assert o == ReadOutcome(|c.out|, c.out,
      s.(stream := s.stream + arrived, cursor := s.cursor + c.used, pending := c.staged));
    ConsumeIsPrefixRun(unread, count, s.pending);
    EmittedCount(unread[..c.used], s.pending);
    EmittedTimestamps(unread[..c.used], s.pending);
  }

  /** With more room than there are sync events waiting, readEvents reads
      the reader dry. */
  lemma ReadDrainsWhenRoomy(s: SensorState, count: int, now: int, arrived: seq<InputEvent>)
    requires s.Valid()
    requires !s.hasPending && count >= 1
    requires SyncCount((s.stream + arrived)[s.cursor..]) < count
    ensures ReadSpec(s, count, now, Filled(arrived)).next.cursor == |s.stream + arrived|
  {
    var unread := (s.stream + arrived)[s.cursor..];
    var c := Consume(unread, count, s.pending);
    ReadCountsSyncs(s, count, now, arrived);
    if c.used < |unread| {
      SyncCountPrefix(unread, c.used);
      assert false;
    }
  }

  /** A prefix holds no more sync events than the whole stream. */
  lemma {:induction false} SyncCountPrefix(events: seq<InputEvent>, k: nat)
    requires k <= |events|
    ensures SyncCount(events[..k]) <= SyncCount(events)
  {
    if k > 0 {
      assert events[..k][1..] == events[1..][..k - 1];
      SyncCountPrefix(events[1..], k - 1);
    }
  }

  /** Every light value readEvents reports comes from the table, except one
      taken over unchanged from the state it started in (the pending event,
      or the light value staged by earlier calls or by setInitialState). */
  lemma ReadReportsTableLevels(s: SensorState, count: int, now: int, fill: Fill, i: nat)
    requires s.Valid()
    requires fill.FillFailed? ==> fill.code < 0
    requires i < |ReadSpec(s, count, now, fill).out|
    ensures var l := ReadSpec(s, count, now, fill).out[i].light;
      l == s.pending.light || IsLuxLevel(l)
  {
    if !s.hasPending && fill.Filled? {
      ReadCountsSyncs(s, count, now, fill.arrived);
      var o := ReadSpec(s, count, now, fill);
      var unread := (s.stream + fill.arrived)[s.cursor..];
      EmittedLights(unread[..o.next.cursor - s.cursor], s.pending, i);
    }
  }

  /** The first event after switching on reports the axis query's reading
      as it is: setInitialState does not pass it through the table, unlike
      the light events readEvents converts. */
  lemma FirstReadingIsUnconverted(s: SensorState, timer: int, v: int, count: int, now: int, fill: Fill)
    requires s.Valid() && s.enabled == 0
    requires fill.FillFailed? ==> fill.code < 0
    requires count >= 1
    ensures var on := EnableSpec(s, 1, timer, Some(v)).next;
      ReadSpec(on, count, now, fill).out == [SensorEvent(v, now)]
  {
  }

  /** So a mid-range reading such as 500 is reported as 500, which is not a
      level of the table (that reading converts to 160). */
  lemma UnconvertedReadingIsNoLevel()
    ensures !IsLuxLevel(500) && LuxLevel(500) == 160
  {
    LuxLevelSteps(500);
  }
}
