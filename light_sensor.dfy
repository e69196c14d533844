/** The LightSensor driver object: its fields are updated in place by
    enable, setInitialState and readEvents, each proved against the
    specification functions of LightEvents. */
module LightSensorDriver {
  import opened LuxTable
  import opened LightEvents

  class LightSensor {
    /** mEnabled: 0 or 1. */
    var enabled: int
    /** Whether the control device (SensorBase's dev_fd) is open. */
    var deviceOpen: bool
    /** mInputReader: every event it has buffered, and the next one to read. */
    var stream: seq<InputEvent>
    var cursor: nat
    /** mPendingEvent: the event being staged and, when flagged, pending. */
    var pending: SensorEvent
    /** mHasPendingEvent. */
    var hasPending: bool

    /** The object's fields as a value. */
    function State(): SensorState
      reads this
    {
      SensorState(enabled, deviceOpen, stream, cursor, pending, hasPending)
    }

    ghost predicate Valid()
      reads this
    {
      State().Valid()
    }

    /** The constructor: the driver starts disabled with nothing pending and
        then enables itself; `timer` and `absinfo` are the outcomes of the
        ioctls that this first enable issues. */
    constructor (timer: int, absinfo: Option<int>)
      ensures Valid()
      ensures State() == EnableSpec(Initial, 1, timer, absinfo).next
    {
      enabled, deviceOpen := 0, false;
      stream, cursor := [], 0;
      pending, hasPending := SensorEvent(0, 0), false;
      new;
      var _ := Enable(0, 1, timer, absinfo);
    }

    /** The destructor: a driver still enabled disables itself; `timer` is
        what the cancel ioctl returns. */
    method Dispose(timer: int)
      requires Valid()
      modifies this
      ensures Valid()
      ensures State() == EnableSpec(old(State()), 0, timer, None).next
      ensures enabled == 0 && !deviceOpen
    {
      if enabled != 0 {
        var _ := Enable(0, 0, timer, None);
      }
    }

    /** setInitialState: `absinfo` is the outcome of the axis query, the
        reading when it succeeds. */
    method SetInitialState(absinfo: Option<int>) returns (r: int)
      modifies this
      ensures r == 0
      ensures State() == AfterInitialState(old(State()), absinfo)
    {
      if absinfo.Some? {
        pending := pending.(light := absinfo.value);
        hasPending := true;
      }
      return 0;
    }

    /** enable: `handle` is ignored; `timer` is what the polling-timer ioctl
        returns and `absinfo` the outcome of setInitialState's query. */
    method Enable(handle: int, en: int, timer: int, absinfo: Option<int>) returns (err: int)
      requires Valid()
      modifies this
      ensures Valid()
      ensures EnableOutcome(err, State()) == EnableSpec(old(State()), en, timer, absinfo)
    {
      var newState := if en != 0 then 1 else 0;
      err := 0;
      if newState != enabled {
        if enabled == 0 {
          deviceOpen := true;
        }
        enabled := newState;
        if en != 0 {
          err := timer;
          var _ := SetInitialState(absinfo);
        } else {
          err := timer;
        }
        if enabled == 0 {
          deviceOpen := false;
        }
      }
    }

    /** hasPendingEvents: true exactly when a one-slot readEvents delivers
        an event even though the input device has nothing to read. */
    function HasPendingEvents(): (r: bool)
      reads this
      requires Valid()
      ensures r <==> ReadSpec(State(), 1, 0, FillFailed(-EAGAIN)).result == 1
    {
      hasPending
    }

    /** readEvents: writes up to `count` events to `data` from index 0 and
        returns how many, or a negative error. `now` is the clock reading
        for a pending event and `fill` the outcome of the reader's fill. */
    method ReadEvents(data: array<SensorEvent>, count: int, now: int, fill: Fill) returns (r: int)
      requires Valid()
      requires count <= data.Length
      requires fill.FillFailed? ==> fill.code < 0
      modifies this, data
      ensures Valid()
      ensures var o := ReadSpec(old(State()), count, now, fill);
        && r == o.result
        && State() == o.next
        && data[..|o.out|] == o.out
        && data[|o.out|..] == old(data[|o.out|..])
    {
      if count < 1 {
        return -EINVAL;
      }
      if hasPending {
        hasPending := false;
        pending := pending.(timestamp := now);
        data[0] := pending;
        return 1;
      }
      if fill.FillFailed? {
        return fill.code;
      }
      stream := stream + fill.arrived;
      r := Drain(data, count);
    }

    /** readEvents' loop: while slots and buffered events remain, a light
        event stages its converted reading, a sync event stamps the staged
        event and writes it to the next slot, anything else is skipped; the
        reader moves past every event looked at. */
    method Drain(data: array<SensorEvent>, count: int) returns (numEventReceived: int)
      requires 1 <= count <= data.Length
      requires cursor <= |stream|
      modifies this`cursor, this`pending, data
      ensures var c := Consume(old(stream[cursor..]), count, old(pending));
        && numEventReceived == |c.out|
        && cursor == old(cursor) + c.used
        && pending == c.staged
        && data[..numEventReceived] == c.out
        && data[numEventReceived..] == old(data[numEventReceived..])
    {
      // The reader's position and the staged event are worked on in locals
      // and stored back once the loop ends.
      var events, position, staged := stream, cursor, pending;
      ghost var all := Consume(events[position..], count, staged);
      var left := count;
      numEventReceived := 0;
      while left > 0 && position < |events|
        modifies data
        invariant 0 <= left <= count && numEventReceived == count - left
        invariant RunAt(all, events, old(cursor), position, left, staged, numEventReceived)
        invariant forall i :: 0 <= i < data.Length ==>
          data[i] == if i < numEventReceived then all.out[i] else old(data[i])
        decreases |events| - position
      {
        var event := events[position];
        RunAtAdvance(all, events, old(cursor), position, left, staged, numEventReceived);
        if event.kind == EV_ABS {
          if event.code == EVENT_TYPE_LIGHT {
            var lux := IndexToValue(ToSizeT(event.value));
            staged := staged.(light := lux);
          }
        } else if event.kind == EV_SYN {
          staged := staged.(timestamp := event.time);
          data[numEventReceived] := staged;
          left := left - 1;
          numEventReceived := numEventReceived + 1;
        }
        position := position + 1;
      }
      RunAtEnd(all, events, old(cursor), position, left, staged, numEventReceived);
      assert data[..numEventReceived] == all.out;
      cursor, pending := position, staged;
    }
  }
}
