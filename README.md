# Ambient-light sensor driver: a verified Dafny model

This project models the ambient-light sensor driver of the device's sensor
library, `LightSensor` in `hardware/libsensors/LightSensor.cpp`:

- `indexToValue`, the conversion of the driver's rolling-average ADC reading
  into a lux level through a fixed eight-row table;
- `enable`, the on/off switch that opens the control device and arms the
  polling timer on the way on, and cancels the timer and closes the device on
  the way off;
- `setInitialState`, which makes the axis's current reading pending when the
  driver is switched on;
- `readEvents`, which first hands out a pending event and otherwise walks the
  input events the reader has buffered: a light event stages a converted lux
  level, a sync event stamps the staged event and writes it to the caller's
  next slot, anything else is skipped;
- `hasPendingEvents`, and the constructor and destructor, which switch the
  driver on and off.

Three modules, one per layer:

- `LuxTable` (`lux_table.dfy`): the table, the scan as a function
  (`ScanFrom`, `LuxLevel`) and as the source's loop (`IndexToValue`), and the
  properties of the resulting step function.
- `LightEvents` (`light_events.dfy`): input and sensor events, the driver's
  state as a value (`SensorState`), the specification functions `EnableSpec`,
  `AfterInitialState` and `ReadSpec` with the loop's run `Consume`, a
  reference semantics without an output limit (`Emitted`, `StagedAfter`),
  and the lemmas about them.
- `LightSensorDriver` (`light_sensor.dfy`): the class `LightSensor`, whose
  fields are the driver's (`mEnabled`, the input reader, `mPendingEvent`,
  `mHasPendingEvent`, plus whether the control device is open). Each method
  updates them in place and is proved to produce exactly the state, result
  and output array that the specification functions give.

How the environment is represented:

- The device's answers are parameters. For `enable`, they are the result of
  the polling-timer ioctl and the outcome of the axis query (`Some(value)`
  when the query succeeds). For `readEvents`, they are the clock reading
  (`getTimestamp`) and the outcome of the reader's `fill`: a negative error,
  or the events it read.
- The input reader is the sequence of every event it has buffered, with a
  cursor at the next one to read; `fill` appends to it.
- The caller's output buffer is an `array` written from index 0.
- Lux levels are `int`: every entry of the table is a whole number.
- The event value handed to `indexToValue` becomes a `size_t`. On the
  driver's 32-bit target that is the value modulo 2^32, so a negative reading
  reports the brightest level (`NegativeReadingSaturates`).

Two things the code does differently from what its comments and its
neighbouring code suggest are modelled as the code does them:

- The table's comments give closed ranges ("0 - 150" maps to 10 lux). The
  code tests `index < adc_value`, so each threshold belongs to the next row:
  150 reports 160, 800 reports 225 (`LuxLevelSteps`).
- `setInitialState` stores the axis's reading as it is, while `readEvents`
  converts every later reading through the table. So the first event after
  switching on carries a raw ADC value (`FirstReadingIsUnconverted`,
  `UnconvertedReadingIsNoLevel`).

## Model

| member | source | states |
|---|---|---|
| `LuxTable.ToSizeT` | hardware/libsensors/LightSensor.cpp:120 | the signed event value passed as `size_t` is kept when non-negative and wraps by 2^32 when negative |
| `LuxTable.ScanFrom` | hardware/libsensors/LightSensor.cpp:155-160 | a scan from row k returns a lux level of the table, at least row k's and at most the last row's |
| `LuxTable.LuxLevel` | hardware/libsensors/LightSensor.cpp:138-161 | every reading converts to one of the table's eight levels, between 10 and 10240 lux |
| `LuxTable.IndexToValue` | hardware/libsensors/LightSensor.cpp:138-161 | the loop with its early return yields exactly the table scan's level |
| `LuxTable.LuxLevelIsFirstRowAbove` | hardware/libsensors/LightSensor.cpp:155-158 | the result is the lux of the first row whose threshold is strictly greater than the reading |
| `LuxTable.LuxLevelBeyondTable` | hardware/libsensors/LightSensor.cpp:159-160 | readings of 4095 and above fall through to the last row, 10240 lux |
| `LuxTable.LuxLevelSteps` | hardware/libsensors/LightSensor.cpp:144-160 | the conversion is the step function below 150 → 10, below 800 → 160, …, from 1600 → 10240, a threshold itself belonging to the next row |
| `LuxTable.LuxLevelMonotone` | hardware/libsensors/LightSensor.cpp:144-160 | a larger reading never reports a smaller lux level |
| `LuxTable.NegativeReadingSaturates` | hardware/libsensors/LightSensor.cpp:120 | a negative 32-bit event value reports 10240 lux |
| `LightEvents.AfterInitialState` | hardware/libsensors/LightSensor.cpp:54-61 | a successful axis query makes its reading the pending light value and flags an event pending; a failed one changes nothing |
| `LightEvents.Requested` | hardware/libsensors/LightSensor.cpp:64 | the requested state is 1 exactly when the argument is non-zero, else 0 |
| `LightEvents.EnableSpec` | hardware/libsensors/LightSensor.cpp:63-90 | enable leaves the enable flag at the requested 0/1, keeps the device open exactly while enabled and never touches the input reader |
| `LightEvents.EnableUnchangedIsNoOp` | hardware/libsensors/LightSensor.cpp:66-89 | requesting the current state changes nothing and returns 0 |
| `LightEvents.EnableNormalises` | hardware/libsensors/LightSensor.cpp:64 | every non-zero argument behaves exactly like 1 |
| `LightEvents.EnableEdges` | hardware/libsensors/LightSensor.cpp:66-88 | off→on opens the device, returns the timer ioctl's result and runs setInitialState; on→off closes the device, returns the cancel ioctl's result and keeps the pending event |
| `LightEvents.EnableIdempotent` | hardware/libsensors/LightSensor.cpp:63-90 | a second enable with the same argument changes nothing and returns 0, whatever the device would answer |
| `LightEvents.Stage` | hardware/libsensors/LightSensor.cpp:116-131 | a light event replaces the staged lux level with a table level, a sync event sets only the timestamp, any other event leaves the staged event alone |
| `LightEvents.Consume` | hardware/libsensors/LightSensor.cpp:112-135 | the loop goes past at most the buffered events, fills at most `count` slots, and stops before the end only when every slot is filled |
| `LightEvents.ConsumeIsPrefixRun` | hardware/libsensors/LightSensor.cpp:115-133 | the loop emits and stages exactly what processing the events it went past does, and an early stop comes right after the sync event that filled the last slot |
| `LightEvents.EmittedCount` | hardware/libsensors/LightSensor.cpp:123-127 | processing a stream emits one sensor event per sync event |
| `LightEvents.EmittedTimestamps` | hardware/libsensors/LightSensor.cpp:123-125 | each emitted event carries the time of the sync event that emitted it, in order |
| `LightEvents.EmittedLights` | hardware/libsensors/LightSensor.cpp:117-121 | each emitted light value is a table level or the value staged before the run |
| `LightEvents.ReadSpec` | hardware/libsensors/LightSensor.cpp:96-136 | readEvents writes at most `count` events and returns their number, an error result writes nothing and changes nothing, and enable state is untouched |
| `LightEvents.ReadRejectsEmptyRequest` | hardware/libsensors/LightSensor.cpp:98-99 | a count below 1 returns -EINVAL and changes no state and no slot |
| `LightEvents.ReadServesPendingFirst` | hardware/libsensors/LightSensor.cpp:101-106 | with an event pending, readEvents returns 1, writes that event stamped with the current time, clears the flag and leaves the reader alone |
| `LightEvents.ReadPassesFillError` | hardware/libsensors/LightSensor.cpp:108-110 | a negative fill result is returned as it is, with nothing written and nothing changed |
| `LightEvents.ReadCountsSyncs` | hardware/libsensors/LightSensor.cpp:112-135 | without a pending event, the result lies in [0, count] and equals the number of sync events in the prefix the reader moved past; that prefix is all unread events or ends with the sync event that filled the last slot; output and staged event are those of that prefix |
| `LightEvents.ReadDrainsWhenRoomy` | hardware/libsensors/LightSensor.cpp:115 | with more slots than waiting sync events, readEvents consumes every buffered event |
| `LightEvents.ReadReportsTableLevels` | hardware/libsensors/LightSensor.cpp:115-133 | every reported light value is a table level or the one staged before the call |
| `LightEvents.FirstReadingIsUnconverted` | hardware/libsensors/LightSensor.cpp:57 | after switching on with a successful axis query, the next readEvents reports the query's raw reading stamped with the current time |
| `LightEvents.UnconvertedReadingIsNoLevel` | hardware/libsensors/LightSensor.cpp:57 | such a raw reading (500) is not a table level, although the table would convert it to 160 |
| `LightSensorDriver.LightSensor.constructor` | hardware/libsensors/LightSensor.cpp:33-46 | a new driver is the disabled, empty driver after enable(0, 1) |
| `LightSensorDriver.LightSensor.Dispose` | hardware/libsensors/LightSensor.cpp:48-52 | the destructor leaves the driver disabled with the device closed, as enable(0, 0) does |
| `LightSensorDriver.LightSensor.SetInitialState` | hardware/libsensors/LightSensor.cpp:54-61 | returns 0 and updates the fields as AfterInitialState says |
| `LightSensorDriver.LightSensor.Enable` | hardware/libsensors/LightSensor.cpp:63-90 | returns the error and leaves the fields exactly as EnableSpec says, keeping the object invariant |
| `LightSensorDriver.LightSensor.HasPendingEvents` | hardware/libsensors/LightSensor.cpp:92-94 | true exactly when a one-slot readEvents delivers an event although the input device has nothing to read |
| `LightSensorDriver.LightSensor.ReadEvents` | hardware/libsensors/LightSensor.cpp:96-136 | returns ReadSpec's result, leaves the fields as ReadSpec says, writes ReadSpec's events to the leading slots and leaves every other slot unchanged |
| `LightSensorDriver.LightSensor.Drain` | hardware/libsensors/LightSensor.cpp:112-135 | the loop writes the events of Consume to the leading slots, moves the reader past the events it used and leaves the staged event Consume computes |

## Left out

- The input reader's internals (`InputEventCircularReader::fill`, `readEvent`, `next`): InputEventReader.h and its source are not part of this model. `fill` is an abstract outcome, and the reader's capacity of 4 events is not modelled: whatever `fill` reads is appended.
- `open_device`, `close_device` and the ioctls are not executed: their results are parameters, and opening the device is a boolean field. SensorBase, which owns the device handles, is not part of this model, so failures of `open_device` are not modelled; `enable` ignores its result anyway.
- `getTimestamp` and `timevalToNano`: the clock reading is a parameter, and an input event's time is already in nanoseconds.
- Logging (`LOGE`) of failed ioctls and of unknown event types.
- Floating point: lux levels are integers, which is exact for the table. `setInitialState` stores an `int` reading in a `float`; the model keeps it exact, while the source rounds readings beyond 2^24.
- The fields of `sensors_event_t` that are fixed at construction (version, sensor id, type) and the zeroed data array; the staged timestamp starts at 0, where the source leaves it unset.
- `EVENT_TYPE_LIGHT` is defined in nusensors.h, which is not part of this model. It is taken to be ABS_MISC (0x28); no property depends on its value.
- The loop of readEvents is the separate method `Drain`. It works on local copies of the reader position and the staged event and stores them back when the loop ends; nothing else can observe them in between.
- `size_t` is taken to be 32 bits wide, as on the driver's target. On a 64-bit build the wrap-around is by 2^64, with the same effect on the conversion.
- The proximity and accelerometer drivers declared in ProximitySensor.h and kxsd9.h: no implementation of them is part of this model.
