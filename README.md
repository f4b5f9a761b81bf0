# IMU recording session — a Dafny model

This project models the recording core of the Android IMU data-collection app
(`MainActivity`): the recording flag, the session start time, the list of
fused samples, and the hold-last-value caches for the accelerometer and the
gyroscope. It covers the three entry points that change these fields: the
start button, the stop button and the sensor callback. It also covers the
structure of the CSV export that a stop triggers.

- `kotlin.dfy` (module `Kotlin`): Kotlin's 64-bit `Long` with the JVM's
  wrap-around subtraction, `maxOf`, and 32-bit floats. A float is kept as its
  bit pattern because sensor values are only copied. It also holds nullable
  references as `Option`.
- `records.dfy` (module `Records`): the `IMUData` record and the lines of the
  exported file. A data row is the record it renders. `ParseCsv` reads a file
  back and is the partner of the export.
- `session.dfy` (module `Session`): the session fields as a value `State`, and
  one function per entry point: `AfterStart`, `AfterStop`, `AfterEvent` and
  `DisplayTrigger`. It also defines `Run`, which processes a sequence of button
  presses and sensor callbacks in order, and the lemmas about such runs.
- `main_activity.dfy` (module `Activity`): class `MainActivity` with the
  source's fields. The two `FloatArray(3)` caches are arrays updated element
  by element, and the `ArrayList` is a `seq` field. Each method is proved to
  move `State()` exactly as the matching `Session` function says.

The clock (`System.nanoTime()`) is the `now` parameter. The storage-permission
check is the `permitted` parameter of the start button. Sensor types are
Android's integer codes (`TYPE_ACCELEROMETER` = 1, `TYPE_GYROSCOPE` = 4).

The model follows the code as written:

- A permitted start does not reset the two caches or the two per-sensor
  timestamps. The first records of a new session can therefore carry readings
  from the previous session, and timestamps relative to the previous start
  time. `RestartCarriesStaleTimestamp` shows a second session whose two
  records are stamped 1000 and then 300. In the first session after creation
  the caches start at zero, and `FirstSessionTimestampsNonDecreasing` proves
  that timestamps never go backwards there. It assumes a clock that does not
  go backwards from the start time, and elapsed times that do not wrap around
  the 64-bit range.
- Neither start nor stop looks at the current value of `isRecording`. A
  second start while recording clears the list again, and a stop while idle
  exports the old list again.
- An event from any other sensor type still appends a record, built from the
  unchanged caches.

## Model

| member | source | states |
|---|---|---|
| `Kotlin.Minus` | app/src/main/java/com/example/imuapp/MainActivity.kt:211 | `now - startTime` on `Long` is the exact difference when it fits, and otherwise differs from it by a multiple of 2^64 |
| `Kotlin.MaxOf` | app/src/main/java/com/example/imuapp/MainActivity.kt:229 | the result is at least both arguments and is one of them |
| `Records.Export` | app/src/main/java/com/example/imuapp/MainActivity.kt:273-300 | nothing is written exactly when the list is empty; otherwise the file has `size + 1` lines: the header, then row `i + 1` rendering record `i`, in list order |
| `Records.ExportRoundTrip` | app/src/main/java/com/example/imuapp/MainActivity.kt:294-300 | reading a non-empty export back gives one record per data line, in list order: none is lost, duplicated or reordered (the values come back exactly only because a row is taken to be lossless) |
| `Session.Fused` | app/src/main/java/com/example/imuapp/MainActivity.kt:229-235 | the record's timestamp is the larger of the two per-sensor timestamps, so it is at least each of them, and it carries both cached readings |
| `Session.AfterStart` | app/src/main/java/com/example/imuapp/MainActivity.kt:165-173 | without permission nothing changes; with permission recording is on, the start time is the clock reading and the list is empty; the caches and per-sensor timestamps are left untouched either way |
| `Session.AfterStop` | app/src/main/java/com/example/imuapp/MainActivity.kt:191-192 | recording is off; the list, the start time, the caches and the timestamps are unchanged |
| `Session.AfterEvent` | app/src/main/java/com/example/imuapp/MainActivity.kt:208-237 | idle or null event: nothing changes; accelerometer event: only the accelerometer cache and its timestamp (`now - startTime`) change, and the gyroscope case is symmetric; other sensors change no cache; every accepted event appends exactly one record, fused from the updated caches, after the unchanged earlier records |
| `Session.DisplayTrigger` | app/src/main/java/com/example/imuapp/MainActivity.kt:239-242 | the display is refreshed exactly when an accepted event makes the list length a multiple of 100, and it shows the record just appended |
| `Session.RecordsGrowByAcceptedEvents` | app/src/main/java/com/example/imuapp/MainActivity.kt:228-237 | while recording, the list grows by exactly the number of non-null events, earlier records stay as they were, and the flag and start time do not change |
| `Session.NewSessionRecordCount` | app/src/main/java/com/example/imuapp/MainActivity.kt:171-173 | during a run of sensor events after a permitted start, the list length equals the number of events accepted since that start; the entries are new, but their values may come from the earlier session |
| `Session.IdleUntilStart` | app/src/main/java/com/example/imuapp/MainActivity.kt:209 | when not recording, no sequence of events, stops and refused starts changes any field |
| `Session.StopFreezesRecords` | app/src/main/java/com/example/imuapp/MainActivity.kt:191-209 | after stop, later events are ignored and the list stays as it was until the next permitted start |
| `Session.HoldLastValue` | app/src/main/java/com/example/imuapp/MainActivity.kt:213-235 | during a recording run of sensor events with no button presses, while no event of one sensor arrives, its cache keeps its value and every record appended meanwhile carries that value |
| `Session.LastRecordIsFused` | app/src/main/java/com/example/imuapp/MainActivity.kt:229-237 | the last record appended during a recording run is the fusion of the caches as they are after the run |
| `Session.CacheTimestampsBounded` | app/src/main/java/com/example/imuapp/MainActivity.kt:211-224 | during a recording run of sensor events, the per-sensor timestamps only take session-relative clock readings, so they stay at or under any bound that the initial values and those readings respect, provided no reading wraps around the 64-bit range |
| `Session.TimestampsNonDecreasing` | app/src/main/java/com/example/imuapp/MainActivity.kt:211-235 | during a recording run of sensor events, with a clock that does not go backwards, elapsed times that do not wrap around the 64-bit range, and no per-sensor timestamp ahead of the first elapsed time, the records appended are in non-decreasing timestamp order |
| `Session.FirstSessionTimestampsNonDecreasing` | app/src/main/java/com/example/imuapp/MainActivity.kt:41-44 | in the first session after creation (caches and timestamps zero), during a run of sensor events, records come out in timestamp order for a clock that does not go backwards from the start time and elapsed times that do not wrap around the 64-bit range |
| `Session.RestartCarriesStaleTimestamp` | app/src/main/java/com/example/imuapp/MainActivity.kt:165-173 | because start keeps the per-sensor timestamps, a second session can stamp its first record 1000 at elapsed time 100 and its next record 300 |
| `Session.DisplayEveryHundred` | app/src/main/java/com/example/imuapp/MainActivity.kt:239-242 | over a recording run, the number of display refreshes is the number of multiples of 100 that the list length passes |
| `Activity.MainActivity.constructor` | app/src/main/java/com/example/imuapp/MainActivity.kt:36-44 | not recording, start time 0, empty list, both caches `0.0f` and both timestamps 0 |
| `Activity.MainActivity.StartRecording` | app/src/main/java/com/example/imuapp/MainActivity.kt:165-173 | the fields change as `AfterStart` says, and permission is requested exactly when it is missing |
| `Activity.MainActivity.StopRecording` | app/src/main/java/com/example/imuapp/MainActivity.kt:191-205 | the fields change as `AfterStop` says, the export is that of the unchanged list, and the reported count is the list length |
| `Activity.MainActivity.OnSensorChanged` | app/src/main/java/com/example/imuapp/MainActivity.kt:208-243 | the in-place array and field updates change the fields as `AfterEvent` says, and the display refresh happens as `DisplayTrigger` says |
| `Activity.MainActivity.SaveDataToFile` | app/src/main/java/com/example/imuapp/MainActivity.kt:273-300 | the export loop writes nothing for an empty list, and otherwise the header and then one line per record in list order |

## Left out

- The user interface and the activity lifecycle are not modelled: views, button enabling, status text, toasts, `onCreate`, `onDestroy` and `onAccuracyChanged`. They hold no session logic. The count reported by stop is returned instead of shown.
- Permission dialogs (`checkStoragePermission`, `requestPermissions`, both `onRequestPermissionsResult` overrides) are not modelled. The permission is a boolean input to the start button, and the request is a returned flag.
- Sensor registration and unregistration through `SensorManager`, asynchronous delivery and `runOnUiThread` are not modelled. This is platform plumbing and concurrency; callbacks are modelled as sequential method calls.
- File I/O is not modelled: the storage directory, `mkdirs`, the date-stamped file name, `FileWriter` and the `IOException` path. The export yields the sequence of lines it would write.
- Floating-point formatting is not modelled: the `%.3f`/`%.6f` text of `toCsvString`, the nanosecond-to-millisecond division, and the `updateDisplay` text. A data row is the record it renders.
- The `Int` bound on the size of an `ArrayList` is not modelled. The list is unbounded.
- Line 111 is not valid Kotlin and the two `onRequestPermissionsResult` overrides duplicate each other. Neither is behaviour.
- `Activity.MainActivity.OnSensorChanged`: requires that accelerometer and gyroscope events carry three values, as the platform delivers them; with fewer, the source would throw.
- `Session.AfterEvent`: requires the same three values for accelerometer and gyroscope events, for the same reason.
- `Session.DisplayTrigger`: requires the same three values for accelerometer and gyroscope events, for the same reason.
- `Records.ExportRoundTrip`: the real rows are decimal text that rounds the timestamp to 1 µs and each value to 6 decimals, so two different records can write the same line. The model takes a row to be lossless; only the line count and the order carry over to the real file.
