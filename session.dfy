/** The recording session of `MainActivity` as a value: its fields, the
    effect of the start button, the stop button and one sensor callback on
    them, and what follows for a whole run of such calls. */
module Session {
  import opened Kotlin
  import opened Records

  /** Android's `Sensor.TYPE_ACCELEROMETER` and `Sensor.TYPE_GYROSCOPE`. */
  const TYPE_ACCELEROMETER: int := 1
  const TYPE_GYROSCOPE: int := 4

  /** A sensor callback's payload: the type of the sensor that fired and its
      value array. */
  datatype SensorEvent = SensorEvent(sensorType: int, values: seq<Float32>)

  /** Accelerometer and gyroscope events carry (at least) three axis values;
      events of other sensors may carry any number. */
  predicate HasAxes(event: Option<SensorEvent>) {
    event.Some? &&
    (event.value.sensorType == TYPE_ACCELEROMETER || event.value.sensorType == TYPE_GYROSCOPE)
    ==> |event.value.values| >= 3
  }

  /** Three axis values, the contents of a `FloatArray(3)`. */
  datatype Vec3 = Vec3(x: Float32, y: Float32, z: Float32)

  const ZERO3: Vec3 := Vec3(FLOAT_ZERO, FLOAT_ZERO, FLOAT_ZERO)

  function Axes(e: SensorEvent): Vec3
    requires |e.values| >= 3
  {
    Vec3(e.values[0], e.values[1], e.values[2])
  }

  function Acc(d: ImuData): Vec3 {
    Vec3(d.accX, d.accY, d.accZ)
  }

  function Gyro(d: ImuData): Vec3 {
    Vec3(d.gyroX, d.gyroY, d.gyroZ)
  }

  /** The session fields of `MainActivity`: the recording flag, the start
      time, the record list, the two latest-value caches and the two
      per-sensor timestamps. */
  datatype State = State(
    isRecording: bool,
    startTime: Long,
    records: seq<ImuData>,
    latestAcc: Vec3,
    latestGyro: Vec3,
    lastAccTimestamp: Long,
    lastGyroTimestamp: Long)

  /** The fields as the activity is created. */
  const INITIAL: State := State(false, 0, [], ZERO3, ZERO3, 0, 0)

  /** The record built from the caches: stamped with the later of the two
      per-sensor timestamps and carrying both cached readings. */
  function Fused(s: State): (d: ImuData)
    ensures d.timestamp >= s.lastAccTimestamp && d.timestamp >= s.lastGyroTimestamp
    ensures d.timestamp == s.lastAccTimestamp || d.timestamp == s.lastGyroTimestamp
    ensures Acc(d) == s.latestAcc && Gyro(d) == s.latestGyro
  {
    ImuData(MaxOf(s.lastAccTimestamp, s.lastGyroTimestamp),
            s.latestAcc.x, s.latestAcc.y, s.latestAcc.z,
            s.latestGyro.x, s.latestGyro.y, s.latestGyro.z)
  }

  /** `startRecording` with the storage permission `permitted` and the clock
      reading `now`. Without permission nothing changes (the permission is
      requested instead). With permission the session starts afresh, but the
      caches and per-sensor timestamps keep their old values, and the
      current value of the flag is not consulted. */
  function AfterStart(s: State, permitted: bool, now: Long): (r: State)
    ensures !permitted ==> r == s
    ensures permitted ==> r.isRecording && r.startTime == now && r.records == []
    ensures r.latestAcc == s.latestAcc && r.latestGyro == s.latestGyro
    ensures r.lastAccTimestamp == s.lastAccTimestamp && r.lastGyroTimestamp == s.lastGyroTimestamp
  {
    if !permitted then s
    else s.(isRecording := true, startTime := now, records := [])
  }

  /** `stopRecording`: the flag is cleared whatever its value, and the list
      (which is exported next) is kept. */
  function AfterStop(s: State): (r: State)
    ensures !r.isRecording
    ensures r.records == s.records && r.startTime == s.startTime
    ensures r.latestAcc == s.latestAcc && r.latestGyro == s.latestGyro
    ensures r.lastAccTimestamp == s.lastAccTimestamp && r.lastGyroTimestamp == s.lastGyroTimestamp
  {
    s.(isRecording := false)
  }

  /** A sensor callback is processed only while recording and only for a
      non-null event. */
  predicate Accepted(s: State, event: Option<SensorEvent>) {
    s.isRecording && event.Some?
  }

  /** `onSensorChanged(event)` with the clock reading `now`: the cache of the
      sensor that fired takes the event's values and the session-relative
      time; then one fused record is appended, whatever the sensor. */
  function AfterEvent(s: State, event: Option<SensorEvent>, now: Long): (r: State)
    requires HasAxes(event)
    ensures !Accepted(s, event) ==> r == s
    ensures r.isRecording == s.isRecording && r.startTime == s.startTime
    ensures Accepted(s, event) ==> r.records == s.records + [Fused(r)]
    ensures Accepted(s, event) && event.value.sensorType == TYPE_ACCELEROMETER ==>
      r.latestAcc == Axes(event.value) && r.lastAccTimestamp == Minus(now, s.startTime) &&
      r.latestGyro == s.latestGyro && r.lastGyroTimestamp == s.lastGyroTimestamp
    ensures Accepted(s, event) && event.value.sensorType == TYPE_GYROSCOPE ==>
      r.latestGyro == Axes(event.value) && r.lastGyroTimestamp == Minus(now, s.startTime) &&
      r.latestAcc == s.latestAcc && r.lastAccTimestamp == s.lastAccTimestamp
    ensures event.Some? && event.value.sensorType != TYPE_ACCELEROMETER &&
            event.value.sensorType != TYPE_GYROSCOPE ==>
      r.latestAcc == s.latestAcc && r.lastAccTimestamp == s.lastAccTimestamp &&
      r.latestGyro == s.latestGyro && r.lastGyroTimestamp == s.lastGyroTimestamp
  {
    if !Accepted(s, event) then s
    else
      var e := event.value;
      var elapsed := Minus(now, s.startTime);
      var cached :=
        if e.sensorType == TYPE_ACCELEROMETER then
          s.(latestAcc := Axes(e), lastAccTimestamp := elapsed)
        else if e.sensorType == TYPE_GYROSCOPE then
          s.(latestGyro := Axes(e), lastGyroTimestamp := elapsed)
        else s;
      cached.(records := cached.records + [Fused(cached)])
  }

  /** The record handed to `updateDisplay` by this callback, if any: the
      display is refreshed exactly when the append makes the list length a
      multiple of 100. */
  function DisplayTrigger(s: State, event: Option<SensorEvent>, now: Long): (shown: Option<ImuData>)
    requires HasAxes(event)
    ensures shown.Some? <==> Accepted(s, event) && |AfterEvent(s, event, now).records| % 100 == 0
    ensures shown.Some? ==> shown.value == Fused(AfterEvent(s, event, now))
  {
    var r := AfterEvent(s, event, now);
    if Accepted(s, event) && |r.records| % 100 == 0 then Some(r.records[|r.records| - 1]) else None
  }

  // ---------------------------------------------------------------------
  // Runs: the button presses and sensor callbacks, processed one at a time.

  datatype Action =
    | StartClicked(permitted: bool, now: Long)
    | StopClicked
    | SensorChanged(event: Option<SensorEvent>, now: Long)

  predicate Deliverable(a: Action) {
    a.SensorChanged? ==> HasAxes(a.event)
  }

  predicate AllDeliverable(t: seq<Action>) {
    forall i :: 0 <= i < |t| ==> Deliverable(t[i])
  }

  /** Only sensor callbacks, no button presses. */
  predicate OnlyEvents(t: seq<Action>) {
    forall i :: 0 <= i < |t| ==> t[i].SensorChanged?
  }

  function Step(s: State, a: Action): State
    requires Deliverable(a)
  {
    match a
    case StartClicked(permitted, now) => AfterStart(s, permitted, now)
    case StopClicked => AfterStop(s)
    case SensorChanged(event, now) => AfterEvent(s, event, now)
  }

  /** The state after processing `t` in order, starting from `s`. */
  function Run(s: State, t: seq<Action>): State
    requires AllDeliverable(t)
    decreases |t|
  {
    if t == [] then s else Step(Run(s, t[..|t| - 1]), t[|t| - 1])
  }

  /** The number of non-null sensor events in `t`. */
  function NonNullEvents(t: seq<Action>): nat
    decreases |t|
  {
    if t == [] then 0
    else
      var a := t[|t| - 1];
      NonNullEvents(t[..|t| - 1]) + (if a.SensorChanged? && a.event.Some? then 1 else 0)
  }

  /** The number of display refreshes during `t`. */
  function DisplayCount(s: State, t: seq<Action>): nat
    requires AllDeliverable(t)
    decreases |t|
  {
    if t == [] then 0
    else
      var a := t[|t| - 1];
      var before := Run(s, t[..|t| - 1]);
      DisplayCount(s, t[..|t| - 1]) +
        (if a.SensorChanged? && DisplayTrigger(before, a.event, a.now).Some? then 1 else 0)
  }

  /** While recording, every non-null event appends exactly one record and
      earlier records stay as they were: the list grows by the number of
      accepted events. */
  lemma {:induction false} RecordsGrowByAcceptedEvents(s: State, t: seq<Action>)
    requires s.isRecording && OnlyEvents(t) && AllDeliverable(t)
    ensures Run(s, t).isRecording && Run(s, t).startTime == s.startTime
    ensures |Run(s, t).records| == |s.records| + NonNullEvents(t)
    ensures Run(s, t).records[..|s.records|] == s.records
    decreases |t|
  {
    if t != [] {
      var t' := t[..|t| - 1];
      assert OnlyEvents(t') && AllDeliverable(t');
      RecordsGrowByAcceptedEvents(s, t');
    }
  }

  /** After a permitted start, the list holds exactly one record per event
      accepted since that start. The entries are new, but their contents may
      come from the earlier session: start keeps the caches and per-sensor
      timestamps (see RestartCarriesStaleTimestamp). */
  lemma NewSessionRecordCount(s: State, now: Long, t: seq<Action>)
    requires OnlyEvents(t) && AllDeliverable(t)
    ensures |Run(AfterStart(s, true, now), t).records| == NonNullEvents(t)
  {
    RecordsGrowByAcceptedEvents(AfterStart(s, true, now), t);
  }

  /** No button press in `t` is a start that has the permission. */
  predicate NoGrantedStart(t: seq<Action>) {
    forall i :: 0 <= i < |t| ==> t[i].StartClicked? ==> !t[i].permitted
  }

  /** When not recording, nothing changes (events are ignored, stop only
      clears the flag again) until a start with permission. */
  lemma {:induction false} IdleUntilStart(s: State, t: seq<Action>)
    requires !s.isRecording && AllDeliverable(t) && NoGrantedStart(t)
    ensures Run(s, t) == s
    decreases |t|
  {
    if t != [] {
      var t' := t[..|t| - 1];
      assert AllDeliverable(t') && NoGrantedStart(t');
      IdleUntilStart(s, t');
      assert Deliverable(t[|t| - 1]);
    }
  }

  /** After stop, the list that was exported stays as it is until the next
      permitted start. */
  lemma {:induction false} StopFreezesRecords(s: State, t: seq<Action>)
    requires AllDeliverable(t) && NoGrantedStart(t)
    ensures Run(AfterStop(s), t) == AfterStop(s)
    ensures Run(AfterStop(s), t).records == s.records
  {
    IdleUntilStart(AfterStop(s), t);
  }

  /** The cache of sensor `kind`, and the readings of that sensor in a record. */
  function Cache(s: State, kind: int): Vec3 {
    if kind == TYPE_ACCELEROMETER then s.latestAcc else s.latestGyro
  }

  function Reading(d: ImuData, kind: int): Vec3 {
    if kind == TYPE_ACCELEROMETER then Acc(d) else Gyro(d)
  }

  /** No non-null event of `t` comes from a sensor of type `kind`. */
  predicate NoEventFrom(t: seq<Action>, kind: int) {
    forall i :: 0 <= i < |t| ==> t[i].SensorChanged? && t[i].event.Some? ==>
      t[i].event.value.sensorType != kind
  }

  /** Hold-last-value: while no event of one sensor arrives, its cache keeps
      its value and every record appended meanwhile carries that value. */
  lemma {:induction false} HoldLastValue(s: State, t: seq<Action>, kind: int)
    requires kind == TYPE_ACCELEROMETER || kind == TYPE_GYROSCOPE
    requires s.isRecording && OnlyEvents(t) && AllDeliverable(t) && NoEventFrom(t, kind)
    ensures Cache(Run(s, t), kind) == Cache(s, kind)
    ensures forall i :: |s.records| <= i < |Run(s, t).records| ==>
      Reading(Run(s, t).records[i], kind) == Cache(s, kind)
    decreases |t|
  {
    if t != [] {
      var t' := t[..|t| - 1];
      assert OnlyEvents(t') && AllDeliverable(t') && NoEventFrom(t', kind);
      HoldLastValue(s, t', kind);
      RecordsGrowByAcceptedEvents(s, t');
      assert t[|t| - 1].SensorChanged? && Deliverable(t[|t| - 1]);
    }
  }

  /** The last record appended during a recording run is the fusion of the
      caches as they are at the end of the run. */
  lemma {:induction false} LastRecordIsFused(s: State, t: seq<Action>)
    requires s.isRecording && OnlyEvents(t) && AllDeliverable(t)
    ensures |Run(s, t).records| > |s.records| ==>
      Run(s, t).records[|Run(s, t).records| - 1] == Fused(Run(s, t))
    decreases |t|
  {
    if t != [] {
      var t' := t[..|t| - 1];
      assert OnlyEvents(t') && AllDeliverable(t');
      LastRecordIsFused(s, t');
      RecordsGrowByAcceptedEvents(s, t');
      assert t[|t| - 1].SensorChanged? && Deliverable(t[|t| - 1]);
    }
  }

  /** The clock readings of `t` never go backwards. */
  predicate MonotoneClock(t: seq<Action>)
    requires OnlyEvents(t)
  {
    forall i, j :: 0 <= i < j < |t| ==> t[i].now <= t[j].now
  }

  /** Every clock reading of `t`, taken relative to `start`, is at most `bound`
      and does not wrap around. */
  predicate ElapsedAtMost(t: seq<Action>, start: Long, bound: int)
    requires OnlyEvents(t)
  {
    forall i :: 0 <= i < |t| ==>
      InLongRange(t[i].now as int - start as int) && t[i].now as int - start as int <= bound
  }

  /** Both per-sensor timestamps only ever take session-relative clock
      readings, so they stay below any bound those readings respect. */
  lemma {:induction false} CacheTimestampsBounded(s: State, t: seq<Action>, bound: int)
    requires s.isRecording && OnlyEvents(t) && AllDeliverable(t)
    requires s.lastAccTimestamp as int <= bound && s.lastGyroTimestamp as int <= bound
    requires ElapsedAtMost(t, s.startTime, bound)
    ensures Run(s, t).lastAccTimestamp as int <= bound
    ensures Run(s, t).lastGyroTimestamp as int <= bound
    decreases |t|
  {
    if t != [] {
      var t' := t[..|t| - 1];
      assert OnlyEvents(t') && AllDeliverable(t') && ElapsedAtMost(t', s.startTime, bound);
      CacheTimestampsBounded(s, t', bound);
      RecordsGrowByAcceptedEvents(s, t');
      assert t[|t| - 1].SensorChanged? && Deliverable(t[|t| - 1]);
    }
  }

  /** Appending a record stamped no earlier than the current last one keeps
      the records from index `from` on in timestamp order. */
  lemma AppendKeepsOrder(rs: seq<ImuData>, from: nat, d: ImuData)
    requires from <= |rs|
    requires forall i, j :: from <= i < j < |rs| ==> rs[i].timestamp <= rs[j].timestamp
    requires |rs| > from ==> rs[|rs| - 1].timestamp <= d.timestamp
    ensures forall i, j :: from <= i < j < |rs + [d]| ==>
      (rs + [d])[i].timestamp <= (rs + [d])[j].timestamp
  {
  }

  /** With a clock that does not go backwards and no per-sensor timestamp
      ahead of the session's first reading, the records appended during the
      run are in non-decreasing timestamp order. */
  lemma {:induction false} TimestampsNonDecreasing(s: State, t: seq<Action>)
    requires s.isRecording && OnlyEvents(t) && AllDeliverable(t) && MonotoneClock(t)
    requires forall i :: 0 <= i < |t| ==> InLongRange(t[i].now as int - s.startTime as int)
    requires |t| > 0 ==>
      s.lastAccTimestamp as int <= t[0].now as int - s.startTime as int &&
      s.lastGyroTimestamp as int <= t[0].now as int - s.startTime as int
    ensures forall i, j :: |s.records| <= i < j < |Run(s, t).records| ==>
      Run(s, t).records[i].timestamp <= Run(s, t).records[j].timestamp
    decreases |t|
  {
    if t != [] {
      var t' := t[..|t| - 1];
      var a := t[|t| - 1];
      assert OnlyEvents(t') && AllDeliverable(t') && MonotoneClock(t');
      TimestampsNonDecreasing(s, t');
      RecordsGrowByAcceptedEvents(s, t');
      LastRecordIsFused(s, t');
      assert a.SensorChanged? && Deliverable(a);
      var bound := a.now as int - s.startTime as int;
      assert ElapsedAtMost(t', s.startTime, bound);
      CacheTimestampsBounded(s, t', bound);
      var before := Run(s, t');
      var after := Run(s, t);
      if Accepted(before, a.event) {
        assert Minus(a.now, s.startTime) as int == bound;
        AppendKeepsOrder(before.records, |s.records|, Fused(after));
      }
    }
  }

  /** In the first session after the activity is created the caches start at
      zero, so with a clock that does not go backwards from the start time the
      records come out in timestamp order. */
  lemma FirstSessionTimestampsNonDecreasing(now: Long, t: seq<Action>)
    requires OnlyEvents(t) && AllDeliverable(t) && MonotoneClock(t)
    requires forall i :: 0 <= i < |t| ==>
      InLongRange(t[i].now as int - now as int) && now <= t[i].now
    ensures forall i, j :: 0 <= i < j < |Run(AfterStart(INITIAL, true, now), t).records| ==>
      Run(AfterStart(INITIAL, true, now), t).records[i].timestamp <=
      Run(AfterStart(INITIAL, true, now), t).records[j].timestamp
  {
    TimestampsNonDecreasing(AfterStart(INITIAL, true, now), t);
  }

  /** A second session inherits the first one's per-sensor timestamps, which
      are relative to the first start time: its first record is stamped 1000
      though it arrives 100 after the new start, and the next record's
      timestamp (300) is smaller. */
  lemma RestartCarriesStaleTimestamp()
    ensures
      var zeros := [FLOAT_ZERO, FLOAT_ZERO, FLOAT_ZERO];
      var acc := Some(SensorEvent(TYPE_ACCELEROMETER, zeros));
      var gyro := Some(SensorEvent(TYPE_GYROSCOPE, zeros));
      var t := [StartClicked(true, 0), SensorChanged(acc, 1000), StopClicked,
                StartClicked(true, 2000), SensorChanged(gyro, 2100), SensorChanged(acc, 2300)];
      AllDeliverable(t) &&
      |Run(INITIAL, t).records| == 2 &&
      Run(INITIAL, t).records[0].timestamp == 1000 &&
      Run(INITIAL, t).records[1].timestamp == 300
  {
    var zeros := [FLOAT_ZERO, FLOAT_ZERO, FLOAT_ZERO];
    var acc := Some(SensorEvent(TYPE_ACCELEROMETER, zeros));
    var gyro := Some(SensorEvent(TYPE_GYROSCOPE, zeros));
    var t := [StartClicked(true, 0), SensorChanged(acc, 1000), StopClicked,
              StartClicked(true, 2000), SensorChanged(gyro, 2100), SensorChanged(acc, 2300)];
    assert AllDeliverable(t);
    var s1 := Run(INITIAL, t[..1]);
    assert t[..1][..0] == [];
    assert Run(INITIAL, t[..1][..0]) == INITIAL;
    assert t[..1][0] == StartClicked(true, 0);
    assert s1 == AfterStart(INITIAL, true, 0);
    var s2 := Run(INITIAL, t[..2]);
    assert t[..2][..1] == t[..1];
    assert s2 == AfterEvent(s1, acc, 1000);
    assert s2.lastAccTimestamp == 1000 && s2.lastGyroTimestamp == 0;
    var s3 := Run(INITIAL, t[..3]);
    assert t[..3][..2] == t[..2];
    assert s3 == AfterStop(s2);
    var s4 := Run(INITIAL, t[..4]);
    assert t[..4][..3] == t[..3];
    assert s4 == AfterStart(s3, true, 2000);
    var s5 := Run(INITIAL, t[..5]);
    assert t[..5][..4] == t[..4];
    assert s5 == AfterEvent(s4, gyro, 2100);
    assert s5.records == [Fused(s5)] && s5.lastGyroTimestamp == 100;
    assert t[..6] == t && t[..5] == t[..|t| - 1];
    var s6 := Run(INITIAL, t);
    assert s6 == AfterEvent(s5, acc, 2300);
    assert s6.lastAccTimestamp == 300;
  }

  lemma DivStep(n: nat)
    ensures (n + 1) / 100 == n / 100 + (if (n + 1) % 100 == 0 then 1 else 0)
  {
  }

  /** The display is refreshed once per hundred records: over a recording run
      the number of refreshes is the number of multiples of 100 the list
      length passes. */
  lemma {:induction false} DisplayEveryHundred(s: State, t: seq<Action>)
    requires s.isRecording && OnlyEvents(t) && AllDeliverable(t)
    ensures DisplayCount(s, t) == (|s.records| + NonNullEvents(t)) / 100 - |s.records| / 100
    decreases |t|
  {
    if t != [] {
      var t' := t[..|t| - 1];
      assert OnlyEvents(t') && AllDeliverable(t');
      DisplayEveryHundred(s, t');
      RecordsGrowByAcceptedEvents(s, t');
      assert t[|t| - 1].SensorChanged? && Deliverable(t[|t| - 1]);
      DivStep(|s.records| + NonNullEvents(t'));
    }
  }
}
