/** The recording part of `MainActivity`: the session fields it updates in
    place and the three entry points that update them (the start button,
    the stop button and the sensor callback), plus the export loop. The
    clock and the storage-permission check are parameters. */
module Activity {
  import opened Kotlin
  import opened Records
  import opened Session

  class MainActivity {
    var isRecording: bool
    var imuDataList: seq<ImuData>
    var startTime: Long

    /** The latest accelerometer and gyroscope values, `FloatArray(3)` each. */
    const latestAccData: array<Float32>
    const latestGyroData: array<Float32>
    var lastAccTimestamp: Long
    var lastGyroTimestamp: Long

    ghost predicate Valid()
      reads this
    {
      latestAccData.Length == 3 && latestGyroData.Length == 3 && latestAccData != latestGyroData
    }

    /** The session fields as a value. */
    ghost function State(): Session.State
      reads this, latestAccData, latestGyroData
      requires Valid()
    {
      Session.State(
        isRecording, startTime, imuDataList,
        Vec3(latestAccData[0], latestAccData[1], latestAccData[2]),
        Vec3(latestGyroData[0], latestGyroData[1], latestGyroData[2]),
        lastAccTimestamp, lastGyroTimestamp)
    }

    constructor ()
      ensures Valid() && fresh(latestAccData) && fresh(latestGyroData)
      ensures State() == INITIAL
    {
      isRecording := false;
      imuDataList := [];
      startTime := 0;
      latestAccData := new Float32[3](_ => FLOAT_ZERO);
      latestGyroData := new Float32[3](_ => FLOAT_ZERO);
      lastAccTimestamp := 0;
      lastGyroTimestamp := 0;
    }

    /** The start button. `permitted` is the storage-permission check and
        `now` the clock reading; without permission only a permission
        request is issued. */
    method StartRecording(permitted: bool, now: Long) returns (permissionRequested: bool)
      requires Valid()
      modifies this
      ensures Valid()
      ensures State() == AfterStart(old(State()), permitted, now)
      ensures permissionRequested == !permitted
    {
      if !permitted {
        return true;
      }
      isRecording := true;
      startTime := now;
      imuDataList := [];
      return false;
    }

    /** The stop button: stops recording, exports the list and reports how
        many records it held. */
    method StopRecording() returns (file: Option<seq<CsvLine>>, count: nat)
      requires Valid()
      modifies this
      ensures Valid()
      ensures State() == AfterStop(old(State()))
      ensures file == Export(old(imuDataList))
      ensures count == |old(imuDataList)|
    {
      isRecording := false;
      file := SaveDataToFile();
      count := |imuDataList|;
    }

    /** The sensor callback, with `now` the clock reading taken on entry.
        Returns the record passed to the display refresh, if there is one. */
    method OnSensorChanged(event: Option<SensorEvent>, now: Long) returns (displayed: Option<ImuData>)
      requires Valid() && HasAxes(event)
      modifies this, latestAccData, latestGyroData
      ensures Valid()
      ensures State() == AfterEvent(old(State()), event, now)
      ensures displayed == DisplayTrigger(old(State()), event, now)
    {
      if !isRecording || event.None? {
        return None;
      }
      var currentTime := Minus(now, startTime);
      var e := event.value;
      if e.sensorType == TYPE_ACCELEROMETER {
        latestAccData[0] := e.values[0];
        latestAccData[1] := e.values[1];
        latestAccData[2] := e.values[2];
        lastAccTimestamp := currentTime;
      } else if e.sensorType == TYPE_GYROSCOPE {
        latestGyroData[0] := e.values[0];
        latestGyroData[1] := e.values[1];
        latestGyroData[2] := e.values[2];
        lastGyroTimestamp := currentTime;
      }
      var timestamp := MaxOf(lastAccTimestamp, lastGyroTimestamp);
      var data := ImuData(
        timestamp,
        latestAccData[0], latestAccData[1], latestAccData[2],
        latestGyroData[0], latestGyroData[1], latestGyroData[2]);
      imuDataList := imuDataList + [data];
      if |imuDataList| % 100 == 0 {
        displayed := Some(data);
      } else {
        displayed := None;
      }
    }

    /** The export: nothing for an empty list, otherwise the header and then
        one line per record, written in list order. */
    method SaveDataToFile() returns (file: Option<seq<CsvLine>>)
      ensures file == Export(imuDataList)
    {
      if |imuDataList| == 0 {
        return None;
      }
      var lines := [Header];
      for i := 0 to |imuDataList|
        invariant lines == [Header] + CsvRows(imuDataList[..i])
      {
        assert imuDataList[..i + 1][..i] == imuDataList[..i];
        lines := lines + [Row(imuDataList[i])];
      }
      assert imuDataList[..|imuDataList|] == imuDataList;
      file := Some(lines);
    }
  }
}
