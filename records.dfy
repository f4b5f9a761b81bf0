/** The fused sample record (`MainActivity.IMUData`) and the line structure
    of the CSV file that a recording session is exported to. */
module Records {
  import opened Kotlin

  /** One fused sample: the session-relative timestamp in nanoseconds and the
      latest accelerometer and gyroscope readings at that moment. */
  datatype ImuData = ImuData(
    timestamp: Long,
    accX: Float32, accY: Float32, accZ: Float32,
    gyroX: Float32, gyroY: Float32, gyroZ: Float32)

  /** One line of the exported file. The header is the fixed column line
      `timestamp_ms,acc_x,acc_y,acc_z,gyro_x,gyro_y,gyro_z`; a data row is the
      decimal rendering of one record, kept here as the record it renders. */
  datatype CsvLine = Header | Row(data: ImuData)

  /** The data rows for `records`, one per record, in list order. */
  function CsvRows(records: seq<ImuData>): (lines: seq<CsvLine>)
    ensures |lines| == |records|
    ensures forall i :: 0 <= i < |records| ==> lines[i] == Row(records[i])
  {
    if records == [] then []
    else CsvRows(records[..|records| - 1]) + [Row(records[|records| - 1])]
  }

  /** The whole file: the header, then the data rows. */
  function CsvFile(records: seq<ImuData>): seq<CsvLine> {
    [Header] + CsvRows(records)
  }

  /** What the export writes: nothing at all for an empty list, otherwise the
      header followed by exactly one row per record, in list order. */
  function Export(records: seq<ImuData>): (file: Option<seq<CsvLine>>)
    ensures file.None? <==> records == []
    ensures file.Some? ==> |file.value| == |records| + 1 && file.value[0] == Header
    ensures file.Some? ==> forall i :: 0 <= i < |records| ==> file.value[i + 1] == Row(records[i])
  {
    if records == [] then None else Some(CsvFile(records))
  }

  /** Reads an exported file back: a header line, then data rows only. */
  function ParseCsv(lines: seq<CsvLine>): Option<seq<ImuData>> {
    if lines == [] || lines[0] != Header then None else ParseRows(lines[1..])
  }

  function ParseRows(lines: seq<CsvLine>): Option<seq<ImuData>> {
    if lines == [] then Some([])
    else match lines[0]
      case Header => None
      case Row(d) =>
        match ParseRows(lines[1..])
        case None => None
        case Some(rest) => Some([d] + rest)
  }

  lemma {:induction false} ParseRowsOfRows(records: seq<ImuData>)
    ensures ParseRows(CsvRows(records)) == Some(records)
  {
    if records != [] {
      var rows := CsvRows(records);
      ParseRowsOfRows(records[1..]);
      assert rows[1..] == CsvRows(records[1..]);
      assert [records[0]] + records[1..] == records;
    }
  }

  /** Reading the exported file back yields one record per data line, in
      list order: none is lost, duplicated or reordered. The values come back
      exactly only because a row is taken to be lossless here; the decimal
      text the app writes rounds them. */
  lemma ExportRoundTrip(records: seq<ImuData>)
    requires records != []
    ensures Export(records).Some?
    ensures ParseCsv(Export(records).value) == Some(records)
  {
    var file := CsvFile(records);
    assert file[1..] == CsvRows(records);
    ParseRowsOfRows(records);
  }
}
