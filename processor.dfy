/** The batch orchestrator, `process_sensor_data`: partition the rows with
    the validator, aggregate the valid ones, and turn every outcome into one
    result record, which is written once. */
module Processor {
  import opened Wrappers
  import opened Records
  import opened Validator
  import opened Metrics

  /** Why a batch ends in status "error". */
  datatype ErrorKind =
    | InputNotFound              // the input path does not exist
    | MalformedCsv               // the CSV reader raised while reading rows
    | NoValidRecords             // every row was rejected
    | MetricsFailed(cause: MetricsError)  // `calculate_metrics` raised

  /** "pending" is the initial status only; every run ends in one of the others. */
  datatype Status = Pending | Success | Error(kind: ErrorKind)

  /** The result dict; `metrics` None stands for the empty dict `{}`. */
  datatype ProcessingResult = ProcessingResult(
    inputFile: string,
    outputFile: Option<string>,
    processedAt: string,
    status: Status,
    recordsProcessed: nat,
    recordsInvalid: nat,
    metrics: Option<Summary>)

  /** What the CSV reader yields: the rows it delivered, and whether it then
      raised instead of reaching the end of the file. */
  datatype CsvInput = CsvInput(rows: seq<Row>, readFails: bool)

  /** `rfind`: the last position of `c` in `s`, or -1. */
  function LastIndexOf(s: string, c: char): (i: int)
    ensures -1 <= i < |s|
    ensures i >= 0 ==> s[i] == c
    ensures forall j :: i < j < |s| ==> s[j] != c
  {
    if s == [] then -1
    else if s[|s| - 1] == c then |s| - 1
    else LastIndexOf(s[..|s| - 1], c)
  }

  /** `Path(name).stem` (the rule of Python up to 3.13): the name without its
      last suffix, where a suffix is a final `.` part that neither starts the
      name nor is empty. */
  function Stem(name: string): (stem: string)
    ensures stem <= name
    ensures stem != name ==>
      && 0 < |stem| < |name| - 1
      && name[|stem|] == '.'
      && forall j :: |stem| < j < |name| ==> name[j] != '.'
    ensures stem != name <==>
      exists i :: 0 < i < |name| - 1 && name[i] == '.' && forall j :: i < j < |name| ==> name[j] != '.'
  {
    var i := LastIndexOf(name, '.');
    if 0 < i < |name| - 1 then name[..i] else name
  }

  /** `f"{Path(input_file).stem}_result.json"`. */
  function OutputFileName(name: string): string
  {
    Stem(name) + "_result.json"
  }

  lemma OutputFileNameExamples()
    ensures OutputFileName("site1.csv") == "site1_result.json"
    ensures OutputFileName("readings") == "readings_result.json"
    ensures OutputFileName("batch.tar.gz") == "batch.tar_result.json"
  {
    var name := "site1.csv";
    assert name[5] == '.' && name[6] != '.' && name[7] != '.' && name[8] != '.';
    assert name[..5] == "site1";
    name := "batch.tar.gz";
    assert name[9] == '.' && name[10] != '.' && name[11] != '.';
    assert name[..9] == "batch.tar";
  }

  /** `valid_records`: the rows the validator accepts, in input order. */
  function ValidRecords(rows: seq<Row>): (valid: seq<Row>)
    ensures forall i :: 0 <= i < |valid| ==> ValidateData(valid[i])
  {
    if rows == [] then []
    else ValidRecords(rows[..|rows| - 1]) + if ValidateData(rows[|rows| - 1]) then [rows[|rows| - 1]] else []
  }

  /** The number of rows the validator rejects. */
  function CountInvalid(rows: seq<Row>): nat
  {
    if rows == [] then 0
    else CountInvalid(rows[1..]) + if ValidateData(rows[0]) then 0 else 1
  }

  /** The loop loses no row: every row is either kept or counted. */
  lemma {:induction false} PartitionCounts(rows: seq<Row>)
    ensures |ValidRecords(rows)| + CountInvalid(rows) == |rows|
  {
    if rows != [] {
      var init := rows[..|rows| - 1];
      PartitionCounts(init);
      CountInvalidSnoc(init, rows[|rows| - 1]);
      assert init + [rows[|rows| - 1]] == rows;
    }
  }

  lemma {:induction false} CountInvalidSnoc(rows: seq<Row>, row: Row)
    ensures CountInvalid(rows + [row]) == CountInvalid(rows) + if ValidateData(row) then 0 else 1
  {
    if rows != [] {
      assert (rows + [row])[1..] == rows[1..] + [row];
      CountInvalidSnoc(rows[1..], row);
    } else {
      assert [row][1..] == [];
    }
  }

  /** Filtering distributes over concatenation, so the valid records keep the
      order of the input. */
  lemma {:induction false} ValidRecordsConcat(a: seq<Row>, b: seq<Row>)
    ensures ValidRecords(a + b) == ValidRecords(a) + ValidRecords(b)
  {
    if b == [] {
      assert a + b == a;
    } else {
      var bi := b[..|b| - 1];
      ValidRecordsConcat(a, bi);
      assert (a + b)[..|a + b| - 1] == a + bi;
    }
  }

  /** A row is kept exactly when it occurs in the input and validates. */
  lemma {:induction false} ValidRecordsMembers(rows: seq<Row>, row: Row)
    ensures row in ValidRecords(rows) <==> row in rows && ValidateData(row)
  {
    if rows != [] {
      var init := rows[..|rows| - 1];
      ValidRecordsMembers(init, row);
      assert rows == init + [rows[|rows| - 1]];
    }
  }

  /** The result the run produces: this is what the code does, path by path. */
  function Expected(inputName: string, processedAt: string, fileExists: bool, input: CsvInput): ProcessingResult
  {
    var initial := ProcessingResult(inputName, None, processedAt, Pending, 0, 0, None);
    if !fileExists then initial.(status := Error(InputNotFound))
    else
      var valid, invalid := ValidRecords(input.rows), CountInvalid(input.rows);
      var counted := initial.(recordsInvalid := invalid);
      if input.readFails then counted.(status := Error(MalformedCsv))
      else if valid == [] then counted.(status := Error(NoValidRecords))
      else
        match Summarize(valid)
        case Err(e) => counted.(status := Error(MetricsFailed(e)))
        case Ok(m) =>
          counted.(status := Success, recordsProcessed := |valid|, metrics := Some(m),
                   outputFile := Some(OutputFileName(inputName)))
  }

  /** `process_sensor_data` up to the write: one pass over the rows splitting
      them into kept records and an invalid count, then the outcome. */
  method ProcessBatch(inputName: string, processedAt: string, fileExists: bool, input: CsvInput)
    returns (result: ProcessingResult)
    ensures result == Expected(inputName, processedAt, fileExists, input)
  {
    result := ProcessingResult(inputName, None, processedAt, Pending, 0, 0, None);
    if !fileExists {
      result := result.(status := Error(InputNotFound));
      return;
    }
    var valid: seq<Row> := [];
    var i := 0;
    while i < |input.rows|
      invariant 0 <= i <= |input.rows|
      invariant valid == ValidRecords(input.rows[..i])
      invariant result == ProcessingResult(inputName, None, processedAt, Pending, 0, CountInvalid(input.rows[..i]), None)
    {
      var row := input.rows[i];
      assert input.rows[..i + 1] == input.rows[..i] + [row];
      CountInvalidSnoc(input.rows[..i], row);
      if ValidateData(row) {
        valid := valid + [row];
      } else {
        result := result.(recordsInvalid := result.recordsInvalid + 1);
      }
      i := i + 1;
    }
    assert input.rows[..i] == input.rows;
    if input.readFails {
      result := result.(status := Error(MalformedCsv));
      return;
    }
    if valid == [] {
      result := result.(status := Error(NoValidRecords));
      return;
    }
    var metrics := CalculateMetrics(valid);
    match metrics {
      case Err(e) =>
        result := result.(status := Error(MetricsFailed(e)));
      case Ok(m) =>
        result := result.(status := Success, recordsProcessed := |valid|, metrics := Some(m),
                          outputFile := Some(OutputFileName(inputName)));
    }
  }

  /** Every run ends in exactly one terminal status, with the counts,
      metrics and output name each path leaves behind. */
  lemma ExpectedOutcomes(inputName: string, processedAt: string, fileExists: bool, input: CsvInput)
    ensures var r, rows := Expected(inputName, processedAt, fileExists, input), input.rows;
      && r.inputFile == inputName && r.processedAt == processedAt
      && r.status != Pending
      && (!fileExists ==> r.status == Error(InputNotFound) && r.recordsProcessed == 0 && r.recordsInvalid == 0)
      && (fileExists ==> r.recordsInvalid == |rows| - |ValidRecords(rows)|)
      && (fileExists && input.readFails ==> r.status == Error(MalformedCsv))
      && (fileExists && !input.readFails && ValidRecords(rows) == [] ==>
            r.status == Error(NoValidRecords) && r.recordsInvalid == |rows|)
      && (fileExists && !input.readFails && ValidRecords(rows) != [] ==>
            r.status == Success || r.status == Error(MetricsFailed(BadTimestamp)))
      && (r.status == Success <==>
            fileExists && !input.readFails && ValidRecords(rows) != [] && Summarize(ValidRecords(rows)).Ok?)
      && (r.status == Success ==>
            && r.recordsProcessed == |ValidRecords(rows)|
            && r.recordsProcessed + r.recordsInvalid == |rows|
            && r.outputFile == Some(OutputFileName(inputName))
            && r.metrics == Some(Summarize(ValidRecords(rows)).value))
      && (r.status != Success ==> r.recordsProcessed == 0 && r.outputFile == None && r.metrics == None)
  {
    PartitionCounts(input.rows);
    if fileExists && !input.readFails && ValidRecords(input.rows) != [] {
      ValidBatchOutcome(ValidRecords(input.rows));
    }
  }

  /** A successful batch reports metrics of valid records: averages between
      extremes, extremes inside the physical ranges, non-negative energy, and
      variance 0 for a single kept record. */
  lemma SuccessfulMetrics(inputName: string, processedAt: string, fileExists: bool, input: CsvInput)
    requires Expected(inputName, processedAt, fileExists, input).status == Success
    ensures var m := Expected(inputName, processedAt, fileExists, input).metrics.value;
      && m.voltage.min <= m.voltage.avg <= m.voltage.max
      && m.current.min <= m.current.avg <= m.current.max
      && m.temperature.min <= m.temperature.avg <= m.temperature.max
      && VoltageMin <= m.voltage.min && m.voltage.max <= VoltageMax
      && CurrentMin <= m.current.min && m.current.max <= CurrentMax
      && TemperatureMin <= m.temperature.min && m.temperature.max <= TemperatureMax
      && m.totalEnergyKwh >= 0.0
      && (|ValidRecords(input.rows)| == 1 ==> m.voltageVariance == 0.0)
  {
    var valid := ValidRecords(input.rows);
    SummaryConsistent(valid);
    ValidBatchSummary(valid);
  }

  /** Unlike the success and all-invalid cases, a batch whose aggregation
      raises reports neither its kept rows as processed nor as invalid: one
      valid row with an unparsable timestamp gives 0 + 0 for 1 row. */
  lemma AggregationErrorLosesCount()
    ensures var row := NumericRow(24.5, 5.2, 35.0, 127.4)[Timestamp := Cell(None, None)];
      var r := Expected("day.csv", "now", true, CsvInput([row], false));
      && r.status == Error(MetricsFailed(BadTimestamp))
      && r.recordsProcessed + r.recordsInvalid == 0
  {
    var row := NumericRow(24.5, 5.2, 35.0, 127.4)[Timestamp := Cell(None, None)];
    TimestampNotInspected(NumericRow(24.5, 5.2, 35.0, 127.4), Cell(None, None));
    ExampleRecordsAccepted();
    assert [row][..0] == [];
    assert ValidRecords([row]) == [row];
    assert CountInvalid([row]) == 0;
    assert Summarize([row]) == Err(BadTimestamp) by {
      assert ReadingOf(row).Some?;
      assert Readings([row]).Some?;
      assert Timestamp in [row][0] && [row][0][Timestamp].instant.None?;
    }
  }

  /** The output directory: the result files written into it, in order. */
  class OutputDir {
    var written: seq<(string, ProcessingResult)>

    constructor ()
      ensures written == []
    {
      written := [];
    }

    /** `process_sensor_data`: compute the result and write it, success or
        error, exactly once, under the name derived from the input's stem. */
    method ProcessSensorData(inputName: string, processedAt: string, fileExists: bool, input: CsvInput)
      returns (result: ProcessingResult)
      modifies this
      ensures result == Expected(inputName, processedAt, fileExists, input)
      ensures written == old(written) + [(OutputFileName(inputName), result)]
    {
      result := ProcessBatch(inputName, processedAt, fileExists, input);
      written := written + [(OutputFileName(inputName), result)];
    }
  }
}
