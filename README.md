# Solar sensor batch processor — a Dafny model

This project models the core of a solar-panel telemetry processor. The
processor reads one CSV batch of sensor readings. Each reading has a
timestamp, voltage, current, temperature and power. The processor keeps
the physically plausible readings, computes statistics and energy over
them, and emits exactly one result record per batch, success or error.

The three parts of `src/processor.py` are modelled in the same form as
the source:

- **Validator** (`validate_data`): a pure function over a row.
  A row maps field names to cells. A cell records what `float()` and
  `datetime.fromisoformat()` make of its text.
  - A missing key, a non-numeric value or the `None` cell of a short CSV
    row all reject the row. Nothing is raised.
  - The ranges are inclusive: 18 ≤ V ≤ 32, 0 ≤ A ≤ 12, −10 ≤ °C ≤ 80,
    and power ≥ 0.
- **Aggregator** (`calculate_metrics`): pure functions for the list
  comprehensions, `sum`, `min`, `max` and `mean`.
  - The `hourly_power` loop is a method (`GroupByHour`). It is proved
    against a grouping function over (hour, power) samples.
  - The dict is modelled as an insertion-ordered list of buckets.
  - Python's `max` over the dict's items is a left-to-right scan that
    keeps the first maximum.
  - `calculate_metrics` can raise in three ways: a field does not
    convert, a timestamp does not parse, or the batch is empty. The
    model returns these as errors, in the order the source raises them.
- **Orchestrator** (`process_sensor_data`): a method with the row loop.
  - The loop splits rows into valid records and an invalid count. Its
    invariant ties both to the prefix read so far.
  - Then comes one of five outcomes: input missing, CSV reader error, no
    valid record, aggregation error, or success. The initial `pending`
    status is never returned.
  - The output directory is an object that records written files. Each
    run appends exactly one file.

Notes on what the code does:

- `records_processed + records_invalid` equals the row count on success
  and on the all-invalid error (`Processor.ExpectedOutcomes`). When
  `calculate_metrics` raises, `records_processed` stays 0, so such a batch
  under-reports (`Processor.AggregationErrorLosesCount`).
- `csv.DictReader` does not raise for rows of inconsistent width. A short
  row gets `None` cells. If a missing cell is one of the four numeric
  fields, the validator rejects the row. If only the `timestamp` cell is
  missing, the row is accepted, since the validator never reads the
  timestamp. `fromisoformat(None)` then raises during aggregation, and the
  whole batch ends in an aggregation error. Only a reader error ends the
  row loop (`CsvInput.readFails`).
- Error results keep `output_file` as `None`, although the result file
  is still written.

## Model

| member | source | states |
|---|---|---|
| Validator.ValidateData | src/processor.py:19-48 | accepts a row exactly when all four fields convert and 18 ≤ voltage ≤ 32, 0 ≤ current ≤ 12, −10 ≤ temperature ≤ 80, power ≥ 0, all bounds inclusive |
| Validator.UnparsableFieldRejected | src/processor.py:30-48 | a missing key or non-numeric value in any of the four fields yields false, not an error |
| Validator.VerdictDependsOnlyOnReadings | src/processor.py:31-45 | two rows that agree on the four numeric fields get the same verdict |
| Validator.TimestampNotInspected | src/processor.py:31-45 | setting or changing the timestamp never changes the verdict |
| Validator.NoCrossFieldCheck | src/processor.py:36-45 | 25 V, 5 A, 30 °C, 250 W passes although 25·5 ≠ 250; at 50 V the same row fails |
| Validator.ExampleRecordsAccepted | tests/test_processor.py:24-30 | the test suite's example reading and readings on the range bounds are valid |
| Stats.Min | src/processor.py:82 | `min` returns an element that is ≤ every element |
| Stats.Max | src/processor.py:83 | `max` returns an element that is ≥ every element |
| Stats.MeanBetweenMinMax | src/processor.py:80-95 | for every field, min ≤ mean ≤ max |
| Stats.MeanWithin | src/processor.py:81 | the mean of values in [lo, hi] lies in [lo, hi] |
| Stats.SampleVariance | src/processor.py:84 | the voltage spread is ≥ 0 and exactly 0.0 for a single record |
| Stats.EnergyNonNegative | src/processor.py:61-63 | non-negative powers give non-negative `total_energy_kwh` |
| Stats.EnergyMonotone | src/processor.py:61-63 | energy is monotone in every power value |
| Stats.EnergyOfOneRecord | src/processor.py:61-63 | changing one record's power by d changes the energy by d·(5/60)/1000 |
| Stats.EnergyAdditive | src/processor.py:61-63 | the energy of a batch is the sum of the energies of its parts (fixed 5-minute intervals) |
| Hourly.HourOf | src/processor.py:70 | the hour bucket is a multiple of 3600 s with start ≤ t < start + 3600 |
| Hourly.AddPower | src/processor.py:71 | `setdefault(h, []).append(p)`: an existing key keeps its place and gets p appended, a new key is added last with [p], keys stay distinct |
| Hourly.Group | src/processor.py:66-71 | `hourly_power` has distinct keys and non-empty lists, and is empty exactly when no sample was added |
| Hourly.GroupHours | src/processor.py:66-71 | there is a bucket for an hour exactly when some timestamped record falls in it |
| Hourly.GroupPowers | src/processor.py:66-71 | each bucket holds exactly the powers of its hour's records, in order |
| Hourly.GroupOrder | src/processor.py:66-71 | buckets stand in the order their hours first appear |
| Hourly.FirstMaxIndex | src/processor.py:73-77 | `max` with a key: the chosen item's key is ≥ every key and > every earlier key (first maximum wins) |
| Hourly.PeakHourOfSamples | src/processor.py:73-77 | peak hour is None exactly when there are no samples; otherwise the first-appearing hour with the highest mean power |
| HourlyLoop.Samples | src/processor.py:67-71 | the loop fails exactly when some record has a `timestamp` key whose value does not parse; it adds nothing exactly when no record has the key |
| HourlyLoop.GroupByHour | src/processor.py:66-71 | the loop builds exactly the grouping of the timestamped samples, or fails where `fromisoformat` raises |
| Metrics.Readings | src/processor.py:56-59 | the four comprehensions succeed exactly when every row's four fields convert, and then yield each row's readings in order |
| Metrics.CalculateMetrics | src/processor.py:51-98 | computes the summary function: averages, extremes, voltage variance, energy and peak hour, or the error the source raises |
| Metrics.SummarizeOutcome | src/processor.py:51-98 | aggregation fails exactly on a non-converting field, an unparsable timestamp or an empty batch |
| Metrics.SummaryConsistent | src/processor.py:80-95 | on success min ≤ avg ≤ max for voltage, current and temperature; variance ≥ 0 and 0.0 for one record |
| Metrics.ValidBatchOutcome | src/processor.py:145-148 | a non-empty batch of valid records can only fail on a timestamp |
| Metrics.ValidBatchSummary | src/processor.py:56-95 | over valid records every min/max lies in the validated range and energy ≥ 0 |
| Metrics.PeakPowerHour | src/processor.py:65-77 | peak hour is None exactly when no record has a `timestamp` key, else the first hour with the highest mean power |
| Metrics.TwoRecordExample | src/processor.py:56-98 | records (20 V, 2 A, 25 °C, 40 W) and (30 V, 4 A, 35 °C, 120 W) give averages 25/3/30, extremes 20–30, 2–4, 25–35, variance 50, energy 1/75 kWh, no peak hour |
| Processor.Stem | src/processor.py:123 | the stem is a prefix of the name; it is shorter exactly when the last `.` of the name neither starts nor ends it, and then it ends just before that `.` |
| Processor.OutputFileNameExamples | src/processor.py:123 | `site1.csv` → `site1_result.json`, `readings` → `readings_result.json`, `batch.tar.gz` → `batch.tar_result.json` |
| Processor.ValidRecords | src/processor.py:131-143 | every kept record passes the validator |
| Processor.PartitionCounts | src/processor.py:131-143 | kept records plus the invalid count equal the rows read |
| Processor.ValidRecordsConcat | src/processor.py:136-141 | filtering distributes over concatenation, so the kept records keep input order |
| Processor.ValidRecordsMembers | src/processor.py:136-141 | a row is kept exactly when it is in the input and validates |
| Processor.ProcessBatch | src/processor.py:101-161 | the row loop and the outcome it ends in, equal to the path-by-path result of the source |
| Processor.ExpectedOutcomes | src/processor.py:110-161 | every run ends in success or one error kind, never pending; a missing file gives 0/0; the invalid count is rows minus kept; all-invalid gives count = rows; success iff file present, reader ok, some valid row and aggregation ok; success sets processed = kept, output name and metrics; errors leave processed 0, no output name and empty metrics |
| Processor.SuccessfulMetrics | src/processor.py:148-157 | a success result's metrics have avg between extremes, extremes inside the physical ranges, energy ≥ 0, and variance 0 for one kept record |
| Processor.AggregationErrorLosesCount | src/processor.py:141-161 | one valid row with an unparsable timestamp ends as an aggregation error with processed + invalid = 0 for 1 row |
| Processor.OutputDir.ProcessSensorData | src/processor.py:163-167 | every run, success or error, writes its result exactly once under `<stem>_result.json` and returns that same result |

## Left out

- Filesystem: `Path.exists` is the `fileExists` parameter. `mkdir`, `open` and `json.dump` become one appended entry of `OutputDir.written`. Splitting a path into directory and base name is left out: the model takes the base name.
- Filesystem failures: creating the output directory (line 121) and writing the result file (lines 164-165) happen outside the `try`. When either fails, the exception reaches the caller and no result is returned. In the model both always succeed.
- CSV parsing: `csv.DictReader` is left out. The model receives the rows it delivers and whether it then raised.
- Clock: `datetime.utcnow()` is the `processedAt` parameter.
- Number parsing: what `float()` makes of a cell's text is given with the cell. `"nan"` and `"inf"` are not modelled as values. In the source a NaN or +inf power passes `power < 0` and is accepted; −inf is rejected.
- Timestamps: what `datetime.fromisoformat()` makes of a cell is given with the cell, as whole seconds on one time line. Time zones and the mixing of naive and aware datetimes are left out. `isoformat()` of the peak hour is left out: the model reports the hour's start instant.
- Metrics.CalculateMetrics: averages and energy are exact reals, not rounded with `round(..., 2)`, and Python's binary floating-point error is not modelled.
- Stats.SampleVariance: the voltage `std` entry is the sample variance before `statistics.stdev` takes its square root. Both are 0.0 and ≥ 0 together.
- Error messages: the text of `str(e)` is replaced by an error kind.
- The `except Exception` around `validate_data` (lines 142-143) is not modelled, because `validate_data` never raises.
- `main` (CLI directory scan and printing) and `src/data_generator.py` (random synthetic data) are not part of this model.
