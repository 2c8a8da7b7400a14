/** The metrics aggregator, `calculate_metrics`. */
module Metrics {
  import opened Wrappers
  import opened Records
  import opened Validator
  import opened Stats
  import opened Hourly
  import opened HourlyLoop

  /** avg, min and max of one field (avg before rounding). */
  datatype FieldStats = FieldStats(avg: real, min: real, max: real)

  /** The metrics dict. `voltageVariance` is the voltage "std" entry before
      its square root; `peakPowerHour` is the start of the peak hour. */
  datatype Summary = Summary(
    voltage: FieldStats,
    voltageVariance: real,
    current: FieldStats,
    temperature: FieldStats,
    totalEnergyKwh: real,
    peakPowerHour: Option<int>)

  /** Why `calculate_metrics` raises: a field does not convert (the four list
      comprehensions), a timestamp does not parse (the `hourly_power` loop),
      or there is no record at all (`statistics.mean` of an empty list). */
  datatype MetricsError = NotNumeric | BadTimestamp | NoData

  /** The four comprehensions `[float(r[...]) for r in data]`, all or nothing. */
  function Readings(data: seq<Row>): (r: Option<seq<Reading>>)
    ensures r.Some? <==> forall i :: 0 <= i < |data| ==> ReadingOf(data[i]).Some?
    ensures r.Some? ==> |r.value| == |data|
    ensures r.Some? ==> forall i :: 0 <= i < |data| ==> ReadingOf(data[i]) == Some(r.value[i])
  {
    if data == [] then Some([])
    else
      match (ReadingOf(data[0]), Readings(data[1..]))
      case (Some(x), Some(xs)) => Some([x] + xs)
      case (None, _) => None
      case (_, None) =>
        var i :| 0 <= i < |data[1..]| && ReadingOf(data[1..][i]).None?;
        assert ReadingOf(data[i + 1]).None?;
        None
  }

  function Voltages(rs: seq<Reading>): (xs: seq<real>)
    ensures |xs| == |rs| && forall i :: 0 <= i < |rs| ==> xs[i] == rs[i].voltage
  {
    seq(|rs|, i requires 0 <= i < |rs| => rs[i].voltage)
  }

  function Currents(rs: seq<Reading>): (xs: seq<real>)
    ensures |xs| == |rs| && forall i :: 0 <= i < |rs| ==> xs[i] == rs[i].current
  {
    seq(|rs|, i requires 0 <= i < |rs| => rs[i].current)
  }

  function Temperatures(rs: seq<Reading>): (xs: seq<real>)
    ensures |xs| == |rs| && forall i :: 0 <= i < |rs| ==> xs[i] == rs[i].temperature
  {
    seq(|rs|, i requires 0 <= i < |rs| => rs[i].temperature)
  }

  function Powers(rs: seq<Reading>): (xs: seq<real>)
    ensures |xs| == |rs| && forall i :: 0 <= i < |rs| ==> xs[i] == rs[i].power
  {
    seq(|rs|, i requires 0 <= i < |rs| => rs[i].power)
  }

  function StatsOf(xs: seq<real>): FieldStats
    requires |xs| > 0
  {
    FieldStats(Mean(xs), Min(xs), Max(xs))
  }

  lemma ReadingsGivePowers(data: seq<Row>)
    requires Readings(data).Some?
    ensures PowersParse(data)
  {
    forall i | 0 <= i < |data| ensures Number(data[i], Power).Some? {
      assert ReadingOf(data[i]).Some?;
    }
  }

  /** The metrics dict of a non-empty batch: `readings` are its converted
      rows, `samples` what its timestamped rows put into `hourly_power`. */
  function SummaryOf(readings: seq<Reading>, samples: seq<Sample>): Summary
    requires |readings| > 0
  {
    Summary(
      StatsOf(Voltages(readings)),
      SampleVariance(Voltages(readings)),
      StatsOf(Currents(readings)),
      StatsOf(Temperatures(readings)),
      EnergyKwh(Powers(readings)),
      PeakHour(Group(samples)))
  }

  /** What `calculate_metrics(data)` returns or raises, in the order the source
      raises: conversions first, then timestamps, then the empty batch. */
  function Summarize(data: seq<Row>): Result<Summary, MetricsError>
  {
    match Readings(data)
    case None => Err(NotNumeric)
    case Some(rs) =>
      ReadingsGivePowers(data);
      match Samples(data)
      case None => Err(BadTimestamp)
      case Some(samples) => if rs == [] then Err(NoData) else Ok(SummaryOf(rs, samples))
  }

  /** `calculate_metrics`. It computes `Summarize` step by step, except that the
      hourly buckets come from the `GroupByHour` loop; the properties are
      proved about `Summarize`. */
  method CalculateMetrics(data: seq<Row>) returns (r: Result<Summary, MetricsError>)
    ensures r == Summarize(data)
  {
    var readings := Readings(data);
    if readings.None? {
      return Err(NotNumeric);
    }
    var rs := readings.value;
    var voltages, currents, temperatures, powers := Voltages(rs), Currents(rs), Temperatures(rs), Powers(rs);
    var energy := EnergyKwh(powers);
    ReadingsGivePowers(data);
    var hourly := GroupByHour(data);
    if hourly.None? {
      return Err(BadTimestamp);
    }
    var peak := PeakHour(hourly.value);
    if rs == [] {
      return Err(NoData);
    }
    r := Ok(Summary(
      StatsOf(voltages), SampleVariance(voltages),
      StatsOf(currents), StatsOf(temperatures),
      energy, peak));
  }

  /** `calculate_metrics` fails exactly on what the source makes it fail on:
      a field that does not convert, a timestamp that does not parse, or an
      empty batch. */
  lemma SummarizeOutcome(data: seq<Row>)
    ensures Summarize(data).Err? <==>
      || (exists i :: 0 <= i < |data| && ReadingOf(data[i]).None?)
      || (exists i :: 0 <= i < |data| && Timestamp in data[i] && data[i][Timestamp].instant.None?)
      || data == []
  {
  }

  /** A successful summary in terms of the readings and samples. */
  lemma SummaryFields(data: seq<Row>)
    requires Summarize(data).Ok?
    ensures Readings(data).Some? && Readings(data).value != []
    ensures PowersParse(data) && Samples(data).Some?
    ensures Summarize(data).value == SummaryOf(Readings(data).value, Samples(data).value)
  {
    ReadingsGivePowers(data);
  }

  /** Every field's average lies between its minimum and maximum, the variance
      is non-negative, and a single record has variance 0. */
  lemma SummaryConsistent(data: seq<Row>)
    requires Summarize(data).Ok?
    ensures var m := Summarize(data).value;
      && m.voltage.min <= m.voltage.avg <= m.voltage.max
      && m.current.min <= m.current.avg <= m.current.max
      && m.temperature.min <= m.temperature.avg <= m.temperature.max
      && m.voltageVariance >= 0.0
      && (|data| == 1 ==> m.voltageVariance == 0.0)
  {
    SummaryFields(data);
    var rs := Readings(data).value;
    MeanBetweenMinMax(Voltages(rs));
    MeanBetweenMinMax(Currents(rs));
    MeanBetweenMinMax(Temperatures(rs));
  }

  /** The validator's ranges, on converted readings. */
  predicate Plausible(r: Reading)
  {
    && VoltageMin <= r.voltage <= VoltageMax
    && CurrentMin <= r.current <= CurrentMax
    && TemperatureMin <= r.temperature <= TemperatureMax
    && r.power >= PowerMin
  }

  /** Valid records convert, and their readings are plausible. */
  lemma ValidReadings(data: seq<Row>)
    requires forall i :: 0 <= i < |data| ==> ValidateData(data[i])
    ensures Readings(data).Some?
    ensures forall i :: 0 <= i < |data| ==> Plausible(Readings(data).value[i])
  {
    forall i | 0 <= i < |data| ensures ReadingOf(data[i]).Some? {
      assert ValidateData(data[i]);
    }
    var rs := Readings(data).value;
    forall i | 0 <= i < |data| ensures Plausible(rs[i]) {
      assert ValidateData(data[i]);
      assert ReadingOf(data[i]) == Some(rs[i]);
    }
  }

  /** On a non-empty batch of valid records (what the orchestrator passes) the
      only possible failure is a bad timestamp. */
  lemma ValidBatchOutcome(data: seq<Row>)
    requires data != []
    requires forall i :: 0 <= i < |data| ==> ValidateData(data[i])
    ensures Summarize(data).Ok? || Summarize(data) == Err(BadTimestamp)
  {
    ValidReadings(data);
  }

  lemma ExtremesWithin(xs: seq<real>, lo: real, hi: real)
    requires |xs| > 0
    requires forall i :: 0 <= i < |xs| ==> lo <= xs[i] <= hi
    ensures lo <= Min(xs) && Max(xs) <= hi
  {
    assert Min(xs) in xs && Max(xs) in xs;
  }

  /** Plausible readings keep every minimum and maximum inside the physical
      ranges, and the energy non-negative. */
  lemma PlausibleSummary(rs: seq<Reading>, samples: seq<Sample>)
    requires |rs| > 0
    requires forall i :: 0 <= i < |rs| ==> Plausible(rs[i])
    ensures var m := SummaryOf(rs, samples);
      && VoltageMin <= m.voltage.min && m.voltage.max <= VoltageMax
      && CurrentMin <= m.current.min && m.current.max <= CurrentMax
      && TemperatureMin <= m.temperature.min && m.temperature.max <= TemperatureMax
      && m.totalEnergyKwh >= 0.0
  {
    ExtremesWithin(Voltages(rs), VoltageMin, VoltageMax);
    ExtremesWithin(Currents(rs), CurrentMin, CurrentMax);
    ExtremesWithin(Temperatures(rs), TemperatureMin, TemperatureMax);
    EnergyNonNegative(Powers(rs));
  }

  /** On a successful summary of valid records, every minimum and maximum
      stays inside the validated physical range and the energy is
      non-negative. */
  lemma ValidBatchSummary(data: seq<Row>)
    requires forall i :: 0 <= i < |data| ==> ValidateData(data[i])
    requires Summarize(data).Ok?
    ensures var m := Summarize(data).value;
      && VoltageMin <= m.voltage.min && m.voltage.max <= VoltageMax
      && CurrentMin <= m.current.min && m.current.max <= CurrentMax
      && TemperatureMin <= m.temperature.min && m.temperature.max <= TemperatureMax
      && m.totalEnergyKwh >= 0.0
  {
    ValidReadings(data);
    SummaryFields(data);
    PlausibleSummary(Readings(data).value, Samples(data).value);
  }

  /** The peak power hour of a successful summary: absent exactly when no
      record has a `timestamp` key; otherwise, among the hours the records
      fall in, the first one (in order of first appearance) with the highest
      mean power. */
  lemma PeakPowerHour(data: seq<Row>)
    requires Summarize(data).Ok?
    ensures PowersParse(data) && Samples(data).Some?
    ensures Summarize(data).value.peakPowerHour.None? <==>
      forall i :: 0 <= i < |data| ==> Timestamp !in data[i]
    ensures Summarize(data).value.peakPowerHour.Some? ==>
      IsPeakHour(Samples(data).value, Summarize(data).value.peakPowerHour.value)
  {
    SummaryFields(data);
    PeakHourOfSamples(Samples(data).value);
  }

  /** Two records of 20 V / 2 A / 25 C / 40 W and 30 V / 4 A / 35 C / 120 W:
      voltage avg 25 between 20 and 30 with sample variance 50, current avg 3
      up to 4, temperature avg 30, energy (40 + 120) * (5/60) / 1000 = 1/75
      kWh, and no peak hour since no record has a timestamp. */
  lemma TwoRecordExample()
    ensures Summarize([NumericRow(20.0, 2.0, 25.0, 40.0), NumericRow(30.0, 4.0, 35.0, 120.0)]) ==
      Ok(Summary(
        FieldStats(25.0, 20.0, 30.0), 50.0,
        FieldStats(3.0, 2.0, 4.0),
        FieldStats(30.0, 25.0, 35.0),
        1.0 / 75.0,
        None))
  {
    var data := [NumericRow(20.0, 2.0, 25.0, 40.0), NumericRow(30.0, 4.0, 35.0, 120.0)];
    var rs := [Reading(20.0, 2.0, 25.0, 40.0), Reading(30.0, 4.0, 35.0, 120.0)];
    assert Readings(data) == Some(rs) by {
      assert ReadingOf(data[0]) == Some(rs[0]) && ReadingOf(data[1]) == Some(rs[1]);
      assert Readings(data).Some?;
      var got := Readings(data).value;
      assert got[0] == rs[0] && got[1] == rs[1];
      assert got == rs;
    }
    assert Samples(data) == Some([]) by {
      ReadingsGivePowers(data);
      assert Timestamp !in data[0] && Timestamp !in data[1];
    }
    TwoReadingSummary();
  }

  lemma TwoReadingSummary()
    ensures SummaryOf([Reading(20.0, 2.0, 25.0, 40.0), Reading(30.0, 4.0, 35.0, 120.0)], []) ==
      Summary(
        FieldStats(25.0, 20.0, 30.0), 50.0,
        FieldStats(3.0, 2.0, 4.0),
        FieldStats(30.0, 25.0, 35.0),
        1.0 / 75.0,
        None)
  {
    var rs := [Reading(20.0, 2.0, 25.0, 40.0), Reading(30.0, 4.0, 35.0, 120.0)];
    assert Voltages(rs) == [20.0, 30.0];
    assert Currents(rs) == [2.0, 4.0];
    assert Temperatures(rs) == [25.0, 35.0];
    assert Powers(rs) == [40.0, 120.0];
    assert Mean([20.0, 30.0]) == 25.0;
  }
}
