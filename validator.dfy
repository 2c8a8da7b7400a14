/** The record validator: is one sensor row physically plausible? */
module Validator {
  import opened Wrappers
  import opened Records

  // Inclusive physical ranges of a solar panel sensor.
  const VoltageMin: real := 18.0
  const VoltageMax: real := 32.0
  const CurrentMin: real := 0.0
  const CurrentMax: real := 12.0
  const TemperatureMin: real := -10.0
  const TemperatureMax: real := 80.0
  const PowerMin: real := 0.0

  /** `validate_data`: all four fields are converted first, and a failed
      conversion (missing key, non-numeric text, None cell) rejects the row
      instead of raising; then the range checks run in order, each one
      rejecting on its own. The row is accepted exactly when every field
      parses and lies in its inclusive range; nothing else of the row,
      in particular its timestamp, is looked at. */
  function ValidateData(row: Row): (ok: bool)
    ensures ok <==>
      && Number(row, Voltage).Some? && Number(row, Current).Some?
      && Number(row, Temperature).Some? && Number(row, Power).Some?
      && VoltageMin <= Number(row, Voltage).value <= VoltageMax
      && CurrentMin <= Number(row, Current).value <= CurrentMax
      && TemperatureMin <= Number(row, Temperature).value <= TemperatureMax
      && Number(row, Power).value >= PowerMin
  {
    match ReadingOf(row)
    case None => false
    case Some(r) =>
      if !(VoltageMin <= r.voltage <= VoltageMax) then false
      else if !(CurrentMin <= r.current <= CurrentMax) then false
      else if !(TemperatureMin <= r.temperature <= TemperatureMax) then false
      else if r.power < PowerMin then false
      else true
  }

  /** A row that is missing one of the four fields, or whose value there does
      not convert, is rejected (and no error escapes). */
  lemma UnparsableFieldRejected(row: Row, key: string)
    requires key == Voltage || key == Current || key == Temperature || key == Power
    requires key !in row || row[key].number.None?
    ensures !ValidateData(row)
  {
  }

  /** The verdict depends on the four numeric fields alone: two rows that agree
      on them get the same verdict, whatever else they carry. */
  lemma VerdictDependsOnlyOnReadings(a: Row, b: Row)
    requires Number(a, Voltage) == Number(b, Voltage)
    requires Number(a, Current) == Number(b, Current)
    requires Number(a, Temperature) == Number(b, Temperature)
    requires Number(a, Power) == Number(b, Power)
    ensures ValidateData(a) == ValidateData(b)
  {
  }

  /** The timestamp is never inspected: replacing or adding it does not change
      the verdict. */
  lemma TimestampNotInspected(row: Row, c: Cell)
    ensures ValidateData(row[Timestamp := c]) == ValidateData(row)
  {
    VerdictDependsOnlyOnReadings(row[Timestamp := c], row);
  }

  /** There is no cross-field check: 25 V at 5 A with a claimed 250 W is
      accepted although 25 * 5 = 125, while the same row at 50 V is rejected
      for its voltage alone. */
  lemma NoCrossFieldCheck()
    ensures ValidateData(NumericRow(25.0, 5.0, 30.0, 250.0))
    ensures 25.0 * 5.0 != 250.0
    ensures !ValidateData(NumericRow(50.0, 5.0, 30.0, 250.0))
  {
  }

  /** The example reading of the test suite is a valid record, and so is a
      reading sitting exactly on every bound. */
  lemma ExampleRecordsAccepted()
    ensures ValidateData(NumericRow(24.5, 5.2, 35.0, 127.4))
    ensures ValidateData(NumericRow(18.0, 0.0, -10.0, 0.0))
    ensures ValidateData(NumericRow(32.0, 12.0, 80.0, 0.0))
  {
  }
}
