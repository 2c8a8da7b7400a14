/** Sensor records as `csv.DictReader` delivers them to the processor. */
module Records {
  import opened Wrappers

  /** One cell of a CSV row, abstracted to what the processor can make of its
      text: `number` is what `float()` returns (None when it raises), and
      `instant` is what `datetime.fromisoformat()` returns, as whole seconds
      on one fixed time line (None when it raises). The None value that
      `DictReader` puts into the cells of a short row is Cell(None, None). */
  datatype Cell = Cell(number: Option<real>, instant: Option<int>)

  /** A row: the header's field names mapped to the row's cells. */
  type Row = map<string, Cell>

  const Voltage: string := "voltage"
  const Current: string := "current"
  const Temperature: string := "temperature"
  const Power: string := "power"
  const Timestamp: string := "timestamp"

  /** `float(row[key])`, with a missing key or a failed conversion as None. */
  function Number(row: Row, key: string): Option<real>
  {
    if key in row then row[key].number else None
  }

  /** The four numeric readings of one row once all of them have parsed. */
  datatype Reading = Reading(voltage: real, current: real, temperature: real, power: real)

  /** The four conversions `float(record[...])` of one row, in the source's order. */
  function ReadingOf(row: Row): (r: Option<Reading>)
    ensures r.Some? <==>
      Number(row, Voltage).Some? && Number(row, Current).Some? &&
      Number(row, Temperature).Some? && Number(row, Power).Some?
    ensures r.Some? ==>
      && Number(row, Voltage) == Some(r.value.voltage)
      && Number(row, Current) == Some(r.value.current)
      && Number(row, Temperature) == Some(r.value.temperature)
      && Number(row, Power) == Some(r.value.power)
  {
    match (Number(row, Voltage), Number(row, Current), Number(row, Temperature), Number(row, Power))
    case (Some(v), Some(i), Some(t), Some(p)) => Some(Reading(v, i, t, p))
    case _ => None
  }

  /** A row holding just the four numeric fields, as in the examples. */
  function NumericRow(v: real, i: real, t: real, p: real): (row: Row)
    ensures ReadingOf(row) == Some(Reading(v, i, t, p))
    ensures Timestamp !in row
  {
    map[Voltage := Cell(Some(v), None), Current := Cell(Some(i), None),
        Temperature := Cell(Some(t), None), Power := Cell(Some(p), None)]
  }
}
