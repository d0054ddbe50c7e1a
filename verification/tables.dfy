/** The tables the reconciliation step reads and writes, as in-memory values. */
module Tables {

  datatype Option<+T> = None | Some(value: T)

  datatype Result<+T, +E> = Ok(value: T) | Err(error: E)

  /** A row of double_click.raw_delivery. The placement id is kept in its text
      form, since the join compares `placement_id::text`; dates are day numbers. */
  datatype RawFact = RawFact(
    importRecordId: string,
    placementId: string,
    date: int,
    impressions: int,
    clicks: int)

  /** A row of vendor_ids.maps: the vendor id is valid for one line item and
      (possibly NULL) creative over the inclusive range [dateStart, dateEnd]. */
  datatype VendorMap = VendorMap(
    vendorId: string,
    liCode: string,
    creativeRtbId: Option<string>,
    dateStart: int,
    dateEnd: int,
    isDeleted: bool)

  /** A row of vendor_ids.alignment_conflicts. */
  datatype AlignmentConflict = AlignmentConflict(liCode: string, dateStart: int, dateEnd: int)

  /** Provider and time-zone values are opaque; their codes are ordered as the
      database orders the text values, which is all that MAX needs. */
  type Label = nat

  /** The upstream tables. import_metadata and import.records are keyed by the
      import record id, so each is a map from that id to the one column used. */
  datatype Database = Database(
    rawDelivery: seq<RawFact>,
    maps: seq<VendorMap>,
    reportTimeZone: map<string, Label>,
    vendor: map<string, Label>,
    conflicts: seq<AlignmentConflict>)

  /** A row of snoopy.delivery_by_flight_creative_day (and of the temp table of
      expected rows, which has the same columns in the same order). */
  datatype OutputRow = OutputRow(
    date: int,
    flightId: string,
    creativeId: Option<string>,
    impressions: int,
    clicks: int,
    provider: Label,
    timeZone: Label,
    updatedAt: int,
    isDeleted: bool)

  /** What `RETURNING flight_id, creative_id, date` reports of a row. */
  datatype RowKey = RowKey(flightId: string, creativeId: Option<string>, date: int)

  /** The same rows with updated_at = t, as a later transaction's now() stamps them. */
  function Restamp(rows: seq<OutputRow>, t: int): seq<OutputRow> {
    seq(|rows|, i requires 0 <= i < |rows| => rows[i].(updatedAt := t))
  }

  function KeyOf(r: OutputRow): RowKey {
    RowKey(r.flightId, r.creativeId, r.date)
  }
}
