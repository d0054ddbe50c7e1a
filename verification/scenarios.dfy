/** Two concrete runs of the reconciliation step. */
module Scenarios {
  import opened Tables
  import opened Text
  import opened Expected
  import opened Apply

  const IMPORT: string := "imp-1"
  // 2018-05-01 and 2018-05-02, as days since 1970-01-01
  const DAY1: int := 17652
  const DAY2: int := 17653

  /** One import with one fact for vendor id 555, mapped to line item ABCP1 and
      creative c1 over a range that contains the fact's date. */
  function OneFactDatabase(): Database {
    Database(
      [RawFact(IMPORT, "555", DAY1, 100, 1)],
      [VendorMap("555", "ABCP1", Some("c1"), DAY1 - 10, DAY1 + 10, false)],
      map[IMPORT := 2],
      map[IMPORT := 7],
      [])
  }

  /** A line-item request for ABCP1 against that database yields one expected row
      for flight P1, and applying it to an empty table inserts just that row and
      soft-deletes nothing. */
  lemma OneFactIntoEmptyTable(now: int)
    ensures var expected := ExpectedRows(OneFactDatabase(), LiCode("ABCP1"), now);
      && expected == [OutputRow(DAY1, "P1", Some("c1"), 100, 1, 7, 2, now, false)]
      && Reconciled([], expected, ["P1"]) == expected
      && DeletedKeys([], expected, ["P1"]) == []
  {
    var db := OneFactDatabase();
    var scope := LiCode("ABCP1");
    var m := db.maps[0];
    var f := db.rawDelivery[0];
    assert !InConflict(db.conflicts, m.liCode, f.date);
    assert Contributes(db, scope, f, m);
    var c := ContributionOf(db, f, m);
    assert JoinFact(db, scope, f, db.maps) == [c];
    assert Joined(db, scope) == [c];
    assert Groups([c]) == [c.key];
    assert FlightOf("ABCP1") == "P1";
    assert GroupMax([c], c.key, Provider) == 7;
    assert GroupMax([c], c.key, TimeZone) == 2;
    var expected := ExpectedRows(db, scope, now);
    assert expected == [RowFor([c], c.key, now)];
    assert SoftDeleted([], expected, ["P1"]) == [];
    assert Filter([], Unmatched(expected)) == [];
    FilterNone([], TouchedBy(expected, ["P1"]));
  }

  /** The same fact with the vendor mapping listed twice: both copies join, so
      the one group counts the fact twice. */
  function DuplicatedMapDatabase(): Database {
    var db := OneFactDatabase();
    db.(maps := db.maps + db.maps)
  }

  /** With the mapping listed twice, the request for ABCP1 still yields one
      expected row, but with twice the fact's impressions and clicks, and the join
      holds its contribution twice. */
  lemma DuplicatedMapDoublesTheRow(now: int)
    ensures var db := DuplicatedMapDatabase();
      var c := ContributionOf(db, db.rawDelivery[0], db.maps[0]);
      && multiset(Joined(db, LiCode("ABCP1")))[c] == 2
      && ExpectedRows(db, LiCode("ABCP1"), now)
         == [OutputRow(DAY1, "P1", Some("c1"), 200, 2, 7, 2, now, false)]
  {
    var db := DuplicatedMapDatabase();
    var scope := LiCode("ABCP1");
    var m := db.maps[0];
    var f := db.rawDelivery[0];
    assert db.maps == [m, m];
    assert !InConflict(db.conflicts, m.liCode, f.date);
    assert Contributes(db, scope, f, m);
    var c := ContributionOf(db, f, m);
    assert JoinFact(db, scope, f, [m]) == [c];
    assert JoinFact(db, scope, f, db.maps) == [c, c];
    assert Joined(db, scope) == [c, c];
    assert Groups([c]) == [c.key];
    assert Groups([c, c]) == [c.key];
    assert FlightOf("ABCP1") == "P1";
    assert GroupSum([c, c], c.key, Impressions) == 200;
    assert GroupSum([c, c], c.key, Clicks) == 2;
    assert GroupMax([c, c], c.key, Provider) == 7;
    assert GroupMax([c, c], c.key, TimeZone) == 2;
    assert ExpectedRows(db, scope, now) == [RowFor([c, c], c.key, now)];
  }

  /** Flight P1 holds a live row for DAY2, a day no upstream fact supports: the
      request for ABCP1 yields only the DAY1 row, so the step soft-deletes the
      DAY2 row, reports its key, and inserts the DAY1 row. */
  lemma UnsupportedRowIsSoftDeleted(row: OutputRow, now: int)
    requires row.flightId == "P1" && row.date == DAY2 && !row.isDeleted
    ensures var expected := ExpectedRows(OneFactDatabase(), LiCode("ABCP1"), now);
      && Reconciled([row], expected, ["P1"]) == [row.(isDeleted := true)] + expected
      && DeletedKeys([row], expected, ["P1"]) == [KeyOf(row)]
  {
    OneFactIntoEmptyTable(now);
    StaleRowAgainstOneRow(row, OutputRow(DAY1, "P1", Some("c1"), 100, 1, 7, 2, now, false));
  }

  lemma StaleRowAgainstOneRow(row: OutputRow, e: OutputRow)
    requires row.flightId == "P1" && row.date == DAY2 && !row.isDeleted && e.date == DAY1
    ensures Reconciled([row], [e], ["P1"]) == [row.(isDeleted := true)] + [e]
    ensures DeletedKeys([row], [e], ["P1"]) == [KeyOf(row)]
  {
    assert !Matched(row, [e]);
    var sd := SoftDeleted([row], [e], ["P1"]);
    assert sd == [row.(isDeleted := true)];
    FilterAll(sd, Unmatched([e]));
    var touched := Filter([row], TouchedBy([e], ["P1"]));
    assert [row][..0] == [];
    assert touched == [row];
  }
}
