/** The output table and the diff-and-apply step that rewrites it in place, and
    the request handler that builds the expected rows and applies them. */
module Reconcile {
  import opened Tables
  import opened Expected
  import opened Apply

  /** What `calculate_diffs_and_writes_to_output_table` returns. */
  datatype Diff = Diff(deleted: seq<RowKey>, inserted: seq<OutputRow>)

  /** The flights a request works on: those it names, or else those of its
      expected rows. Every expected row falls in one of them. */
  lemma AffectedCoversExpected(db: Database, scope: Scope, now: int)
    ensures var expected := ExpectedRows(db, scope, now);
      forall e :: e in expected ==> e.flightId in EffectiveAffected(InitialAffected(scope), expected)
  {
    if scope.LiCode? {
      LiCodeRowsStayInScope(db, scope.liCode, now);
    }
  }

  /** A second request for the same scope over unchanged upstream data, in a later
      transaction, replaces the rows the first request inserted by the same rows
      stamped with the new now() and leaves the rest of the table as it is, as
      long as no expected row has a NULL creative id. */
  lemma RerunOfRequestIsStable(db: Database, scope: Scope, rows: seq<OutputRow>, now1: int, now2: int)
    requires CreativesKnown(ExpectedRows(db, scope, now1))
    ensures var first := ExpectedRows(db, scope, now1);
      var second := ExpectedRows(db, scope, now2);
      var affected := EffectiveAffected(InitialAffected(scope), first);
      && EffectiveAffected(InitialAffected(scope), second) == affected
      && (affected != [] ==>
        var once := Reconciled(rows, first, affected);
        Reconciled(once, second, affected) == once[..|once| - |first|] + second)
  {
    var first := ExpectedRows(db, scope, now1);
    var affected := EffectiveAffected(InitialAffected(scope), first);
    ExpectedRowsAtAnotherTime(db, scope, now1, now2);
    DistinctFlightsRestamp(first, now2);
    AffectedCoversExpected(db, scope, now1);
    RerunIsStable(rows, first, affected, now2);
  }

  /** snoopy.delivery_by_flight_creative_day; row order carries no meaning. */
  class OutputTable {
    var rows: seq<OutputRow>

    constructor (initial: seq<OutputRow>)
      ensures rows == initial
    {
      rows := initial;
    }

    /** The soft-delete UPDATE with its RETURNING list. */
    method SoftDeleteUnmatched(expected: seq<OutputRow>, affected: seq<string>) returns (deleted: seq<RowKey>)
      modifies this
      ensures rows == SoftDeleted(old(rows), expected, affected)
      ensures deleted == DeletedKeys(old(rows), expected, affected)
    {
      var current := rows;
      var next: seq<OutputRow> := [];
      deleted := [];
      var i := 0;
      while i < |current|
        invariant 0 <= i <= |current|
        invariant next == SoftDeleted(current[..i], expected, affected)
        invariant deleted == DeletedKeys(current[..i], expected, affected)
      {
        var r := current[i];
        assert current[..i + 1] == current[..i] + [r];
        SoftDeletedSnoc(current[..i], r, expected, affected);
        DeletedKeysSnoc(current[..i], r, expected, affected);
        if Touched(r, expected, affected) {
          next := next + [r.(isDeleted := true)];
          deleted := deleted + [KeyOf(r)];
        } else {
          next := next + [r];
        }
        i := i + 1;
      }
      assert current[..i] == current;
      rows := next;
    }

    /** `DELETE FROM output USING temp WHERE <keys equal>`. */
    method DeleteMatching(expected: seq<OutputRow>)
      modifies this
      ensures rows == RemoveMatching(old(rows), expected)
    {
      var current := rows;
      var kept: seq<OutputRow> := [];
      var i := 0;
      while i < |current|
        invariant 0 <= i <= |current|
        invariant kept == Filter(current[..i], Unmatched(expected))
      {
        if !Matched(current[i], expected) {
          kept := kept + [current[i]];
        }
        assert current[..i + 1][..i] == current[..i];
        i := i + 1;
      }
      assert current[..i] == current;
      rows := kept;
    }

    /** `INSERT INTO output (SELECT * FROM temp) RETURNING *`. */
    method InsertAll(expected: seq<OutputRow>) returns (inserted: seq<OutputRow>)
      modifies this
      ensures rows == old(rows) + expected
      ensures inserted == expected
    {
      rows := rows + expected;
      inserted := expected;
    }

    /** `calculate_diffs_and_writes_to_output_table`: with no affected flights at
        all it changes nothing; otherwise it runs the UPDATE, the DELETE and the
        INSERT in that order. The row lock it takes first has no effect on data. */
    method CalculateDiffsAndWrite(temp: TempTable, flightIdsAffected: seq<string>) returns (d: Diff)
      modifies this
      ensures var affected := EffectiveAffected(flightIdsAffected, temp.rows);
        if affected == [] then rows == old(rows) && d == Diff([], [])
        else (rows == Reconciled(old(rows), temp.rows, affected)
          && d == Diff(DeletedKeys(old(rows), temp.rows, affected), temp.rows))
    {
      var affected := flightIdsAffected;
      if affected == [] {
        affected := DistinctFlights(temp.rows);
        if affected == [] {
          return Diff([], []);
        }
      }
      var deleted := SoftDeleteUnmatched(temp.rows, affected);
      DeleteMatching(temp.rows);
      var inserted := InsertAll(temp.rows);
      d := Diff(deleted, inserted);
    }

    /** `process_processing_id`: build the expected rows for the request, then
        apply them. An unknown processing type fails before the table changes.
        Otherwise, with `affected` the flights the step works on, the rows of
        other flights stay as they were, the live rows of the affected flights
        are exactly the expected rows, and the reported diff is the touched keys
        and the expected rows. More precisely, the new table is `Reconciled` of
        the old one, or the old one itself when there are no affected flights. */
    method ProcessProcessingId(db: Database, processingIdType: string, processingId: string, now: int)
      returns (result: Result<Diff, RequestError>)
      modifies this
      ensures ScopeOf(processingIdType, processingId).Err? ==>
        result == Err(UnknownProcessingType(processingIdType)) && rows == old(rows)
      ensures ScopeOf(processingIdType, processingId).Ok? ==>
        var scope := ScopeOf(processingIdType, processingId).value;
        var expected := ExpectedRows(db, scope, now);
        var affected := EffectiveAffected(InitialAffected(scope), expected);
        && Filter(rows, OutsideOf(affected)) == Filter(old(rows), OutsideOf(affected))
        && Filter(rows, LiveIn(affected)) == expected
        && result == Ok(Diff(DeletedKeys(old(rows), expected, affected), if affected == [] then [] else expected))
        && (affected == [] ==> rows == old(rows))
        && (affected != [] ==> rows == Reconciled(old(rows), expected, affected))
    {
      var generated := GenerateExpectedData(db, processingIdType, processingId, now);
      if generated.Err? {
        return Err(generated.error);
      }
      var (temp, flightIdsAffected) := generated.value;
      ghost var before := rows;
      ghost var scope := ScopeOf(processingIdType, processingId).value;
      assert temp.rows == ExpectedRows(db, scope, now);
      var d := CalculateDiffsAndWrite(temp, flightIdsAffected);
      ghost var affected := EffectiveAffected(flightIdsAffected, temp.rows);
      if affected == [] {
        FilterNone(rows, LiveIn(affected));
        FilterNone(before, TouchedBy(temp.rows, affected));
      } else {
        OtherFlightsUnchanged(before, temp.rows, affected);
        AffectedFlightsMatchExpected(before, temp.rows, affected);
      }
      result := Ok(d);
    }
  }
}
