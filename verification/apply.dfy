/** What the three statements of the diff-and-apply step do to the output table,
    stated as functions of the table's rows, and what they guarantee together. */
module Apply {
  import opened Tables

  /** The rows of s that satisfy p, in order. */
  function Filter(s: seq<OutputRow>, p: OutputRow -> bool): (r: seq<OutputRow>)
    ensures |r| <= |s|
    ensures forall x :: x in r <==> x in s && p(x)
    decreases |s|
  {
    if s == [] then []
    else
      var front := Filter(s[..|s| - 1], p);
      assert forall x :: x in s <==> x in s[..|s| - 1] || x == s[|s| - 1];
      front + (if p(s[|s| - 1]) then [s[|s| - 1]] else [])
  }

  lemma {:induction false} FilterConcat(a: seq<OutputRow>, b: seq<OutputRow>, p: OutputRow -> bool)
    ensures Filter(a + b, p) == Filter(a, p) + Filter(b, p)
    decreases |b|
  {
    if b == [] {
      assert a + b == a;
    } else {
      var b' := b[..|b| - 1];
      assert (a + b)[..|a + b| - 1] == a + b';
      assert (a + b)[|a + b| - 1] == b[|b| - 1];
      FilterConcat(a, b', p);
    }
  }

  lemma {:induction false} FilterAll(s: seq<OutputRow>, p: OutputRow -> bool)
    requires forall x :: x in s ==> p(x)
    ensures Filter(s, p) == s
    decreases |s|
  {
    if s != [] {
      var front, last := s[..|s| - 1], s[|s| - 1];
      assert s == front + [last];
      assert p(last) by { assert last in s; }
      forall x | x in front ensures p(x) {
        assert x in s;
      }
      FilterAll(front, p);
      assert Filter(s, p) == Filter(front, p) + [last];
    }
  }

  lemma FilterNone(s: seq<OutputRow>, p: OutputRow -> bool)
    requires forall x :: x in s ==> !p(x)
    ensures Filter(s, p) == []
  {
    if Filter(s, p) != [] {
      assert Filter(s, p)[0] in Filter(s, p);
    }
  }

  lemma {:induction false} FilterCongruent(s: seq<OutputRow>, p: OutputRow -> bool, q: OutputRow -> bool)
    requires forall x :: x in s ==> p(x) == q(x)
    ensures Filter(s, p) == Filter(s, q)
    decreases |s|
  {
    if s != [] {
      assert s[|s| - 1] in s;
      assert forall x :: x in s[..|s| - 1] ==> x in s;
      FilterCongruent(s[..|s| - 1], p, q);
    }
  }

  // ---- key comparison under SQL equality ----

  /** `a = b` on a nullable text column in a WHERE clause: NULL on either side
      never yields TRUE, so two NULLs do not match. */
  predicate SqlEq(a: Option<string>, b: Option<string>) {
    a.Some? && b.Some? && a.value == b.value
  }

  /** `output.flight_id = temp.flight_id AND output.creative_id = temp.creative_id
      AND output.date = temp.date` */
  predicate KeyMatches(r: OutputRow, e: OutputRow) {
    r.flightId == e.flightId && SqlEq(r.creativeId, e.creativeId) && r.date == e.date
  }

  predicate Matched(r: OutputRow, expected: seq<OutputRow>) {
    exists e :: e in expected && KeyMatches(r, e)
  }

  /** The NOT EXISTS subquery of the soft-delete UPDATE finds a row: some expected
      row matches the key and the output row is not already deleted. */
  predicate HasLiveMatch(r: OutputRow, expected: seq<OutputRow>) {
    !r.isDeleted && Matched(r, expected)
  }

  /** The soft-delete UPDATE's WHERE clause. */
  predicate Touched(r: OutputRow, expected: seq<OutputRow>, affected: seq<string>) {
    r.flightId in affected && !HasLiveMatch(r, expected)
  }

  function TouchedBy(expected: seq<OutputRow>, affected: seq<string>): OutputRow -> bool {
    (r: OutputRow) => Touched(r, expected, affected)
  }

  function Unmatched(expected: seq<OutputRow>): OutputRow -> bool {
    (r: OutputRow) => !Matched(r, expected)
  }

  function OutsideOf(affected: seq<string>): OutputRow -> bool {
    (r: OutputRow) => r.flightId !in affected
  }

  function LiveIn(affected: seq<string>): OutputRow -> bool {
    (r: OutputRow) => r.flightId in affected && !r.isDeleted
  }

  function DeletedIn(affected: seq<string>): OutputRow -> bool {
    (r: OutputRow) => r.flightId in affected && r.isDeleted
  }

  // ---- the three statements ----

  function SoftDeleteRow(r: OutputRow, expected: seq<OutputRow>, affected: seq<string>): OutputRow {
    if Touched(r, expected, affected) then r.(isDeleted := true) else r
  }

  /** The table after `UPDATE ... SET is_deleted = TRUE WHERE flight_id IN (...)
      AND NOT EXISTS (...)`: only is_deleted changes, only to TRUE, only in the
      affected flights, and exactly on the touched rows. */
  function SoftDeleted(rows: seq<OutputRow>, expected: seq<OutputRow>, affected: seq<string>): (r: seq<OutputRow>)
    ensures |r| == |rows|
    ensures forall i :: 0 <= i < |rows| ==> r[i].(isDeleted := rows[i].isDeleted) == rows[i]
    ensures forall i :: 0 <= i < |rows| ==> (r[i].isDeleted <==> rows[i].isDeleted || Touched(rows[i], expected, affected))
    ensures forall i :: 0 <= i < |rows| && rows[i].flightId !in affected ==> r[i] == rows[i]
    ensures forall i :: 0 <= i < |rows| ==> (r[i] != rows[i] <==> Touched(rows[i], expected, affected) && !rows[i].isDeleted)
  {
    seq(|rows|, i requires 0 <= i < |rows| => SoftDeleteRow(rows[i], expected, affected))
  }

  function TouchedWithKey(expected: seq<OutputRow>, affected: seq<string>, k: RowKey): OutputRow -> bool {
    (r: OutputRow) => Touched(r, expected, affected) && KeyOf(r) == k
  }

  /** The keys the UPDATE's RETURNING clause reports: one per touched row, so a
      key appears as often as touched rows carry it. */
  function DeletedKeys(rows: seq<OutputRow>, expected: seq<OutputRow>, affected: seq<string>): (ks: seq<RowKey>)
    ensures forall k :: k in ks <==> exists r :: r in rows && Touched(r, expected, affected) && KeyOf(r) == k
    ensures |ks| == |Filter(rows, TouchedBy(expected, affected))|
    ensures forall k :: multiset(ks)[k] == |Filter(rows, TouchedWithKey(expected, affected, k))|
    decreases |rows|
  {
    if rows == [] then []
    else
      var front, last := rows[..|rows| - 1], rows[|rows| - 1];
      var ks := DeletedKeys(front, expected, affected);
      assert forall x :: x in rows <==> x in front || x == last;
      ks + (if Touched(last, expected, affected) then [KeyOf(last)] else [])
  }

  /** One more row adds its key to the report exactly when the UPDATE touches it. */
  lemma DeletedKeysSnoc(rows: seq<OutputRow>, r: OutputRow, expected: seq<OutputRow>, affected: seq<string>)
    ensures DeletedKeys(rows + [r], expected, affected)
      == DeletedKeys(rows, expected, affected) + (if Touched(r, expected, affected) then [KeyOf(r)] else [])
  {
    assert (rows + [r])[..|rows|] == rows;
  }

  /** The table after `DELETE ... USING temp` on matching keys. */
  function RemoveMatching(rows: seq<OutputRow>, expected: seq<OutputRow>): seq<OutputRow> {
    Filter(rows, Unmatched(expected))
  }

  /** The table after the UPDATE, the DELETE and the INSERT of every expected row. */
  function Reconciled(rows: seq<OutputRow>, expected: seq<OutputRow>, affected: seq<string>): seq<OutputRow> {
    RemoveMatching(SoftDeleted(rows, expected, affected), expected) + expected
  }

  /** After the DELETE no remaining row matches an expected row, and every row that
      did not match is still there. */
  lemma RemoveMatchingSpec(rows: seq<OutputRow>, expected: seq<OutputRow>)
    ensures forall r :: r in RemoveMatching(rows, expected) ==> !Matched(r, expected)
    ensures forall r :: r in rows && !Matched(r, expected) ==> r in RemoveMatching(rows, expected)
    ensures forall r :: r in RemoveMatching(rows, expected) ==> r in rows
  {
  }

  /** The flights of expected rows, each once: the affected list derived when the
      request names none. */
  function DistinctFlights(expected: seq<OutputRow>): (flights: seq<string>)
    ensures forall i, j :: 0 <= i < j < |flights| ==> flights[i] != flights[j]
    ensures forall f :: f in flights <==> exists e :: e in expected && e.flightId == f
    decreases |expected|
  {
    if expected == [] then []
    else
      var rest := DistinctFlights(expected[1..]);
      assert forall e :: e in expected <==> e == expected[0] || e in expected[1..];
      if expected[0].flightId in rest then rest else [expected[0].flightId] + rest
  }

  /** Re-stamping the expected rows leaves their flights as they are. */
  lemma {:induction false} DistinctFlightsRestamp(expected: seq<OutputRow>, t: int)
    ensures DistinctFlights(Restamp(expected, t)) == DistinctFlights(expected)
    decreases |expected|
  {
    if expected != [] {
      assert Restamp(expected, t)[1..] == Restamp(expected[1..], t);
      DistinctFlightsRestamp(expected[1..], t);
    }
  }

  /** The affected list the step works with: the given one, or else the distinct
      flights of the expected rows. */
  function EffectiveAffected(given: seq<string>, expected: seq<OutputRow>): (affected: seq<string>)
    ensures affected == [] <==> given == [] && expected == []
    ensures given != [] ==> affected == given
    ensures given == [] ==> forall f :: f in affected <==> exists e :: e in expected && e.flightId == f
  {
    if given != [] then given
    else
      assert expected != [] ==> expected[0].flightId in DistinctFlights(expected);
      DistinctFlights(expected)
  }

  // ---- what the three statements achieve together ----

  /** Rows that are unchanged and untouched by the step: outside the affected
      flights, the soft-delete leaves a row as it is and the DELETE cannot match it. */
  lemma {:induction false} OutsideRowsSurvive(rows: seq<OutputRow>, expected: seq<OutputRow>, affected: seq<string>)
    requires forall e :: e in expected ==> e.flightId in affected
    ensures Filter(RemoveMatching(SoftDeleted(rows, expected, affected), expected), OutsideOf(affected))
         == Filter(rows, OutsideOf(affected))
  {
    var sd := SoftDeleted(rows, expected, affected);
    var kept := RemoveMatching(sd, expected);
    var out := OutsideOf(affected);
    // filtering sd first by Unmatched and then by out is filtering by out alone
    FilterTwice(sd, Unmatched(expected), out);
    assert forall r :: r in sd && out(r) ==> !Matched(r, expected) by {
      forall r | r in sd && out(r) ensures !Matched(r, expected) {
        forall e | e in expected ensures !KeyMatches(r, e) {
          assert e.flightId in affected;
        }
      }
    }
    FilterCongruent(sd, (r: OutputRow) => Unmatched(expected)(r) && out(r), out);
    SoftDeletedOutside(rows, expected, affected);
  }

  /** Filtering by p, then by q, is filtering by both. */
  lemma {:induction false} FilterTwice(s: seq<OutputRow>, p: OutputRow -> bool, q: OutputRow -> bool)
    ensures Filter(Filter(s, p), q) == Filter(s, x => p(x) && q(x))
    decreases |s|
  {
    if s != [] {
      var s' := s[..|s| - 1];
      var x := s[|s| - 1];
      FilterTwice(s', p, q);
      FilterConcat(Filter(s', p), if p(x) then [x] else [], q);
      if p(x) {
        assert Filter([x], q) == Filter([], q) + (if q(x) then [x] else []) by {
          assert [x][..0] == [];
        }
      }
    }
  }

  /** The soft-delete changes no row outside the affected flights. */
  lemma {:induction false} SoftDeletedOutside(rows: seq<OutputRow>, expected: seq<OutputRow>, affected: seq<string>)
    ensures Filter(SoftDeleted(rows, expected, affected), OutsideOf(affected)) == Filter(rows, OutsideOf(affected))
    decreases |rows|
  {
    if rows != [] {
      var rows' := rows[..|rows| - 1];
      var sd := SoftDeleted(rows, expected, affected);
      assert sd[..|sd| - 1] == SoftDeleted(rows', expected, affected);
      SoftDeletedOutside(rows', expected, affected);
    }
  }

  /** Nothing outside the affected flights changes: the rows of other flights are
      the same rows, in the same order, after the step. */
  lemma OtherFlightsUnchanged(rows: seq<OutputRow>, expected: seq<OutputRow>, affected: seq<string>)
    requires forall e :: e in expected ==> e.flightId in affected
    ensures Filter(Reconciled(rows, expected, affected), OutsideOf(affected)) == Filter(rows, OutsideOf(affected))
  {
    var kept := RemoveMatching(SoftDeleted(rows, expected, affected), expected);
    FilterConcat(kept, expected, OutsideOf(affected));
    FilterNone(expected, OutsideOf(affected));
    OutsideRowsSurvive(rows, expected, affected);
  }

  /** Every row left by the UPDATE and the DELETE in an affected flight is deleted. */
  lemma KeptRowsOfAffectedFlightsAreDeleted(rows: seq<OutputRow>, expected: seq<OutputRow>, affected: seq<string>)
    ensures forall r :: (r in RemoveMatching(SoftDeleted(rows, expected, affected), expected) && r.flightId in affected
      ==> r.isDeleted && !Matched(r, expected))
  {
    var sd := SoftDeleted(rows, expected, affected);
    forall r | r in RemoveMatching(sd, expected) && r.flightId in affected
      ensures r.isDeleted && !Matched(r, expected)
    {
      assert r in sd && !Matched(r, expected);
      var i :| 0 <= i < |sd| && sd[i] == r;
      assert rows[i].flightId == r.flightId;
      if !Touched(rows[i], expected, affected) {
        assert r == rows[i];
      }
    }
  }

  /** Partition completeness: after the step the live rows of the affected flights
      are exactly the expected rows. */
  lemma AffectedFlightsMatchExpected(rows: seq<OutputRow>, expected: seq<OutputRow>, affected: seq<string>)
    requires forall e :: e in expected ==> e.flightId in affected && !e.isDeleted
    ensures Filter(Reconciled(rows, expected, affected), LiveIn(affected)) == expected
  {
    var kept := RemoveMatching(SoftDeleted(rows, expected, affected), expected);
    KeptRowsOfAffectedFlightsAreDeleted(rows, expected, affected);
    FilterConcat(kept, expected, LiveIn(affected));
    FilterNone(kept, LiveIn(affected));
    FilterAll(expected, LiveIn(affected));
  }

  /** The same per flight: for each affected flight, its live rows afterwards are
      the expected rows of that flight. */
  lemma EachAffectedFlightMatchesExpected(rows: seq<OutputRow>, expected: seq<OutputRow>, affected: seq<string>, flight: string)
    requires forall e :: e in expected ==> e.flightId in affected && !e.isDeleted
    requires flight in affected
    ensures Filter(Reconciled(rows, expected, affected), LiveIn([flight])) == Filter(expected, LiveIn([flight]))
  {
    var kept := RemoveMatching(SoftDeleted(rows, expected, affected), expected);
    KeptRowsOfAffectedFlightsAreDeleted(rows, expected, affected);
    FilterConcat(kept, expected, LiveIn([flight]));
    FilterNone(kept, LiveIn([flight]));
  }

  /** A live row of an affected flight that no expected row matches ends up
      soft-deleted, with every other column unchanged, and its key is reported. */
  lemma StaleRowIsSoftDeleted(rows: seq<OutputRow>, expected: seq<OutputRow>, affected: seq<string>, r: OutputRow)
    requires r in rows && r.flightId in affected && !Matched(r, expected)
    ensures r.(isDeleted := true) in Reconciled(rows, expected, affected)
    ensures KeyOf(r) in DeletedKeys(rows, expected, affected)
  {
    var sd := SoftDeleted(rows, expected, affected);
    var i :| 0 <= i < |rows| && rows[i] == r;
    assert sd[i] == r.(isDeleted := true);
    assert !Matched(sd[i], expected) by {
      assert forall e :: KeyMatches(sd[i], e) == KeyMatches(r, e);
    }
  }

  /** The soft-delete is the identity on a table whose affected rows are all
      deleted already or live and matched. */
  lemma SoftDeletedIdentity(rows: seq<OutputRow>, expected: seq<OutputRow>, affected: seq<string>)
    requires forall r :: r in rows && Touched(r, expected, affected) ==> r.isDeleted
    ensures SoftDeleted(rows, expected, affected) == rows
  {
    var sd := SoftDeleted(rows, expected, affected);
    forall i | 0 <= i < |rows| ensures sd[i] == rows[i] {
      assert rows[i] in rows;
    }
  }

  lemma SoftDeletedConcat(a: seq<OutputRow>, b: seq<OutputRow>, expected: seq<OutputRow>, affected: seq<string>)
    ensures SoftDeleted(a + b, expected, affected) == SoftDeleted(a, expected, affected) + SoftDeleted(b, expected, affected)
  {
    var l, r := SoftDeleted(a + b, expected, affected), SoftDeleted(a, expected, affected) + SoftDeleted(b, expected, affected);
    forall i | 0 <= i < |l| ensures l[i] == r[i] {
      if i < |a| { assert (a + b)[i] == a[i]; } else { assert (a + b)[i] == b[i - |a|]; }
    }
  }

  lemma SoftDeletedSnoc(rows: seq<OutputRow>, r: OutputRow, expected: seq<OutputRow>, affected: seq<string>)
    ensures SoftDeleted(rows + [r], expected, affected) == SoftDeleted(rows, expected, affected) + [SoftDeleteRow(r, expected, affected)]
  {
    SoftDeletedConcat(rows, [r], expected, affected);
    assert SoftDeleted([r], expected, affected)[0] == SoftDeleteRow(r, expected, affected);
  }

  predicate CreativesKnown(expected: seq<OutputRow>) {
    forall e :: e in expected ==> e.creativeId.Some?
  }

  /** Stamping the expected rows with another time changes no key comparison. */
  lemma RestampKeepsMatches(expected: seq<OutputRow>, t: int)
    ensures forall r :: Matched(r, Restamp(expected, t)) <==> Matched(r, expected)
  {
    var again := Restamp(expected, t);
    forall r ensures Matched(r, again) <==> Matched(r, expected) {
      if Matched(r, expected) {
        var i :| 0 <= i < |expected| && KeyMatches(r, expected[i]);
        assert again[i] in again && KeyMatches(r, again[i]);
      }
      if Matched(r, again) {
        var i :| 0 <= i < |again| && KeyMatches(r, again[i]);
        assert expected[i] in expected && KeyMatches(r, expected[i]);
      }
    }
  }

  /** Re-running the step with expected rows that differ from the first run's only
      in `updated_at` (a later transaction's now()), and with no NULL creative
      ids, replaces the rows the first run inserted by the re-stamped ones and
      leaves every other row as it is; with the same stamp the table does not
      change at all. The second run's `deleted` reports again every
      already-deleted row of the affected flights. */
  lemma RerunIsStable(rows: seq<OutputRow>, expected: seq<OutputRow>, affected: seq<string>, t: int)
    requires forall e :: e in expected ==> e.flightId in affected && !e.isDeleted
    requires CreativesKnown(expected)
    ensures var once := Reconciled(rows, expected, affected);
      var again := Restamp(expected, t);
      && Reconciled(once, again, affected) == once[..|once| - |expected|] + again
      && ((forall e :: e in expected ==> e.updatedAt == t) ==> Reconciled(once, again, affected) == once)
      && Filter(once, TouchedBy(again, affected)) == Filter(once, DeletedIn(affected))
  {
    var kept := RemoveMatching(SoftDeleted(rows, expected, affected), expected);
    var once := kept + expected;
    var again := Restamp(expected, t);
    RestampKeepsMatches(expected, t);
    KeptRowsOfAffectedFlightsAreDeleted(rows, expected, affected);
    LiveExpectedRowsMatch(expected, again);
    RemoveMatchingSpec(SoftDeleted(rows, expected, affected), expected);
    SecondRunRewritesOnlyItsRows(kept, expected, again, affected);
    SecondRunReportsDeleted(kept, expected, again, affected);
    assert once[..|once| - |expected|] == kept;
    RestampIdentity(expected, t);
  }

  /** Live expected rows with known creatives find themselves in a NOT EXISTS
      subquery over rows with the same keys. */
  lemma LiveExpectedRowsMatch(expected: seq<OutputRow>, again: seq<OutputRow>)
    requires forall e :: e in expected ==> !e.isDeleted
    requires CreativesKnown(expected)
    requires forall r :: Matched(r, again) <==> Matched(r, expected)
    ensures forall e :: e in expected ==> HasLiveMatch(e, again)
  {
    forall e | e in expected ensures Matched(e, expected) {
      assert KeyMatches(e, e);
    }
  }

  lemma RestampIdentity(rows: seq<OutputRow>, t: int)
    ensures (forall r :: r in rows ==> r.updatedAt == t) ==> Restamp(rows, t) == rows
  {
    if forall r :: r in rows ==> r.updatedAt == t {
      forall i | 0 <= i < |rows| ensures Restamp(rows, t)[i] == rows[i] {
        assert rows[i] in rows;
      }
    }
  }

  /** The UPDATE of a second run leaves the first run's table as it is, and its
      DELETE removes just the rows the first run inserted. */
  lemma SecondRunRewritesOnlyItsRows(kept: seq<OutputRow>, expected: seq<OutputRow>, again: seq<OutputRow>, affected: seq<string>)
    requires forall r :: r in kept ==> !Matched(r, again)
    requires forall r :: r in kept && r.flightId in affected ==> r.isDeleted
    requires forall e :: e in expected ==> HasLiveMatch(e, again)
    ensures Reconciled(kept + expected, again, affected) == kept + again
  {
    var once := kept + expected;
    forall r | r in once && Touched(r, again, affected) ensures r.isDeleted {
      assert r !in expected;
    }
    SoftDeletedIdentity(once, again, affected);
    var unmatched := Unmatched(again);
    FilterConcat(kept, expected, unmatched);
    forall x | x in kept ensures unmatched(x) { }
    FilterAll(kept, unmatched);
    forall x | x in expected ensures !unmatched(x) {
      assert HasLiveMatch(x, again);
    }
    FilterNone(expected, unmatched);
    assert RemoveMatching(once, again) == kept;
  }

  /** What a second run reports: the deleted rows of the affected flights. */
  lemma SecondRunReportsDeleted(kept: seq<OutputRow>, expected: seq<OutputRow>, again: seq<OutputRow>, affected: seq<string>)
    requires forall r :: r in kept ==> !Matched(r, again)
    requires forall r :: r in kept && r.flightId in affected ==> r.isDeleted
    requires forall e :: e in expected ==> HasLiveMatch(e, again)
    ensures Filter(kept + expected, TouchedBy(again, affected)) == Filter(kept + expected, DeletedIn(affected))
  {
    FilterConcat(kept, expected, TouchedBy(again, affected));
    FilterConcat(kept, expected, DeletedIn(affected));
    FilterNone(expected, TouchedBy(again, affected));
    FilterNone(expected, DeletedIn(affected));
    FilterCongruent(kept, TouchedBy(again, affected), DeletedIn(affected));
  }

  /** With a NULL creative id among the expected rows, a re-run does not leave the
      table as it is: the NULL row never matches itself, so it is soft-deleted,
      kept, and inserted once more. */
  lemma RerunWithNullCreativeGrows(rows: seq<OutputRow>, expected: seq<OutputRow>, affected: seq<string>)
    requires forall e :: e in expected ==> e.flightId in affected && !e.isDeleted
    requires exists e :: e in expected && e.creativeId.None?
    ensures var once := Reconciled(rows, expected, affected);
      |Reconciled(once, expected, affected)| > |once|
  {
    var kept := RemoveMatching(SoftDeleted(rows, expected, affected), expected);
    var once := kept + expected;
    KeptRowsOfAffectedFlightsAreDeleted(rows, expected, affected);
    SoftDeletedConcat(kept, expected, expected, affected);
    SoftDeletedIdentity(kept, expected, affected);
    var sdE := SoftDeleted(expected, expected, affected);
    FilterConcat(kept, sdE, Unmatched(expected));
    FilterAll(kept, Unmatched(expected));
    var e0 :| e0 in expected && e0.creativeId.None?;
    var i :| 0 <= i < |expected| && expected[i] == e0;
    assert sdE[i] in sdE && !Matched(sdE[i], expected);
    assert sdE[i] in Filter(sdE, Unmatched(expected));
  }
}
