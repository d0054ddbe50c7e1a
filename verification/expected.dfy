/** The expected-data builder: the request's scope, the join of raw facts with
    vendor mappings and import metadata, the conflict filter, and the
    group-by-sum that yields one expected row per (date, li_code, creative). */
module Expected {
  import opened Tables
  import opened Text

  const LI_CODE_STRING: string := "li_code"
  const IMPORT_ID_STRING: string := "import_id"

  /** What a request selects: one line item, or one import batch. */
  datatype Scope = LiCode(liCode: string) | ImportId(importRecordId: string)

  datatype RequestError = UnknownProcessingType(processingIdType: string)

  /** The lookup in PROCESSING_TYPE: a key other than the two known ones fails. */
  function ScopeOf(processingIdType: string, processingId: string): (r: Result<Scope, RequestError>)
    ensures r.Err? <==> processingIdType != LI_CODE_STRING && processingIdType != IMPORT_ID_STRING
    ensures r.Err? ==> r.error == UnknownProcessingType(processingIdType)
    ensures r.Ok? ==> (r.value.LiCode? <==> processingIdType == LI_CODE_STRING)
    ensures r.Ok? && r.value.LiCode? ==> r.value.liCode == processingId
    ensures r.Ok? && r.value.ImportId? ==> r.value.importRecordId == processingId
  {
    if processingIdType == LI_CODE_STRING then Ok(LiCode(processingId))
    else if processingIdType == IMPORT_ID_STRING then Ok(ImportId(processingId))
    else Err(UnknownProcessingType(processingIdType))
  }

  /** The flights a request names up front: `[processing_id[3:]]` for a line item,
      none for an import. */
  function InitialAffected(scope: Scope): (flights: seq<string>)
    ensures scope.LiCode? ==> flights == [DropPrefix(scope.liCode, 3)]
    ensures scope.ImportId? ==> flights == []
  {
    match scope
    case LiCode(code) => [DropPrefix(code, 3)]
    case ImportId(_) => []
  }

  /** The temp table of expected rows, by name and contents. */
  datatype TempTable = TempTable(name: string, rows: seq<OutputRow>)

  /** `generate_expected_data_temp_table`: the temp table and the flights the
      request names up front. An unknown processing type fails at the lookup. */
  function GenerateExpectedData(db: Database, processingIdType: string, processingId: string, now: int)
    : (r: Result<(TempTable, seq<string>), RequestError>)
    ensures r.Err? <==> processingIdType != LI_CODE_STRING && processingIdType != IMPORT_ID_STRING
    ensures r.Ok? ==> r.value.0.name == TempTableName(processingId)
    ensures r.Ok? ==> r.value.0.rows == ExpectedRows(db, ScopeOf(processingIdType, processingId).value, now)
    ensures r.Ok? && processingIdType == LI_CODE_STRING ==> r.value.1 == [DropPrefix(processingId, 3)]
    ensures r.Ok? && processingIdType == IMPORT_ID_STRING ==> r.value.1 == []
    ensures r.Ok? ==> forall e :: e in r.value.0.rows ==> !e.isDeleted && e.updatedAt == now
    ensures r.Ok? && r.value.1 != [] ==> forall e :: e in r.value.0.rows ==> e.flightId in r.value.1
  {
    match ScopeOf(processingIdType, processingId)
    case Err(e) => Err(e)
    case Ok(scope) =>
      var temp := TempTable(TempTableName(processingId), ExpectedRows(db, scope, now));
      match scope
      case LiCode(code) =>
        LiCodeRowsStayInScope(db, code, now);
        Ok((temp, InitialAffected(scope)))
      case ImportId(_) =>
        Ok((temp, InitialAffected(scope)))
  }

  // ---- the join and the WHERE clause ----

  /** `a BETWEEN lo AND hi` */
  predicate Between(a: int, lo: int, hi: int) {
    lo <= a <= hi
  }

  /** Some alignment conflict for the line item covers the date (the LEFT JOIN
      finds a row, so `c.li_code IS NULL` fails). */
  predicate InConflict(conflicts: seq<AlignmentConflict>, liCode: string, date: int) {
    exists c :: c in conflicts && c.liCode == liCode && Between(date, c.dateStart, c.dateEnd)
  }

  /** The inner joins: mapping by vendor id and date, then import_metadata and
      import.records by the fact's import record id. */
  predicate Joins(db: Database, f: RawFact, m: VendorMap) {
    && m.vendorId == f.placementId
    && Between(f.date, m.dateStart, m.dateEnd)
    && f.importRecordId in db.reportTimeZone
    && f.importRecordId in db.vendor
  }

  /** The request's own condition, `m.li_code = '...'` or `im.import_record_id = '...'`. */
  predicate InScope(scope: Scope, f: RawFact, m: VendorMap) {
    match scope
    case LiCode(code) => m.liCode == code
    case ImportId(id) => f.importRecordId == id
  }

  /** A (fact, mapping) pair survives the joins and the whole WHERE clause. */
  predicate Contributes(db: Database, scope: Scope, f: RawFact, m: VendorMap) {
    && Joins(db, f, m)
    && InScope(scope, f, m)
    && !m.isDeleted
    && !InConflict(db.conflicts, m.liCode, f.date)
  }

  /** The GROUP BY key `(rd.date, m.li_code, m.creative_rtb_id)`; NULL creatives
      form one group, as GROUP BY treats them. */
  datatype GroupKey = GroupKey(date: int, liCode: string, creativeRtbId: Option<string>)

  /** One joined row, reduced to the columns the SELECT list uses. */
  datatype Contribution = Contribution(
    key: GroupKey,
    impressions: int,
    clicks: int,
    provider: Label,
    timeZone: Label)

  function ContributionOf(db: Database, f: RawFact, m: VendorMap): Contribution
    requires Joins(db, f, m)
  {
    Contribution(
      GroupKey(f.date, m.liCode, m.creativeRtbId),
      f.impressions, f.clicks,
      db.vendor[f.importRecordId], db.reportTimeZone[f.importRecordId])
  }

  /** The joined rows of one fact, one per surviving mapping. */
  function JoinFact(db: Database, scope: Scope, f: RawFact, maps: seq<VendorMap>): seq<Contribution>
    decreases |maps|
  {
    if maps == [] then []
    else
      (if Contributes(db, scope, f, maps[0]) then [ContributionOf(db, f, maps[0])] else [])
      + JoinFact(db, scope, f, maps[1..])
  }

  function JoinFacts(db: Database, scope: Scope, facts: seq<RawFact>): seq<Contribution>
    decreases |facts|
  {
    if facts == [] then []
    else JoinFact(db, scope, facts[0], db.maps) + JoinFacts(db, scope, facts[1..])
  }

  /** All joined rows of the request, one per surviving (fact, mapping) pair. */
  function Joined(db: Database, scope: Scope): seq<Contribution> {
    JoinFacts(db, scope, db.rawDelivery)
  }

  lemma {:induction false} JoinFactMembership(db: Database, scope: Scope, f: RawFact, maps: seq<VendorMap>, c: Contribution)
    ensures c in JoinFact(db, scope, f, maps) <==>
      exists m :: m in maps && Contributes(db, scope, f, m) && c == ContributionOf(db, f, m)
    decreases |maps|
  {
    if maps != [] {
      JoinFactMembership(db, scope, f, maps[1..], c);
      assert forall m :: m in maps <==> m == maps[0] || m in maps[1..];
    }
  }

  lemma {:induction false} JoinFactsMembership(db: Database, scope: Scope, facts: seq<RawFact>, c: Contribution)
    ensures c in JoinFacts(db, scope, facts) <==>
      exists f, m :: f in facts && m in db.maps && Contributes(db, scope, f, m) && c == ContributionOf(db, f, m)
    decreases |facts|
  {
    if facts != [] {
      JoinFactMembership(db, scope, facts[0], db.maps, c);
      JoinFactsMembership(db, scope, facts[1..], c);
      assert forall f :: f in facts <==> f == facts[0] || f in facts[1..];
    }
  }

  /** Filtering: a joined row exists exactly for each (fact, mapping) pair that
      matches on vendor id and date range, is in scope, uses a live mapping and
      is not covered by an alignment conflict. */
  lemma JoinedMembership(db: Database, scope: Scope, c: Contribution)
    ensures c in Joined(db, scope) <==>
      exists f, m :: f in db.rawDelivery && m in db.maps && Contributes(db, scope, f, m) && c == ContributionOf(db, f, m)
  {
    JoinFactsMembership(db, scope, db.rawDelivery, c);
  }

  // ---- how many joined rows each pair gives ----

  /** How many of the mappings satisfy p. */
  function CountMaps(maps: seq<VendorMap>, p: VendorMap -> bool): nat
    decreases |maps|
  {
    if maps == [] then 0 else (if p(maps[0]) then 1 else 0) + CountMaps(maps[1..], p)
  }

  /** The mappings that join with fact f into the joined row c. */
  function YieldsAs(db: Database, scope: Scope, f: RawFact, c: Contribution): VendorMap -> bool {
    (m: VendorMap) => Contributes(db, scope, f, m) && ContributionOf(db, f, m) == c
  }

  /** The number of surviving (fact, mapping) pairs, with the fact from facts,
      that give the joined row c. */
  function PairCount(db: Database, scope: Scope, facts: seq<RawFact>, c: Contribution): nat
    decreases |facts|
  {
    if facts == [] then 0
    else CountMaps(db.maps, YieldsAs(db, scope, facts[0], c)) + PairCount(db, scope, facts[1..], c)
  }

  lemma {:induction false} JoinFactCount(db: Database, scope: Scope, f: RawFact, maps: seq<VendorMap>, c: Contribution)
    ensures multiset(JoinFact(db, scope, f, maps))[c] == CountMaps(maps, YieldsAs(db, scope, f, c))
    decreases |maps|
  {
    if maps != [] {
      JoinFactCount(db, scope, f, maps[1..], c);
    }
  }

  lemma {:induction false} JoinFactsCount(db: Database, scope: Scope, facts: seq<RawFact>, c: Contribution)
    ensures multiset(JoinFacts(db, scope, facts))[c] == PairCount(db, scope, facts, c)
    decreases |facts|
  {
    if facts != [] {
      JoinFactCount(db, scope, facts[0], db.maps, c);
      JoinFactsCount(db, scope, facts[1..], c);
    }
  }

  /** The join yields one joined row per surviving (fact, mapping) pair: each
      value occurs exactly as often as there are pairs that give it, so two live
      mappings that join a fact the same way give two equal joined rows. */
  lemma JoinedCount(db: Database, scope: Scope, c: Contribution)
    ensures multiset(Joined(db, scope))[c] == PairCount(db, scope, db.rawDelivery, c)
  {
    JoinFactsCount(db, scope, db.rawDelivery, c);
  }

  // ---- GROUP BY and the aggregates ----

  /** The distinct group keys of the joined rows. */
  function Groups(cs: seq<Contribution>): (ks: seq<GroupKey>)
    ensures forall i, j :: 0 <= i < j < |ks| ==> ks[i] != ks[j]
    ensures forall k :: k in ks <==> exists c :: c in cs && c.key == k
    decreases |cs|
  {
    if cs == [] then []
    else
      var rest := Groups(cs[1..]);
      assert forall c :: c in cs <==> c == cs[0] || c in cs[1..];
      if cs[0].key in rest then rest else [cs[0].key] + rest
  }

  datatype Measure = Impressions | Clicks

  function Amount(c: Contribution, m: Measure): int {
    match m
    case Impressions => c.impressions
    case Clicks => c.clicks
  }

  /** `SUM(...)` over the joined rows of group k. */
  function GroupSum(cs: seq<Contribution>, k: GroupKey, m: Measure): int
    decreases |cs|
  {
    if cs == [] then 0
    else (if cs[0].key == k then Amount(cs[0], m) else 0) + GroupSum(cs[1..], k, m)
  }

  function Total(cs: seq<Contribution>, m: Measure): int
    decreases |cs|
  {
    if cs == [] then 0 else Amount(cs[0], m) + Total(cs[1..], m)
  }

  datatype Attribute = Provider | TimeZone

  function LabelOf(c: Contribution, a: Attribute): Label {
    match a
    case Provider => c.provider
    case TimeZone => c.timeZone
  }

  /** `MAX(...)` over the joined rows of group k (0 stands for an empty group,
      which never yields a row). */
  function GroupMax(cs: seq<Contribution>, k: GroupKey, a: Attribute): (r: Label)
    ensures forall c :: c in cs && c.key == k ==> LabelOf(c, a) <= r
    ensures (exists c :: c in cs && c.key == k) ==>
      exists c :: c in cs && c.key == k && LabelOf(c, a) == r
    decreases |cs|
  {
    if cs == [] then 0
    else
      var rest := GroupMax(cs[1..], k, a);
      assert forall c :: c in cs <==> c == cs[0] || c in cs[1..];
      if cs[0].key == k && (rest < LabelOf(cs[0], a) || !exists c :: c in cs[1..] && c.key == k)
      then LabelOf(cs[0], a)
      else rest
  }

  /** The expected row of group k; `updated_at` is the transaction's now(). */
  function RowFor(cs: seq<Contribution>, k: GroupKey, now: int): OutputRow {
    OutputRow(
      k.date, FlightOf(k.liCode), k.creativeRtbId,
      GroupSum(cs, k, Impressions), GroupSum(cs, k, Clicks),
      GroupMax(cs, k, Provider), GroupMax(cs, k, TimeZone),
      now, false)
  }

  function RowsFor(cs: seq<Contribution>, ks: seq<GroupKey>, now: int): (rows: seq<OutputRow>)
    ensures |rows| == |ks|
    ensures forall i :: 0 <= i < |ks| ==> rows[i] == RowFor(cs, ks[i], now)
    decreases |ks|
  {
    if ks == [] then [] else [RowFor(cs, ks[0], now)] + RowsFor(cs, ks[1..], now)
  }

  /** The contents of the temp table of expected rows. */
  function ExpectedRows(db: Database, scope: Scope, now: int): (rows: seq<OutputRow>)
    ensures |rows| == |Groups(Joined(db, scope))|
    ensures forall r :: r in rows ==> !r.isDeleted && r.updatedAt == now
  {
    RowsFor(Joined(db, scope), Groups(Joined(db, scope)), now)
  }

  /** A later request for the same scope over the same data yields the same rows
      but for `updated_at`, which is that transaction's now(). */
  lemma ExpectedRowsAtAnotherTime(db: Database, scope: Scope, now1: int, now2: int)
    ensures ExpectedRows(db, scope, now2) == Restamp(ExpectedRows(db, scope, now1), now2)
  {
    var a, b := ExpectedRows(db, scope, now2), Restamp(ExpectedRows(db, scope, now1), now2);
    forall i | 0 <= i < |a| ensures a[i] == b[i] { }
  }

  /** Grouping: the i-th expected row is the one row of the i-th distinct group
      key; its flight is the key's line-item code without its first three
      characters, and its provider and time zone are the largest in the group. */
  lemma OneRowPerGroup(db: Database, scope: Scope, now: int, i: nat)
    requires i < |ExpectedRows(db, scope, now)|
    ensures var ks := Groups(Joined(db, scope));
      var r := ExpectedRows(db, scope, now)[i];
      && (forall j :: 0 <= j < |ks| && j != i ==> ks[j] != ks[i])
      && r.date == ks[i].date
      && r.flightId == DropPrefix(ks[i].liCode, 3)
      && r.creativeId == ks[i].creativeRtbId
      && r.impressions == GroupSum(Joined(db, scope), ks[i], Impressions)
      && r.clicks == GroupSum(Joined(db, scope), ks[i], Clicks)
      && (exists c :: c in Joined(db, scope) && c.key == ks[i] && c.provider == r.provider)
      && (forall c :: c in Joined(db, scope) && c.key == ks[i] ==> c.provider <= r.provider)
      && (exists c :: c in Joined(db, scope) && c.key == ks[i] && c.timeZone == r.timeZone)
      && (forall c :: c in Joined(db, scope) && c.key == ks[i] ==> c.timeZone <= r.timeZone)
  {
    var ks := Groups(Joined(db, scope));
    FlightOfIsSlice(ks[i].liCode);
    assert ks[i] in ks;
  }

  /** Every surviving (fact, mapping) pair is reflected in an expected row with
      the fact's date, the mapping's flight and the mapping's creative. */
  lemma EveryContributionHasItsRow(db: Database, scope: Scope, now: int, f: RawFact, m: VendorMap)
    requires f in db.rawDelivery && m in db.maps && Contributes(db, scope, f, m)
    ensures exists r :: (r in ExpectedRows(db, scope, now) &&
      r.date == f.date && r.flightId == FlightOf(m.liCode) && r.creativeId == m.creativeRtbId)
  {
    var cs := Joined(db, scope);
    var c := ContributionOf(db, f, m);
    JoinedMembership(db, scope, c);
    var ks := Groups(cs);
    assert c.key in ks;
    var i :| 0 <= i < |ks| && ks[i] == c.key;
    assert ExpectedRows(db, scope, now)[i] == RowFor(cs, ks[i], now);
  }

  /** Every expected row stems from a surviving (fact, mapping) pair: no row
      comes from a deleted mapping, a date outside the mapping's range, or a
      date an alignment conflict covers. */
  lemma EveryRowHasAContribution(db: Database, scope: Scope, now: int, r: OutputRow)
    requires r in ExpectedRows(db, scope, now)
    ensures exists f, m :: (f in db.rawDelivery && m in db.maps && Contributes(db, scope, f, m) &&
      r.date == f.date && r.flightId == FlightOf(m.liCode) && r.creativeId == m.creativeRtbId)
  {
    var cs := Joined(db, scope);
    var ks := Groups(cs);
    var rows := ExpectedRows(db, scope, now);
    var i :| 0 <= i < |rows| && rows[i] == r;
    assert ks[i] in ks;
    var c :| c in cs && c.key == ks[i];
    JoinedMembership(db, scope, c);
  }

  /** A line-item request yields rows of that one flight only: the flight its
      `processing_id[3:]` names. */
  lemma LiCodeRowsStayInScope(db: Database, liCode: string, now: int)
    ensures forall r :: r in ExpectedRows(db, LiCode(liCode), now) ==> r.flightId in InitialAffected(LiCode(liCode))
  {
    forall r | r in ExpectedRows(db, LiCode(liCode), now)
      ensures r.flightId == DropPrefix(liCode, 3)
    {
      EveryRowHasAContribution(db, LiCode(liCode), now, r);
      FlightOfIsSlice(liCode);
    }
  }

  /** Conflict exclusion: no expected row has a date that an alignment conflict
      of its line item covers. */
  lemma ConflictsExcludeRows(db: Database, scope: Scope, now: int, i: nat)
    requires i < |ExpectedRows(db, scope, now)|
    ensures var k := Groups(Joined(db, scope))[i];
      !InConflict(db.conflicts, k.liCode, ExpectedRows(db, scope, now)[i].date)
  {
    var cs := Joined(db, scope);
    var ks := Groups(cs);
    assert ks[i] in ks;
    var c :| c in cs && c.key == ks[i];
    JoinedMembership(db, scope, c);
  }

  // ---- nothing is lost or double-counted by the grouping ----

  function SumRows(rows: seq<OutputRow>, m: Measure): int
    decreases |rows|
  {
    if rows == [] then 0
    else (match m case Impressions => rows[0].impressions case Clicks => rows[0].clicks) + SumRows(rows[1..], m)
  }

  function SumGroups(cs: seq<Contribution>, ks: seq<GroupKey>, m: Measure): int
    decreases |ks|
  {
    if ks == [] then 0 else GroupSum(cs, ks[0], m) + SumGroups(cs, ks[1..], m)
  }

  lemma {:induction false} SumRowsFor(cs: seq<Contribution>, ks: seq<GroupKey>, now: int, m: Measure)
    ensures SumRows(RowsFor(cs, ks, now), m) == SumGroups(cs, ks, m)
    decreases |ks|
  {
    if ks != [] {
      var rows := RowsFor(cs, ks, now);
      assert rows[1..] == RowsFor(cs, ks[1..], now);
      SumRowsFor(cs, ks[1..], now, m);
    }
  }

  /** Adding one joined row adds its amount to exactly the one group it belongs to. */
  lemma {:induction false} SumGroupsCons(c: Contribution, cs: seq<Contribution>, ks: seq<GroupKey>, m: Measure)
    requires forall i, j :: 0 <= i < j < |ks| ==> ks[i] != ks[j]
    ensures SumGroups([c] + cs, ks, m) == (if c.key in ks then Amount(c, m) else 0) + SumGroups(cs, ks, m)
    decreases |ks|
  {
    if ks != [] {
      assert ([c] + cs)[1..] == cs;
      assert GroupSum([c] + cs, ks[0], m) == (if c.key == ks[0] then Amount(c, m) else 0) + GroupSum(cs, ks[0], m);
      SumGroupsCons(c, cs, ks[1..], m);
      assert c.key in ks <==> c.key == ks[0] || c.key in ks[1..];
      if c.key == ks[0] {
        assert c.key !in ks[1..] by {
          forall j | 0 <= j < |ks[1..]| ensures ks[1..][j] != c.key {
            assert ks[1..][j] == ks[j + 1];
          }
        }
      }
    }
  }

  lemma {:induction false} SumGroupsCovers(cs: seq<Contribution>, ks: seq<GroupKey>, m: Measure)
    requires forall i, j :: 0 <= i < j < |ks| ==> ks[i] != ks[j]
    requires forall c :: c in cs ==> c.key in ks
    ensures SumGroups(cs, ks, m) == Total(cs, m)
    decreases |cs|
  {
    if cs == [] {
      SumGroupsEmpty(ks, m);
    } else {
      assert cs == [cs[0]] + cs[1..];
      SumGroupsCons(cs[0], cs[1..], ks, m);
      SumGroupsCovers(cs[1..], ks, m);
    }
  }

  lemma {:induction false} SumGroupsEmpty(ks: seq<GroupKey>, m: Measure)
    ensures SumGroups([], ks, m) == 0
    decreases |ks|
  {
    if ks != [] {
      SumGroupsEmpty(ks[1..], m);
    }
  }

  function FactAmount(f: RawFact, m: Measure): int {
    match m
    case Impressions => f.impressions
    case Clicks => f.clicks
  }

  /** The mappings a fact survives the join and the WHERE clause with. */
  function SurvivesWith(db: Database, scope: Scope, f: RawFact): VendorMap -> bool {
    (m: VendorMap) => Contributes(db, scope, f, m)
  }

  /** Each fact's amount, counted once per mapping it survives with. */
  function WeightedTotal(db: Database, scope: Scope, facts: seq<RawFact>, m: Measure): int
    decreases |facts|
  {
    if facts == [] then 0
    else (FactAmount(facts[0], m) * CountMaps(db.maps, SurvivesWith(db, scope, facts[0]))
      + WeightedTotal(db, scope, facts[1..], m))
  }

  lemma {:induction false} TotalConcat(a: seq<Contribution>, b: seq<Contribution>, m: Measure)
    ensures Total(a + b, m) == Total(a, m) + Total(b, m)
    decreases |a|
  {
    if a != [] {
      assert (a + b)[0] == a[0];
      assert (a + b)[1..] == a[1..] + b;
      TotalConcat(a[1..], b, m);
    } else {
      assert a + b == b;
    }
  }

  lemma {:induction false} JoinFactTotal(db: Database, scope: Scope, f: RawFact, maps: seq<VendorMap>, m: Measure)
    ensures Total(JoinFact(db, scope, f, maps), m) == FactAmount(f, m) * CountMaps(maps, SurvivesWith(db, scope, f))
    decreases |maps|
  {
    if maps != [] {
      var one := if Contributes(db, scope, f, maps[0]) then 1 else 0;
      JoinFactStep(db, scope, f, maps, m);
      JoinFactTotal(db, scope, f, maps[1..], m);
      DistributeOne(FactAmount(f, m), one, CountMaps(maps[1..], SurvivesWith(db, scope, f)));
    }
  }

  /** The first mapping adds the fact's amount to the join's total when the pair survives. */
  lemma JoinFactStep(db: Database, scope: Scope, f: RawFact, maps: seq<VendorMap>, m: Measure)
    requires maps != []
    ensures var one := if Contributes(db, scope, f, maps[0]) then 1 else 0;
      && Total(JoinFact(db, scope, f, maps), m) == FactAmount(f, m) * one + Total(JoinFact(db, scope, f, maps[1..]), m)
      && CountMaps(maps, SurvivesWith(db, scope, f)) == one + CountMaps(maps[1..], SurvivesWith(db, scope, f))
  {
    var head := if Contributes(db, scope, f, maps[0]) then [ContributionOf(db, f, maps[0])] else [];
    TotalConcat(head, JoinFact(db, scope, f, maps[1..]), m);
  }

  lemma DistributeOne(a: int, one: int, k: int)
    requires one == 0 || one == 1
    ensures a * (one + k) == a * one + a * k
  {
    if one == 1 {
      assert a * (1 + k) == a + a * k;
    }
  }

  lemma {:induction false} JoinFactsTotal(db: Database, scope: Scope, facts: seq<RawFact>, m: Measure)
    ensures Total(JoinFacts(db, scope, facts), m) == WeightedTotal(db, scope, facts, m)
    decreases |facts|
  {
    if facts != [] {
      TotalConcat(JoinFact(db, scope, facts[0], db.maps), JoinFacts(db, scope, facts[1..]), m);
      JoinFactTotal(db, scope, facts[0], db.maps, m);
      JoinFactsTotal(db, scope, facts[1..], m);
    }
  }

  /** Grouping conserves the totals: the expected rows' impressions (clicks) add up
      to the impressions (clicks) of all surviving (fact, mapping) pairs, that is,
      each fact counted once per live mapping it joins with. */
  lemma TotalsConserved(db: Database, scope: Scope, now: int, m: Measure)
    ensures SumRows(ExpectedRows(db, scope, now), m) == Total(Joined(db, scope), m)
    ensures SumRows(ExpectedRows(db, scope, now), m) == WeightedTotal(db, scope, db.rawDelivery, m)
  {
    var cs := Joined(db, scope);
    var ks := Groups(cs);
    SumRowsFor(cs, ks, now, m);
    SumGroupsCovers(cs, ks, m);
    JoinFactsTotal(db, scope, db.rawDelivery, m);
  }
}
