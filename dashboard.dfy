/**
 * The dashboard script as a whole: the four tables are loaded together or
 * not at all, and when they are, the three sections are computed from
 * them independently of one another.
 */
module Dashboard {
  import opened Wrappers
  import opened Records
  import Grouping
  import Join
  import Sorting
  import opened Governance
  import opened Clinical
  import opened Operations

  /** The four loaded tables. */
  datatype Tables = Tables(
    facilities: seq<Facility>,
    clinical: seq<ClinicalRecord>,
    governance: seq<GovernanceRecord>,
    operations: seq<OperationsRecord>)

  /** Every table the dashboard shows. */
  datatype Report = Report(
    protocolCounts: seq<(string, int)>,
    compliantFacilities: seq<FacilitySummary>,
    monthlyTrend: seq<(Month, int)>,
    districtBirths: seq<(string, int)>,
    topOxygen: seq<OpsRow>)

  /**
   * `load_data`: each argument is the outcome of reading one CSV file, None
   * when the file is missing. A missing file yields no tables at all, never
   * a partial result.
   */
  function LoadData(
    facilities: Option<seq<Facility>>,
    clinical: Option<seq<ClinicalRecord>>,
    governance: Option<seq<GovernanceRecord>>,
    operations: Option<seq<OperationsRecord>>): (r: Option<Tables>)
    ensures r.Some? <==> facilities.Some? && clinical.Some? && governance.Some? && operations.Some?
    ensures r.Some? ==> (r.value.facilities == facilities.value && r.value.clinical == clinical.value
                         && r.value.governance == governance.value && r.value.operations == operations.value)
  {
    if facilities.Some? && clinical.Some? && governance.Some? && operations.Some? then
      Some(Tables(facilities.value, clinical.value, governance.value, operations.value))
    else None
  }

  /** The three sections, each from the tables it reads. */
  function BuildReport(t: Tables): Report
  {
    var govMerged := GovMerged(t.facilities, t.governance);
    Report(
      ProtocolCounts(govMerged),
      CompliantFacilities(govMerged),
      MonthlyTrend(t.clinical),
      DistrictBirths(t.clinical, t.facilities),
      TopOxygen(OpsMerged(t.facilities, t.operations)))
  }

  /** The guard on the loaded facilities table: nothing is shown when the load failed. */
  function Render(loaded: Option<Tables>): Option<Report>
  {
    match loaded
    case None => None
    case Some(t) => Some(BuildReport(t))
  }

  /** A failed load shows nothing; a successful one shows a report of exactly the loaded tables. */
  lemma RenderAllOrNothing(
    facilities: Option<seq<Facility>>,
    clinical: Option<seq<ClinicalRecord>>,
    governance: Option<seq<GovernanceRecord>>,
    operations: Option<seq<OperationsRecord>>)
    ensures Render(LoadData(facilities, clinical, governance, operations)).Some?
        <==> facilities.Some? && clinical.Some? && governance.Some? && operations.Some?
    ensures Render(LoadData(facilities, clinical, governance, operations)).Some?
        ==> Render(LoadData(facilities, clinical, governance, operations)).value
            == BuildReport(Tables(facilities.value, clinical.value, governance.value, operations.value))
  {
  }

  /** One facility whose protocol is "Yes": one count of 1 and the facility listed. */
  lemma ScenarioGovernance()
    ensures var rows := GovMerged([Facility(1, "A", "D1", "T1")], [GovernanceRecord(1, Some("Yes"))]);
            ProtocolCounts(rows) == [("Yes", 1)]
            && CompliantFacilities(rows) == [FacilitySummary("A", "D1", "T1")]
  {
  }

  /** Oxygen 5 and "abc": coerced to 5 and 0, ranked in that order. */
  lemma ScenarioOxygen()
    ensures var rows := OpsMerged([Facility(1, "X", "D1", "T1"), Facility(2, "Y", "D1", "T1")],
                                  [OperationsRecord(1, Number(5)), OperationsRecord(2, Text("abc"))]);
            var top := TopOxygen(rows);
            |top| == 2 && top[0].0.facility_name == "X" && Oxygen(top[0]) == 5
            && top[1].0.facility_name == "Y" && Oxygen(top[1]) == 0
  {
    var fx, fy := Facility(1, "X", "D1", "T1"), Facility(2, "Y", "D1", "T1");
    var ox, oy := OperationsRecord(1, Number(5)), OperationsRecord(2, Text("abc"));
    var facilities, operations := [fx, fy], [ox, oy];
    assert operations[1..] == [oy] && operations[1..][1..] == [];
    assert Join.Matches(fx, 1, [oy], OperationsKey) == [];
    assert Join.Matches(fx, 1, operations, OperationsKey) == [(fx, ox)];
    assert Join.Matches(fy, 2, [oy], OperationsKey) == [(fy, oy)];
    assert Join.Matches(fy, 2, operations, OperationsKey) == [(fy, oy)];
    assert facilities[1..] == [fy] && facilities[1..][1..] == [];
    assert Join.InnerJoin([fy], operations, FacilityKey, OperationsKey) == [(fy, oy)];
    var rows := OpsMerged(facilities, operations);
    assert rows == [(fx, ox), (fy, oy)];
    var coerced := [(fx, ox), (fy, OperationsRecord(2, Number(0)))];
    assert CoerceOxygen(rows) == coerced;
    assert coerced[1..] == [coerced[1]] && coerced[1..][1..] == [];
    assert Sorting.SortDesc(coerced, Oxygen) == coerced;
  }

  /** Two records of the same month: one trend entry with their sum. */
  lemma ScenarioMonthlyTrend(m: Month)
    ensures MonthlyTrend([ClinicalRecord(1, m, 10), ClinicalRecord(1, m, 5)]) == [(m, 15)]
  {
    var rows := [ClinicalRecord(1, m, 10), ClinicalRecord(1, m, 5)];
    assert rows[1..] == [ClinicalRecord(1, m, 5)];
    assert rows[1..][1..] == [];
    assert Grouping.GroupSum(rows[1..], ReportingMonth, LiveBirths) == [(m, 5)];
  }
}
