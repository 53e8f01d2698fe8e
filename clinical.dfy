/**
 * Section 2 of the dashboard: live births summed per reporting month over
 * the whole clinical table, and summed per district after joining the
 * clinical rows with the facilities.
 */
module Clinical {
  import opened Seqs
  import opened Grouping
  import opened Sorting
  import opened Join
  import opened Records

  /** A row of `clinical_merged`: a clinical record with the facility whose district it takes. */
  type ClinicalRow = (ClinicalRecord, Facility)

  function ClinicalKey(c: ClinicalRecord): FacilityId { c.facility_id }

  function ReportingMonth(c: ClinicalRecord): Month { c.reporting_month }

  function LiveBirths(c: ClinicalRecord): int { c.live_births }

  function RowDistrict(row: ClinicalRow): string { row.1.district }

  function RowBirths(row: ClinicalRow): int { row.0.live_births }

  /** Orders (month, total) entries earliest first when sorted descending. */
  function Earliest(p: (Month, int)): int { -p.0 }

  /** Months strictly increase along the trend. */
  predicate StrictlyAscending(t: seq<(Month, int)>)
  {
    forall i, j :: 0 <= i < j < |t| ==> t[i].0 < t[j].0
  }

  /**
   * The live births of the clinical table summed per reporting month
   * (`groupby` then `sum`); `groupby` sorts its keys, so the months come out
   * ascending.
   */
  function MonthlyTrend(clinical: seq<ClinicalRecord>): seq<(Month, int)>
  {
    SortDesc(GroupSum(clinical, ReportingMonth, LiveBirths), Earliest)
  }

  /**
   * One entry per month that occurs in the clinical table, months strictly
   * ascending, each total the sum of live births reported for that month
   * and never negative; the totals add up to the live births of every
   * clinical row, whether or not its facility is known.
   */
  lemma {:induction false} MonthlyTrendSpec(clinical: seq<ClinicalRecord>)
    ensures StrictlyAscending(MonthlyTrend(clinical))
    ensures KeysOf(MonthlyTrend(clinical)) == set i | 0 <= i < |clinical| :: clinical[i].reporting_month
    ensures forall p :: p in MonthlyTrend(clinical)
                    ==> p.1 == SumWhere(clinical, ReportingMonth, LiveBirths, p.0) && p.1 >= 0
    ensures SumOf(MonthlyTrend(clinical), Total) == SumOf(clinical, LiveBirths)
  {
    var g := GroupSum(clinical, ReportingMonth, LiveBirths);
    var t := MonthlyTrend(clinical);
    SortDescDistinct(g, Earliest);
    SortDescKeys(g, Earliest);
    SortDescSum(g, Earliest, Total);
    GroupSumEntries(clinical, ReportingMonth, LiveBirths);
    forall p | p in t ensures p.1 == SumWhere(clinical, ReportingMonth, LiveBirths, p.0) && p.1 >= 0 {
      assert p in multiset(g);
      assert p in g;
      SumWhereNonNegative(clinical, p.0);
    }
    AscendingFromSort(t);
  }

  /** Distinct months sorted latest-last are strictly ascending. */
  lemma AscendingFromSort(t: seq<(Month, int)>)
    requires DistinctKeys(t) && SortedDesc(t, Earliest)
    ensures StrictlyAscending(t)
  {
  }

  lemma {:induction false} SumWhereNonNegative(clinical: seq<ClinicalRecord>, m: Month)
    ensures SumWhere(clinical, ReportingMonth, LiveBirths, m) >= 0
  {
    if clinical != [] {
      SumWhereNonNegative(clinical[1..], m);
    }
  }

  /** The inner merge (`merge`) of the clinical records with the facilities on facility_id. */
  function ClinicalMerged(clinical: seq<ClinicalRecord>, facilities: seq<Facility>): seq<ClinicalRow>
  {
    InnerJoin(clinical, facilities, ClinicalKey, FacilityKey)
  }

  /**
   * The joined live births summed per district (`groupby` then `sum`),
   * largest total first (`sort_values`, descending).
   */
  function DistrictBirths(clinical: seq<ClinicalRecord>, facilities: seq<Facility>): seq<(string, int)>
  {
    SortDesc(GroupSum(ClinicalMerged(clinical, facilities), RowDistrict, RowBirths), Total)
  }

  /**
   * One entry per district of the joined rows, totals never increasing
   * along the table, each the sum of live births over that district's
   * joined rows; the totals add up to the live births of the joined rows.
   */
  lemma {:induction false} DistrictBirthsSpec(clinical: seq<ClinicalRecord>, facilities: seq<Facility>)
    ensures DistinctKeys(DistrictBirths(clinical, facilities))
    ensures SortedDesc(DistrictBirths(clinical, facilities), Total)
    ensures KeysOf(DistrictBirths(clinical, facilities))
         == set i | 0 <= i < |ClinicalMerged(clinical, facilities)| :: ClinicalMerged(clinical, facilities)[i].1.district
    ensures forall p :: p in DistrictBirths(clinical, facilities)
                    ==> p.1 == SumWhere(ClinicalMerged(clinical, facilities), RowDistrict, RowBirths, p.0)
    ensures SumOf(DistrictBirths(clinical, facilities), Total) == SumOf(ClinicalMerged(clinical, facilities), RowBirths)
  {
    var rows := ClinicalMerged(clinical, facilities);
    var g := GroupSum(rows, RowDistrict, RowBirths);
    SortDescDistinct(g, Total);
    SortDescKeys(g, Total);
    SortDescSum(g, Total, Total);
    GroupSumEntries(rows, RowDistrict, RowBirths);
    forall p | p in DistrictBirths(clinical, facilities)
      ensures p.1 == SumWhere(rows, RowDistrict, RowBirths, p.0)
    {
      assert p in multiset(g);
    }
  }

  /** Live births of the clinical rows whose facility_id names some facility. */
  function MatchedBirths(clinical: seq<ClinicalRecord>, facilities: seq<Facility>): int
  {
    if clinical == [] then 0
    else
      (if exists i :: 0 <= i < |facilities| && facilities[i].facility_id == clinical[0].facility_id
       then clinical[0].live_births else 0)
      + MatchedBirths(clinical[1..], facilities)
  }

  /** With facility ids unique, a clinical record joins at most once. */
  lemma {:induction false} MatchesBirths(c: ClinicalRecord, facilities: seq<Facility>)
    requires UniqueIds(facilities)
    ensures SumOf(Matches(c, c.facility_id, facilities, FacilityKey), RowBirths)
         == if exists i :: 0 <= i < |facilities| && facilities[i].facility_id == c.facility_id
            then c.live_births else 0
  {
    if facilities != [] {
      var rest := facilities[1..];
      assert UniqueIds(rest) by {
        forall i, j | 0 <= i < j < |rest| ensures rest[i].facility_id != rest[j].facility_id {
          assert rest[i] == facilities[i + 1] && rest[j] == facilities[j + 1];
        }
      }
      MatchesBirths(c, rest);
      if facilities[0].facility_id == c.facility_id {
        forall i | 0 <= i < |rest| ensures rest[i].facility_id != c.facility_id {
          assert rest[i] == facilities[i + 1];
        }
      } else {
        if exists i :: 0 <= i < |facilities| && facilities[i].facility_id == c.facility_id {
          var i :| 0 <= i < |facilities| && facilities[i].facility_id == c.facility_id;
          assert rest[i - 1] == facilities[i];
        }
        if exists i :: 0 <= i < |rest| && rest[i].facility_id == c.facility_id {
          var i :| 0 <= i < |rest| && rest[i].facility_id == c.facility_id;
          assert facilities[i + 1] == rest[i];
        }
      }
    }
  }

  /**
   * With facility ids unique (the facilities table's key), the district
   * totals add up to the live births of exactly the clinical rows whose
   * facility is known; rows of unknown facilities are dropped by the join.
   */
  lemma {:induction false} DistrictBirthsConserve(clinical: seq<ClinicalRecord>, facilities: seq<Facility>)
    requires UniqueIds(facilities)
    ensures SumOf(DistrictBirths(clinical, facilities), Total) == MatchedBirths(clinical, facilities)
  {
    DistrictBirthsSpec(clinical, facilities);
    JoinBirths(clinical, facilities);
  }

  lemma {:induction false} JoinBirths(clinical: seq<ClinicalRecord>, facilities: seq<Facility>)
    requires UniqueIds(facilities)
    ensures SumOf(ClinicalMerged(clinical, facilities), RowBirths) == MatchedBirths(clinical, facilities)
  {
    if clinical != [] {
      var c := clinical[0];
      var m := Matches(c, ClinicalKey(c), facilities, FacilityKey);
      SumOfAppend(m, ClinicalMerged(clinical[1..], facilities), RowBirths);
      MatchesBirths(c, facilities);
      JoinBirths(clinical[1..], facilities);
    }
  }
}
