/**
 * Section 1 of the dashboard: the facilities joined with their governance
 * records, the frequency of each newborn-protocol status, and the list of
 * facilities whose status is "Yes".
 */
module Governance {
  import opened Wrappers
  import opened Seqs
  import opened Grouping
  import opened Sorting
  import opened Join
  import opened Records

  /** A row of `gov_merged`: a facility with one of its governance records. */
  type GovRow = (Facility, GovernanceRecord)

  /** The facility_name, district and tier_level columns of a compliant facility. */
  datatype FacilitySummary = FacilitySummary(facility_name: string, district: string, tier_level: string)

  function GovernanceKey(g: GovernanceRecord): FacilityId { g.facility_id }

  function Status(row: GovRow): Option<string> { row.1.newborn_protocol_exists }

  /** The inner merge (`merge`) of the facilities with the governance records on facility_id. */
  function GovMerged(facilities: seq<Facility>, governance: seq<GovernanceRecord>): seq<GovRow>
  {
    InnerJoin(facilities, governance, FacilityKey, GovernanceKey)
  }

  /** The joined table pairs exactly the facilities and governance records that share an id. */
  lemma {:induction false} GovMergedPairs(facilities: seq<Facility>, governance: seq<GovernanceRecord>, f: Facility, g: GovernanceRecord)
    ensures (f, g) in GovMerged(facilities, governance)
        <==> f in facilities && g in governance && f.facility_id == g.facility_id
  {
    JoinMembership(facilities, governance, FacilityKey, GovernanceKey, f, g);
  }

  /** The rows whose protocol status equals st, kept in row order (a boolean mask). */
  function RowsWithStatus(rows: seq<GovRow>, st: Option<string>): (r: seq<GovRow>)
    ensures |r| <= |rows|
    ensures forall i :: 0 <= i < |r| ==> r[i] in rows && Status(r[i]) == st
    ensures forall i :: 0 <= i < |rows| && Status(rows[i]) == st ==> rows[i] in r
    ensures |r| > 0 <==> exists i :: 0 <= i < |rows| && Status(rows[i]) == st
  {
    if rows == [] then []
    else
      var rest := RowsWithStatus(rows[1..], st);
      assert forall i :: 1 <= i < |rows| ==> rows[i] == rows[1..][i - 1];
      if Status(rows[0]) == st then [rows[0]] + rest else rest
  }

  /** The filter keeps each matching row as many times as it occurs, and no other row. */
  lemma {:induction false} RowsWithStatusMultiset(rows: seq<GovRow>, st: Option<string>, x: GovRow)
    ensures multiset(RowsWithStatus(rows, st))[x] == if Status(x) == st then multiset(rows)[x] else 0
  {
    if rows != [] {
      var head, tail := rows[0], rows[1..];
      var rest := RowsWithStatus(tail, st);
      RowsWithStatusMultiset(tail, st, x);
      assert multiset(rows) == multiset{head} + multiset(tail) by {
        assert rows == [head] + tail;
      }
      if Status(head) == st {
        assert RowsWithStatus(rows, st) == [head] + rest;
        assert multiset([head] + rest) == multiset{head} + multiset(rest);
      } else {
        assert RowsWithStatus(rows, st) == rest;
      }
    }
  }

  /**
   * The filter keeps row order: filtering a concatenation filters each
   * part, and a single row is kept exactly when its status matches. These
   * two facts determine the filter on every table.
   */
  lemma {:induction false} RowsWithStatusAppend(a: seq<GovRow>, b: seq<GovRow>, st: Option<string>)
    ensures RowsWithStatus(a + b, st) == RowsWithStatus(a, st) + RowsWithStatus(b, st)
    ensures |a| == 1 ==> RowsWithStatus(a, st) == if Status(a[0]) == st then a else []
  {
    if a != [] {
      assert (a + b)[0] == a[0];
      assert (a + b)[1..] == a[1..] + b;
      RowsWithStatusAppend(a[1..], b, st);
    } else {
      assert a + b == b;
    }
  }

  /** The newborn_protocol_exists column without its empty cells (what `value_counts` counts). */
  function PresentStatuses(rows: seq<GovRow>): (r: seq<string>)
    ensures forall s :: multiset(r)[s] == |RowsWithStatus(rows, Some(s))|
    ensures |r| + |RowsWithStatus(rows, None)| == |rows|
  {
    if rows == [] then []
    else
      var rest := PresentStatuses(rows[1..]);
      match Status(rows[0])
      case None => rest
      case Some(s0) =>
        assert forall s :: multiset([s0] + rest)[s] == multiset{s0}[s] + multiset(rest)[s];
        [s0] + rest
  }

  /**
   * The `value_counts` of the joined rows' protocol status: (status, count)
   * pairs over the non-empty statuses, largest count first.
   */
  function ProtocolCounts(rows: seq<GovRow>): seq<(string, int)>
  {
    SortDesc(CountBy(PresentStatuses(rows)), Total)
  }

  /**
   * One entry per status present in the joined rows; each count is the
   * number of joined rows with that status, hence at least 1; the counts
   * decrease and add up to the number of joined rows with a status
   * (all joined rows when no status cell is empty).
   */
  lemma {:induction false} ProtocolCountsSpec(rows: seq<GovRow>)
    ensures DistinctKeys(ProtocolCounts(rows))
    ensures SortedDesc(ProtocolCounts(rows), Total)
    ensures forall s :: s in KeysOf(ProtocolCounts(rows))
                    <==> exists i :: 0 <= i < |rows| && Status(rows[i]) == Some(s)
    ensures forall p :: p in ProtocolCounts(rows) ==> p.1 == |RowsWithStatus(rows, Some(p.0))| && p.1 >= 1
    ensures SumOf(ProtocolCounts(rows), Total) + |RowsWithStatus(rows, None)| == |rows|
    ensures (forall i :: 0 <= i < |rows| ==> Status(rows[i]).Some?)
        ==> SumOf(ProtocolCounts(rows), Total) == |rows|
  {
    var items := PresentStatuses(rows);
    var g := CountBy(items);
    SortDescDistinct(g, Total);
    SortDescKeys(g, Total);
    SortDescSum(g, Total, Total);
    forall s ensures s in KeysOf(g) <==> exists i :: 0 <= i < |rows| && Status(rows[i]) == Some(s) {
      assert s in items <==> multiset(items)[s] > 0;
    }
    forall p | p in ProtocolCounts(rows) ensures p.1 == |RowsWithStatus(rows, Some(p.0))| && p.1 >= 1 {
      assert p in multiset(g);
    }
  }

  /** A joined row projected to its facility's name, district and tier. */
  function Summarize(row: GovRow): FacilitySummary
  {
    FacilitySummary(row.0.facility_name, row.0.district, row.0.tier_level)
  }

  /** The projection of every joined row, in row order. */
  function SummarizeAll(rows: seq<GovRow>): (r: seq<FacilitySummary>)
    ensures |r| == |rows|
    ensures forall i :: 0 <= i < |rows| ==> r[i] == Summarize(rows[i])
  {
    if rows == [] then [] else [Summarize(rows[0])] + SummarizeAll(rows[1..])
  }

  /**
   * The joined rows whose protocol status is "Yes", in their order, each
   * projected to its facility's name, district and tier.
   */
  function CompliantFacilities(rows: seq<GovRow>): seq<FacilitySummary>
  {
    SummarizeAll(RowsWithStatus(rows, Some("Yes")))
  }

  /** A summary is listed exactly when some joined row with status "Yes" has it. */
  lemma CompliantFacilitiesSpec(rows: seq<GovRow>)
    ensures forall x :: x in CompliantFacilities(rows)
                    <==> exists i :: 0 <= i < |rows| && Status(rows[i]) == Some("Yes") && Summarize(rows[i]) == x
  {
  }

  /**
   * The compliant list keeps the order and the multiplicity of the "Yes"
   * rows: listing a concatenation lists each part, and a single row is
   * listed, once, exactly when its status is "Yes".
   */
  lemma {:induction false} CompliantFacilitiesAppend(a: seq<GovRow>, b: seq<GovRow>)
    ensures CompliantFacilities(a + b) == CompliantFacilities(a) + CompliantFacilities(b)
    ensures |a| == 1 ==> CompliantFacilities(a) == if Status(a[0]) == Some("Yes") then [Summarize(a[0])] else []
  {
    RowsWithStatusAppend(a, b, Some("Yes"));
    var ya, yb := RowsWithStatus(a, Some("Yes")), RowsWithStatus(b, Some("Yes"));
    var l, r := SummarizeAll(ya + yb), SummarizeAll(ya) + SummarizeAll(yb);
    assert |l| == |r|;
    forall i | 0 <= i < |l| ensures l[i] == r[i] {
      if i < |ya| { assert (ya + yb)[i] == ya[i]; } else { assert (ya + yb)[i] == yb[i - |ya|]; }
    }
  }

  /**
   * The compliant list is as long as the "Yes" count, or empty when no row
   * says "Yes".
   */
  lemma {:induction false} CompliantFacilitiesCount(rows: seq<GovRow>)
    ensures forall p :: p in ProtocolCounts(rows) && p.0 == "Yes" ==> p.1 == |CompliantFacilities(rows)|
    ensures "Yes" !in KeysOf(ProtocolCounts(rows)) ==> CompliantFacilities(rows) == []
  {
    ProtocolCountsSpec(rows);
  }
}
