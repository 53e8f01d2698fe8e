/**
 * Section 3 of the dashboard: the facilities joined with their operations
 * records, the oxygen column coerced to numbers, and the 15 rows with the
 * most oxygen cylinders.
 */
module Operations {
  import opened Sorting
  import opened Join
  import opened Records

  /** A row of `ops_merged`: a facility with one of its operations records. */
  type OpsRow = (Facility, OperationsRecord)

  /** How many rows `head` keeps. */
  const TopCount: nat := 15

  function OperationsKey(o: OperationsRecord): FacilityId { o.facility_id }

  /** The inner merge (`merge`) of the facilities with the operations records on facility_id. */
  function OpsMerged(facilities: seq<Facility>, operations: seq<OperationsRecord>): seq<OpsRow>
  {
    InnerJoin(facilities, operations, FacilityKey, OperationsKey)
  }

  /** The joined table pairs exactly the facilities and operations records that share an id. */
  lemma {:induction false} OpsMergedPairs(facilities: seq<Facility>, operations: seq<OperationsRecord>, f: Facility, o: OperationsRecord)
    ensures (f, o) in OpsMerged(facilities, operations)
        <==> f in facilities && o in operations && f.facility_id == o.facility_id
  {
    JoinMembership(facilities, operations, FacilityKey, OperationsKey, f, o);
  }

  /** Numeric coercion (`to_numeric`, unreadable values to empty, empty to 0) of one cell: a number stays, anything else is 0. */
  function ToNumber(c: Cell): int
  {
    match c
    case Number(n) => n
    case Text(_) => 0
    case Missing => 0
  }

  /** The oxygen count of a row, the sort key of the ranking. */
  function Oxygen(row: OpsRow): int { ToNumber(row.1.oxygen_cylinders_available) }

  function CoerceRow(row: OpsRow): OpsRow
  {
    (row.0, row.1.(oxygen_cylinders_available := Number(ToNumber(row.1.oxygen_cylinders_available))))
  }

  /**
   * The reassignment of the oxygen column: same rows in the same order,
   * every other column unchanged, a numeric cell kept as it is and a
   * non-numeric or empty one replaced by 0.
   */
  function CoerceOxygen(rows: seq<OpsRow>): (r: seq<OpsRow>)
    ensures |r| == |rows|
    ensures forall i :: 0 <= i < |rows| ==>
      && r[i].0 == rows[i].0
      && r[i].1.facility_id == rows[i].1.facility_id
      && r[i].1.oxygen_cylinders_available
         == (if rows[i].1.oxygen_cylinders_available.Number? then rows[i].1.oxygen_cylinders_available else Number(0))
  {
    if rows == [] then [] else [CoerceRow(rows[0])] + CoerceOxygen(rows[1..])
  }

  /** Coercing an already numeric column changes nothing. */
  lemma CoerceOxygenIdempotent(rows: seq<OpsRow>)
    ensures CoerceOxygen(CoerceOxygen(rows)) == CoerceOxygen(rows)
  {
  }

  /** `s.head(n)`: the first n rows, or all of them when there are fewer. */
  function Take<T>(s: seq<T>, n: nat): (r: seq<T>)
    ensures |r| == if |s| <= n then |s| else n
    ensures r == s[..|r|]
  {
    if |s| <= n then s else s[..n]
  }

  /** The coerced joined rows sorted by oxygen count, largest first (`sort_values`), and the first fifteen kept (`head`). */
  function TopOxygen(rows: seq<OpsRow>): seq<OpsRow>
  {
    Take(SortDesc(CoerceOxygen(rows), Oxygen), TopCount)
  }

  /**
   * The ranking holds min(15, number of joined rows) coerced rows, most
   * oxygen first; it is a sub-multiset of the coerced join (all of it when
   * there are at most 15 rows), and every row it leaves out has at most
   * the oxygen of the last row it keeps.
   */
  lemma {:induction false} TopOxygenSpec(rows: seq<OpsRow>)
    ensures |TopOxygen(rows)| == if |rows| <= TopCount then |rows| else TopCount
    ensures SortedDesc(TopOxygen(rows), Oxygen)
    ensures multiset(TopOxygen(rows)) <= multiset(CoerceOxygen(rows))
    ensures |rows| <= TopCount ==> multiset(TopOxygen(rows)) == multiset(CoerceOxygen(rows))
    ensures forall x :: x in multiset(CoerceOxygen(rows)) - multiset(TopOxygen(rows))
                    ==> Oxygen(x) <= Oxygen(TopOxygen(rows)[|TopOxygen(rows)| - 1])
  {
    var c := CoerceOxygen(rows);
    var s := SortDesc(c, Oxygen);
    var t := TopOxygen(rows);
    SortDescLength(c, Oxygen);
    assert t == s[..|t|];
    SortedPrefix(s, |t|, Oxygen);
  }

  /** Every ranked row carries a numeric oxygen cell. */
  lemma {:induction false} TopOxygenNumeric(rows: seq<OpsRow>)
    ensures forall x :: x in TopOxygen(rows) ==> x.1.oxygen_cylinders_available.Number?
  {
    var c := CoerceOxygen(rows);
    var s := SortDesc(c, Oxygen);
    SortDescLength(c, Oxygen);
    SortedPrefix(s, |TopOxygen(rows)|, Oxygen);
    forall x | x in TopOxygen(rows) ensures x.1.oxygen_cylinders_available.Number? {
      assert x in multiset(c);
      var i :| 0 <= i < |c| && c[i] == x;
    }
  }
}
