/**
 * The rows of the four CSV tables, with the columns the dashboard reads.
 * Identifiers are facility_id values; months are reporting_month values
 * after parsing, as an ordinal that orders like the calendar.
 */
module Records {
  import opened Wrappers

  type FacilityId = int

  /** A parsed reporting month: a later month is a larger number. */
  type Month = int

  /** A row of facilities.csv. */
  datatype Facility = Facility(facility_id: FacilityId, facility_name: string, district: string, tier_level: string)

  /** A row of clinical_neonatal.csv. */
  datatype ClinicalRecord = ClinicalRecord(facility_id: FacilityId, reporting_month: Month, live_births: nat)

  /** A row of governance.csv; an empty cell reads as a missing status. */
  datatype GovernanceRecord = GovernanceRecord(facility_id: FacilityId, newborn_protocol_exists: Option<string>)

  /** A raw oxygen cell: a value `to_numeric` accepts, text it rejects, or an empty cell. */
  datatype Cell = Number(n: int) | Text(text: string) | Missing

  /** A row of operations.csv. */
  datatype OperationsRecord = OperationsRecord(facility_id: FacilityId, oxygen_cylinders_available: Cell)

  function FacilityKey(f: Facility): FacilityId { f.facility_id }

  /** facility_id is a key of the facilities table: no two rows share it. */
  predicate UniqueIds(facilities: seq<Facility>)
  {
    forall i, j :: 0 <= i < j < |facilities| ==> facilities[i].facility_id != facilities[j].facility_id
  }
}
