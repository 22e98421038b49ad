/** The resource report record (app/models/resource_report.py). */
module ReportModel {
  import opened Payload

  /** A row of `resource_reports`. Nothing makes `facilityId` unique: a facility may have several rows. */
  datatype Report = Report(id: int, facilityId: int, icuBeds: int, ventilators: int, staff: int, updatedAt: int)

  /** The three `ck_reports_*_non_negative` check constraints. */
  predicate CountsNonNegative(r: Report) {
    r.icuBeds >= 0 && r.ventilators >= 0 && r.staff >= 0
  }

  /** The three count columns a report payload may write. */
  const CountColumns: set<string> := {"icu_beds_available", "ventilators_available", "staff_on_duty"}

  /** `getattr(report, field)` on a count column. */
  function CountField(r: Report, field: string): int
    requires field in CountColumns
  {
    if field == "icu_beds_available" then r.icuBeds
    else if field == "ventilators_available" then r.ventilators
    else r.staff
  }

  /** `setattr(report, field, value)` on a count column: that column takes the value, nothing else changes. */
  function SetCountField(r: Report, field: string, v: int): (s: Report)
    requires field in CountColumns
    ensures CountField(s, field) == v
    ensures forall f :: f in CountColumns && f != field ==> CountField(s, f) == CountField(r, f)
    ensures s.id == r.id && s.facilityId == r.facilityId && s.updatedAt == r.updatedAt
  {
    if field == "icu_beds_available" then r.(icuBeds := v)
    else if field == "ventilators_available" then r.(ventilators := v)
    else r.(staff := v)
  }

  const ReportKeys: set<string> := {"id", "facility_id", "icu_beds_available", "ventilators_available", "staff_on_duty", "updated_at"}

  /** `ResourceReport.to_dict`. The timestamp is given as its seconds rather than ISO text. */
  function ReportToDict(r: Report): (d: Dict)
    ensures d.Keys == ReportKeys
    ensures d["id"] == Int(r.id) && d["facility_id"] == Int(r.facilityId)
    ensures d["icu_beds_available"] == Int(r.icuBeds) && d["ventilators_available"] == Int(r.ventilators)
    ensures d["staff_on_duty"] == Int(r.staff)
  {
    map[
      "id" := Int(r.id),
      "facility_id" := Int(r.facilityId),
      "icu_beds_available" := Int(r.icuBeds),
      "ventilators_available" := Int(r.ventilators),
      "staff_on_duty" := Int(r.staff),
      "updated_at" := Int(r.updatedAt)]
  }

  /** Every field is copied, so the dictionary determines the report. */
  lemma ReportToDictInjective(a: Report, b: Report)
    requires ReportToDict(a) == ReportToDict(b)
    ensures a == b
  {
    assert ReportToDict(a)["updated_at"] == ReportToDict(b)["updated_at"];
  }
}
