/** The database the routes read and write: three tables held as sequences of rows in table order. */
module Store {
  import opened Wrappers
  import opened Http
  import opened UserModel
  import opened FacilityModel
  import opened ReportModel

  /** The tables, with the next primary key each will hand out. */
  datatype Tables = Tables(
    users: seq<User>,
    facilities: seq<Facility>,
    reports: seq<Report>,
    nextUserId: int,
    nextFacilityId: int,
    nextReportId: int)

  /** What a route does: its reply, and the tables after it. */
  datatype Step<+T> = Step(reply: Reply<T>, tables: Tables)

  predicate UsersConsistent(us: seq<User>, nextId: int) {
    && (forall i, j :: 0 <= i < j < |us| ==> us[i].id != us[j].id && us[i].email != us[j].email)
    && (forall i :: 0 <= i < |us| ==> us[i].id < nextId && FacilityOnlyForReporter(us[i]))
  }

  predicate FacilitiesConsistent(fs: seq<Facility>, nextId: int) {
    && (forall i, j :: 0 <= i < j < |fs| ==> fs[i].id != fs[j].id && fs[i].name != fs[j].name)
    && (forall i :: 0 <= i < |fs| ==> fs[i].id < nextId)
  }

  predicate ReportsConsistent(rs: seq<Report>, nextId: int) {
    && (forall i, j :: 0 <= i < j < |rs| ==> rs[i].id != rs[j].id)
    && (forall i :: 0 <= i < |rs| ==> rs[i].id < nextId && CountsNonNegative(rs[i]))
  }

  /**
   * The schema's guarantees: unique primary keys below the next key, unique user emails and
   * facility names, only reporters linked to a facility, and non-negative counts.
   */
  predicate Consistent(t: Tables) {
    && UsersConsistent(t.users, t.nextUserId)
    && FacilitiesConsistent(t.facilities, t.nextFacilityId)
    && ReportsConsistent(t.reports, t.nextReportId)
  }

  /** The position of the first facility with primary key `id`. */
  function FacilityIndex(fs: seq<Facility>, id: int): (r: Option<nat>)
    ensures r.Some? ==> r.value < |fs| && fs[r.value].id == id
    ensures r.Some? ==> forall k :: 0 <= k < r.value ==> fs[k].id != id
    ensures r.None? <==> forall k :: 0 <= k < |fs| ==> fs[k].id != id
  {
    if fs == [] then None
    else if fs[0].id == id then Some(0)
    else match FacilityIndex(fs[1..], id)
      case None => None
      case Some(k) => Some(k + 1)
  }

  /** `Facility.query.get(id)`: the facility with that primary key, if any. */
  function FindFacility(fs: seq<Facility>, id: int): (r: Option<Facility>)
    ensures r.Some? ==> r.value in fs && r.value.id == id
    ensures r.None? <==> forall i :: 0 <= i < |fs| ==> fs[i].id != id
  {
    match FacilityIndex(fs, id)
    case Some(i) => Some(fs[i])
    case None => None
  }

  /** `Facility.query.filter_by(name=name).first()` is not None. */
  predicate NameTaken(fs: seq<Facility>, name: string) {
    exists i :: 0 <= i < |fs| && fs[i].name == name
  }

  /** `User.query.filter_by(email=email).first()`. */
  function FindUserByEmail(us: seq<User>, email: string): (r: Option<User>)
    ensures r.Some? ==> r.value in us && r.value.email == email
    ensures r.None? <==> forall i :: 0 <= i < |us| ==> us[i].email != email
  {
    if us == [] then None
    else if us[0].email == email then Some(us[0])
    else FindUserByEmail(us[1..], email)
  }

  predicate EmailTaken(us: seq<User>, email: string) {
    exists i :: 0 <= i < |us| && us[i].email == email
  }

  /** `ResourceReport.query.filter_by(facility_id=fid).first()`: the position of the first row for `fid`. */
  function FirstReportFor(rs: seq<Report>, fid: int): (r: Option<nat>)
    ensures r.Some? ==> r.value < |rs| && rs[r.value].facilityId == fid
    ensures r.Some? ==> forall k :: 0 <= k < r.value ==> rs[k].facilityId != fid
    ensures r.None? <==> forall k :: 0 <= k < |rs| ==> rs[k].facilityId != fid
  {
    if rs == [] then None
    else match FirstReportFor(rs[..|rs| - 1], fid)
      case Some(k) => Some(k)
      case None => if rs[|rs| - 1].facilityId == fid then Some(|rs| - 1) else None
  }

  /**
   * The latest report of facility `fid`: the row with the greatest `updated_at`, the last such
   * row in table order when several share it.
   */
  function NewestFor(rs: seq<Report>, fid: int): (r: Option<Report>)
    ensures r.Some? ==> r.value in rs && r.value.facilityId == fid
    ensures r.Some? ==> forall k :: 0 <= k < |rs| && rs[k].facilityId == fid ==> rs[k].updatedAt <= r.value.updatedAt
    ensures r.None? <==> forall k :: 0 <= k < |rs| ==> rs[k].facilityId != fid
  {
    if rs == [] then None
    else
      var prev := NewestFor(rs[..|rs| - 1], fid);
      var last := rs[|rs| - 1];
      assert forall k :: 0 <= k < |rs| - 1 ==> rs[k] == rs[..|rs| - 1][k];
      if last.facilityId == fid && (prev.None? || prev.value.updatedAt <= last.updatedAt) then Some(last)
      else prev
  }
}
