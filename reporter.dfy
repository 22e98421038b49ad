/** The reporter routes (app/routes/reporter.py): the report upsert and the latest-report read. */
module Reporter {
  import opened Wrappers
  import opened Http
  import opened Text
  import opened Payload
  import opened Validators
  import opened FacilityModel
  import opened ReportModel
  import opened Store

  /** A payload that passed validation carries a facility id of at least 1 and three counts in [0, 10000]. */
  lemma ValidPayloadValues(data: Dict)
    requires ValidateReportPayload(data) == []
    ensures SanitizeInteger(Get(data, "facility_id"), Some(1), None).Some?
    ensures forall k :: 0 <= k < |ReportFields| ==> SanitizeInteger(Get(data, ReportFields[k]), Some(0), Some(MaxCount)).Some?
  {
    assert ReportPayloadValid(data);
    forall k | 0 <= k < |ReportFields|
      ensures SanitizeInteger(Get(data, ReportFields[k]), Some(0), Some(MaxCount)).Some?
    {
      assert CountOk(data, ReportFields[k]);
    }
  }

  /** The value of the resource count `ReportFields[k]` in a validated payload. */
  function Count(data: Dict, k: nat): (n: int)
    requires ValidateReportPayload(data) == [] && k < |ReportFields|
    ensures 0 <= n <= MaxCount
    ensures AsInt(Get(data, ReportFields[k])) == Some(n)
  {
    ValidPayloadValues(data);
    SanitizeInteger(Get(data, ReportFields[k]), Some(0), Some(MaxCount)).value
  }

  /**
   * Write the three counts for facility `fid`: the first row for the facility is overwritten in
   * place (its `updated_at` refreshed only when a count actually changes, as the ORM emits no
   * UPDATE otherwise), or a new row is appended.
   */
  function Upsert(t: Tables, fid: int, icu: int, vents: int, staff: int, now: int): (r: Step<Report>)
    ensures r.reply.Ok? && r.reply.status == 201
    ensures r.reply.body.facilityId == fid && r.reply.body.icuBeds == icu
    ensures r.reply.body.ventilators == vents && r.reply.body.staff == staff
  {
    match FirstReportFor(t.reports, fid)
    case Some(i) =>
      var prev := t.reports[i];
      var changed := prev.icuBeds != icu || prev.ventilators != vents || prev.staff != staff;
      var row := prev.(icuBeds := icu, ventilators := vents, staff := staff,
                      updatedAt := if changed then now else prev.updatedAt);
      Step(Ok(201, row), t.(reports := t.reports[i := row]))
    case None =>
      var row := Report(t.nextReportId, fid, icu, vents, staff, now);
      Step(Ok(201, row), t.(reports := t.reports + [row], nextReportId := t.nextReportId + 1))
  }

  const NotLinked := "Reporter is not linked to a facility."
  const OtherFacility := "Reporter can only submit for their facility."

  /**
   * `create_report` for an admitted identity: 400 on validation errors, then 403 for a reporter
   * outside its facility, then 404 for an unknown facility, then the upsert (201).
   */
  function CreateReport(t: Tables, identity: Dict, data: Dict, now: int): (r: Step<Report>)
    ensures r.reply.Fail? ==> r.tables == t && r.reply.status in {400, 403, 404}
    ensures r.reply.Ok? ==>
      && r.reply.status == 201 && ValidateReportPayload(data) == []
      && r.reply.body.facilityId == PayloadFacility(data)
      && r.reply.body.icuBeds == Count(data, 0) && r.reply.body.ventilators == Count(data, 1)
      && r.reply.body.staff == Count(data, 2)
  {
    var errors := ValidateReportPayload(data);
    if errors != [] then Step(Fail(400, Errors(errors)), t)
    else match SanitizeInteger(Get(data, "facility_id"), Some(1), None)
      case None => Step(Fail(400, Error("Invalid facility_id.")), t)
      case Some(fid) =>
        var role := Get(identity, "role");
        var linked := Get(identity, "facility_id");
        if role == Str("reporter") && !Truthy(linked) then Step(Fail(403, Error(NotLinked)), t)
        else if role == Str("reporter") && linked != Int(fid) then Step(Fail(403, Error(OtherFacility)), t)
        else if FindFacility(t.facilities, fid).None? then Step(Fail(404, Error("Facility not found.")), t)
        else Upsert(t, fid, Count(data, 0), Count(data, 1), Count(data, 2), now)
  }

  /** The facility id a validated payload names. */
  function PayloadFacility(data: Dict): (fid: int)
    requires ValidateReportPayload(data) == []
    ensures fid >= 1 && AsInt(Get(data, "facility_id")) == Some(fid)
  {
    ValidPayloadValues(data);
    SanitizeInteger(Get(data, "facility_id"), Some(1), None).value
  }

  /** Any validation error gives 400 with exactly those messages, for every caller, and changes nothing. */
  lemma InvalidReportRejected(t: Tables, identity: Dict, data: Dict, now: int)
    requires ValidateReportPayload(data) != []
    ensures CreateReport(t, identity, data, now) == Step(Fail(400, Errors(ValidateReportPayload(data))), t)
  {
  }

  /** The "Invalid facility_id." reply is unreachable: validation already demands a facility id of at least 1. */
  lemma InvalidFacilityIdUnreachable(t: Tables, identity: Dict, data: Dict, now: int)
    ensures CreateReport(t, identity, data, now).reply != Fail(400, Error("Invalid facility_id."))
  {
    if ValidateReportPayload(data) == [] {
      ValidPayloadValues(data);
      var fid := SanitizeInteger(Get(data, "facility_id"), Some(1), None).value;
      var reply := CreateReport(t, identity, data, now).reply;
      assert reply.Ok? || reply.status == 403 || reply.status == 404;
    }
  }

  /** A reporter may only write its own facility; admins skip the check. Either 403 changes nothing. */
  lemma ReporterScope(t: Tables, identity: Dict, data: Dict, now: int)
    requires ValidateReportPayload(data) == []
    ensures var s := CreateReport(t, identity, data, now);
      Get(identity, "role") == Str("reporter") && !Truthy(Get(identity, "facility_id")) ==>
        s == Step(Fail(403, Error(NotLinked)), t)
    ensures var s := CreateReport(t, identity, data, now);
      Get(identity, "role") == Str("reporter") && Truthy(Get(identity, "facility_id")) &&
      Get(identity, "facility_id") != Int(PayloadFacility(data)) ==>
        s == Step(Fail(403, Error(OtherFacility)), t)
    ensures Get(identity, "role") != Str("reporter") ==> CreateReport(t, identity, data, now).reply.status != 403
  {
    ValidPayloadValues(data);
  }

  /** An authorised report for a facility that does not exist gives 404 and changes nothing. */
  lemma UnknownFacility(t: Tables, identity: Dict, data: Dict, now: int)
    requires ValidateReportPayload(data) == []
    requires Get(identity, "role") != Str("reporter") || Get(identity, "facility_id") == Int(PayloadFacility(data))
    requires FindFacility(t.facilities, PayloadFacility(data)).None?
    ensures CreateReport(t, identity, data, now) == Step(Fail(404, Error("Facility not found.")), t)
  {
    ValidPayloadValues(data);
  }

  /** An accepted report: the payload is valid, the caller may write it, and the facility exists. */
  predicate Accepted(t: Tables, identity: Dict, data: Dict) {
    && ValidateReportPayload(data) == []
    && (Get(identity, "role") != Str("reporter") || Get(identity, "facility_id") == Int(PayloadFacility(data)))
    && FindFacility(t.facilities, PayloadFacility(data)).Some?
  }

  lemma AcceptedUpserts(t: Tables, identity: Dict, data: Dict, now: int)
    requires Accepted(t, identity, data)
    ensures CreateReport(t, identity, data, now) ==
      Upsert(t, PayloadFacility(data), Count(data, 0), Count(data, 1), Count(data, 2), now)
  {
    ValidPayloadValues(data);
  }

  /**
   * With a row for the facility already present, its counts are overwritten in place: no row is
   * added and every other row is unchanged.
   */
  lemma UpsertOverwrites(t: Tables, fid: int, icu: int, vents: int, staff: int, now: int)
    requires FirstReportFor(t.reports, fid).Some?
    ensures var s := Upsert(t, fid, icu, vents, staff, now);
      var i := FirstReportFor(t.reports, fid).value;
      && |s.tables.reports| == |t.reports|
      && s.tables.reports[i].facilityId == fid && s.tables.reports[i].id == t.reports[i].id
      && s.tables.reports[i].icuBeds == icu && s.tables.reports[i].ventilators == vents && s.tables.reports[i].staff == staff
      && (forall k :: 0 <= k < |t.reports| && k != i ==> s.tables.reports[k] == t.reports[k])
      && s.tables.(reports := t.reports) == t
      && s.reply == Ok(201, s.tables.reports[i])
  {
  }

  /** Without a row for the facility, exactly one row with the facility and the counts is appended. */
  lemma UpsertInserts(t: Tables, fid: int, icu: int, vents: int, staff: int, now: int)
    requires FirstReportFor(t.reports, fid).None?
    ensures var s := Upsert(t, fid, icu, vents, staff, now);
      && s.tables.reports == t.reports + [Report(t.nextReportId, fid, icu, vents, staff, now)]
      && s.tables.(reports := t.reports, nextReportId := t.nextReportId) == t
      && s.reply == Ok(201, Report(t.nextReportId, fid, icu, vents, staff, now))
  {
  }

  /** Writing the same counts again changes nothing, whenever it happens. */
  lemma {:induction false} UpsertIdempotent(t: Tables, fid: int, icu: int, vents: int, staff: int, now: int, later: int)
    ensures var s := Upsert(t, fid, icu, vents, staff, now);
      Upsert(s.tables, fid, icu, vents, staff, later).tables == s.tables
  {
    var s := Upsert(t, fid, icu, vents, staff, now);
    match FirstReportFor(t.reports, fid)
    case Some(i) =>
      var rs := s.tables.reports;
      assert forall k :: 0 <= k < i ==> rs[k] == t.reports[k];
      assert rs[i].facilityId == fid;
      assert FirstReportFor(rs, fid) == Some(i);
      assert rs[i := rs[i]] == rs;
    case None =>
      var rs := s.tables.reports;
      var n := |t.reports|;
      assert forall k :: 0 <= k < n ==> rs[k] == t.reports[k];
      assert FirstReportFor(rs, fid) == Some(n);
      assert rs[n := rs[n]] == rs;
  }

  /** Submitting the same report twice leaves the tables as the first submission left them. */
  lemma CreateReportIdempotent(t: Tables, identity: Dict, data: Dict, now: int, later: int)
    ensures var s := CreateReport(t, identity, data, now);
      CreateReport(s.tables, identity, data, later).tables == s.tables
  {
    var s := CreateReport(t, identity, data, now);
    if Accepted(t, identity, data) {
      AcceptedUpserts(t, identity, data, now);
      var fid := PayloadFacility(data);
      UpsertIdempotent(t, fid, Count(data, 0), Count(data, 1), Count(data, 2), now, later);
      assert s.tables.facilities == t.facilities;
      AcceptedUpserts(s.tables, identity, data, later);
    } else {
      assert s.tables == t;
    }
  }

  /** A successful upsert keeps the report table's invariants. */
  lemma UpsertConsistent(t: Tables, fid: int, icu: int, vents: int, staff: int, now: int)
    requires Consistent(t) && icu >= 0 && vents >= 0 && staff >= 0
    ensures Consistent(Upsert(t, fid, icu, vents, staff, now).tables)
  {
    var s := Upsert(t, fid, icu, vents, staff, now);
    var rs := s.tables.reports;
    match FirstReportFor(t.reports, fid)
    case Some(i) =>
      assert forall k :: 0 <= k < |rs| ==> rs[k].id == t.reports[k].id;
    case None =>
      assert forall k :: 0 <= k < |t.reports| ==> rs[k] == t.reports[k];
  }

  /** `create_report` keeps every table's invariants. */
  lemma CreateReportConsistent(t: Tables, identity: Dict, data: Dict, now: int)
    requires Consistent(t)
    ensures Consistent(CreateReport(t, identity, data, now).tables)
  {
    if Accepted(t, identity, data) {
      AcceptedUpserts(t, identity, data, now);
      UpsertConsistent(t, PayloadFacility(data), Count(data, 0), Count(data, 1), Count(data, 2), now);
    }
  }

  /** The newest report of the facility a JSON value names; a value that is not an integer names none. */
  function NewestNamed(rs: seq<Report>, fid: Val): Option<Report> {
    if fid.Int? then NewestFor(rs, fid.i) else None
  }

  const NeedsFacilityArg := "facility_id is required for this request."

  /**
   * `get_my_latest_report`: a reporter reads its own facility (403 when it has none); other roles
   * name one in the query (400 when missing or 0). Then the newest report, or 404.
   */
  function GetMyLatestReport(t: Tables, identity: Dict, args: Args): (r: Reply<Report>)
    ensures r.Ok? ==> r.status == 200 && r.body in t.reports
    ensures r.Ok? ==> forall k :: 0 <= k < |t.reports| && t.reports[k].facilityId == r.body.facilityId ==>
      t.reports[k].updatedAt <= r.body.updatedAt
    ensures r.Ok? && Get(identity, "role") == Str("reporter") ==> Get(identity, "facility_id") == Int(r.body.facilityId)
    ensures r.Ok? && Get(identity, "role") != Str("reporter") ==> ArgInt(args, "facility_id", None) == Some(r.body.facilityId)
  {
    var fid :=
      if Get(identity, "role") == Str("reporter") then Get(identity, "facility_id")
      else OptInt(ArgInt(args, "facility_id", None));
    if Get(identity, "role") == Str("reporter") && !Truthy(fid) then Fail(403, Error(NotLinked))
    else if Get(identity, "role") != Str("reporter") && !Truthy(fid) then Fail(400, Error(NeedsFacilityArg))
    else match NewestNamed(t.reports, fid)
      case None => Fail(404, Error("No report found."))
      case Some(report) => Ok(200, report)
  }

  /** Which facility the latest-report read is about, and when it fails before looking. */
  lemma LatestReportFacility(t: Tables, identity: Dict, args: Args)
    ensures Get(identity, "role") == Str("reporter") ==>
      var fid := Get(identity, "facility_id");
      && (!Truthy(fid) <==> GetMyLatestReport(t, identity, args) == Fail(403, Error(NotLinked)))
      && (Truthy(fid) ==>
            GetMyLatestReport(t, identity, args) ==
              if NewestNamed(t.reports, fid).Some? then Ok(200, NewestNamed(t.reports, fid).value)
              else Fail(404, Error("No report found.")))
    ensures Get(identity, "role") != Str("reporter") ==>
      var fid := ArgInt(args, "facility_id", None);
      && (fid.None? || fid == Some(0) <==> GetMyLatestReport(t, identity, args) == Fail(400, Error(NeedsFacilityArg)))
      && (fid.Some? && fid.value != 0 ==>
            GetMyLatestReport(t, identity, args) ==
              if NewestFor(t.reports, fid.value).Some? then Ok(200, NewestFor(t.reports, fid.value).value)
              else Fail(404, Error("No report found.")))
  {
  }
}
