/**
 * The application's mutable state: the three tables behind the ORM session and the module-level
 * `revoked_tokens` set of app/routes/auth.py, with the routes that change them.
 */
module Server {
  import opened Wrappers
  import opened Http
  import opened Payload
  import opened Validators
  import opened UserModel
  import opened FacilityModel
  import opened ReportModel
  import opened Store
  import opened Tokens
  import opened Decorators
  import Reporter
  import Admin
  import Auth

  class App {
    var users: seq<User>
    var facilities: seq<Facility>
    var reports: seq<Report>
    var nextUserId: int
    var nextFacilityId: int
    var nextReportId: int
    /** `revoked_tokens`: the `jti` of every token logged out so far. */
    var revoked: set<string>

    /** The tables as a value, the form the route functions work on. */
    function State(): Tables
      reads this
    {
      Tables(users, facilities, reports, nextUserId, nextFacilityId, nextReportId)
    }

    predicate Valid()
      reads this
    {
      Consistent(State())
    }

    /** An empty database whose identity columns start at 1, and no revoked tokens. */
    constructor ()
      ensures Valid() && revoked == {}
      ensures State() == Tables([], [], [], 1, 1, 1)
    {
      users, facilities, reports := [], [], [];
      nextUserId, nextFacilityId, nextReportId := 1, 1, 1;
      revoked := {};
    }

    /**
     * The upsert of `create_report`: the first row of the facility gets the three counts by
     * `setattr`, one column at a time (its `updated_at` moves only when a count changed), or a
     * new row is added.
     */
    method Upsert(fid: int, counts: seq<int>, now: int) returns (row: Report)
      requires |counts| == |ReportFields|
      modifies this
      ensures revoked == old(revoked)
      ensures Step(Ok(201, row), State()) == Reporter.Upsert(old(State()), fid, counts[0], counts[1], counts[2], now)
    {
      var found := FirstReportFor(reports, fid);
      if found.None? {
        row := Report(nextReportId, fid, counts[0], counts[1], counts[2], now);
        reports := reports + [row];
        nextReportId := nextReportId + 1;
        return;
      }
      var i := found.value;
      var prev := reports[i];
      row := prev;
      assert forall k :: 0 <= k < |ReportFields| ==> ReportFields[k] in CountColumns;
      for k := 0 to |ReportFields|
        invariant row.id == prev.id && row.facilityId == prev.facilityId && row.updatedAt == prev.updatedAt
        invariant forall j :: 0 <= j < k ==> CountField(row, ReportFields[j]) == counts[j]
        invariant forall j :: k <= j < |ReportFields| ==> CountField(row, ReportFields[j]) == CountField(prev, ReportFields[j])
      {
        row := SetCountField(row, ReportFields[k], counts[k]);
      }
      assert CountField(row, ReportFields[0]) == row.icuBeds;
      assert CountField(row, ReportFields[1]) == row.ventilators;
      assert CountField(row, ReportFields[2]) == row.staff;
      if row != prev {
        row := row.(updatedAt := now);
      }
      reports := reports[i := row];
    }

    /** `create_report` for an identity the reporter guard admitted. */
    method CreateReport(identity: Dict, data: Dict, now: int) returns (r: Reply<Report>)
      requires Valid()
      modifies this
      ensures Valid() && revoked == old(revoked)
      ensures Step(r, State()) == Reporter.CreateReport(old(State()), identity, data, now)
    {
      ghost var t0 := State();
      Reporter.CreateReportConsistent(t0, identity, data, now);
      var errors := ValidateReportPayload(data);
      if errors != [] {
        return Fail(400, Errors(errors));
      }
      var facilityId := SanitizeInteger(Get(data, "facility_id"), Some(1), None);
      if facilityId.None? {
        return Fail(400, Error("Invalid facility_id."));
      }
      var fid := facilityId.value;
      var role := Get(identity, "role");
      var linked := Get(identity, "facility_id");
      if role == Str("reporter") {
        if !Truthy(linked) {
          return Fail(403, Error(Reporter.NotLinked));
        }
        if linked != Int(fid) {
          return Fail(403, Error(Reporter.OtherFacility));
        }
      }
      if FindFacility(facilities, fid).None? {
        return Fail(404, Error("Facility not found."));
      }
      var counts := [Reporter.Count(data, 0), Reporter.Count(data, 1), Reporter.Count(data, 2)];
      var row := Upsert(fid, counts, now);
      r := Ok(201, row);
    }

    /** `POST /reports` as a whole: the reporter guard, then `create_report`; a turned-away request changes nothing. */
    method SubmitReport(token: Option<Token>, data: Dict, now: int) returns (r: Response<Report>)
      requires Valid()
      modifies this
      ensures Valid() && revoked == old(revoked)
      ensures r == Denied <==> !Authenticated(token, revoked)
      ensures !RoleGuard(ReporterRoles, token, revoked).Admitted? ==> State() == old(State())
      ensures RoleGuard(ReporterRoles, token, revoked).Forbidden? ==> r == Replied(Fail(403, Error("Forbidden")))
      ensures RoleGuard(ReporterRoles, token, revoked).Admitted? ==>
        r.Replied? && Step(r.reply, State()) == Reporter.CreateReport(old(State()), RoleGuard(ReporterRoles, token, revoked).identity, data, now)
    {
      var g := RoleGuard(ReporterRoles, token, revoked);
      match g
      case Unauthenticated => r := Denied;
      case Crashed => r := Replied(Unexpected());
      case Forbidden => r := Replied(Fail(403, Error("Forbidden")));
      case Admitted(identity) =>
        var reply := CreateReport(identity, data, now);
        r := Replied(reply);
    }

    /** `create_facility`: 400 on validation errors, 409 for a taken name, otherwise one new facility. */
    method CreateFacility(data: Dict, now: int) returns (r: Reply<Facility>)
      requires Valid()
      modifies this
      ensures Valid() && revoked == old(revoked)
      ensures Step(r, State()) == Admin.CreateFacility(old(State()), data, now)
    {
      var errors := ValidateFacilityPayload(data);
      if errors != [] {
        return Fail(400, Errors(errors));
      }
      var name := SanitizeString(Get(data, "name"), 150);
      var country := Admin.OrNone(SanitizeString(Get(data, "country"), 120));
      var city := Admin.OrNone(SanitizeString(Get(data, "city"), 120));
      ghost var t0 := State();
      r := AddFacility(name, country, city, now);
      Admin.CreateFacilityConsistent(t0, data, now);
    }

    /** The insert of `create_facility`: 409 for a taken name, otherwise one new facility. */
    method AddFacility(name: string, country: Option<string>, city: Option<string>, now: int) returns (r: Reply<Facility>)
      modifies this
      ensures revoked == old(revoked)
      ensures Step(r, State()) == Admin.AddFacility(old(State()), name, country, city, now)
    {
      if NameTaken(facilities, name) {
        return Fail(409, Error("Facility already exists."));
      }
      var f := Facility(nextFacilityId, name, country, city, now);
      facilities := facilities + [f];
      nextFacilityId := nextFacilityId + 1;
      r := Ok(201, f);
    }

    /** `create_user`: the payload is read first, then the checks of `Admin.AddUser` decide. */
    method CreateUser(data: Dict, now: int) returns (r: Reply<User>)
      requires Valid()
      modifies this
      ensures Valid() && revoked == old(revoked)
      ensures Step(r, State()) == Admin.CreateUser(old(State()), data, now)
    {
      r := AddUser(Admin.ReadNewUser(data), now);
    }

    /** The decisions of `create_user` on what it read, then one new user. */
    method AddUser(req: Admin.NewUser, now: int) returns (r: Reply<User>)
      requires Valid()
      modifies this
      ensures Valid() && revoked == old(revoked)
      ensures Step(r, State()) == Admin.AddUser(old(State()), req, now)
    {
      Admin.AddUserConsistent(State(), req, now);
      if req.email == "" {
        return Fail(400, Error(Admin.EmailRequiredMsg));
      }
      if !Truthy(req.password) {
        return Fail(400, Error(Admin.TemporaryPasswordRequired));
      }
      var parsed := ParseRole(req.roleValue);
      if parsed.None? {
        return Fail(400, Error(Admin.InvalidRole));
      }
      var role := parsed.value;
      if role == Reporter && req.facilityId.None? {
        return Fail(400, Error(Admin.ReporterNeedsFacility));
      }
      if role == Reporter && FindFacility(facilities, req.facilityId.value).None? {
        return Fail(404, Error("Facility not found."));
      }
      var linked := if role == Reporter then req.facilityId else None;
      if !req.password.Str? {
        return Unexpected();
      }
      if EmailTaken(users, req.email) {
        return Fail(409, Error("Email already registered."));
      }
      var u := User(nextUserId, req.email, HashPassword(req.password.s), role, linked, now, now);
      users := users + [u];
      nextUserId := nextUserId + 1;
      r := Ok(201, u);
    }

    /** `delete_facility`: 404 for an unknown id, otherwise that one row goes. */
    method DeleteFacility(id: int) returns (r: Reply<string>)
      requires Valid()
      modifies this
      ensures Valid() && revoked == old(revoked)
      ensures Step(r, State()) == Admin.DeleteFacility(old(State()), id)
    {
      Admin.DeleteFacilityConsistent(State(), id);
      var found := FacilityIndex(facilities, id);
      if found.None? {
        return Fail(404, Error("Facility not found."));
      }
      var i := found.value;
      facilities := facilities[..i] + facilities[i + 1..];
      r := Ok(200, "Facility deleted.");
    }

    /** `register`: validation, the checks of `Auth.AddRegistration`, then one new user and a token with id `jti`. */
    method Register(data: Dict, now: int, jti: string) returns (r: Reply<Auth.Registered>)
      requires Valid()
      modifies this
      ensures Valid() && revoked == old(revoked)
      ensures Step(r, State()) == Auth.Register(old(State()), data, now, jti)
    {
      var validated := ValidateUserPayload(data, true);
      if validated.Raised? {
        return Unexpected();
      }
      if validated.value != [] {
        return Fail(400, Errors(validated.value));
      }
      r := AddRegistration(Auth.ReadRegistration(data), now, jti);
    }

    /** The decisions of `register` on a validated payload, then one new user and a session. */
    method AddRegistration(req: Auth.Registration, now: int, jti: string) returns (r: Reply<Auth.Registered>)
      requires Valid()
      modifies this
      ensures Valid() && revoked == old(revoked)
      ensures Step(r, State()) == Auth.AddRegistration(old(State()), req, now, jti)
    {
      Auth.AddRegistrationConsistent(State(), req, now, jti);
      if req.rawFacility != Null && req.facilityId.None? {
        return Fail(400, Error(Auth.BadFacilityId));
      }
      var parsed := ParseRole(req.roleValue);
      if parsed.None? {
        return Fail(400, Error("Invalid role."));
      }
      var role := parsed.value;
      if role != Reporter && req.facilityId.Some? {
        return Fail(400, Error(Auth.FacilityOnlyReporter));
      }
      if req.facilityId.Some? && FindFacility(facilities, req.facilityId.value).None? {
        return Fail(404, Error("Facility not found."));
      }
      if !req.password.Str? {
        return Unexpected();
      }
      if EmailTaken(users, req.email) {
        return Fail(409, Error("Email already registered."));
      }
      var u := User(nextUserId, req.email, HashPassword(req.password.s), role, req.facilityId, now, now);
      users := users + [u];
      nextUserId := nextUserId + 1;
      r := Ok(201, Auth.Registered(Auth.SessionFor(u, jti), u));
    }

    /** `logout` behind `@jwt_required()`: the token's `jti`, when it has one, joins `revoked_tokens`. */
    method Logout(token: Option<Token>) returns (r: Response<string>)
      modifies this
      ensures State() == old(State())
      ensures (r, revoked) == Auth.Logout(old(revoked), token)
      ensures old(revoked) <= revoked
      ensures r.Replied? && token.value.jti.Some? && token.value.jti.value != "" ==> !Authenticated(token, revoked)
    {
      if !Authenticated(token, revoked) {
        return Denied;
      }
      var jti := token.value.jti;
      if jti.Some? && jti.value != "" {
        revoked := revoked + {jti.value};
      }
      r := Replied(Ok(200, "Logged out"));
    }
  }
}
