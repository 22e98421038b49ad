/** The admin routes (app/routes/admin.py): listing, creating and deleting users and facilities. */
module Admin {
  import opened Wrappers
  import opened Http
  import opened Text
  import opened Payload
  import opened Sorting
  import opened Validators
  import opened UserModel
  import opened FacilityModel
  import opened Store

  /** `ORDER BY created_at DESC`. */
  predicate NewerOrSame(a: User, b: User) {
    a.createdAt >= b.createdAt
  }

  /** `list_users`: every user, newest first. */
  function ListUsers(t: Tables): (r: seq<User>)
    ensures multiset(r) == multiset(t.users)
    ensures forall i, j :: 0 <= i < j < |r| ==> r[i].createdAt >= r[j].createdAt
  {
    assert TotalPreorder(NewerOrSame);
    SortBySorted(t.users, NewerOrSame);
    SortBy(t.users, NewerOrSame)
  }

  /** `list_facilities`: every facility, in ascending name order. */
  function ListFacilities(t: Tables): (r: seq<Facility>)
    ensures multiset(r) == multiset(t.facilities)
    ensures forall i, j :: 0 <= i < j < |r| ==> StrLe(r[i].name, r[j].name)
  {
    SortedByName(t.facilities)
  }

  /** `value or None` for a string. */
  function OrNone(s: string): (r: Option<string>)
    ensures r.None? <==> s == ""
    ensures r.Some? ==> r.value == s
  {
    if s == "" then None else Some(s)
  }

  /** The insert of `create_facility`: 409 when the name is taken, otherwise one new facility (201). */
  function AddFacility(t: Tables, name: string, country: Option<string>, city: Option<string>, now: int): (r: Step<Facility>)
    ensures r.reply.Ok? <==> !NameTaken(t.facilities, name)
    ensures r.reply.Fail? ==> r.tables == t && r.reply.status == 409
    ensures r.reply.Ok? ==> r.reply.status == 201 && r.reply.body.name == name && r.reply.body.id == t.nextFacilityId
    ensures r.reply.Ok? ==> r.tables.facilities == t.facilities + [r.reply.body] && r.tables.users == t.users && r.tables.reports == t.reports
  {
    if NameTaken(t.facilities, name) then Step(Fail(409, Error("Facility already exists.")), t)
    else
      var f := Facility(t.nextFacilityId, name, country, city, now);
      Step(Ok(201, f), t.(facilities := t.facilities + [f], nextFacilityId := t.nextFacilityId + 1))
  }

  /**
   * `create_facility`: 400 on validation errors, 409 when the sanitised name is taken, otherwise
   * one new facility (201) with empty country and city stored as None.
   */
  function CreateFacility(t: Tables, data: Dict, now: int): (r: Step<Facility>)
    ensures r.reply.Fail? ==> r.tables == t && r.reply.status in {400, 409}
    ensures r.reply.Ok? ==> r.reply.status == 201 && 2 <= |r.reply.body.name| <= 150
    ensures r.reply.Ok? ==> r.tables.facilities == t.facilities + [r.reply.body]
  {
    var errors := ValidateFacilityPayload(data);
    if errors != [] then Step(Fail(400, Errors(errors)), t)
    else
      AddFacility(t, SanitizeString(Get(data, "name"), 150),
        OrNone(SanitizeString(Get(data, "country"), 120)), OrNone(SanitizeString(Get(data, "city"), 120)), now)
  }

  /** What `create_facility` decides: 400, 409 or 201, and the store changes only on 201. */
  lemma CreateFacilityOutcome(t: Tables, data: Dict, now: int)
    ensures var s := CreateFacility(t, data, now);
      var name := SanitizeString(Get(data, "name"), 150);
      && (ValidateFacilityPayload(data) != [] ==> s == Step(Fail(400, Errors(ValidateFacilityPayload(data))), t))
      && (ValidateFacilityPayload(data) == [] && NameTaken(t.facilities, name) ==>
            s == Step(Fail(409, Error("Facility already exists.")), t))
      && (s.reply.Ok? <==> ValidateFacilityPayload(data) == [] && !NameTaken(t.facilities, name))
      && (s.reply.Fail? ==> s.tables == t)
  {
  }

  /** A facility insert that succeeds appends exactly the new facility, under the next id, and changes nothing else. */
  lemma AddedFacility(t: Tables, name: string, country: Option<string>, city: Option<string>, now: int)
    requires AddFacility(t, name, country, city, now).reply.Ok?
    ensures var s := AddFacility(t, name, country, city, now);
      && !NameTaken(t.facilities, name)
      && s.reply.status == 201
      && s.reply.body == Facility(t.nextFacilityId, name, country, city, now)
      && s.tables == t.(facilities := t.facilities + [s.reply.body], nextFacilityId := t.nextFacilityId + 1)
  {
  }

  /**
   * A created facility has a sanitised name of 2 to 150 characters, is appended as the only
   * change, and stores an empty country or city as None.
   */
  lemma CreatedFacility(t: Tables, data: Dict, now: int)
    requires CreateFacility(t, data, now).reply.Ok?
    ensures var s := CreateFacility(t, data, now);
      var f := s.reply.body;
      && s.reply.status == 201
      && s.tables == t.(facilities := t.facilities + [f], nextFacilityId := t.nextFacilityId + 1)
      && f.id == t.nextFacilityId && f.createdAt == now
      && f.name == SanitizeString(Get(data, "name"), 150) && 2 <= |f.name| <= 150
      && (f.country.None? <==> SanitizeString(Get(data, "country"), 120) == "")
      && (f.city.None? <==> SanitizeString(Get(data, "city"), 120) == "")
      && (f.country.Some? ==> |f.country.value| <= 120) && (f.city.Some? ==> |f.city.value| <= 120)
  {
    var name := SanitizeString(Get(data, "name"), 150);
    var country := OrNone(SanitizeString(Get(data, "country"), 120));
    var city := OrNone(SanitizeString(Get(data, "city"), 120));
    assert ValidateFacilityPayload(data) == [];
    assert CreateFacility(t, data, now) == AddFacility(t, name, country, city, now);
    AddedFacility(t, name, country, city, now);
  }

  lemma AddFacilityConsistent(t: Tables, name: string, country: Option<string>, city: Option<string>, now: int)
    requires Consistent(t)
    ensures Consistent(AddFacility(t, name, country, city, now).tables)
  {
    var s := AddFacility(t, name, country, city, now);
    if s.reply.Ok? {
      var fs := s.tables.facilities;
      assert forall k :: 0 <= k < |t.facilities| ==> fs[k] == t.facilities[k] && fs[k].name != name;
    }
  }

  lemma CreateFacilityConsistent(t: Tables, data: Dict, now: int)
    requires Consistent(t)
    ensures Consistent(CreateFacility(t, data, now).tables)
  {
    if ValidateFacilityPayload(data) == [] {
      AddFacilityConsistent(t, SanitizeString(Get(data, "name"), 150),
        OrNone(SanitizeString(Get(data, "country"), 120)), OrNone(SanitizeString(Get(data, "city"), 120)), now);
    }
  }

  /** `data.get("password") or data.get("temporary_password")`. */
  function TemporaryPassword(data: Dict): (r: Val)
    ensures Truthy(Get(data, "password")) ==> r == Get(data, "password")
    ensures !Truthy(Get(data, "password")) ==> r == Get(data, "temporary_password")
  {
    if Truthy(Get(data, "password")) then Get(data, "password") else Get(data, "temporary_password")
  }

  /** What `create_user` reads from the payload before deciding anything. */
  datatype NewUser = NewUser(email: string, password: Val, roleValue: string, facilityId: Option<int>)

  function ReadNewUser(data: Dict): (r: NewUser)
    ensures r.email == SanitizeEmail(Get(data, "email"))
    ensures r.password == TemporaryPassword(data)
    ensures r.roleValue == Lower(SanitizeString(Get(data, "role"), 50))
    ensures r.facilityId == SanitizeInteger(Get(data, "facility_id"), Some(1), None)
  {
    NewUser(
      SanitizeEmail(Get(data, "email")),
      TemporaryPassword(data),
      Lower(SanitizeString(Get(data, "role"), 50)),
      SanitizeInteger(Get(data, "facility_id"), Some(1), None))
  }

  const EmailRequiredMsg := "email is required."
  const TemporaryPasswordRequired := "temporary password is required."
  const InvalidRole := "Invalid role."
  const ReporterNeedsFacility := "facility_id is required for reporter."

  /** The checks `create_user` makes before the insert: an email, a text password, a known role, and a reporter's existing facility. */
  predicate NewUserChecksPass(t: Tables, req: NewUser) {
    && req.email != "" && req.password.Str? && req.password.s != [] && ParseRole(req.roleValue).Some?
    && (ParseRole(req.roleValue) == Some(Reporter) ==>
          req.facilityId.Some? && FindFacility(t.facilities, req.facilityId.value).Some?)
  }

  /**
   * The decisions of `create_user`: 400 without an email, 400 without a temporary password,
   * 400 for an unknown role, 400 or 404 for a reporter without an existing facility; a password
   * that is not text makes hashing raise; 409 for a taken email; otherwise one new user (201).
   */
  function AddUser(t: Tables, req: NewUser, now: int): (r: Step<User>)
    ensures r.reply.Fail? ==> r.tables == t && r.reply.status in {400, 404, 409, 500}
    ensures r.reply.Ok? ==> r.reply.status == 201 && NewUserChecksPass(t, req) && !EmailTaken(t.users, req.email)
    ensures r.reply.Ok? ==> r.reply.body.email == req.email && r.tables.users == t.users + [r.reply.body]
  {
    if req.email == "" then Step(Fail(400, Error(EmailRequiredMsg)), t)
    else if !Truthy(req.password) then Step(Fail(400, Error(TemporaryPasswordRequired)), t)
    else match ParseRole(req.roleValue)
      case None => Step(Fail(400, Error(InvalidRole)), t)
      case Some(role) =>
        if role == Reporter && req.facilityId.None? then Step(Fail(400, Error(ReporterNeedsFacility)), t)
        else if role == Reporter && FindFacility(t.facilities, req.facilityId.value).None? then
          Step(Fail(404, Error("Facility not found.")), t)
        else
          var linked := if role == Reporter then req.facilityId else None;
          if !req.password.Str? then Step(Unexpected(), t)
          else if EmailTaken(t.users, req.email) then Step(Fail(409, Error("Email already registered.")), t)
          else
            var u := User(t.nextUserId, req.email, HashPassword(req.password.s), role, linked, now, now);
            Step(Ok(201, u), t.(users := t.users + [u], nextUserId := t.nextUserId + 1))
  }

  /** `create_user`. */
  function CreateUser(t: Tables, data: Dict, now: int): (r: Step<User>)
    ensures r.reply.Fail? ==> r.tables == t
    ensures r.reply.Ok? ==> r.reply.status == 201 && r.reply.body.email == SanitizeEmail(Get(data, "email"))
    ensures r.reply.Ok? ==> r.tables.users == t.users + [r.reply.body]
  {
    AddUser(t, ReadNewUser(data), now)
  }

  /** Only a new user's row is written, and only on 201. */
  lemma AddUserChangesOnlyOnSuccess(t: Tables, req: NewUser, now: int)
    ensures var s := AddUser(t, req, now);
      && (s.reply.Fail? ==> s.tables == t)
      && (s.reply.Ok? ==>
            (s.reply.status == 201 && s.tables == t.(users := t.users + [s.reply.body], nextUserId := t.nextUserId + 1)))
  {
  }

  /** The first checks: an email, then a temporary password, then a known role. */
  lemma AddUserChecks(t: Tables, req: NewUser, now: int)
    ensures req.email == "" ==> AddUser(t, req, now) == Step(Fail(400, Error(EmailRequiredMsg)), t)
    ensures req.email != "" && !Truthy(req.password) ==>
      AddUser(t, req, now) == Step(Fail(400, Error(TemporaryPasswordRequired)), t)
    ensures (req.email != "" && Truthy(req.password) && ParseRole(req.roleValue).None?) ==>
      AddUser(t, req, now) == Step(Fail(400, Error(InvalidRole)), t)
  {
  }

  /**
   * A created user: a reporter carries a facility id of at least 1 naming an existing facility,
   * any other role none whatever was sent, and the hash is of the password read.
   */
  lemma AddedUser(t: Tables, req: NewUser, now: int)
    requires AddUser(t, req, now).reply.Ok?
    ensures var u := AddUser(t, req, now).reply.body;
      && u.email == req.email && u.email != "" && u.id == t.nextUserId
      && Some(u.role) == ParseRole(req.roleValue)
      && (u.role == Reporter ==> u.facilityId == req.facilityId && req.facilityId.Some? &&
                                 FindFacility(t.facilities, req.facilityId.value).Some?)
      && (u.role != Reporter ==> u.facilityId.None?)
      && req.password == Str(u.passwordHash.secret)
      && !EmailTaken(t.users, u.email)
  {
  }

  /** The password, when truthy, wins over the temporary password. */
  lemma PasswordPrecedence(t: Tables, data: Dict, now: int)
    requires CreateUser(t, data, now).reply.Ok?
    ensures var u := CreateUser(t, data, now).reply.body;
      && (Truthy(Get(data, "password")) ==> Get(data, "password") == Str(u.passwordHash.secret))
      && (!Truthy(Get(data, "password")) ==> Get(data, "temporary_password") == Str(u.passwordHash.secret))
  {
    AddedUser(t, ReadNewUser(data), now);
  }

  /** A reporter without a usable facility id gets 400; with one naming no facility, 404. */
  lemma AddReporterFacility(t: Tables, req: NewUser, now: int)
    requires req.email != "" && Truthy(req.password) && ParseRole(req.roleValue) == Some(Reporter)
    ensures req.facilityId.None? ==> AddUser(t, req, now) == Step(Fail(400, Error(ReporterNeedsFacility)), t)
    ensures req.facilityId.Some? && FindFacility(t.facilities, req.facilityId.value).None? ==>
      AddUser(t, req, now) == Step(Fail(404, Error("Facility not found.")), t)
  {
  }

  /**
   * Unlike registration, creating a user checks neither the email's format nor the password's
   * length: any non-empty sanitised email and any non-empty text password will do.
   */
  lemma CreateUserSkipsFormatChecks(t: Tables, req: NewUser, now: int)
    requires req.email != "" && !EmailTaken(t.users, req.email)
    requires req.password.Str? && req.password.s != ""
    requires req.roleValue == "admin"
    ensures AddUser(t, req, now).reply.status == 201
  {
  }

  /**
   * A taken email never yields a new user, and the store is left as it was; once the email,
   * password, role and facility checks pass, the reply is 409.
   */
  lemma AddUserDuplicate(t: Tables, req: NewUser, now: int)
    requires EmailTaken(t.users, req.email)
    ensures AddUser(t, req, now).tables == t
    ensures AddUser(t, req, now).reply.status in {400, 404, 409, 500}
    ensures NewUserChecksPass(t, req) ==> AddUser(t, req, now).reply == Fail(409, Error("Email already registered."))
  {
  }

  lemma AddUserConsistent(t: Tables, req: NewUser, now: int)
    requires Consistent(t)
    ensures Consistent(AddUser(t, req, now).tables)
  {
    var s := AddUser(t, req, now);
    if s.reply.Ok? {
      var u := s.reply.body;
      var us := s.tables.users;
      assert forall k :: 0 <= k < |t.users| ==> us[k] == t.users[k] && us[k].email != u.email;
    }
  }

  /** `delete_facility`: 404 for an unknown id, otherwise that facility's row is removed. */
  function DeleteFacility(t: Tables, id: int): (r: Step<string>)
    ensures r.reply.Ok? <==> FindFacility(t.facilities, id).Some?
    ensures r.reply.Fail? ==> r.tables == t && r.reply.status == 404
    ensures r.reply.Ok? ==> r.reply.status == 200 && |r.tables.facilities| == |t.facilities| - 1
    ensures r.tables.users == t.users && r.tables.reports == t.reports
  {
    match FacilityIndex(t.facilities, id)
    case None => Step(Fail(404, Error("Facility not found.")), t)
    case Some(i) =>
      Step(Ok(200, "Facility deleted."), t.(facilities := t.facilities[..i] + t.facilities[i + 1..]))
  }

  /** With unique ids, cutting out position `i` removes exactly the facility with `fs[i]`'s id. */
  lemma CutMembers(fs: seq<Facility>, i: nat)
    requires i < |fs|
    requires forall a, b :: 0 <= a < b < |fs| ==> fs[a].id != fs[b].id
    ensures forall f :: f in fs[..i] + fs[i + 1..] <==> f in fs && f.id != fs[i].id
  {
    var rest := fs[..i] + fs[i + 1..];
    forall f ensures f in rest <==> f in fs && f.id != fs[i].id {
      if f in rest {
        var k :| 0 <= k < |rest| && rest[k] == f;
        if k < i { assert fs[k] == f; } else { assert fs[k + 1] == f; }
      }
      if f in fs && f.id != fs[i].id {
        var k :| 0 <= k < |fs| && fs[k] == f;
        if k < i { assert rest[k] == f; } else { assert rest[k - 1] == f; }
      }
    }
  }

  /** Deleting removes exactly the facility with that id and keeps the others in order. */
  lemma DeleteFacilityRemovesOne(t: Tables, id: int)
    requires Consistent(t)
    ensures var s := DeleteFacility(t, id);
      && (FindFacility(t.facilities, id).None? <==> s.reply == Fail(404, Error("Facility not found.")))
      && (FindFacility(t.facilities, id).None? ==> s.tables == t)
      && (FindFacility(t.facilities, id).Some? ==>
            && |s.tables.facilities| == |t.facilities| - 1
            && (forall f :: f in s.tables.facilities <==> f in t.facilities && f.id != id)
            && s.tables.(facilities := t.facilities) == t)
  {
    match FacilityIndex(t.facilities, id)
    case None =>
    case Some(i) =>
      CutMembers(t.facilities, i);
  }

  lemma DeleteFacilityConsistent(t: Tables, id: int)
    requires Consistent(t)
    ensures Consistent(DeleteFacility(t, id).tables)
  {
    match FacilityIndex(t.facilities, id)
    case None =>
    case Some(i) =>
      var fs := t.facilities;
      var rest := fs[..i] + fs[i + 1..];
      assert forall k :: 0 <= k < |rest| ==> rest[k] == fs[if k < i then k else k + 1];
  }
}
