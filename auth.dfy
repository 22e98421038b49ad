/** The authentication routes (app/routes/auth.py): register, login, logout and token revocation. */
module Auth {
  import opened Wrappers
  import opened Http
  import opened Text
  import opened Payload
  import opened Validators
  import opened UserModel
  import opened Store
  import opened Tokens
  import opened Decorators

  /** The identity an access token is issued with: `{id, role, facility_id}` of the user. */
  function Claims(u: User): (d: Dict)
    ensures d.Keys == {"id", "role", "facility_id"}
    ensures d["id"] == Int(u.id) && d["role"] == Str(RoleValue(u.role)) && d["facility_id"] == OptInt(u.facilityId)
  {
    map["id" := Int(u.id), "role" := Str(RoleValue(u.role)), "facility_id" := OptInt(u.facilityId)]
  }

  /** The body of a successful login: the token, the role's value and the facility id. */
  datatype Session = Session(token: Token, role: string, facilityId: Option<int>)

  /** The body of a successful registration: the session and the stored user. */
  datatype Registered = Registered(session: Session, user: User)

  /** A session for user `u` whose token carries the id `jti`. */
  function SessionFor(u: User, jti: string): (s: Session)
    ensures IdentityDict(s.token.subject) == Some(Claims(u)) && s.token.jti == Some(jti)
    ensures s.role == RoleValue(u.role) && s.facilityId == u.facilityId
  {
    Session(IssueToken(jti, Claims(u)), RoleValue(u.role), u.facilityId)
  }

  // ----------------------------------------------------------------- register

  /** What `register` reads from a validated payload. */
  datatype Registration = Registration(email: string, password: Val, roleValue: string, rawFacility: Val, facilityId: Option<int>)

  /** The role text: a missing or empty role reads as "reporter"; sanitised and lower-cased. */
  function RoleText(data: Dict): (r: string)
    ensures |r| <= 50
    ensures forall i :: 0 <= i < |r| ==> !IsUpper(r[i]) && r[i] != NUL
  {
    var raw := if Truthy(Get(data, "role")) then Get(data, "role") else Str(RoleValue(DefaultRole));
    Lower(SanitizeString(raw, 50))
  }

  function ReadRegistration(data: Dict): (r: Registration)
    ensures r.email == SanitizeEmail(Get(data, "email")) && r.password == Get(data, "password")
    ensures r.roleValue == RoleText(data) && r.rawFacility == Get(data, "facility_id")
    ensures r.facilityId == SanitizeInteger(Get(data, "facility_id"), Some(1), None)
  {
    Registration(
      SanitizeEmail(Get(data, "email")),
      Get(data, "password"),
      RoleText(data),
      Get(data, "facility_id"),
      SanitizeInteger(Get(data, "facility_id"), Some(1), None))
  }

  const BadFacilityId := "facility_id must be a positive integer."
  const FacilityOnlyReporter := "facility_id allowed only for reporter role."

  /**
   * The decisions of `register` after validation: 400 for a facility id that is present but not
   * a positive integer, 400 for an unknown role, 400 for a non-reporter with a facility, 404 for
   * an unknown facility, 409 for a taken email, otherwise the new user and a token (201).
   */
  function AddRegistration(t: Tables, req: Registration, now: int, jti: string): (r: Step<Registered>)
    ensures r.reply.Fail? ==> r.tables == t && r.reply.status in {400, 404, 409, 500}
    ensures r.reply.Ok? ==> r.reply.status == 201 && RegistrationChecksPass(t, req) && !EmailTaken(t.users, req.email)
    ensures r.reply.Ok? ==>
      && r.reply.body.user.email == req.email && r.tables.users == t.users + [r.reply.body.user]
      && r.reply.body.session == SessionFor(r.reply.body.user, jti)
  {
    if req.rawFacility != Null && req.facilityId.None? then Step(Fail(400, Error(BadFacilityId)), t)
    else match ParseRole(req.roleValue)
      case None => Step(Fail(400, Error("Invalid role.")), t)
      case Some(role) =>
        if role != Reporter && req.facilityId.Some? then Step(Fail(400, Error(FacilityOnlyReporter)), t)
        else if req.facilityId.Some? && FindFacility(t.facilities, req.facilityId.value).None? then
          Step(Fail(404, Error("Facility not found.")), t)
        else if !req.password.Str? then Step(Unexpected(), t)
        else if EmailTaken(t.users, req.email) then Step(Fail(409, Error("Email already registered.")), t)
        else
          var u := User(t.nextUserId, req.email, HashPassword(req.password.s), role, req.facilityId, now, now);
          Step(Ok(201, Registered(SessionFor(u, jti), u)), t.(users := t.users + [u], nextUserId := t.nextUserId + 1))
  }

  /** `register`: full payload validation first (a number as password raises), then the decisions above. */
  function Register(t: Tables, data: Dict, now: int, jti: string): (r: Step<Registered>)
    ensures r.reply.Fail? ==> r.tables == t
    ensures r.reply.Ok? ==> r.reply.status == 201 && ValidateUserPayload(data, true) == Returned([])
    ensures r.reply.Ok? ==> r.tables.users == t.users + [r.reply.body.user]
  {
    match ValidateUserPayload(data, true)
    case Raised => Step(Unexpected(), t)
    case Returned(errors) =>
      if errors != [] then Step(Fail(400, Errors(errors)), t)
      else AddRegistration(t, ReadRegistration(data), now, jti)
  }

  /** Validation errors give 400 before any other check, and nothing changes. */
  lemma RegisterValidationFirst(t: Tables, data: Dict, now: int, jti: string)
    ensures var v := ValidateUserPayload(data, true);
      v.Returned? && v.value != [] ==> Register(t, data, now, jti) == Step(Fail(400, Errors(v.value)), t)
    ensures ValidateUserPayload(data, true).Raised? ==> Register(t, data, now, jti) == Step(Unexpected(), t)
  {
  }

  /** A validated registration carries a text password of 8 to 128 characters, so hashing never raises. */
  lemma ValidatedPassword(data: Dict)
    requires ValidateUserPayload(data, true) == Returned([])
    ensures Get(data, "password").Str? && 8 <= |Get(data, "password").s| <= 128
  {
    var p := Get(data, "password");
    assert PasswordErrors(data, true).Returned?;
    assert PasswordErrors(data, true).value == [];
  }

  /** "reporter" is already clean and lower-case, so sanitising and lower-casing keep it. */
  lemma ReporterTextClean()
    ensures Lower(SanitizeString(Str("reporter"), 50)) == "reporter"
  {
    var s := "reporter";
    assert s[0] == 'r' && s[7] == 'r';
    assert !IsSpace(s[0]) && !IsSpace(s[|s| - 1]);
    assert forall i :: 0 <= i < |s| ==> s[i] in "reporter";
    assert forall i :: 0 <= i < |s| ==> s[i] != NUL && !IsUpper(s[i]);
    SanitizeStringKeepsClean(s, 50);
    LowerKeeps(s);
  }

  /** Without a role, registration asks for "reporter". */
  lemma RoleDefaultsToReporter(data: Dict)
    requires !Truthy(Get(data, "role"))
    ensures RoleText(data) == "reporter"
    ensures ParseRole(RoleText(data)) == Some(Reporter)
  {
    assert RoleText(data) == Lower(SanitizeString(Str(RoleValue(Reporter)), 50));
    ReporterTextClean();
    ParseRoleValue(Reporter, RoleValue(Reporter));
  }

  /** Only the role's exact value, after lower-casing, is accepted; anything else gives 400. */
  lemma UnknownRoleRejected(t: Tables, req: Registration, now: int, jti: string)
    requires !(req.rawFacility != Null && req.facilityId.None?)
    requires req.roleValue !in {"admin", "reporter", "monitor"}
    ensures AddRegistration(t, req, now, jti) == Step(Fail(400, Error("Invalid role.")), t)
  {
    ParseRoleValue(Admin, req.roleValue);
  }

  /**
   * The facility checks: a present facility id that is not a positive integer gives 400, a
   * facility for a non-reporter gives 400, an unknown facility gives 404.
   */
  lemma RegistrationFacilityChecks(t: Tables, req: Registration, now: int, jti: string)
    requires req.facilityId == SanitizeInteger(req.rawFacility, Some(1), None)
    ensures req.rawFacility != Null && req.facilityId.None? ==>
      AddRegistration(t, req, now, jti) == Step(Fail(400, Error(BadFacilityId)), t)
    ensures ParseRole(req.roleValue).Some? && ParseRole(req.roleValue) != Some(Reporter) && req.facilityId.Some? ==>
      AddRegistration(t, req, now, jti) == Step(Fail(400, Error(FacilityOnlyReporter)), t)
    ensures (ParseRole(req.roleValue) == Some(Reporter) && req.facilityId.Some? &&
             FindFacility(t.facilities, req.facilityId.value).None?) ==>
      AddRegistration(t, req, now, jti) == Step(Fail(404, Error("Facility not found.")), t)
  {
  }

  /** Nothing rejects a reporter who names no facility: it is stored unlinked. */
  lemma ReporterWithoutFacilityAccepted(t: Tables, req: Registration, now: int, jti: string)
    requires req.rawFacility == Null && req.facilityId.None?
    requires ParseRole(req.roleValue) == Some(Reporter)
    requires req.password.Str? && !EmailTaken(t.users, req.email)
    ensures var s := AddRegistration(t, req, now, jti);
      s.reply.Ok? && s.reply.status == 201 && s.reply.body.user.role == Reporter && s.reply.body.user.facilityId.None?
  {
  }

  /**
   * The checks `register` makes before the insert: a usable facility id if one is given, a known
   * role, a facility only for a reporter and only an existing one, and a text password.
   */
  predicate RegistrationChecksPass(t: Tables, req: Registration) {
    && !(req.rawFacility != Null && req.facilityId.None?)
    && ParseRole(req.roleValue).Some?
    && (req.facilityId.Some? ==>
          ParseRole(req.roleValue) == Some(Reporter) && FindFacility(t.facilities, req.facilityId.value).Some?)
    && req.password.Str?
  }

  /** A taken email gives 409 once the other checks pass, and the store is left as it was. */
  lemma RegistrationDuplicate(t: Tables, req: Registration, now: int, jti: string)
    requires EmailTaken(t.users, req.email)
    ensures AddRegistration(t, req, now, jti).tables == t
    ensures AddRegistration(t, req, now, jti).reply.Fail?
    ensures RegistrationChecksPass(t, req) ==>
      AddRegistration(t, req, now, jti).reply == Fail(409, Error("Email already registered."))
  {
  }

  /**
   * A successful registration appends exactly the new user, and the token's identity is the
   * stored user's `{id, role, facility_id}`.
   */
  lemma Registered201(t: Tables, req: Registration, now: int, jti: string)
    requires AddRegistration(t, req, now, jti).reply.Ok?
    ensures var s := AddRegistration(t, req, now, jti);
      var u := s.reply.body.user;
      && s.reply.status == 201
      && s.tables == t.(users := t.users + [u], nextUserId := t.nextUserId + 1)
      && u.id == t.nextUserId && u.email == req.email && Some(u.role) == ParseRole(req.roleValue)
      && u.facilityId == req.facilityId && FacilityOnlyForReporter(u)
      && req.password == Str(u.passwordHash.secret)
      && IdentityDict(s.reply.body.session.token.subject) == Some(Claims(u))
      && !EmailTaken(t.users, u.email)
  {
  }

  lemma AddRegistrationConsistent(t: Tables, req: Registration, now: int, jti: string)
    requires Consistent(t)
    ensures Consistent(AddRegistration(t, req, now, jti).tables)
  {
    var s := AddRegistration(t, req, now, jti);
    if s.reply.Ok? {
      var u := s.reply.body.user;
      var us := s.tables.users;
      assert forall k :: 0 <= k < |t.users| ==> us[k] == t.users[k] && us[k].email != u.email;
    }
  }

  lemma RegisterConsistent(t: Tables, data: Dict, now: int, jti: string)
    requires Consistent(t)
    ensures Consistent(Register(t, data, now, jti).tables)
  {
    if ValidateUserPayload(data, true) == Returned([]) {
      AddRegistrationConsistent(t, ReadRegistration(data), now, jti);
    }
  }

  /** The roles whose guard admits a user of role `r`. */
  function GuardRoles(r: UserRole): set<string> {
    match r
    case Admin => AdminRoles
    case Reporter => ReporterRoles
    case Monitor => MonitorRoles
  }

  /** A freshly registered token passes its role's guard, with the stored user's claims as identity. */
  lemma RegisteredTokenAdmitted(t: Tables, req: Registration, now: int, jti: string, revoked: set<string>)
    requires AddRegistration(t, req, now, jti).reply.Ok?
    requires jti !in revoked
    ensures var b := AddRegistration(t, req, now, jti).reply.body;
      RoleGuard(GuardRoles(b.user.role), Some(b.session.token), revoked) == Admitted(Claims(b.user))
  {
    Registered201(t, req, now, jti);
  }

  // -------------------------------------------------------------------- login

  const InvalidCredentials := "Invalid credentials."

  /** `login`: validation first, then one 401 for an unknown email and a wrong password alike. */
  function Login(t: Tables, data: Dict, jti: string): (r: Reply<Session>)
    ensures r.Fail? ==> r.status in {400, 401, 500}
    ensures r.Ok? ==> r.status == 200 && ValidateUserPayload(data, true) == Returned([])
    ensures r.Ok? ==>
      var u := FindUserByEmail(t.users, SanitizeEmail(Get(data, "email")));
      u.Some? && Get(data, "password").Str? && CheckPassword(u.value.passwordHash, Get(data, "password").s) &&
      r.body == SessionFor(u.value, jti)
  {
    match ValidateUserPayload(data, true)
    case Raised => Unexpected()
    case Returned(errors) =>
      if errors != [] then Fail(400, Errors(errors))
      else
        var email := SanitizeEmail(Get(data, "email"));
        var password := Get(data, "password");
        match FindUserByEmail(t.users, email)
        case None => Fail(401, Error(InvalidCredentials))
        case Some(u) =>
          if !(password.Str? && CheckPassword(u.passwordHash, password.s)) then Fail(401, Error(InvalidCredentials))
          else Ok(200, SessionFor(u, jti))
  }

  /** Validation runs first: a malformed email or a short password gives 400, not 401. */
  lemma LoginValidationFirst(t: Tables, data: Dict, jti: string)
    ensures var v := ValidateUserPayload(data, true);
      v.Returned? && v.value != [] ==> Login(t, data, jti) == Fail(400, Errors(v.value))
    ensures var email := SanitizeEmail(Get(data, "email"));
      email != "" && !IsValidEmail(email) && !Get(data, "password").Int? ==>
        Login(t, data, jti).Fail? && Login(t, data, jti).status == 400 &&
        EmailInvalid in ValidateUserPayload(data, true).value
    ensures Get(data, "password").Str? && 0 < |Get(data, "password").s| < 8 ==>
      Login(t, data, jti).Fail? && Login(t, data, jti).status == 400 &&
      PasswordTooShort in ValidateUserPayload(data, true).value
  {
    var v := ValidateUserPayload(data, true);
    if v.Returned? && Get(data, "password").Str? && 0 < |Get(data, "password").s| < 8 {
      assert v.value == EmailErrors(data) + [PasswordTooShort];
    }
  }

  /**
   * A validated login succeeds exactly when a user has the email and the password matches; an
   * unknown email and a wrong password give the same 401.
   */
  lemma LoginDecision(t: Tables, data: Dict, jti: string)
    requires ValidateUserPayload(data, true) == Returned([])
    ensures var u := FindUserByEmail(t.users, SanitizeEmail(Get(data, "email")));
      && (Login(t, data, jti).Ok? <==> u.Some? && CheckPassword(u.value.passwordHash, Get(data, "password").s))
      && (Login(t, data, jti).Ok? ==> Login(t, data, jti) == Ok(200, SessionFor(u.value, jti)))
      && (!Login(t, data, jti).Ok? ==> Login(t, data, jti) == Fail(401, Error(InvalidCredentials)))
  {
    ValidatedPassword(data);
  }

  /** A successful `register` passed validation and made the decisions of `AddRegistration`. */
  lemma RegisterOk(t: Tables, data: Dict, now: int, jti: string)
    requires Register(t, data, now, jti).reply.Ok?
    ensures ValidateUserPayload(data, true) == Returned([])
    ensures Register(t, data, now, jti) == AddRegistration(t, ReadRegistration(data), now, jti)
  {
  }

  /** Appending a user whose email is new makes it the one the email finds. */
  lemma FindAppended(us: seq<User>, u: User)
    requires !EmailTaken(us, u.email)
    ensures FindUserByEmail(us + [u], u.email) == Some(u)
  {
    var r := FindUserByEmail(us + [u], u.email);
    assert (us + [u])[|us|] == u;
    assert r.Some?;
    assert forall k :: 0 <= k < |us| ==> (us + [u])[k] == us[k] && us[k].email != u.email;
  }

  /** Registering and then logging in with the same payload succeeds, as the same user. */
  lemma LoginAfterRegister(t: Tables, data: Dict, now: int, jti: string, jti2: string)
    requires Register(t, data, now, jti).reply.Ok?
    ensures var s := Register(t, data, now, jti);
      Login(s.tables, data, jti2) == Ok(200, SessionFor(s.reply.body.user, jti2))
  {
    RegisterOk(t, data, now, jti);
    var req := ReadRegistration(data);
    Registered201(t, req, now, jti);
    var s := AddRegistration(t, req, now, jti);
    var u := s.reply.body.user;
    FindAppended(t.users, u);
    LoginDecision(s.tables, data, jti2);
  }

  // ------------------------------------------------------------------- logout

  /** `revoked_tokens.add(jti)` when the token carries a non-empty `jti`. */
  function Revoke(revoked: set<string>, token: Token): (r: set<string>)
    ensures revoked <= r
    ensures token.jti.Some? && token.jti.value != "" ==> r == revoked + {token.jti.value}
    ensures !(token.jti.Some? && token.jti.value != "") ==> r == revoked
  {
    if token.jti.Some? && token.jti.value != "" then revoked + {token.jti.value} else revoked
  }

  /** `logout` behind `@jwt_required()`: an unauthenticated call changes nothing. */
  function Logout(revoked: set<string>, token: Option<Token>): (r: (Response<string>, set<string>))
    ensures revoked <= r.1
    ensures r.0 == Denied <==> !Authenticated(token, revoked)
    ensures r.0 != Denied ==> r.0 == Replied(Ok(200, "Logged out")) && r.1 == Revoke(revoked, token.value)
    ensures r.0 == Denied ==> r.1 == revoked
  {
    if !Authenticated(token, revoked) then (Denied, revoked)
    else (Replied(Ok(200, "Logged out")), Revoke(revoked, token.value))
  }

  /** After logging out, the token no longer authenticates. */
  lemma LoggedOutTokenRejected(revoked: set<string>, token: Token)
    requires Authenticated(Some(token), revoked) && token.jti.Some? && token.jti.value != ""
    ensures IsTokenRevoked(Logout(revoked, Some(token)).1, token)
    ensures !Authenticated(Some(token), Logout(revoked, Some(token)).1)
  {
  }

  /** The revocation set after a series of logouts. */
  function LogoutAll(revoked: set<string>, tokens: seq<Option<Token>>): set<string>
    decreases |tokens|
  {
    if tokens == [] then revoked
    else LogoutAll(Logout(revoked, tokens[0]).1, tokens[1..])
  }

  /** The set only grows: a revoked token stays revoked through any later logouts. */
  lemma {:induction false} LogoutAllGrows(revoked: set<string>, tokens: seq<Option<Token>>, token: Token)
    ensures revoked <= LogoutAll(revoked, tokens)
    ensures IsTokenRevoked(revoked, token) ==> IsTokenRevoked(LogoutAll(revoked, tokens), token)
    decreases |tokens|
  {
    if tokens != [] {
      LogoutAllGrows(Logout(revoked, tokens[0]).1, tokens[1..], token);
    }
  }
}
