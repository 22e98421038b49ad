/** The user record (app/models/user.py). */
module UserModel {
  import opened Wrappers
  import opened Payload

  /** `UserRole`: exactly three roles. */
  datatype UserRole = Admin | Reporter | Monitor

  /** The enum's value, the text the API speaks. */
  function RoleValue(r: UserRole): string {
    match r
    case Admin => "admin"
    case Reporter => "reporter"
    case Monitor => "monitor"
  }

  /** `UserRole(value)`: the role whose value is exactly `value`; None stands for ValueError. */
  function ParseRole(value: string): (r: Option<UserRole>)
    ensures r.Some? ==> RoleValue(r.value) == value
  {
    if value == "admin" then Some(Admin)
    else if value == "reporter" then Some(Reporter)
    else if value == "monitor" then Some(Monitor)
    else None
  }

  /** Every role parses back from its value, and no other text parses. */
  lemma ParseRoleValue(r: UserRole, value: string)
    ensures ParseRole(RoleValue(r)) == Some(r)
    ensures ParseRole(value).Some? <==> value in {"admin", "reporter", "monitor"}
  {
  }

  /** The role column's default. */
  const DefaultRole: UserRole := Reporter

  /**
   * A stored password hash. The hash function is kept abstract: a hash is determined by
   * the password it was made from, and checking compares against that password.
   */
  datatype PasswordHash = Hashed(secret: string)

  /** `generate_password_hash`. */
  function HashPassword(raw: string): PasswordHash {
    Hashed(raw)
  }

  /** `check_password_hash`. */
  predicate CheckPassword(h: PasswordHash, raw: string) {
    h.secret == raw
  }

  /** A hash accepts the password it was made from and no other. */
  lemma CheckHashedPassword(raw: string, attempt: string)
    ensures CheckPassword(HashPassword(raw), attempt) <==> attempt == raw
  {
  }

  /** A row of `users`. Timestamps are seconds. */
  datatype User = User(
    id: int,
    email: string,
    passwordHash: PasswordHash,
    role: UserRole,
    facilityId: Option<int>,
    createdAt: int,
    updatedAt: int)

  /** `ck_users_facility_only_for_reporter`: only a reporter may be linked to a facility. */
  predicate FacilityOnlyForReporter(u: User) {
    u.role != Reporter ==> u.facilityId.None?
  }

  /** `User.set_password`: the hash is replaced and nothing else changes. */
  function SetPassword(u: User, raw: string): (r: User)
    ensures CheckPassword(r.passwordHash, raw)
    ensures r.(passwordHash := u.passwordHash) == u
  {
    u.(passwordHash := HashPassword(raw))
  }

  /** The keys `User.to_dict` produces; the password hash is not among them. */
  const UserKeys: set<string> := {"id", "email", "role", "facility_id", "created_at", "updated_at"}

  /** `User.to_dict`. Timestamps are given as their seconds rather than ISO text. */
  function UserToDict(u: User): (d: Dict)
    ensures d.Keys == UserKeys
    ensures d["id"] == Int(u.id) && d["email"] == Str(u.email) && d["facility_id"] == OptInt(u.facilityId)
    ensures d["role"] == Str(RoleValue(u.role))
  {
    map[
      "id" := Int(u.id),
      "email" := Str(u.email),
      "role" := Str(RoleValue(u.role)),
      "facility_id" := OptInt(u.facilityId),
      "created_at" := Int(u.createdAt),
      "updated_at" := Int(u.updatedAt)]
  }

  /** The dictionary gives back the user's role, and never mentions a password. */
  lemma UserToDictRole(u: User)
    ensures ParseRole(UserToDict(u)["role"].s) == Some(u.role)
    ensures "password_hash" !in UserToDict(u) && "password" !in UserToDict(u)
  {
    ParseRoleValue(u.role, RoleValue(u.role));
  }

  /** Two users with the same dictionary agree on everything but the password hash. */
  lemma UserToDictInjective(u: User, v: User)
    requires UserToDict(u) == UserToDict(v)
    ensures u.(passwordHash := v.passwordHash) == v
  {
    assert UserToDict(u)["role"] == UserToDict(v)["role"];
    UserToDictRole(u);
    UserToDictRole(v);
    assert UserToDict(u)["facility_id"] == UserToDict(v)["facility_id"];
    assert UserToDict(u)["created_at"] == UserToDict(v)["created_at"];
    assert UserToDict(u)["updated_at"] == UserToDict(v)["updated_at"];
  }
}
