/**
 * Access tokens as far as the application looks into them, and the revocation set
 * (app/routes/auth.py, app/extensions.py).
 */
module Tokens {
  import opened Wrappers
  import opened Payload

  /** A JSON document as `json.loads` returns it: an object, or any other value, truthy or not. */
  datatype Json = Object(claims: Dict) | Scalar(truthy: bool)

  /**
   * The identity `get_jwt_identity()` hands back: a string (`Text`), which may fail to
   * decode as JSON (`Text(None)`), or a value that is not a string (`Native`).
   */
  datatype Subject = Text(decoded: Option<Json>) | Native(value: Json)

  /**
   * An access token: its `jti` claim, whether its signature and expiry check out, and its
   * subject. Signing, expiry and header parsing are not modelled beyond `genuine`.
   */
  datatype Token = Token(jti: Option<string>, genuine: bool, subject: Subject)

  /** `is_token_revoked`: the token's `jti` is in the revocation set; a token without one never is. */
  predicate IsTokenRevoked(revoked: set<string>, token: Token) {
    token.jti.Some? && token.jti.value in revoked
  }

  /** What `verify_jwt_in_request()` accepts: a genuine token that has not been revoked. */
  predicate Authenticated(token: Option<Token>, revoked: set<string>) {
    token.Some? && token.value.genuine && !IsTokenRevoked(revoked, token.value)
  }

  /**
   * `create_access_token(identity=claims)`: the identity loader stores the claims as a JSON
   * string, so the subject is text that decodes back to the same object.
   */
  function IssueToken(jti: string, claims: Dict): (t: Token)
    ensures t.genuine && t.jti == Some(jti)
    ensures t.subject.Text? && t.subject.decoded == Some(Object(claims))
  {
    Token(Some(jti), true, Text(Some(Object(claims))))
  }
}

/** Role-based access control (app/utils/decorators.py). */
module Decorators {
  import opened Wrappers
  import opened Payload
  import opened Http
  import opened Tokens

  /**
   * `_get_identity_dict` (and the identical `_parse_identity` of the reporter routes):
   * the decoded identity object; text that is not JSON, and a falsy non-string identity,
   * become `{}`. None stands for an identity that is not a dict, on which `.get` raises.
   */
  function IdentityDict(sub: Subject): (r: Option<Dict>)
    ensures sub == Text(None) ==> r == Some(map[])
    ensures sub == Native(Scalar(false)) ==> r == Some(map[])
    ensures r.None? <==> (sub.Text? && sub.decoded.Some? && sub.decoded.value.Scalar?) || sub == Native(Scalar(true))
    ensures forall d :: sub == Text(Some(Object(d))) || sub == Native(Object(d)) ==> r == Some(d)
  {
    match sub
    case Text(None) => Some(map[])
    case Text(Some(Object(d))) => Some(d)
    case Text(Some(Scalar(_))) => None
    // `identity or {}`: an empty dict is replaced by another empty dict
    case Native(Object(d)) => Some(d)
    case Native(Scalar(t)) => if t then None else Some(map[])
  }

  /** The identity of an issued token decodes to the claims it was issued with. */
  lemma IssuedIdentity(jti: string, claims: Dict)
    ensures IdentityDict(IssueToken(jti, claims).subject) == Some(claims)
  {
  }

  /** `identity.get("role") in allowed`. */
  predicate RoleIn(identity: Dict, allowed: set<string>) {
    Get(identity, "role").Str? && Get(identity, "role").s in allowed
  }

  /** How `_role_guard` disposes of a request. */
  datatype Guard =
    | Unauthenticated     // `verify_jwt_in_request()` rejected the request
    | Crashed             // the identity is not a dict: `.get` raises
    | Forbidden           // 403 `{"error": "Forbidden"}`
    | Admitted(identity: Dict)

  /** `_role_guard(allowed)`: authentication first, then the role taken from the decoded identity. */
  function RoleGuard(allowed: set<string>, token: Option<Token>, revoked: set<string>): (g: Guard)
    ensures g.Unauthenticated? <==> !Authenticated(token, revoked)
    ensures g.Crashed? <==> Authenticated(token, revoked) && IdentityDict(token.value.subject).None?
    ensures g.Forbidden? <==>
      Authenticated(token, revoked) && IdentityDict(token.value.subject).Some? &&
      !RoleIn(IdentityDict(token.value.subject).value, allowed)
    ensures g.Admitted? ==>
      Authenticated(token, revoked) && IdentityDict(token.value.subject) == Some(g.identity) &&
      RoleIn(g.identity, allowed)
  {
    if !Authenticated(token, revoked) then Unauthenticated
    else match IdentityDict(token.value.subject)
      case None => Crashed
      case Some(identity) => if RoleIn(identity, allowed) then Admitted(identity) else Forbidden
  }

  /** The outcome of a guarded route: the token layer's own rejection, or a reply. */
  datatype Response<+T> = Denied | Replied(reply: Reply<T>)

  /** A handler wrapped by `_role_guard(allowed)`: it runs on the admitted identity and on nothing else. */
  function Guarded<T>(allowed: set<string>, token: Option<Token>, revoked: set<string>, handler: Dict -> Reply<T>): (r: Response<T>)
    ensures r == Denied <==> !Authenticated(token, revoked)
    ensures RoleGuard(allowed, token, revoked).Forbidden? ==> r == Replied(Fail(403, Error("Forbidden")))
    ensures RoleGuard(allowed, token, revoked).Crashed? ==> r == Replied(Unexpected())
    ensures forall identity :: RoleGuard(allowed, token, revoked) == Admitted(identity) ==> r == Replied(handler(identity))
  {
    match RoleGuard(allowed, token, revoked)
    case Unauthenticated => Denied
    case Crashed => Replied(Unexpected())
    case Forbidden => Replied(Fail(403, Error("Forbidden")))
    case Admitted(identity) => Replied(handler(identity))
  }

  const AdminRoles: set<string> := {"admin"}
  const ReporterRoles: set<string> := {"reporter", "admin"}
  const MonitorRoles: set<string> := {"monitor", "admin"}

  /** `admin_required`. */
  function AdminRequired<T>(token: Option<Token>, revoked: set<string>, handler: Dict -> Reply<T>): Response<T> {
    Guarded(AdminRoles, token, revoked, handler)
  }

  /** `reporter_required`: admins may act on reporter routes too. */
  function ReporterRequired<T>(token: Option<Token>, revoked: set<string>, handler: Dict -> Reply<T>): Response<T> {
    Guarded(ReporterRoles, token, revoked, handler)
  }

  /** `monitor_required`: admins may act on monitor routes too. */
  function MonitorRequired<T>(token: Option<Token>, revoked: set<string>, handler: Dict -> Reply<T>): Response<T> {
    Guarded(MonitorRoles, token, revoked, handler)
  }

  /** A token whose decoded identity carries the role `role`. */
  predicate HasRole(token: Option<Token>, role: string) {
    token.Some? && IdentityDict(token.value.subject).Some? && Get(IdentityDict(token.value.subject).value, "role") == Str(role)
  }

  /** `admin_required` admits exactly the admins. */
  lemma AdminGuardAdmits(token: Option<Token>, revoked: set<string>)
    requires Authenticated(token, revoked) && IdentityDict(token.value.subject).Some?
    ensures RoleGuard(AdminRoles, token, revoked).Admitted? <==> HasRole(token, "admin")
  {
  }

  /** `reporter_required` admits exactly reporters and admins. */
  lemma ReporterGuardAdmits(token: Option<Token>, revoked: set<string>)
    requires Authenticated(token, revoked) && IdentityDict(token.value.subject).Some?
    ensures RoleGuard(ReporterRoles, token, revoked).Admitted? <==> HasRole(token, "reporter") || HasRole(token, "admin")
  {
  }

  /** `monitor_required` admits exactly monitors and admins. */
  lemma MonitorGuardAdmits(token: Option<Token>, revoked: set<string>)
    requires Authenticated(token, revoked) && IdentityDict(token.value.subject).Some?
    ensures RoleGuard(MonitorRoles, token, revoked).Admitted? <==> HasRole(token, "monitor") || HasRole(token, "admin")
  {
  }

  /** An authenticated admin passes all three guards. */
  lemma AdminPassesEveryGuard(token: Option<Token>, revoked: set<string>)
    requires Authenticated(token, revoked) && HasRole(token, "admin")
    ensures RoleGuard(AdminRoles, token, revoked).Admitted?
    ensures RoleGuard(ReporterRoles, token, revoked).Admitted?
    ensures RoleGuard(MonitorRoles, token, revoked).Admitted?
  {
  }

  /** A reporter is turned away by the monitor and admin guards, a monitor by the reporter and admin guards. */
  lemma RolesSeparated(token: Option<Token>, revoked: set<string>)
    requires Authenticated(token, revoked)
    ensures HasRole(token, "reporter") ==>
      RoleGuard(MonitorRoles, token, revoked) == Forbidden && RoleGuard(AdminRoles, token, revoked) == Forbidden
    ensures HasRole(token, "monitor") ==>
      RoleGuard(ReporterRoles, token, revoked) == Forbidden && RoleGuard(AdminRoles, token, revoked) == Forbidden
  {
  }

  /** An identity string that is not JSON reads as `{}`: no role, so 403 rather than a crash, whatever the roles. */
  lemma MalformedIdentityForbidden(allowed: set<string>, token: Option<Token>, revoked: set<string>)
    requires Authenticated(token, revoked)
    requires token.value.subject == Text(None) || token.value.subject == Native(Scalar(false))
    ensures RoleGuard(allowed, token, revoked) == Forbidden
  {
  }

  /** A rejected token never reaches the role decision, whatever roles are allowed and whatever the handler. */
  lemma AuthenticationFirst<T>(allowed: set<string>, token: Option<Token>, revoked: set<string>, handler: Dict -> Reply<T>)
    requires !Authenticated(token, revoked)
    ensures RoleGuard(allowed, token, revoked) == Unauthenticated
    ensures Guarded(allowed, token, revoked, handler) == Denied
  {
  }

  /** The 403 reply is the same for every guard: it does not reveal which roles were allowed. */
  lemma ForbiddenReplyConstant<T>(a1: set<string>, a2: set<string>, token: Option<Token>, revoked: set<string>, h1: Dict -> Reply<T>, h2: Dict -> Reply<T>)
    requires RoleGuard(a1, token, revoked).Forbidden? && RoleGuard(a2, token, revoked).Forbidden?
    ensures Guarded(a1, token, revoked, h1) == Guarded(a2, token, revoked, h2)
  {
  }
}
