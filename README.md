# HFRAT backend: a Dafny model of its request handling

HFRAT (health facility resource availability tracking) is a Flask API. Reporters submit, for their
facility, the number of free ICU beds, ventilators and staff on duty. Monitors read a dashboard of
the latest figures and a per-facility history. Admins manage facilities and users. Everyone
authenticates with JWT access tokens, which can be revoked by logging out.

This project models the core of that API in Dafny:

- the input sanitisers and validators;
- the role guards;
- the user, facility and report records;
- the reporter, monitor, admin and authentication routes;
- the configuration helpers.

Each route is a pure function from the tables (`Store.Tables`) and the request to a reply and the
new tables (`Store.Step`). `Server.App` is a class that holds the tables and the revoked-token set
as fields. Its methods change those fields in place, and each is proved equal to the route
function. The dashboard's assembly loop (`Monitor.DashboardSummary`) and the `setattr` loop of the
report upsert (`Server.App.Upsert`) are methods with loop invariants.

Files:

- `wrappers.dfy`: `Option`, `Outcome` (a value or a raised exception), and HTTP replies.
- `text.dfy`: the Python string operations the code relies on: `strip`, `lower`, `int()` on text, `split`/`join`, and code-point order.
- `payload.dfy`: JSON values and query arguments; a stable sort standing in for `ORDER BY`.
- `validators.dfy`: app/utils/validators.py.
- `decorators.dfy`: the token as the application sees it, and app/utils/decorators.py.
- `user.dfy`, `facility.dfy`, `resource_report.dfy`: the models.
- `store.dfy`: the tables, their integrity constraints, and the lookups the queries perform.
- `reporter.dfy`, `monitor.dfy`, `admin.dfy`, `auth.dfy`: the routes.
- `config.dfy`: app/config.py.
- `server.dfy`: the stateful application.

## Model

| member | source | states |
|---|---|---|
| Text.Strip | app/utils/validators.py:20 | `str.strip()`: the result is no longer than the input and has no whitespace at either end |
| Text.StripSlice | app/utils/validators.py:20 | `str.strip()` keeps exactly the slice of the input that follows its leading whitespace run; everything cut before and after it is whitespace |
| Text.StripEmptyIffBlank | app/utils/validators.py:160 | stripping gives "" exactly when every character is whitespace |
| Text.RemoveConcat | app/utils/validators.py:23 | deleting characters distributes over concatenation |
| Text.IntToStrRoundTrip | app/utils/validators.py:85 | `int(str(i)) == i` for every integer, negative ones included |
| Text.SplitJoin | app/config.py:18 | joining the pieces of `split(",")` with "," rebuilds the text |
| Text.StrLeTotal | app/routes/admin.py:52 | the order on names is total |
| Text.StrLeTransitive | app/routes/admin.py:52 | the order on names is transitive |
| Text.StrLeAntisymmetric | app/routes/admin.py:52 | two names ordered both ways are equal |
| Payload.ArgInt | app/routes/monitor.py:69-70 | `request.args.get(key, default, type=int)`: a missing key, and text `int()` rejects, both give the default |
| Sorting.SortBySorted | app/routes/admin.py:21 | the sort produces an ordered sequence under any total preorder |
| Sorting.SortByMembers | app/routes/admin.py:21 | the sort keeps the length and exactly the same elements |
| Validators.SanitizeString | app/utils/validators.py:6-29 | None gives ""; the result is at most `max_length` long and has no NUL |
| Validators.SanitizeStringKeepsClean | app/utils/validators.py:16-29 | clean text within the limit comes back unchanged |
| Validators.SanitizeStringTruncates | app/utils/validators.py:26-27 | clean text over the limit is cut to its first `max_length` characters |
| Validators.SanitizeEmail | app/utils/validators.py:32-50 | a falsy value gives ""; the result is at most 255 long, lower-case, and free of NUL and of `<>()[]{}\|\` |
| Validators.ScanEmailShapeCorrect | app/utils/validators.py:66 | the scan by first `@` and last `.` accepts exactly the strings the email regex matches |
| Validators.IsValidEmail | app/utils/validators.py:53-67 | true exactly for non-empty strings of the regex's shape, or of that shape plus one trailing newline (`$` matches before it) |
| Validators.TrailingNewlineAccepted | app/utils/validators.py:66-67 | an address followed by "\n" is still valid |
| Validators.SanitizeInteger | app/utils/validators.py:70-94 | None gives None; a result is the value's `int()` and lies within the bounds; any in-bounds `int()` is returned |
| Validators.SanitizeIntegerText | app/utils/validators.py:85 | an integer and its decimal text sanitise alike |
| Validators.EmailErrors | app/utils/validators.py:109-117 | at most one email message: "Email is required." exactly when the sanitised email is empty, "Invalid email format." exactly when it is non-empty and fails `is_valid_email`, none exactly when it passes; the too-long message never appears |
| Validators.PasswordErrors | app/utils/validators.py:119-127 | a non-zero number as password raises; a text password of 1 to 7 characters gets the too-short message, one over 128 the too-long message, one of 8 to 128 none; a missing one fails only when required |
| Validators.ValidateUserPayload | app/utils/validators.py:97-129 | at most two messages, an email message before a password message; raises exactly on a non-zero number as password; "required" and "invalid format" exactly in their email cases; no message exactly when the email is valid and the password half passes |
| Validators.EmailNeverTooLong | app/utils/validators.py:116-117 | the "too long" email branch is unreachable, since the sanitiser already cut the email to 255 |
| Validators.PasswordInRangeAccepted | app/utils/validators.py:123-127 | a text password of 8 to 128 characters adds no message |
| Validators.MissingPasswordOptional | app/utils/validators.py:121-123 | without `require_password`, a missing password adds no message |
| Validators.ValidateReportPayload | app/utils/validators.py:132-166 | at most four messages, at most one per field, in field order (facility_id, ICU beds, ventilators, staff); none exactly when the facility id is a positive integer and every count is an integer in [0, 10000] |
| Validators.CountMessageChoice | app/utils/validators.py:152-164 | a missing or blank count gives "is required", another bad value gives "must be a non-negative integer", a good one nothing |
| Validators.FacilityIdMessageChoice | app/utils/validators.py:143-149 | a missing facility id gives "is required", a bad one "must be a positive integer" |
| Validators.ValidateFacilityPayload | app/utils/validators.py:169-198 | at most one message; none exactly when the sanitised name has at least 2 characters; the country and city checks never fire |
| Validators.NameErrors | app/utils/validators.py:181-185 | no message exactly when the sanitised name has at least 2 characters; "required" exactly for an empty name, "too short" exactly for a one-character name |
| Validators.OptionalLengthErrors | app/utils/validators.py:188-196 | the country or city length check never produces a message, since the value is cut to 120 characters before it is measured |
| Validators.LongNameAccepted | app/utils/validators.py:181-185 | a name over 150 characters is accepted and cut to 150 |
| Tokens.IssueToken | app/extensions.py:15-20 | an issued token is genuine, carries its `jti`, and its subject decodes to the claims |
| Decorators.IdentityDict | app/utils/decorators.py:12-20 | a JSON object decodes to itself; non-JSON text and falsy values become `{}`; any other JSON value is a non-dict on which `.get` raises |
| Decorators.IssuedIdentity | app/utils/decorators.py:12-20 | the identity of an issued token reads back as its claims |
| Decorators.RoleGuard | app/utils/decorators.py:23-37 | unauthenticated exactly when verification fails; forbidden exactly when the role is not allowed; admitted only with an allowed role |
| Tokens.IsTokenRevoked | app/routes/auth.py:25-27 | `is_token_revoked`: the token's `jti` is in the revocation set; a token without one never is |
| Tokens.Authenticated | app/utils/decorators.py:29 | `verify_jwt_in_request()` accepts exactly a genuine token that is not revoked |
| Decorators.AdminRequired | app/utils/decorators.py:45-46 | `admin_required`: the guard with the roles {"admin"} |
| Decorators.ReporterRequired | app/utils/decorators.py:49-51 | `reporter_required`: the guard with the roles {"reporter", "admin"} |
| Decorators.MonitorRequired | app/utils/decorators.py:54-56 | `monitor_required`: the guard with the roles {"monitor", "admin"} |
| Decorators.Guarded | app/utils/decorators.py:28-33 | the handler runs only on an admitted identity; 403 `Forbidden` otherwise; a rejected token never reaches it |
| Decorators.AdminGuardAdmits | app/utils/decorators.py:45-46 | `admin_required` admits exactly the role "admin" |
| Decorators.ReporterGuardAdmits | app/utils/decorators.py:49-51 | `reporter_required` admits exactly reporters and admins |
| Decorators.MonitorGuardAdmits | app/utils/decorators.py:54-56 | `monitor_required` admits exactly monitors and admins |
| Decorators.AdminPassesEveryGuard | app/utils/decorators.py:45-56 | an admin passes all three guards |
| Decorators.RolesSeparated | app/utils/decorators.py:45-56 | a reporter is forbidden on monitor and admin routes, and a monitor on reporter and admin routes |
| Decorators.MalformedIdentityForbidden | app/utils/decorators.py:16-20 | an identity that is not JSON, or is falsy, gets 403 rather than a crash |
| Decorators.AuthenticationFirst | app/utils/decorators.py:29-30 | a rejected token is turned away before any role check |
| Decorators.ForbiddenReplyConstant | app/utils/decorators.py:31-32 | the 403 reply is the same whichever roles the guard allowed |
| UserModel.ParseRole | app/models/user.py:11-14 | `UserRole(value)` succeeds exactly on "admin", "reporter" and "monitor", and gives back the role with that value |
| UserModel.ParseRoleValue | app/models/user.py:11-14 | parsing a role's value gives the role back |
| UserModel.CheckHashedPassword | app/models/user.py:40-44 | the check accepts exactly the password that was hashed |
| UserModel.SetPassword | app/models/user.py:40-41 | after `set_password`, the check accepts the new password; nothing but the hash changes |
| UserModel.UserToDict | app/models/user.py:46-54 | the keys are id, email, role, facility_id, created_at and updated_at; the values are copied |
| UserModel.UserToDictRole | app/models/user.py:46-54 | the role text parses back to the role; the password hash is never exposed |
| UserModel.UserToDictInjective | app/models/user.py:46-54 | two users with the same dictionary differ at most in their hash |
| FacilityModel.FacilityToDict | app/models/facility.py:23-30 | the keys are id, name, country, city and created_at; the values are copied |
| FacilityModel.FacilityToDictInjective | app/models/facility.py:23-30 | the dictionary determines the facility: two facilities with the same `to_dict` are the same row |
| FacilityModel.SortedByName | app/routes/admin.py:52 | `ORDER BY name ASC`: the same facilities, ordered by name |
| ReportModel.SetCountField | app/routes/reporter.py:69-70 | `setattr` on a count column sets that column and leaves every other field alone |
| ReportModel.ReportToDict | app/models/resource_report.py:32-40 | the keys are id, facility_id, the three counts and updated_at; the values are copied |
| ReportModel.ReportToDictInjective | app/models/resource_report.py:32-40 | the dictionary determines the report |
| Store.FacilityIndex | app/routes/admin.py:99 | `Facility.query.get(id)`: the position of the row with that id, or none when no row has it |
| Store.FindFacility | app/routes/reporter.py:48 | the facility with that id, or none exactly when no row has it |
| Store.FindUserByEmail | app/routes/auth.py:94 | `filter_by(email=...).first()`: a user with that email, or none exactly when no user has it |
| Store.FirstReportFor | app/routes/reporter.py:61 | `filter_by(facility_id=...).first()`: the first row of the facility in table order, or none when it has no row |
| Store.Consistent | app/models/user.py:20-37 | the schema's guarantees: unique primary keys below the next key, unique emails and facility names, only reporters linked to a facility, non-negative counts |
| Store.NewestFor | app/routes/reporter.py:96-100 | a row of the facility with the greatest `updated_at`, or none exactly when it has no row |
| Reporter.ValidPayloadValues | app/utils/validators.py:143-164 | a validated payload holds a facility id of at least 1 and three counts in [0, 10000] |
| Reporter.Count | app/routes/reporter.py:52-58 | the sanitised count of a validated payload is its `int()` and lies in [0, 10000] |
| Reporter.InvalidReportRejected | app/routes/reporter.py:34-36 | validation errors give 400 with the messages, and nothing changes |
| Reporter.InvalidFacilityIdUnreachable | app/routes/reporter.py:38-40 | the "Invalid facility_id." reply can never be produced, since validation already rejects such ids |
| Reporter.ReporterScope | app/routes/reporter.py:42-46 | a reporter with no facility, or one naming another facility, gets 403 and nothing changes; other roles never get 403 here |
| Reporter.UnknownFacility | app/routes/reporter.py:48-50 | an unknown facility gives 404 and nothing changes |
| Reporter.AcceptedUpserts | app/routes/reporter.py:52-75 | an accepted request upserts the facility's sanitised counts |
| Reporter.UpsertOverwrites | app/routes/reporter.py:61-70 | with a row for the facility, the first such row takes the counts in place and keeps its id; no other row and no counter changes |
| Reporter.UpsertInserts | app/routes/reporter.py:71-73 | without a row for the facility, exactly one new row with the next id is appended |
| Reporter.UpsertIdempotent | app/routes/reporter.py:60-75 | submitting the same counts again, at any later time, leaves the tables as they are |
| Reporter.CreateReport | app/routes/reporter.py:26-77 | a failure is 400, 403 or 404 and changes nothing; a success is 201 after validation, for the payload's facility, with the payload's three counts |
| Reporter.Upsert | app/routes/reporter.py:60-77 | the upsert always succeeds with 201, whether it overwrites a row or appends one |
| Reporter.CreateReportIdempotent | app/routes/reporter.py:26-77 | repeating a report submission changes nothing further |
| Reporter.UpsertConsistent | app/models/resource_report.py:12-30 | the upsert keeps ids unique and counts non-negative |
| Reporter.CreateReportConsistent | app/routes/reporter.py:26-77 | `create_report` keeps every table constraint |
| Reporter.GetMyLatestReport | app/routes/reporter.py:80-104 | a 200 reply carries a stored row with the greatest `updated_at` among its facility's rows, and that facility is the token's for a reporter and the query's `facility_id` for other roles |
| Reporter.LatestReportFacility | app/routes/reporter.py:83-104 | a reporter gets 403 exactly without a linked facility, otherwise the newest report of its own facility or 404; other roles get 400 exactly without a non-zero `facility_id`, otherwise the newest report of that facility or 404 |
| Monitor.LocString | app/routes/monitor.py:41-43 | "city, country" when both are set, the one that is set, or None when neither is |
| Monitor.EntryFor | app/routes/monitor.py:46-61 | an entry carries the facility's id, name, country, city and location, and the report's ICU beds, ventilators, staff and update time; without a report the figures are None; critical exactly when the report shows 0 ICU beds |
| Monitor.Summary | app/routes/monitor.py:45-63 | one entry per facility; an entry is critical only with 0 ICU beds |
| Monitor.DashboardSummary | app/routes/monitor.py:14-63 | the loops over reports and facilities compute the summary: one entry per facility, by name, with its latest report |
| Monitor.SummaryCoversFacilities | app/routes/monitor.py:14-61 | one entry per facility, ordered by name, and every facility is listed |
| Monitor.SummaryShowsLatest | app/routes/monitor.py:19-59 | an entry shows one report of its facility, all three counts and the time from that row, with the greatest `updated_at`, or nothing exactly when the facility has no report |
| Monitor.DashboardHistory | app/routes/monitor.py:66-100 | a failure is 400, 404 or 500; a 200 reply names a stored facility whose id is the query's `facility_id`, and the `days` asked for (7 by default), at least 1 |
| Monitor.HistoryReports | app/routes/monitor.py:82-87 | exactly the facility's rows since the cut-off, each at most as often as stored, in ascending `updated_at` |
| Monitor.HistoryCheckOrder | app/routes/monitor.py:69-79 | a missing or zero `facility_id` gives 400, then a non-positive `days` gives 400, and 404 only for an unknown facility; `days` defaults to 7 |
| Monitor.HistoryBody | app/routes/monitor.py:81-100 | a 200 body carries the facility, the days, and the reports from `now - days` on |
| Monitor.HistoryWindowSorted | app/routes/monitor.py:81-100 | a 200 body lists exactly the facility's reports in the window, in ascending time |
| Admin.ListUsers | app/routes/admin.py:18-22 | every user exactly once, newest first |
| Admin.ListFacilities | app/routes/admin.py:49-53 | every facility exactly once, by name |
| Admin.CreateFacilityOutcome | app/routes/admin.py:25-46 | 400 on validation errors, 409 for a taken name, 201 exactly otherwise; a failure changes nothing |
| Admin.CreateFacility | app/routes/admin.py:25-46 | a failure is 400 or 409 and changes nothing; a success is 201 with a name of 2 to 150 characters, appended to the facilities |
| Admin.AddFacility | app/routes/admin.py:39-46 | 201 exactly when the name is free: the facility with the next id and that name is appended and nothing else changes; otherwise 409 and nothing changes |
| Admin.CreatedFacility | app/routes/admin.py:35-46 | a new facility has the next id and a sanitised name of 2 to 150 characters; an empty country or city is stored as None; only it is appended |
| Admin.AddedFacility | app/routes/admin.py:39-46 | a successful insert means the name was free; it replies 201 with a facility under the next id and appends exactly that facility |
| Admin.CreateFacilityConsistent | app/models/facility.py:12-13 | `create_facility` keeps ids and names unique |
| Admin.AddFacilityConsistent | app/routes/admin.py:39-46 | the insert after validation keeps facility ids and names unique |
| Admin.AddUserChangesOnlyOnSuccess | app/routes/admin.py:65-93 | a failure changes nothing; a success appends exactly the new user (201) |
| Admin.AddUserChecks | app/routes/admin.py:65-73 | no email gives 400, then no password gives 400, then an unknown role gives 400 |
| Admin.AddedUser | app/routes/admin.py:75-93 | a created user has the next id and the parsed role; a reporter keeps an existing facility; any other role has none; its email was free |
| Admin.PasswordPrecedence | app/routes/admin.py:61-84 | the stored hash is of `password` when truthy, else of `temporary_password` |
| Admin.AddUser | app/routes/admin.py:65-93 | a failure is 400, 404, 409 or 500 and changes nothing; a success is 201 only when every check passed and the email was free, and appends the user with that email |
| Admin.CreateUser | app/routes/admin.py:56-93 | a failure changes nothing; a success is 201 and appends a user with the sanitised email |
| Admin.AddReporterFacility | app/routes/admin.py:75-79 | a reporter without a facility id gets 400, and one with an unknown facility gets 404 |
| Admin.CreateUserSkipsFormatChecks | app/routes/admin.py:56-93 | an admin may create an account with any non-empty email and a password of any length |
| Admin.AddUserDuplicate | app/routes/admin.py:65-91 | a taken email never creates a user; once the email, password, role and facility checks pass, it gives 409 "Email already registered." |
| Admin.AddUserConsistent | app/models/user.py:20-38 | `create_user` keeps ids and emails unique, and a facility only on reporters |
| Admin.DeleteFacilityRemovesOne | app/routes/admin.py:96-105 | 404 exactly for an unknown id; otherwise exactly that facility is removed |
| Admin.DeleteFacility | app/routes/admin.py:96-105 | 200 exactly when a facility has the id, and then one facility fewer; otherwise 404 and nothing changes; users and reports are untouched |
| Admin.DeleteFacilityConsistent | app/routes/admin.py:103-104 | deleting keeps the table constraints |
| Auth.Claims | app/routes/auth.py:67-70 | the token identity is the user's id, role value and facility id |
| Auth.SessionFor | app/routes/auth.py:98-102 | the token decodes to the user's claims; the reply repeats the role and facility id |
| Auth.RoleText | app/routes/auth.py:39-40 | the role text is at most 50 characters, lower-case and free of NUL |
| Auth.RegisterValidationFirst | app/routes/auth.py:32-35 | validation errors give 400, and a numeric password 500, before anything else; nothing changes |
| Auth.Register | app/routes/auth.py:30-81 | a failure changes nothing; a success is 201 after validation passed and appends the registered user |
| Auth.AddRegistration | app/routes/auth.py:43-81 | a failure is 400, 404, 409 or 500 and changes nothing; a success is 201 only when every check passed and the email was free, appends the user, and carries that user's session |
| Auth.ValidatedPassword | app/routes/auth.py:33-38 | after validation the password is text of 8 to 128 characters |
| Auth.RoleDefaultsToReporter | app/routes/auth.py:39-40 | without a role, registration asks for "reporter" |
| Auth.UnknownRoleRejected | app/routes/auth.py:46-49 | a role text other than the three values gives 400 |
| Auth.RegistrationFacilityChecks | app/routes/auth.py:43-55 | a present but invalid facility id gives 400, a facility for a non-reporter gives 400, and an unknown facility gives 404 |
| Auth.ReporterWithoutFacilityAccepted | app/routes/auth.py:51-65 | a reporter may register without a facility |
| Auth.RegistrationDuplicate | app/routes/auth.py:43-65 | a taken email never creates a user; once the facility-id, role, facility and password checks pass, it gives 409 "Email already registered." for every role |
| Auth.Registered201 | app/routes/auth.py:57-81 | a registration appends exactly the new user, whose token identity is its claims |
| Auth.RegisterConsistent | app/routes/auth.py:30-81 | `register` keeps the table constraints |
| Auth.RegisteredTokenAdmitted | app/routes/auth.py:67-70 | a new token passes its role's guard with the user's claims as identity |
| Auth.LoginValidationFirst | app/routes/auth.py:86-89 | validation errors give 400 before the lookup; in particular a non-empty malformed email and a password of 1 to 7 characters each give 400 with their message |
| Auth.Login | app/routes/auth.py:84-102 | a failure is 400, 401 or 500; a 200 reply passed validation and is the session of the user with the email, whose password matched |
| Auth.LoginDecision | app/routes/auth.py:91-102 | login succeeds exactly for a known email with the matching password; an unknown email and a wrong password get the same 401 |
| Auth.LoginAfterRegister | app/routes/auth.py:30-102 | logging in with the payload that registered succeeds, as the registered user |
| Auth.Revoke | app/routes/auth.py:108-110 | a non-empty `jti` joins the set; nothing else does; the set only grows |
| Auth.Logout | app/routes/auth.py:105-112 | unauthenticated calls are denied and change nothing; otherwise 200 "Logged out" and the token's `jti` joins the set, which only grows |
| Auth.LoggedOutTokenRejected | app/routes/auth.py:105-110 | after logout the token counts as revoked (the blocklist loader at lines 25-27 looks its `jti` up) and no longer authenticates |
| Auth.LogoutAllGrows | app/routes/auth.py:105-110 | a series of logouts only adds to the set, so a revoked token stays revoked |
| Auth.LogoutAll | app/routes/auth.py:105-110 | a series of `logout` calls, each starting from the set the previous one left |
| Config.CsvItems | app/config.py:18 | every item is non-empty and stripped |
| Config.CsvEnv | app/config.py:14-18 | an unset or empty variable gives the default; otherwise the cleaned comma-separated items |
| Config.CsvItemsSingle | app/config.py:18 | a piece is kept stripped unless it strips to nothing |
| Config.CsvItemsConcat | app/config.py:18 | the items keep the order of the pieces |
| Config.CsvItemsKeepsClean | app/config.py:18 | pieces that are already clean pass unchanged |
| Config.SplitOfJoin | app/config.py:18 | splitting a join of comma-free pieces gives the pieces back |
| Config.CsvRoundTrip | app/config.py:45-50 | a list of clean, comma-free origins written as `a,b,c` reads back as the same list |
| Config.DatabaseUri | app/config.py:34-37 | a `postgres://` prefix becomes `postgresql://` and the rest is kept; any other URL is unchanged |
| Config.DatabaseUriIdempotent | app/config.py:35-36 | the rewrite leaves no legacy prefix, so applying it twice changes nothing |
| Config.DatabaseUriKeepsRest | app/config.py:36 | only the scheme changes |
| Config.DatabaseUrl | app/config.py:34 | an unset variable gives `sqlite:///hfrat.db` |
| Config.SecretEnv | app/config.py:21-26 | a non-empty variable is used; otherwise the generated secret |
| Config.ProductionSecret | app/config.py:62-76 | raises exactly when the variable is unset or empty; returns it otherwise |
| Config.SecretsAgree | app/config.py:21-76 | only production can fail, exactly on a missing secret; with the variable set, every profile uses it |
| Config.SelectProfile | app/__init__.py:21-23 | a known name selects its profile; an unknown one falls back to development |
| Config.LoadedSecret | app/__init__.py:22-23 | the secret as `from_object` copies it: for production, the `property` object |
| Config.ProductionCheckSkipped | app/config.py:62-76 | with the variable unset, the intended check raises, but the loaded setting is the `property` object |
| Config.ProfileNames | app/config.py:86-90 | each name selects its own profile, and no other name selects any |
| Config.ProfileDatabaseUri | app/config.py:79-83 | the testing profile uses the in-memory database whatever `DATABASE_URL` holds; every other profile uses the rewritten `DATABASE_URL`; no profile is left with the legacy `postgres://` scheme |
| Config.ProfileOrigins | app/config.py:79-83 | the testing profile allows only `http://localhost:3000` whatever `CORS_ALLOWED_ORIGINS` holds; every other profile reads the variable with the three local origins as default; every origin is non-empty with no whitespace at either end |
| Server.App.constructor | app/extensions.py:9 | empty tables whose ids start at 1, no revoked tokens, and the constraints hold |
| Server.App.Upsert | app/routes/reporter.py:60-75 | the `setattr` loop and the insert leave the tables the upsert function describes |
| Server.App.CreateReport | app/routes/reporter.py:26-77 | the reply and new tables are those of `create_report`; the constraints hold |
| Server.App.SubmitReport | app/utils/decorators.py:28-33 | the guarded route changes nothing unless the guard admits, and then acts as `create_report` |
| Server.App.CreateFacility | app/routes/admin.py:25-46 | the reply and new tables are those of `create_facility`; the constraints hold |
| Server.App.AddFacility | app/routes/admin.py:39-46 | the reply and new tables are those of the insert step of `create_facility`; revoked tokens are untouched |
| Server.App.CreateUser | app/routes/admin.py:56-93 | the reply and new tables are those of `create_user`; the constraints hold |
| Server.App.AddUser | app/routes/admin.py:65-93 | the reply and new tables are those of the decision chain of `create_user` after the payload is read; the constraints hold |
| Server.App.DeleteFacility | app/routes/admin.py:96-105 | the reply and new tables are those of `delete_facility`; the constraints hold |
| Server.App.Register | app/routes/auth.py:30-81 | the reply and new tables are those of `register`; the constraints hold |
| Server.App.AddRegistration | app/routes/auth.py:43-81 | the reply and new tables are those of the decision chain of `register` after validation; the constraints hold |
| Server.App.Logout | app/routes/auth.py:105-112 | the revoked set grows by the token's `jti` as `logout` says, and a logged-out token no longer authenticates |

## Findings

| source | as written | input that shows it | evidently intended | confidence | as-written member | corrected member |
|---|---|---|---|---|---|---|
| app/config.py:62-76 | `ProductionConfig.SECRET_KEY` and `JWT_SECRET_KEY` are properties, but `from_object` (app/__init__.py:22-23) reads them on the class, so it copies the `property` object and the check never runs | `FLASK_ENV=production` with `SECRET_KEY` unset | production refuses to start without its secrets | high; not executed | Config.ProductionCheckSkipped | Config.SecretsAgree |

## Left out

- Store.FirstReportFor: `.first()` without ORDER BY returns whichever row the database yields first; the model fixes that choice as the first row in table order, which is one of the rows the database may return, not the only one.
- JSON values other than null, integers and strings (floats, booleans, lists, objects) are not modelled. `int()` of a float or a bool is therefore absent too.
- `strip()` knows the ASCII whitespace plus U+0085 and U+00A0; other Unicode spaces are not modelled. `lower()` lowers ASCII letters only.
- `int()` on text accepts an optional sign and ASCII digits; underscores and non-ASCII digits are not modelled.
- Password hashing is an uninterpreted pair: the hash keeps the secret, and the check compares it. Salting and werkzeug's format are left out.
- JWT signing, expiry and header parsing are folded into the token's `genuine` flag. The status that flask-jwt-extended picks for a rejected token is left abstract (`Denied`).
- The JSON text of the identity is not modelled. A token's subject is given as its decoded value.
- Timestamps are integer seconds, and the current time is a parameter. The ISO text of `isoformat()` is not modelled. `Monitor.DashboardHistory` gives 500 when `now - days` falls before year 1, as `datetime` overflows there.
- The database is sequential. The race between two concurrent first reports for one facility, and `IntegrityError` from a concurrent duplicate, are left out; duplicates are found by looking them up.
- When several reports of a facility share the greatest `updated_at`, the database does not fix which one is returned. The model takes the last in table order. Rows with equal sort keys keep table order.
- Names are ordered by code point. A database collation that orders otherwise is not modelled.
- Column lengths are not modelled: the 120-character email and the 120/150-character name columns.
- Admin.DeleteFacility: foreign keys are not modelled, so the stated "users and reports are unchanged" describes the model, not the program. The relationships have no delete cascade, so SQLAlchemy most likely loads the facility's `reports` and `users` and sets their `facility_id` to NULL on `session.delete`. `resource_reports.facility_id` is NOT NULL (app/models/resource_report.py:13-14), so deleting a facility that has reports most likely fails with `IntegrityError` and a 500, and linked reporters lose their facility. This is inferred from the code, not observed.
- The `next*Id` counters of `Store.Tables` only grow, as a PostgreSQL sequence does. With the default SQLite database, an `INTEGER PRIMARY KEY` without AUTOINCREMENT takes max(rowid)+1, so after the row with the largest id is deleted, the next insert reuses that id, and reports left behind by a deleted facility attach to the new one. That reuse is not modelled.
- A reporter's `facility_id` claim is compared as stored in the token. SQL type coercion of a text claim is not modelled.
- `Monitor.DashboardSummary` folds the group-by subquery and the join into one pass over the reports. `Server.App.Upsert` looks up the first row with `Store.FirstReportFor` rather than a loop, as the source uses a query.
- UserModel.SetPassword: modelled as a function returning the updated user, not an update of an ORM object in place.
- `role_required`, the generic guard, is not modelled separately; it is `Decorators.Guarded` with the given roles.
- The configuration constants (`JWT_ACCESS_TOKEN_EXPIRES`, `JSON_SORT_KEYS`, `SQLALCHEMY_TRACK_MODIFICATIONS`, `DEBUG`, `TESTING`) have no behaviour to model.
- `secrets.token_urlsafe` is a parameter, `generated`.
- Reads of the environment are parameters (`Option<string>`). `load_dotenv` is not modelled.
- The application factory, logging, CORS headers, the health check, the seed commands and the database scripts are not modelled.
