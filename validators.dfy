/** Input sanitisers and payload validators (app/utils/validators.py). */
module Validators {
  import opened Wrappers
  import opened Text
  import opened Payload

  const NUL: char := '\0'

  /** The characters `sanitize_email` deletes: `<>()[]{}|\`. */
  const Dangerous: set<char> := {'<', '>', '(', ')', '[', ']', '{', '}', '|', '\\'}

  // ---------------------------------------------------------------- strings

  /** The work `sanitize_string` does on the text of a value: strip, remove NUL, truncate. */
  function SanitizeText(text: string, maxLength: nat): (r: string)
    ensures |r| <= maxLength
    ensures forall i :: 0 <= i < |r| ==> r[i] != NUL
  {
    var s := Remove(Strip(text), {NUL});
    if |s| > maxLength then s[..maxLength] else s
  }

  /** `sanitize_string`: None becomes "", anything else is stringified, stripped, cleared of NUL and cut to `maxLength`. */
  function SanitizeString(value: Val, maxLength: nat): (r: string)
    ensures value == Null ==> r == ""
    ensures |r| <= maxLength
    ensures forall i :: 0 <= i < |r| ==> r[i] != NUL
  {
    if value.Null? then "" else SanitizeText(ToStr(value), maxLength)
  }

  /** A string that is already clean comes back unchanged. */
  lemma SanitizeStringKeepsClean(s: string, maxLength: nat)
    requires forall i :: 0 <= i < |s| ==> s[i] != NUL
    requires s == [] || (!IsSpace(s[0]) && !IsSpace(s[|s| - 1]))
    requires |s| <= maxLength
    ensures SanitizeString(Str(s), maxLength) == s
  {
    StripKeepsTrimmed(s);
    assert forall i :: 0 <= i < |s| ==> s[i] !in {NUL};
    assert Remove(s, {NUL}) == s;
    assert SanitizeText(s, maxLength) == s;
  }

  /** A longer clean string is cut to its first `maxLength` characters. */
  lemma SanitizeStringTruncates(s: string, maxLength: nat)
    requires forall i :: 0 <= i < |s| ==> s[i] != NUL
    requires s == [] || (!IsSpace(s[0]) && !IsSpace(s[|s| - 1]))
    requires |s| > maxLength
    ensures SanitizeString(Str(s), maxLength) == s[..maxLength]
  {
    StripKeepsTrimmed(s);
    assert forall i :: 0 <= i < |s| ==> s[i] !in {NUL};
    assert Remove(s, {NUL}) == s;
    assert SanitizeText(s, maxLength) == s[..maxLength];
  }

  /** `sanitize_email`: a falsy value gives "", otherwise the sanitised, lower-cased text without `<>()[]{}|\`. */
  function SanitizeEmail(email: Val): (r: string)
    ensures !Truthy(email) ==> r == ""
    ensures |r| <= 255
    ensures forall i :: 0 <= i < |r| ==> !IsUpper(r[i]) && r[i] !in Dangerous && r[i] != NUL
  {
    if !Truthy(email) then ""
    else
      var clean := SanitizeString(email, 255);
      var lowered := Lower(clean);
      assert forall i :: 0 <= i < |lowered| ==> lowered[i] != NUL by {
        forall i | 0 <= i < |lowered| ensures lowered[i] != NUL {
          if IsUpper(clean[i]) {
            assert lowered[i] == LowerChar(clean[i]);
          }
        }
      }
      Remove(lowered, Dangerous)
  }

  // ------------------------------------------------------------------ email

  predicate IsLetter(c: char) {
    ('a' <= c <= 'z') || ('A' <= c <= 'Z')
  }

  /** `[a-zA-Z0-9._%+-]` */
  predicate IsLocalChar(c: char) {
    IsLetter(c) || IsDigit(c) || c == '.' || c == '_' || c == '%' || c == '+' || c == '-'
  }

  /** `[a-zA-Z0-9.-]` */
  predicate IsDomainChar(c: char) {
    IsLetter(c) || IsDigit(c) || c == '.' || c == '-'
  }

  predicate AllLocal(s: string) {
    forall i :: 0 <= i < |s| ==> IsLocalChar(s[i])
  }

  predicate AllDomain(s: string) {
    forall i :: 0 <= i < |s| ==> IsDomainChar(s[i])
  }

  predicate AllLetters(s: string) {
    forall i :: 0 <= i < |s| ==> IsLetter(s[i])
  }

  /**
   * `s` read as local part `s[..at]`, `@`, domain `s[at+1..dot]`, `.`, and top-level
   * domain `s[dot+1..]`, as the pattern `[a-zA-Z0-9._%+-]+@[a-zA-Z0-9.-]+\.[a-zA-Z]{2,}` splits it.
   */
  ghost predicate SplitsAsEmail(s: string, at: int, dot: int) {
    && 0 < at && at + 1 < dot && dot + 2 < |s|
    && AllLocal(s[..at]) && s[at] == '@'
    && AllDomain(s[at + 1..dot]) && s[dot] == '.'
    && AllLetters(s[dot + 1..])
  }

  /** The whole of `s` matches the pattern. */
  ghost predicate EmailShape(s: string) {
    exists at, dot :: SplitsAsEmail(s, at, dot)
  }

  function FirstIndex(s: string, c: char): (r: Option<nat>)
    ensures r.Some? ==> r.value < |s| && s[r.value] == c && forall k :: 0 <= k < r.value ==> s[k] != c
    ensures r.None? ==> forall k :: 0 <= k < |s| ==> s[k] != c
  {
    if s == [] then None
    else if s[0] == c then Some(0)
    else match FirstIndex(s[1..], c)
      case None => None
      case Some(k) => Some(k + 1)
  }

  function LastIndex(s: string, c: char): (r: Option<nat>)
    ensures r.Some? ==> r.value < |s| && s[r.value] == c && forall k :: r.value < k < |s| ==> s[k] != c
    ensures r.None? ==> forall k :: 0 <= k < |s| ==> s[k] != c
  {
    if s == [] then None
    else if s[|s| - 1] == c then Some(|s| - 1)
    else LastIndex(s[..|s| - 1], c)
  }

  /** The pattern decided by scanning: the first `@` ends the local part, the last `.` starts the top-level domain. */
  predicate ScanEmailShape(s: string) {
    match FirstIndex(s, '@')
    case None => false
    case Some(at) =>
      var rest := s[at + 1..];
      && 0 < at && AllLocal(s[..at]) && AllDomain(rest)
      && match LastIndex(rest, '.')
         case None => false
         case Some(d) => 1 <= d && d + 2 < |rest| && AllLetters(rest[d + 1..])
  }

  lemma ShapeImpliesScan(s: string, at: int, dot: int)
    requires SplitsAsEmail(s, at, dot)
    ensures ScanEmailShape(s)
  {
    var fa := FirstIndex(s, '@');
    assert forall k :: 0 <= k < at ==> s[k] != '@' by {
      forall k | 0 <= k < at ensures s[k] != '@' {
        assert IsLocalChar(s[..at][k]);
      }
    }
    assert fa == Some(at);
    var rest := s[at + 1..];
    var d := dot - at - 1;
    assert rest[d] == '.';
    assert rest[d + 1..] == s[dot + 1..];
    forall k | 0 <= k < |rest| ensures IsDomainChar(rest[k]) {
      if k < d {
        assert rest[k] == s[at + 1..dot][k];
      } else if k > d {
        assert rest[k] == s[dot + 1..][k - d - 1];
      }
    }
    var ld := LastIndex(rest, '.');
    assert forall k :: d < k < |rest| ==> rest[k] != '.' by {
      forall k | d < k < |rest| ensures rest[k] != '.' {
        assert IsLetter(s[dot + 1..][k - d - 1]);
      }
    }
    assert ld == Some(d);
  }

  lemma ScanImpliesShape(s: string)
    requires ScanEmailShape(s)
    ensures EmailShape(s)
  {
    var at := FirstIndex(s, '@').value;
    var rest := s[at + 1..];
    var d := LastIndex(rest, '.').value;
    var dot := at + 1 + d;
    assert s[at + 1..dot] == rest[..d];
    assert s[dot + 1..] == rest[d + 1..];
    assert SplitsAsEmail(s, at, dot);
  }

  lemma ScanEmailShapeCorrect(s: string)
    ensures ScanEmailShape(s) <==> EmailShape(s)
  {
    if EmailShape(s) {
      var at, dot :| SplitsAsEmail(s, at, dot);
      ShapeImpliesScan(s, at, dot);
    }
    if ScanEmailShape(s) {
      ScanImpliesShape(s);
    }
  }

  /** `is_valid_email`: "" is invalid; otherwise `re.match` of the anchored pattern, whose `$` also accepts one trailing newline. */
  function IsValidEmail(email: string): (r: bool)
    ensures r <==> email != "" && (EmailShape(email) || (email[|email| - 1] == '\n' && EmailShape(email[..|email| - 1])))
  {
    if email == "" then false
    else
      ScanEmailShapeCorrect(email);
      ScanEmailShapeCorrect(email[..|email| - 1]);
      ScanEmailShape(email) || (email[|email| - 1] == '\n' && ScanEmailShape(email[..|email| - 1]))
  }

  // ---------------------------------------------------------------- integers

  /** `int(value)`: None stands for the TypeError or ValueError it raises. */
  function AsInt(v: Val): Option<int> {
    match v
    case Null => None
    case Int(i) => Some(i)
    case Str(s) => ParseInt(s)
  }

  predicate InBounds(n: int, minVal: Option<int>, maxVal: Option<int>) {
    (minVal.None? || minVal.value <= n) && (maxVal.None? || n <= maxVal.value)
  }

  /** `sanitize_integer`: the integer the value converts to if it lies within the given bounds, else None. */
  function SanitizeInteger(value: Val, minVal: Option<int>, maxVal: Option<int>): (r: Option<int>)
    ensures value == Null ==> r == None
    ensures r.Some? ==> AsInt(value) == r && InBounds(r.value, minVal, maxVal)
    ensures AsInt(value).Some? && InBounds(AsInt(value).value, minVal, maxVal) ==> r == AsInt(value)
  {
    match AsInt(value)
    case None => None
    case Some(n) =>
      if minVal.Some? && n < minVal.value then None
      else if maxVal.Some? && n > maxVal.value then None
      else Some(n)
  }

  /** The decimal text of an integer sanitises exactly like the integer. */
  lemma SanitizeIntegerText(i: int, minVal: Option<int>, maxVal: Option<int>)
    ensures SanitizeInteger(Str(IntToStr(i)), minVal, maxVal) == SanitizeInteger(Int(i), minVal, maxVal)
  {
    IntToStrRoundTrip(i);
  }

  // ------------------------------------------------------------ user payload

  const EmailRequired := "Email is required."
  const EmailInvalid := "Invalid email format."
  const EmailTooLong := "Email is too long (max 255 characters)."
  const PasswordRequired := "Password is required."
  const PasswordTooShort := "Password must be at least 8 characters."
  const PasswordTooLongMsg := "Password is too long (max 128 characters)."

  const EmailMessages: set<string> := {EmailRequired, EmailInvalid, EmailTooLong}
  const PasswordMessages: set<string> := {PasswordRequired, PasswordTooShort, PasswordTooLongMsg}

  /** The two families never share a message: every password message starts with 'P' and no email message does. */
  lemma {:induction false} JoinMessages(e: seq<string>, pw: seq<string>)
    requires |e| <= 1 && |pw| <= 1
    requires forall m :: m in e ==> m in EmailMessages
    requires forall m :: m in pw ==> m in PasswordMessages && m != [] && m[0] == 'P'
    ensures forall i :: 0 <= i < |e + pw| ==> (e + pw)[i] in EmailMessages + PasswordMessages
    ensures |e + pw| == 2 ==> (e + pw)[0] in EmailMessages && (e + pw)[1] in PasswordMessages
    ensures EmailRequired in e + pw <==> EmailRequired in e
    ensures EmailInvalid in e + pw <==> EmailInvalid in e
    ensures EmailTooLong in e + pw <==> EmailTooLong in e
  {
    assert EmailRequired[0] == 'E' && EmailInvalid[0] == 'I' && EmailTooLong[0] == 'E';
    assert EmailRequired !in pw && EmailInvalid !in pw && EmailTooLong !in pw;
    var r := e + pw;
    forall i | 0 <= i < |r| ensures r[i] in e || r[i] in pw {
      if i < |e| { assert r[i] == e[i]; } else { assert r[i] == pw[i - |e|]; }
    }
  }

  /** The email half of `validate_user_payload`: at most one email message, never the "too long" one. */
  function EmailErrors(data: Dict): (r: seq<string>)
    ensures |r| <= 1
    ensures forall m :: m in r ==> m in EmailMessages
    ensures r == [EmailRequired] <==> SanitizeEmail(Get(data, "email")) == ""
    ensures r == [EmailInvalid] <==> SanitizeEmail(Get(data, "email")) != "" && !IsValidEmail(SanitizeEmail(Get(data, "email")))
    ensures r == [] <==> IsValidEmail(SanitizeEmail(Get(data, "email")))
    ensures EmailTooLong !in r
  {
    var email := SanitizeEmail(Get(data, "email"));
    assert EmailRequired[0] == 'E' && EmailInvalid[0] == 'I';
    if email == "" then [EmailRequired]
    else if !IsValidEmail(email) then [EmailInvalid]
    else if |email| > 255 then [EmailTooLong]
    else []
  }

  /** The password half: a missing password when one is required, or a length outside 8..128; `len()` of a non-zero number raises TypeError. */
  function PasswordErrors(data: Dict, requirePassword: bool): (r: Outcome<seq<string>>)
    ensures r.Raised? <==> Get(data, "password").Int? && Get(data, "password").i != 0
    ensures r.Returned? ==> |r.value| <= 1 && forall m :: m in r.value ==> m in PasswordMessages && m != [] && m[0] == 'P'
    ensures Get(data, "password").Str? && 8 <= |Get(data, "password").s| <= 128 ==> r == Returned([])
    ensures Get(data, "password").Str? && 0 < |Get(data, "password").s| < 8 ==> r == Returned([PasswordTooShort])
    ensures Get(data, "password").Str? && |Get(data, "password").s| > 128 ==> r == Returned([PasswordTooLongMsg])
    ensures !requirePassword && !Truthy(Get(data, "password")) ==> r == Returned([])
    ensures requirePassword && !Truthy(Get(data, "password")) ==> r == Returned([PasswordRequired])
  {
    var password := Get(data, "password");
    if requirePassword && !Truthy(password) then Returned([PasswordRequired])
    else if !Truthy(password) then Returned([])
    else match password
      case Str(p) =>
        Returned(if |p| < 8 then [PasswordTooShort] else if |p| > 128 then [PasswordTooLongMsg] else [])
      case _ => Raised
  }

  /** `validate_user_payload`: the email message (if any) followed by the password message (if any). */
  function ValidateUserPayload(data: Dict, requirePassword: bool): (r: Outcome<seq<string>>)
    ensures r.Raised? <==> Get(data, "password").Int? && Get(data, "password").i != 0
    ensures r.Returned? ==> |r.value| <= 2
    ensures r.Returned? ==> forall i :: 0 <= i < |r.value| ==> r.value[i] in EmailMessages + PasswordMessages
    ensures r.Returned? && |r.value| == 2 ==> r.value[0] in EmailMessages && r.value[1] in PasswordMessages
    ensures r.Returned? ==> (SanitizeEmail(Get(data, "email")) == "" <==> EmailRequired in r.value)
    ensures r.Returned? ==>
      (SanitizeEmail(Get(data, "email")) != "" && !IsValidEmail(SanitizeEmail(Get(data, "email"))) <==> EmailInvalid in r.value)
    ensures r.Returned? ==>
      (r.value == [] <==> IsValidEmail(SanitizeEmail(Get(data, "email"))) && PasswordErrors(data, requirePassword) == Returned([]))
  {
    match PasswordErrors(data, requirePassword)
    case Raised => Raised
    case Returned(pw) =>
      JoinMessages(EmailErrors(data), pw);
      Returned(EmailErrors(data) + pw)
  }

  /** The "too long" email message can never be produced: the sanitised email is at most 255 characters. */
  lemma EmailNeverTooLong(data: Dict, requirePassword: bool)
    ensures ValidateUserPayload(data, requirePassword).Returned? ==>
              EmailTooLong !in ValidateUserPayload(data, requirePassword).value
  {
    var r := ValidateUserPayload(data, requirePassword);
    if r.Returned? {
      JoinMessages(EmailErrors(data), PasswordErrors(data, requirePassword).value);
    }
  }

  /** A password of 8 to 128 characters draws no password message. */
  lemma PasswordInRangeAccepted(data: Dict, requirePassword: bool)
    requires Get(data, "password").Str? && 8 <= |Get(data, "password").s| <= 128
    ensures ValidateUserPayload(data, requirePassword) == Returned(EmailErrors(data))
  {
    assert EmailErrors(data) + [] == EmailErrors(data);
  }

  /** Without `require_password`, a missing or empty password draws no password message. */
  lemma MissingPasswordOptional(data: Dict)
    requires !Truthy(Get(data, "password"))
    ensures ValidateUserPayload(data, false) == Returned(EmailErrors(data))
  {
    assert EmailErrors(data) + [] == EmailErrors(data);
  }

  /** `$` also matches before a final newline, so an address followed by one newline is accepted. */
  lemma TrailingNewlineAccepted(s: string)
    requires EmailShape(s)
    ensures IsValidEmail(s + "\n")
  {
    var t := s + "\n";
    assert t[..|t| - 1] == s;
  }

  // ---------------------------------------------------------- report payload

  const MaxCount := 10000

  /** The resource counts, in the order the validator visits them. */
  const ReportFields: seq<string> := ["icu_beds_available", "ventilators_available", "staff_on_duty"]

  const FacilityIdField := "facility_id"

  /** Every field a report message can be about, in message order. */
  const ReportMessageOrder: seq<string> := [FacilityIdField] + ReportFields

  function FacilityIdErrors(data: Dict): seq<string> {
    if SanitizeInteger(Get(data, "facility_id"), Some(1), None).Some? then []
    else if Get(data, "facility_id") == Null then [FacilityIdField + " is required."]
    else [FacilityIdField + " must be a positive integer."]
  }

  /** One pass of the loop over the resource fields. */
  function CountErrors(data: Dict, field: string): seq<string> {
    var value := Get(data, field);
    if value == Null then [field + " is required."]
    else if SanitizeInteger(value, Some(0), Some(MaxCount)).Some? then []
    else if Strip(ToStr(value)) == "" then [field + " is required."]
    else [field + " must be a non-negative integer (max 10000)."]
  }

  /** A usable facility id: an integer of at least 1. */
  predicate FacilityIdOk(data: Dict) {
    AsInt(Get(data, "facility_id")).Some? && AsInt(Get(data, "facility_id")).value >= 1
  }

  /** A usable resource count: an integer in [0, 10000]. */
  predicate CountOk(data: Dict, field: string) {
    AsInt(Get(data, field)).Some? && 0 <= AsInt(Get(data, field)).value <= MaxCount
  }

  /** A well-formed report: a facility id of at least 1 and three counts in [0, 10000]. */
  predicate ReportPayloadValid(data: Dict) {
    FacilityIdOk(data) && forall k :: 0 <= k < |ReportFields| ==> CountOk(data, ReportFields[k])
  }

  /** The field a message is about: the text before its first space. */
  function FieldOf(m: string): string {
    match FirstIndex(m, ' ')
    case None => m
    case Some(k) => m[..k]
  }

  /** The position of a message's field in `ReportMessageOrder` (4 when it is none of them). */
  function Rank(m: string): nat {
    var f := FieldOf(m);
    if f == FacilityIdField then 0
    else if f == ReportFields[0] then 1
    else if f == ReportFields[1] then 2
    else if f == ReportFields[2] then 3
    else 4
  }

  lemma {:induction false} FieldOfMessage(field: string, tail: string)
    requires ' ' !in field && tail != [] && tail[0] == ' '
    ensures FieldOf(field + tail) == field
  {
    var m := field + tail;
    var k := FirstIndex(m, ' ');
    assert m[|field|] == ' ';
    assert forall j :: 0 <= j < |field| ==> m[j] != ' ' by {
      forall j | 0 <= j < |field| ensures m[j] != ' ' {
        assert m[j] == field[j];
      }
    }
    assert k == Some(|field|);
    assert m[..|field|] == field;
  }

  /** The message `ReportMessageOrder[k] + tail` ranks `k`. */
  lemma MessageRank(k: nat, tail: string)
    requires k < 4 && tail != [] && tail[0] == ' '
    ensures Rank(ReportMessageOrder[k] + tail) == k
  {
    FieldOfMessage(ReportMessageOrder[k], tail);
  }

  lemma CountErrorsRank(data: Dict, k: nat)
    requires k < 3
    ensures |CountErrors(data, ReportFields[k])| <= 1
    ensures forall m :: m in CountErrors(data, ReportFields[k]) ==> Rank(m) == k + 1
    ensures CountErrors(data, ReportFields[k]) == [] <==> CountOk(data, ReportFields[k])
  {
    CountErrorsRanked(data, k);
    CountErrorsEmpty(data, ReportFields[k]);
  }

  lemma CountErrorsRanked(data: Dict, k: nat)
    requires k < 3
    ensures |CountErrors(data, ReportFields[k])| <= 1
    ensures forall m :: m in CountErrors(data, ReportFields[k]) ==> Rank(m) == k + 1
  {
    assert ReportMessageOrder[k + 1] == ReportFields[k];
    MessageRank(k + 1, " is required.");
    MessageRank(k + 1, " must be a non-negative integer (max 10000).");
  }

  lemma CountErrorsEmpty(data: Dict, field: string)
    ensures CountErrors(data, field) == [] <==> CountOk(data, field)
  {
  }

  lemma FacilityIdErrorsRank(data: Dict)
    ensures |FacilityIdErrors(data)| <= 1
    ensures forall m :: m in FacilityIdErrors(data) ==> Rank(m) == 0
    ensures FacilityIdErrors(data) == [] <==> FacilityIdOk(data)
  {
    MessageRank(0, " is required.");
    MessageRank(0, " must be a positive integer.");
  }

  /** Four groups of at most one message each, ranked 0 to 3, concatenate into strictly ascending ranks. */
  lemma RankedConcat(f: seq<string>, a: seq<string>, b: seq<string>, c: seq<string>)
    requires |f| <= 1 && |a| <= 1 && |b| <= 1 && |c| <= 1
    requires forall m :: m in f ==> Rank(m) == 0
    requires forall m :: m in a ==> Rank(m) == 1
    requires forall m :: m in b ==> Rank(m) == 2
    requires forall m :: m in c ==> Rank(m) == 3
    ensures forall i :: 0 <= i < |f + a + b + c| ==> Rank((f + a + b + c)[i]) < 4
    ensures forall i, j :: 0 <= i < j < |f + a + b + c| ==> Rank((f + a + b + c)[i]) < Rank((f + a + b + c)[j])
    ensures |f + a + b + c| <= 4
    ensures f + a + b + c == [] <==> f == [] && a == [] && b == [] && c == []
  {
    var r := f + a + b + c;
    var x, y, z := |f|, |f| + |a|, |f| + |a| + |b|;
    forall i | 0 <= i < |r|
      ensures Rank(r[i]) == if i < x then 0 else if i < y then 1 else if i < z then 2 else 3
    {
      if i < x { assert r[i] == f[i]; }
      else if i < y { assert r[i] == a[i - x]; }
      else if i < z { assert r[i] == b[i - y]; }
      else { assert r[i] == c[i - z]; }
    }
  }

  /** The four message groups of a report: each at most one message of its own rank, all empty exactly when the payload is valid. */
  lemma ReportGroups(data: Dict)
    ensures var f, a, b, c := FacilityIdErrors(data), CountErrors(data, ReportFields[0]),
                              CountErrors(data, ReportFields[1]), CountErrors(data, ReportFields[2]);
      && (forall i :: 0 <= i < |f + a + b + c| ==> Rank((f + a + b + c)[i]) < 4)
      && (forall i, j :: 0 <= i < j < |f + a + b + c| ==> Rank((f + a + b + c)[i]) < Rank((f + a + b + c)[j]))
      && (f + a + b + c == [] <==> ReportPayloadValid(data))
      && |f + a + b + c| <= 4
  {
    var f := FacilityIdErrors(data);
    var a := CountErrors(data, ReportFields[0]);
    var b := CountErrors(data, ReportFields[1]);
    var c := CountErrors(data, ReportFields[2]);
    FacilityIdErrorsRank(data);
    CountErrorsRank(data, 0);
    CountErrorsRank(data, 1);
    CountErrorsRank(data, 2);
    RankedConcat(f, a, b, c);
    ReportValidFields(data);
  }

  /** A valid report is a valid facility id and three valid counts, field by field. */
  lemma ReportValidFields(data: Dict)
    ensures ReportPayloadValid(data) <==>
      FacilityIdOk(data) && CountOk(data, ReportFields[0]) && CountOk(data, ReportFields[1]) && CountOk(data, ReportFields[2])
  {
    if FacilityIdOk(data) && CountOk(data, ReportFields[0]) && CountOk(data, ReportFields[1]) && CountOk(data, ReportFields[2]) {
      forall k | 0 <= k < |ReportFields| ensures CountOk(data, ReportFields[k]) {
        if k == 0 {} else if k == 1 {} else {}
      }
    }
  }

  /** `validate_report_payload`: facility_id, then each resource count, at most one message each. */
  function ValidateReportPayload(data: Dict): (r: seq<string>)
    ensures |r| <= 4
    ensures forall i :: 0 <= i < |r| ==> Rank(r[i]) < 4
    ensures forall i, j :: 0 <= i < j < |r| ==> Rank(r[i]) < Rank(r[j])
    ensures r == [] <==> ReportPayloadValid(data)
  {
    ReportGroups(data);
    FacilityIdErrors(data) + CountErrors(data, ReportFields[0]) + CountErrors(data, ReportFields[1]) + CountErrors(data, ReportFields[2])
  }

  /** The message for a resource count: "required" when it is missing or blank, the range message when it is present but unusable. */
  lemma CountMessageChoice(data: Dict, field: string)
    requires field in ReportFields
    ensures var v := Get(data, field);
      (v == Null || (v.Str? && Strip(v.s) == "")) ==> CountErrors(data, field) == [field + " is required."]
    ensures var v := Get(data, field);
      (v != Null && !(v.Str? && Strip(v.s) == "") && !(AsInt(v).Some? && 0 <= AsInt(v).value <= MaxCount)) ==>
        CountErrors(data, field) == [field + " must be a non-negative integer (max 10000)."]
    ensures AsInt(Get(data, field)).Some? && 0 <= AsInt(Get(data, field)).value <= MaxCount ==>
              CountErrors(data, field) == []
  {
    var v := Get(data, field);
    if v.Int? {
      IntToStrRoundTrip(v.i);
      assert Strip(ToStr(v)) != "";
    }
  }

  /** The message for facility_id: "required" only when it is missing; a blank or bad value gets the positive-integer message. */
  lemma FacilityIdMessageChoice(data: Dict)
    ensures Get(data, "facility_id") == Null ==> FacilityIdErrors(data) == [FacilityIdField + " is required."]
    ensures Get(data, "facility_id") != Null && !(AsInt(Get(data, "facility_id")).Some? && AsInt(Get(data, "facility_id")).value >= 1) ==>
              FacilityIdErrors(data) == [FacilityIdField + " must be a positive integer."]
  {
  }

  // -------------------------------------------------------- facility payload

  const NameRequired := "Facility name is required."
  const NameTooShort := "Facility name must be at least 2 characters."

  /** The name check of `validate_facility_payload`: required, then at least 2 characters. */
  function NameErrors(name: string): (r: seq<string>)
    ensures |r| <= 1
    ensures r == [] <==> |name| >= 2
    ensures r == [NameRequired] <==> name == ""
    ensures r == [NameTooShort] <==> |name| == 1
  {
    if name == "" then [NameRequired] else if |name| < 2 then [NameTooShort] else []
  }

  /**
   * The length check on an optional country or city: the value is sanitised to 120 characters
   * before it is measured, so the check never fires.
   */
  function OptionalLengthErrors(value: Val, message: string): (r: seq<string>)
    ensures r == []
  {
    var text := SanitizeString(value, 120);
    if Truthy(value) && |text| > 120 then [message] else []
  }

  /** `validate_facility_payload`. */
  function ValidateFacilityPayload(data: Dict): (r: seq<string>)
    ensures |r| <= 1
    ensures r == [] <==> |SanitizeString(Get(data, "name"), 150)| >= 2
    ensures r == [NameRequired] <==> SanitizeString(Get(data, "name"), 150) == ""
    ensures r == [NameTooShort] <==> |SanitizeString(Get(data, "name"), 150)| == 1
  {
    var nameErrors := NameErrors(SanitizeString(Get(data, "name"), 150));
    var countryErrors := OptionalLengthErrors(Get(data, "country"), "Country name is too long (max 120 characters).");
    var cityErrors := OptionalLengthErrors(Get(data, "city"), "City name is too long (max 120 characters).");
    assert nameErrors + countryErrors + cityErrors == nameErrors;
    nameErrors + countryErrors + cityErrors
  }

  /** A name longer than 150 characters is accepted; it is cut rather than rejected. */
  lemma LongNameAccepted(data: Dict)
    requires Get(data, "name").Str?
    requires var s := Get(data, "name").s;
      |s| > 150 && (forall i :: 0 <= i < |s| ==> s[i] != NUL) && !IsSpace(s[0]) && !IsSpace(s[|s| - 1])
    ensures ValidateFacilityPayload(data) == []
    ensures SanitizeString(Get(data, "name"), 150) == Get(data, "name").s[..150]
  {
    SanitizeStringTruncates(Get(data, "name").s, 150);
  }
}
