/** Settings read from the environment (app/config.py). */
module Config {
  import opened Wrappers
  import opened Text

  // --------------------------------------------------------------- _csv_env

  /** A usable item: non-empty, with no whitespace at either end. */
  predicate CleanItem(s: string) {
    s != [] && !IsSpace(s[0]) && !IsSpace(s[|s| - 1])
  }

  /** One piece of a comma split: stripped, or dropped when nothing is left. */
  function CleanPiece(p: string): (r: seq<string>)
    ensures |r| <= 1
    ensures forall i :: 0 <= i < |r| ==> CleanItem(r[i])
  {
    if Strip(p) != [] then [Strip(p)] else []
  }

  /** The items of a comma split, each stripped, the empty ones dropped, in order. */
  function CsvItems(parts: seq<string>): (r: seq<string>)
    ensures |r| <= |parts|
    ensures forall i :: 0 <= i < |r| ==> CleanItem(r[i])
  {
    if parts == [] then [] else CleanPiece(parts[0]) + CsvItems(parts[1..])
  }

  /** `_csv_env(name, default)`: the default when the variable is unset or empty, else the cleaned items. */
  function CsvEnv(raw: Option<string>, default: seq<string>): (r: seq<string>)
    ensures raw.None? || raw == Some("") ==> r == default
    ensures raw.Some? && raw.value != "" ==> r == CsvItems(Split(raw.value, ','))
  {
    if raw.None? || raw.value == "" then default else CsvItems(Split(raw.value, ','))
  }

  /** A single piece is kept stripped, unless stripping leaves nothing. */
  lemma CsvItemsSingle(p: string)
    ensures Strip(p) != [] ==> CsvItems([p]) == [Strip(p)]
    ensures Strip(p) == [] ==> CsvItems([p]) == []
  {
    assert [p][1..] == [];
  }

  /** Cleaning keeps the order of the pieces: it distributes over concatenation. */
  lemma {:induction false} CsvItemsConcat(a: seq<string>, b: seq<string>)
    ensures CsvItems(a + b) == CsvItems(a) + CsvItems(b)
  {
    if a == [] {
      assert a + b == b;
    } else {
      assert (a + b)[0] == a[0];
      assert (a + b)[1..] == a[1..] + b;
      var h := CleanPiece(a[0]);
      assert CsvItems(a + b) == h + CsvItems(a[1..] + b);
      CsvItemsConcat(a[1..], b);
      assert h + (CsvItems(a[1..]) + CsvItems(b)) == (h + CsvItems(a[1..])) + CsvItems(b);
    }
  }

  /** Pieces that are already non-empty and stripped come through unchanged. */
  lemma {:induction false} CsvItemsKeepsClean(parts: seq<string>)
    requires forall i :: 0 <= i < |parts| ==> CleanItem(parts[i])
    ensures CsvItems(parts) == parts
  {
    if parts != [] {
      StripKeepsTrimmed(parts[0]);
      CsvItemsKeepsClean(parts[1..]);
    }
  }

  /** A piece without the separator splits into itself. */
  lemma {:induction false} SplitNoSeparator(a: string, sep: char)
    requires forall i :: 0 <= i < |a| ==> a[i] != sep
    ensures Split(a, sep) == [a]
  {
    if a != [] {
      SplitNoSeparator(a[1..], sep);
      assert [a[0]] + a[1..] == a;
    }
  }

  /** Splitting `a + sep + rest`, with no separator inside `a`, yields `a` first. */
  lemma {:induction false} SplitAfterPiece(a: string, sep: char, rest: string)
    requires forall i :: 0 <= i < |a| ==> a[i] != sep
    ensures Split(a + [sep] + rest, sep) == [a] + Split(rest, sep)
  {
    var s := a + [sep] + rest;
    if a == [] {
      assert s == [sep] + rest;
      assert s[1..] == rest;
    } else {
      assert s[1..] == a[1..] + [sep] + rest;
      SplitAfterPiece(a[1..], sep, rest);
      assert [a[0]] + a[1..] == a;
    }
  }

  /** Splitting the join of separator-free pieces gives the pieces back. */
  lemma {:induction false} SplitOfJoin(items: seq<string>, sep: char)
    requires items != []
    requires forall k, i :: 0 <= k < |items| && 0 <= i < |items[k]| ==> items[k][i] != sep
    ensures Split(Join(items, [sep]), sep) == items
  {
    if |items| == 1 {
      SplitNoSeparator(items[0], sep);
    } else {
      SplitOfJoin(items[1..], sep);
      SplitAfterPiece(items[0], sep, Join(items[1..], [sep]));
      assert [items[0]] + items[1..] == items;
    }
  }

  /** A non-empty join is non-empty when its first piece is. */
  lemma JoinNonEmpty(items: seq<string>, sep: string)
    requires items != [] && items[0] != []
    ensures Join(items, sep) != []
  {
  }

  /**
   * A list written out as `a,b,c` reads back as the same list, provided each item is non-empty,
   * stripped and free of commas.
   */
  lemma CsvRoundTrip(items: seq<string>, default: seq<string>)
    requires items != []
    requires forall i :: 0 <= i < |items| ==> CleanItem(items[i])
    requires forall k, i :: 0 <= k < |items| && 0 <= i < |items[k]| ==> items[k][i] != ','
    ensures CsvEnv(Some(Join(items, ",")), default) == items
  {
    JoinNonEmpty(items, ",");
    SplitOfJoin(items, ',');
    CsvItemsKeepsClean(items);
  }

  /** The origins allowed by default: the local development servers. */
  const DefaultOrigins: seq<string> := ["http://localhost:3000", "http://localhost:5173", "http://localhost:5174"]

  // ---------------------------------------------------------- DATABASE_URL

  const LegacyScheme := "postgres://"
  const Scheme := "postgresql://"
  const DefaultDatabaseUrl := "sqlite:///hfrat.db"

  /** The Heroku-style `postgres://` prefix becomes `postgresql://`; any other URL is kept. */
  function DatabaseUri(url: string): (r: string)
    ensures StartsWith(url, LegacyScheme) ==> r == Scheme + url[|LegacyScheme|..]
    ensures !StartsWith(url, LegacyScheme) ==> r == url
  {
    if StartsWith(url, LegacyScheme) then Scheme + url[|LegacyScheme|..] else url
  }

  /** The rewritten URL no longer has the legacy prefix, so rewriting twice changes nothing. */
  lemma DatabaseUriIdempotent(url: string)
    ensures !StartsWith(DatabaseUri(url), LegacyScheme)
    ensures DatabaseUri(DatabaseUri(url)) == DatabaseUri(url)
  {
    var r := DatabaseUri(url);
    if StartsWith(url, LegacyScheme) {
      assert r[8] == Scheme[8] == 'q';
      assert LegacyScheme[8] == ':';
    }
  }

  /** Only the scheme changes: what follows it is kept character for character. */
  lemma DatabaseUriKeepsRest(url: string)
    requires StartsWith(url, LegacyScheme)
    ensures StartsWith(DatabaseUri(url), Scheme)
    ensures DatabaseUri(url)[|Scheme|..] == url[|LegacyScheme|..]
  {
  }

  /** `os.getenv("DATABASE_URL", "sqlite:///hfrat.db")` then the rewrite; a set but empty variable stays empty. */
  function DatabaseUrl(env: Option<string>): (r: string)
    ensures env.None? ==> r == DefaultDatabaseUrl
    ensures env.Some? ==> r == DatabaseUri(env.value)
  {
    assert DefaultDatabaseUrl[0] != LegacyScheme[0];
    DatabaseUri(env.GetOr(DefaultDatabaseUrl))
  }

  // ---------------------------------------------------------------- secrets

  /** `_secret_env`: the variable when set and non-empty, else a freshly generated secret (a parameter here). */
  function SecretEnv(value: Option<string>, generated: string): (r: string)
    ensures value.Some? && value.value != "" ==> r == value.value
    ensures value.None? || value == Some("") ==> r == generated
  {
    if value.Some? && value.value != "" then value.value else generated
  }

  /** The production secrets: the variable when set and non-empty, else `ValueError`. */
  function ProductionSecret(value: Option<string>): (r: Outcome<string>)
    ensures r.Raised? <==> value.None? || value == Some("")
    ensures r.Returned? ==> r.value == value.value
  {
    if value.Some? && value.value != "" then Returned(value.value) else Raised
  }

  /** The configuration classes of `config_by_name`. */
  datatype Profile = Development | Production | Testing

  function ProfileByName(name: string): Option<Profile> {
    if name == "development" then Some(Development)
    else if name == "production" then Some(Production)
    else if name == "testing" then Some(Testing)
    else None
  }

  /** `SECRET_KEY` and `JWT_SECRET_KEY` of a profile: production refuses to generate one. */
  function ProfileSecret(p: Profile, value: Option<string>, generated: string): Outcome<string> {
    if p == Production then ProductionSecret(value) else Returned(SecretEnv(value, generated))
  }

  const TestingDatabaseUrl := "sqlite:///:memory:"

  /**
   * `SQLALCHEMY_DATABASE_URI` of a profile: testing always uses an in-memory database and ignores
   * `DATABASE_URL`; every profile ends up without the legacy scheme.
   */
  function ProfileDatabaseUri(p: Profile, env: Option<string>): (r: string)
    ensures p == Testing ==> r == TestingDatabaseUrl
    ensures p != Testing ==> r == DatabaseUrl(env)
    ensures !StartsWith(r, LegacyScheme)
  {
    if p == Testing then
      assert TestingDatabaseUrl[0] != LegacyScheme[0];
      TestingDatabaseUrl
    else
      DatabaseUriIdempotent(env.GetOr(DefaultDatabaseUrl));
      DatabaseUrl(env)
  }

  /**
   * `CORS_ORIGINS` of a profile: testing allows only the first local origin and ignores
   * `CORS_ALLOWED_ORIGINS`; every profile's origins are non-empty, with no whitespace at either end.
   */
  function ProfileOrigins(p: Profile, raw: Option<string>): (r: seq<string>)
    ensures p == Testing ==> r == [DefaultOrigins[0]]
    ensures p != Testing ==> r == CsvEnv(raw, DefaultOrigins)
    ensures forall i :: 0 <= i < |r| ==> CleanItem(r[i])
  {
    DefaultOriginsClean();
    if p == Testing then [DefaultOrigins[0]] else CsvEnv(raw, DefaultOrigins)
  }

  /** The default origins are non-empty and have no whitespace at either end. */
  lemma DefaultOriginsClean()
    ensures forall i :: 0 <= i < |DefaultOrigins| ==>
      CleanItem(DefaultOrigins[i])
  {
    assert DefaultOrigins[0][0] == DefaultOrigins[1][0] == DefaultOrigins[2][0] == 'h';
    assert DefaultOrigins[0][|DefaultOrigins[0]| - 1] == '0';
    assert DefaultOrigins[1][|DefaultOrigins[1]| - 1] == '3';
    assert DefaultOrigins[2][|DefaultOrigins[2]| - 1] == '4';
  }

  /**
   * Only production can fail to produce a secret, exactly when the variable is missing or
   * empty; with the variable set, every profile uses it.
   */
  lemma SecretsAgree(p: Profile, value: Option<string>, generated: string)
    ensures ProfileSecret(p, value, generated).Raised? <==> p == Production && (value.None? || value == Some(""))
    ensures value.Some? && value.value != "" ==> ProfileSecret(p, value, generated) == Returned(value.value)
    ensures p != Production ==> ProfileSecret(p, value, generated) == Returned(SecretEnv(value, generated))
  {
  }

  /** `config_by_name.get(env, config_by_name["development"])`: an unknown name falls back to development. */
  function SelectProfile(name: string): (p: Profile)
    ensures ProfileByName(name).Some? ==> p == ProfileByName(name).value
    ensures ProfileByName(name).None? ==> p == Development
  {
    ProfileByName(name).GetOr(Development)
  }

  /** A setting as `from_object` copies it: text, or the `property` object a class attribute holds. */
  datatype Setting = Literal(value: string) | PropertyObject

  /**
   * The secret as the application receives it: `from_object` reads the attribute on the class, so
   * production's `property` is copied as an object and its body, with the check, never runs.
   */
  function LoadedSecret(p: Profile, value: Option<string>, generated: string): (r: Setting)
    ensures p != Production ==> r == Literal(SecretEnv(value, generated))
  {
    if p == Production then PropertyObject else Literal(SecretEnv(value, generated))
  }

  /**
   * With the variable unset, production is meant to refuse to start, yet the loaded setting is
   * the `property` object, whatever the environment holds.
   */
  lemma ProductionCheckSkipped(generated: string, value: Option<string>)
    ensures ProfileSecret(Production, None, generated) == Raised
    ensures LoadedSecret(Production, value, generated) == PropertyObject
    ensures LoadedSecret(Production, None, generated) != Literal(generated)
  {
  }

  /** Each name of `config_by_name` selects its own profile, and no other name selects any. */
  lemma ProfileNames(p: Profile)
    ensures p == Development ==> ProfileByName("development") == Some(p)
    ensures p == Production ==> ProfileByName("production") == Some(p)
    ensures p == Testing ==> ProfileByName("testing") == Some(p)
    ensures forall name :: ProfileByName(name) == Some(p) ==> name in {"development", "production", "testing"}
  {
  }
}
