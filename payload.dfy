/** The JSON request values the routes read with `data.get(...)`. */
module Payload {
  import opened Wrappers
  import opened Text

  /** A JSON value as far as the routes distinguish it: null (or missing), an integer, a string. */
  datatype Val = Null | Int(i: int) | Str(s: string)

  /** A decoded JSON object. */
  type Dict = map<string, Val>

  /** `data.get(key)`: a missing key reads as null. */
  function Get(d: Dict, key: string): Val {
    if key in d then d[key] else Null
  }

  /** Python truthiness: None, 0 and "" are false. */
  predicate Truthy(v: Val) {
    match v
    case Null => false
    case Int(i) => i != 0
    case Str(s) => s != []
  }

  /** `str(value)`. */
  function ToStr(v: Val): string {
    match v
    case Null => "None"
    case Int(i) => IntToStr(i)
    case Str(s) => s
  }

  /** A query string: each parameter's text. */
  type Args = map<string, string>

  /**
   * `request.args.get(key, default, type=int)`: a missing parameter, and one `int()` cannot
   * convert, both give the default.
   */
  function ArgInt(args: Args, key: string, default: Option<int>): (r: Option<int>)
    ensures key !in args ==> r == default
    ensures key in args ==> r == if ParseInt(args[key]).Some? then ParseInt(args[key]) else default
  {
    if key !in args then default
    else match ParseInt(args[key])
      case Some(n) => Some(n)
      case None => default
  }

  /** The JSON encoding of an `int | None` column. */
  function OptInt(o: Option<int>): Val {
    match o
    case Some(i) => Int(i)
    case None => Null
  }
}

/** Stable insertion sort over a total preorder: the ordering the `ORDER BY` queries return. */
module Sorting {

  ghost predicate TotalPreorder<T(!new)>(le: (T, T) -> bool) {
    && (forall x, y :: le(x, y) || le(y, x))
    && (forall x, y, z :: le(x, y) && le(y, z) ==> le(x, z))
  }

  predicate Sorted<T>(s: seq<T>, le: (T, T) -> bool) {
    forall i, j :: 0 <= i < j < |s| ==> le(s[i], s[j])
  }

  /** `x` placed before the first element it is not after. */
  function Insert<T>(x: T, s: seq<T>, le: (T, T) -> bool): (r: seq<T>)
    ensures multiset(r) == multiset(s) + multiset{x}
  {
    if s == [] || le(x, s[0]) then [x] + s
    else
      assert s == [s[0]] + s[1..];
      [s[0]] + Insert(x, s[1..], le)
  }

  /** The rows of `s` ordered by `le`, keeping the original order among equals. */
  function SortBy<T>(s: seq<T>, le: (T, T) -> bool): (r: seq<T>)
    ensures multiset(r) == multiset(s)
  {
    if s == [] then []
    else
      assert s == [s[0]] + s[1..];
      Insert(s[0], SortBy(s[1..], le), le)
  }

  lemma {:induction false} InsertSorted<T(!new)>(x: T, s: seq<T>, le: (T, T) -> bool)
    requires TotalPreorder(le) && Sorted(s, le)
    ensures Sorted(Insert(x, s, le), le)
  {
    if s != [] && !le(x, s[0]) {
      var rest := Insert(x, s[1..], le);
      InsertSorted(x, s[1..], le);
      forall k | 0 <= k < |rest| ensures le(s[0], rest[k]) {
        assert rest[k] in multiset(rest);
        assert rest[k] in multiset(s[1..]) || rest[k] == x;
        if rest[k] != x {
          var j :| 0 <= j < |s[1..]| && s[1..][j] == rest[k];
          assert s[j + 1] == rest[k];
        }
      }
    }
  }

  /** Sorting orders the rows. */
  lemma {:induction false} SortBySorted<T(!new)>(s: seq<T>, le: (T, T) -> bool)
    requires TotalPreorder(le)
    ensures Sorted(SortBy(s, le), le)
  {
    if s != [] {
      SortBySorted(s[1..], le);
      InsertSorted(s[0], SortBy(s[1..], le), le);
    }
  }

  /** Sorting keeps the length and the set of rows. */
  lemma SortByMembers<T>(s: seq<T>, le: (T, T) -> bool)
    ensures |SortBy(s, le)| == |s|
    ensures forall x :: x in SortBy(s, le) <==> x in s
  {
    var r := SortBy(s, le);
    assert |r| == |multiset(r)| == |multiset(s)| == |s|;
    forall x ensures x in r <==> x in s {
      assert x in r <==> x in multiset(r);
      assert x in s <==> x in multiset(s);
    }
  }
}
