/** The facility record (app/models/facility.py). */
module FacilityModel {
  import opened Wrappers
  import opened Text
  import opened Payload
  import opened Sorting

  /** A row of `facilities`: name up to 150 characters, unique; country and city optional. */
  datatype Facility = Facility(id: int, name: string, country: Option<string>, city: Option<string>, createdAt: int)

  function OptStr(o: Option<string>): Val {
    match o
    case Some(s) => Str(s)
    case None => Null
  }

  /** `Facility.to_dict`. */
  function FacilityToDict(f: Facility): (d: Dict)
    ensures d.Keys == {"id", "name", "country", "city", "created_at"}
    ensures d["id"] == Int(f.id) && d["name"] == Str(f.name)
    ensures d["country"] == OptStr(f.country) && d["city"] == OptStr(f.city)
  {
    map["id" := Int(f.id), "name" := Str(f.name), "country" := OptStr(f.country), "city" := OptStr(f.city),
        "created_at" := Int(f.createdAt)]
  }

  /** The dictionary determines the facility: no two facilities serialise alike. */
  lemma FacilityToDictInjective(a: Facility, b: Facility)
    requires FacilityToDict(a) == FacilityToDict(b)
    ensures a == b
  {
    assert FacilityToDict(a)["created_at"] == FacilityToDict(b)["created_at"];
    assert OptStr(a.country) == OptStr(b.country) && OptStr(a.city) == OptStr(b.city);
  }

  /** `ORDER BY name ASC`. */
  predicate NameLe(a: Facility, b: Facility) {
    StrLe(a.name, b.name)
  }

  /** Ordering by name is a total preorder, so sorting by it yields a sorted permutation. */
  lemma NameLeTotalPreorder()
    ensures TotalPreorder(NameLe)
  {
    forall x: Facility, y: Facility ensures NameLe(x, y) || NameLe(y, x) {
      StrLeTotal(x.name, y.name);
    }
    forall x: Facility, y: Facility, z: Facility | NameLe(x, y) && NameLe(y, z) ensures NameLe(x, z) {
      StrLeTransitive(x.name, y.name, z.name);
    }
  }

  /** The facilities in ascending name order. */
  function SortedByName(fs: seq<Facility>): (r: seq<Facility>)
    ensures multiset(r) == multiset(fs) && |r| == |fs|
    ensures forall x :: x in r <==> x in fs
    ensures forall i, j :: 0 <= i < j < |r| ==> StrLe(r[i].name, r[j].name)
  {
    NameLeTotalPreorder();
    SortBySorted(fs, NameLe);
    SortByMembers(fs, NameLe);
    SortBy(fs, NameLe)
  }
}
