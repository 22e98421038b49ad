/** The monitor routes (app/routes/monitor.py): the dashboard summary and a facility's history. */
module Monitor {
  import opened Wrappers
  import opened Http
  import opened Text
  import opened Payload
  import opened Sorting
  import opened FacilityModel
  import opened ReportModel
  import opened Store

  /** One line of the dashboard. Absent values are JSON nulls. */
  datatype Entry = Entry(
    facilityId: int,
    facilityName: string,
    country: Option<string>,
    city: Option<string>,
    location: Option<string>,
    icuBeds: Option<int>,
    ventilators: Option<int>,
    staff: Option<int>,
    lastUpdate: Option<int>,
    critical: bool)

  /** A truthy optional string: present and not empty. */
  predicate Filled(o: Option<string>) {
    o.Some? && o.value != ""
  }

  function Part(o: Option<string>): seq<string> {
    if Filled(o) then [o.value] else []
  }

  /** `loc_string`: the filled values of city then country, joined with ", "; None when neither is filled. */
  function LocString(f: Facility): (r: Option<string>)
    ensures r.None? <==> !Filled(f.city) && !Filled(f.country)
    ensures Filled(f.city) && Filled(f.country) ==> r == Some(f.city.value + ", " + f.country.value)
    ensures Filled(f.city) && !Filled(f.country) ==> r == Some(f.city.value)
    ensures !Filled(f.city) && Filled(f.country) ==> r == Some(f.country.value)
  {
    var parts := Part(f.city) + Part(f.country);
    JoinShort(f.city.GetOr(""), f.country.GetOr(""), ", ");
    JoinShort(f.country.GetOr(""), "", ", ");
    if parts == [] then None else Some(Join(parts, ", "))
  }

  /** The dashboard line of facility `f` whose latest report is `report`. */
  function EntryFor(f: Facility, report: Option<Report>): (e: Entry)
    ensures e.facilityId == f.id && e.facilityName == f.name && e.location == LocString(f)
    ensures e.country == f.country && e.city == f.city
    ensures report.None? ==> e.icuBeds.None? && e.ventilators.None? && e.staff.None? && e.lastUpdate.None?
    ensures report.Some? ==> e.icuBeds == Some(report.value.icuBeds) && e.ventilators == Some(report.value.ventilators)
    ensures report.Some? ==> e.staff == Some(report.value.staff) && e.lastUpdate == Some(report.value.updatedAt)
    ensures e.critical <==> report.Some? && report.value.icuBeds == 0
  {
    match report
    case None => Entry(f.id, f.name, f.country, f.city, LocString(f), None, None, None, None, false)
    case Some(r) =>
      Entry(f.id, f.name, f.country, f.city, LocString(f),
            Some(r.icuBeds), Some(r.ventilators), Some(r.staff), Some(r.updatedAt), r.icuBeds == 0)
  }

  /** The dashboard: one line per facility in ascending name order, each with the facility's latest report. */
  function Summary(facilities: seq<Facility>, reports: seq<Report>): (r: seq<Entry>)
    ensures |r| == |facilities|
    ensures forall i :: 0 <= i < |r| ==> r[i].critical ==> r[i].icuBeds == Some(0)
  {
    var s := SortedByName(facilities);
    assert |multiset(s)| == |multiset(facilities)|;
    seq(|s|, i requires 0 <= i < |s| => EntryFor(s[i], NewestFor(reports, s[i].id)))
  }

  function Lookup(m: map<int, Report>, k: int): Option<Report> {
    if k in m then Some(m[k]) else None
  }

  /**
   * `dashboard_summary`: the latest report of every facility gathered in one pass over the
   * reports, then one line per facility in name order.
   */
  method DashboardSummary(facilities: seq<Facility>, reports: seq<Report>) returns (summary: seq<Entry>)
    ensures summary == Summary(facilities, reports)
  {
    var latest: map<int, Report> := map[];
    var i := 0;
    while i < |reports|
      invariant 0 <= i <= |reports|
      invariant forall fid :: Lookup(latest, fid) == NewestFor(reports[..i], fid)
    {
      var r := reports[i];
      assert reports[..i + 1][..i] == reports[..i];
      if r.facilityId !in latest || latest[r.facilityId].updatedAt <= r.updatedAt {
        latest := latest[r.facilityId := r];
      }
      i := i + 1;
    }
    assert reports[..i] == reports;
    var sorted := SortedByName(facilities);
    summary := [];
    var k := 0;
    while k < |sorted|
      invariant 0 <= k <= |sorted| && |summary| == k
      invariant forall j :: 0 <= j < k ==> summary[j] == EntryFor(sorted[j], NewestFor(reports, sorted[j].id))
    {
      var fac := sorted[k];
      summary := summary + [EntryFor(fac, Lookup(latest, fac.id))];
      k := k + 1;
    }
  }

  /** Some facility has this id and name. */
  ghost predicate Listed(facilities: seq<Facility>, id: int, name: string) {
    exists f :: f in facilities && f.id == id && f.name == name
  }

  /** The dashboard has exactly one line per facility, in ascending name order. */
  lemma SummaryCoversFacilities(facilities: seq<Facility>, reports: seq<Report>)
    ensures var r := Summary(facilities, reports);
      && |r| == |facilities|
      && (forall i, j :: 0 <= i < j < |r| ==> StrLe(r[i].facilityName, r[j].facilityName))
      && (forall i :: 0 <= i < |r| ==> Listed(facilities, r[i].facilityId, r[i].facilityName))
      && (forall f :: f in facilities ==> exists i :: 0 <= i < |r| && r[i].facilityId == f.id && r[i].facilityName == f.name)
  {
    var s := SortedByName(facilities);
    var r := Summary(facilities, reports);
    assert forall i :: 0 <= i < |r| ==> r[i].facilityId == s[i].id && r[i].facilityName == s[i].name;
    forall i | 0 <= i < |r|
      ensures Listed(facilities, r[i].facilityId, r[i].facilityName)
    {
      var f := s[i];
      assert r[i] == EntryFor(f, NewestFor(reports, f.id));
      assert f in s;
      assert f in facilities && f.id == r[i].facilityId && f.name == r[i].facilityName;
    }
    forall f | f in facilities
      ensures exists i :: 0 <= i < |r| && r[i].facilityId == f.id && r[i].facilityName == f.name
    {
      assert f in s;
      var i :| 0 <= i < |s| && s[i] == f;
      assert r[i].facilityId == f.id;
    }
  }

  /**
   * Each line shows the facility's report with the greatest `updated_at`; a facility without
   * reports shows nulls and is not critical; `critical` means a report with no ICU bed.
   */
  lemma SummaryShowsLatest(facilities: seq<Facility>, reports: seq<Report>, i: int)
    requires 0 <= i < |Summary(facilities, reports)|
    ensures var e := Summary(facilities, reports)[i];
      && (e.lastUpdate.None? <==> forall k :: 0 <= k < |reports| ==> reports[k].facilityId != e.facilityId)
      && (e.lastUpdate.Some? ==> exists k :: 0 <= k < |reports| && reports[k].facilityId == e.facilityId &&
                                             reports[k].updatedAt == e.lastUpdate.value && Some(reports[k].icuBeds) == e.icuBeds &&
                                             Some(reports[k].ventilators) == e.ventilators && Some(reports[k].staff) == e.staff)
      && (e.lastUpdate.Some? ==> forall k :: 0 <= k < |reports| && reports[k].facilityId == e.facilityId ==>
                                             reports[k].updatedAt <= e.lastUpdate.value)
      && (e.lastUpdate.None? ==> e.icuBeds.None? && e.ventilators.None? && e.staff.None? && !e.critical)
      && (e.critical <==> e.lastUpdate.Some? && e.icuBeds == Some(0))
  {
    var s := SortedByName(facilities);
    var n := NewestFor(reports, s[i].id);
    if n.Some? {
      var k :| 0 <= k < |reports| && reports[k] == n.value;
    }
  }

  // ------------------------------------------------------------------ history

  const SecondsPerDay := 86400

  /** The earliest instant a `datetime` can hold, 0001-01-01T00:00:00, in seconds from 1970-01-01. */
  const MinTimestamp := -62135596800

  /** The history reply: the facility, the window in days, and the reports. */
  datatype History = History(facility: Facility, days: int, reports: seq<Report>)

  /** The reports of facility `fid` updated at or after `since`, in table order. */
  function Window(rs: seq<Report>, fid: int, since: int): (r: seq<Report>)
    ensures forall x :: x in r <==> x in rs && x.facilityId == fid && x.updatedAt >= since
    ensures multiset(r) <= multiset(rs)
  {
    if rs == [] then []
    else
      var rest := Window(rs[1..], fid, since);
      assert rs == [rs[0]] + rs[1..];
      if rs[0].facilityId == fid && rs[0].updatedAt >= since then [rs[0]] + rest else rest
  }

  /** `ORDER BY updated_at ASC`. */
  predicate UpdatedLe(a: Report, b: Report) {
    a.updatedAt <= b.updatedAt
  }

  lemma UpdatedLeTotalPreorder()
    ensures TotalPreorder(UpdatedLe)
  {
  }

  /**
   * The facility's reports updated at or after `since`, oldest first: exactly the rows of the
   * window, each as often as in the table.
   */
  function HistoryReports(rs: seq<Report>, fid: int, since: int): (r: seq<Report>)
    ensures forall x :: x in r <==> x in rs && x.facilityId == fid && x.updatedAt >= since
    ensures multiset(r) <= multiset(rs)
    ensures forall i, j :: 0 <= i < j < |r| ==> r[i].updatedAt <= r[j].updatedAt
  {
    var w := Window(rs, fid, since);
    UpdatedLeTotalPreorder();
    SortBySorted(w, UpdatedLe);
    SortByMembers(w, UpdatedLe);
    SortBy(w, UpdatedLe)
  }

  /**
   * `dashboard_history`: 400 without a non-zero facility_id, then 400 for a non-positive window
   * (an unusable `days` reads as the default 7), then 404 for an unknown facility; then the
   * facility's reports of the last `days` days, oldest first. A window reaching before year 1
   * makes the date arithmetic raise.
   */
  function DashboardHistory(t: Tables, args: Args, now: int): (r: Reply<History>)
    ensures r.Fail? ==> r.status in {400, 404, 500}
    ensures r.Ok? ==>
      && r.status == 200 && r.body.facility in t.facilities && r.body.days >= 1
      && ArgInt(args, "facility_id", None) == Some(r.body.facility.id)
      && ArgInt(args, "days", Some(7)) == Some(r.body.days)
  {
    var fid := ArgInt(args, "facility_id", None);
    var days := ArgInt(args, "days", Some(7));
    if fid.None? || fid.value == 0 then Fail(400, Error("facility_id is required."))
    else if days.None? || days.value <= 0 then Fail(400, Error("days must be a positive integer."))
    else match FindFacility(t.facilities, fid.value)
      case None => Fail(404, Error("Facility not found."))
      case Some(f) =>
        var since := now - days.value * SecondsPerDay;
        if since < MinTimestamp then Unexpected()
        else Ok(200, History(f, days.value, HistoryReports(t.reports, fid.value, since)))
  }

  /** The checks run in the order facility_id, days, facility; each failure stops there. */
  lemma HistoryCheckOrder(t: Tables, args: Args, now: int)
    ensures var fid := ArgInt(args, "facility_id", None);
      fid.None? || fid == Some(0) ==> DashboardHistory(t, args, now).status == 400
    ensures var fid := ArgInt(args, "facility_id", None);
      var days := ArgInt(args, "days", Some(7));
      fid.Some? && fid.value != 0 && days.Some? && days.value <= 0 ==>
        DashboardHistory(t, args, now) == Fail(400, Error("days must be a positive integer."))
    ensures DashboardHistory(t, args, now).status == 404 ==>
      var fid := ArgInt(args, "facility_id", None);
      var days := ArgInt(args, "days", Some(7));
      fid.Some? && fid.value != 0 && days.Some? && days.value > 0 && FindFacility(t.facilities, fid.value).None?
    ensures "days" !in args ==> ArgInt(args, "days", Some(7)) == Some(7)
  {
  }

  /** A successful history is the facility the query names, its window, and the reports in it. */
  lemma HistoryBody(t: Tables, args: Args, now: int)
    requires DashboardHistory(t, args, now).Ok?
    ensures var fid := ArgInt(args, "facility_id", None);
      var days := ArgInt(args, "days", Some(7));
      && fid.Some? && days.Some? && days.value > 0 && FindFacility(t.facilities, fid.value).Some?
      && DashboardHistory(t, args, now).body ==
           History(FindFacility(t.facilities, fid.value).value, days.value,
                   HistoryReports(t.reports, fid.value, now - days.value * SecondsPerDay))
  {
  }

  /**
   * A successful history holds exactly the facility's reports updated in the last `days` days,
   * each as often as in the table, sorted oldest first.
   */
  lemma HistoryWindowSorted(t: Tables, args: Args, now: int)
    requires DashboardHistory(t, args, now).Ok?
    ensures var h := DashboardHistory(t, args, now).body;
      var since := now - h.days * SecondsPerDay;
      && h.days > 0
      && (forall x :: x in h.reports <==> x in t.reports && x.facilityId == h.facility.id && x.updatedAt >= since)
      && multiset(h.reports) <= multiset(t.reports)
      && (forall i, j :: 0 <= i < j < |h.reports| ==> h.reports[i].updatedAt <= h.reports[j].updatedAt)
  {
    HistoryBody(t, args, now);
  }
}
