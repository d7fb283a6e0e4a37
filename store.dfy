/** The request handlers of the service over an in-memory store that stands in for the
    database context: installations keyed by their identity, reports in insertion order,
    and the next identity value of each table. */
module PvService {
  import opened PvTypes
  import opened PvRules

  /** The installations map after `id` has been deactivated. */
  function Deactivated(installations: map<int, Installation>, id: int): (r: map<int, Installation>)
    requires id in installations
    ensures r.Keys == installations.Keys
    ensures !r[id].isActive && r[id] == installations[id].(isActive := false)
    ensures forall k | k in installations && k != id :: r[k] == installations[k]
  {
    installations[id := installations[id].(isActive := false)]
  }

  /** Deactivating an installation that is already inactive changes nothing. */
  lemma DeactivateIdempotent(installations: map<int, Installation>, id: int)
    requires id in installations
    ensures Deactivated(Deactivated(installations, id), id) == Deactivated(installations, id)
  {
  }

  /** The installation a valid request creates. */
  function NewInstallation(request: AddInstallationRequest): Installation {
    Installation(request.longitude, request.latitude, request.address, request.ownerName,
                 true, request.comments)
  }

  /** The report a valid request stores. */
  function NewReport(id: nat, request: AddReportRequest, timestamp: Ticks, installationId: int): Report {
    Report(id, timestamp, request.producedWattage, request.householdWattage,
           request.batteryWattage, request.gridWattage, installationId)
  }

  predicate NonNegative(r: Report) {
    r.producedWattage >= 0.0 && r.householdWattage >= 0.0 &&
    r.batteryWattage >= 0.0 && r.gridWattage >= 0.0
  }

  /** The lifted comparisons `duration < 0` and `page < 0` of `int?`: false on null. */
  predicate NegativeDuration(duration: Option<Int32>) {
    duration.Some? && duration.value < 0
  }

  predicate NegativePage(page: Option<Int32>) {
    page.Some? && page.value < 0
  }

  /** `producedWattageSum * duration`: the sum scaled by the duration in minutes. */
  function Scaled(sum: real, duration: Int32): real {
    sum * duration as real
  }

  lemma ScaledNonNegative(sum: real, duration: Int32)
    requires sum >= 0.0 && duration >= 0
    ensures Scaled(sum, duration) >= 0.0
  {
  }

  /** Wattages are non-negative when stored, so every sum over a query is as well. */
  lemma FilteredSumNonNegative(reports: seq<Report>, id: int, w: Window)
    requires forall i | 0 <= i < |reports| :: NonNegative(reports[i])
    ensures SumProduced(Filter(reports, id, w)) >= 0.0
  {
    var selected := Filter(reports, id, w);
    forall i | 0 <= i < |selected| ensures selected[i].producedWattage >= 0.0 {
      FilterMembership(reports, id, w, selected[i]);
    }
    SumNonNegative(selected);
  }

  /** The `ForEach` that accumulates the produced wattage of the selected reports. */
  method SumOf(selected: seq<Report>) returns (sum: real)
    ensures sum == SumProduced(selected)
  {
    sum := 0.0;
    for i := 0 to |selected|
      invariant sum == SumProduced(selected[..i])
    {
      assert selected[..i + 1][..i] == selected[..i];
      sum := sum + selected[i].producedWattage;
    }
    assert selected[..|selected|] == selected;
  }

  /** The `ForEach` that maps the selected reports to timeline records, in order. */
  method ToRecords(selected: seq<Report>) returns (records: seq<TimelineRecord>)
    ensures |records| == |selected|
    ensures forall k | 0 <= k < |selected| :: records[k] == ToRecord(selected[k])
  {
    records := [];
    for i := 0 to |selected|
      invariant |records| == i
      invariant forall k | 0 <= k < i :: records[k] == ToRecord(selected[k])
    {
      records := records + [ToRecord(selected[i])];
    }
  }

  class Store {
    var installations: map<int, Installation>
    var reports: seq<Report>
    var nextInstallationId: nat
    var nextReportId: nat

    /** Identities are positive and below the next identity value; report identities
        increase in store order; every report refers to a stored installation and
        carried non-negative wattages when it was written. */
    ghost predicate Valid()
      reads this
    {
      && 1 <= nextInstallationId
      && 1 <= nextReportId
      && (forall k | k in installations :: 1 <= k < nextInstallationId)
      && (forall i | 0 <= i < |reports| ::
            && 1 <= reports[i].id < nextReportId
            && reports[i].installationId in installations
            && NonNegative(reports[i]))
      && (forall i, j | 0 <= i < j < |reports| :: reports[i].id < reports[j].id)
    }

    /** The reports a query with these parameters selects (none when its bound throws). */
    ghost function Matching(id: int, start: Option<Ticks>, duration: Option<Int32>): seq<Report>
      reads this
    {
      if WindowOf(start, duration).Value? then Filter(reports, id, WindowOf(start, duration).value) else []
    }

    /** The timeline request passes the installation, duration and page checks. */
    ghost predicate Admitted(id: int, duration: Option<Int32>, page: Option<Int32>)
      reads this
    {
      id in installations && !NegativeDuration(duration) && !NegativePage(page)
    }

    constructor ()
      ensures Valid()
      ensures installations == map[] && reports == []
      ensures nextInstallationId == 1 && nextReportId == 1
    {
      installations, reports := map[], [];
      nextInstallationId, nextReportId := 1, 1;
    }

    /** `POST /installations`. */
    method AddInstallation(request: AddInstallationRequest) returns (r: Response<()>)
      requires Valid()
      modifies this
      ensures Valid()
      ensures reports == old(reports) && nextReportId == old(nextReportId)
      ensures ValidateInstallation(request).Some? ==>
        r == BadRequest(ValidateInstallation(request).value) &&
        installations == old(installations) && nextInstallationId == old(nextInstallationId)
      ensures ValidateInstallation(request).None? ==>
        && r == Created(old(nextInstallationId))
        && r.id !in old(installations)
        && installations == old(installations)[r.id := NewInstallation(request)]
        && nextInstallationId == old(nextInstallationId) + 1
    {
      var failure := ValidateInstallation(request);
      if failure.Some? {
        return BadRequest(failure.value);
      }
      var id := nextInstallationId;
      installations := installations[id := NewInstallation(request)];
      nextInstallationId := nextInstallationId + 1;
      r := Created(id);
    }

    /** `POST /installations/{id}/deactivate`. */
    method Deactivate(id: Int32) returns (r: Response<()>)
      requires Valid()
      modifies this
      ensures Valid()
      ensures reports == old(reports)
      ensures nextInstallationId == old(nextInstallationId) && nextReportId == old(nextReportId)
      ensures id !in old(installations) ==> r == NotFound && installations == old(installations)
      ensures id in old(installations) ==>
        r == Ok(()) && installations == Deactivated(old(installations), id)
    {
      if id !in installations {
        return NotFound;
      }
      installations := Deactivated(installations, id);
      r := Ok(());
    }

    /** `POST /installations/{id}/reports`; `now` is the server clock (`DateTime.UtcNow`). */
    method AddReport(id: Int32, request: AddReportRequest, now: Ticks) returns (r: Response<()>)
      requires Valid()
      modifies this
      ensures Valid()
      ensures installations == old(installations) && nextInstallationId == old(nextInstallationId)
      ensures id !in installations ==>
        r == NotFound && reports == old(reports) && nextReportId == old(nextReportId)
      ensures id in installations && ValidateReport(request).Some? ==>
        r == BadRequest(ValidateReport(request).value) &&
        reports == old(reports) && nextReportId == old(nextReportId)
      ensures id in installations && ValidateReport(request).None? ==>
        && r == Created(old(nextReportId))
        && reports == old(reports) + [NewReport(r.id, request, TruncateToMinute(now), id)]
        && nextReportId == old(nextReportId) + 1
    {
      if id !in installations {
        return NotFound;
      }
      var failure := ValidateReport(request);
      if failure.Some? {
        return BadRequest(failure.value);
      }
      var reportId := nextReportId;
      reports := reports + [NewReport(reportId, request, TruncateToMinute(now), id)];
      nextReportId := nextReportId + 1;
      r := Created(reportId);
    }

    /** `GET /installations/{id}/reports`: the produced wattage in the window, times `duration`. */
    method ProducedWattage(id: Int32, timestamp: Option<Ticks>, duration: Option<Int32>)
      returns (r: Response<Option<real>>)
      requires Valid()
      ensures id !in installations ==> r == NotFound
      ensures id in installations && NegativeDuration(duration) ==> r == BadRequest(Duration)
      ensures id in installations && !NegativeDuration(duration) && WindowOf(timestamp, duration).Throws? ==>
        r == ServerError(WindowOf(timestamp, duration).fault)
      ensures id in installations && !NegativeDuration(duration) && WindowOf(timestamp, duration).Value? ==>
        && r.Ok?
        && (duration.None? ==> r.body == None)
        && (duration.Some? ==> r.body == Some(Scaled(SumProduced(Matching(id, timestamp, duration)), duration.value)))
      ensures r.Ok? && r.body.Some? ==> r.body.value >= 0.0
    {
      if id !in installations {
        return NotFound;
      }
      if duration.Some? && duration.value < 0 {
        return BadRequest(Duration);
      }
      var window := WindowOf(timestamp, duration);
      if window.Throws? {
        return ServerError(window.fault);
      }
      var sum := SumOf(Filter(reports, id, window.value));
      FilteredSumNonNegative(reports, id, window.value);
      if duration.None? {
        return Ok(None);
      }
      ScaledNonNegative(sum, duration.value);
      r := Ok(Some(Scaled(sum, duration.value)));
    }

    /** `GET /installations/{id}/timeline`. */
    method Timeline(id: Int32, startTimestamp: Option<Ticks>, duration: Option<Int32>, page: Option<Int32>)
      returns (r: Response<Timeline>)
      requires Valid()
      ensures id !in installations ==> r == NotFound
      ensures id in installations && NegativeDuration(duration) ==> r == BadRequest(Duration)
      ensures id in installations && !NegativeDuration(duration) && NegativePage(page) ==>
        r == BadRequest(Page)
      ensures Admitted(id, duration, page) && WindowOf(startTimestamp, duration).Throws? ==>
        r == ServerError(WindowOf(startTimestamp, duration).fault)
      ensures Admitted(id, duration, page) && WindowOf(startTimestamp, duration).Value? ==>
        && (Matching(id, startTimestamp, duration) == [] ==> r == Ok(Single(ZeroRecord)))
        && (Matching(id, startTimestamp, duration) != [] && page.None? ==> r == ServerError(MissingValue))
      ensures Admitted(id, duration, page) && WindowOf(startTimestamp, duration).Value? &&
              Matching(id, startTimestamp, duration) != [] && page.Some? ==>
        && r.Ok? && r.body.Many?
        && (|Matching(id, startTimestamp, duration)| < Skip32(page.value) ==> r.body.records == [])
        && (|Matching(id, startTimestamp, duration)| >= Skip32(page.value) ==>
              && |r.body.records| == |Matching(id, startTimestamp, duration)|
              && forall k | 0 <= k < |r.body.records| ::
                   r.body.records[k] == ToRecord(Matching(id, startTimestamp, duration)[k]))
    {
      if id !in installations {
        return NotFound;
      }
      if duration.Some? && duration.value < 0 {
        return BadRequest(Duration);
      }
      if page.Some? && page.value < 0 {
        return BadRequest(Page);
      }
      var window := WindowOf(startTimestamp, duration);
      if window.Throws? {
        return ServerError(window.fault);
      }
      var selected := Filter(reports, id, window.value);
      if |selected| == 0 {
        return Ok(Single(ZeroRecord));
      }
      var records := ToRecords(selected);
      if page.None? {
        return ServerError(MissingValue);
      }
      records := PageAsWritten(records, page.value);
      r := Ok(Many(records));
    }
  }

  /** The reports of the scenario below, as the store keeps them. */
  function ScenarioReports(): seq<Report> {
    [ NewReport(1, AddReportRequest(10.0, 4.0, 0.0, 6.0), 10 * TicksPerMinute, 1),
      NewReport(2, AddReportRequest(20.0, 5.0, 15.0, 0.0), 12 * TicksPerMinute + 9_999, 1),
      NewReport(3, AddReportRequest(30.0, 10.0, 0.0, 20.0), 20 * TicksPerMinute, 1) ]
  }

  /** A client of the store: one installation registered in an empty store gets identity 1. */
  method InstallationStore() returns (store: Store)
    ensures fresh(store) && store.Valid()
    ensures store.installations.Keys == {1} && store.reports == [] && store.nextReportId == 1
  {
    store := new Store();
    var created := store.AddInstallation(AddInstallationRequest(14.3, 48.3, "Limesstrasse 12", "J. Doe", None));
    assert created == Created(1);
  }

  /** The first two scenario reports, submitted at minutes 10 and 12. */
  method TwoReportStore() returns (store: Store)
    ensures fresh(store) && store.Valid()
    ensures store.installations.Keys == {1} && store.reports == ScenarioReports()[..2]
    ensures store.nextReportId == 3
  {
    store := InstallationStore();
    ghost var expected := ScenarioReports();
    TruncateClosedForm(10 * TicksPerMinute + 7 * TicksPerSecond);
    var first := store.AddReport(1, AddReportRequest(10.0, 4.0, 0.0, 6.0), 10 * TicksPerMinute + 7 * TicksPerSecond);
    assert store.reports == expected[..1];
    TruncateClosedForm(12 * TicksPerMinute + 59_999);
    var second := store.AddReport(1, AddReportRequest(20.0, 5.0, 15.0, 0.0), 12 * TicksPerMinute + 59_999);
    assert store.reports == expected[..2];
  }

  /** The scenario store: one installation and three reports of 10, 20 and 30 W submitted
      at minutes 10, 12 and 20. */
  method ScenarioStore() returns (store: Store)
    ensures fresh(store) && store.Valid()
    ensures store.installations.Keys == {1} && store.reports == ScenarioReports()
  {
    store := TwoReportStore();
    TruncateClosedForm(20 * TicksPerMinute);
    var third := store.AddReport(1, AddReportRequest(30.0, 10.0, 0.0, 20.0), 20 * TicksPerMinute);
    assert store.reports == ScenarioReports()[..2] + [ScenarioReports()[2]];
  }

  /** The aggregate over minutes 10 to 20 is (10 + 20 + 30) W times 10. */
  method AggregateScenario() {
    var store := ScenarioStore();
    ghost var rs := ScenarioReports();
    ghost var w := Window(Some(10 * TicksPerMinute), Some(20 * TicksPerMinute));
    assert WindowOf(Some(10 * TicksPerMinute), Some(10)) == Value(w);
    SumFilterAppend([], rs[0], 1, w);
    SumFilterAppend(rs[..1], rs[1], 1, w);
    SumFilterAppend(rs[..2], rs[2], 1, w);
    assert [] + [rs[0]] == rs[..1] && rs[..1] + [rs[1]] == rs[..2] && rs[..2] + [rs[2]] == rs;
    var total := store.ProducedWattage(1, Some(10 * TicksPerMinute), Some(10));
    assert total == Ok(Some(600.0));
    var unscaled := store.ProducedWattage(1, None, None);
    assert unscaled == Ok(None);
    var unanchored := store.ProducedWattage(1, None, Some(10));
    assert unanchored == ServerError(MissingValue);
  }

  /** A window after the last report gives the lone zero record. */
  method EmptyTimelineScenario() {
    var store := ScenarioStore();
    ghost var rs := ScenarioReports();
    ghost var late := Window(Some(21 * TicksPerMinute), None);
    assert WindowOf(Some(21 * TicksPerMinute), None) == Value(late);
    FilterAppend(rs[..2], rs[2..], 1, late);
    FilterAppend(rs[..1], rs[1..2], 1, late);
    FilterSingle(rs[0], 1, late);
    FilterSingle(rs[1], 1, late);
    FilterSingle(rs[2], 1, late);
    assert rs[..1] == [rs[0]] && rs[1..2] == [rs[1]] && rs[2..] == [rs[2]];
    assert rs[..1] + rs[1..2] == rs[..2] && rs[..2] + rs[2..] == rs;
    var empty := store.Timeline(1, Some(21 * TicksPerMinute), None, None);
    assert empty == Ok(Single(ZeroRecord));
  }

  /** Timeline pages over every report: page 1 holds all three records, page 2 is empty,
      and a missing page is a fault once reports match. */
  method PagedTimelineScenario() {
    var store := ScenarioStore();
    ghost var rs := ScenarioReports();
    assert rs[..1] == [rs[0]] && rs[1..2] == [rs[1]] && rs[2..] == [rs[2]];
    assert rs[..1] + rs[1..2] == rs[..2] && rs[..2] + rs[2..] == rs;
    ghost var all := Window(None, None);
    assert WindowOf(None, None) == Value(all);
    FilterAppend(rs[..2], rs[2..], 1, all);
    FilterAppend(rs[..1], rs[1..2], 1, all);
    FilterSingle(rs[0], 1, all);
    FilterSingle(rs[1], 1, all);
    FilterSingle(rs[2], 1, all);
    var firstPage := store.Timeline(1, None, None, Some(1));
    assert firstPage.Ok? && |firstPage.body.records| == 3;
    var secondPage := store.Timeline(1, None, None, Some(2));
    assert secondPage == Ok(Many([]));
    var unpaged := store.Timeline(1, None, None, None);
    assert unpaged == ServerError(MissingValue);
  }

  /** Deactivating twice answers Ok both times and leaves the installation inactive. */
  method DeactivateScenario() {
    var store := ScenarioStore();
    var once := store.Deactivate(1);
    var twice := store.Deactivate(1);
    assert once == twice == Ok(());
    assert !store.installations[1].isActive;
    var unknown := store.Deactivate(7);
    assert unknown == NotFound;
  }

  /** Rejected reports: an unknown installation, then negative wattages; nothing is stored. */
  method RejectionScenario() {
    var store := ScenarioStore();
    var missing := store.AddReport(2, AddReportRequest(1.0, 1.0, 1.0, 1.0), 0);
    assert missing == NotFound;
    var negative := store.AddReport(1, AddReportRequest(1.0, -1.0, -1.0, 1.0), 0);
    assert negative == BadRequest(HouseholdWattage);
    assert store.reports == ScenarioReports();
  }

  /** Boundary coordinates are accepted; a latitude just past the pole is not. */
  method BoundaryScenario() {
    var store := new Store();
    var south := store.AddInstallation(AddInstallationRequest(180.0, -90.5, "", "", Some("")));
    assert south == BadRequest(Latitude);
    var edge := store.AddInstallation(AddInstallationRequest(-180.0, 90.0, "", "", None));
    assert edge == Created(1) && store.installations[1].isActive;
  }
}
