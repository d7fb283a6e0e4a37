/** The pure parts of the request handlers: validation guards, timestamp truncation,
    the query window, the report filter, the wattage sum and the page arithmetic. */
module PvRules {
  import opened PvTypes

  // ---------------------------------------------------------------------------
  // Validation: a fixed order of checks, the first failing one is reported.

  /** The first field of `order` that `valid` rejects, if any. */
  function FirstInvalid(order: seq<Field>, valid: Field -> bool): (r: Option<Field>)
    ensures r.None? <==> forall i | 0 <= i < |order| :: valid(order[i])
    ensures r.Some? ==> exists i | 0 <= i < |order| ::
      order[i] == r.value && !valid(order[i]) && forall j | 0 <= j < i :: valid(order[j])
  {
    if order == [] then None
    else if !valid(order[0]) then Some(order[0])
    else
      var rest := FirstInvalid(order[1..], valid);
      assert forall i | 1 <= i < |order| :: order[i] == order[1..][i - 1];
      rest
  }

  /** The declared domain of each field of a new installation. */
  predicate InstallationFieldValid(request: AddInstallationRequest, f: Field) {
    match f
    case Longitude => -180.0 <= request.longitude <= 180.0
    case Latitude => -90.0 <= request.latitude <= 90.0
    case Address => |request.address| <= 1024
    case OwnerName => |request.ownerName| <= 512
    case Comments => request.comments.None? || |request.comments.value| <= 1024
    case _ => true
  }

  const InstallationCheckOrder: seq<Field> := [Longitude, Latitude, Address, OwnerName, Comments]

  /** The guards of the installation handler, in the handler's order. */
  function ValidateInstallation(request: AddInstallationRequest): (r: Option<Field>)
    ensures r.Some? ==> r.value in InstallationCheckOrder && !InstallationFieldValid(request, r.value)
    ensures r.None? <==> forall f | f in InstallationCheckOrder :: InstallationFieldValid(request, f)
  {
    if request.longitude < -180.0 || request.longitude > 180.0 then Some(Longitude)
    else if request.latitude < -90.0 || request.latitude > 90.0 then Some(Latitude)
    else if |request.address| > 1024 then Some(Address)
    else if |request.ownerName| > 512 then Some(OwnerName)
    else if request.comments != None && |request.comments.value| > 1024 then Some(Comments)
    else None
  }

  /** The handler reports the first field, in check order, outside its declared domain. */
  lemma ValidateInstallationFirstInvalid(request: AddInstallationRequest)
    ensures ValidateInstallation(request)
         == FirstInvalid(InstallationCheckOrder, f => InstallationFieldValid(request, f))
  {
  }

  /** The declared domain of each wattage of a new report. */
  predicate ReportFieldValid(request: AddReportRequest, f: Field) {
    match f
    case ProducedWattage => request.producedWattage >= 0.0
    case HouseholdWattage => request.householdWattage >= 0.0
    case BatteryWattage => request.batteryWattage >= 0.0
    case GridWattage => request.gridWattage >= 0.0
    case _ => true
  }

  const ReportCheckOrder: seq<Field> := [ProducedWattage, HouseholdWattage, BatteryWattage, GridWattage]

  /** The guards of the report handler, in the handler's order. */
  function ValidateReport(request: AddReportRequest): (r: Option<Field>)
    ensures r.Some? ==> r.value in ReportCheckOrder && !ReportFieldValid(request, r.value)
    ensures r.None? <==> forall f | f in ReportCheckOrder :: ReportFieldValid(request, f)
  {
    if request.producedWattage < 0.0 then Some(ProducedWattage)
    else if request.householdWattage < 0.0 then Some(HouseholdWattage)
    else if request.batteryWattage < 0.0 then Some(BatteryWattage)
    else if request.gridWattage < 0.0 then Some(GridWattage)
    else None
  }

  /** The handler reports the first negative wattage in check order. */
  lemma ValidateReportFirstInvalid(request: AddReportRequest)
    ensures ValidateReport(request) == FirstInvalid(ReportCheckOrder, f => ReportFieldValid(request, f))
  {
  }

  // ---------------------------------------------------------------------------
  // Time.

  /** `DateTime.Second` and `DateTime.Millisecond`. */
  function Second(t: Ticks): (s: int)
    ensures 0 <= s < 60
  {
    (t / TicksPerSecond) % 60
  }

  function Millisecond(t: Ticks): (ms: int)
    ensures 0 <= ms < 1000
  {
    (t / TicksPerMillisecond) % 1000
  }

  lemma DivModUnique(t: int, d: int, q: int, m: int)
    requires d > 0 && 0 <= m < d && t == q * d + m
    ensures t / d == q && t % d == m
  {
    var q', m' := t / d, t % d;
    var k := q - q';
    assert k * d == m' - m by {
      assert q * d - q' * d == (q - q') * d;
    }
  }

  /** A tick count splits into minutes, seconds, milliseconds and sub-millisecond ticks. */
  lemma {:induction false} TickComponents(t: Ticks)
    ensures Second(t) == (t % TicksPerMinute) / TicksPerSecond
    ensures Millisecond(t) == (t % TicksPerSecond) / TicksPerMillisecond
    ensures t == (t / TicksPerMinute) * TicksPerMinute + Second(t) * TicksPerSecond
               + Millisecond(t) * TicksPerMillisecond + t % TicksPerMillisecond
  {
    var m, rest := t / TicksPerMinute, t % TicksPerMinute;
    var s, rest2 := rest / TicksPerSecond, rest % TicksPerSecond;
    var ms, sub := rest2 / TicksPerMillisecond, rest2 % TicksPerMillisecond;
    assert t == m * TicksPerMinute + rest;
    assert rest == s * TicksPerSecond + rest2;
    assert rest2 == ms * TicksPerMillisecond + sub;
    DivModUnique(t, TicksPerSecond, m * 60 + s, rest2);
    DivModUnique(m * 60 + s, 60, m, s);
    DivModUnique(t, TicksPerMillisecond, m * 60_000 + s * 1000 + ms, sub);
    DivModUnique(m * 60_000 + s * 1000 + ms, 1000, m * 60 + s, ms);
    DivModUnique(t, TicksPerSecond, t / TicksPerSecond, rest2);
  }

  /** The server timestamp of a new report: `now` minus its seconds and milliseconds. */
  function TruncateToMinute(now: Ticks): (ts: Ticks)
    ensures Second(ts) == 0 && Millisecond(ts) == 0
    ensures ts <= now && now - ts < TicksPerMinute
    ensures ts / TicksPerMinute == now / TicksPerMinute
    ensures ts % TicksPerMillisecond == now % TicksPerMillisecond
  {
    TickComponents(now);
    var ts := now - Second(now) * TicksPerSecond - Millisecond(now) * TicksPerMillisecond;
    var m, sub := now / TicksPerMinute, now % TicksPerMillisecond;
    assert ts == m * TicksPerMinute + sub;
    DivModUnique(ts, TicksPerMinute, m, sub);
    DivModUnique(ts, TicksPerSecond, m * 60, sub);
    DivModUnique(m * 60, 60, m, 0);
    DivModUnique(ts, TicksPerMillisecond, m * 60_000, sub);
    DivModUnique(m * 60_000, 1000, m * 60, 0);
    ts
  }

  /** The stored timestamp is the start of the minute plus the sub-millisecond ticks of `now`. */
  lemma TruncateClosedForm(now: Ticks)
    ensures TruncateToMinute(now) == now - now % TicksPerMinute + now % TicksPerMillisecond
  {
    TickComponents(now);
    assert now % TicksPerMinute == now - (now / TicksPerMinute) * TicksPerMinute;
  }

  /** When the clock has millisecond resolution the stored timestamp is a whole minute. */
  lemma TruncateWholeMinute(now: Ticks)
    requires now % TicksPerMillisecond == 0
    ensures TruncateToMinute(now) % TicksPerMinute == 0
    ensures TruncateToMinute(now) == now - now % TicksPerMinute
  {
    TruncateClosedForm(now);
    DivModUnique(TruncateToMinute(now), TicksPerMinute, now / TicksPerMinute, 0);
  }

  // ---------------------------------------------------------------------------
  // The query window.

  /** Lower and upper bounds of a report query, both inclusive when present. */
  datatype Window = Window(from: Option<Ticks>, until: Option<int>) {
    predicate Contains(t: int) {
      (from.None? || t >= from.value) && (until.None? || t <= until.value)
    }
  }

  /** The bounds of a query with optional start and duration (minutes). The upper bound is
      evaluated once, before any row is read, and throws when the start is missing or the
      bound lies past the last representable date. */
  function WindowOf(start: Option<Ticks>, duration: Option<Int32>): (r: Checked<Window>)
    ensures r.Throws? <==>
      duration.Some? && (start.None? || !(0 <= start.value + duration.value * TicksPerMinute <= MaxTicks))
    ensures r.Throws? ==> (r.fault == MissingValue <==> start.None?)
    ensures r.Value? ==> forall t: int {:trigger r.value.Contains(t)} ::
      r.value.Contains(t) <==>
        (start.None? || t >= start.value) &&
        (duration.None? || t <= start.value + duration.value * TicksPerMinute)
  {
    if duration.None? then Value(Window(start, None))
    else if start.None? then Throws(MissingValue)
    else
      var until := start.value + duration.value * TicksPerMinute;
      if 0 <= until <= MaxTicks then Value(Window(start, Some(until))) else Throws(DateOutOfRange)
  }

  /** The three `Where` predicates of a report query. */
  predicate Selected(r: Report, id: int, w: Window) {
    r.installationId == id && w.Contains(r.timestamp)
  }

  /** The reports a query returns, in store order. */
  function Filter(reports: seq<Report>, id: int, w: Window): (r: seq<Report>)
    ensures |r| <= |reports|
    ensures forall k | 0 <= k < |r| :: Selected(r[k], id, w)
  {
    if reports == [] then []
    else (if Selected(reports[0], id, w) then [reports[0]] else []) + Filter(reports[1..], id, w)
  }

  /** A report is returned iff it is stored and satisfies the predicates. */
  lemma {:induction false} FilterMembership(reports: seq<Report>, id: int, w: Window, r: Report)
    ensures r in Filter(reports, id, w) <==> r in reports && Selected(r, id, w)
  {
    if reports != [] {
      FilterMembership(reports[1..], id, w, r);
      assert reports == [reports[0]] + reports[1..];
    }
  }

  /** Filtering keeps the store order: it distributes over concatenation. */
  lemma {:induction false} FilterAppend(a: seq<Report>, b: seq<Report>, id: int, w: Window)
    ensures Filter(a + b, id, w) == Filter(a, id, w) + Filter(b, id, w)
  {
    if a == [] {
      assert a + b == b;
    } else {
      assert (a + b)[1..] == a[1..] + b;
      FilterAppend(a[1..], b, id, w);
    }
  }

  lemma FilterSingle(r: Report, id: int, w: Window)
    ensures Filter([r], id, w) == if Selected(r, id, w) then [r] else []
  {
    assert [r][1..] == [];
  }

  // ---------------------------------------------------------------------------
  // Sum of produced wattage.

  /** Sum of `ProducedWattage`, accumulated left to right. */
  function SumProduced(reports: seq<Report>): real {
    if reports == [] then 0.0
    else SumProduced(reports[..|reports| - 1]) + reports[|reports| - 1].producedWattage
  }

  lemma {:induction false} SumAppend(a: seq<Report>, b: seq<Report>)
    ensures SumProduced(a + b) == SumProduced(a) + SumProduced(b)
  {
    if b == [] {
      assert a + b == a;
    } else {
      assert (a + b)[..|a + b| - 1] == a + b[..|b| - 1];
      SumAppend(a, b[..|b| - 1]);
    }
  }

  lemma {:induction false} SumNonNegative(reports: seq<Report>)
    requires forall i | 0 <= i < |reports| :: reports[i].producedWattage >= 0.0
    ensures SumProduced(reports) >= 0.0
  {
    if reports != [] {
      SumNonNegative(reports[..|reports| - 1]);
    }
  }

  /** A stored report contributes its produced wattage to exactly the windows it lies in. */
  lemma SumFilterAppend(reports: seq<Report>, r: Report, id: int, w: Window)
    ensures SumProduced(Filter(reports + [r], id, w))
         == SumProduced(Filter(reports, id, w)) + (if Selected(r, id, w) then r.producedWattage else 0.0)
  {
    FilterAppend(reports, [r], id, w);
    FilterSingle(r, id, w);
    SumAppend(Filter(reports, id, w), Filter([r], id, w));
    assert SumProduced([r]) == r.producedWattage by {
      assert [r][..0] == [];
    }
  }

  // ---------------------------------------------------------------------------
  // Timeline mapping and page arithmetic.

  function ToRecord(r: Report): TimelineRecord {
    TimelineRecord(r.producedWattage, r.householdWattage, r.batteryWattage, r.gridWattage)
  }

  const ZeroRecord: TimelineRecord := TimelineRecord(0.0, 0.0, 0.0, 0.0)

  /** Two's-complement 32-bit wrap-around of C#'s unchecked `int` arithmetic. */
  function Wrap32(x: int): (r: Int32)
    ensures (r - x) % 0x1_0000_0000 == 0
    ensures -0x8000_0000 <= x < 0x8000_0000 ==> r == x
  {
    (x + 0x8000_0000) % 0x1_0000_0000 - 0x8000_0000
  }

  /** `pageSize * (page - 1)` as a C# `int`. */
  function Skip32(page: Int32): (skip: Int32)
    ensures (skip - PageSize * (page - 1)) % 0x1_0000_0000 == 0
    ensures -35791393 <= page <= 35791395 ==> skip == PageSize * (page - 1)
  {
    Wrap32(PageSize * (page - 1))
  }

  /** The paging step as written: the full list unless it is shorter than the skip. */
  function PageAsWritten<T>(list: seq<T>, page: Int32): (r: seq<T>)
    ensures r == [] || r == list
    ensures r == list <==> |list| >= Skip32(page) || list == []
  {
    if |list| < Skip32(page) then [] else list
  }

  /** Paging as evidently intended: `Skip(skip).Take(pageSize)`, with `skip` unbounded. */
  function Paginate<T>(list: seq<T>, page: int): (r: seq<T>)
    ensures |r| <= PageSize
    ensures page >= 1 ==> |r| == if |list| <= PageSize * (page - 1) then 0
                                  else Min(PageSize, |list| - PageSize * (page - 1))
    ensures page >= 1 ==> forall k | 0 <= k < |r| :: r[k] == list[PageSize * (page - 1) + k]
  {
    var skip := PageSize * (page - 1);
    if |list| < skip then []
    else
      var from := if skip < 0 then 0 else skip;
      list[from..Min(from + PageSize, |list|)]
  }

  function Min(a: int, b: int): int { if a <= b then a else b }

  /** Pages 1 to `n`, concatenated. */
  function FirstPages<T>(list: seq<T>, n: nat): seq<T> {
    if n == 0 then [] else FirstPages(list, n - 1) + Paginate(list, n)
  }

  /** The corrected pages tile the list: the first `n` pages are its first `n * PageSize` records. */
  lemma {:induction false} PagesTile<T>(list: seq<T>, n: nat)
    ensures FirstPages(list, n) == list[..Min(n * PageSize, |list|)]
  {
    if n > 0 {
      PagesTile(list, n - 1);
      var lo, hi := Min((n - 1) * PageSize, |list|), Min(n * PageSize, |list|);
      var page := Paginate(list, n);
      assert page == list[lo..hi];
      assert list[..lo] + list[lo..hi] == list[..hi];
    }
  }

  /** The page step as written returns every record on page 1, however many there are. */
  lemma PageAsWrittenIgnoresPageSize(r: TimelineRecord)
    ensures |PageAsWritten(seq(PageSize + 1, _ => r), 1)| == PageSize + 1
    ensures |Paginate(seq(PageSize + 1, _ => r), 1)| == PageSize
  {
  }

  /** The 32-bit skip wraps to a negative number past page 35791395, so a far page
      returns the whole list again where the page just before it is empty. */
  lemma SkipOverflow(r: TimelineRecord)
    ensures PageAsWritten([r], 35_791_395) == []
    ensures PageAsWritten([r], 35_791_396) == [r]
    ensures Paginate([r], 35_791_396) == []
  {
    assert Skip32(35_791_396) < 0;
  }
}
