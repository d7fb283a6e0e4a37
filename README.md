# Photovoltaic installations service: a Dafny model of its request handlers

The service registers solar (PV) installations, deactivates them, accepts production
reports, and answers two queries: the produced wattage in a time window multiplied by the
window length, and a page of the report timeline. This project models its five handlers in
`Program.cs` and proves what each one answers and how each one changes the store.

Layout:

- `types.dfy` (module `PvTypes`) holds the entities `Installation` and `Report`. It also holds
  the request records, the timeline record and the `Response` datatype. A response is one of
  `Created(id)`, `Ok(body)`, `NotFound`, `BadRequest(field)` or `ServerError(fault)`.
- `rules.dfy` (module `PvRules`) holds the pure parts of the handlers as functions, with lemmas
  about them. These are the validation guards, the timestamp truncation, the query window,
  the report filter, the wattage sum and the page arithmetic.
- `store.dfy` (module `PvService`) holds the class `Store`. It stands in for the database
  context and has one method per endpoint. The file ends with client methods
  (`AggregateScenario`, `EmptyTimelineScenario`, `PagedTimelineScenario`, `DeactivateScenario`, `RejectionScenario`,
  `BoundaryScenario`). They show that the contracts determine concrete answers. One example:
  reports of 10, 20 and 30 W inside a ten-minute window, queried with duration 10, give 600.

Representation choices:

- `DateTime` is a count of .NET ticks (100 ns), bounded by `DateTime.MaxValue`. `Second` and
  `Millisecond` are the `DateTime` components computed from the ticks. The clock
  (`DateTime.UtcNow`) is the `now` parameter of `Store.AddReport`.
- Wattages and coordinates are `real`. The route `id` and the query integers `duration` and
  `page` are `Int32`.
- Each table's identity column is a counter that starts at 1, as in the identity `(1, 1)` of
  the schema. An installation's identifier is its key in the store's map.
- An exception that the handler does not catch becomes `ServerError`. There are two kinds:
  - `MissingValue`: reading `.Value` of a null `DateTime?`, or casting a null `int?`;
  - `DateOutOfRange`: `AddMinutes` goes past `DateTime.MaxValue`.

Three behaviours of the handlers in `Program.cs` that are easy to misread:

- The report timestamp drops its seconds and its milliseconds, not only the sub-second part.
  So it is the start of the minute. The sub-millisecond ticks of the clock are kept.
  `TruncateToMinute` and `TruncateClosedForm` state this.
- A query with a duration but no start does not skip the window filter. The upper bound
  `timestamp.Value.AddMinutes(duration.Value)` is evaluated once, as a query parameter, and it
  throws. The answer is `ServerError(MissingValue)`, even when the installation has no reports.
- When the filtered set is empty, the timeline returns a lone record, not a list. The model
  keeps the two shapes apart: `Timeline.Single` and `Timeline.Many`. This empty check comes
  before the page is read. So a missing `page` is an error only when reports match.

## Model

| member | source | states |
|---|---|---|
| PvRules.FirstInvalid | Program.cs:11-15 | the result is None iff every field in the check order is valid; otherwise it is a field that fails and every field before it passes (first failure wins) |
| PvRules.ValidateInstallation | Program.cs:11-15 | the guards accept a request iff every field of the check order lies in its declared domain; a rejection names a field of that order that lies outside it |
| PvRules.ValidateInstallationFirstInvalid | Program.cs:11-15 | the installation guards report the first field, in the order longitude, latitude, address, owner name, comments, that leaves its domain ([-180,180], [-90,90], length <= 1024, length <= 512, absent or length <= 1024); boundary values pass |
| PvRules.ValidateReport | Program.cs:51-54 | the guards accept a report iff no wattage is negative; a rejection names a wattage that is negative |
| PvRules.ValidateReportFirstInvalid | Program.cs:51-54 | the report guards report the first negative wattage, in the order produced, household, battery, grid; zero passes |
| PvRules.Second | Program.cs:57 | `DateTime.Second` of a tick count lies in 0..59; `TickComponents` shows it is the whole seconds within the minute |
| PvRules.Millisecond | Program.cs:57 | `DateTime.Millisecond` of a tick count lies in 0..999; `TickComponents` shows it is the whole milliseconds within the second |
| PvRules.TruncateToMinute | Program.cs:56-57 | the stored timestamp has zero seconds and zero milliseconds, is at most now, is less than one minute before now, lies in the same minute, and keeps now's sub-millisecond ticks |
| PvRules.TruncateClosedForm | Program.cs:57 | the stored timestamp equals now minus (now mod one minute) plus (now mod one millisecond) |
| PvRules.TruncateWholeMinute | Program.cs:57 | for a clock of millisecond resolution the stored timestamp is a whole minute, now - now mod 60000 ms |
| PvRules.WindowOf | Program.cs:82-83 | the bound throws iff a duration is given and the start is missing (MissingValue) or the end lies outside the calendar (DateOutOfRange); otherwise a timestamp is inside iff it is >= the start (when given) and <= start + duration minutes (when duration is given) |
| PvRules.Selected | Program.cs:81-83 | the three `Where` predicates of a query; `FilterMembership` and `FilterSingle` state that a report is returned exactly when it satisfies them |
| PvRules.Filter | Program.cs:80-84 | every returned report satisfies the three predicates, and no more reports are returned than are stored |
| PvRules.FilterMembership | Program.cs:80-84 | a report is returned by the query iff it is stored, belongs to the installation and lies in the window |
| PvRules.FilterAppend | Program.cs:102-106 | the filter distributes over concatenation, so the query keeps the store order of the reports |
| PvRules.FilterSingle | Program.cs:81-83 | one report is kept iff it satisfies the three `Where` predicates |
| PvRules.SumProduced | Program.cs:86-87 | the left-to-right total of the produced wattage; `SumOf` proves the loop computes it, and `SumAppend` and `SumNonNegative` give its additivity and its sign |
| PvRules.SumAppend | Program.cs:86-87 | the accumulated produced wattage of two runs of reports is the sum of their totals |
| PvRules.SumNonNegative | Program.cs:86-87 | reports with non-negative produced wattage have a non-negative total |
| PvRules.SumFilterAppend | Program.cs:68-87 | appending a report changes a window's total by its produced wattage exactly when it is in that window, and otherwise not at all |
| PvRules.ToRecord | Program.cs:112 | one timeline record per report, carrying its four wattages; `ToRecords` and `Store.Timeline` state that the list keeps length and order |
| PvRules.Skip32 | Program.cs:115 | the 32-bit skip is congruent to 60*(page-1) modulo 2^32, and equals it for pages -35791393 to 35791395 |
| PvRules.Wrap32 | Program.cs:115 | the result is the 32-bit two's-complement value congruent to the exact product, and equals it when it fits |
| PvRules.PageAsWritten | Program.cs:115-121 | the page step returns either the empty list or the whole list, never a slice; the whole list iff its length reaches the 32-bit skip |
| PvRules.Paginate | Program.cs:115-120 | corrected paging: at most 60 records, exactly those from position 60*(page-1) on |
| PvRules.PagesTile | Program.cs:115-120 | the corrected pages 1..n, concatenated, are the first 60*n records of the list |
| PvRules.PageAsWrittenIgnoresPageSize | Program.cs:120 | with 61 records page 1 returns 61 records as written, and 60 records when corrected |
| PvRules.SkipOverflow | Program.cs:115-116 | with one record page 35791395 is empty, but page 35791396 returns the record again because the skip wraps negative; the corrected page is empty |
| PvService.NewInstallation | Program.cs:17-25 | the installation `Store.AddInstallation` stores under the new identity: the request's coordinates, address, owner name and comments, with the active flag set |
| PvService.NewReport | Program.cs:59-67 | the report `Store.AddReport` appends: the request's four wattages, the truncated clock and the installation's identity |
| PvService.NegativeDuration | Program.cs:78 | the lifted comparison `duration < 0` of an `int?`, false when the duration is null; both queries (also line 97) answer BadRequest(Duration) exactly when it holds, after the installation check |
| PvService.NegativePage | Program.cs:100 | the lifted comparison `page < 0`, false when the page is null; `Store.Timeline` answers BadRequest(Page) exactly when it holds and the duration passed |
| PvService.Scaled | Program.cs:89 | the total times the duration; `Store.ProducedWattage` answers it for the window's reports, and it is never negative |
| PvService.Deactivated | Program.cs:36-38 | deactivation clears the installation's active flag; every other field and every other installation stay as they were |
| PvService.DeactivateIdempotent | Program.cs:34-43 | deactivating twice gives the same installations as deactivating once |
| PvService.FilteredSumNonNegative | Program.cs:80-87 | since stored wattages are non-negative, the produced total over any query is non-negative |
| PvService.SumOf | Program.cs:86-87 | the `ForEach` loop computes the produced-wattage total of the selected reports |
| PvService.ToRecords | Program.cs:110-113 | the `ForEach` loop maps each selected report to its four wattages, with length and order kept |
| PvService.Store.constructor | Migrations/20230526062958_Initial.cs:19 | an empty store whose identities start at 1 |
| PvService.Store.AddInstallation | Program.cs:9-32 | an invalid request gives BadRequest for its first failing field and changes nothing; a valid one adds exactly one installation, with the given fields and active, under a fresh identity that it returns; existing installations and all reports stay unchanged |
| PvService.Store.Deactivate | Program.cs:34-44 | an unknown id gives NotFound and changes nothing; a known id gives Ok, and the only change is that installation's active flag, which becomes false |
| PvService.Store.AddReport | Program.cs:46-71 | an unknown installation gives NotFound before any wattage check; a negative wattage gives BadRequest for the first one; neither adds a report; otherwise one report is appended, linked to the installation, with the given wattages and the truncated clock, and its fresh identity is returned; the active flag is never consulted |
| PvService.Store.ProducedWattage | Program.cs:73-90 | NotFound first, then BadRequest(Duration) for a negative duration, then the window's fault; otherwise Ok with null when no duration is given, else the produced total of the filtered reports times the duration, which is never negative |
| PvService.Store.Timeline | Program.cs:92-124 | NotFound first, then BadRequest for a negative duration, then for a negative page, then the window's fault; no matching report gives the lone zero record; otherwise a missing page is a fault; if fewer reports match than the 32-bit skip, the answer is an empty list, else all matching reports mapped in order (the slice is discarded) |

## Findings

| source | as written | input that shows it | evidently intended | confidence | as-written member | corrected member |
|---|---|---|---|---|---|---|
| Program.cs:120 | the result of `Skip(skip).Take(pageSize)` is discarded, so a page that is not past the end holds every matching record | 61 matching reports, `page=1`: 61 records are returned | at most 60 records per page: positions 60*(page-1) to 60*page-1 | high, not executed | PvRules.PageAsWrittenIgnoresPageSize | PvRules.Paginate |
| Program.cs:115 | `pageSize * (page - 1)` is 32-bit `int` arithmetic and wraps negative from page 35791396 on | one matching report, `page=35791396`: the record is returned, while `page=35791395` is empty | the skip is the exact product, so every page past the end is empty | medium, not executed | PvRules.SkipOverflow | PvRules.Paginate |

`Store.Timeline` keeps the behaviour as written, because that is what the service does.
`Paginate` is the corrected paging, and `PagesTile` proves that its pages tile the list.

## Left out

- HTTP routing, body and query binding, JSON serialization and status codes are framework
  plumbing. Only the `Response` datatype stands for them. The `Location` path of a created
  response is not modelled. A bad-request message is represented by the field it names.
- Entity Framework, SQL Server, `async`/`await` and `SaveChangesAsync` are replaced by the
  in-memory `Store`. Store failures are not modelled. These include a lost connection and an
  identity value past the `int` range. So identities are unbounded and consecutive.
- The query has no `ORDER BY`, so the database may return the rows in any order. The model
  returns them in insertion order.
- IEEE `float` behaviour is left out: rounding in the sum and the product, NaN and
  infinities. A NaN longitude would pass the guards of the source. Wattages and coordinates
  are exact reals.
- String lengths are counted in Dafny characters. C# counts UTF-16 code units, and the two
  differ for characters outside the Basic Multilingual Plane.
- A body whose `Address` or `OwnerName` is null would make the source throw when it reads the
  length. The model's request records always carry both strings.
- `DateTime` calendar details, `Kind` and time zones are left out. Times are plain tick counts.
- `InstallationLog` and the `// logging` placeholders are left out. No code path writes a log
  entry.
- Concurrency between requests is left out. It is left to the database in the source too.
- The report's navigation property `PvInstallation` is modelled as the foreign key
  `installationId`. The key is always set, although the column is nullable.
