/** Entities, request records and responses of the photovoltaic-installation service. */
module PvTypes {

  /** `DateTime` is a count of 100-nanosecond ticks, as in .NET. */
  const TicksPerMillisecond: int := 10_000
  const TicksPerSecond: int := 10_000_000
  const TicksPerMinute: int := 600_000_000
  /** The tick count of `DateTime.MaxValue` (the last tick of the year 9999). */
  const MaxTicks: int := 3_155_378_975_999_999_999

  type Ticks = t: int | 0 <= t <= MaxTicks

  /** The C# `int` of the route and query parameters. */
  type Int32 = x: int | -0x8000_0000 <= x < 0x8000_0000

  /** Number of records per page of the timeline. */
  const PageSize: int := 60

  datatype Option<+T> = None | Some(value: T)

  /** Body of `POST /installations`. */
  datatype AddInstallationRequest = AddInstallationRequest(
    longitude: real,
    latitude: real,
    address: string,
    ownerName: string,
    comments: Option<string>)

  /** Body of `POST /installations/{id}/reports`. */
  datatype AddReportRequest = AddReportRequest(
    producedWattage: real,
    householdWattage: real,
    batteryWattage: real,
    gridWattage: real)

  /** One entry of the timeline response. */
  datatype TimelineRecord = TimelineRecord(
    producedWattage: real,
    householdWattage: real,
    batteryWattage: real,
    gridWattage: real)

  /** A stored installation; its identifier is its key in the store. */
  datatype Installation = Installation(
    longitude: real,
    latitude: real,
    address: string,
    ownerName: string,
    isActive: bool,
    comments: Option<string>)

  /** A stored production report, linked to its installation by `installationId`. */
  datatype Report = Report(
    id: nat,
    timestamp: Ticks,
    producedWattage: real,
    householdWattage: real,
    batteryWattage: real,
    gridWattage: real,
    installationId: int)

  /** The field a bad-request response names. */
  datatype Field =
    | Longitude | Latitude | Address | OwnerName | Comments
    | ProducedWattage | HouseholdWattage | BatteryWattage | GridWattage
    | Duration | Page

  /** Exceptions the handlers let escape (they become a server error). */
  datatype Fault =
    | MissingValue     // `.Value` or `!`-cast of a null `int?` / `DateTime?`
    | DateOutOfRange   // `AddMinutes` past `DateTime.MaxValue`

  /** An expression that either yields a value or throws. */
  datatype Checked<+T> = Value(value: T) | Throws(fault: Fault)

  /** Body of a successful timeline query: a lone record when nothing matched, else a list. */
  datatype Timeline = Single(record: TimelineRecord) | Many(records: seq<TimelineRecord>)

  /** What a handler answers. */
  datatype Response<+T> =
    | Created(id: nat)
    | Ok(body: T)
    | NotFound
    | BadRequest(field: Field)
    | ServerError(fault: Fault)
}
