/** Shared vocabulary of the price pipeline: sources, statuses, price records and snapshots. */
module Common {

  datatype Option<+T> = None | Some(value: T) {
    function GetOr(default: T): T {
      match this
      case Some(v) => v
      case None => default
    }
  }

  /** The three upstream statistics providers. */
  datatype Source = BLS | EIA | USDA

  /** Health of one source as shown to the user interface. */
  datatype Status = Pending | Loading | Success | Error

  /** One point of a generated trailing history: the date is that of `monthsAgo` months before now. */
  datatype HistoryPoint = HistoryPoint(monthsAgo: nat, value: real)

  /** The record shown on one item card (prices are exact reals: no rounding is modelled). */
  datatype PriceRecord = PriceRecord(
    name: string,
    current: real,
    previous: real,
    change: real,
    percentChange: real,
    source: Source,
    history: seq<HistoryPoint>)

  /** Item key to record, as one source or the merged snapshot holds it. */
  type Items = map<string, PriceRecord>

  /** A merged, timestamped result of one refresh; `timestamp` is in milliseconds. */
  datatype Snapshot = Snapshot(timestamp: int, items: Items, yearlyItems: Items)

  /** One item's history: ISO date (YYYY-MM-DD) to that day's value. */
  type Series = map<string, real>

  /** Item key to that item's series. */
  type History = map<string, Series>

  /** CONFIG.CACHE.MAX_AGE: 24 hours in milliseconds. */
  const MaxAge: int := 86400000

  /** Number of dates a series keeps. */
  const Window: nat := 365

  /** Number of monthly points in a generated history. */
  const MockMonths: nat := 12
}
