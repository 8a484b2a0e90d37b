# AmoxIQ Dashboard: the price acquisition and caching pipeline

A Dafny model of the data side of the AmoxIQ consumer-price dashboard (`script.js`). The model covers:

- **History tracker** (`history.dfy`, module `HistoryTracker`). `storeHistoricalData` upserts today's `current` value for every regular and yearly item into a per-item map from ISO date to value. It then keeps only the 365 lexicographically greatest dates of every series.
  - The retention rule `Trim` is stated independently of sorting: a date stays exactly when fewer than 365 dates of its series are later.
  - The code's own procedure (sort the keys, delete all but the last 365) is proved equal to that rule.
  - The string order is JavaScript's default `sort` order (module `LexOrder`).
  - Repeated daily calls are folded in `daily.dfy` (module `DailyHistory`): a series grows by one date a day until it holds 365, then keeps the 365 most recent.
- **Staleness** (`staleness.dfy`). The `needsUpdate` decision of `checkForUpdates` and the age test of `loadCachedData`, over integer millisecond timestamps. The local calendar day is an abstract function of the timestamp.
- **Sources and merge** (`sources.dfy`).
  - The synthetic records of `fetchMockData` and `fetchMockYearlyData`, and the month-by-month history of `generateMockHistory`.
  - The `||` precedence merge of `fetchAllPriceData`. A rule per entry lists the sources to try, in order, then the entry's hardcoded baseline.
  - The status each source ends a refresh with.
- **Settings** (`settings.dfy`). How `loadApiConfiguration` lays a saved configuration over `CONFIG`, and what `saveApiConfiguration` writes.
- **Dashboard state** (`dashboard.dfy`, class `Pipeline.Dashboard`). This holds:
  - the fields of `AmoxIQDashboard.data`;
  - the mutable part of `CONFIG`;
  - the three `localStorage` blobs. An absent or unparseable snapshot or configuration blob is `None`, and so is one holding `null`: each of `loadCachedData`, `loadApiConfiguration` and the exception path of `fetchAllPriceData` treats it like an absent blob (script.js:116-119, 145-151, 470-471). An absent or unparseable history blob is `None` too.

  Its methods update these fields in place, as the source does.

Inputs stand in for what the program gets from outside:
- how the three sources settled (`Settled`: a map or `None` for a rejected promise);
- the instants `now` (when `checkForUpdates` reads the clock), `stamp` (when `fetchAllPriceData` reads it again for the snapshot's timestamp) and `done` (when the fetch has completed), with `now <= stamp <= done`, and today's ISO date `today`;
- the local calendar day of an instant (`dayOf`);
- the `Math.random()` values used by the synthetic histories (`draw`).

Where the written design of the system and the code differ, the model follows the code:
- The design says a synthetic yearly record, or one whose previous price is zero, has a percent change of 100 "by convention". In the code, only `fetchMockYearlyData` writes 100 (whatever the yearly percentage). `fetchMockData` divides by the previous price.
- The design describes testing-mode statuses as set after a delay, decoupled from data generation. In the code the 1-second timer fires while the synthetic records are still being generated: eight awaits of at least 200 ms each. So the model applies those statuses before the history write, and an exception after that still turns every status to error.
- A refresh whose exception path finds no cached snapshot still counts as an update. `checkForUpdates` stores `null`, sets `lastUpdated` to the completion time and reports success. `CheckForUpdates` states this: `lastUpdated == Some(done)` whenever it updated. With `Staleness.SameDayRefresh`, this means no retry happens later that day until MaxAge has passed.

## Model

| member | source | states |
|---|---|---|
| `LexOrder.BelowTransitive` | script.js:503 | The default string sort order is transitive. |
| `LexOrder.BelowTotal` | script.js:503 | Any two distinct strings are ordered one way or the other. |
| `LexOrder.LeastExists` | script.js:503 | Every non-empty set of date strings has a least element. |
| `LexOrder.IncreasingDistinct` | script.js:503 | An ascending listing has no repeated dates: its length is its number of distinct elements. |
| `LexOrder.LeastCons` | script.js:503 | The least date followed by an ascending listing of the rest lists the whole set in ascending order. |
| `LexOrder.SortedOf` | script.js:503 | Every finite set of dates has an ascending listing with exactly its elements. |
| `HistoryTracker.Trim` | script.js:502-508 | Trimming only deletes dates; every kept date keeps its value. |
| `HistoryTracker.TrimSmall` | script.js:504 | A series of at most 365 dates is left unchanged. |
| `HistoryTracker.LaterAt` | script.js:503-505 | In an ascending listing, the dates later than the i-th are exactly those after it, `n - 1 - i` of them. |
| `HistoryTracker.TrimBySorted` | script.js:503-506 | Sorting the dates and deleting all but the last 365 is the same as the retention rule. |
| `HistoryTracker.TrimSize` | script.js:504-506 | A trimmed series has at most 365 dates, and exactly 365 when it had more. |
| `HistoryTracker.TrimKeepsLatest` | script.js:503-506 | Every dropped date sorts before every kept date: the kept dates are the latest. |
| `HistoryTracker.TrimIdempotent` | script.js:502-508 | Trimming a trimmed series changes nothing. |
| `HistoryTracker.TrimReinsert` | script.js:490-508 | Re-inserting a date of the original series and trimming again gives back the same dates. Only that date's value may change, and nothing changes when the value is the same. |
| `HistoryTracker.StoredAt` | script.js:490-508 | After a call, the keys are the old keys plus every item and yearly key. Each series is its upserted series, trimmed. |
| `HistoryTracker.RecordsToday` | script.js:490-499 | Every item and yearly item holds today's value under today's date (a yearly record wins, being written second). The exception: its series held 365 or more dates later than today. Both directions are stated. |
| `HistoryTracker.RecordsTodayInOrder` | script.js:490-499 | When no stored date is later than today, today's value is always recorded. |
| `HistoryTracker.StoredShape` | script.js:490-508 | After a call, every series has at most 365 dates. One that had 365 or more ends with exactly 365. Every entry other than today's is an old entry with its old value, and every dropped old date is older than every kept date. A key that recorded nothing today is only trimmed. |
| `HistoryTracker.StoredSize` | script.js:490-508 | The exact size of a series after one call: a key recorded today grows by one date when today is new to it and keeps its count otherwise, capped at 365; other keys are only capped. |
| `DailyHistory.RollStep` | script.js:490-508 | Recording a day later than all known dates on a series that keeps the newest of them: the series grows by one up to 365, holds the new day, and still keeps the newest dates. |
| `DailyHistory.RollGrowth` | script.js:490-508 | For one series, N records on strictly ascending days, each later than every stored date, leave min(n + N, 365) dates, the last day among them, and every date given up is older than every date kept. |
| `DailyHistory.ReplaySeries` | script.js:486-508 | Over successive calls, a key's series is its old series with each call's day and value upserted and trimmed in turn. |
| `DailyHistory.DailyGrowth` | script.js:486-508 | After N calls on strictly ascending days, each recording the key and later than every stored date, the key's series holds min(n + N, 365) dates: exactly 365 once n + N exceeds 365. The latest day is among them, and they are the most recent of the old dates and the call days. |
| `HistoryTracker.SameDayIdempotent` | script.js:490-508 | Recording the same records twice on the same day leaves the history of the first call. |
| `HistoryTracker.SameDayKeepsDates` | script.js:490-508 | A second recording on the same day overwrites today's entry. Every series keeps exactly its dates and its entry count, whatever the new values. |
| `HistoryTracker.SortedDates` | script.js:503 | `Object.keys(..).sort()`: the dates in strictly ascending order, exactly those of the series. |
| `HistoryTracker.UpsertToday` | script.js:490-499 | One upsert loop gives today's `current` under every key of its items, creating missing series. |
| `HistoryTracker.DeleteDates` | script.js:505-506 | Deleting the listed dates removes exactly those dates. |
| `HistoryTracker.TrimSeries` | script.js:503-507 | One pass of the trim loop yields the retention rule's series. |
| `HistoryTracker.TrimEach` | script.js:502-508 | The trim loop trims every series of the history, including keys not recorded today. |
| `HistoryTracker.StoreHistoricalData` | script.js:486-508 | Items, then yearly items, then trimming, on the stored history. The result is the `Stored` specification. |
| `Staleness.SameDayRefresh` | script.js:199-202 | On the same day, an unforced check refreshes exactly when more than MaxAge has elapsed: not at MaxAge, but at MaxAge + 1 ms. |
| `Staleness.AlwaysRefreshes` | script.js:199-201 | A forced check, a first check or a check on a new day always refreshes. |
| `Staleness.CacheAndRefreshBoundary` | script.js:151 | A cached snapshot is used only while younger than MaxAge. A usable one is not refreshed on the same day. One that is not usable is refreshed, except at exactly MaxAge, where neither test fires. |
| `Settings.OverlayKeeps` | script.js:119-122 | A saved key replaces the current one exactly when it is present and non-empty. Testing mode becomes the saved flag, or false. |
| `Settings.OverlayIdempotent` | script.js:119-122 | Loading the same saved configuration twice equals loading it once. |
| `Settings.SaveThenReload` | script.js:761-775 | What `saveApiConfiguration` writes is what the next page load restores, empty keys included. |
| `Sources.PerturbBound` | script.js:333 | A generated value lies within 5% of its base price. |
| `Sources.MockHistoryShape` | script.js:326-336 | `generateMockHistory(base, months)` has exactly `months` points in ascending month order, ending with the current month, each within 5% of the base. |
| `Sources.GenerateMockHistory` | script.js:326-336 | The push loop builds exactly the specified history. |
| `Sources.MockRecordConsistent` | script.js:291-306 | A synthetic record keeps its prices and source, `change == current - previous`, `percentChange * previous == change * 100`, and has a 12-point history. |
| `Sources.MockYearlyQuirk` | script.js:310-323 | A synthetic yearly record has `previous == 0`, `change == current == yearlyChange` and `percentChange == 100`, whatever the input. |
| `Sources.FirstAvailableIsEarliest` | script.js:432-445 | A `\|\|` chain yields the earliest candidate a source produced. It yields nothing exactly when no source produced any candidate. |
| `Sources.MergeKeys` | script.js:432-445 | The merged object has exactly one key per rule, for every way the sources settle. |
| `Sources.MergeAt` | script.js:432-445 | Each rule's entry is what that rule resolves to (live) or its synthetic record (testing). |
| `Sources.RulesWellFormed` | script.js:432-445 | The precedence table has distinct keys: the seven items and apparel. Every baseline has a non-zero previous price. |
| `Sources.MergeEntryOrigin` | script.js:432-445 | Every entry comes from the first source in its precedence list that produced it. |
| `Sources.MergeEntryFallback` | script.js:432-445 | An entry no source produced is the synthetic record of its hardcoded baseline. |
| `Sources.LiveItems` | script.js:432-440 | Whatever subset of sources fails, the merged items are exactly egg, milk, bread, gas, chicken, coffee and cheese. |
| `Sources.LiveYearlyItems` | script.js:443-445 | Whatever subset of sources fails, the merged yearly items are exactly apparel. |
| `Sources.ChickenPrecedence` | script.js:437 | Chicken is taken from USDA, else from BLS, else from its baseline (2.89 against 2.72, credited to USDA). |
| `Sources.NothingProducedIsBaseline` | script.js:432-445 | When every source is rejected or lacks the item, each merged entry is its synthetic baseline record. |
| `Sources.TestingEqualsAllFailed` | script.js:369-382 | The testing branch produces the same entries as a live refresh in which all three sources failed. |
| `Sources.TestingItems` | script.js:369-377 | The testing branch has the seven regular items. |
| `Sources.TestingYearlyItems` | script.js:380-382 | The testing branch has the yearly apparel item. |
| `Sources.MockAllHistories` | script.js:369-382 | Every synthetic entry carries a 12-month history. |
| `Sources.StatusesIndependent` | script.js:403-429 | In a live refresh, a fulfilled source is `success` and a rejected one is `error`, whatever the other two did. |
| `Sources.FailureMarksAllError` | script.js:462-464 | On the exception path, all three sources end in `error`. |
| `Sources.TestingStatuses` | script.js:360-366 | In testing mode every source gets `success`, or `error` when FORCE_ERRORS is set, whatever the sources did. |
| `Sources.TestingScenario` | script.js:356-392 | Testing mode without forced errors gives 7 items and 1 yearly item, each history 12 points long, and all statuses `success`. |
| `Sources.AllFailedScenario` | script.js:395-445 | All three sources rejected: every entry equals its baseline record and every status is `error`. |
| `Pipeline.Dashboard.constructor` | script.js:70-79 | Initial state: no snapshot, no last update, every source `pending`, an empty history, CONFIG as declared. |
| `Pipeline.Dashboard.UpdateAPIStatus` | script.js:252-253 | Only the named source's status changes, and no other field. |
| `Pipeline.Dashboard.UpdateAllStatuses` | script.js:343-345 | Three consecutive updates set the whole status map. |
| `Pipeline.Dashboard.LoadApiConfiguration` | script.js:112-129 | A saved configuration is laid over CONFIG. An absent or unreadable one leaves it unchanged. |
| `Pipeline.Dashboard.SaveApiConfiguration` | script.js:761-775 | The blob holds all four fields. CONFIG takes the keys and testing flag as given, empty ones included. |
| `Pipeline.Dashboard.LoadHistoricalData` | script.js:176-186 | The stored history replaces the current one only when present. |
| `Pipeline.Dashboard.LoadCachedData` | script.js:141-173 | Loads exactly when a cached snapshot exists and is younger than MaxAge. It then adopts the snapshot, its timestamp and the stored history; otherwise nothing changes. |
| `Pipeline.Dashboard.StoreHistoricalData` | script.js:476-515 | Reads the stored history (absent is `{}`), records and trims it, writes it back and keeps it as `historyData`. |
| `Pipeline.Dashboard.FetchAllPriceData` | script.js:340-473 | The final statuses follow the status rules. Without an exception it returns the merged (or testing) snapshot stamped with its own clock read `stamp` and records the history; on the exception path it returns the cached snapshot and leaves the history alone. |
| `Pipeline.Dashboard.CheckForUpdates` | script.js:189-233 | Refreshes exactly when `needsUpdate` holds, and otherwise changes nothing. A refresh replaces the snapshot, stamped `stamp`, sets `lastUpdated` to the completion time and caches the snapshot. Without an exception the stored history becomes the recorded history; on the exception path it stays as it was. |
| `Pipeline.Dashboard.TestApiConnection` | script.js:740-758 | The tested source ends `success` in testing mode and `error` otherwise. No other source changes. |

## Left out

- Rendering is not modelled: DOM updates, status indicator classes, notifications, theme, tabs, mascot and hover effects (script.js:271-288, 539-735). This is user-interface code.
- `localStorage` and JSON are fields holding values. An absent or unparseable blob is `None`. One consequence: on the exception path of `fetchAllPriceData`, an unparseable cached blob makes `JSON.parse` throw into `checkForUpdates`' catch, which leaves the snapshot and `lastUpdated` unchanged. The model reads that blob as absent instead.
- A history blob that parses to `null` or to a non-object is not modelled. With `null`, `storeHistoricalData` would throw at its first `history[key]` (script.js:491) and `loadHistoricalData` would set `historyData` to `null` (script.js:180). The program itself only ever writes an object under that key (script.js:510).
- The `CONFIG.CACHE.ENABLED` tests are dropped: the constant is always true.
- Concurrency and timers are not modelled:
  - `Promise.allSettled` becomes the `Settled` input;
  - the simulated latencies, `setInterval` and `window.location.reload` are dropped;
  - the deferred testing-mode status write is applied at the point where it fires.
- The start-up sequence (`init`, `setupUpdateIntervals`, `showWelcomeMessage`) is not modelled. It only orders calls that are modelled one by one.
- Only one throw point is modelled: a failure while writing the history (the `failed` input). Other ways the body could throw are left out, for example a source whose fulfilled value is not an object. The catch branch of `checkForUpdates` is unreachable in the model.
- Sources.MockRecordConsistent: states the exact, unrounded change and percent change. `toFixed`/`parseFloat` round them to 2 and 1 decimals, and floating point is not modelled.
- Sources.MockRecord: requires a non-zero previous price, because JavaScript's `Infinity`/`NaN` results have no counterpart here. Every hardcoded baseline satisfies this.
- Sources.MockHistoryShape: a point's date is represented by its month offset. The `Date`/`toISOString` arithmetic that turns an offset into a date string is not modelled. The same holds for `today` (`toISOString().split('T')[0]`) and `toDateString`, which are inputs.
- `Math.random()` values are the `draw` input. The 5% bound assumes each draw lies in [0, 1), as `Math.random` promises.
- `LexOrder.Below` compares characters by code point, while JavaScript's `sort` compares UTF-16 code units. The two orders agree on ISO date strings, which are ASCII.
- A source entry that is present but falsy (`null`, `0`) would fall through to the next candidate in JavaScript. The model treats every present entry as chosen, since source maps hold records.
- The API stubs `fetchBLSData`, `fetchEIAData` and `fetchUSDAData` always fulfil with `{}`. The model does not fix them to that: any settlement is an input.
