/**
 * The dashboard controller's state (AmoxIQDashboard.data), the mutable part of CONFIG, and the
 * three localStorage blobs it reads and writes. A blob that is absent or does not parse is None;
 * a snapshot or configuration blob holding null is read as absent everywhere, so it is None too.
 */
module Pipeline {
  import opened Common
  import opened HistoryTracker
  import opened Staleness
  import opened Sources
  import opened Settings

  /** The regular items a refresh produces: all synthetic in testing mode, merged otherwise. */
  function RefreshedItems(testing: bool, settled: Settled, draw: string -> nat -> real): Items {
    if testing then TestingItems(draw) else LiveItems(settled, draw)
  }

  function RefreshedYearlyItems(testing: bool, settled: Settled, draw: string -> nat -> real): Items {
    if testing then TestingYearlyItems(draw) else LiveYearlyItems(settled, draw)
  }

  class Dashboard {
    var priceData: Option<Snapshot>
    var lastUpdated: Option<int>
    var apiStatus: map<Source, Status>
    var historyData: History
    var config: Config
    /** The blob under CONFIG.CACHE.STORAGE_KEY. */
    var storedPrice: Option<Snapshot>
    /** The blob under CONFIG.CACHE.HISTORY_KEY. */
    var storedHistory: Option<History>
    /** The blob under CONFIG.CACHE.CONFIG_KEY. */
    var storedConfig: Option<SavedConfig>

    /** The page loads: the data object and CONFIG as declared, storage as the browser keeps it. */
    constructor (storedPrice: Option<Snapshot>, storedHistory: Option<History>, storedConfig: Option<SavedConfig>)
      ensures priceData == None && lastUpdated == None && historyData == map[] && config == Defaults
      ensures apiStatus == map[BLS := Pending, EIA := Pending, USDA := Pending]
      ensures this.storedPrice == storedPrice && this.storedHistory == storedHistory && this.storedConfig == storedConfig
    {
      priceData := None;
      lastUpdated := None;
      apiStatus := map[BLS := Pending, EIA := Pending, USDA := Pending];
      historyData := map[];
      config := Defaults;
      this.storedPrice := storedPrice;
      this.storedHistory := storedHistory;
      this.storedConfig := storedConfig;
    }

    /** updateAPIStatus without the indicator rendering: only the named source's entry changes. */
    method UpdateAPIStatus(api: Source, status: Status)
      modifies this`apiStatus
      ensures apiStatus == old(apiStatus)[api := status]
    {
      apiStatus := apiStatus[api := status];
    }

    /** Three consecutive updateAPIStatus calls, one per source, as fetchAllPriceData makes them. */
    method UpdateAllStatuses(bls: Status, eia: Status, usda: Status)
      modifies this`apiStatus
      ensures apiStatus == map[BLS := bls, EIA := eia, USDA := usda]
    {
      UpdateAPIStatus(BLS, bls);
      UpdateAPIStatus(EIA, eia);
      UpdateAPIStatus(USDA, usda);
      assert forall s :: s in apiStatus ==> s == BLS || s == EIA || s == USDA;
    }

    /** loadApiConfiguration: a saved configuration is laid over the current one. */
    method LoadApiConfiguration()
      modifies this`config
      ensures config == if storedConfig.Some? then Overlay(old(config), storedConfig.value) else old(config)
    {
      if storedConfig.Some? {
        config := Overlay(config, storedConfig.value);
      }
    }

    /** saveApiConfiguration, with the form's values as parameters. */
    method SaveApiConfiguration(keys: ApiKeys, testing: bool)
      modifies this`config, this`storedConfig
      ensures storedConfig == Some(SavedFrom(keys, testing))
      ensures config == Config(keys, testing, old(config).forceErrors)
    {
      storedConfig := Some(SavedFrom(keys, testing));
      config := config.(keys := keys, testingEnabled := testing);
    }

    /** loadHistoricalData: an absent or unreadable blob leaves the history as it is. */
    method LoadHistoricalData()
      modifies this`historyData
      ensures historyData == if storedHistory.Some? then storedHistory.value else old(historyData)
    {
      if storedHistory.Some? {
        historyData := storedHistory.value;
      }
    }

    /** loadCachedData at instant `now`: the cached snapshot is adopted only while younger than MaxAge. */
    method LoadCachedData(now: int) returns (loaded: bool)
      modifies this`priceData, this`lastUpdated, this`historyData
      ensures loaded <==> storedPrice.Some? && CacheUsable(storedPrice.value.timestamp, now)
      ensures loaded ==> priceData == storedPrice && lastUpdated == Some(storedPrice.value.timestamp)
      ensures loaded ==> historyData == if storedHistory.Some? then storedHistory.value else old(historyData)
      ensures !loaded ==> priceData == old(priceData) && lastUpdated == old(lastUpdated) && historyData == old(historyData)
    {
      loaded := false;
      if storedPrice.Some? {
        var cached := storedPrice.value;
        if CacheUsable(cached.timestamp, now) {
          priceData := storedPrice;
          lastUpdated := Some(cached.timestamp);
          LoadHistoricalData();
          loaded := true;
        }
      }
    }

    /** storeHistoricalData: read the stored history, record today, trim, write it back and keep it. */
    method StoreHistoricalData(items: Items, yearlyItems: Items, today: string)
      modifies this`historyData, this`storedHistory
      ensures storedHistory == Some(Stored(old(storedHistory).GetOr(map[]), items, yearlyItems, today))
      ensures historyData == storedHistory.value
    {
      var saved := if storedHistory.Some? then storedHistory.value else map[];
      var history := HistoryTracker.StoreHistoricalData(saved, items, yearlyItems, today);
      storedHistory := Some(history);
      historyData := history;
    }

    /**
     * fetchAllPriceData. `settled` is how the three sources settled, `draw` the random values of
     * the synthetic records, `stamp` the instant it reads for the snapshot's timestamp and `today`
     * the ISO date storeHistoricalData reads; `failed` says that writing the history threw, which
     * sends the call down its exception path.
     */
    method FetchAllPriceData(settled: Settled, failed: bool, stamp: int, today: string, draw: string -> nat -> real)
      returns (result: Option<Snapshot>)
      modifies this`apiStatus, this`historyData, this`storedHistory
      ensures apiStatus == FinalStatuses(config.testingEnabled, config.forceErrors, settled, failed)
      ensures failed ==> result == storedPrice && historyData == old(historyData) && storedHistory == old(storedHistory)
      ensures !failed ==>
        var items := RefreshedItems(config.testingEnabled, settled, draw);
        var yearlyItems := RefreshedYearlyItems(config.testingEnabled, settled, draw);
        && result == Some(Snapshot(stamp, items, yearlyItems))
        && storedHistory == Some(Stored(old(storedHistory).GetOr(map[]), items, yearlyItems, today))
        && historyData == storedHistory.value
    {
      UpdateAllStatuses(Loading, Loading, Loading);
      if config.testingEnabled {
        var status := if config.forceErrors then Error else Success;
        UpdateAllStatuses(status, status, status);
      } else {
        UpdateAllStatuses(SettledStatus(settled.bls), SettledStatus(settled.eia), SettledStatus(settled.usda));
      }
      assert apiStatus == FinalStatuses(config.testingEnabled, config.forceErrors, settled, false);
      var items := RefreshedItems(config.testingEnabled, settled, draw);
      var yearlyItems := RefreshedYearlyItems(config.testingEnabled, settled, draw);
      if failed {
        UpdateAllStatuses(Error, Error, Error);
        assert apiStatus == FinalStatuses(config.testingEnabled, config.forceErrors, settled, true);
        result := storedPrice;
      } else {
        StoreHistoricalData(items, yearlyItems, today);
        result := Some(Snapshot(stamp, items, yearlyItems));
      }
    }

    /**
     * checkForUpdates at instant `now`; the fetch reads the clock again at `stamp` for the
     * snapshot's timestamp and completes at instant `done`; `dayOf` gives an instant's local
     * calendar day. A refresh replaces the snapshot (None when the exception path
     * found nothing cached) and writes it to storage, where a null snapshot reads back as absent.
     */
    method CheckForUpdates(forceUpdate: bool, now: int, stamp: int, done: int, dayOf: int -> string,
                           settled: Settled, failed: bool, today: string, draw: string -> nat -> real)
      returns (updated: bool)
      requires now <= stamp <= done
      modifies this
      ensures updated == NeedsUpdate(forceUpdate, old(lastUpdated), now, dayOf)
      ensures !updated ==> unchanged(this)
      ensures config == old(config) && storedConfig == old(storedConfig)
      ensures updated ==> lastUpdated == Some(done) && storedPrice == priceData
      ensures updated ==> apiStatus == FinalStatuses(config.testingEnabled, config.forceErrors, settled, failed)
      ensures updated && failed ==>
        priceData == old(storedPrice) && historyData == old(historyData) && storedHistory == old(storedHistory)
      ensures updated && !failed ==>
        var items := RefreshedItems(config.testingEnabled, settled, draw);
        var yearlyItems := RefreshedYearlyItems(config.testingEnabled, settled, draw);
        && priceData == Some(Snapshot(stamp, items, yearlyItems))
        && historyData == Stored(old(storedHistory).GetOr(map[]), items, yearlyItems, today)
        && storedHistory == Some(historyData)
    {
      updated := NeedsUpdate(forceUpdate, lastUpdated, now, dayOf);
      if updated {
        priceData := FetchAllPriceData(settled, failed, stamp, today, draw);
        lastUpdated := Some(done);
        storedPrice := priceData;
      }
    }

    /** testApiConnection: loading, then success in testing mode and error otherwise. */
    method TestApiConnection(api: Source)
      modifies this`apiStatus
      ensures apiStatus == old(apiStatus)[api := if config.testingEnabled then Success else Error]
    {
      UpdateAPIStatus(api, Loading);
      UpdateAPIStatus(api, if config.testingEnabled then Success else Error);
    }
  }
}
