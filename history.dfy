/**
 * The rolling per-item price history: today's value is upserted for every item,
 * then every series keeps only its 365 latest ISO dates.
 */
module HistoryTracker {
  import opened Common
  import opened LexOrder

  /** The dates of `dates` that sort after `d`. */
  function Later(dates: set<string>, d: string): set<string> {
    set e | e in dates && Below(d, e)
  }

  /**
   * The retention rule, stated independently of any sorting: a date stays exactly
   * when fewer than `Window` dates of the same series are later than it.
   */
  function Trim(s: Series): (r: Series)
    ensures r.Keys <= s.Keys
    ensures forall d :: d in r ==> r[d] == s[d]
  {
    map d | d in s && |Later(s.Keys, d)| < Window :: s[d]
  }

  function SeriesOf(h: History, key: string): Series {
    if key in h then h[key] else map[]
  }

  /** One upsert loop: every key of `items` gets `today` mapped to its record's `current`. */
  function Record(h: History, items: Items, today: string): History {
    map k | k in h.Keys + items.Keys :: if k in items then SeriesOf(h, k)[today := items[k].current] else h[k]
  }

  /** The trim loop, over every key of the history. */
  function TrimAll(h: History): History {
    map k | k in h :: Trim(h[k])
  }

  /** The history storeHistoricalData writes back: items first, then yearly items, then trimming. */
  function Stored(h: History, items: Items, yearlyItems: Items, today: string): History {
    TrimAll(Record(Record(h, items, today), yearlyItems, today))
  }

  /** The value recorded today for `key`: a yearly record overrides a regular one, being written second. */
  function TodayValue(items: Items, yearlyItems: Items, key: string): real
    requires key in items || key in yearlyItems
  {
    if key in yearlyItems then yearlyItems[key].current else items[key].current
  }

  /** The series of `key` after both upsert loops and before trimming. */
  function Upserted(h: History, items: Items, yearlyItems: Items, today: string, key: string): Series {
    if key in items || key in yearlyItems then SeriesOf(h, key)[today := TodayValue(items, yearlyItems, key)]
    else SeriesOf(h, key)
  }

  // ---------------------------------------------------------------------------
  // Facts about the retention rule

  lemma {:induction false} SubsetSize(a: set<string>, b: set<string>)
    requires a <= b
    ensures |a| <= |b|
    decreases |b|
  {
    if a != {} {
      var x :| x in a;
      SubsetSize(a - {x}, b - {x});
    }
  }

  lemma LaterBound(dates: set<string>, d: string)
    requires d in dates
    ensures |Later(dates, d)| < |dates|
  {
    BelowIrreflexive(d);
    SubsetSize(Later(dates, d), dates - {d});
  }

  /** A series already within the window is left as it is. */
  lemma TrimSmall(s: Series)
    requires |s| <= Window
    ensures Trim(s) == s
  {
    forall d | d in s ensures d in Trim(s) {
      LaterBound(s.Keys, d);
    }
  }

  /** In an ascending listing, the dates later than the i-th are exactly those after position i. */
  lemma LaterAt(ds: seq<string>, i: int)
    requires Increasing(ds) && 0 <= i < |ds|
    ensures Later(Elems(ds), ds[i]) == Elems(ds[i + 1..])
    ensures |Later(Elems(ds), ds[i])| == |ds| - 1 - i
  {
    forall e | e in Later(Elems(ds), ds[i]) ensures e in Elems(ds[i + 1..]) {
      var j :| 0 <= j < |ds| && ds[j] == e;
      if j < i {
        BelowAsymmetric(ds[j], ds[i]);
      } else if j == i {
        BelowIrreflexive(e);
      }
      assert ds[i + 1..][j - i - 1] == e;
    }
    forall e | e in Elems(ds[i + 1..]) ensures e in Later(Elems(ds), ds[i]) {
      var j :| 0 <= j < |ds[i + 1..]| && ds[i + 1..][j] == e;
      assert ds[i + 1 + j] == e;
    }
    assert Increasing(ds[i + 1..]);
    IncreasingDistinct(ds[i + 1..]);
  }

  /**
   * Sorting the dates and deleting all but the last `Window` of them is the retention rule.
   */
  lemma TrimBySorted(s: Series, ds: seq<string>)
    requires Increasing(ds) && Elems(ds) == s.Keys
    ensures |ds| > Window ==> Trim(s) == s - Elems(ds[..|ds| - Window])
    ensures |ds| <= Window ==> Trim(s) == s
  {
    IncreasingDistinct(ds);
    if |ds| <= Window {
      TrimSmall(s);
    } else {
      var cut := |ds| - Window;
      var removed := Elems(ds[..cut]);
      forall d | d in s ensures d in Trim(s) <==> d !in removed {
        var i :| 0 <= i < |ds| && ds[i] == d;
        KeptIffAfterCut(s, ds, i);
      }
      assert Trim(s).Keys == (s - removed).Keys;
    }
  }

  /** Past the window, the i-th date of an ascending listing is kept exactly when it is not among the first n - `Window`. */
  lemma KeptIffAfterCut(s: Series, ds: seq<string>, i: int)
    requires Increasing(ds) && Elems(ds) == s.Keys && |ds| > Window && 0 <= i < |ds|
    ensures ds[i] in Trim(s) <==> ds[i] !in Elems(ds[..|ds| - Window])
  {
    var cut := |ds| - Window;
    LaterAt(ds, i);
    if ds[i] in Elems(ds[..cut]) {
      var j :| 0 <= j < cut && ds[..cut][j] == ds[i];
      IncreasingIndexUnique(ds, i, j);
    }
  }

  /** In an ascending listing, the elements not in a prefix are those of the matching suffix. */
  lemma SuffixElems(ds: seq<string>, cut: int)
    requires Increasing(ds) && 0 <= cut <= |ds|
    ensures Elems(ds) - Elems(ds[..cut]) == Elems(ds[cut..])
  {
    forall d | d in Elems(ds[cut..]) ensures d !in Elems(ds[..cut]) {
      var i :| 0 <= i < |ds[cut..]| && ds[cut..][i] == d;
      if d in Elems(ds[..cut]) {
        var j :| 0 <= j < cut && ds[..cut][j] == d;
        IncreasingIndexUnique(ds, cut + i, j);
      }
    }
    assert ds == ds[..cut] + ds[cut..];
  }

  /** Past the window, exactly `Window` dates are kept: the last `Window` of an ascending listing. */
  lemma TrimSizeLarge(s: Series, ds: seq<string>)
    requires Increasing(ds) && Elems(ds) == s.Keys && |ds| > Window
    ensures |Trim(s)| == Window
  {
    TrimBySorted(s, ds);
    var cut := |ds| - Window;
    SuffixElems(ds, cut);
    var kept := ds[cut..];
    assert Increasing(kept);
    IncreasingDistinct(kept);
    assert Trim(s).Keys == Elems(kept);
  }

  /** Every series ends with at most `Window` dates, and with exactly `Window` when it had more. */
  lemma TrimSize(s: Series)
    ensures |Trim(s)| == if |s| > Window then Window else |s|
  {
    if |s| > Window {
      TrimSizeLarge(s, SortedOf(s.Keys));
    } else {
      TrimSmall(s);
    }
  }

  /** Every date the rule drops is older than every date it keeps. */
  lemma TrimKeepsLatest(s: Series, kept: string, dropped: string)
    requires kept in Trim(s) && dropped in s && dropped !in Trim(s)
    ensures Below(dropped, kept)
  {
    BelowTotal(kept, dropped);
    if Below(kept, dropped) {
      var lk := Later(s.Keys, kept);
      var ld := Later(s.Keys, dropped);
      forall e | e in ld ensures e in lk - {dropped} {
        BelowTransitive(kept, dropped, e);
        BelowIrreflexive(dropped);
      }
      SubsetSize(ld, lk - {dropped});
      assert false;
    }
  }

  lemma TrimIdempotent(s: Series)
    ensures Trim(Trim(s)) == Trim(s)
  {
    TrimSize(s);
    TrimSmall(Trim(s));
  }

  /**
   * Re-inserting a date of the original series into its trimmed form and trimming again
   * gives back the same dates: either the date was kept (the series is within the window and
   * only its value changes) or it was dropped as too old, and it is dropped again.
   */
  lemma {:induction false} TrimReinsert(u: Series, d: string, v: real)
    requires d in u
    ensures Trim(Trim(u)[d := v]).Keys == Trim(u).Keys
    ensures forall e :: e in Trim(u) && e != d ==> Trim(Trim(u)[d := v])[e] == Trim(u)[e]
    ensures d in Trim(u) ==> Trim(Trim(u)[d := v])[d] == v
    ensures u[d] == v ==> Trim(Trim(u)[d := v]) == Trim(u)
  {
    var t := Trim(u);
    var t' := t[d := v];
    TrimSize(u);
    if d in t {
      assert t'.Keys == t.Keys;
      TrimSmall(t');
    } else {
      if |u| <= Window {
        TrimSmall(u);
        assert false;
      }
      assert |t.Keys| == Window;
      TrimSmall(t);
      forall e | e in t ensures Below(d, e) {
        TrimKeepsLatest(u, e, d);
      }
      BelowIrreflexive(d);
      assert Later(t'.Keys, d) == t.Keys;
      assert d !in Trim(t');
      forall e | e in t ensures e in Trim(t') {
        BelowAsymmetric(d, e);
        assert Later(t'.Keys, e) == Later(t.Keys, e);
        assert e in Trim(t);
      }
      assert Trim(t').Keys == t.Keys;
    }
  }

  // ---------------------------------------------------------------------------
  // Facts about one call of storeHistoricalData

  /** One upsert loop changes the series of a key of its items by today's entry, and no other series. */
  lemma RecordAt(h: History, items: Items, today: string, key: string)
    ensures var r := Record(h, items, today);
      && (key in r <==> key in h || key in items)
      && SeriesOf(r, key) == if key in items then SeriesOf(h, key)[today := items[key].current] else SeriesOf(h, key)
  {
  }

  /** Writing a date twice leaves the second value. */
  lemma UpdateTwice(s: Series, d: string, v: real, w: real)
    ensures s[d := v][d := w] == s[d := w]
  {
  }

  lemma StoredAt(h: History, items: Items, yearlyItems: Items, today: string, key: string)
    ensures var r := Stored(h, items, yearlyItems, today);
      && (key in r <==> key in h || key in items || key in yearlyItems)
      && (key in r ==> r[key] == Trim(Upserted(h, items, yearlyItems, today, key)))
  {
    var r1 := Record(h, items, today);
    var r2 := Record(r1, yearlyItems, today);
    assert (key in r2 <==> key in h || key in items || key in yearlyItems)
      && SeriesOf(r2, key) == Upserted(h, items, yearlyItems, today, key)
    by {
      RecordAt(h, items, today, key);
      RecordAt(r1, yearlyItems, today, key);
      if key in items && key in yearlyItems {
        UpdateTwice(SeriesOf(h, key), today, items[key].current, yearlyItems[key].current);
      }
    }
  }

  /**
   * After recording, every item and yearly item has today's value under today's date, unless
   * its series already held `Window` or more dates later than today (a clock set back), in which
   * case today is the oldest date and is dropped at once.
   */
  lemma RecordsToday(h: History, items: Items, yearlyItems: Items, today: string, key: string)
    requires key in items || key in yearlyItems
    ensures var r := Stored(h, items, yearlyItems, today);
      && key in r
      && (today in r[key] <==> |Later(SeriesOf(h, key).Keys, today)| < Window)
      && (today in r[key] ==> r[key][today] == TodayValue(items, yearlyItems, key))
  {
    StoredAt(h, items, yearlyItems, today, key);
    var u := Upserted(h, items, yearlyItems, today, key);
    BelowIrreflexive(today);
    assert Later(u.Keys, today) == Later(SeriesOf(h, key).Keys, today);
  }

  /** When no stored date is later than today, today's value is always recorded. */
  lemma RecordsTodayInOrder(h: History, items: Items, yearlyItems: Items, today: string, key: string)
    requires key in items || key in yearlyItems
    requires forall e :: e in SeriesOf(h, key) ==> !Below(today, e)
    ensures var r := Stored(h, items, yearlyItems, today);
      key in r && today in r[key] && r[key][today] == TodayValue(items, yearlyItems, key)
  {
    RecordsToday(h, items, yearlyItems, today, key);
    assert Later(SeriesOf(h, key).Keys, today) == {};
  }

  /**
   * The shape of the history after one call: the keys are the old keys and the recorded ones;
   * every series is within the window, and one that already filled the window still fills it;
   * every entry other than today's is an old entry with its old value; every old date that
   * was dropped is older than every date kept; keys not recorded today are only trimmed.
   */
  lemma StoredShape(h: History, items: Items, yearlyItems: Items, today: string, key: string)
    requires key in h || key in items || key in yearlyItems
    ensures var r := Stored(h, items, yearlyItems, today);
      && key in r
      && |r[key]| <= Window
      && (|SeriesOf(h, key)| >= Window ==> |r[key]| == Window)
      && (forall d :: d in r[key] && d != today ==> d in SeriesOf(h, key) && r[key][d] == SeriesOf(h, key)[d])
      && (forall d, e :: d in r[key] && e in SeriesOf(h, key) && e !in r[key] ==> Below(e, d))
      && (key !in items && key !in yearlyItems ==> r[key] == Trim(h[key]))
  {
    StoredAt(h, items, yearlyItems, today, key);
    var u := Upserted(h, items, yearlyItems, today, key);
    var r := Stored(h, items, yearlyItems, today);
    TrimSize(u);
    assert |u| >= |SeriesOf(h, key)| by {
      assert SeriesOf(h, key).Keys <= u.Keys;
      assert |SeriesOf(h, key).Keys| <= |u.Keys|;
    }
    forall d, e | d in r[key] && e in SeriesOf(h, key) && e !in r[key] ensures Below(e, d) {
      TrimKeepsLatest(u, d, e);
    }
  }

  /**
   * The exact size of a series after one call: its upserted dates, capped at the window. A key
   * recorded today grows by one date when today is new to it, and keeps its count otherwise.
   */
  lemma StoredSize(h: History, items: Items, yearlyItems: Items, today: string, key: string)
    requires key in h || key in items || key in yearlyItems
    ensures var r := Stored(h, items, yearlyItems, today);
      var n := |SeriesOf(h, key)|;
      var grown := if (key in items || key in yearlyItems) && today !in SeriesOf(h, key) then n + 1 else n;
      key in r && |r[key]| == if grown > Window then Window else grown
  {
    StoredAt(h, items, yearlyItems, today, key);
    var u := Upserted(h, items, yearlyItems, today, key);
    TrimSize(u);
    UpsertedSize(h, items, yearlyItems, today, key);
  }

  lemma UpsertedSize(h: History, items: Items, yearlyItems: Items, today: string, key: string)
    ensures var n := |SeriesOf(h, key)|;
      |Upserted(h, items, yearlyItems, today, key)|
        == if (key in items || key in yearlyItems) && today !in SeriesOf(h, key) then n + 1 else n
  {
    var u := Upserted(h, items, yearlyItems, today, key);
    if (key in items || key in yearlyItems) && today !in SeriesOf(h, key) {
      assert u.Keys == SeriesOf(h, key).Keys + {today};
    } else {
      assert u.Keys == SeriesOf(h, key).Keys;
    }
  }

  /** Recording twice on the same day with the same records changes nothing the second time. */
  lemma SameDayIdempotent(h: History, items: Items, yearlyItems: Items, today: string)
    ensures var once := Stored(h, items, yearlyItems, today);
      Stored(once, items, yearlyItems, today) == once
  {
    var once := Stored(h, items, yearlyItems, today);
    var twice := Stored(once, items, yearlyItems, today);
    forall k | k in once ensures k in twice && twice[k] == once[k] {
      StoredAt(h, items, yearlyItems, today, k);
      StoredAt(once, items, yearlyItems, today, k);
      var u := Upserted(h, items, yearlyItems, today, k);
      if k in items || k in yearlyItems {
        TrimReinsert(u, today, TodayValue(items, yearlyItems, k));
      } else {
        TrimIdempotent(h[k]);
      }
    }
    forall k | k in twice ensures k in once {
      StoredAt(once, items, yearlyItems, today, k);
    }
  }

  /**
   * A second recording on the same day overwrites today's entry: every series that was
   * recorded the first time keeps exactly its dates, whatever the new values are.
   */
  lemma SameDayKeepsDates(h: History, items: Items, yearlyItems: Items, items': Items, yearlyItems': Items, today: string, key: string)
    requires key in Stored(h, items, yearlyItems, today)
    requires key in items' || key in yearlyItems' ==> key in items || key in yearlyItems
    ensures var once := Stored(h, items, yearlyItems, today);
      var twice := Stored(once, items', yearlyItems', today);
      key in twice && twice[key].Keys == once[key].Keys && |twice[key]| == |once[key]|
  {
    var once := Stored(h, items, yearlyItems, today);
    var twice := Stored(once, items', yearlyItems', today);
    StoredAt(h, items, yearlyItems, today, key);
    StoredAt(once, items', yearlyItems', today, key);
    if key in items' || key in yearlyItems' {
      TrimReinsert(Upserted(h, items, yearlyItems, today, key), today, TodayValue(items', yearlyItems', key));
    } else {
      TrimIdempotent(once[key]);
      if key in items || key in yearlyItems {
        TrimIdempotent(Upserted(h, items, yearlyItems, today, key));
      } else {
        TrimIdempotent(h[key]);
      }
    }
    assert |twice[key].Keys| == |once[key].Keys|;
  }

  // ---------------------------------------------------------------------------
  // The code

  /** Appending the least remaining date to an ascending listing of the dates before it keeps it ascending. */
  lemma AppendLeast(ds: seq<string>, m: string, rest: set<string>, dates: set<string>)
    requires Increasing(ds) && IsLeast(m, rest)
    requires Elems(ds) !! rest && Elems(ds) + rest == dates
    requires forall i, e :: 0 <= i < |ds| && e in rest ==> Below(ds[i], e)
    ensures Increasing(ds + [m])
    ensures Elems(ds + [m]) !! rest - {m} && Elems(ds + [m]) + (rest - {m}) == dates
    ensures forall i, e :: 0 <= i < |ds + [m]| && e in rest - {m} ==> Below((ds + [m])[i], e)
  {
    var ds' := ds + [m];
    assert Elems(ds') == Elems(ds) + {m};
    forall i, j | 0 <= i < j < |ds'| ensures Below(ds'[i], ds'[j]) {
      if j < |ds| {
        assert ds'[i] == ds[i] && ds'[j] == ds[j];
      } else {
        assert ds'[i] == ds[i];
      }
    }
  }

  /** `Object.keys(series).sort()`: the dates in ascending order. */
  method SortedDates(dates: set<string>) returns (ds: seq<string>)
    ensures Increasing(ds) && Elems(ds) == dates
  {
    ds := [];
    var rest := dates;
    while rest != {}
      invariant Increasing(ds)
      invariant Elems(ds) !! rest && Elems(ds) + rest == dates
      invariant forall i, e :: 0 <= i < |ds| && e in rest ==> Below(ds[i], e)
      decreases |rest|
    {
      LeastExists(rest);
      var m :| IsLeast(m, rest);
      AppendLeast(ds, m, rest, dates);
      ds := ds + [m];
      rest := rest - {m};
    }
  }

  /** Upserting one more key of `items` extends the upserts done so far by that key's entry. */
  lemma RecordOneMore(saved: History, items: Items, todo: set<string>, key: string, today: string)
    requires key in todo && todo <= items.Keys
    ensures var done := Record(saved, items - todo, today);
      Record(saved, items - (todo - {key}), today) == done[key := SeriesOf(done, key)[today := items[key].current]]
  {
    var done := Record(saved, items - todo, today);
    assert SeriesOf(done, key) == SeriesOf(saved, key);
  }

  /** One upsert loop of storeHistoricalData: today's `current` under every key of `items`. */
  method UpsertToday(saved: History, items: Items, today: string) returns (history: History)
    ensures history == Record(saved, items, today)
  {
    history := saved;
    var todo := items.Keys;
    while todo != {}
      invariant todo <= items.Keys
      invariant history == Record(saved, items - todo, today)
      decreases |todo|
    {
      var key :| key in todo;
      var series := if key in history then history[key] else map[];
      RecordOneMore(saved, items, todo, key, today);
      history := history[key := series[today := items[key].current]];
      todo := todo - {key};
    }
    assert items - todo == items;
  }

  /** `toRemove.forEach(date => delete series[date])`. */
  method DeleteDates(series: Series, toRemove: seq<string>) returns (kept: Series)
    ensures kept == series - Elems(toRemove)
  {
    kept := series;
    var i := 0;
    while i < |toRemove|
      invariant 0 <= i <= |toRemove|
      invariant kept == series - Elems(toRemove[..i])
    {
      assert Elems(toRemove[..i + 1]) == Elems(toRemove[..i]) + {toRemove[i]};
      kept := kept - {toRemove[i]};
      i := i + 1;
    }
    assert toRemove[..i] == toRemove;
  }

  /** One pass of the trim loop: sort the dates and delete all but the latest `Window`. */
  method TrimSeries(series: Series) returns (kept: Series)
    ensures kept == Trim(series)
  {
    var dates := SortedDates(series.Keys);
    TrimBySorted(series, dates);
    kept := series;
    if |dates| > Window {
      kept := DeleteDates(series, dates[..|dates| - Window]);
    }
  }

  /** The trim loop over every key of the history. */
  method TrimEach(upserted: History) returns (history: History)
    ensures history == TrimAll(upserted)
  {
    history := upserted;
    var keys := history.Keys;
    while keys != {}
      invariant keys <= upserted.Keys && history.Keys == upserted.Keys
      invariant forall k :: k in upserted ==> history[k] == if k in keys then upserted[k] else Trim(upserted[k])
      decreases |keys|
    {
      var key :| key in keys;
      var kept := TrimSeries(history[key]);
      history := history[key := kept];
      keys := keys - {key};
    }
  }

  /** storeHistoricalData on the history read from storage: upsert items, then yearly items, then trim. */
  method StoreHistoricalData(saved: History, items: Items, yearlyItems: Items, today: string) returns (history: History)
    ensures history == Stored(saved, items, yearlyItems, today)
  {
    history := UpsertToday(saved, items, today);
    history := UpsertToday(history, yearlyItems, today);
    history := TrimEach(history);
  }
}
