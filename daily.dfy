/** Daily use of storeHistoricalData: one call a day, over consecutive days. */
module DailyHistory {
  import opened Common
  import opened LexOrder
  import opened HistoryTracker

  /** One call of storeHistoricalData: the records it is given and the day it runs on. */
  datatype Call = Call(items: Items, yearlyItems: Items, today: string)

  /** The history after the calls, made in order on the stored history `h`. */
  function Replay(h: History, calls: seq<Call>): History
    decreases |calls|
  {
    if calls == [] then h
    else
      var last := calls[|calls| - 1];
      Stored(Replay(h, calls[..|calls| - 1]), last.items, last.yearlyItems, last.today)
  }

  /** The days the calls ran on. */
  function Days(calls: seq<Call>): set<string> {
    set i | 0 <= i < |calls| :: calls[i].today
  }

  /** Every call records `key`, as a regular or a yearly item. */
  predicate RecordedEachCall(calls: seq<Call>, key: string) {
    forall i :: 0 <= i < |calls| ==> key in calls[i].items || key in calls[i].yearlyItems
  }

  /**
   * Daily use as the dashboard makes it: every call records `key`, the days strictly ascend,
   * and every date already stored for `key` is older than all of them.
   */
  predicate DailyCalls(h: History, calls: seq<Call>, key: string) {
    && RecordedEachCall(calls, key)
    && (forall i, j :: 0 <= i < j < |calls| ==> Below(calls[i].today, calls[j].today))
    && (forall i, e :: 0 <= i < |calls| && e in SeriesOf(h, key) ==> Below(e, calls[i].today))
  }

  // ---------------------------------------------------------------------------
  // One series under successive records

  /** A date and the value recorded under it. */
  datatype Entry = Entry(day: string, value: real)

  /** A series after each entry in turn is upserted and the series trimmed. */
  function Roll(s: Series, entries: seq<Entry>): Series
    decreases |entries|
  {
    if entries == [] then s
    else
      var last := entries[|entries| - 1];
      Trim(Roll(s, entries[..|entries| - 1])[last.day := last.value])
  }

  /** What each call records for `key`: its day and today's value. */
  function EntriesOf(calls: seq<Call>, key: string): (es: seq<Entry>)
    requires RecordedEachCall(calls, key)
    ensures |es| == |calls|
    ensures forall i :: 0 <= i < |calls| ==> es[i].day == calls[i].today
  {
    seq(|calls|, i requires 0 <= i < |calls| =>
      Entry(calls[i].today, TodayValue(calls[i].items, calls[i].yearlyItems, key)))
  }

  /** The days of the entries. */
  function DaysIn(es: seq<Entry>): set<string> {
    set i | 0 <= i < |es| :: es[i].day
  }

  /** The entries' days strictly ascend, and every date of `s` is older than all of them. */
  predicate Ascending(s: Series, es: seq<Entry>) {
    && (forall i, j :: 0 <= i < j < |es| ==> Below(es[i].day, es[j].day))
    && (forall i, e :: 0 <= i < |es| && e in s ==> Below(e, es[i].day))
  }

  /** `kept` holds only dates of `all`, and every date of `all` it does not hold is older than every date it holds. */
  predicate KeepsNewest(kept: set<string>, all: set<string>) {
    && kept <= all
    && forall d, e :: d in kept && e in all && e !in kept ==> Below(e, d)
  }

  /**
   * Recording a day later than every date of `all` on a series that keeps the newest of `all`:
   * the series grows by one up to the window, holds the new day, and keeps the newest of `all`
   * and the new day.
   */
  lemma RollStep(s: Series, day: string, v: real, all: set<string>)
    requires forall e :: e in all ==> Below(e, day)
    requires KeepsNewest(s.Keys, all)
    ensures var t := Trim(s[day := v]);
      && |t| == (if |s| + 1 > Window then Window else |s| + 1)
      && day in t
      && KeepsNewest(t.Keys, all + {day})
  {
    var u := s[day := v];
    var t := Trim(u);
    BelowIrreflexive(day);
    assert day !in s;
    assert u.Keys == s.Keys + {day};
    TrimSize(u);
    assert Later(u.Keys, day) == {} by {
      forall e | e in u.Keys ensures !Below(day, e) {
        if e != day { BelowAsymmetric(e, day); }
      }
    }
    forall d, e | d in t.Keys && e in all + {day} && e !in t.Keys ensures Below(e, d) {
      if e in u {
        TrimKeepsLatest(u, d, e);
      } else if d != day {
        assert d in s.Keys;
      }
    }
  }

  /** Dropping the last entry leaves ascending entries, every one of them and every old date older than the last. */
  lemma RollPrefix(s: Series, es: seq<Entry>)
    requires Ascending(s, es) && es != []
    ensures var prefix := es[..|es| - 1];
      var last := es[|es| - 1];
      && Ascending(s, prefix)
      && DaysIn(es) == DaysIn(prefix) + {last.day}
      && (forall e :: e in s.Keys + DaysIn(prefix) ==> Below(e, last.day))
  {
    var n := |es| - 1;
    var prefix := es[..n];
    assert forall i :: 0 <= i < |prefix| ==> prefix[i] == es[i];
    assert DaysIn(es) == DaysIn(prefix) + {es[n].day} by {
      forall d | d in DaysIn(es) ensures d in DaysIn(prefix) + {es[n].day} {
        var i :| 0 <= i < |es| && es[i].day == d;
        if i < n { assert prefix[i] == es[i]; }
      }
    }
    forall e | e in s.Keys + DaysIn(prefix) ensures Below(e, es[n].day) {
      if e !in s.Keys {
        var i :| 0 <= i < |prefix| && prefix[i].day == e;
        assert prefix[i] == es[i];
      }
    }
  }

  /**
   * After N entries on ascending days a series holds min(n + N, 365) dates, where n is what it
   * held before, the latest day among them, and it keeps the newest of its old dates and the
   * entries' days.
   */
  lemma {:induction false} RollGrowth(s: Series, es: seq<Entry>)
    requires Ascending(s, es)
    ensures var t := Roll(s, es);
      && KeepsNewest(t.Keys, s.Keys + DaysIn(es))
      && (es != [] ==>
            && |t| == (if |s| + |es| > Window then Window else |s| + |es|)
            && es[|es| - 1].day in t)
    decreases |es|
  {
    if es != [] {
      var prefix := es[..|es| - 1];
      var last := es[|es| - 1];
      RollPrefix(s, es);
      RollGrowth(s, prefix);
      RollStep(Roll(s, prefix), last.day, last.value, s.Keys + DaysIn(prefix));
    }
  }

  // ---------------------------------------------------------------------------
  // From histories to series

  /** Across calls, the series of `key` is its old series rolled forward by what each call records for it. */
  lemma {:induction false} ReplaySeries(h: History, calls: seq<Call>, key: string)
    requires RecordedEachCall(calls, key)
    ensures SeriesOf(Replay(h, calls), key) == Roll(SeriesOf(h, key), EntriesOf(calls, key))
    decreases |calls|
  {
    if calls != [] {
      var prefix := calls[..|calls| - 1];
      var c := calls[|calls| - 1];
      assert RecordedEachCall(prefix, key) by {
        forall i | 0 <= i < |prefix| ensures key in prefix[i].items || key in prefix[i].yearlyItems {
          assert prefix[i] == calls[i];
        }
      }
      var es := EntriesOf(calls, key);
      var before := SeriesOf(Replay(h, prefix), key);
      assert before == Roll(SeriesOf(h, key), es[..|calls| - 1]) by {
        ReplaySeries(h, prefix, key);
        assert es[..|calls| - 1] == EntriesOf(prefix, key);
      }
      assert SeriesOf(Replay(h, calls), key) == Trim(before[c.today := TodayValue(c.items, c.yearlyItems, key)]) by {
        StoredAt(Replay(h, prefix), c.items, c.yearlyItems, c.today, key);
      }
    }
  }

  /**
   * After N daily calls a series holds min(n + N, 365) dates, where n is what it held before:
   * it grows by one a day until it fills the window and then stays full. Its dates are old
   * dates or call days, the latest day always among them, and every date it no longer holds
   * is older than every date it holds: it keeps the most recent ones.
   */
  lemma DailyGrowth(h: History, calls: seq<Call>, key: string)
    requires DailyCalls(h, calls, key)
    ensures var s := SeriesOf(Replay(h, calls), key);
      && KeepsNewest(s.Keys, SeriesOf(h, key).Keys + Days(calls))
      && (calls != [] ==>
            && |s| == (if |SeriesOf(h, key)| + |calls| > Window then Window else |SeriesOf(h, key)| + |calls|)
            && calls[|calls| - 1].today in s)
  {
    var es := EntriesOf(calls, key);
    var n := |SeriesOf(h, key)|;
    var t := Roll(SeriesOf(h, key), es);
    assert
      && KeepsNewest(t.Keys, SeriesOf(h, key).Keys + Days(calls))
      && (calls != [] ==> |t| == (if n + |calls| > Window then Window else n + |calls|) && calls[|calls| - 1].today in t)
    by {
      DailyEntries(h, calls, key);
      RollGrowth(SeriesOf(h, key), es);
    }
    assert SeriesOf(Replay(h, calls), key) == t by {
      ReplaySeries(h, calls, key);
    }
  }

  /** What daily calls record for `key` are entries on ascending days, on the calls' days. */
  lemma DailyEntries(h: History, calls: seq<Call>, key: string)
    requires DailyCalls(h, calls, key)
    ensures Ascending(SeriesOf(h, key), EntriesOf(calls, key))
    ensures DaysIn(EntriesOf(calls, key)) == Days(calls)
  {
  }
}
