/** When a fresh fetch is due, and when a cached snapshot may be used. Times are in milliseconds. */
module Staleness {
  import opened Common

  /**
   * The `needsUpdate` decision of checkForUpdates: forced, never updated, a different local
   * calendar day (`dayOf` stands for toDateString), or more than MaxAge elapsed.
   */
  predicate NeedsUpdate(forceUpdate: bool, lastUpdated: Option<int>, now: int, dayOf: int -> string) {
    || forceUpdate
    || lastUpdated.None?
    || dayOf(now) != dayOf(lastUpdated.value)
    || now - lastUpdated.value > MaxAge
  }

  /** The age test of loadCachedData: a cached snapshot is used only while younger than MaxAge. */
  predicate CacheUsable(timestamp: int, now: int) {
    now - timestamp < MaxAge
  }

  /**
   * On the same calendar day an unforced check refreshes exactly when more than MaxAge has
   * elapsed: not at MaxAge itself, but one millisecond later.
   */
  lemma SameDayRefresh(lastUpdated: int, now: int, dayOf: int -> string)
    requires dayOf(now) == dayOf(lastUpdated)
    ensures NeedsUpdate(false, Some(lastUpdated), now, dayOf) <==> now - lastUpdated > MaxAge
    ensures now - lastUpdated == MaxAge ==> !NeedsUpdate(false, Some(lastUpdated), now, dayOf)
    ensures now - lastUpdated == MaxAge + 1 ==> NeedsUpdate(false, Some(lastUpdated), now, dayOf)
  {
  }

  /** A forced check, a first check, or a check on a new day always refreshes. */
  lemma AlwaysRefreshes(forceUpdate: bool, lastUpdated: Option<int>, now: int, dayOf: int -> string)
    requires forceUpdate || lastUpdated.None? || dayOf(now) != dayOf(lastUpdated.value)
    ensures NeedsUpdate(forceUpdate, lastUpdated, now, dayOf)
  {
  }

  /**
   * The two age tests differ only at the boundary: a snapshot exactly MaxAge old is refused by
   * the cache yet not old enough for a same-day refresh. Any other age is either usable by the
   * cache or old enough to force a refresh.
   */
  lemma CacheAndRefreshBoundary(timestamp: int, now: int, dayOf: int -> string)
    ensures CacheUsable(timestamp, now) ==> dayOf(now) == dayOf(timestamp) ==> !NeedsUpdate(false, Some(timestamp), now, dayOf)
    ensures !CacheUsable(timestamp, now) && now - timestamp != MaxAge ==> NeedsUpdate(false, Some(timestamp), now, dayOf)
    ensures now - timestamp == MaxAge ==> !CacheUsable(timestamp, now) && (dayOf(now) == dayOf(timestamp) ==> !NeedsUpdate(false, Some(timestamp), now, dayOf))
  {
  }
}
