/** The cache bookkeeping of `PromptService`: whether the cached catalog is
    stale, how long until the next refresh is due, and the two settings the
    user controls. `now` is the clock reading the source takes from
    `DateTime.UtcNow`. */
module CacheStatus {
  import opened Optional
  import opened Models

  /** The metadata a state carries, or the default created on demand. */
  function MetadataOrNew(s: AppState, now: Instant): CacheMetadata
  {
    s.cacheMetadata.GetOr(NewCacheMetadata(now))
  }

  /** The refresh interval of `m` in ticks (`TimeSpan.FromMinutes`). */
  function IntervalTicks(m: CacheMetadata): int
  {
    m.refreshIntervalMinutes * TicksPerMinute
  }

  /** The interval has elapsed since the last background refresh. */
  predicate IntervalElapsed(m: CacheMetadata, now: Instant)
  {
    now - m.lastBackgroundRefresh >= IntervalTicks(m)
  }

  /** `IsCacheStaleAsync`: stale when there is no metadata (which is then
      created), when no background refresh ever happened, or when the interval
      has elapsed since the last one; in the last case the verdict is also
      recorded in the metadata's `IsStale`. */
  function IsCacheStale(s: AppState, now: Instant): (r: (bool, AppState))
    ensures r.0 <==> s.cacheMetadata.None? || s.cacheMetadata.value.lastBackgroundRefresh == MinValue
                     || IntervalElapsed(s.cacheMetadata.value, now)
    ensures r.1.cacheMetadata.Some? && r.1 == s.(cacheMetadata := r.1.cacheMetadata)
    ensures s.cacheMetadata.None? ==> r.1.cacheMetadata == Some(NewCacheMetadata(now))
    ensures s.cacheMetadata.Some? && s.cacheMetadata.value.lastBackgroundRefresh == MinValue ==> r.1 == s
    ensures s.cacheMetadata.Some? && s.cacheMetadata.value.lastBackgroundRefresh != MinValue ==>
              r.1.cacheMetadata == Some(s.cacheMetadata.value.(isStale := r.0))
  {
    match s.cacheMetadata
    case None => (true, s.(cacheMetadata := Some(NewCacheMetadata(now))))
    case Some(m) =>
      if m.lastBackgroundRefresh == MinValue then (true, s)
      else
        var stale := IntervalElapsed(m, now);
        (stale, s.(cacheMetadata := Some(m.(isStale := stale))))
  }

  /** Asking twice at the same instant gives the same answer and changes nothing more. */
  lemma {:induction false} IsCacheStaleStable(s: AppState, now: Instant)
    ensures IsCacheStale(IsCacheStale(s, now).1, now) == IsCacheStale(s, now)
  {
  }

  /** `IsDataFreshAsync`. */
  function IsDataFresh(s: AppState, now: Instant): (r: (bool, AppState))
    ensures r.0 <==> s.cacheMetadata.Some? && s.cacheMetadata.value.lastBackgroundRefresh != MinValue
                     && !IntervalElapsed(s.cacheMetadata.value, now)
    ensures r.1 == IsCacheStale(s, now).1
  {
    var (stale, t) := IsCacheStale(s, now);
    (!stale, t)
  }

  /** `GetTimeUntilNextRefreshAsync`, in ticks: the rest of the interval, never
      negative, and zero when there is no metadata or no refresh happened yet. */
  function TimeUntilNextRefresh(s: AppState, now: Instant): (t: int)
    ensures t >= 0
    ensures s.cacheMetadata.None? || s.cacheMetadata.value.lastBackgroundRefresh == MinValue ==> t == 0
    ensures s.cacheMetadata.Some? && s.cacheMetadata.value.lastBackgroundRefresh != MinValue ==>
              t == (if IntervalElapsed(s.cacheMetadata.value, now) then 0
                    else IntervalTicks(s.cacheMetadata.value) - (now - s.cacheMetadata.value.lastBackgroundRefresh))
  {
    match s.cacheMetadata
    case None => 0
    case Some(m) =>
      if m.lastBackgroundRefresh == MinValue then 0
      else
        var remaining := IntervalTicks(m) - (now - m.lastBackgroundRefresh);
        if remaining > 0 then remaining else 0
  }

  /** At one instant, the data is fresh exactly when some time is left until
      the next refresh. */
  lemma {:induction false} FreshIffTimeLeft(s: AppState, now: Instant)
    ensures IsDataFresh(s, now).0 <==> TimeUntilNextRefresh(s, now) > 0
  {
  }

  /** The time left never exceeds the interval, as long as the clock has not
      gone back past the last refresh. */
  lemma {:induction false} TimeLeftWithinInterval(s: AppState, now: Instant)
    requires s.cacheMetadata.Some? && now >= s.cacheMetadata.value.lastBackgroundRefresh
    ensures TimeUntilNextRefresh(s, now) <= if s.cacheMetadata.value.refreshIntervalMinutes > 0
                                            then IntervalTicks(s.cacheMetadata.value) else 0
  {
  }

  /** A brand-new state has never been refreshed, so it is stale. */
  lemma {:induction false} NewStateIsStale(created: Instant, now: Instant)
    ensures IsCacheStale(NewAppState(created), now).0
    ensures TimeUntilNextRefresh(NewAppState(created), now) == 0
  {
  }

  /** `SetRefreshIntervalAsync`: stores the interval, at least one minute,
      creating the metadata if needed. */
  function SetRefreshInterval(s: AppState, minutes: int, now: Instant): (r: AppState)
    ensures r.cacheMetadata.Some? && r.cacheMetadata.value.refreshIntervalMinutes >= 1
    ensures minutes >= 1 ==> r.cacheMetadata.value.refreshIntervalMinutes == minutes
    ensures minutes < 1 ==> r.cacheMetadata.value.refreshIntervalMinutes == 1
    ensures r.cacheMetadata.value == MetadataOrNew(s, now).(refreshIntervalMinutes := r.cacheMetadata.value.refreshIntervalMinutes)
    ensures r == s.(cacheMetadata := r.cacheMetadata)
  {
    var m := MetadataOrNew(s, now);
    s.(cacheMetadata := Some(m.(refreshIntervalMinutes := if minutes > 1 then minutes else 1)))
  }

  /** `EnableBackgroundRefreshAsync`: stores the flag, creating the metadata if needed. */
  function EnableBackgroundRefresh(s: AppState, enabled: bool, now: Instant): (r: AppState)
    ensures r.cacheMetadata == Some(MetadataOrNew(s, now).(backgroundRefreshEnabled := enabled))
    ensures r == s.(cacheMetadata := r.cacheMetadata)
  {
    s.(cacheMetadata := Some(MetadataOrNew(s, now).(backgroundRefreshEnabled := enabled)))
  }

  /** Setting the interval again with the stored value changes nothing. */
  lemma {:induction false} SetRefreshIntervalIdempotent(s: AppState, minutes: int, now: Instant)
    ensures SetRefreshInterval(SetRefreshInterval(s, minutes, now), minutes, now) == SetRefreshInterval(s, minutes, now)
  {
  }
}
