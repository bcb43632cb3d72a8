/** `BackgroundRefreshService` as a sequential state machine. The timer, the
    semaphore and the toast are plumbing; what remains is the service's own
    state next to the application state it refreshes. */
module Scheduler {
  import opened Optional
  import opened Models
  import opened CacheStatus
  import opened CatalogSync

  /** The service's fields: whether the timer runs, whether refreshing is
      enabled, the interval in minutes and the time of the last refresh. */
  datatype Refresher = Refresher(running: bool, enabled: bool, intervalMinutes: int, lastRefresh: Instant)

  /** A freshly constructed service. */
  const InitialRefresher: Refresher := Refresher(false, true, 60, MinValue)

  /** The service next to the application state it reads and refreshes. */
  datatype World = World(svc: Refresher, app: AppState)

  /** `Guid.NewGuid().ToString("N")`: thirty-two hexadecimal digits. */
  type GuidN = s: string | |s| == 32 witness "00000000000000000000000000000000"

  /** The inputs one catalog refresh consumes: the category index, the prompt
      files and the identifiers generated for prompts that lack one. */
  datatype Feed = Feed(index: Option<seq<Category>>, fetch: string -> Option<seq<Prompt>>, newId: nat -> Guid)

  /** The `RefreshIntervalMinutes` setter: at least one minute. Restarting a
      running timer changes no modelled state. */
  function SetRefreshIntervalMinutes(r: Refresher, value: int): (q: Refresher)
    ensures q.intervalMinutes >= 1
    ensures value >= 1 ==> q.intervalMinutes == value
    ensures value < 1 ==> q.intervalMinutes == 1
    ensures q == r.(intervalMinutes := q.intervalMinutes)
  {
    r.(intervalMinutes := if value > 1 then value else 1)
  }

  /** `LoadSettingsAsync`: copies interval, enabled flag and last refresh time
      from the cache metadata, when there is any (the interval unclamped). */
  function LoadSettings(r: Refresher, app: AppState): (q: Refresher)
    ensures app.cacheMetadata.None? ==> q == r
    ensures app.cacheMetadata.Some? ==>
      var m := app.cacheMetadata.value;
      q.intervalMinutes == m.refreshIntervalMinutes && q.enabled == m.backgroundRefreshEnabled
      && q.lastRefresh == m.lastBackgroundRefresh && q.running == r.running
  {
    match app.cacheMetadata
    case None => r
    case Some(m) => r.(intervalMinutes := m.refreshIntervalMinutes, enabled := m.backgroundRefreshEnabled,
                       lastRefresh := m.lastBackgroundRefresh)
  }

  /** The flag the header persists is the flag the service loads on its next
      start, and persisting it does not change whether the cache is stale. */
  lemma {:induction false} EnabledFlagPersists(r: Refresher, app: AppState, enabled: bool, now: Instant)
    ensures LoadSettings(r, EnableBackgroundRefresh(app, enabled, now)).enabled == enabled
    ensures IsCacheStale(EnableBackgroundRefresh(app, enabled, now), now).0 == IsCacheStale(app, now).0
  {
  }

  /** The service's setter and the persisted setting clamp the interval alike,
      so loading the persisted interval gives what the setter would store. */
  lemma {:induction false} IntervalPersists(r: Refresher, app: AppState, minutes: int, now: Instant)
    ensures LoadSettings(r, SetRefreshInterval(app, minutes, now)).intervalMinutes
            == SetRefreshIntervalMinutes(r, minutes).intervalMinutes
  {
  }

  /** `StartAsync`: nothing when already running or disabled; otherwise loads
      the settings and marks the service running. `timerStarts` is whether the
      timer could be created; when it throws, the service ends not running. */
  function Start(w: World, timerStarts: bool): (v: World)
    ensures v.app == w.app
    ensures w.svc.running || !w.svc.enabled ==> v == w
    ensures !w.svc.running && w.svc.enabled ==> v.svc == LoadSettings(w.svc, w.app).(running := timerStarts)
  {
    if w.svc.running || !w.svc.enabled then w
    else w.(svc := LoadSettings(w.svc, w.app).(running := timerStarts))
  }

  /** Starting takes the enabled flag from the metadata, so a started service
      can be running while disabled. */
  lemma {:induction false} RunningWhileDisabled(app: AppState)
    requires app.cacheMetadata.Some? && !app.cacheMetadata.value.backgroundRefreshEnabled
    ensures var v := Start(World(InitialRefresher, app), true); v.svc.running && !v.svc.enabled
  {
  }

  /** `StopAsync`: the service ends not running; nothing else changes. */
  function Stop(w: World): (v: World)
    ensures !v.svc.running
    ensures v == w.(svc := w.svc.(running := false))
  {
    if !w.svc.running then w else w.(svc := w.svc.(running := false))
  }

  /** Stopping twice is stopping once. */
  lemma {:induction false} StopIdempotent(w: World)
    ensures Stop(Stop(w)) == Stop(w)
  {
  }

  /** The `IsEnabled` setter: stores the flag, then stops a running service
      when disabling and starts a stopped one when enabling. */
  function SetIsEnabled(w: World, value: bool, timerStarts: bool): (v: World)
    ensures v.app == w.app
    ensures !value ==> v.svc == w.svc.(enabled := false, running := false)
    ensures value && w.svc.running ==> v.svc == w.svc.(enabled := true)
    ensures value && !w.svc.running ==> v.svc == LoadSettings(w.svc.(enabled := true), w.app).(running := timerStarts)
  {
    var stored := w.(svc := w.svc.(enabled := value));
    if !value && w.svc.running then Stop(stored)
    else if value && !w.svc.running then Start(stored, timerStarts)
    else stored
  }

  /** `ShouldRefreshAsync`: refresh when there is no metadata, when no
      background refresh ever happened, or when the interval has elapsed.
      It agrees with the catalog service's staleness test, and a refresh is
      due exactly when no time is left until the next one. */
  function ShouldRefresh(app: AppState, now: Instant): (r: bool)
    ensures r <==> IsCacheStale(app, now).0
    ensures r <==> TimeUntilNextRefresh(app, now) == 0
  {
    match app.cacheMetadata
    case None => true
    case Some(m) => m.lastBackgroundRefresh == MinValue || IntervalElapsed(m, now)
  }

  /** `UpdateCacheMetadataAsync`: stamps the refresh time, clears the stale flag
      and records a new eight-character data version; nothing without metadata. */
  function UpdateCacheMetadata(app: AppState, now: Instant, guid: GuidN): (r: AppState)
    ensures app.cacheMetadata.None? ==> r == app
    ensures app.cacheMetadata.Some? ==> r.cacheMetadata.Some?
    ensures app.cacheMetadata.Some? ==>
      var m := r.cacheMetadata.value;
      m.lastBackgroundRefresh == now && m.lastUpdated == now && !m.isStale
      && |m.dataVersion| == 8 && m.dataVersion == guid[..8]
      && m.refreshIntervalMinutes == app.cacheMetadata.value.refreshIntervalMinutes
      && m.backgroundRefreshEnabled == app.cacheMetadata.value.backgroundRefreshEnabled
    ensures r == app.(cacheMetadata := r.cacheMetadata)
  {
    match app.cacheMetadata
    case None => app
    case Some(m) =>
      app.(cacheMetadata := Some(m.(lastBackgroundRefresh := now, lastUpdated := now, isStale := false,
                                    dataVersion := guid[..8])))
  }

  /** How far a refresh gets. The catalog reload catches its own errors, so
      what can escape it is an exception from a state-changed handler: the
      one raised before the reload starts, with the loading flag already set,
      or the one raised after it ends, with the catalog already reloaded. The
      scheduler swallows either and skips the metadata update and the
      recorded refresh time, without undoing anything. */
  datatype Outcome = Completes | FailsBeforeReload | FailsAfterReload

  /** `RefreshDataAsync`: when enabled and due, reloads the catalog from `feed`,
      stamps the metadata and records the refresh time. */
  function RefreshData(w: World, now: Instant, feed: Feed, guid: GuidN, outcome: Outcome): (v: World)
    ensures !w.svc.enabled || !ShouldRefresh(w.app, now) ==> v == w
    ensures w.svc.enabled && ShouldRefresh(w.app, now) ==>
      && v.app.favorites == w.app.favorites && v.app.userRatings == w.app.userRatings
      && v.app.history == w.app.history
    ensures w.svc.enabled && ShouldRefresh(w.app, now) && outcome != Completes ==>
      && v.svc == w.svc && v.app.cacheMetadata == w.app.cacheMetadata
    ensures w.svc.enabled && ShouldRefresh(w.app, now) && outcome == FailsBeforeReload ==>
      v.app == w.app.(isLoading := true)
    ensures w.svc.enabled && ShouldRefresh(w.app, now) && outcome == FailsAfterReload ==>
      v.app == RefreshExternalData(w.app, feed.index, feed.fetch, feed.newId, now)
    ensures w.svc.enabled && ShouldRefresh(w.app, now) && outcome == Completes ==>
      v.app == UpdateCacheMetadata(RefreshExternalData(w.app, feed.index, feed.fetch, feed.newId, now), now, guid)
    ensures w.svc.enabled && ShouldRefresh(w.app, now) && outcome == Completes ==>
      && v.svc == w.svc.(lastRefresh := now) && !v.app.isLoading
      && (w.app.cacheMetadata.Some? ==> v.app.cacheMetadata.Some? && v.app.cacheMetadata.value.lastBackgroundRefresh == now)
  {
    if !w.svc.enabled || !ShouldRefresh(w.app, now) then w
    else match outcome
      case FailsBeforeReload => w.(app := w.app.(isLoading := true))
      case FailsAfterReload => w.(app := RefreshExternalData(w.app, feed.index, feed.fetch, feed.newId, now))
      case Completes =>
        var reloaded := RefreshExternalData(w.app, feed.index, feed.fetch, feed.newId, now);
        World(w.svc.(lastRefresh := now), UpdateCacheMetadata(reloaded, now, guid))
  }

  /** A refresh that fails leaves the metadata as it was, so the refresh is
      still due at the next tick; failing before the reload leaves the
      loading flag set. */
  lemma {:induction false} FailedRefreshStillDue(w: World, now: Instant, feed: Feed, guid: GuidN, outcome: Outcome)
    requires w.svc.enabled && ShouldRefresh(w.app, now) && outcome != Completes
    ensures var v := RefreshData(w, now, feed, guid, outcome);
      ShouldRefresh(v.app, now) && v.svc == w.svc
      && (outcome == FailsBeforeReload ==> v.app.isLoading)
  {
  }

  /** Right after a refresh the data is not due again, provided the interval
      is at least a minute and the clock reading is a real instant. */
  lemma {:induction false} RefreshedNotDue(w: World, now: Instant, feed: Feed, guid: GuidN)
    requires w.svc.enabled && ShouldRefresh(w.app, now)
    requires w.app.cacheMetadata.Some? && w.app.cacheMetadata.value.refreshIntervalMinutes >= 1
    requires now != MinValue
    ensures !ShouldRefresh(RefreshData(w, now, feed, guid, Completes).app, now)
  {
    var v := RefreshData(w, now, feed, guid, Completes);
    var m := v.app.cacheMetadata.value;
    assert m.refreshIntervalMinutes == w.app.cacheMetadata.value.refreshIntervalMinutes;
  }
}
