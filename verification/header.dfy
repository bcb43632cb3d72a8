/** The cache controls of the page header: the status badge and the button
    that switches background refreshing on and off. */
module Header {
  import opened Optional
  import opened Strings
  import opened Models
  import opened CacheStatus
  import opened Scheduler

  // ---------------------------------------------------------------------------
  // Status badge

  /** The badge text: the whole minutes left while the data is fresh,
      otherwise whether background refreshing will take care of it. Both
      readings of the clock are taken as the single instant `now`. */
  function CacheStatusText(app: AppState, svc: Refresher, now: Instant): (text: string)
    ensures |text| >= 6
    ensures text == "Refreshing..." <==> !IsDataFresh(app, now).0 && svc.enabled
    ensures text == "Manual" <==> !IsDataFresh(app, now).0 && !svc.enabled
  {
    var (isFresh, checked) := IsDataFresh(app, now);
    var left := TimeUntilNextRefresh(checked, now);
    FreshIffTimeLeft(app, now);
    assert left == TimeUntilNextRefresh(app, now);
    if isFresh && left > 0 then
      var shown := "Fresh (" + NatToString(left / TicksPerMinute) + "m)";
      assert shown[0] == 'F';
      shown
    else if svc.enabled then "Refreshing..."
    else "Manual"
  }

  /** The badge colour: green while the data is fresh, yellow otherwise. */
  function CacheStatusColor(app: AppState, now: Instant): (color: string)
    ensures color == "text-green-600" <==> IsDataFresh(app, now).0
    ensures color == "text-green-600" || color == "text-yellow-600"
  {
    if IsDataFresh(app, now).0 then "text-green-600" else "text-yellow-600"
  }

  /** The badge says "Fresh" exactly when the data is fresh, then showing the
      whole minutes left (at most the configured interval), and otherwise
      tells the enabled flag of the service. */
  lemma {:induction false} CacheStatusTextMeaning(app: AppState, svc: Refresher, now: Instant)
    ensures var text := CacheStatusText(app, svc, now);
      && (text[..6] == "Fresh " <==> IsDataFresh(app, now).0)
      && (text == "Refreshing..." <==> !IsDataFresh(app, now).0 && svc.enabled)
      && (text == "Manual" <==> !IsDataFresh(app, now).0 && !svc.enabled)
    ensures IsDataFresh(app, now).0 ==>
      CacheStatusText(app, svc, now) == "Fresh (" + NatToString(TimeUntilNextRefresh(app, now) / TicksPerMinute) + "m)"
    ensures IsDataFresh(app, now).0 && now >= app.cacheMetadata.value.lastBackgroundRefresh ==>
      exists minutes: nat | minutes <= app.cacheMetadata.value.refreshIntervalMinutes ::
        CacheStatusText(app, svc, now) == "Fresh (" + NatToString(minutes) + "m)"
  {
    var (isFresh, checked) := IsDataFresh(app, now);
    FreshIffTimeLeft(app, now);
    assert TimeUntilNextRefresh(checked, now) == TimeUntilNextRefresh(app, now);
    var text := CacheStatusText(app, svc, now);
    if isFresh {
      var shown := "Fresh (" + NatToString(TimeUntilNextRefresh(checked, now) / TicksPerMinute) + "m)";
      assert text == shown && shown[..6] == "Fresh ";
      assert shown == "Fresh (" + NatToString(TimeUntilNextRefresh(app, now) / TicksPerMinute) + "m)";
    }
    if isFresh && now >= app.cacheMetadata.value.lastBackgroundRefresh {
      TimeLeftWithinInterval(app, now);
      var left := TimeUntilNextRefresh(app, now);
      var minutes: nat := left / TicksPerMinute;
      assert left <= app.cacheMetadata.value.refreshIntervalMinutes * TicksPerMinute;
      assert minutes <= app.cacheMetadata.value.refreshIntervalMinutes;
      assert text == "Fresh (" + NatToString(minutes) + "m)";
    }
    if !isFresh {
      assert "Fresh "[0] == 'F' && "Refreshing..."[..6][0] == 'R' && "Manual"[..6][0] == 'M';
      assert text == if svc.enabled then "Refreshing..." else "Manual";
    }
  }

  /** The badge text and colour agree on freshness. */
  lemma {:induction false} StatusTextMatchesColor(app: AppState, svc: Refresher, now: Instant)
    ensures CacheStatusText(app, svc, now)[..6] == "Fresh " <==> CacheStatusColor(app, now) == "text-green-600"
  {
    CacheStatusTextMeaning(app, svc, now);
  }

  // ---------------------------------------------------------------------------
  // The background-refresh button

  /** The button as written: it reads the service's flag, persists the opposite,
      and starts or stops the service, but never changes the service's flag. */
  function ToggleBackgroundRefreshAsWritten(w: World, now: Instant, timerStarts: bool): (v: World)
    ensures v.app == EnableBackgroundRefresh(w.app, !w.svc.enabled, now)
    ensures w.svc.enabled ==> v.svc == w.svc.(running := false)
    ensures !w.svc.enabled ==> v.svc == w.svc
  {
    var isEnabled := w.svc.enabled;
    var persisted := World(w.svc, EnableBackgroundRefresh(w.app, !isEnabled, now));
    if !isEnabled then Start(persisted, timerStarts) else Stop(persisted)
  }

  /** Once the service is enabled, the button as written can only ever persist
      "disabled": pressing it twice leaves refreshing switched off in storage
      while the service still reports itself enabled. */
  lemma {:induction false} ToggleAsWrittenCannotReenable(w: World, now: Instant, timerStarts: bool)
    requires w.svc.enabled
    ensures var v := ToggleBackgroundRefreshAsWritten(
                       ToggleBackgroundRefreshAsWritten(w, now, timerStarts), now, timerStarts);
      && v.app.cacheMetadata.Some? && !v.app.cacheMetadata.value.backgroundRefreshEnabled
      && v.svc.enabled && !v.svc.running
  {
  }

  /** The persisted flag of a state, false when there is no metadata. */
  function PersistedEnabled(app: AppState): bool
  {
    app.cacheMetadata.Some? && app.cacheMetadata.value.backgroundRefreshEnabled
  }

  /** The button as intended: it flips the service's flag through its setter
      and persists the same value. */
  function ToggleBackgroundRefresh(w: World, now: Instant, timerStarts: bool): (v: World)
    ensures v.svc.enabled == !w.svc.enabled
    ensures PersistedEnabled(v.app) == v.svc.enabled
    ensures !v.svc.enabled ==> !v.svc.running
    ensures v.app == EnableBackgroundRefresh(w.app, !w.svc.enabled, now)
  {
    var enabled := !w.svc.enabled;
    SetIsEnabled(World(w.svc, EnableBackgroundRefresh(w.app, enabled, now)), enabled, timerStarts)
  }

  /** Pressing the intended button twice restores the service's flag and the
      persisted one, and they agree. */
  lemma {:induction false} ToggleTwiceRestoresFlag(w: World, now: Instant, timerStarts: bool)
    ensures var v := ToggleBackgroundRefresh(ToggleBackgroundRefresh(w, now, timerStarts), now, timerStarts);
      v.svc.enabled == w.svc.enabled && PersistedEnabled(v.app) == w.svc.enabled
  {
  }
}
