/** Whole runs of one installation at Central: heartbeats and checks of the connectivity monitor, in
    any order (apps/central/src/server.js). */
module AlertRuns {
  import Text
  import opened Optional
  import opened AlertHistory
  import opened AlertDiff
  import opened AlertConnectivity

  datatype Event =
    | Heartbeat(alerts: seq<Alert>, now: int)
    | Watch(offline: Alert, now: int)              // one check of the monitor, with the alert it would add

  // What Central stores of an installation.
  datatype Site = Site(history: seq<Entry>, heardAt: Option<int>)

  datatype Setting = Setting(keyOf: KeyOf, norm: Norm, canon: Canon, universe: Vocabulary, threshold: int, limit: nat)

  function ReportsOf(e: Event, w: Setting): seq<Report>
    requires e.Heartbeat?
  {
    Reports(e.alerts, w.keyOf)
  }

  function HeartbeatOutcome(s: Site, e: Event, w: Setting): Outcome
    requires e.Heartbeat?
  {
    Update(s.history, ReportsOf(e, w), w.canon, e.now, w.limit)
  }

  function WatchOutcome(s: Site, e: Event, w: Setting): Check
    requires e.Watch?
  {
    UpdateConnectivity(s.history, s.heardAt, e.now, w.threshold, e.offline, w.keyOf, w.canon, w.limit)
  }

  // The monitor stores its history only when it announced something.
  function Step(s: Site, e: Event, w: Setting): Site {
    match e
    case Heartbeat(_, now) => Site(HeartbeatOutcome(s, e, w).history, Some(now))
    case Watch(_, _) => var c := WatchOutcome(s, e, w); if c.changed then s.(history := c.history) else s
  }

  function Run(s: Site, events: seq<Event>, w: Setting): Site
    decreases |events|
  {
    if events == [] then s else Run(Step(s, events[0], w), events[1..], w)
  }

  // ---------------------------------------------------------------- the reference

  // A list of the active alerts and their levels, and nothing else.
  datatype Ledger = Ledger(last: map<string, string>, heardAt: Option<int>)

  predicate Overdue(heardAt: Option<int>, now: int, threshold: int) {
    heardAt.Some? && (now - heardAt.value) / 1000 > threshold
  }

  predicate Due(l: Ledger, e: Event, w: Setting)
    requires e.Watch?
  {
    Overdue(l.heardAt, e.now, w.threshold) && e.offline.key !in l.last
  }

  // A heartbeat replaces the list; an overdue check derives its keys again, each at its level, and adds
  // the communication alert.
  ghost function Next(l: Ledger, e: Event, w: Setting): Ledger {
    match e
    case Heartbeat(_, now) => Ledger(Levels(ReportsOf(e, w)), Some(now))
    case Watch(offline, _) =>
      if Due(l, e, w) then l.(last := Derived(l.last, w.norm)[offline.key := offline.level]) else l
  }

  ghost function After(l: Ledger, events: seq<Event>, w: Setting): Ledger
    decreases |events|
  {
    if events == [] then l else After(Next(l, events[0], w), events[1..], w)
  }

  // What one event notifies according to the reference: a check announces its own alert, and those keys
  // that resurface under another name or at a worse level.
  ghost predicate AsInLedger(s: Site, l: Ledger, e: Event, w: Setting) {
    match e
    case Heartbeat(_, _) => IsDiff(HeartbeatOutcome(s, e, w), l.last, ReportsOf(e, w))
    case Watch(offline, _) =>
      var c := WatchOutcome(s, e, w);
      && (c.changed <==> Due(l, e, w))
      && Notifies(c.novos, if Due(l, e, w) then Announced(l.last, w.norm, offline) else {})
  }

  // Every event of the run notifies what the reference says, and leaves active what it lists.
  ghost predicate RunAsInLedger(s: Site, l: Ledger, events: seq<Event>, w: Setting)
    decreases |events|
  {
    events == [] ||
    var s', l' := Step(s, events[0], w), Next(l, events[0], w);
    && AsInLedger(s, l, events[0], w) && Tracks(s'.history, l'.last)
    && RunAsInLedger(s', l', events[1..], w)
  }

  // ---------------------------------------------------------------- the runs considered

  ghost predicate NonBlank(ks: set<string>, norm: Norm) { forall k :: k in ks ==> norm(k) != "" }

  ghost predicate KeysSettled(ks: set<string>, norm: Norm) { forall k :: k in ks ==> norm(k) == k }

  ghost predicate GoodBeat(rs: seq<Report>, w: Setting) {
    GoodList(rs, w.canon, w.universe) && DistinctKeys(rs) && |rs| <= w.limit && NonBlank(KeySet(rs), w.norm)
  }

  ghost predicate GoodOffline(offline: Alert, w: Setting) { GoodOwn(offline, w.keyOf, w.norm, w.canon, w.universe) }

  // When a check acts, the active keys stay apart when they are derived again, and there is room for
  // one more.  A settled key meets every other condition on them by itself.
  ghost predicate GoodEvent(l: Ledger, e: Event, w: Setting) {
    match e
    case Heartbeat(_, _) => GoodBeat(ReportsOf(e, w), w)
    case Watch(offline, _) =>
      && GoodOffline(offline, w)
      && (Due(l, e, w) ==>
            GoodActive(l.last.Keys, offline.key, w.norm, w.canon, w.universe) && |l.last.Keys| < w.limit)
  }

  ghost predicate GoodRun(l: Ledger, t: int, events: seq<Event>, w: Setting)
    decreases |events|
  {
    events == [] ||
    (t < events[0].now && GoodEvent(l, events[0], w) && GoodRun(Next(l, events[0], w), events[0].now, events[1..], w))
  }

  function ClockAfter(t: int, events: seq<Event>): int
    decreases |events|
  {
    if events == [] then t else ClockAfter(events[0].now, events[1..])
  }

  // ---------------------------------------------------------------- the invariant

  ghost predicate InStep(s: Site, l: Ledger, t: int, w: Setting) {
    && Sound(s.history, l.last, w.canon, w.universe, t) && FieldsFilled(s.history)
    && l.last.Keys <= w.universe.Keys && NonBlank(l.last.Keys, w.norm) && s.heardAt == l.heardAt
  }

  lemma InitiallyInStep(t: int, w: Setting)
    ensures InStep(Site([], None), Ledger(map[], None), t, w)
  {}

  lemma LaterInStep(s: Site, l: Ledger, t: int, now: int, w: Setting)
    requires InStep(s, l, t, w) && t <= now
    ensures InStep(s, l, now, w)
  {}

  lemma ActiveFollowLedger(h: seq<Entry>, l: Ledger, norm: Norm)
    requires Tracks(h, l.last)
    ensures AllSettled(h, norm) <==> KeysSettled(l.last.Keys, norm)
    ensures NonBlank(l.last.Keys, norm) ==> KeysNonBlank(h, norm)
    ensures ActiveKeys(h) == l.last.Keys
  {
    SettledKeys(h, norm);
    assert ActiveKeys(h) == l.last.Keys;
  }

  lemma BeatStep(s: Site, l: Ledger, t: int, e: Event, w: Setting)
    requires InStep(s, l, t, w) && t < e.now && e.Heartbeat? && GoodEvent(l, e, w)
    ensures AsInLedger(s, l, e, w) && InStep(Step(s, e, w), Next(l, e, w), e.now, w)
  {
    var rs := ReportsOf(e, w);
    HeartbeatRefinesDiff(s.history, l.last, rs, w.canon, w.universe, t, e.now, w.limit);
    UpdateFills(s.history, rs, w.canon, e.now, w.limit);
    GoodKeys(rs, w.canon, w.universe);
  }

  // The ledger that a check leaves, under the conditions of the invariant.
  lemma DerivedIsGood(l: Ledger, offline: Alert, w: Setting)
    requires Keying(w.keyOf, w.norm) && GoodOffline(offline, w) && NonBlank(l.last.Keys, w.norm)
    requires GoodActive(l.last.Keys, offline.key, w.norm, w.canon, w.universe)
    ensures var next := Derived(l.last, w.norm)[offline.key := offline.level];
            next.Keys <= w.universe.Keys && NonBlank(next.Keys, w.norm)
  {
    var next := Derived(l.last, w.norm)[offline.key := offline.level];
    OwnReport(offline, w.keyOf, w.norm);
    forall d | d in next.Keys ensures d in w.universe && w.norm(d) != "" {
      if d != offline.key {
        var k := Origin(w.norm, l.last.Keys, d);
        assert Derivable(k, w.norm, w.canon, w.universe) && w.norm(k) != "";
      }
    }
  }

  lemma WatchStep(s: Site, l: Ledger, t: int, e: Event, w: Setting)
    requires Keying(w.keyOf, w.norm)
    requires InStep(s, l, t, w) && t < e.now && e.Watch? && GoodEvent(l, e, w)
    ensures AsInLedger(s, l, e, w) && InStep(Step(s, e, w), Next(l, e, w), e.now, w)
  {
    KnownIffActive(s.history, l.last, e.offline.key);
    if Due(l, e, w) {
      DueStep(s, l, t, e, w);
    } else {
      LaterInStep(s, l, t, e.now, w);
    }
  }

  lemma DueStep(s: Site, l: Ledger, t: int, e: Event, w: Setting)
    requires Keying(w.keyOf, w.norm)
    requires InStep(s, l, t, w) && t < e.now && e.Watch? && GoodEvent(l, e, w) && Due(l, e, w)
    requires !Known(s.history, e.offline.key)
    ensures AsInLedger(s, l, e, w) && InStep(Step(s, e, w), Next(l, e, w), e.now, w)
  {
    var o := Update(s.history, MonitorReports(s.history, e.offline, w.keyOf), w.canon, e.now, w.limit);
    DueUpdate(s, l, t, e.offline, e.now, w);
    assert WatchOutcome(s, e, w) == Check(true, o.history, o.novos);
  }

  lemma DueUpdate(s: Site, l: Ledger, t: int, offline: Alert, now: int, w: Setting)
    requires Keying(w.keyOf, w.norm) && InStep(s, l, t, w) && t < now && offline.key !in l.last
    requires |l.last.Keys| < w.limit
    requires GoodOffline(offline, w) && GoodActive(l.last.Keys, offline.key, w.norm, w.canon, w.universe)
    ensures var o := Update(s.history, MonitorReports(s.history, offline, w.keyOf), w.canon, now, w.limit);
            && |o.novos| > 0 && Notifies(o.novos, Announced(l.last, w.norm, offline))
            && var next := Derived(l.last, w.norm)[offline.key := offline.level];
               InStep(Site(o.history, s.heardAt), l.(last := next), now, w)
  {
    var rs := MonitorReports(s.history, offline, w.keyOf);
    ActiveFollowLedger(s.history, l, w.norm);
    MonitorFeedsBack(s.history, l.last, now, offline, w.keyOf, w.norm, w.canon, w.universe, t, w.limit);
    UpdateFills(s.history, rs, w.canon, now, w.limit);
    DerivedIsGood(l, offline, w);
    OwnIsNotified(Update(s.history, rs, w.canon, now, w.limit).novos, l.last, w.norm, offline);
  }

  lemma OwnIsNotified(ns: seq<Notice>, last: map<string, string>, norm: Norm, offline: Alert)
    requires Notifies(ns, Announced(last, norm, offline))
    ensures |ns| > 0
  {
    assert (offline.key, offline.level) in Pairs(ns);
  }

  /** When the active keys are settled, a check that acts announces the silence and nothing else, and only
      adds it to the list. */
  lemma SettledCheckAddsOne(l: Ledger, e: Event, w: Setting, ns: seq<Notice>)
    requires e.Watch? && Due(l, e, w) && KeysSettled(l.last.Keys, w.norm)
    ensures Next(l, e, w).last == l.last[e.offline.key := e.offline.level]
    ensures Notifies(ns, Announced(l.last, w.norm, e.offline)) ==> Pairs(ns) == [(e.offline.key, e.offline.level)]
    ensures l.last.Keys <= w.universe.Keys ==> GoodActive(l.last.Keys, e.offline.key, w.norm, w.canon, w.universe)
  {
    SettledIsDerived(l.last, w.norm);
    SettledAnnounced(l.last, w.norm, e.offline);
    if Notifies(ns, Announced(l.last, w.norm, e.offline)) { OneNotice(ns, (e.offline.key, e.offline.level)); }
  }

  lemma StepInStep(s: Site, l: Ledger, t: int, e: Event, w: Setting)
    requires Keying(w.keyOf, w.norm) && InStep(s, l, t, w) && t < e.now && GoodEvent(l, e, w)
    ensures AsInLedger(s, l, e, w) && InStep(Step(s, e, w), Next(l, e, w), e.now, w)
  {
    if e.Heartbeat? { BeatStep(s, l, t, e, w); } else { WatchStep(s, l, t, e, w); }
  }

  lemma {:induction false} RunInStep(s: Site, l: Ledger, t: int, events: seq<Event>, w: Setting)
    requires Keying(w.keyOf, w.norm) && InStep(s, l, t, w) && GoodRun(l, t, events, w)
    ensures InStep(Run(s, events, w), After(l, events, w), ClockAfter(t, events), w)
    decreases |events|
  {
    if events != [] {
      StepInStep(s, l, t, events[0], w);
      RunInStep(Step(s, events[0], w), Next(l, events[0], w), events[0].now, events[1..], w);
    }
  }

  /** Whatever heartbeats and checks follow each other, and however much of the history was cut off on
      the way: every heartbeat notifies exactly the difference from the list before it, and a check
      announces the silence once, with the alerts that it gives another key, and goes on with the others. */
  lemma {:induction false} RunFollowsLedger(s: Site, l: Ledger, t: int, events: seq<Event>, w: Setting)
    requires Keying(w.keyOf, w.norm) && InStep(s, l, t, w) && GoodRun(l, t, events, w)
    ensures RunAsInLedger(s, l, events, w)
    decreases |events|
  {
    if events != [] {
      StepInStep(s, l, t, events[0], w);
      RunFollowsLedger(Step(s, events[0], w), Next(l, events[0], w), events[0].now, events[1..], w);
    }
  }

  // The keys of the universe include what deriving them again makes of them.
  ghost predicate Closed(w: Setting) { forall k :: k in w.universe ==> w.norm(k) in w.universe }

  lemma FedBackKeys(s: Site, l: Ledger, t: int, e: Event, w: Setting)
    requires Keying(w.keyOf, w.norm) && InStep(s, l, t, w) && Closed(w)
    requires e.Watch? && GoodOffline(e.offline, w) && e.offline.key !in l.last
    ensures KeySet(MonitorReports(s.history, e.offline, w.keyOf)) <= w.universe.Keys
  {
    ActiveFollowLedger(s.history, l, w.norm);
    MonitorKeys(s.history, e.offline, w.keyOf, w.norm);
    OwnReport(e.offline, w.keyOf, w.norm);
  }

  lemma ResolvesNoneIff(s: Site, l: Ledger, t: int, e: Event, w: Setting)
    requires Keying(w.keyOf, w.norm) && InStep(s, l, t, w) && Closed(w)
    requires e.Watch? && GoodOffline(e.offline, w) && e.offline.key !in l.last
    ensures var rs := MonitorReports(s.history, e.offline, w.keyOf);
            NoticeKeys(Update(s.history, rs, w.canon, e.now, w.limit).resolvidos) == {} <==>
            KeysSettled(l.last.Keys, w.norm)
  {
    FedBackKeys(s, l, t, e, w);
    ActiveFollowLedger(s.history, l, w.norm);
    MonitorResolvesNoneIff(s.history, e.offline, w.keyOf, w.norm, w.canon, w.universe, e.now, w.limit);
  }

  lemma ActsIff(s: Site, l: Ledger, t: int, e: Event, w: Setting)
    requires Keying(w.keyOf, w.norm) && InStep(s, l, t, w) && Closed(w) && e.Watch? && GoodOffline(e.offline, w)
    ensures WatchOutcome(s, e, w).changed <==> Due(l, e, w)
  {
    KnownIffActive(s.history, l.last, e.offline.key);
    if e.offline.key !in l.last {
      FedBackKeys(s, l, t, e, w);
      ActiveFollowLedger(s.history, l, w.norm);
      OwnReport(e.offline, w.keyOf, w.norm);
      MonitorActsIff(s.history, s.heardAt, e.now, w.threshold, e.offline, w.keyOf, w.canon, w.universe, w.limit);
    }
  }

  /** Whether the condition on keys can be dropped: on every history that a run from nothing reaches, an
      overdue check resolves nothing exactly when deriving any active key again leaves it alone. */
  lemma ReachedMonitorIff(events: seq<Event>, t: int, e: Event, w: Setting)
    requires Keying(w.keyOf, w.norm) && GoodRun(Ledger(map[], None), t, events, w) && Closed(w)
    requires e.Watch? && GoodOffline(e.offline, w) && Due(After(Ledger(map[], None), events, w), e, w)
    ensures var h := Run(Site([], None), events, w).history;
            NoticeKeys(Update(h, MonitorReports(h, e.offline, w.keyOf), w.canon, e.now, w.limit).resolvidos) == {} <==>
            KeysSettled(After(Ledger(map[], None), events, w).last.Keys, w.norm)
  {
    InitiallyInStep(t, w);
    RunInStep(Site([], None), Ledger(map[], None), t, events, w);
    ResolvesNoneIff(Run(Site([], None), events, w), After(Ledger(map[], None), events, w), ClockAfter(t, events), e, w);
  }

  /** On every such history a check acts exactly when the heartbeat is overdue and the silence is not
      yet announced, whatever the other keys are. */
  lemma ReachedMonitorActsIff(events: seq<Event>, t: int, e: Event, w: Setting)
    requires Keying(w.keyOf, w.norm) && GoodRun(Ledger(map[], None), t, events, w) && Closed(w)
    requires e.Watch? && GoodOffline(e.offline, w)
    ensures WatchOutcome(Run(Site([], None), events, w), e, w).changed <==>
            Due(After(Ledger(map[], None), events, w), e, w)
  {
    InitiallyInStep(t, w);
    RunInStep(Site([], None), Ledger(map[], None), t, events, w);
    ActsIff(Run(Site([], None), events, w), After(Ledger(map[], None), events, w), ClockAfter(t, events), e, w);
  }

  // With the key derivation of the source, and the monitor's own alert.
  function Central(canon: Canon, universe: Vocabulary, threshold: int, limit: nat): Setting {
    Setting(AlertKey, NormKey, canon, universe, threshold, limit)
  }

  /** The same for the key derivation of the source, from the first heartbeat on. */
  lemma CentralFollowsLedger(events: seq<Event>, t: int, canon: Canon, universe: Vocabulary, threshold: int, limit: nat)
    requires GoodRun(Ledger(map[], None), t, events, Central(canon, universe, threshold, limit))
    ensures RunAsInLedger(Site([], None), Ledger(map[], None), events, Central(canon, universe, threshold, limit))
  {
    var w := Central(canon, universe, threshold, limit);
    AlertKeyKeying();
    InitiallyInStep(t, w);
    RunFollowsLedger(Site([], None), Ledger(map[], None), t, events, w);
  }

  ghost predicate AllAre(alerts: seq<Alert>, test: Alert -> bool) { forall i :: 0 <= i < |alerts| ==> test(alerts[i]) }

  predicate Settles(a: Alert) { Settled(AlertKey(a)) }

  // The alert has a key, or a code that is more than blanks, or no code at all.
  predicate HasName(a: Alert) { Text.Trim(a.key) != "" || a.code == "" || Text.Trim(a.code) != "" }

  lemma SettledKeySet(alerts: seq<Alert>, keyOf: KeyOf, norm: Norm)
    requires forall i :: 0 <= i < |alerts| ==> norm(keyOf(alerts[i])) == keyOf(alerts[i])
    ensures KeysSettled(KeySet(Reports(alerts, keyOf)), norm)
  {}

  /** The condition on keys in terms of the alerts: `StoredKeyIsSettledIff` says of each whether it is met. */
  lemma SettledAlerts(alerts: seq<Alert>)
    requires AllAre(alerts, Settles)
    ensures KeysSettled(KeySet(Reports(alerts, AlertKey)), NormKey)
  {
    forall i | 0 <= i < |alerts| ensures NormKey(AlertKey(alerts[i])) == AlertKey(alerts[i]) {
      assert Settles(alerts[i]);
    }
    SettledKeySet(alerts, AlertKey, NormKey);
  }

  lemma NonBlankKeySet(alerts: seq<Alert>, keyOf: KeyOf, norm: Norm)
    requires forall i :: 0 <= i < |alerts| ==> norm(keyOf(alerts[i])) != ""
    ensures NonBlank(KeySet(Reports(alerts, keyOf)), norm)
  {}

  lemma NamedAlert(a: Alert)
    requires HasName(a)
    ensures NormKey(AlertKey(a)) != ""
  {
    StoredKeyIsBlankIff(a);
  }

  /** And no key is blank, except of an alert without key whose code is nothing but blanks. */
  lemma NamedAlerts(alerts: seq<Alert>)
    requires AllAre(alerts, HasName)
    ensures NonBlank(KeySet(Reports(alerts, AlertKey)), NormKey)
  {
    forall i | 0 <= i < |alerts| ensures NormKey(AlertKey(alerts[i])) != "" {
      assert HasName(alerts[i]);
      NamedAlert(alerts[i]);
    }
    NonBlankKeySet(alerts, AlertKey, NormKey);
  }
}
