/** Live-view leases with lazy expiry, and the QoS parameters cached on top of them
    (services/ai-service-python/stream_processor.py). */
module LiveView {
  import opened Basics
  import opened Optional
  import opened Text
  import opened AdaptiveLadder

  datatype ViewMode = SelectedView | GridView
  datatype Lease = Lease(until: real, mode: ViewMode)
  type Sessions = map<string, Lease>

  function NormalizeViewMode(raw: string): ViewMode {
    if Lower(Strip(raw)) == "selected" then SelectedView else GridView
  }

  // The text without white space at its ends, in lower case, is exactly this word.
  ghost predicate Reads(raw: string, word: string) {
    exists i, j :: IsInner(raw, i, j, IsPythonSpace) && Lower(raw[i..j]) == word
  }

  lemma InnerIsUnique(s: string, i: int, j: int, k: int, l: int)
    requires IsInner(s, i, j, IsPythonSpace) && IsInner(s, k, l, IsPythonSpace)
    ensures s[i..j] == s[k..l]
  {
    if i < j && k < l { assert i == k && j == l; }
  }

  /** A view counts as selected exactly when that is what its text reads, and as one of the grid otherwise. */
  lemma SelectedIff(raw: string)
    ensures NormalizeViewMode(raw) == SelectedView <==> Reads(raw, "selected")
  {
    var i, j := StripIsInner(raw);
    if Reads(raw, "selected") {
      var k, l :| IsInner(raw, k, l, IsPythonSpace) && Lower(raw[k..l]) == "selected";
      InnerIsUnique(raw, i, j, k, l);
    }
  }

  function ClampTtl(ttl: int): int { Max(5, Min(120, ttl)) }

  // ---------------------------------------------------------------- the lazily cleaned map

  function Clean(s: Sessions, now: real): Sessions {
    map id | id in s && s[id].until > now :: s[id]
  }

  datatype Op =
    | Touch(id: string, ttl: int, mode: ViewMode, now: real)
    | Stop(id: string, now: real)
    | Sweep(now: real)

  function LeaseOf(op: Op): Lease
    requires op.Touch?
  {
    Lease(op.now + ClampTtl(op.ttl) as real, op.mode)
  }

  function Apply(s: Sessions, op: Op): Sessions {
    match op
    case Touch(id, ttl, mode, now) => Clean(Clean(s, now)[id := LeaseOf(op)], now)
    case Stop(id, now) => Clean(Clean(s, now) - {id}, now)
    case Sweep(now) => Clean(s, now)
  }

  function After(ops: seq<Op>): Sessions {
    if ops == [] then map[] else Apply(After(ops[..|ops| - 1]), ops[|ops| - 1])
  }

  // ---------------------------------------------------------------- the log specification

  predicate Concerns(op: Op, id: string) { !op.Sweep? && op.id == id }

  // Operation i touched the session, and nothing later concerned it.
  ghost predicate LastTouch(ops: seq<Op>, id: string, i: int) {
    0 <= i < |ops| && ops[i].Touch? && ops[i].id == id && forall j :: i < j < |ops| ==> !Concerns(ops[j], id)
  }

  // No clock reading from the touch on has reached its end.
  ghost predicate Unexpired(ops: seq<Op>, i: int)
    requires 0 <= i < |ops| && ops[i].Touch?
  {
    forall j :: i <= j < |ops| ==> ops[j].now < LeaseOf(ops[i]).until
  }

  ghost predicate LiveAt(ops: seq<Op>, id: string, i: int) { LastTouch(ops, id, i) && Unexpired(ops, i) }

  /** For any clock, even one that runs backwards: a session is in the map exactly when its
      last operation is a touch and no clock reading since has reached the touch's end. */
  lemma {:induction false} LeaseMapIsLog(ops: seq<Op>, id: string)
    ensures id in After(ops) <==> exists i :: LiveAt(ops, id, i)
    ensures forall i :: LiveAt(ops, id, i) ==> id in After(ops) && After(ops)[id] == LeaseOf(ops[i])
  {
    if ops != [] {
      var before, op := ops[..|ops| - 1], ops[|ops| - 1];
      assert ops == before + [op];
      LeaseMapIsLog(before, id);
      AfterOneMore(before, op);
      LogStep(before, op, id, After(before));
    }
  }

  lemma AfterOneMore(ops: seq<Op>, op: Op)
    ensures After(ops + [op]) == Apply(After(ops), op)
  {
    assert (ops + [op])[..|ops|] == ops;
  }

  // What one operation does to a session, in the map and in the log.
  lemma LogStep(before: seq<Op>, op: Op, id: string, s: Sessions)
    requires id in s <==> exists i :: LiveAt(before, id, i)
    requires forall i :: LiveAt(before, id, i) ==> id in s && s[id] == LeaseOf(before[i])
    ensures var ops, t := before + [op], Apply(s, op);
            && (id in t <==> exists i :: LiveAt(ops, id, i))
            && (forall i :: LiveAt(ops, id, i) ==> id in t && t[id] == LeaseOf(ops[i]))
  {
    var ops, t := before + [op], Apply(s, op);
    forall i ensures LiveAt(ops, id, i) <==> StaysLive(before, op, id, i) || StartsLive(before, op, id, i) {
      LiveSnoc(before, op, id, i);
    }
    forall i | LiveAt(ops, id, i) ensures id in t && t[id] == LeaseOf(ops[i]) {
      if i < |before| { assert ops[i] == before[i]; } else { assert ops[i] == op; }
    }
    if id in t {
      if op.Touch? && op.id == id {
        assert StartsLive(before, op, id, |before|);
      } else {
        var i :| LiveAt(before, id, i);
        assert StaysLive(before, op, id, i);
      }
    }
  }

  // The newest operation touches the session for a time that has not passed.
  ghost predicate StartsLive(ops: seq<Op>, op: Op, id: string, i: int) {
    i == |ops| && op.Touch? && op.id == id && op.now < LeaseOf(op).until
  }

  // An earlier touch survives the newest operation.
  ghost predicate StaysLive(ops: seq<Op>, op: Op, id: string, i: int) {
    LiveAt(ops, id, i) && !Concerns(op, id) && op.now < LeaseOf(ops[i]).until
  }

  lemma LiveSnoc(ops: seq<Op>, op: Op, id: string, i: int)
    ensures LiveAt(ops + [op], id, i) <==> StaysLive(ops, op, id, i) || StartsLive(ops, op, id, i)
  {
    var all := ops + [op];
    assert all[|ops|] == op && forall j :: 0 <= j < |ops| ==> all[j] == ops[j];
  }

  ghost predicate ClockAdvances(ops: seq<Op>) { forall i, j :: 0 <= i < j < |ops| ==> ops[i].now <= ops[j].now }

  lemma UnexpiredAtTheEnd(ops: seq<Op>, i: nat)
    requires ClockAdvances(ops) && i < |ops| && ops[i].Touch?
    ensures Unexpired(ops, i) <==> ops[|ops| - 1].now < LeaseOf(ops[i]).until
  {
    if ops[|ops| - 1].now < LeaseOf(ops[i]).until {
      forall j | i <= j < |ops| ensures ops[j].now < LeaseOf(ops[i]).until {
        assert j < |ops| - 1 ==> ops[j].now <= ops[|ops| - 1].now;
      }
    }
  }

  /** With a clock that does not run backwards, a session is live exactly when its last
      operation is a touch whose end lies in the future. */
  lemma LiveIffLastTouchInFuture(ops: seq<Op>, id: string)
    requires ops != [] && ClockAdvances(ops)
    ensures id in After(ops) <==>
            exists i :: LastTouch(ops, id, i) && LeaseOf(ops[i]).until > ops[|ops| - 1].now
  {
    LeaseMapIsLog(ops, id);
    if i :| LastTouch(ops, id, i) && LeaseOf(ops[i]).until > ops[|ops| - 1].now {
      UnexpiredAtTheEnd(ops, i);
      assert LiveAt(ops, id, i);
    }
    if i :| LiveAt(ops, id, i) { UnexpiredAtTheEnd(ops, i); }
  }

  /** A touch gives the session its view mode, and a lease of the time asked for, but of at least 5 and
      at most 120 seconds; every other lease stays if it is not over. */
  lemma TouchLasts(s: Sessions, id: string, ttl: int, mode: ViewMode, now: real)
    ensures var t := Apply(s, Touch(id, ttl, mode, now));
            && id in t && t[id] == Lease(now + (if ttl < 5 then 5 else if ttl > 120 then 120 else ttl) as real, mode)
            && (forall other :: other != id ==>
                  (other in t <==> other in s && s[other].until > now) && (other in t ==> t[other] == s[other]))
  {}

  // ---------------------------------------------------------------- modes in view

  function Target(s: Sessions, qosLive: bool): QosMode {
    if !qosLive then Base
    else if exists id :: id in s && s[id].mode == SelectedView then Selected
    else if exists id :: id in s && s[id].mode == GridView then Grid
    else Base
  }

  /** The mode of the live leases: selected as soon as one lease asks for it, the basic one without any
      lease or when the live mode is switched off, and that of the grid otherwise. */
  lemma ModeOfLeases(s: Sessions, qosLive: bool)
    ensures Target(s, qosLive) == Base <==> !qosLive || s == map[]
    ensures Target(s, qosLive) == Selected <==> qosLive && exists id :: id in s && s[id].mode == SelectedView
  {
    if qosLive && s != map[] {
      assert s.Keys != {};
      var id :| id in s.Keys;
      assert s[id].mode == SelectedView || s[id].mode == GridView;
    }
  }

  // force_awake_until: the last end of a live lease, 0 without one.
  ghost predicate IsHorizon(s: Sessions, h: real) {
    if s == map[] then h == 0.0
    else (exists id :: id in s && s[id].until == h) && (forall id :: id in s ==> s[id].until <= h)
  }

  // ---------------------------------------------------------------- the cached parameters

  datatype Config = Config(
    advanced: bool, qosLive: bool, adaptive: bool,
    base: Setting, selected: Setting, grid: Setting, profiles: Profiles, limits: Limits)

  predicate GoodConfig(c: Config) {
    NonEmpty(c.profiles.base) && NonEmpty(c.profiles.selected) && NonEmpty(c.profiles.grid)
  }

  function SettingOf(c: Config, mode: QosMode): Setting {
    match mode case Base => c.base case Selected => c.selected case Grid => c.grid
  }

  // A fresh computation; an input size of 0 stands for "no hint".
  function Compute(c: Config, mode: QosMode, r: Rung): Params
    requires GoodConfig(c)
  {
    if !c.advanced then Floored(c.base).(inputSize := 0)
    else if c.adaptive then Scaled(SettingOf(c, mode), ProfileOf(c.profiles, mode), r)
    else Floored(SettingOf(c, mode))
  }

  // The parameters in force and the signature they were last computed for.
  datatype Cached = Cached(mode: QosMode, params: Params, signature: Option<(QosMode, Rung)>)

  function Refresh(c: Config, q: Cached, target: QosMode, rs: Rungs): Cached
    requires GoodConfig(c)
  {
    var signature := Some((target, RungOf(rs, target)));
    if q.mode == target && q.signature == signature then q
    else Cached(target, Compute(c, target, RungOf(rs, target)), signature)
  }

  predicate CacheValid(c: Config, q: Cached)
    requires GoodConfig(c)
  {
    q.signature.Some? ==> q.params == Compute(c, q.signature.value.0, q.signature.value.1)
  }

  // Everything under the live-view lock.
  datatype State = State(sessions: Sessions, cached: Cached, meter: Meter)

  datatype Event =
    | TouchCall(id: string, ttl: int, mode: ViewMode, now: real)
    | StopCall(id: string, now: real)
    | LookCall(now: real)                            // any reader that only cleans the map
    | RefreshCall(s: Sample)                         // _refresh_qos_mode, on every loop iteration

  function OpOf(e: Event): Op {
    match e
    case TouchCall(id, ttl, mode, now) => Touch(id, ttl, mode, now)
    case StopCall(id, now) => Stop(id, now)
    case LookCall(now) => Sweep(now)
    case RefreshCall(s) => Sweep(s.now)
  }

  predicate Refreshes(e: Event) { !e.LookCall? }

  function Next(c: Config, st: State, e: Event): State
    requires GoodConfig(c)
  {
    var sessions := Apply(st.sessions, OpOf(e));
    var meter :=
      if e.RefreshCall? && c.adaptive && c.advanced then
        Evaluate(c.limits, c.profiles, st.meter, e.s.(mode := st.cached.mode))
      else st.meter;
    var cached :=
      if Refreshes(e) then Refresh(c, st.cached, Target(sessions, c.qosLive), meter.rungs) else st.cached;
    State(sessions, cached, meter)
  }

  function Run(c: Config, st: State, events: seq<Event>): State
    requires GoodConfig(c)
  {
    if events == [] then st else Next(c, Run(c, st, events[..|events| - 1]), events[|events| - 1])
  }

  lemma {:induction false} CacheStaysValid(c: Config, st: State, events: seq<Event>)
    requires GoodConfig(c) && CacheValid(c, st.cached)
    ensures CacheValid(c, Run(c, st, events).cached)
  {
    if events != [] {
      CacheStaysValid(c, st, events[..|events| - 1]);
    }
  }

  /** Skipping the recomputation when the signature matches changes nothing: a refreshing call
      leaves the parameters that a fresh computation from the live modes and the ladder gives. */
  lemma CacheEqualsRecomputation(c: Config, st: State, events: seq<Event>)
    requires GoodConfig(c) && CacheValid(c, st.cached)
    requires events != [] && Refreshes(events[|events| - 1])
    ensures var t := Run(c, st, events);
            && t.cached.mode == Target(t.sessions, c.qosLive)
            && t.cached.params == Compute(c, t.cached.mode, RungOf(t.meter.rungs, t.cached.mode))
  {
    CacheStaysValid(c, st, events[..|events| - 1]);
  }

  // How many events there are up to the last one that refreshes; 0 when none does.
  function LastRefresh(events: seq<Event>): (n: nat)
    ensures n <= |events| && (n > 0 ==> Refreshes(events[n - 1]))
    ensures forall i :: n <= i < |events| ==> events[i].LookCall?
  {
    if events == [] || Refreshes(events[|events| - 1]) then |events| else LastRefresh(events[..|events| - 1])
  }

  ghost predicate AllLooks(looks: seq<Event>) { forall i :: 0 <= i < |looks| ==> looks[i].LookCall? }

  // No look comes at or after the end of the lease.
  ghost predicate Outlasts(l: Lease, looks: seq<Event>)
    requires AllLooks(looks)
  {
    forall i :: 0 <= i < |looks| ==> looks[i].now < l.until
  }

  // Looks drop the leases that they find expired, and touch nothing else.
  lemma {:induction false} LooksOnlyDrop(c: Config, t: State, looks: seq<Event>)
    requires GoodConfig(c) && AllLooks(looks)
    ensures var r := Run(c, t, looks);
            && r.cached == t.cached && r.meter == t.meter
            && (forall id :: id in r.sessions <==> id in t.sessions && Outlasts(t.sessions[id], looks))
            && (forall id :: id in r.sessions ==> r.sessions[id] == t.sessions[id])
  {
    if looks != [] {
      var n := |looks| - 1;
      var before := looks[..n];
      LooksOnlyDrop(c, t, before);
      forall id | id in t.sessions
        ensures Outlasts(t.sessions[id], looks) <==>
                Outlasts(t.sessions[id], before) && looks[n].now < t.sessions[id].until
      {
        assert forall i :: 0 <= i < n ==> before[i] == looks[i];
      }
    }
  }

  lemma {:induction false} RunSplit(c: Config, st: State, events: seq<Event>, n: nat)
    requires GoodConfig(c) && n <= |events|
    ensures Run(c, Run(c, st, events[..n]), events[n..]) == Run(c, st, events)
  {
    if n < |events| {
      var last := |events| - 1;
      RunSplit(c, st, events[..last], n);
      assert events[..last][..n] == events[..n] && events[..last][n..] == events[n..][..last - n];
    } else {
      assert events[..n] == events;
    }
  }

  /** After any run with a refreshing call in it, looks at the end or not, the parameters in force
      are a fresh computation for the mode in force and its place on the ladder. */
  lemma ParamsFollowMode(c: Config, st: State, events: seq<Event>)
    requires GoodConfig(c) && CacheValid(c, st.cached) && LastRefresh(events) > 0
    ensures var t := Run(c, st, events);
            t.cached.params == Compute(c, t.cached.mode, RungOf(t.meter.rungs, t.cached.mode))
  {
    var n := LastRefresh(events);
    CacheEqualsRecomputation(c, st, events[..n]);
    LooksOnlyDrop(c, Run(c, st, events[..n]), events[n..]);
    RunSplit(c, st, events, n);
  }

  // The setting as it is, with the least values that the analysis works with.
  ghost predicate PlainParams(c: Setting, t: Params) {
    && IsAtLeast(t.fps, c.fps, 0.5) && IsAtLeast(t.advancedFps, c.advancedFps, 0.5)
    && t.width == Max(160, c.width) && t.height == Max(120, c.height) && t.inputSize == Max(0, c.inputSize)
  }

  // What the parameters are in a mode, with the ladder and without; without advanced analysis the mode
  // does not matter, and there is no hint for the input size.
  ghost predicate ModeParams(c: Config, mode: QosMode, rungs: Rungs, t: Params)
    requires GoodConfig(c) && AllOnLadder(c.profiles, rungs)
  {
    if !c.advanced then PlainParams(c.base.(inputSize := 0), t)
    else if !c.adaptive then
      match mode
      case Base => PlainParams(c.base, t)
      case Selected => PlainParams(c.selected, t)
      case Grid => PlainParams(c.grid, t)
    else
      match mode
      case Base => LadderParams(c.base, c.profiles.base, Level(rungs.base), t)
      case Selected => LadderParams(c.selected, c.profiles.selected, Level(rungs.selected), t)
      case Grid => LadderParams(c.grid, c.profiles.grid, Level(rungs.grid), t)
  }

  lemma ComputedParams(c: Config, mode: QosMode, rungs: Rungs)
    requires GoodConfig(c) && AllOnLadder(c.profiles, rungs)
    ensures ModeParams(c, mode, rungs, Compute(c, mode, RungOf(rungs, mode)))
  {
    if c.advanced && c.adaptive {
      ParamsOfLevel(SettingOf(c, mode), ProfileOf(c.profiles, mode), Level(RungOf(rungs, mode)));
    }
  }

  // A lease that keeps the mode alive outlasts all the looks.
  ghost predicate StillShown(s: Sessions, mode: QosMode, looks: seq<Event>)
    requires AllLooks(looks)
  {
    match mode
    case Base => true
    case Selected => exists id :: id in s && s[id].mode == SelectedView && Outlasts(s[id], looks)
    case Grid => exists id :: id in s && Outlasts(s[id], looks)
  }

  /** After any run, the mode in force is that of the live leases exactly when the looks since the
      last refreshing call left a lease that asks for it; the base mode needs none. */
  lemma ModeFollowsLeasesIff(c: Config, st: State, events: seq<Event>)
    requires GoodConfig(c) && CacheValid(c, st.cached) && st.cached.mode == Target(st.sessions, c.qosLive)
    ensures var n, r := LastRefresh(events), Run(c, st, events);
            var t := Run(c, st, events[..n]);
            r.cached.mode == Target(r.sessions, c.qosLive) <==> StillShown(t.sessions, t.cached.mode, events[n..])
  {
    var n := LastRefresh(events);
    var t := Run(c, st, events[..n]);
    if n > 0 { CacheEqualsRecomputation(c, st, events[..n]); } else { assert events[..n] == []; }
    LooksOnlyDrop(c, t, events[n..]);
    RunSplit(c, st, events, n);
    TargetAfterLooks(c, t, Run(c, st, events).sessions, events[n..]);
  }

  lemma TargetAfterLooks(c: Config, t: State, left: Sessions, looks: seq<Event>)
    requires AllLooks(looks) && t.cached.mode == Target(t.sessions, c.qosLive)
    requires forall id :: id in left <==> id in t.sessions && Outlasts(t.sessions[id], looks)
    requires forall id :: id in left ==> left[id] == t.sessions[id]
    ensures t.cached.mode == Target(left, c.qosLive) <==> StillShown(t.sessions, t.cached.mode, looks)
  {
    if t.cached.mode == Grid {
      if id :| id in t.sessions && Outlasts(t.sessions[id], looks) { assert left[id].mode == GridView; }
    }
  }

  /** So a look can leave the mode of a lease that it has just dropped: it cleans and does not
      refresh. */
  lemma LookLeavesStaleMode(c: Config, cached: Cached, meter: Meter)
    requires GoodConfig(c) && c.qosLive
    ensures var r := Run(c, State(map[], cached, meter), [TouchCall("a", 5, SelectedView, 0.0), LookCall(10.0)]);
            r.cached.mode == Selected && Target(r.sessions, c.qosLive) == Base
  {
    var st, touch, look := State(map[], cached, meter), TouchCall("a", 5, SelectedView, 0.0), LookCall(10.0);
    assert [touch, look][..1] == [touch] && [touch][..0] == [];
    var t := Next(c, st, touch);
    assert Run(c, st, [touch]) == t && t.sessions["a"] == Lease(5.0, SelectedView);
    assert Run(c, st, [touch, look]) == Next(c, t, look);
  }

  // The sessions of a run are those of its operations, so the lease theorems apply to it.
  lemma {:induction false} RunSessions(c: Config, st: State, events: seq<Event>, ops: seq<Op>)
    requires GoodConfig(c) && st.sessions == map[] && |ops| == |events|
    requires forall i :: 0 <= i < |events| ==> ops[i] == OpOf(events[i])
    ensures Run(c, st, events).sessions == After(ops)
  {
    if events != [] {
      var n := |events| - 1;
      RunSessions(c, st, events[..n], ops[..n]);
    }
  }

  // ---------------------------------------------------------------- the ladder during a run

  // Nothing evaluated or counted yet.
  function FreshMeter(): Meter { Meter(Rungs(BOTTOM, BOTTOM, BOTTOM), 0.0, 0.0, 0, 0) }

  // What the evaluation sees of the last event, if that event is one.
  function SampleOf(c: Config, st: State, e: Event): Option<Sample> {
    if e.RefreshCall? && c.adaptive && c.advanced then Some(e.s.(mode := st.cached.mode)) else None
  }

  // The changes of level that the events of a run make.
  function LevelChanges(c: Config, st: State, events: seq<Event>): seq<Change>
    requires GoodConfig(c)
  {
    if events == [] then []
    else
      var n := |events| - 1;
      var before, e := Run(c, st, events[..n]), events[n];
      var after := Next(c, before, e);
      LevelChanges(c, st, events[..n]) +
      if SampleOf(c, before, e).Some? && after.meter.rungs != before.meter.rungs
      then [ChangeOf(before.meter, after.meter, SampleOf(c, before, e).value)] else []
  }

  lemma SpacedSnoc(l: Limits, t: real, cs: seq<Change>, last: Change)
    requires AllSpaced(l, t, cs) && Spaced(l, PreviousAt(t, cs + [last], |cs|), last)
    ensures AllSpaced(l, t, cs + [last])
  {
    var all := cs + [last];
    forall i | 0 <= i < |cs| ensures PreviousAt(t, all, i) == PreviousAt(t, cs, i) && all[i] == cs[i] {}
    assert all[|cs|] == last;
  }

  // When the level last changed.
  function LastAt(t: real, cs: seq<Change>): real { if cs == [] then t else cs[|cs| - 1].at }

  // One event: only an evaluation moves a level, and it keeps the cooldown.
  lemma LadderStep(c: Config, st: State, e: Event)
    requires GoodConfig(c) && AllOnLadder(c.profiles, st.meter.rungs)
    ensures var m, n := st.meter, Next(c, st, e).meter;
            && AllOnLadder(c.profiles, n.rungs) && (n.rungs == m.rungs ==> n.lastChangeAt == m.lastChangeAt)
            && (n.rungs != m.rungs ==>
                  && SampleOf(c, st, e).Some?
                  && var change := ChangeOf(m, n, SampleOf(c, st, e).value);
                     n.lastChangeAt == change.at && Spaced(c.limits, m.lastChangeAt, change))
  {
    var sample := SampleOf(c, st, e);
    if sample.Some? { EvaluateStep(c.limits, c.profiles, st.meter, sample.value); }
  }

  /** Every refresh evaluates the mode in force, if the ladder is in use, and no other call moves the meter. */
  lemma OnlyRefreshEvaluates(c: Config, st: State, e: Event)
    requires GoodConfig(c) && AllOnLadder(c.profiles, st.meter.rungs)
    ensures var n := Next(c, st, e).meter;
            if e.RefreshCall? && c.advanced && c.adaptive
            then EvaluatedTo(c.limits, c.profiles, st.meter, e.s.(mode := st.cached.mode), n) else n == st.meter
  {
    if e.RefreshCall? { EvaluationIff(c.limits, c.profiles, st.meter, e.s.(mode := st.cached.mode)); }
  }

  /** Whatever calls a run is made of: every mode stays on its ladder, every change of level keeps its
      cooldown from the change before it, and between evaluations no level moves. */
  lemma {:induction false} LadderHoldsOverRuns(c: Config, st: State, events: seq<Event>)
    requires GoodConfig(c) && AllOnLadder(c.profiles, st.meter.rungs)
    ensures var t, cs := Run(c, st, events), LevelChanges(c, st, events);
            && AllOnLadder(c.profiles, t.meter.rungs) && AllSpaced(c.limits, st.meter.lastChangeAt, cs)
            && t.meter.lastChangeAt == LastAt(st.meter.lastChangeAt, cs)
            && (cs == [] ==> t.meter.rungs == st.meter.rungs)
  {
    if events != [] {
      var n := |events| - 1;
      var before, e := Run(c, st, events[..n]), events[n];
      var cs := LevelChanges(c, st, events[..n]);
      LadderHoldsOverRuns(c, st, events[..n]);
      LadderStep(c, before, e);
      var next := Next(c, before, e);
      if next.meter.rungs != before.meter.rungs {
        var change := ChangeOf(before.meter, next.meter, SampleOf(c, before, e).value);
        assert LevelChanges(c, st, events) == cs + [change];
        SpacedSnoc(c.limits, st.meter.lastChangeAt, cs, change);
      } else {
        assert LevelChanges(c, st, events) == cs;
      }
    }
  }

  /** In particular from the meter that the constructor sets: the start is the lowest rung of each mode. */
  lemma LadderHoldsFromStart(c: Config, sessions: Sessions, cached: Cached, events: seq<Event>)
    requires GoodConfig(c)
    ensures var st := State(sessions, cached, FreshMeter());
            && AllOnLadder(c.profiles, Run(c, st, events).meter.rungs)
            && AllSpaced(c.limits, 0.0, LevelChanges(c, st, events))
  {
    BottomIsOnLadder(c.profiles.base);
    BottomIsOnLadder(c.profiles.selected);
    BottomIsOnLadder(c.profiles.grid);
    LadderHoldsOverRuns(c, State(sessions, cached, FreshMeter()), events);
  }

  /** From the first refreshing call of any run on, the parameters in force are those configured for the
      mode in force, taken down the ladder by the level of that mode. */
  lemma ParamsInForce(c: Config, st: State, events: seq<Event>)
    requires GoodConfig(c) && CacheValid(c, st.cached) && AllOnLadder(c.profiles, st.meter.rungs)
    requires LastRefresh(events) > 0
    ensures var t := Run(c, st, events);
            AllOnLadder(c.profiles, t.meter.rungs) && ModeParams(c, t.cached.mode, t.meter.rungs, t.cached.params)
  {
    var t := Run(c, st, events);
    LadderHoldsOverRuns(c, st, events);
    ParamsFollowMode(c, st, events);
    ComputedParams(c, t.cached.mode, t.meter.rungs);
  }

  // ---------------------------------------------------------------- the object

  class StreamQos {
    const config: Config
    var sessions: Sessions
    var forceAwakeUntil: real
    var cached: Cached
    var meter: Meter

    ghost function View(): State
      reads this
    {
      State(sessions, cached, meter)
    }

    ghost predicate Valid()
      reads this
    {
      GoodConfig(config) && CacheValid(config, cached) && IsHorizon(sessions, forceAwakeUntil)
    }

    constructor (config: Config)
      requires GoodConfig(config)
      ensures Valid() && this.config == config && sessions == map[] && cached.signature.None? && cached.mode == Base
      ensures meter == FreshMeter()
    {
      this.config := config;
      sessions, forceAwakeUntil := map[], 0.0;
      cached := Cached(Base, Floored(config.base), None);
      meter := FreshMeter();
    }

    method CleanupLocked(now: real)
      modifies this`sessions, this`forceAwakeUntil
      ensures sessions == Clean(old(sessions), now) && IsHorizon(sessions, forceAwakeUntil)
    {
      var expired := set id | id in sessions && sessions[id].until <= now;
      ghost var before := sessions;
      while expired != {}
        invariant forall id :: id in expired ==> id in before && before[id].until <= now
        invariant forall id :: id in sessions <==> id in before && (before[id].until > now || id in expired)
        invariant forall id :: id in sessions ==> sessions[id] == before[id]
        decreases |expired|
      {
        var id :| id in expired;
        sessions := sessions - {id};
        expired := expired - {id};
      }
      assert sessions.Keys == Clean(before, now).Keys;
      assert sessions == Clean(before, now);
      MaxUntilLocked();
    }

    method MaxUntilLocked()
      modifies this`forceAwakeUntil
      ensures IsHorizon(sessions, forceAwakeUntil)
    {
      forceAwakeUntil := 0.0;
      var rest := sessions.Keys;
      while rest != {}
        invariant rest <= sessions.Keys
        invariant rest == sessions.Keys ==> forceAwakeUntil == 0.0
        invariant rest != sessions.Keys ==> exists id :: id in sessions && sessions[id].until == forceAwakeUntil
        invariant forall id :: id in sessions.Keys - rest ==> sessions[id].until <= forceAwakeUntil
        decreases |rest|
      {
        var id :| id in rest;
        if rest == sessions.Keys || sessions[id].until > forceAwakeUntil {
          forceAwakeUntil := sessions[id].until;
        }
        rest := rest - {id};
      }
      assert rest == sessions.Keys ==> sessions == map[];
    }

    method RefreshLocked()
      requires GoodConfig(config)
      modifies this`cached
      ensures cached == Refresh(config, old(cached), Target(sessions, config.qosLive), meter.rungs)
    {
      var target := Base;
      if config.qosLive {
        if exists id :: id in sessions && sessions[id].mode == SelectedView {
          target := Selected;
        } else if exists id :: id in sessions && sessions[id].mode == GridView {
          target := Grid;
        }
      }
      var signature := Some((target, RungOf(meter.rungs, target)));
      if cached.mode == target && cached.signature == signature {
        return;
      }
      cached := Cached(target, Compute(config, target, RungOf(meter.rungs, target)), signature);
    }

    /** A blank session id raises; otherwise the session is renewed or started. */
    method TouchLiveViewSession(sessionId: string, ttlSeconds: int, viewMode: string, now: real)
      returns (ok: bool, renewed: bool)
      requires Valid()
      modifies this
      ensures Valid() && (ok <==> Strip(sessionId) != "")
      ensures !ok ==> View() == old(View())
      ensures ok ==> View() == Next(config, old(View()),
                TouchCall(Strip(sessionId), ttlSeconds, NormalizeViewMode(viewMode), now))
      ensures ok ==> (renewed <==> Strip(sessionId) in Clean(old(sessions), now))
    {
      var id := Strip(sessionId);
      ok, renewed := id != "", false;
      if !ok {
        return;
      }
      renewed := TouchLocked(id, ttlSeconds, NormalizeViewMode(viewMode), now);
    }

    method TouchLocked(id: string, ttlSeconds: int, viewMode: ViewMode, now: real) returns (renewed: bool)
      requires Valid()
      modifies this
      ensures Valid() && View() == Next(config, old(View()), TouchCall(id, ttlSeconds, viewMode, now))
      ensures renewed <==> id in Clean(old(sessions), now)
    {
      CleanupLocked(now);
      renewed := id in sessions;
      sessions := sessions[id := Lease(now + ClampTtl(ttlSeconds) as real, viewMode)];
      CleanupLocked(now);
      RefreshLocked();
    }

    method StopLiveViewSession(sessionId: string, now: real) returns (ok: bool, removed: bool)
      requires Valid()
      modifies this
      ensures Valid() && (ok <==> Strip(sessionId) != "")
      ensures !ok ==> View() == old(View())
      ensures ok ==> View() == Next(config, old(View()), StopCall(Strip(sessionId), now))
      ensures ok ==> (removed <==> Strip(sessionId) in Clean(old(sessions), now))
    {
      var id := Strip(sessionId);
      ok, removed := id != "", false;
      if !ok {
        return;
      }
      removed := StopLocked(id, now);
    }

    method StopLocked(id: string, now: real) returns (removed: bool)
      requires Valid()
      modifies this
      ensures Valid() && View() == Next(config, old(View()), StopCall(id, now))
      ensures removed <==> id in Clean(old(sessions), now)
    {
      CleanupLocked(now);
      removed := id in sessions;
      sessions := sessions - {id};
      CleanupLocked(now);
      RefreshLocked();
    }

    method HasActiveLiveViewSession(now: real) returns (active: bool)
      requires Valid()
      modifies this
      ensures Valid() && View() == Next(config, old(View()), LookCall(now))
      ensures active <==> exists id :: id in old(sessions) && old(sessions)[id].until > now
    {
      CleanupLocked(now);
      active := sessions != map[];
      if active {
        assert sessions.Keys != {};
        var id :| id in sessions.Keys;
        assert id in old(sessions) && old(sessions)[id].until > now;
      } else {
        forall id | id in old(sessions) ensures old(sessions)[id].until <= now {
          assert id !in sessions;
        }
      }
    }

    method RefreshQosMode(s: Sample)
      requires Valid()
      modifies this
      ensures Valid() && View() == Next(config, old(View()), RefreshCall(s))
    {
      CleanupLocked(s.now);
      if config.adaptive && config.advanced {
        meter := Evaluate(config.limits, config.profiles, meter, s.(mode := cached.mode));
      }
      RefreshLocked();
    }
  }
}
