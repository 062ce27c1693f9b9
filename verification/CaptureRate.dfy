/** CaptureRateGuard of services/ai-service-python/capture_rate_guard.py: a capped sliding
    window of capture times, an anomaly that has to last, and a cooldown between reports.
    Times and rates are real numbers; a reading that is not finite is None. */
module CaptureRate {
  import opened Optional

  const DEFAULT_MARGIN_FPS := 10.0
  const DEFAULT_SUSTAIN_SECONDS := 30.0
  const DEFAULT_WINDOW_SECONDS := 5.0
  const DEFAULT_COOLDOWN_SECONDS := 300.0
  const DEFAULT_MIN_SAMPLES := 12
  const DEFAULT_MAX_SAMPLES := 1024
  const DEFAULT_FALLBACK_EXPECTED_FPS := 30.0
  const MAX_PLAUSIBLE_EXPECTED_FPS := 1000.0

  datatype Config = Config(margin: real, sustain: real, window: real, cooldown: real, minSamples: nat, maxSamples: nat)

  predicate GoodConfig(c: Config) {
    c.margin >= 1.0 && c.sustain >= 1.0 && c.window >= 1.0 && c.cooldown >= 1.0 && 2 <= c.minSamples <= c.maxSamples
  }

  datatype Guard = Guard(expected: real, samples: seq<real>, abnormalSince: Option<real>, lastReportAt: Option<real>,
                         reports: nat)

  // `max(1.0, _finite(x) or default)`: 0 is falsy.
  function Knob(x: Option<real>, default: real): (r: real)
    ensures r >= 1.0
    ensures x.Some? && x.value >= 1.0 ==> r == x.value
    ensures x.Some? && x.value < 1.0 && x.value != 0.0 ==> r == 1.0
    ensures (x == None || x == Some(0.0)) && default >= 1.0 ==> r == default
  {
    var v := if x.None? || x.value == 0.0 then default else x.value;
    if v >= 1.0 then v else 1.0
  }

  predicate Plausible(fps: Option<real>) { fps.Some? && 0.0 < fps.value <= MAX_PLAUSIBLE_EXPECTED_FPS }

  function Learn(expected: real, fps: Option<real>): real { if Plausible(fps) then fps.value else expected }

  function Threshold(c: Config, g: Guard): real { g.expected + c.margin }

  // ---------------------------------------------------------------- the window

  function DropBefore(s: seq<real>, cutoff: real): seq<real> {
    if s != [] && s[0] < cutoff then DropBefore(s[1..], cutoff) else s
  }

  // Appending to a deque of bounded length.
  function Push(s: seq<real>, x: real, cap: nat): seq<real>
    requires cap > 0
  {
    if |s| < cap then s + [x] else s[1..] + [x]
  }

  function Slide(c: Config, samples: seq<real>, moment: real): seq<real>
    requires GoodConfig(c)
  {
    DropBefore(Push(samples, moment, c.maxSamples), moment - c.window)
  }

  function Rate(c: Config, samples: seq<real>): real {
    if |samples| < c.minSamples || |samples| < 1 then 0.0
    else
      var span := samples[|samples| - 1] - samples[0];
      if span <= 0.0 then 0.0 else (|samples| - 1) as real / span
  }

  // ---------------------------------------------------------------- one observation

  // A frame as it was judged: its time, the rate and threshold then, and whether it reported.
  datatype Obs = Obs(at: real, rate: real, threshold: real, reported: bool)

  predicate Due(c: Config, g: Guard, moment: real) {
    && g.abnormalSince.Some? && moment - g.abnormalSince.value >= c.sustain
    && (g.lastReportAt.None? || moment - g.lastReportAt.value >= c.cooldown)
  }

  // What becomes of the guard once the frame is known to be abnormal or not.
  function Judge(c: Config, g: Guard, moment: real, abnormal: bool): Guard {
    if !abnormal then g.(abnormalSince := None)
    else if g.abnormalSince.None? then g.(abnormalSince := Some(moment))
    else if Due(c, g, moment) then g.(lastReportAt := Some(moment), reports := g.reports + 1)
    else g
  }

  function Observed(c: Config, g: Guard, moment: real): Obs
    requires GoodConfig(c)
  {
    var rate, threshold := Rate(c, Slide(c, g.samples, moment)), Threshold(c, g);
    Obs(moment, rate, threshold, rate > 0.0 && rate >= threshold && Due(c, g, moment))
  }

  function Observe(c: Config, g: Guard, moment: real): Guard
    requires GoodConfig(c)
  {
    var o := Observed(c, g, moment);
    Judge(c, g.(samples := Slide(c, g.samples, moment)), moment, o.rate > 0.0 && o.rate >= o.threshold)
  }

  // ---------------------------------------------------------------- the object

  class CaptureRateGuard {
    const config: Config
    var expected: real
    var samples: seq<real>
    var abnormalSince: Option<real>
    var lastReportAt: Option<real>
    var reports: nat

    ghost function View(): Guard
      reads this
    {
      Guard(expected, samples, abnormalSince, lastReportAt, reports)
    }

    constructor (expectedFps: Option<real>, margin: Option<real>, sustain: Option<real>, window: Option<real>,
                 cooldown: Option<real>, minSamples: nat, maxSamples: nat, fallback: Option<real>)
      ensures GoodConfig(config)
      ensures View() == Guard(Learn(Knob(fallback, DEFAULT_FALLBACK_EXPECTED_FPS), expectedFps), [], None, None, 0)
    {
      var least := if minSamples == 0 then DEFAULT_MIN_SAMPLES else if minSamples < 2 then 2 else minSamples;
      var most := if maxSamples == 0 then DEFAULT_MAX_SAMPLES else maxSamples;
      config := Config(Knob(margin, DEFAULT_MARGIN_FPS), Knob(sustain, DEFAULT_SUSTAIN_SECONDS),
                       Knob(window, DEFAULT_WINDOW_SECONDS), Knob(cooldown, DEFAULT_COOLDOWN_SECONDS),
                       least, if most >= least then most else least);
      expected := Learn(Knob(fallback, DEFAULT_FALLBACK_EXPECTED_FPS), expectedFps);
      samples, abnormalSince, lastReportAt, reports := [], None, None, 0;
    }

    method SetExpectedFps(fps: Option<real>)
      modifies this`expected
      ensures if Plausible(fps) then expected == fps.value else expected == old(expected)
    {
      if fps.None? || fps.value <= 0.0 || fps.value > MAX_PLAUSIBLE_EXPECTED_FPS {
        return;
      }
      expected := fps.value;
    }

    /** Returns whether the anomaly is reported now. */
    method ObserveFrame(now: Option<real>) returns (report: bool)
      requires GoodConfig(config)
      modifies this
      ensures now.None? ==> !report && View() == old(View())
      ensures now.Some? ==> View() == Observe(config, old(View()), now.value)
      ensures now.Some? ==> report == Observed(config, old(View()), now.value).reported
    {
      report := false;
      if now.None? {
        return;
      }
      var moment := now.value;
      samples := if |samples| < config.maxSamples then samples + [moment] else samples[1..] + [moment];
      var cutoff := moment - config.window;
      while samples != [] && samples[0] < cutoff
        invariant DropBefore(samples, cutoff) == Slide(config, old(samples), moment)
        invariant expected == old(expected) && abnormalSince == old(abnormalSince)
        invariant lastReportAt == old(lastReportAt) && reports == old(reports)
        decreases |samples|
      {
        samples := samples[1..];
      }
      var rate := Rate(config, samples);
      var threshold := expected + config.margin;
      if rate <= 0.0 || rate < threshold {
        abnormalSince := None;
        return;
      }
      if abnormalSince.None? {
        abnormalSince := Some(moment);
        return;
      }
      var sustained := moment - abnormalSince.value;
      if sustained < config.sustain {
        return;
      }
      if lastReportAt.Some? && moment - lastReportAt.value < config.cooldown {
        return;
      }
      lastReportAt := Some(moment);
      reports := reports + 1;
      report := true;
    }
  }

  // ---------------------------------------------------------------- whole runs

  datatype Event = Frame(at: real) | SetExpected(fps: Option<real>)
  datatype World = World(g: Guard, trace: seq<Obs>)

  function Next(c: Config, w: World, e: Event): World
    requires GoodConfig(c)
  {
    match e
    case Frame(at) => World(Observe(c, w.g, at), w.trace + [Observed(c, w.g, at)])
    case SetExpected(fps) => World(w.g.(expected := Learn(w.g.expected, fps)), w.trace)
  }

  function Run(c: Config, expected: real, events: seq<Event>): World
    requires GoodConfig(c)
  {
    if events == [] then World(Guard(expected, [], None, None, 0), [])
    else Next(c, Run(c, expected, events[..|events| - 1]), events[|events| - 1])
  }

  ghost predicate Declares(e: Event) { e.SetExpected? && e.fps.Some? && 0.0 < e.fps.value <= 1000.0 }

  // The k-th event declares a plausible rate, and no later one does.
  ghost predicate LastPlausible(events: seq<Event>, k: int) {
    0 <= k < |events| && Declares(events[k]) && forall j :: k < j < |events| ==> !Declares(events[j])
  }

  /** Whatever is declared, the expected rate is the last plausible declaration of the run, and the
      initial one only as long as there is none. */
  lemma LastPlausibleSnoc(before: seq<Event>, e: Event, k: int)
    ensures LastPlausible(before + [e], k) <==> if Declares(e) then k == |before| else LastPlausible(before, k)
  {
    var all := before + [e];
    assert all[|before|] == e && forall j :: 0 <= j < |before| ==> all[j] == before[j];
  }

  lemma {:induction false} ExpectedIsLastPlausible(c: Config, expected: real, events: seq<Event>)
    requires GoodConfig(c)
    ensures forall k :: LastPlausible(events, k) ==> Run(c, expected, events).g.expected == events[k].fps.value
    ensures (forall k :: 0 <= k < |events| ==> !Declares(events[k])) ==> Run(c, expected, events).g.expected == expected
  {
    if events != [] {
      var before, e := events[..|events| - 1], events[|events| - 1];
      assert events == before + [e];
      ExpectedIsLastPlausible(c, expected, before);
      forall k | LastPlausible(events, k) ensures Run(c, expected, events).g.expected == events[k].fps.value {
        LastPlausibleSnoc(before, e, k);
      }
    }
  }

  /** So every threshold of a run lies above the margin, and at most the largest plausible rate (or
      the initial one) above it. */
  lemma {:induction false} ThresholdsAreBounded(c: Config, expected: real, events: seq<Event>, i: nat)
    requires GoodConfig(c) && expected > 0.0 && i < |Run(c, expected, events).trace|
    ensures var most := if expected > MAX_PLAUSIBLE_EXPECTED_FPS then expected else MAX_PLAUSIBLE_EXPECTED_FPS;
            c.margin < Run(c, expected, events).trace[i].threshold <= most + c.margin
  {
    var n := |events| - 1;
    var before := Run(c, expected, events[..n]);
    if i < |before.trace| {
      ThresholdsAreBounded(c, expected, events[..n], i);
    } else {
      ExpectedInRange(c, expected, events[..n]);
    }
  }

  lemma {:induction false} ExpectedInRange(c: Config, expected: real, events: seq<Event>)
    requires GoodConfig(c) && expected > 0.0
    ensures var most := if expected > MAX_PLAUSIBLE_EXPECTED_FPS then expected else MAX_PLAUSIBLE_EXPECTED_FPS;
            0.0 < Run(c, expected, events).g.expected <= most
  {
    if events != [] { ExpectedInRange(c, expected, events[..|events| - 1]); }
  }

  ghost predicate TimesAscend(trace: seq<Obs>) { forall i, j :: 0 <= i < j < |trace| ==> trace[i].at <= trace[j].at }

  // ---------------------------------------------------------------- the window is a suffix

  function Times(trace: seq<Obs>): (ts: seq<real>)
    ensures |ts| == |trace| && forall i :: 0 <= i < |ts| ==> ts[i] == trace[i].at
  {
    seq(|trace|, i requires 0 <= i < |trace| => trace[i].at)
  }

  ghost predicate Ascending(ts: seq<real>) { forall i, j :: 0 <= i < j < |ts| ==> ts[i] <= ts[j] }

  // s is a suffix of ts from the cutoff on, and only the cutoff or the cap keeps it short.
  ghost predicate LongestFrom(ts: seq<real>, s: seq<real>, cutoff: real, cap: nat) {
    && |s| <= |ts| && |s| <= cap && s == ts[|ts| - |s|..]
    && (forall i :: 0 <= i < |s| ==> s[i] >= cutoff)
    && (|s| == |ts| || |s| == cap || ts[|ts| - |s| - 1] < cutoff)
  }

  // The longest suffix of all observations that lies in the window and fits in the deque.
  ghost predicate IsWindow(c: Config, trace: seq<Obs>, samples: seq<real>) {
    if trace == [] then samples == []
    else LongestFrom(Times(trace), samples, trace[|trace| - 1].at - c.window, c.maxSamples)
  }

  lemma {:induction false} DropBeforeIsSuffix(s: seq<real>, cutoff: real)
    requires Ascending(s)
    ensures LongestFrom(s, DropBefore(s, cutoff), cutoff, |s|)
  {
    if s != [] && s[0] < cutoff {
      DropBeforeIsSuffix(s[1..], cutoff);
    }
  }

  // A suffix that only the cap or an element older than the cutoff keeps short.
  ghost predicate CappedSuffix(ts: seq<real>, s: seq<real>, cutoff: real, cap: nat) {
    && |s| <= |ts| && |s| <= cap && s == ts[|ts| - |s|..]
    && (|s| == |ts| || |s| == cap || ts[|ts| - |s| - 1] < cutoff)
  }

  lemma AppendCapped(ts: seq<real>, s: seq<real>, at: real, cutoff: real, cap: nat)
    requires CappedSuffix(ts, s, cutoff, cap) && cap >= 1
    ensures CappedSuffix(ts + [at], Push(s, at, cap), cutoff, cap)
  {
    var all := ts + [at];
    var t := Push(s, at, cap);
    assert t == all[|all| - |t|..];
    if |s| < cap && |s| < |ts| {
      assert all[|all| - |t| - 1] == ts[|ts| - |s| - 1];
    }
  }

  lemma DropFromCapped(ts: seq<real>, s: seq<real>, cutoff: real, later: real, cap: nat)
    requires CappedSuffix(ts, s, cutoff, cap) && cutoff <= later && Ascending(ts)
    ensures LongestFrom(ts, DropBefore(s, later), later, cap)
  {
    assert Ascending(s) by { assert forall i :: 0 <= i < |s| ==> s[i] == ts[|ts| - |s| + i]; }
    DropBeforeIsSuffix(s, later);
    LongestOfCapped(ts, s, DropBefore(s, later), cutoff, later, cap);
  }

  // What is longest within a capped suffix is longest within the whole.
  lemma LongestOfCapped(ts: seq<real>, s: seq<real>, r: seq<real>, cutoff: real, later: real, cap: nat)
    requires CappedSuffix(ts, s, cutoff, cap) && cutoff <= later && LongestFrom(s, r, later, |s|)
    ensures LongestFrom(ts, r, later, cap)
  {
    SuffixOfSuffix(ts, s, r);
    if |r| < |s| {
      assert s[|s| - |r| - 1] == ts[|ts| - |s|..][|s| - |r| - 1];
    }
  }

  lemma SuffixOfSuffix(ts: seq<real>, s: seq<real>, r: seq<real>)
    requires |r| <= |s| <= |ts| && s == ts[|ts| - |s|..] && r == s[|s| - |r|..]
    ensures r == ts[|ts| - |r|..]
  {}

  // Appending to the window and dropping what has become too old.
  lemma SlideLongest(c: Config, ts: seq<real>, samples: seq<real>, at: real, cutoff: real)
    requires GoodConfig(c) && LongestFrom(ts, samples, cutoff, c.maxSamples) && Ascending(ts + [at])
    requires cutoff <= at - c.window
    ensures LongestFrom(ts + [at], Slide(c, samples, at), at - c.window, c.maxSamples)
  {
    AppendCapped(ts, samples, at, cutoff, c.maxSamples);
    DropFromCapped(ts + [at], Push(samples, at, c.maxSamples), cutoff, at - c.window, c.maxSamples);
  }

  lemma TimesSnoc(trace: seq<Obs>, o: Obs)
    requires TimesAscend(trace + [o])
    ensures Times(trace + [o]) == Times(trace) + [o.at] && Ascending(Times(trace + [o]))
    ensures trace != [] ==> trace[|trace| - 1].at <= o.at
  {
    var all := trace + [o];
    assert all[|trace|] == o && forall j :: 0 <= j < |trace| ==> all[j] == trace[j];
  }

  lemma SlideKeepsWindow(c: Config, trace: seq<Obs>, samples: seq<real>, o: Obs)
    requires GoodConfig(c) && IsWindow(c, trace, samples) && TimesAscend(trace + [o])
    ensures IsWindow(c, trace + [o], Slide(c, samples, o.at))
  {
    TimesSnoc(trace, o);
    var cutoff := if trace == [] then o.at - c.window else trace[|trace| - 1].at - c.window;
    SlideLongest(c, Times(trace), samples, o.at, cutoff);
    WindowSnoc(c, trace, o, Slide(c, samples, o.at));
  }

  lemma WindowSnoc(c: Config, trace: seq<Obs>, o: Obs, samples: seq<real>)
    ensures IsWindow(c, trace + [o], samples) <==>
            LongestFrom(Times(trace + [o]), samples, o.at - c.window, c.maxSamples)
  {
    assert (trace + [o])[|trace|] == o;
  }

  /** For times that do not decrease, the deque is always the longest suffix of all the
      observations that lies in the window and fits in the deque. */
  lemma {:induction false} DequeIsWindow(c: Config, expected: real, events: seq<Event>)
    requires GoodConfig(c) && TimesAscend(Run(c, expected, events).trace)
    ensures IsWindow(c, Run(c, expected, events).trace, Run(c, expected, events).g.samples)
  {
    if events != [] {
      var n := |events| - 1;
      var w, e := Run(c, expected, events[..n]), events[n];
      if e.Frame? {
        var o := Observed(c, w.g, e.at);
        AscendBefore(w.trace, o);
        DequeIsWindow(c, expected, events[..n]);
        SlideKeepsWindow(c, w.trace, w.g.samples, o);
        assert Observe(c, w.g, e.at).samples == Slide(c, w.g.samples, e.at);
      } else {
        DequeIsWindow(c, expected, events[..n]);
      }
    }
  }

  lemma AscendBefore(trace: seq<Obs>, o: Obs)
    requires TimesAscend(trace + [o])
    ensures TimesAscend(trace)
  {
    assert forall i :: 0 <= i < |trace| ==> (trace + [o])[i] == trace[i];
  }

  // ---------------------------------------------------------------- what is measured

  // As many frames as came after the first one of the window, over the time from that one to the
  // last; no rate without enough of them or without time between them.
  ghost predicate Measures(c: Config, window: seq<real>, rate: real) {
    if |window| < c.minSamples || window == [] || window[|window| - 1] <= window[0] then rate == 0.0
    else rate > 0.0 && rate * (window[|window| - 1] - window[0]) == (|window| - 1) as real
  }

  lemma Divides(n: real, d: real)
    requires n > 0.0 && d > 0.0
    ensures n / d > 0.0 && n / d * d == n
  {}

  lemma RateMeasures(c: Config, samples: seq<real>)
    requires GoodConfig(c)
    ensures Measures(c, samples, Rate(c, samples))
  {
    if |samples| >= c.minSamples {
      var span := samples[|samples| - 1] - samples[0];
      if span > 0.0 { Divides((|samples| - 1) as real, span); }
    }
  }

  /** The rate a frame is judged by is that of the longest stretch of frames, up to this one, that lies
      in the window and fits in the deque, and its threshold is the expected rate then, and the margin. */
  lemma RateIsThatOfTheWindow(c: Config, expected: real, events: seq<Event>, at: real)
    requires GoodConfig(c)
    requires TimesAscend(Run(c, expected, events).trace + [Observed(c, Run(c, expected, events).g, at)])
    ensures var w := Run(c, expected, events);
            var o := Observed(c, w.g, at);
            && o.at == at && o.threshold == w.g.expected + c.margin
            && exists window :: IsWindow(c, w.trace + [o], window) && Measures(c, window, o.rate)
  {
    var w := Run(c, expected, events);
    var o := Observed(c, w.g, at);
    AscendBefore(w.trace, o);
    DequeIsWindow(c, expected, events);
    SlideKeepsWindow(c, w.trace, w.g.samples, o);
    RateMeasures(c, Slide(c, w.g.samples, at));
  }

  ghost function ReportsIn(trace: seq<Obs>): nat { |set i: nat | i < |trace| && trace[i].reported| }

  lemma ReportsInSnoc(trace: seq<Obs>, o: Obs)
    ensures ReportsIn(trace + [o]) == ReportsIn(trace) + if o.reported then 1 else 0
  {
    var all := trace + [o];
    var before, after := set i: nat | i < |trace| && trace[i].reported, set i: nat | i < |all| && all[i].reported;
    assert after == before + if o.reported then {|trace|} else {};
  }

  // The counter of the guard is the number of its reports.
  lemma {:induction false} ReportsAreCounted(c: Config, expected: real, events: seq<Event>)
    requires GoodConfig(c)
    ensures Run(c, expected, events).g.reports == ReportsIn(Run(c, expected, events).trace)
  {
    if events != [] {
      var n := |events| - 1;
      ReportsAreCounted(c, expected, events[..n]);
      if events[n].Frame? {
        var w := Run(c, expected, events[..n]);
        ReportsInSnoc(w.trace, Observed(c, w.g, events[n].at));
      }
    }
  }

  // ---------------------------------------------------------------- what a report means

  // A frame rate that the stream cannot have.
  ghost predicate Abnormal(o: Obs) { o.rate > 0.0 && o.rate >= o.threshold }

  // Every observation from k to the end of the trace is abnormal.
  ghost predicate AbnormalFrom(trace: seq<Obs>, k: int) {
    0 <= k <= |trace| && forall j :: k <= j < |trace| ==> Abnormal(trace[j])
  }

  // Observation k starts the trailing abnormal run, at time t.
  ghost predicate RunStart(trace: seq<Obs>, k: int, t: real) {
    0 <= k < |trace| && trace[k].at == t && AbnormalFrom(trace, k) && (k == 0 || !Abnormal(trace[k - 1]))
  }

  // Observation k, at time t, is the last one reported.
  ghost predicate LastReported(trace: seq<Obs>, k: int, t: real) {
    0 <= k < |trace| && trace[k].reported && trace[k].at == t && forall j :: k < j < |trace| ==> !trace[j].reported
  }

  // `_abnormal_since` is the start of the trailing abnormal run.
  ghost predicate SinceExact(trace: seq<Obs>, since: Option<real>) {
    match since
    case None => trace == [] || !Abnormal(trace[|trace| - 1])
    case Some(t) => exists k :: RunStart(trace, k, t)
  }

  // `_last_report_at` is the time of the last report.
  ghost predicate LastReportExact(trace: seq<Obs>, last: Option<real>) {
    match last
    case None => forall j :: 0 <= j < |trace| ==> !trace[j].reported
    case Some(t) => exists k :: LastReported(trace, k, t)
  }

  lemma AbnormalFromSnoc(trace: seq<Obs>, o: Obs, k: int)
    requires k <= |trace|
    ensures AbnormalFrom(trace + [o], k) <==> AbnormalFrom(trace, k) && Abnormal(o)
  {
    var all := trace + [o];
    assert all[|trace|] == o;
    assert forall j :: 0 <= j < |trace| ==> all[j] == trace[j];
  }

  lemma SinceStep(trace: seq<Obs>, since: Option<real>, o: Obs)
    requires SinceExact(trace, since)
    ensures SinceExact(trace + [o], if !Abnormal(o) then None else if since.None? then Some(o.at) else since)
  {
    var all := trace + [o];
    assert all[|trace|] == o;
    if Abnormal(o) {
      if since.Some? {
        var k :| RunStart(trace, k, since.value);
        AbnormalFromSnoc(trace, o, k);
        assert all[k] == trace[k] && (k > 0 ==> all[k - 1] == trace[k - 1]);
        assert RunStart(all, k, since.value);
      } else {
        AbnormalFromSnoc(trace, o, |trace|);
        assert trace != [] ==> all[|trace| - 1] == trace[|trace| - 1];
        assert RunStart(all, |trace|, o.at);
      }
    }
  }

  lemma LastReportStep(trace: seq<Obs>, last: Option<real>, o: Obs)
    requires LastReportExact(trace, last)
    ensures LastReportExact(trace + [o], if o.reported then Some(o.at) else last)
  {
    var all := trace + [o];
    assert all[|trace|] == o;
    assert forall j :: 0 <= j < |trace| ==> all[j] == trace[j];
    if o.reported {
      assert LastReported(all, |trace|, o.at);
    } else if last.Some? {
      var k :| LastReported(trace, k, last.value);
      assert LastReported(all, k, last.value);
    }
  }

  lemma {:induction false} FieldsExact(c: Config, expected: real, events: seq<Event>)
    requires GoodConfig(c)
    ensures var w := Run(c, expected, events);
            SinceExact(w.trace, w.g.abnormalSince) && LastReportExact(w.trace, w.g.lastReportAt)
  {
    if events != [] {
      var n := |events| - 1;
      var w, e := Run(c, expected, events[..n]), events[n];
      FieldsExact(c, expected, events[..n]);
      if e.Frame? {
        var o := Observed(c, w.g, e.at);
        SinceStep(w.trace, w.g.abnormalSince, o);
        LastReportStep(w.trace, w.g.lastReportAt, o);
      }
    }
  }

  // The anomaly has lasted: some observation at least `sustain` ago starts an unbroken
  // abnormal stretch that reaches the last one.
  ghost predicate Sustained(c: Config, trace: seq<Obs>) {
    exists k :: 0 <= k < |trace| && trace[|trace| - 1].at - trace[k].at >= c.sustain && AbnormalFrom(trace, k)
  }

  ghost predicate CooledDown(c: Config, before: seq<Obs>, now: real) {
    forall j :: 0 <= j < |before| && before[j].reported ==> now - before[j].at >= c.cooldown
  }

  lemma DueIffSustained(c: Config, trace: seq<Obs>, since: Option<real>, o: Obs)
    requires GoodConfig(c) && SinceExact(trace, since) && TimesAscend(trace + [o])
    ensures Abnormal(o) && since.Some? && o.at - since.value >= c.sustain <==> Sustained(c, trace + [o])
  {
    var all := trace + [o];
    assert all[|trace|] == o;
    assert forall j :: 0 <= j < |trace| ==> all[j] == trace[j];
    if Abnormal(o) && since.Some? && o.at - since.value >= c.sustain {
      var k :| RunStart(trace, k, since.value);
      AbnormalFromSnoc(trace, o, k);
      assert all[k].at == since.value;
    }
    if Sustained(c, all) {
      var k :| 0 <= k < |all| && all[|all| - 1].at - all[k].at >= c.sustain && AbnormalFrom(all, k);
      AbnormalFromSnoc(trace, o, k);
      assert k < |trace|;
      assert Abnormal(trace[|trace| - 1]);
      var s :| RunStart(trace, s, since.value);
      RunStartIsEarliest(trace, s, k);
      assert all[s].at <= all[k].at;
    }
  }

  lemma RunStartIsEarliest(trace: seq<Obs>, s: nat, k: nat)
    requires s < |trace| && AbnormalFrom(trace, k) && (s == 0 || !Abnormal(trace[s - 1]))
    ensures s <= k
  {}

  lemma CooledIffLast(c: Config, trace: seq<Obs>, last: Option<real>, now: real)
    requires LastReportExact(trace, last) && TimesAscend(trace)
    ensures last.None? || now - last.value >= c.cooldown <==> CooledDown(c, trace, now)
  {
    if last.Some? {
      var k :| LastReported(trace, k, last.value);
      assert forall j :: 0 <= j < |trace| && trace[j].reported ==> trace[j].at <= trace[k].at;
    }
  }

  /** A frame reports exactly when every observation over at least the last `sustain` seconds
      was at or above its threshold and every earlier report is at least `cooldown` old. */
  lemma ReportsIff(c: Config, expected: real, events: seq<Event>, at: real)
    requires GoodConfig(c)
    requires TimesAscend(Run(c, expected, events).trace + [Observed(c, Run(c, expected, events).g, at)])
    ensures var w := Run(c, expected, events);
            var o := Observed(c, w.g, at);
            o.reported <==> Sustained(c, w.trace + [o]) && CooledDown(c, w.trace, at)
  {
    var w := Run(c, expected, events);
    var o := Observed(c, w.g, at);
    assert TimesAscend(w.trace) by {
      var all := w.trace + [o];
      assert forall j :: 0 <= j < |w.trace| ==> all[j] == w.trace[j];
    }
    FieldsExact(c, expected, events);
    DueIffSustained(c, w.trace, w.g.abnormalSince, o);
    CooledIffLast(c, w.trace, w.g.lastReportAt, at);
  }

  /** Any two reports of a run are at least one cooldown apart. */
  lemma {:induction false} ReportsAreSpaced(c: Config, expected: real, events: seq<Event>, i: nat, j: nat)
    requires GoodConfig(c) && TimesAscend(Run(c, expected, events).trace)
    requires i < j < |Run(c, expected, events).trace|
    requires Run(c, expected, events).trace[i].reported && Run(c, expected, events).trace[j].reported
    ensures Run(c, expected, events).trace[j].at - Run(c, expected, events).trace[i].at >= c.cooldown
  {
    var n := |events| - 1;
    var w, e := Run(c, expected, events[..n]), events[n];
    if e.Frame? {
      var o := Observed(c, w.g, e.at);
      var all := w.trace + [o];
      assert forall k :: 0 <= k < |w.trace| ==> all[k] == w.trace[k];
      if j == |w.trace| {
        ReportsIff(c, expected, events[..n], e.at);
      } else {
        ReportsAreSpaced(c, expected, events[..n], i, j);
      }
    } else {
      ReportsAreSpaced(c, expected, events[..n], i, j);
    }
  }
}
