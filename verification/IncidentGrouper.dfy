/** `AgrupadorDeEventos` of services/ai-service-python/detectors/agrupamento_de_evento.py:
    one event per incident, with a periodic mark while the incident does not end. */
module IncidentGrouper {
  import opened Optional

  const DEFAULT_SILENCE: real := 45.0
  const DEFAULT_CEILING: real := 600.0

  datatype Config = Config(silence: real, ceiling: real)

  datatype Reason = NewIncident | Mark | Continues

  datatype State = State(seen: map<string, real>, since: map<string, real>)

  predicate Emits(r: Reason) { r != Continues }

  function Judge(c: Config, s: State, kind: string, now: real): Reason {
    if kind !in s.seen || now - s.seen[kind] > c.silence then NewIncident
    else if c.ceiling > 0.0 && now - (if kind in s.since then s.since[kind] else now) >= c.ceiling then Mark
    else Continues
  }

  function Detected(c: Config, s: State, kind: string, now: real): State {
    State(s.seen[kind := now], if Emits(Judge(c, s, kind, now)) then s.since[kind := now] else s.since)
  }

  function Forgotten(s: State, kind: Option<string>): State {
    if kind.None? then State(map[], map[]) else State(s.seen - {kind.value}, s.since - {kind.value})
  }

  function Duration(s: State, kind: string, now: real): real {
    if kind !in s.since || now < s.since[kind] then 0.0 else now - s.since[kind]
  }

  // ---------------------------------------------------------------- the object

  class Grouper {
    const config: Config
    var seen: map<string, real>
    var since: map<string, real>

    ghost function View(): State
      reads this
    {
      State(seen, since)
    }

    constructor (silence: Option<real>, ceiling: Option<real>)
      ensures View() == State(map[], map[])
      ensures config == Config(if silence.Some? then silence.value else DEFAULT_SILENCE,
                               if ceiling.Some? then ceiling.value else DEFAULT_CEILING)
    {
      config := Config(if silence.None? then DEFAULT_SILENCE else silence.value,
                       if ceiling.None? then DEFAULT_CEILING else ceiling.value);
      seen, since := map[], map[];
    }

    method Decide(kind: string, now: real) returns (emit: bool, reason: Reason)
      modifies this
      ensures reason == Judge(config, old(View()), kind, now) && emit == Emits(reason)
      ensures View() == Detected(config, old(View()), kind, now)
    {
      var last := if kind in seen then Some(seen[kind]) else None;
      seen := seen[kind := now];
      if last.None? || now - last.value > config.silence {
        since := since[kind := now];
        return true, NewIncident;
      }
      var start := if kind in since then since[kind] else now;
      if config.ceiling > 0.0 && now - start >= config.ceiling {
        since := since[kind := now];
        return true, Mark;
      }
      return false, Continues;
    }

    method Forget(kind: Option<string>)
      modifies this
      ensures View() == Forgotten(old(View()), kind)
    {
      if kind.None? {
        seen, since := map[], map[];
      } else {
        seen := seen - {kind.value};
        since := since - {kind.value};
      }
    }
  }

  // ---------------------------------------------------------------- whole runs

  datatype Event = Detection(kind: string, at: real) | Forget(what: Option<string>)

  function Step(c: Config, s: State, e: Event): State {
    match e
    case Detection(kind, at) => Detected(c, s, kind, at)
    case Forget(what) => Forgotten(s, what)
  }

  function After(c: Config, run: seq<Event>): State {
    if run == [] then State(map[], map[]) else Step(c, After(c, run[..|run| - 1]), run[|run| - 1])
  }

  // The decision on the k-th event of a run.
  function Decision(c: Config, run: seq<Event>, k: nat): Reason
    requires k < |run| && run[k].Detection?
  {
    Judge(c, After(c, run[..k]), run[k].kind, run[k].at)
  }

  predicate Is(e: Event, kind: string) { e.Detection? && e.kind == kind }

  predicate Clears(e: Event, kind: string) { e.Forget? && (e.what.None? || e.what.value == kind) }

  // ---------------------------------------------------------------- the rule, read off the history

  // The last detection of the kind among the first n events, unless it was forgotten since.
  function LastSeen(run: seq<Event>, n: nat, kind: string): (r: Option<nat>)
    requires n <= |run|
    ensures r.Some? ==> r.value < n && Is(run[r.value], kind)
  {
    if n == 0 || Clears(run[n - 1], kind) then None
    else if Is(run[n - 1], kind) then Some(n - 1)
    else LastSeen(run, n - 1, kind)
  }

  // The last detection of the kind that emitted.
  function LastEmission(c: Config, run: seq<Event>, n: nat, kind: string): (r: Option<nat>)
    requires n <= |run|
    ensures r.Some? ==> r.value < n && Is(run[r.value], kind)
    decreases n, 0
  {
    if n == 0 || Clears(run[n - 1], kind) then None
    else if Is(run[n - 1], kind) && Due(c, run, n - 1) then Some(n - 1)
    else LastEmission(c, run, n - 1, kind)
  }

  // First of its kind, or after a silence longer than the limit, or a ceiling after the last emission.
  predicate Due(c: Config, run: seq<Event>, k: nat)
    requires k < |run| && run[k].Detection?
    decreases k, 1
  {
    var seen, emission := LastSeen(run, k, run[k].kind), LastEmission(c, run, k, run[k].kind);
    || seen.None?
    || run[k].at - run[seen.value].at > c.silence
    || (c.ceiling > 0.0 && emission.Some? && run[k].at - run[emission.value].at >= c.ceiling)
  }

  function TimeOf(run: seq<Event>, k: Option<nat>): Option<real>
    requires k.Some? ==> k.value < |run| && run[k.value].Detection?
  {
    if k.None? then None else Some(run[k.value].at)
  }

  function Lookup(m: map<string, real>, kind: string): Option<real> { if kind in m then Some(m[kind]) else None }

  // The two dictionaries hold exactly the times that the history yields.
  lemma {:induction false} StateIsHistory(c: Config, run: seq<Event>, n: nat, kind: string)
    requires n <= |run|
    ensures var s := After(c, run[..n]);
            && Lookup(s.seen, kind) == TimeOf(run, LastSeen(run, n, kind))
            && Lookup(s.since, kind) == TimeOf(run, LastEmission(c, run, n, kind))
            && (LastSeen(run, n, kind).Some? <==> LastEmission(c, run, n, kind).Some?)
  {
    if n > 0 {
      StateIsHistory(c, run, n - 1, kind);
      assert run[..n][..n - 1] == run[..n - 1];
    }
  }

  // The grouper emits exactly when the rule says so.
  lemma EmitsIff(c: Config, run: seq<Event>, k: nat)
    requires k < |run| && run[k].Detection?
    ensures Emits(Decision(c, run, k)) <==> Due(c, run, k)
    ensures Decision(c, run, k) == NewIncident <==>
            LastSeen(run, k, run[k].kind).None? || run[k].at - run[LastSeen(run, k, run[k].kind).value].at > c.silence
  {
    StateIsHistory(c, run, k, run[k].kind);
  }

  // The open incident's duration is the time since the last emission: a mark restarts it.
  lemma DurationIsSinceEmission(c: Config, run: seq<Event>, kind: string, now: real)
    ensures var e := LastEmission(c, run, |run|, kind);
            Duration(After(c, run), kind, now) ==
            if e.None? || now < run[e.value].at then 0.0 else now - run[e.value].at
  {
    StateIsHistory(c, run, |run|, kind);
    assert run[..|run|] == run;
  }

  // ---------------------------------------------------------------- how much an incident emits

  // From `first` on, detections of the kind at most a silence apart and nothing forgotten.
  predicate Unbroken(c: Config, run: seq<Event>, kind: string, first: nat, n: nat) {
    && first < n <= |run| && Is(run[first], kind)
    && (forall k :: first < k < n ==> !Clears(run[k], kind))
    && (forall k :: first < k < n && Is(run[k], kind) ==>
          var p := LastSeen(run, k, kind); p.Some? && 0.0 <= run[k].at - run[p.value].at <= c.silence)
  }

  function Emissions(c: Config, run: seq<Event>, kind: string, first: nat, n: nat): nat
    requires n <= |run|
  {
    if n <= first then 0
    else Emissions(c, run, kind, first, n - 1) + (if Is(run[n - 1], kind) && Due(c, run, n - 1) then 1 else 0)
  }

  function LastTime(run: seq<Event>, n: nat, kind: string): real
    requires n <= |run|
  {
    var k := LastSeen(run, n, kind);
    if k.Some? then run[k.value].at else 0.0
  }

  lemma {:induction false} LastSeenInside(c: Config, run: seq<Event>, kind: string, first: nat, n: nat)
    requires Unbroken(c, run, kind, first, n)
    ensures LastSeen(run, n, kind).Some? && LastSeen(run, n, kind).value >= first
    ensures LastTime(run, n, kind) >= run[first].at
  {
    if n > first + 1 { LastSeenInside(c, run, kind, first, n - 1); }
  }

  function Times(m: nat, x: real): real { if m == 0 then 0.0 else Times(m - 1, x) + x }

  lemma {:induction false} TimesIs(m: nat, x: real)
    ensures Times(m, x) == m as real * x
  {
    if m > 0 {
      TimesIs(m - 1, x);
      assert m as real * x == (m as real - 1.0) * x + x;
    }
  }

  // After m emissions the last one came at least (m - 1) ceilings after the incident began.
  predicate Spread(c: Config, run: seq<Event>, kind: string, first: nat, n: nat)
    requires first < n <= |run| && Is(run[first], kind)
  {
    var m, e := Emissions(c, run, kind, first, n), LastEmission(c, run, n, kind);
    m > 0 ==>
      && e.Some? && run[first].at <= run[e.value].at <= LastTime(run, n, kind)
      && (if c.ceiling > 0.0 then Times(m - 1, c.ceiling) <= run[e.value].at - run[first].at else m == 1)
  }

  lemma {:induction false} EmissionsAreSpread(c: Config, run: seq<Event>, kind: string, first: nat, n: nat)
    requires Unbroken(c, run, kind, first, n)
    ensures Spread(c, run, kind, first, n)
  {
    if n > first + 1 {
      EmissionsAreSpread(c, run, kind, first, n - 1);
      LastSeenInside(c, run, kind, first, n - 1);
      if Is(run[n - 1], kind) && Due(c, run, n - 1) {
        OneMoreEmission(c, run, kind, first, n - 1);
      } else {
        NoEmission(c, run, kind, first, n - 1);
      }
    } else {
      assert Emissions(c, run, kind, first, first) == 0;
    }
  }

  lemma NoEmission(c: Config, run: seq<Event>, kind: string, first: nat, k: nat)
    requires Unbroken(c, run, kind, first, k + 1) && first < k && !(Is(run[k], kind) && Due(c, run, k))
    requires Spread(c, run, kind, first, k)
    ensures Spread(c, run, kind, first, k + 1)
  {
    assert Emissions(c, run, kind, first, k + 1) == Emissions(c, run, kind, first, k);
    assert LastEmission(c, run, k + 1, kind) == LastEmission(c, run, k, kind);
    assert LastTime(run, k + 1, kind) >= LastTime(run, k, kind);
  }

  lemma OneMoreEmission(c: Config, run: seq<Event>, kind: string, first: nat, k: nat)
    requires Unbroken(c, run, kind, first, k + 1) && first < k && Is(run[k], kind) && Due(c, run, k)
    requires Spread(c, run, kind, first, k) && LastTime(run, k, kind) >= run[first].at
    ensures Spread(c, run, kind, first, k + 1)
  {
    DueByCeiling(c, run, kind, first, k);
    var m, e := Emissions(c, run, kind, first, k), LastEmission(c, run, k, kind);
    assert Emissions(c, run, kind, first, k + 1) == m + 1;
    assert LastEmission(c, run, k + 1, kind) == Some(k) && LastSeen(run, k + 1, kind) == Some(k);
  }

  // Inside an unbroken incident only the ceiling makes a detection due.
  lemma DueByCeiling(c: Config, run: seq<Event>, kind: string, first: nat, k: nat)
    requires Unbroken(c, run, kind, first, k + 1) && first < k && Is(run[k], kind) && Due(c, run, k)
    ensures var e := LastEmission(c, run, k, kind);
            c.ceiling > 0.0 && e.Some? && run[k].at - run[e.value].at >= c.ceiling
    ensures run[k].at >= LastTime(run, k, kind)
  {
    var p := LastSeen(run, k, kind);
    assert p.Some? && run[k].at - run[p.value].at <= c.silence;
  }

  // An unbroken incident of length d emits at most 1 + floor(d / ceiling) events; without a
  // ceiling, at most one.
  lemma IncidentIsBounded(c: Config, run: seq<Event>, kind: string, first: nat, n: nat)
    requires Unbroken(c, run, kind, first, n)
    ensures var d := LastTime(run, n, kind) - run[first].at;
            d >= 0.0 && |Emitting(c, run, kind, first, n)| <= if c.ceiling > 0.0 then 1 + (d / c.ceiling).Floor else 1
  {
    LastSeenInside(c, run, kind, first, n);
    EmissionsAreSpread(c, run, kind, first, n);
    var m := Emissions(c, run, kind, first, n);
    FitsInto(if m > 0 then m else 1, c.ceiling, LastTime(run, n, kind) - run[first].at);
    EmissionsAreCounted(c, run, kind, first, n);
  }

  // The detections of the kind that emit an event.
  ghost function Emitting(c: Config, run: seq<Event>, kind: string, first: nat, n: nat): set<nat>
    requires n <= |run|
  {
    set k: nat | first <= k < n && Is(run[k], kind) && Due(c, run, k)
  }

  lemma {:induction false} EmissionsAreCounted(c: Config, run: seq<Event>, kind: string, first: nat, n: nat)
    requires n <= |run|
    ensures Emissions(c, run, kind, first, n) == |Emitting(c, run, kind, first, n)|
  {
    if n <= first {
      assert Emitting(c, run, kind, first, n) == {};
    } else {
      EmissionsAreCounted(c, run, kind, first, n - 1);
      EmittingOneMore(c, run, kind, first, n - 1);
    }
  }

  lemma EmittingOneMore(c: Config, run: seq<Event>, kind: string, first: nat, n: nat)
    requires first <= n < |run|
    ensures |Emitting(c, run, kind, first, n + 1)| ==
            |Emitting(c, run, kind, first, n)| + if Is(run[n], kind) && Due(c, run, n) then 1 else 0
  {
    var before, after := Emitting(c, run, kind, first, n), Emitting(c, run, kind, first, n + 1);
    var here: set<nat> := if Is(run[n], kind) && Due(c, run, n) then {n} else {};
    forall k: nat ensures k in after <==> k in before || k in here {}
    assert after == before + here && n !in before;
  }

  function Most(ceiling: real, d: real): int { if ceiling > 0.0 then 1 + (d / ceiling).Floor else 1 }

  lemma FitsInto(m: nat, x: real, d: real)
    requires m > 0 && d >= 0.0
    ensures (if x > 0.0 then Times(m - 1, x) <= d else m == 1) ==> m <= Most(x, d)
    ensures Most(x, d) >= 1
  {
    TimesIs(m - 1, x);
    if x > 0.0 { Quotient(m - 1, d, x); }
  }

  lemma Quotient(k: int, d: real, x: real)
    requires x > 0.0 && d >= 0.0
    ensures k as real * x <= d ==> k <= (d / x).Floor
    ensures (d / x).Floor >= 0
  {
    SignOf(d / x - k as real, x);
    SignOf(d / x, x);
    assert d / x * x == d;
    assert (d / x - k as real) * x == d - k as real * x;
  }

  lemma SignOf(y: real, x: real)
    requires x > 0.0
    ensures y >= 0.0 <==> y * x >= 0.0
  {
    if y >= 0.0 { assert y * x >= 0.0; } else { assert -y * x > 0.0; }
  }

  // ---------------------------------------------------------------- kinds do not disturb each other

  // The events that concern a kind.
  function Concerning(run: seq<Event>, kind: string): seq<Event> {
    if run == [] then []
    else var e := run[|run| - 1];
         Concerning(run[..|run| - 1], kind) + (if Is(e, kind) || Clears(e, kind) then [e] else [])
  }

  // All decisions on a kind, in order.
  function Decisions(c: Config, run: seq<Event>, kind: string): seq<Reason> {
    if run == [] then []
    else var before, e := run[..|run| - 1], run[|run| - 1];
         Decisions(c, before, kind) + (if Is(e, kind) then [Judge(c, After(c, before), kind, e.at)] else [])
  }

  // Leaving out the events of all other kinds changes none of the decisions.
  lemma {:induction false} KindsAreIndependent(c: Config, run: seq<Event>, kind: string)
    ensures Decisions(c, run, kind) == Decisions(c, Concerning(run, kind), kind)
    ensures forall at :: Judge(c, After(c, run), kind, at) == Judge(c, After(c, Concerning(run, kind)), kind, at)
    ensures forall e :: e in Concerning(run, kind) <==> e in run && (Is(e, kind) || Clears(e, kind))
    ensures Agree(After(c, run), After(c, Concerning(run, kind)), kind)
  {
    if run != [] {
      var before, e := run[..|run| - 1], run[|run| - 1];
      KindsAreIndependent(c, before, kind);
      var less := Concerning(before, kind);
      StepsAgree(c, After(c, before), After(c, less), e, kind);
      if Is(e, kind) || Clears(e, kind) {
        var all := Concerning(run, kind);
        assert all == less + [e] && all[..|all| - 1] == less;
      } else {
        assert Concerning(run, kind) == less;
      }
    }
  }

  predicate Agree(s: State, t: State, kind: string) {
    Lookup(s.seen, kind) == Lookup(t.seen, kind) && Lookup(s.since, kind) == Lookup(t.since, kind)
  }

  lemma StepsAgree(c: Config, s: State, t: State, e: Event, kind: string)
    requires Agree(s, t, kind)
    ensures Agree(Step(c, s, e), Step(c, t, e), kind)
    ensures !Is(e, kind) && !Clears(e, kind) ==> Agree(Step(c, s, e), t, kind)
    ensures e.Detection? && Is(e, kind) ==> Judge(c, s, kind, e.at) == Judge(c, t, kind, e.at)
  {}
}
