/** The adaptive degradation ladder of services/ai-service-python/stream_processor.py: three
    indices that are degraded one after the other, relaxed in the opposite order, and applied
    to the analysis parameters. */
module AdaptiveLadder {
  import opened Basics
  import opened Optional

  // The three lists of a profile: factors as configured, sizes and scales sorted downwards.
  datatype Profile = Profile(fpsFactors: seq<real>, imgszSteps: seq<int>, resolutionScales: seq<real>)

  ghost predicate SortedProfile(p: Profile) {
    && p.fpsFactors != [] && p.imgszSteps != [] && p.resolutionScales != []
    && (forall i, j :: 0 <= i < j < |p.imgszSteps| ==> p.imgszSteps[i] > p.imgszSteps[j])
    && (forall i, j :: 0 <= i < j < |p.resolutionScales| ==> p.resolutionScales[i] > p.resolutionScales[j])
  }

  // The parsers fall back to a default list, so no list is empty.
  predicate NonEmpty(p: Profile) { p.fpsFactors != [] && p.imgszSteps != [] && p.resolutionScales != [] }

  datatype Rung = Rung(fps: nat, imgsz: nat, res: nat)

  const BOTTOM := Rung(0, 0, 0)

  function Advance(p: Profile, r: Rung): Rung {
    if r.fps < |p.fpsFactors| - 1 then r.(fps := r.fps + 1)
    else if r.imgsz < |p.imgszSteps| - 1 then r.(imgsz := r.imgsz + 1)
    else if r.res < |p.resolutionScales| - 1 then r.(res := r.res + 1)
    else r
  }

  function Relax(r: Rung): Rung {
    if r.res > 0 then r.(res := r.res - 1)
    else if r.imgsz > 0 then r.(imgsz := r.imgsz - 1)
    else if r.fps > 0 then r.(fps := r.fps - 1)
    else r
  }

  // ---------------------------------------------------------------- one level 0..Top

  function Top(p: Profile): int { |p.fpsFactors| + |p.imgszSteps| + |p.resolutionScales| - 3 }

  function Level(r: Rung): nat { r.fps + r.imgsz + r.res }

  // The first list is used up first, then the second, then the third.
  function At(p: Profile, level: nat): (r: Rung)
    requires NonEmpty(p) && level <= Top(p)
  {
    var fps, imgsz := |p.fpsFactors| - 1, |p.imgszSteps| - 1;
    if level <= fps then Rung(level, 0, 0)
    else if level <= fps + imgsz then Rung(fps, level - fps, 0)
    else Rung(fps, imgsz, level - fps - imgsz)
  }

  datatype Move = Degrade | Recover

  function Play(p: Profile, r: Rung, moves: seq<Move>): Rung {
    if moves == [] then r
    else
      var before := Play(p, r, moves[..|moves| - 1]);
      if moves[|moves| - 1] == Degrade then Advance(p, before) else Relax(before)
  }

  ghost predicate Reachable(p: Profile, r: Rung) { exists moves :: Play(p, BOTTOM, moves) == r }

  /** Level and rung determine each other. */
  lemma LevelsAreRungs(p: Profile, level: nat)
    requires NonEmpty(p) && level <= Top(p)
    ensures Level(At(p, level)) == level
    ensures Advance(p, At(p, level)) == At(p, Min(level + 1, Top(p)))
    ensures Relax(At(p, level)) == At(p, Max(level - 1, 0))
  {}

  predicate OnLadder(p: Profile, r: Rung) { NonEmpty(p) && Level(r) <= Top(p) && r == At(p, Level(r)) }

  lemma MovesStayOnLadder(p: Profile, r: Rung)
    requires OnLadder(p, r)
    ensures OnLadder(p, Advance(p, r)) && Level(Advance(p, r)) == Min(Level(r) + 1, Top(p))
    ensures OnLadder(p, Relax(r)) && Level(Relax(r)) == Max(Level(r) - 1, 0)
  {
    LevelsAreRungs(p, Level(r));
    LevelsAreRungs(p, Min(Level(r) + 1, Top(p)));
    LevelsAreRungs(p, Max(Level(r) - 1, 0));
  }

  lemma BottomIsOnLadder(p: Profile)
    requires NonEmpty(p)
    ensures OnLadder(p, BOTTOM)
  {
    LevelsAreRungs(p, 0);
  }

  lemma PlayOneMore(p: Profile, r: Rung, moves: seq<Move>, m: Move)
    ensures Play(p, r, moves + [m]) == if m == Degrade then Advance(p, Play(p, r, moves)) else Relax(Play(p, r, moves))
  {
    assert (moves + [m])[..|moves|] == moves;
  }

  lemma {:induction false} PlayStaysOnLadder(p: Profile, moves: seq<Move>)
    requires NonEmpty(p)
    ensures OnLadder(p, Play(p, BOTTOM, moves))
  {
    if moves == [] {
      BottomIsOnLadder(p);
    } else {
      var before, last := moves[..|moves| - 1], moves[|moves| - 1];
      assert moves == before + [last];
      PlayStaysOnLadder(p, before);
      PlayOneMore(p, BOTTOM, before, last);
      MovesStayOnLadder(p, Play(p, BOTTOM, before));
    }
  }

  lemma {:induction false} EveryLevelIsReached(p: Profile, level: nat) returns (moves: seq<Move>)
    requires NonEmpty(p) && level <= Top(p)
    ensures Play(p, BOTTOM, moves) == At(p, level)
  {
    moves := [];
    if level > 0 {
      var fewer := EveryLevelIsReached(p, level - 1);
      LevelsAreRungs(p, level - 1);
      moves := fewer + [Degrade];
      PlayOneMore(p, BOTTOM, fewer, Degrade);
    }
  }

  /** The rungs that any sequence of degradations and recoveries reaches are in bijection with
      the levels 0..Top. */
  lemma ReachableIffLevel(p: Profile, r: Rung)
    requires NonEmpty(p)
    ensures Reachable(p, r) <==> OnLadder(p, r)
  {
    if Reachable(p, r) {
      var moves :| Play(p, BOTTOM, moves) == r;
      PlayStaysOnLadder(p, moves);
    }
    if OnLadder(p, r) {
      var moves := EveryLevelIsReached(p, Level(r));
    }
  }

  /** Degrading and recovering move one level, capped at both ends, and undo each other. */
  lemma MovesUndoEachOther(p: Profile, r: Rung)
    requires NonEmpty(p) && Reachable(p, r)
    ensures Level(Advance(p, r)) == Min(Level(r) + 1, Top(p)) && Level(Relax(r)) == Max(Level(r) - 1, 0)
    ensures Level(r) < Top(p) ==> Relax(Advance(p, r)) == r
    ensures Level(r) > 0 ==> Advance(p, Relax(r)) == r
  {
    ReachableIffLevel(p, r);
    MovesStayOnLadder(p, r);
    UndoAt(p, Level(r));
  }

  lemma UndoAt(p: Profile, level: nat)
    requires NonEmpty(p) && level <= Top(p)
    ensures level < Top(p) ==> Relax(Advance(p, At(p, level))) == At(p, level)
    ensures level > 0 ==> Advance(p, Relax(At(p, level))) == At(p, level)
  {
    LevelsAreRungs(p, level);
    if level < Top(p) {
      LevelsAreRungs(p, level + 1);
    }
    if level > 0 {
      LevelsAreRungs(p, level - 1);
    }
  }

  // ---------------------------------------------------------------- applying a rung

  // The parameters configured for one view mode, before the ladder.
  datatype Setting = Setting(fps: real, advancedFps: real, width: int, height: int, inputSize: int)

  datatype Params = Params(fps: real, advancedFps: real, width: int, height: int, inputSize: int)

  function MaxReal(a: real, b: real): real { if a >= b then a else b }
  function MinReal(a: real, b: real): real { if a <= b then a else b }

  // Python's round(): to the nearest integer, ties to the even one.
  function Round(x: real): int {
    var f := x.Floor;
    var d := x - f as real;
    if d < 0.5 || (d == 0.5 && f % 2 == 0) then f else f + 1
  }

  function Clamp(i: int, length: nat): int { Max(0, Min(i, length - 1)) }

  function Floored(c: Setting): Params {
    Params(MaxReal(0.5, c.fps), MaxReal(0.5, c.advancedFps), Max(160, c.width), Max(120, c.height), Max(0, c.inputSize))
  }

  function BoundedScale(s: real): real { MaxReal(0.4, MinReal(1.0, s)) }

  function Resized(size: int, scale: real, least: int): int { Max(least, Round(size as real * scale)) }

  function Scaled(c: Setting, p: Profile, r: Rung): Params
    requires NonEmpty(p)
  {
    var base := Floored(c);
    var factor := p.fpsFactors[Clamp(r.fps, |p.fpsFactors|)];
    var scale := BoundedScale(p.resolutionScales[Clamp(r.res, |p.resolutionScales|)]);
    Params(MaxReal(0.5, base.fps * factor), MaxReal(0.5, base.advancedFps * factor),
           Resized(base.width, scale, 160), Resized(base.height, scale, 120),
           Min(base.inputSize, Max(128, p.imgszSteps[Clamp(r.imgsz, |p.imgszSteps|)])))
  }

  /** The index clamps of `_apply_qos_mode` never clamp a rung of the ladder. */
  lemma ClampsAreIdentities(p: Profile, r: Rung)
    requires NonEmpty(p) && Reachable(p, r)
    ensures Clamp(r.fps, |p.fpsFactors|) == r.fps
    ensures Clamp(r.imgsz, |p.imgszSteps|) == r.imgsz
    ensures Clamp(r.res, |p.resolutionScales|) == r.res
  {
    ReachableIffLevel(p, r);
  }

  lemma RoundMonotone(x: real, y: real)
    requires x <= y
    ensures Round(x) <= Round(y)
  {
    RoundIsNear(x);
    RoundIsNear(y);
    if x.Floor == y.Floor {
      var f := x.Floor as real;
      assert x - f <= y - f;
    } else {
      assert x.Floor + 1 <= y.Floor;
    }
  }

  lemma RoundIsNear(x: real)
    ensures x.Floor <= Round(x) <= x.Floor + 1
  {}

  lemma ScaleMonotone(w: int, s: real, t: real, least: int)
    requires w >= 0 && s <= t
    ensures Resized(w, s, least) <= Resized(w, t, least)
  {
    var x, y := w as real * s, w as real * t;
    assert x <= y by { assert w as real * (t - s) >= 0.0; }
    RoundMonotone(x, y);
    assert Resized(w, s, least) == Max(least, Round(x));
    assert Resized(w, t, least) == Max(least, Round(y));
  }

  lemma AtMonotone(p: Profile, low: nat, high: nat)
    requires NonEmpty(p) && low <= high <= Top(p)
    ensures At(p, low).fps <= At(p, high).fps < |p.fpsFactors|
    ensures At(p, low).imgsz <= At(p, high).imgsz < |p.imgszSteps|
    ensures At(p, low).res <= At(p, high).res < |p.resolutionScales|
  {}

  lemma MulMonotone(a: real, s: real, t: real)
    requires a >= 0.0 && s <= t
    ensures a * s <= a * t
  {}

  predicate FactorsFall(p: Profile) {
    forall i, j :: 0 <= i < j < |p.fpsFactors| ==> p.fpsFactors[i] >= p.fpsFactors[j]
  }

  lemma ScaledSizes(c: Setting, p: Profile, r: Rung)
    requires NonEmpty(p) && r.imgsz < |p.imgszSteps| && r.res < |p.resolutionScales|
    ensures Scaled(c, p, r).width == Resized(Floored(c).width, BoundedScale(p.resolutionScales[r.res]), 160)
    ensures Scaled(c, p, r).height == Resized(Floored(c).height, BoundedScale(p.resolutionScales[r.res]), 120)
    ensures Scaled(c, p, r).inputSize == Min(Floored(c).inputSize, Max(128, p.imgszSteps[r.imgsz]))
  {}

  lemma DeeperRungNeverRaises(c: Setting, p: Profile, r: Rung, t: Rung)
    requires SortedProfile(p) && r.fps <= t.fps < |p.fpsFactors|
    requires r.imgsz <= t.imgsz < |p.imgszSteps| && r.res <= t.res < |p.resolutionScales|
    ensures Scaled(c, p, t).width <= Scaled(c, p, r).width && Scaled(c, p, t).height <= Scaled(c, p, r).height
    ensures Scaled(c, p, t).inputSize <= Scaled(c, p, r).inputSize
  {
    var base := Floored(c);
    assert p.imgszSteps[t.imgsz] <= p.imgszSteps[r.imgsz];
    assert p.resolutionScales[t.res] <= p.resolutionScales[r.res];
    var s, s' := BoundedScale(p.resolutionScales[r.res]), BoundedScale(p.resolutionScales[t.res]);
    ScaleMonotone(base.width, s', s, 160);
    ScaleMonotone(base.height, s', s, 120);
    ScaledSizes(c, p, r);
    ScaledSizes(c, p, t);
  }

  lemma DeeperRungIsSlower(c: Setting, p: Profile, r: Rung, t: Rung)
    requires NonEmpty(p) && FactorsFall(p) && r.fps <= t.fps < |p.fpsFactors|
    ensures Scaled(c, p, t).fps <= Scaled(c, p, r).fps && Scaled(c, p, t).advancedFps <= Scaled(c, p, r).advancedFps
  {
    var base := Floored(c);
    assert p.fpsFactors[t.fps] <= p.fpsFactors[r.fps];
    MulMonotone(base.fps, p.fpsFactors[t.fps], p.fpsFactors[r.fps]);
    MulMonotone(base.advancedFps, p.fpsFactors[t.fps], p.fpsFactors[r.fps]);
  }

  /** A higher level never raises the input size or the resolution, nor the frame rate when
      the configured factors do not increase. */
  lemma HigherLevelNeverRaises(c: Setting, p: Profile, low: nat, high: nat)
    requires SortedProfile(p) && low <= high <= Top(p)
    ensures Scaled(c, p, At(p, high)).width <= Scaled(c, p, At(p, low)).width
    ensures Scaled(c, p, At(p, high)).height <= Scaled(c, p, At(p, low)).height
    ensures Scaled(c, p, At(p, high)).inputSize <= Scaled(c, p, At(p, low)).inputSize
    ensures FactorsFall(p) ==> Scaled(c, p, At(p, high)).fps <= Scaled(c, p, At(p, low)).fps
    ensures FactorsFall(p) ==> Scaled(c, p, At(p, high)).advancedFps <= Scaled(c, p, At(p, low)).advancedFps
  {
    AtMonotone(p, low, high);
    DeeperRungNeverRaises(c, p, At(p, low), At(p, high));
    if FactorsFall(p) {
      DeeperRungIsSlower(c, p, At(p, low), At(p, high));
    }
  }

  // ---------------------------------------------------------------- the parameters of a level

  ghost predicate IsAtLeast(r: real, x: real, least: real) { r == if x < least then least else x }

  // n is the integer nearest to x, the even one of two.
  ghost predicate IsNearest(n: int, x: real) {
    -0.5 <= n as real - x <= 0.5 && (n as real - x == 0.5 || n as real - x == -0.5 ==> n % 2 == 0)
  }

  // The scaled size, rounded, and never below the least.
  ghost predicate IsScaled(n: int, x: real, least: int) {
    n >= least && (IsNearest(n, x) || (n == least && x < least as real))
  }

  ghost predicate RatesFrom(c: Setting, factor: real, t: Params) {
    && IsAtLeast(t.fps, (if c.fps < 0.5 then 0.5 else c.fps) * factor, 0.5)
    && IsAtLeast(t.advancedFps, (if c.advancedFps < 0.5 then 0.5 else c.advancedFps) * factor, 0.5)
  }

  ghost predicate SizesFrom(c: Setting, step: int, scale: real, t: Params) {
    && IsScaled(t.width, Max(160, c.width) as real * scale, 160)
    && IsScaled(t.height, Max(120, c.height) as real * scale, 120)
    && t.inputSize == Min(Max(0, c.inputSize), Max(128, step))
  }

  // What one level of the ladder makes of a setting.  The factors of the frame rate are used up first,
  // one a level, then the input sizes, then the scales.
  ghost predicate LadderParams(c: Setting, p: Profile, level: nat, t: Params)
    requires NonEmpty(p) && level <= Top(p)
  {
    var f, g := |p.fpsFactors| - 1, |p.imgszSteps| - 1;
    var step := p.imgszSteps[if level < f then 0 else if level < f + g then level - f else g];
    var x := p.resolutionScales[if level < f + g then 0 else level - f - g];
    && RatesFrom(c, p.fpsFactors[if level < f then level else f], t)
    && SizesFrom(c, step, if x < 0.4 then 0.4 else if x > 1.0 then 1.0 else x, t)
  }

  lemma RoundIsNearest(x: real)
    ensures IsNearest(Round(x), x)
  {}

  lemma NearestAtLeast(n: int, x: real, least: int)
    requires IsNearest(n, x)
    ensures Max(least, n) >= least
    ensures IsNearest(Max(least, n), x) || (Max(least, n) == least && x < least as real)
  {}

  lemma ResizedIsScaled(size: int, scale: real, least: int)
    ensures IsScaled(Resized(size, scale, least), size as real * scale, least)
  {
    var x := size as real * scale;
    RoundIsNearest(x);
    NearestAtLeast(Round(x), x, least);
  }

  lemma ScaledRates(c: Setting, p: Profile, r: Rung)
    requires NonEmpty(p) && r.fps < |p.fpsFactors|
    ensures RatesFrom(c, p.fpsFactors[r.fps], Scaled(c, p, r))
  {}

  lemma ScaleBounds(x: real)
    ensures BoundedScale(x) == if x < 0.4 then 0.4 else if x > 1.0 then 1.0 else x
  {}

  lemma SizesAreScaled(c: Setting, step: int, scale: real, t: Params)
    requires t.width == Resized(Max(160, c.width), scale, 160)
    requires t.height == Resized(Max(120, c.height), scale, 120)
    requires t.inputSize == Min(Max(0, c.inputSize), Max(128, step))
    ensures SizesFrom(c, step, scale, t)
  {
    ResizedIsScaled(Max(160, c.width), scale, 160);
    ResizedIsScaled(Max(120, c.height), scale, 120);
  }

  /** The parameters of every level, from the configured setting and the three lists. */
  lemma ParamsOfLevel(c: Setting, p: Profile, level: nat)
    requires NonEmpty(p) && level <= Top(p)
    ensures LadderParams(c, p, level, Scaled(c, p, At(p, level)))
  {
    var r := At(p, level);
    ScaledRates(c, p, r);
    ScaledSizes(c, p, r);
    ScaleBounds(p.resolutionScales[r.res]);
    SizesAreScaled(c, p.imgszSteps[r.imgsz], BoundedScale(p.resolutionScales[r.res]), Scaled(c, p, r));
  }

  // ---------------------------------------------------------------- when the level moves

  datatype Limits = Limits(window: real, degradeCooldown: real, recoverCooldown: real,
                           dropHigh: real, dropLow: real, cpuHigh: real, cpuLow: real)

  datatype QosMode = Base | Selected | Grid

  // Each mode has its own rung; the clocks and counters are shared.
  datatype Rungs = Rungs(base: Rung, selected: Rung, grid: Rung)
  datatype Profiles = Profiles(base: Profile, selected: Profile, grid: Profile)

  function RungOf(rs: Rungs, mode: QosMode): Rung {
    match mode case Base => rs.base case Selected => rs.selected case Grid => rs.grid
  }

  function WithRung(rs: Rungs, mode: QosMode, r: Rung): Rungs {
    match mode
    case Base => rs.(base := r)
    case Selected => rs.(selected := r)
    case Grid => rs.(grid := r)
  }

  function ProfileOf(ps: Profiles, mode: QosMode): Profile {
    match mode case Base => ps.base case Selected => ps.selected case Grid => ps.grid
  }

  predicate AllOnLadder(ps: Profiles, rs: Rungs) {
    OnLadder(ps.base, rs.base) && OnLadder(ps.selected, rs.selected) && OnLadder(ps.grid, rs.grid)
  }

  datatype Meter = Meter(rungs: Rungs, lastEvalAt: real, lastChangeAt: real, lastEnqueued: nat, lastDropped: nat)

  // What `_evaluate_adaptive_degradation` sees: the mode in force, the clock, the counters
  // and the CPU load.
  datatype Sample = Sample(mode: QosMode, now: real, enqueued: nat, dropped: nat, cpu: Option<real>)

  // The move that is due: overload first, and only outside its own cooldown.
  function Decide(l: Limits, m: Meter, s: Sample): (d: Option<Move>)
    ensures d == Some(Degrade) ==> s.now - m.lastChangeAt >= l.degradeCooldown
    ensures d == Some(Recover) ==> s.now - m.lastChangeAt >= l.recoverCooldown
  {
    var enqueued, dropped := Max(0, s.enqueued - m.lastEnqueued), Max(0, s.dropped - m.lastDropped);
    var ratio := dropped as real / Max(1, enqueued) as real;
    var overloaded := ratio >= l.dropHigh || (s.cpu.Some? && s.cpu.value >= l.cpuHigh);
    var recovered := ratio <= l.dropLow && !(s.cpu.Some? && s.cpu.value > l.cpuLow);
    var elapsed := s.now - m.lastChangeAt;
    if s.now - m.lastEvalAt < l.window then None
    else if overloaded && elapsed >= l.degradeCooldown then Some(Degrade)
    else if recovered && elapsed >= l.recoverCooldown then Some(Recover)
    else None
  }

  function Moved(p: Profile, r: Rung, d: Option<Move>): Rung {
    if d == Some(Degrade) then Advance(p, r) else if d == Some(Recover) then Relax(r) else r
  }

  function Evaluate(l: Limits, ps: Profiles, m: Meter, s: Sample): Meter {
    if s.now - m.lastEvalAt < l.window then m
    else
      var before := RungOf(m.rungs, s.mode);
      var after := Moved(ProfileOf(ps, s.mode), before, Decide(l, m, s));
      var changedAt := if after != before then s.now else m.lastChangeAt;
      Meter(WithRung(m.rungs, s.mode, after), s.now, changedAt, s.enqueued, s.dropped)
  }

  // A change of level: when, in which mode, and in which direction.
  datatype Change = Change(at: real, mode: QosMode, up: bool)

  function ChangeOf(m: Meter, n: Meter, s: Sample): Change {
    Change(s.now, s.mode, Level(RungOf(n.rungs, s.mode)) > Level(RungOf(m.rungs, s.mode)))
  }

  function Changes(l: Limits, ps: Profiles, m: Meter, samples: seq<Sample>): seq<Change>
    decreases |samples|
  {
    if samples == [] then []
    else
      var n := Evaluate(l, ps, m, samples[0]);
      (if n.rungs != m.rungs then [ChangeOf(m, n, samples[0])] else []) + Changes(l, ps, n, samples[1..])
  }

  predicate Spaced(l: Limits, t: real, c: Change) {
    c.at - t >= (if c.up then l.degradeCooldown else l.recoverCooldown)
  }

  function PreviousAt(t: real, cs: seq<Change>, i: nat): real
    requires i < |cs|
  {
    if i == 0 then t else cs[i - 1].at
  }

  ghost predicate AllSpaced(l: Limits, t: real, cs: seq<Change>) {
    forall i :: 0 <= i < |cs| ==> Spaced(l, PreviousAt(t, cs, i), cs[i])
  }

  lemma MovedStep(p: Profile, r: Rung, d: Option<Move>)
    requires OnLadder(p, r)
    ensures OnLadder(p, Moved(p, r, d)) && -1 <= Level(Moved(p, r, d)) - Level(r) <= 1
    ensures Moved(p, r, d) != r ==> d.Some? && (Level(Moved(p, r, d)) > Level(r) <==> d == Some(Degrade))
  {
    MovesStayOnLadder(p, r);
    MovedByOne(p, r, d);
  }

  lemma MovedByOne(p: Profile, r: Rung, d: Option<Move>)
    ensures -1 <= Level(Moved(p, r, d)) - Level(r) <= 1
    ensures Moved(p, r, d) != r ==> d.Some? && (Level(Moved(p, r, d)) > Level(r) <==> d == Some(Degrade))
  {}

  /** One evaluation: only the mode in force moves, by at most one level, and only outside the
      cooldown of the direction it moves in. */
  lemma EvaluateStep(l: Limits, ps: Profiles, m: Meter, s: Sample)
    requires AllOnLadder(ps, m.rungs)
    ensures var n := Evaluate(l, ps, m, s);
            && AllOnLadder(ps, n.rungs) && (n.rungs == m.rungs ==> n.lastChangeAt == m.lastChangeAt)
            && (n.rungs != m.rungs ==> n.lastChangeAt == s.now && Spaced(l, m.lastChangeAt, ChangeOf(m, n, s)))
            && (forall mode :: mode != s.mode ==> RungOf(n.rungs, mode) == RungOf(m.rungs, mode))
            && -1 <= Level(RungOf(n.rungs, s.mode)) - Level(RungOf(m.rungs, s.mode)) <= 1
  {
    MovedStep(ProfileOf(ps, s.mode), RungOf(m.rungs, s.mode), Decide(l, m, s));
  }

  // Since the last evaluation, frames were dropped at this rate or above: so many for each frame enqueued.
  // Without any frame, one stands in for it; a counter that went back counts as no change.
  ghost predicate DropsAtLeast(m: Meter, s: Sample, rate: real) {
    var dropped := if s.dropped > m.lastDropped then s.dropped - m.lastDropped else 0;
    var enqueued := if s.enqueued > m.lastEnqueued then s.enqueued - m.lastEnqueued else 1;
    dropped as real >= rate * enqueued as real
  }

  ghost predicate DropsAtMost(m: Meter, s: Sample, rate: real) {
    var dropped := if s.dropped > m.lastDropped then s.dropped - m.lastDropped else 0;
    var enqueued := if s.enqueued > m.lastEnqueued then s.enqueued - m.lastEnqueued else 1;
    dropped as real <= rate * enqueued as real
  }

  // It is time to go up: too many drops or too much load, and the last change was long enough ago.
  ghost predicate MustDegrade(l: Limits, m: Meter, s: Sample) {
    && (DropsAtLeast(m, s, l.dropHigh) || (s.cpu.Some? && s.cpu.value >= l.cpuHigh))
    && s.now - m.lastChangeAt >= l.degradeCooldown
  }

  // It is time to go down: few drops, and no load known above the limit.
  ghost predicate MayRecover(l: Limits, m: Meter, s: Sample) {
    && DropsAtMost(m, s, l.dropLow) && (s.cpu.Some? ==> s.cpu.value <= l.cpuLow)
    && s.now - m.lastChangeAt >= l.recoverCooldown
  }

  lemma RatioCompares(n: real, d: real, rate: real)
    requires d > 0.0
    ensures n / d >= rate <==> n >= rate * d
    ensures n / d <= rate <==> n <= rate * d
  {
    var x := n / d;
    assert x * d == n;
    MulOrders(x, rate, d);
    MulOrders(rate, x, d);
  }

  lemma MulOrders(x: real, y: real, d: real)
    requires d > 0.0
    ensures x < y <==> x * d < y * d
  {
    if x < y { assert (y - x) * d > 0.0; }
    if x >= y { assert (x - y) * d >= 0.0; }
  }

  lemma DecideIff(l: Limits, m: Meter, s: Sample)
    requires s.now - m.lastEvalAt >= l.window
    ensures Decide(l, m, s) ==
            if MustDegrade(l, m, s) then Some(Degrade) else if MayRecover(l, m, s) then Some(Recover) else None
  {
    var enqueued, dropped := Max(0, s.enqueued - m.lastEnqueued), Max(0, s.dropped - m.lastDropped);
    RatioCompares(dropped as real, Max(1, enqueued) as real, l.dropHigh);
    RatioCompares(dropped as real, Max(1, enqueued) as real, l.dropLow);
  }

  // What one evaluation of the mode in force makes of the meter: once a window has passed, one level up
  // when it must, one down when it may, within the ladder; the counters are read anew.
  ghost predicate EvaluatedTo(l: Limits, ps: Profiles, m: Meter, s: Sample, n: Meter) {
    var before, after := Level(RungOf(m.rungs, s.mode)), Level(RungOf(n.rungs, s.mode));
    if s.now - m.lastEvalAt < l.window then n == m
    else
      && after == (if MustDegrade(l, m, s) then Min(before + 1, Top(ProfileOf(ps, s.mode)))
                   else if MayRecover(l, m, s) then Max(before - 1, 0) else before)
      && n.lastEvalAt == s.now && n.lastEnqueued == s.enqueued && n.lastDropped == s.dropped
      && n.lastChangeAt == (if after != before then s.now else m.lastChangeAt)
  }

  /** When a move is due, and which: once a window has passed, the mode in force goes up one level under
      overload and down one without load, each outside its cooldown and within the ladder, and stays
      otherwise; the counters are read anew.  Within the window nothing happens. */
  lemma EvaluationIff(l: Limits, ps: Profiles, m: Meter, s: Sample)
    requires AllOnLadder(ps, m.rungs)
    ensures EvaluatedTo(l, ps, m, s, Evaluate(l, ps, m, s))
  {
    if s.now - m.lastEvalAt >= l.window {
      DecideIff(l, m, s);
      EvaluateFields(l, ps, m, s);
      MovedLevel(ProfileOf(ps, s.mode), RungOf(m.rungs, s.mode), Decide(l, m, s));
    }
  }

  lemma EvaluateFields(l: Limits, ps: Profiles, m: Meter, s: Sample)
    requires s.now - m.lastEvalAt >= l.window
    ensures var n, before := Evaluate(l, ps, m, s), RungOf(m.rungs, s.mode);
            && RungOf(n.rungs, s.mode) == Moved(ProfileOf(ps, s.mode), before, Decide(l, m, s))
            && n.lastEvalAt == s.now && n.lastEnqueued == s.enqueued && n.lastDropped == s.dropped
            && n.lastChangeAt == if RungOf(n.rungs, s.mode) != before then s.now else m.lastChangeAt
  {}

  lemma MovedLevel(p: Profile, r: Rung, d: Option<Move>)
    requires OnLadder(p, r)
    ensures Level(Moved(p, r, d)) == (if d == Some(Degrade) then Min(Level(r) + 1, Top(p))
                                      else if d == Some(Recover) then Max(Level(r) - 1, 0) else Level(r))
    ensures Moved(p, r, d) != r <==> Level(Moved(p, r, d)) != Level(r)
  {
    MovesStayOnLadder(p, r);
    MovedByOne(p, r, d);
  }

  lemma SpacedCons(l: Limits, t: real, c: Change, rest: seq<Change>)
    requires Spaced(l, t, c) && AllSpaced(l, c.at, rest)
    ensures AllSpaced(l, t, [c] + rest)
  {
    var cs := [c] + rest;
    forall i | 0 <= i < |cs| ensures Spaced(l, PreviousAt(t, cs, i), cs[i]) {
      if i > 0 {
        assert Spaced(l, PreviousAt(c.at, rest, i - 1), rest[i - 1]);
        assert PreviousAt(t, cs, i) == PreviousAt(c.at, rest, i - 1);
      }
    }
  }

  /** Over any run of evaluations, whatever the clock, the load and the mode do, every change
      of level keeps its cooldown from the change before it. */
  lemma {:induction false} CooldownsHold(l: Limits, ps: Profiles, m: Meter, samples: seq<Sample>)
    requires AllOnLadder(ps, m.rungs)
    ensures AllSpaced(l, m.lastChangeAt, Changes(l, ps, m, samples))
    decreases |samples|
  {
    if samples != [] {
      var n := Evaluate(l, ps, m, samples[0]);
      EvaluateStep(l, ps, m, samples[0]);
      CooldownsHold(l, ps, n, samples[1..]);
      var rest := Changes(l, ps, n, samples[1..]);
      if n.rungs != m.rungs {
        SpacedCons(l, m.lastChangeAt, ChangeOf(m, n, samples[0]), rest);
        assert Changes(l, ps, m, samples) == [ChangeOf(m, n, samples[0])] + rest;
      } else {
        assert Changes(l, ps, m, samples) == [] + rest == rest;
      }
    }
  }
}
