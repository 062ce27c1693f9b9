/** apps/central/src/releases.js and the state update of `handlePromoverRelease` in server.js:
    the approved version of the fleet, the evidence it needs, and its bounded history.
    `Date.parse` and the repository pattern are parameters. */
module Releases {
  import opened Optional
  import opened Text

  // A flag is true only when the request says literally `true`.
  datatype Gate = Gate(cleanInstall: bool, verified: bool, at: string)

  datatype Request = Request(commit: string, gate: Option<Gate>, repositoryUrl: string, installerSha256: string,
                             notes: string, actor: string, rollback: bool)

  datatype Release = Release(commit: string, repositoryUrl: Option<string>, installerSha256: Option<string>,
                             notes: Option<string>, gate: Option<Gate>, rollback: bool, promotedAt: int,
                             actor: Option<string>)

  datatype Error = BadCommit | NoGate | NoCleanInstall | NotVerified | NoDate | BadRepository

  datatype Result = Ok(release: Release) | Err(error: Error)

  // The canonical form of a commit and the trimming of a text are parameters too, so that proofs need
  // not look inside them.
  datatype Host = Host(isDate: string -> bool, isRepository: string -> bool, commitOf: string -> Option<string>,
                       trim: string -> string)

  function RealHost(isDate: string -> bool, isRepository: string -> bool): (h: Host)
    ensures h.isDate == isDate && h.isRepository == isRepository && h.trim == Trim
  {
    Host(isDate, isRepository, NormalCommit, Trim)
  }

  const COMMIT_LENGTH := 40
  const HISTORY := 50
  const NOTES := 2000

  predicate IsCommit(s: string) { |s| == COMMIT_LENGTH && forall k :: 0 <= k < |s| ==> IsHex(s[k]) }

  function NormalCommit(text: string): (r: Option<string>)
    ensures r.Some? ==> IsCommit(r.value) && r.value == Lower(Trim(text))
  {
    var t := Lower(Trim(text));
    if IsCommit(t) then Some(t) else None
  }

  function GateError(h: Host, gate: Option<Gate>): Option<Error> {
    if gate.None? then Some(NoGate)
    else if !gate.value.cleanInstall then Some(NoCleanInstall)
    else if !gate.value.verified then Some(NotVerified)
    else if h.trim(gate.value.at) == "" || !h.isDate(h.trim(gate.value.at)) then Some(NoDate)
    else None
  }

  function OrNone(s: string): Option<string> { if s == "" then None else Some(s) }

  predicate WasApproved(history: seq<Release>, commit: string) {
    exists k :: 0 <= k < |history| && history[k].commit == commit
  }

  function RepositoryError(h: Host, url: string): Option<Error> {
    var repository := h.trim(url);
    if repository != "" && !h.isRepository(repository) then Some(BadRepository) else None
  }

  function Validate(h: Host, q: Request, history: seq<Release>, now: int): Result {
    var commit := h.commitOf(q.commit);
    if commit.None? then Err(BadCommit)
    else
      var before := WasApproved(history, commit.value);
      var gateError := if q.rollback && before then None else GateError(h, q.gate);
      if gateError.Some? then Err(gateError.value)
      else if RepositoryError(h, q.repositoryUrl).Some? then Err(BadRepository)
      else Ok(RecordOf(h, q, commit.value, q.rollback && before, now))
  }

  function RecordOf(h: Host, q: Request, commit: string, rollback: bool, now: int): Release {
    Release(commit, OrNone(h.trim(q.repositoryUrl)), OrNone(Lower(h.trim(q.installerSha256))),
            OrNone(Take(h.trim(q.notes), NOTES)), q.gate, rollback, now, OrNone(h.trim(q.actor)))
  }

  // registrarNoHistorico: the same commit twice in a row is one entry, with the newer data.
  function Recorded(history: seq<Release>, r: Release): (s: seq<Release>)
    ensures |s| <= HISTORY
  {
    var all := if history != [] && history[0].commit == r.commit then [r] + history[1..] else [r] + history;
    if |all| <= HISTORY then all else all[..HISTORY]
  }

  datatype State = State(release: Option<Release>, history: seq<Release>)

  function Promoted(h: Host, s: State, q: Request, now: int): State {
    match Validate(h, q, s.history, now)
    case Ok(r) => State(Some(r), Recorded(s.history, r))
    case Err(_) => s
  }

  // The part of the Central's record that a promotion changes.
  class Central {
    var release: Option<Release>
    var history: seq<Release>

    ghost function View(): State
      reads this
    {
      State(release, history)
    }

    constructor ()
      ensures View() == State(None, [])
    {
      release, history := None, [];
    }

    method Promote(h: Host, q: Request, now: int) returns (result: Result)
      modifies this
      ensures result == Validate(h, q, old(history), now)
      ensures View() == Promoted(h, old(View()), q, now)
    {
      result := Validate(h, q, history, now);
      if result.Err? {
        return;
      }
      release := Some(result.release);
      if history != [] && history[0].commit == result.release.commit {
        history := [result.release] + history[1..];
      } else {
        history := [result.release] + history;
      }
      if |history| > HISTORY {
        history := history[..HISTORY];
      }
    }
  }

  // ---------------------------------------------------------------- whole runs

  datatype Event = Event(request: Request, now: int)

  function After(h: Host, run: seq<Event>): State {
    if run == [] then State(None, [])
    else Promoted(h, After(h, run[..|run| - 1]), run[|run| - 1].request, run[|run| - 1].now)
  }

  // The full evidence: a clean installation, a check of the main installation, and when that was.
  ghost predicate Evidence(h: Host, gate: Option<Gate>) {
    && gate.Some? && gate.value.cleanInstall && gate.value.verified
    && h.trim(gate.value.at) != "" && h.isDate(h.trim(gate.value.at))
  }

  // Nothing but the evidence can be missing.
  ghost predicate WellFormed(h: Host, q: Request) {
    h.commitOf(q.commit).Some? && (h.trim(q.repositoryUrl) == "" || h.isRepository(h.trim(q.repositoryUrl)))
  }

  // What the evidence lacks first.
  ghost predicate Lacks(h: Host, gate: Option<Gate>, error: Error) {
    match error
    case NoGate => gate.None?
    case NoCleanInstall => gate.Some? && !gate.value.cleanInstall
    case NotVerified => gate.Some? && gate.value.cleanInstall && !gate.value.verified
    case NoDate => gate.Some? && gate.value.cleanInstall && gate.value.verified && !Evidence(h, gate)
    case _ => false
  }

  lemma GateErrorLacks(h: Host, gate: Option<Gate>)
    ensures GateError(h, gate).None? <==> Evidence(h, gate)
    ensures GateError(h, gate).Some? ==> Lacks(h, gate, GateError(h, gate).value)
  {}

  /** A request is accepted exactly when it names a commit and no bad repository, and either brings the
      full evidence or is a rollback to a commit of the history. */
  lemma AcceptedIff(h: Host, q: Request, history: seq<Release>, now: int)
    ensures Validate(h, q, history, now).Ok? <==>
            && WellFormed(h, q)
            && (Evidence(h, q.gate) || (q.rollback && WasApproved(history, h.commitOf(q.commit).value)))
  {
    GateErrorLacks(h, q.gate);
  }

  /** A refusal names what is missing: the commit, then the first missing part of the evidence, and the
      repository only when there is nothing else to complain about. */
  lemma RefusedFor(h: Host, q: Request, history: seq<Release>, now: int)
    ensures var v, commit := Validate(h, q, history, now), h.commitOf(q.commit);
            v.Err? ==>
              if commit.None? then v.error == BadCommit
              else if q.rollback && WasApproved(history, commit.value) then v.error == BadRepository
              else if Evidence(h, q.gate) then v.error == BadRepository
              else Lacks(h, q.gate, v.error)
  {
    GateErrorLacks(h, q.gate);
  }

  /** What is put on record is what was asked for, and the mark of a rollback stands for an old commit
      that somebody asked to go back to; without that mark the record holds its evidence. */
  lemma RecordIsRequest(h: Host, q: Request, history: seq<Release>, now: int)
    requires Validate(h, q, history, now).Ok?
    ensures var r := Validate(h, q, history, now).release;
            && Some(r.commit) == h.commitOf(q.commit) && r.gate == q.gate && r.promotedAt == now
            && (r.rollback <==> q.rollback && WasApproved(history, r.commit)) && (r.rollback || Evidence(h, r.gate))
  {
    GateErrorLacks(h, q.gate);
  }

  lemma RecordedTexts(h: Host, q: Request, history: seq<Release>, now: int)
    requires Validate(h, q, history, now).Ok?
    ensures var r := Validate(h, q, history, now).release;
            && IsText(r.repositoryUrl, h.trim(q.repositoryUrl))
            && IsText(r.installerSha256, Lower(h.trim(q.installerSha256)))
            && IsText(r.actor, h.trim(q.actor)) && IsText(r.notes, Take(h.trim(q.notes), NOTES))
  {}

  // An empty text is recorded as missing.
  ghost predicate IsText(field: Option<string>, text: string) {
    if text == "" then field == None else field == Some(text)
  }

  // The request is accepted for this commit, with the full evidence.
  ghost predicate Passes(h: Host, e: Event, commit: string) {
    WellFormed(h, e.request) && Evidence(h, e.request.gate) && h.commitOf(e.request.commit) == Some(commit)
  }

  ghost predicate GatePassed(h: Host, run: seq<Event>, commit: string, k: nat) {
    k < |run| && Passes(h, run[k], commit)
  }

  ghost predicate EverPassed(h: Host, run: seq<Event>, commit: string) {
    exists k: nat :: GatePassed(h, run, commit, k)
  }

  predicate Known(s: State, commit: string) {
    (s.release.Some? && s.release.value.commit == commit) || WasApproved(s.history, commit)
  }

  lemma PassedStays(h: Host, run: seq<Event>, e: Event, commit: string)
    ensures EverPassed(h, run, commit) ==> EverPassed(h, run + [e], commit)
  {
    if k: nat :| GatePassed(h, run, commit, k) { PassedAt(h, run, run + [e], commit, k); }
  }

  lemma PassedAt(h: Host, run: seq<Event>, longer: seq<Event>, commit: string, k: nat)
    requires run <= longer
    ensures GatePassed(h, run, commit, k) ==> GatePassed(h, longer, commit, k)
  {
    if k < |run| { assert longer[k] == run[k]; }
  }

  lemma RecordedKnows(history: seq<Release>, r: Release, commit: string)
    ensures WasApproved(Recorded(history, r), commit) ==> commit == r.commit || WasApproved(history, commit)
    ensures Recorded(history, r) != [] && Recorded(history, r)[0] == r
  {
    var s := Recorded(history, r);
    if k :| 0 <= k < |s| && s[k].commit == commit {
      if k > 0 {
        if history != [] && history[0].commit == r.commit {
          assert s[k] == history[k];
        } else {
          assert s[k] == history[k - 1];
        }
      }
    }
  }

  // Whatever is promoted and rolled back, a commit that is current or in the history was accepted
  // with the full evidence at some point of the run.
  lemma {:induction false} EveryCommitPassedTheGate(h: Host, run: seq<Event>, commit: string)
    requires Known(After(h, run), commit)
    ensures EverPassed(h, run, commit)
  {
    if run != [] {
      var before, e := run[..|run| - 1], run[|run| - 1];
      assert run == before + [e];
      if Known(After(h, before), commit) {
        EveryCommitPassedTheGate(h, before, commit);
        PassedStays(h, before, e, commit);
      } else {
        NewCommitPassed(h, After(h, before), e, commit);
        assert GatePassed(h, run, commit, |run| - 1);
      }
    }
  }

  /** Every release on record holds its full evidence, or is marked as a rollback. */
  lemma {:induction false} RecordsHoldEvidence(h: Host, run: seq<Event>)
    ensures var s := After(h, run);
            && (forall r :: r in s.history ==> r.rollback || Evidence(h, r.gate))
            && (s.release.Some? ==> s.release.value in s.history)
  {
    if run != [] {
      var before, e := run[..|run| - 1], run[|run| - 1];
      RecordsHoldEvidence(h, before);
      var v := Validate(h, e.request, After(h, before).history, e.now);
      if v.Ok? {
        RecordIsRequest(h, e.request, After(h, before).history, e.now);
        RecordedFrom(After(h, before).history, v.release);
      }
    }
  }

  lemma RecordedFrom(history: seq<Release>, r: Release)
    ensures r in Recorded(history, r)
    ensures forall x :: x in Recorded(history, r) ==> x == r || x in history
  {
    assert Recorded(history, r)[0] == r;
  }

  lemma NewCommitPassed(h: Host, s: State, e: Event, commit: string)
    ensures Known(Promoted(h, s, e.request, e.now), commit) && !Known(s, commit) ==> Passes(h, e, commit)
  {
    var v := Validate(h, e.request, s.history, e.now);
    AcceptedIff(h, e.request, s.history, e.now);
    if v.Ok? && Known(Promoted(h, s, e.request, e.now), commit) && !Known(s, commit) {
      RecordIsRequest(h, e.request, s.history, e.now);
      NewlyKnown(s, v.release, commit);
    }
  }

  lemma NewlyKnown(s: State, r: Release, commit: string)
    requires Known(State(Some(r), Recorded(s.history, r)), commit) && !Known(s, commit)
    ensures r.commit == commit && !WasApproved(s.history, commit)
  {
    RecordedKnows(s.history, r, commit);
  }

  // ---------------------------------------------------------------- what the history is

  function AcceptedReleases(h: Host, run: seq<Event>): seq<Release> {
    if run == [] then []
    else
      var before, e := run[..|run| - 1], run[|run| - 1];
      var v := Validate(h, e.request, After(h, before).history, e.now);
      (if v.Ok? then [v.release] else []) + AcceptedReleases(h, before)
  }

  // Newest first, the newest of every streak of the same commit.
  function Streaks(newestFirst: seq<Release>): seq<Release>
    decreases |newestFirst|
  {
    if newestFirst == [] then []
    else [newestFirst[0]] + Streaks(SkipSame(newestFirst[1..], newestFirst[0].commit))
  }

  function SkipSame(rs: seq<Release>, commit: string): (r: seq<Release>)
    ensures |r| <= |rs|
  {
    if rs != [] && rs[0].commit == commit then SkipSame(rs[1..], commit) else rs
  }

  function First(rs: seq<Release>, n: nat): seq<Release> { if |rs| <= n then rs else rs[..n] }

  lemma StreaksStart(rs: seq<Release>, r: Release)
    ensures Streaks([r] + rs) ==
            [r] + if rs != [] && rs[0].commit == r.commit then Streaks(rs)[1..] else Streaks(rs)
  {
    assert ([r] + rs)[1..] == rs;
    if rs != [] {
      var rest := rs[1..];
      assert Streaks(rs)[1..] == Streaks(SkipSame(rest, rs[0].commit));
    }
  }

  // The history is the newest fifty streaks of accepted releases, and starts with the current one.
  lemma {:induction false} HistoryIsExact(h: Host, run: seq<Event>)
    ensures var s, all := After(h, run), AcceptedReleases(h, run);
            && s.history == First(Streaks(all), HISTORY)
            && s.release == (if all == [] then None else Some(all[0]))
  {
    if run != [] {
      var before, e := run[..|run| - 1], run[|run| - 1];
      HistoryIsExact(h, before);
      var s, all := After(h, before), AcceptedReleases(h, before);
      var v := Validate(h, e.request, s.history, e.now);
      if v.Ok? {
        StreaksStart(all, v.release);
        Truncates(Streaks(all), v.release, all);
      } else {
        assert [] + all == all;
      }
    }
  }

  lemma Truncates(streaks: seq<Release>, r: Release, all: seq<Release>)
    requires streaks == Streaks(all)
    ensures Recorded(First(streaks, HISTORY), r) ==
            First([r] + if all != [] && all[0].commit == r.commit then streaks[1..] else streaks, HISTORY)
  {
    assert all == [] <==> streaks == [];
    assert all != [] ==> streaks[0] == all[0];
  }

  // Without evidence a request is accepted exactly as a rollback to one of those fifty.
  lemma UngatedIff(h: Host, run: seq<Event>, q: Request, now: int)
    requires !Evidence(h, q.gate)
    ensures var commit := h.commitOf(q.commit);
            Validate(h, q, After(h, run).history, now).Ok? <==>
            && WellFormed(h, q) && q.rollback
            && WasApproved(First(Streaks(AcceptedReleases(h, run)), HISTORY), commit.value)
  {
    HistoryIsExact(h, run);
  }

  // ---------------------------------------------------------------- the fleet

  datatype Situation = UpToDate | Behind | Unknown | NoRelease

  function SituationOf(version: string, release: Option<Release>): Situation {
    var current := NormalCommit(version);
    var approved := if release.Some? then NormalCommit(release.value.commit) else None;
    if approved.None? then NoRelease
    else if current.None? then Unknown
    else if current == approved then UpToDate
    else Behind
  }

  /** Without an approved commit nothing can be said, and not about an installation whose version is no
      commit either; any other is up to date exactly when both commits are the same. */
  lemma SituationIff(version: string, release: Option<Release>)
    ensures var s, current := SituationOf(version, release), Lower(Trim(version));
            if release == None || !IsCommit(Lower(Trim(release.value.commit))) then s == NoRelease
            else if !IsCommit(current) then s == Unknown
            else s == if current == Lower(Trim(release.value.commit)) then UpToDate else Behind
  {}

  // How many installations of each situation.
  function CountOf(situations: seq<Situation>, s: Situation): nat {
    if situations == [] then 0
    else CountOf(situations[..|situations| - 1], s) + (if situations[|situations| - 1] == s then 1 else 0)
  }

  function Situations(versions: seq<string>, release: Option<Release>): (r: seq<Situation>)
    ensures |r| == |versions| && forall k :: 0 <= k < |r| ==> r[k] == SituationOf(versions[k], release)
  {
    seq(|versions|, k requires 0 <= k < |versions| => SituationOf(versions[k], release))
  }

  ghost function Those(all: seq<Situation>, s: Situation): set<nat> { set k: nat | k < |all| && all[k] == s }

  lemma {:induction false} CountIsSize(all: seq<Situation>, s: Situation)
    ensures CountOf(all, s) == |Those(all, s)|
  {
    if all == [] {
      assert Those(all, s) == {};
    } else {
      CountIsSize(all[..|all| - 1], s);
      ThoseSnoc(all[..|all| - 1], all[|all| - 1], s);
      assert all == all[..|all| - 1] + [all[|all| - 1]];
    }
  }

  lemma ThoseSnoc(before: seq<Situation>, last: Situation, s: Situation)
    ensures |Those(before + [last], s)| == |Those(before, s)| + if last == s then 1 else 0
  {
    var all, n: nat := before + [last], |before|;
    assert all[n] == last && forall k: nat :: k < n ==> all[k] == before[k];
    var here: set<nat> := if last == s then {n} else {};
    forall k: nat ensures k in Those(all, s) <==> k in Those(before, s) || k in here {}
    assert Those(all, s) == Those(before, s) + here;
  }

  // The counters are exact, and every installation is counted once.
  method FleetSummary(versions: seq<string>, release: Option<Release>)
    returns (total: nat, upToDate: nat, behind: nat, unknown: nat, noRelease: nat)
    ensures total == |versions| == upToDate + behind + unknown + noRelease
    ensures var all := Situations(versions, release);
            && upToDate == |Those(all, UpToDate)| && behind == |Those(all, Behind)|
            && unknown == |Those(all, Unknown)| && noRelease == |Those(all, NoRelease)|
  {
    total, upToDate, behind, unknown, noRelease := Tally(Situations(versions, release));
    forall s: Situation { CountIsSize(Situations(versions, release), s); }
  }

  method Tally(all: seq<Situation>) returns (total: nat, upToDate: nat, behind: nat, unknown: nat, noRelease: nat)
    ensures total == |all| == upToDate + behind + unknown + noRelease
    ensures upToDate == CountOf(all, UpToDate) && behind == CountOf(all, Behind)
    ensures unknown == CountOf(all, Unknown) && noRelease == CountOf(all, NoRelease)
  {
    total, upToDate, behind, unknown, noRelease := 0, 0, 0, 0, 0;
    for k := 0 to |all|
      invariant total == k == upToDate + behind + unknown + noRelease
      invariant upToDate == CountOf(all[..k], UpToDate) && behind == CountOf(all[..k], Behind)
      invariant unknown == CountOf(all[..k], Unknown) && noRelease == CountOf(all[..k], NoRelease)
    {
      assert all[..k + 1][..k] == all[..k];
      total := total + 1;
      match all[k]
      case UpToDate => upToDate := upToDate + 1;
      case Behind => behind := behind + 1;
      case Unknown => unknown := unknown + 1;
      case NoRelease => noRelease := noRelease + 1;
    }
    assert all[..|all|] == all;
  }
}
