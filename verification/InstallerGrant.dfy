/** The installer grant of an installation: `configuredInstallerArtifact`, `issueInstallerGrant`
    and `consumeInstallerDownload` of apps/central/src/installer-security.js, and
    `refreshInstallerGrant` and the download route of server.js. */
module InstallerGrant {
  import opened Optional
  import opened Text
  import opened Releases

  datatype Artifact = Artifact(id: string, url: string, repositoryUrl: string, sha256: string)

  // `fill` is the URL template filled with a commit and checked; `check` is checkedUrl; None is
  // the configuration error.  `digest` is the SHA-256 of a token.  `commitOf` and `shaOf` read a
  // commit, as NormalCommit does, and a checksum of 64 hexadecimal digits.
  datatype Env = Env(commit: string, sha256: string, fill: string -> Option<string>, check: string -> Option<string>,
                     repositoryUrl: string, digest: string -> string, ttl: Option<real>, maxDownloads: Option<real>,
                     commitOf: string -> Option<string>, shaOf: string -> Option<string>)

  // Reading a commit in canonical form yields that commit.
  ghost predicate KeepsCommits(commitOf: string -> Option<string>) {
    forall s :: IsCommit(s) ==> commitOf(s) == Some(s)
  }

  datatype Item = Item(artifact: Option<Artifact>, tokenHash: Option<string>, expiresAt: int, remaining: int)

  const DAY_SECONDS := 24 * 60 * 60
  const DEFAULT_TTL_SECONDS := 15 * 60
  const DEFAULT_MAX_DOWNLOADS := 3

  function Clamp(low: int, high: int, x: int): (r: int)
    requires low <= high
    ensures low <= r <= high && (low <= x <= high ==> r == x)
  {
    if x < low then low else if x > high then high else x
  }

  function TtlSeconds(env: Env): (seconds: int)
    ensures 60 <= seconds <= 86_400
  {
    if env.ttl.Some? then Clamp(60, DAY_SECONDS, env.ttl.value.Floor) else DEFAULT_TTL_SECONDS
  }

  function TtlMs(env: Env): (ms: int)
    ensures 60_000 <= ms <= 86_400_000
  {
    1000 * TtlSeconds(env)
  }

  function MaxDownloads(env: Env): (n: int)
    ensures 1 <= n <= 10
  {
    if env.maxDownloads.Some? then Clamp(1, 10, env.maxDownloads.value.Floor) else DEFAULT_MAX_DOWNLOADS
  }

  // The promoted release decides; the environment only seeds the first installation.
  function Configured(env: Env, release: Option<Release>): Option<Artifact> {
    var fromRelease := release.Some? && release.value.commit != "";
    var shaFromRelease := release.Some? && release.value.installerSha256.Some?;
    var commit := env.commitOf(if fromRelease then release.value.commit else env.commit);
    var sha := env.shaOf(if shaFromRelease then release.value.installerSha256.value else env.sha256);
    if commit.None? || sha.None? then None
    else
      var url, repository := env.fill(commit.value), env.check(env.repositoryUrl);
      if url.None? || repository.None? then None
      else Some(Artifact(commit.value, url.value, repository.value, sha.value))
  }

  // normalizedExecutionArtifact, for the artifacts whose id is their commit.
  function Normalized(env: Env, a: Artifact): Option<Artifact> {
    var id, sha := env.commitOf(a.id), env.shaOf(a.sha256);
    var url, repository := env.check(a.url), env.check(a.repositoryUrl);
    if id.None? || url.None? || sha.None? || repository.None? then None
    else Some(Artifact(id.value, url.value, repository.value, sha.value))
  }

  predicate Active(item: Item, now: int) { item.tokenHash.Some? && item.remaining >= 1 && item.expiresAt > now }

  // The check of an artifact is a parameter so that proofs need not look inside it.
  type Normalizer = Artifact -> Option<Artifact>

  function Checks(env: Env): Normalizer { (a: Artifact) => Normalized(env, a) }

  // What a grant does with the artifact, or None when it is refused.
  function Bound(normalize: Normalizer, item: Item, artifact: Option<Artifact>, rotate: bool): Option<Artifact> {
    if !rotate && item.artifact.Some? then
      if normalize(item.artifact.value).Some? then item.artifact else None
    else if artifact.None? then None
    else normalize(artifact.value)
  }

  function Tokened(env: Env, item: Item, token: string, now: int): Item {
    item.(tokenHash := Some(env.digest(token)), expiresAt := now + TtlMs(env), remaining := MaxDownloads(env))
  }

  datatype Options = Options(forceArtifact: bool, forceToken: bool, issueToken: bool)

  predicate Outdated(item: Item, release: Option<Release>) {
    release.Some? && release.value.commit != "" && item.artifact.Some? && item.artifact.value.id != release.value.commit
  }

  predicate Rebinds(item: Item, o: Options, release: Option<Release>) {
    o.forceArtifact || item.artifact.None? || Outdated(item, release)
  }

  predicate Reissues(item: Item, o: Options, release: Option<Release>, now: int) {
    o.issueToken && (o.forceToken || Rebinds(item, o, release) || !Active(item, now))
  }

  // The artifact that a refresh leaves bound.
  type Binder = (Item, Options, Option<Release>) -> Option<Artifact>

  function Binding(env: Env): Binder {
    (item: Item, o: Options, release: Option<Release>) =>
      Bound(Checks(env), item, Configured(env, release), Rebinds(item, o, release))
  }

  // The installation after a refresh that succeeds; None leaves it as it was.
  function Refreshed(bind: Binder, env: Env, item: Item, o: Options, now: int, release: Option<Release>, token: string)
    : Option<Item>
  {
    var artifact := bind(item, o, release);
    if artifact.None? then None
    else
      var next := item.(artifact := artifact);
      Some(if Reissues(item, o, release, now) then Tokened(env, next, token, now) else next)
  }

  predicate Serves(env: Env, item: Item, token: string, now: int, builds: bool) {
    Active(item, now) && item.tokenHash.value == env.digest(token) && builds
  }

  // Without rebinding it does not matter which artifact is offered.
  lemma CandidateBinds(normalize: Normalizer, item: Item, configured: Option<Artifact>, rotate: bool)
    requires item.artifact.None? ==> rotate
    ensures var candidate := if rotate then configured else item.artifact;
            && Bound(normalize, item, candidate, rotate) == Bound(normalize, item, configured, rotate)
            && (candidate.None? ==> Bound(normalize, item, configured, rotate).None?)
  {}

  // ---------------------------------------------------------------- the object

  class Installation {
    var artifact: Option<Artifact>
    var tokenHash: Option<string>
    var expiresAt: int
    var remaining: int

    ghost function View(): Item
      reads this
    {
      Item(artifact, tokenHash, expiresAt, remaining)
    }

    constructor ()
      ensures View() == Item(None, None, 0, 0)
    {
      artifact, tokenHash, expiresAt, remaining := None, None, 0, 0;
    }

    predicate IsActive(now: int)
      reads this
      ensures IsActive(now) == Active(View(), now)
    {
      tokenHash.Some? && remaining >= 1 && expiresAt > now
    }

    method IssueGrant(env: Env, normalize: Normalizer, candidate: Option<Artifact>, now: int, token: string,
                      rotateArtifact: bool, rotateToken: bool, createToken: bool)
      returns (ok: bool, issued: Option<string>)
      modifies this
      ensures var bound := Bound(normalize, old(View()), candidate, rotateArtifact);
              && ok == bound.Some?
              && (!ok ==> View() == old(View()) && issued == None)
              && (ok ==>
                    var next := old(View()).(artifact := bound);
                    var issues := createToken && (rotateToken || !Active(old(View()), now));
                    && View() == (if issues then Tokened(env, next, token, now) else next)
                    && issued == (if issues then Some(token) else None))
    {
      if rotateArtifact || artifact.None? {
        if candidate.None? { return false, None; }
        var normalized := normalize(candidate.value);
        if normalized.None? { return false, None; }
        artifact := normalized;
      } else {
        var checked := normalize(artifact.value);
        if checked.None? { return false, None; }
      }
      ok, issued := true, None;
      if createToken && (rotateToken || !IsActive(now)) {
        issued := Some(token);
        tokenHash := Some(env.digest(token));
        expiresAt := now + TtlMs(env);
        remaining := MaxDownloads(env);
      }
    }

    method RefreshGrant(env: Env, o: Options, now: int, release: Option<Release>, token: string)
      returns (ok: bool, issued: Option<string>)
      modifies this
      ensures var next := Refreshed(Binding(env), env, old(View()), o, now, release, token);
              && ok == next.Some?
              && View() == (if ok then next.value else old(View()))
              && issued == (if ok && Reissues(old(View()), o, release, now) then Some(token) else None)
    {
      var promoted := release.Some? && release.value.commit != "";
      var outdated := promoted && artifact.Some? && artifact.value.id != release.value.commit;
      var bind := o.forceArtifact || artifact.None? || outdated;
      ghost var was := View();
      assert bind == Rebinds(was, o, release);
      var configured := Configured(env, release);
      var candidate := if bind then configured else artifact;
      CandidateBinds(Checks(env), was, configured, bind);
      if candidate.None? { return false, None; }
      ok, issued := IssueGrant(env, Checks(env), candidate, now, token, bind,
                               o.issueToken && (o.forceToken || bind || !IsActive(now)), o.issueToken);
    }

    method Download(env: Env, token: string, now: int, builds: bool) returns (served: Option<Artifact>)
      modifies this
      ensures served == if Serves(env, old(View()), token, now, builds) then old(artifact) else None
      ensures View() == if served.Some? then old(View()).(remaining := old(remaining) - 1) else old(View())
    {
      if !IsActive(now) || tokenHash.value != env.digest(token) { return None; }
      if artifact.None? || !builds { return None; }
      served := artifact;
      remaining := remaining - 1;
    }
  }

  // ---------------------------------------------------------------- what is bound

  lemma LowerHexStays(s: string)
    requires IsCommit(s)
    ensures NormalCommit(s) == Some(s)
  {
    assert forall k :: 0 <= k < |s| ==> LowerChar(s[k]) == s[k];
    assert Lower(s) == s;
    assert Trimmed(s);
  }

  lemma NormalCommitKeeps()
    ensures KeepsCommits(NormalCommit)
  {
    forall s | IsCommit(s) ensures NormalCommit(s) == Some(s) { LowerHexStays(s); }
  }

  // After a refresh with a release in canonical form, the installation is bound to its commit.
  lemma RefreshBindsRelease(env: Env, item: Item, o: Options, now: int, r: Release, token: string)
    requires KeepsCommits(env.commitOf) && IsCommit(r.commit)
    ensures var next := Refreshed(Binding(env), env, item, o, now, Some(r), token);
            next.Some? ==> next.value.artifact.Some? && next.value.artifact.value.id == r.commit
  {
    BoundIsRelease(env, item, o, r);
    RefreshKeepsBound(Binding(env), env, item, o, now, Some(r), token);
  }

  lemma RefreshKeepsBound(bind: Binder, env: Env, item: Item, o: Options, now: int, release: Option<Release>,
                          token: string)
    ensures var next := Refreshed(bind, env, item, o, now, release, token);
            && (next.Some? <==> bind(item, o, release).Some?)
            && (next.Some? ==> next.value.artifact == bind(item, o, release))
  {}

  lemma BoundIsRelease(env: Env, item: Item, o: Options, r: Release)
    requires KeepsCommits(env.commitOf) && IsCommit(r.commit)
    ensures var b := Binding(env)(item, o, Some(r)); b.Some? ==> b.value.id == r.commit
  {
    var candidate := Configured(env, Some(r));
    ConfiguredId(env, r);
    if candidate.Some? { NormalizedId(env, candidate.value); }
    BoundId(Checks(env), item, candidate, Rebinds(item, o, Some(r)), r.commit);
  }

  lemma ConfiguredId(env: Env, r: Release)
    requires env.commitOf(r.commit) == Some(r.commit) && r.commit != ""
    ensures Configured(env, Some(r)).Some? ==> Configured(env, Some(r)).value.id == r.commit
  {}

  lemma NormalizedId(env: Env, a: Artifact)
    requires env.commitOf(a.id) == Some(a.id)
    ensures Checks(env)(a).Some? ==> Checks(env)(a).value.id == a.id
  {}

  lemma BoundId(normalize: Normalizer, item: Item, candidate: Option<Artifact>, rotate: bool, id: string)
    requires candidate.Some? && normalize(candidate.value).Some? ==> normalize(candidate.value).value.id == id
    requires item.artifact.Some? && !rotate ==> item.artifact.value.id == id
    ensures var b := Bound(normalize, item, candidate, rotate); b.Some? ==> b.value.id == id
  {}

  ghost predicate Canonical(h: Host) { forall s :: h.commitOf(s).Some? ==> IsCommit(h.commitOf(s).value) }

  lemma CommitsAreCanonical(isDate: string -> bool, isRepository: string -> bool)
    ensures Canonical(RealHost(isDate, isRepository))
  {
    forall s | NormalCommit(s).Some? ensures IsCommit(NormalCommit(s).value) {}
  }

  lemma {:induction false} CurrentIsCommit(h: Host, run: seq<Event>)
    requires Canonical(h)
    ensures After(h, run).release.Some? ==> IsCommit(After(h, run).release.value.commit)
  {
    if run != [] {
      var before, e := run[..|run| - 1], run[|run| - 1];
      CurrentIsCommit(h, before);
      if Validate(h, e.request, After(h, before).history, e.now).Ok? {
        RecordIsRequest(h, e.request, After(h, before).history, e.now);
      }
    }
  }

  // ---------------------------------------------------------------- what a refresh does

  // Read again, artifact a is b.
  ghost predicate ReadsAs(env: Env, a: Artifact, b: Artifact) {
    && env.commitOf(a.id) == Some(b.id) && env.check(a.url) == Some(b.url)
    && env.check(a.repositoryUrl) == Some(b.repositoryUrl) && env.shaOf(a.sha256) == Some(b.sha256)
  }

  // What is offered: commit and checksum of the release, and of the environment where the release has none.
  ghost predicate Offered(env: Env, release: Option<Release>, a: Artifact) {
    var commit := if release.Some? && release.value.commit != "" then release.value.commit else env.commit;
    var sha := if release.Some? && release.value.installerSha256.Some? then release.value.installerSha256.value
               else env.sha256;
    && env.commitOf(commit) == Some(a.id) && env.shaOf(sha) == Some(a.sha256)
    && env.fill(a.id) == Some(a.url) && env.check(env.repositoryUrl) == Some(a.repositoryUrl)
  }

  ghost predicate MustRebind(item: Item, o: Options, release: Option<Release>) {
    || o.forceArtifact || item.artifact == None
    || (release.Some? && release.value.commit != "" && item.artifact.value.id != release.value.commit)
  }

  /** A refresh binds what is offered when it is asked to, when nothing is bound, or when the release has moved
      on, and fails exactly when that cannot be read.  Otherwise it leaves what is bound, and fails exactly
      when that cannot be read any more. */
  lemma RefreshBindsIff(env: Env, item: Item, o: Options, now: int, release: Option<Release>, token: string)
    ensures var next := Refreshed(Binding(env), env, item, o, now, release, token);
            if MustRebind(item, o, release) then
              && (next.Some? <==> exists a, b :: Offered(env, release, a) && ReadsAs(env, a, b))
              && (forall a, b :: Offered(env, release, a) && ReadsAs(env, a, b) ==>
                    next.Some? && next.value.artifact == Some(b))
            else
              && (next.Some? <==> exists b :: ReadsAs(env, item.artifact.value, b))
              && (next.Some? ==> next.value.artifact == item.artifact)
  {
    RefreshKeepsBound(Binding(env), env, item, o, now, release, token);
    if MustRebind(item, o, release) {
      OfferedIff(env, release);
      var a := Configured(env, release);
      if a.Some? { NormalizedIff(env, a.value); }
    } else {
      NormalizedIff(env, item.artifact.value);
    }
  }

  lemma OfferedIff(env: Env, release: Option<Release>)
    ensures forall a :: Offered(env, release, a) <==> Configured(env, release) == Some(a)
  {}

  lemma NormalizedIff(env: Env, a: Artifact)
    ensures forall b :: ReadsAs(env, a, b) <==> Normalized(env, a) == Some(b)
  {}

  // The whole number asked for, or the nearest one allowed; `absent` when none is asked for.
  ghost predicate IsAsked(n: int, asked: Option<real>, absent: int, least: int, most: int) {
    n == if asked == None then absent
         else if asked.value.Floor < least then least else if asked.value.Floor > most then most else asked.value.Floor
  }

  /** A refresh that succeeds issues the new token exactly when tokens are wanted and it rebinds, is forced to, or
      the old token is of no use any more.  The token lives for the seconds configured, between a minute and a
      day, a quarter of an hour by default, and serves the downloads configured, one to ten, three by default. */
  lemma RefreshIssuesIff(env: Env, item: Item, o: Options, now: int, release: Option<Release>, token: string)
    requires Refreshed(Binding(env), env, item, o, now, release, token).Some?
    ensures var next := Refreshed(Binding(env), env, item, o, now, release, token).value;
            if o.issueToken && (o.forceToken || MustRebind(item, o, release)
                                || item.tokenHash == None || item.remaining < 1 || item.expiresAt <= now)
            then
              && next.tokenHash == Some(env.digest(token))
              && IsAsked(next.remaining, env.maxDownloads, 3, 1, 10)
              && exists seconds :: next.expiresAt == now + 1000 * seconds && IsAsked(seconds, env.ttl, 900, 60, 86400)
            else
              next.tokenHash == item.tokenHash && next.expiresAt == item.expiresAt && next.remaining == item.remaining
  {
    var next := Refreshed(Binding(env), env, item, o, now, release, token).value;
    var seconds := TtlSeconds(env);
    assert IsAsked(seconds, env.ttl, 900, 60, 86400);
    if Reissues(item, o, release, now) { assert next.expiresAt == now + 1000 * seconds; }
  }

  // ---------------------------------------------------------------- promotions and refreshes interleaved

  // Downloads are left out: they change no artifact.
  datatype Act = Promote(event: Event) | Renew(id: string, o: Options, now: int, token: string)

  datatype Fleet = Fleet(state: State, items: map<string, Item>)

  datatype Shop = Shop(h: Host, env: Env, bind: Binder)

  // A new installation has nothing bound and no token.
  function ItemOf(f: Fleet, id: string): (r: Item)
    ensures if id in f.items then r == f.items[id] else r.artifact == None && r.tokenHash == None && r.remaining == 0
  {
    if id in f.items then f.items[id] else Item(None, None, 0, 0)
  }

  function Renewed(w: Shop, f: Fleet, a: Act): Option<Item>
    requires a.Renew?
  {
    Refreshed(w.bind, w.env, ItemOf(f, a.id), a.o, a.now, f.state.release, a.token)
  }

  function Do(w: Shop, f: Fleet, a: Act): Fleet {
    match a
    case Promote(e) => f.(state := Promoted(w.h, f.state, e.request, e.now))
    case Renew(id, _, _, _) =>
      var next := Renewed(w, f, a);
      if next.Some? then f.(items := f.items[id := next.value]) else f
  }

  function FleetAfter(w: Shop, acts: seq<Act>): Fleet {
    if acts == [] then Fleet(State(None, []), map[]) else Do(w, FleetAfter(w, acts[..|acts| - 1]), acts[|acts| - 1])
  }

  function Promotions(acts: seq<Act>): seq<Event> {
    if acts == [] then []
    else
      var before, a := Promotions(acts[..|acts| - 1]), acts[|acts| - 1];
      if a.Promote? then before + [a.event] else before
  }

  // The last refresh of an installation that succeeded.
  function LastRenewal(w: Shop, acts: seq<Act>, id: string): (k: Option<nat>)
    ensures k.Some? ==> k.value < |acts|
  {
    if acts == [] then None
    else
      var n := |acts| - 1;
      if acts[n].Renew? && acts[n].id == id && Renewed(w, FleetAfter(w, acts[..n]), acts[n]).Some? then Some(n)
      else LastRenewal(w, acts[..n], id)
  }

  // What is approved for installation: the promoted release, or before any the commit of the environment.
  function Approved(env: Env, release: Option<Release>): Option<string> {
    if release.Some? then Some(release.value.commit) else env.commitOf(env.commit)
  }

  // A refresh binds what is approved; only before any release it may keep what is bound.
  ghost predicate Binds(bind: Binder, env: Env) {
    && (forall item, o, r: Release :: IsCommit(r.commit) && bind(item, o, Some(r)).Some? ==>
           bind(item, o, Some(r)).value.id == r.commit)
    && (forall item, o :: bind(item, o, None).Some? ==>
          Some(bind(item, o, None).value.id) == env.commitOf(env.commit) || bind(item, o, None) == item.artifact)
  }

  ghost predicate YieldsCommits(commitOf: string -> Option<string>) {
    KeepsCommits(commitOf) && forall s :: commitOf(s).Some? ==> IsCommit(commitOf(s).value)
  }

  lemma SeedId(env: Env)
    requires YieldsCommits(env.commitOf) && Configured(env, None).Some?
    ensures Some(Configured(env, None).value.id) == env.commitOf(env.commit)
    ensures env.commitOf(Configured(env, None).value.id) == env.commitOf(env.commit)
  {}

  lemma BindingBindsSeed(env: Env, item: Item, o: Options)
    requires YieldsCommits(env.commitOf)
    ensures var b := Binding(env)(item, o, None);
            b.Some? ==> Some(b.value.id) == env.commitOf(env.commit) || b == item.artifact
  {
    var configured := Configured(env, None);
    if configured.Some? {
      SeedId(env);
      NormalizedId(env, configured.value);
    }
    BoundIsOneOf(Checks(env), item, configured, Rebinds(item, o, None));
  }

  lemma BoundIsOneOf(normalize: Normalizer, item: Item, candidate: Option<Artifact>, rotate: bool)
    ensures var b := Bound(normalize, item, candidate, rotate);
            b.Some? ==> b == item.artifact || (candidate.Some? && b == normalize(candidate.value))
  {}

  lemma BindingBinds(env: Env)
    requires YieldsCommits(env.commitOf)
    ensures Binds(Binding(env), env)
  {
    var bind := Binding(env);
    forall item, o, r: Release | IsCommit(r.commit) && bind(item, o, Some(r)).Some?
      ensures bind(item, o, Some(r)).value.id == r.commit
    {
      BoundIsRelease(env, item, o, r);
    }
    forall item, o | bind(item, o, None).Some?
      ensures Some(bind(item, o, None).value.id) == env.commitOf(env.commit) || bind(item, o, None) == item.artifact
    {
      BindingBindsSeed(env, item, o);
    }
  }

  lemma AfterOneMore(h: Host, run: seq<Event>, e: Event)
    ensures After(h, run + [e]) == Promoted(h, After(h, run), e.request, e.now)
  {
    assert (run + [e])[..|run|] == run;
  }

  lemma {:induction false} StateFollowsPromotions(w: Shop, acts: seq<Act>)
    ensures FleetAfter(w, acts).state == After(w.h, Promotions(acts))
  {
    if acts != [] {
      var before, a := acts[..|acts| - 1], acts[|acts| - 1];
      StateFollowsPromotions(w, before);
      if a.Promote? { AfterOneMore(w.h, Promotions(before), a.event); }
    }
  }

  lemma {:induction false} NoReleaseBefore(w: Shop, acts: seq<Act>, k: nat)
    requires k <= |acts| && FleetAfter(w, acts).state.release.None?
    ensures FleetAfter(w, acts[..k]).state.release.None?
  {
    if k == |acts| {
      assert acts[..k] == acts;
    } else {
      NoReleaseBefore(w, acts[..|acts| - 1], k);
      assert acts[..|acts| - 1][..k] == acts[..k];
    }
  }

  ghost predicate BoundTo(f: Fleet, id: string, commit: Option<string>) {
    id in f.items && f.items[id].artifact.Some? && Some(f.items[id].artifact.value.id) == commit
  }

  lemma RenewBinds(w: Shop, f: Fleet, a: Act)
    requires Binds(w.bind, w.env) && a.Renew? && Renewed(w, f, a).Some?
    requires f.state.release.Some? ==> IsCommit(f.state.release.value.commit)
    requires f.state.release.None? && a.id in f.items ==> BoundTo(f, a.id, w.env.commitOf(w.env.commit))
    ensures BoundTo(Do(w, f, a), a.id, Approved(w.env, f.state.release))
  {
    RefreshKeepsBound(w.bind, w.env, ItemOf(f, a.id), a.o, a.now, f.state.release, a.token);
  }

  /** However promotions, rollbacks and refreshes interleave: an installation is bound to something
      exactly when some refresh of it succeeded, and then to what was approved at the last of them. */
  lemma {:induction false} BoundToLastApproved(w: Shop, acts: seq<Act>, id: string)
    requires Canonical(w.h) && Binds(w.bind, w.env)
    ensures var f, k := FleetAfter(w, acts), LastRenewal(w, acts, id);
            && (id in f.items <==> k.Some?)
            && (k.Some? ==> BoundTo(f, id, Approved(w.env, FleetAfter(w, acts[..k.value]).state.release)))
  {
    if acts != [] {
      var n := |acts| - 1;
      var before, a := acts[..n], acts[n];
      var f, k := FleetAfter(w, before), LastRenewal(w, before, id);
      BoundToLastApproved(w, before, id);
      if k.Some? { assert before[..k.value] == acts[..k.value]; }
      if a.Renew? && a.id == id && Renewed(w, f, a).Some? {
        StateFollowsPromotions(w, before);
        CurrentIsCommit(w.h, Promotions(before));
        if f.state.release.None? && k.Some? { NoReleaseBefore(w, before, k.value); }
        RenewBinds(w, f, a);
      }
    }
  }

  /** So what any installation is bound to, at any time, passed the gate before its last successful
      refresh, unless no release existed at that refresh: then it is the commit of the environment. */
  lemma EveryBoundCommitPassed(w: Shop, acts: seq<Act>, id: string)
    requires Canonical(w.h) && Binds(w.bind, w.env) && id in FleetAfter(w, acts).items
    ensures var f, k := FleetAfter(w, acts), LastRenewal(w, acts, id);
            && k.Some? && f.items[id].artifact.Some?
            && var commit := f.items[id].artifact.value.id;
               if FleetAfter(w, acts[..k.value]).state.release.Some?
               then EverPassed(w.h, Promotions(acts[..k.value]), commit)
               else w.env.commitOf(w.env.commit) == Some(commit)
  {
    BoundToLastApproved(w, acts, id);
    var past := acts[..LastRenewal(w, acts, id).value];
    StateFollowsPromotions(w, past);
    var release := FleetAfter(w, past).state.release;
    if release.Some? { EveryCommitPassedTheGate(w.h, Promotions(past), release.value.commit); }
  }

  // The shop of the source: commits are read by NormalCommit, and a refresh binds as `Binding` says.
  function CentralShop(isDate: string -> bool, isRepository: string -> bool, settings: Env): Shop {
    var env := settings.(commitOf := NormalCommit);
    Shop(RealHost(isDate, isRepository), env, Binding(env))
  }

  lemma CentralMeetsConditions(isDate: string -> bool, isRepository: string -> bool, settings: Env)
    ensures var w := CentralShop(isDate, isRepository, settings); Canonical(w.h) && Binds(w.bind, w.env)
  {
    CommitsAreCanonical(isDate, isRepository);
    NormalCommitKeeps();
    BindingBinds(settings.(commitOf := NormalCommit));
  }

  /** For the source's own shop, with nothing left to assume: however promotions, rollbacks and refreshes
      interleave, an installation is bound exactly when a refresh of it succeeded, to what was approved at
      the last of them, and that commit passed the gate unless no release existed yet. */
  lemma CentralInstallsWhatPassed(isDate: string -> bool, isRepository: string -> bool, settings: Env,
                                  acts: seq<Act>, id: string)
    ensures var w := CentralShop(isDate, isRepository, settings);
            var f, k := FleetAfter(w, acts), LastRenewal(w, acts, id);
            && (id in f.items <==> k.Some?)
            && (k.Some? ==>
                  var past := acts[..k.value];
                  var release := FleetAfter(w, past).state.release;
                  && BoundTo(f, id, Approved(w.env, release))
                  && (release.Some? ==>
                        EverPassed(RealHost(isDate, isRepository), Promotions(past), release.value.commit)))
  {
    var w := CentralShop(isDate, isRepository, settings);
    CentralMeetsConditions(isDate, isRepository, settings);
    BoundToLastApproved(w, acts, id);
    if id in FleetAfter(w, acts).items { EveryBoundCommitPassed(w, acts, id); }
  }

  // ---------------------------------------------------------------- what a token allows

  datatype Call = Refresh(o: Options, at: int, release: Option<Release>, token: string)
                | Fetch(token: string, at: int, builds: bool)

  datatype Grant = Grant(token: string, max: int, issuedAt: int, expiresAt: int)

  datatype Served = Served(token: string, at: int)

  // The record, every token ever issued, and every download ever served.
  datatype World = World(item: Item, grants: seq<Grant>, served: seq<Served>)

  function Next(bind: Binder, env: Env, w: World, c: Call): World {
    match c
    case Refresh(o, at, release, token) =>
      var next := Refreshed(bind, env, w.item, o, at, release, token);
      if next.None? then w
      else World(next.value,
                 w.grants + (if Reissues(w.item, o, release, at)
                             then [Grant(token, MaxDownloads(env), at, at + TtlMs(env))] else []),
                 w.served)
    case Fetch(token, at, builds) =>
      if w.item.artifact.Some? && Serves(env, w.item, token, at, builds)
      then World(w.item.(remaining := w.item.remaining - 1), w.grants, w.served + [Served(token, at)])
      else w
  }

  function Reached(bind: Binder, env: Env, calls: seq<Call>): World {
    if calls == [] then World(Item(None, None, 0, 0), [], [])
    else Next(bind, env, Reached(bind, env, calls[..|calls| - 1]), calls[|calls| - 1])
  }

  function Uses(served: seq<Served>, token: string): nat {
    if served == [] then 0
    else Uses(served[..|served| - 1], token) + (if served[|served| - 1].token == token then 1 else 0)
  }

  // Random tokens differ, and no two tokens that occur have the same digest.
  ghost predicate FreshTokens(env: Env, calls: seq<Call>) {
    && (forall j, k :: 0 <= j < |calls| && 0 <= k < |calls| ==> Told(env, calls[j].token, calls[k].token))
    && (forall j, k :: 0 <= j < k < |calls| && calls[j].Refresh? && calls[k].Refresh? ==>
           calls[j].token != calls[k].token)
  }

  // Their digests tell the two tokens apart.
  predicate Told(env: Env, a: string, b: string) { env.digest(a) == env.digest(b) ==> a == b }

  predicate NewestTold(env: Env, w: World, token: string) {
    w.grants != [] ==> Told(env, w.grants[|w.grants| - 1].token, token)
  }

  ghost predicate Issued(grants: seq<Grant>, token: string) {
    exists k :: 0 <= k < |grants| && grants[k].token == token
  }

  ghost predicate Inv(env: Env, w: World) {
    && (w.grants == [] ==> w.item.tokenHash.None?)
    && (w.grants != [] ==>
          var g := w.grants[|w.grants| - 1];
          && w.item.tokenHash == Some(env.digest(g.token)) && w.item.expiresAt == g.expiresAt
          && w.item.remaining == g.max - Uses(w.served, g.token) >= 0)
    && (forall k :: 0 <= k < |w.grants| ==> Fair(w.grants[k], w.served))
    && (forall j, k :: 0 <= j < k < |w.grants| ==> w.grants[j].token != w.grants[k].token)
    && (forall k :: 0 <= k < |w.served| ==> Issued(w.grants, w.served[k].token))
  }

  // 1 to 10 downloads, a lifetime of one minute to one day, and every use before the expiry.
  ghost predicate Fair(g: Grant, served: seq<Served>) {
    && 1 <= g.max <= 10 && 60_000 <= g.expiresAt - g.issuedAt <= 86_400_000
    && Uses(served, g.token) <= g.max
    && (forall k :: 0 <= k < |served| && served[k].token == g.token ==> served[k].at < g.expiresAt)
  }

  lemma UsesSnoc(served: seq<Served>, u: Served, token: string)
    ensures Uses(served + [u], token) == Uses(served, token) + (if u.token == token then 1 else 0)
  {
    assert (served + [u])[..|served|] == served;
  }

  lemma {:induction false} NeverUsed(served: seq<Served>, token: string)
    requires forall k :: 0 <= k < |served| ==> served[k].token != token
    ensures Uses(served, token) == 0
  {
    if served != [] { NeverUsed(served[..|served| - 1], token); }
  }

  lemma RefreshInv(bind: Binder, env: Env, w: World, c: Call)
    requires Inv(env, w) && c.Refresh? && !Issued(w.grants, c.token)
    ensures Inv(env, Next(bind, env, w, c))
  {
    var next := Refreshed(bind, env, w.item, c.o, c.at, c.release, c.token);
    if next.Some? {
      if Reissues(w.item, c.o, c.release, c.at) {
        GrantInv(env, w, next.value, Grant(c.token, MaxDownloads(env), c.at, c.at + TtlMs(env)));
      } else {
        assert Next(bind, env, w, c) == World(next.value, w.grants, w.served);
        SameTokenInv(env, w, next.value);
      }
    }
  }

  lemma SameTokenInv(env: Env, w: World, item: Item)
    requires Inv(env, w)
    requires item.tokenHash == w.item.tokenHash && item.expiresAt == w.item.expiresAt
    requires item.remaining == w.item.remaining
    ensures Inv(env, World(item, w.grants, w.served))
  {}

  lemma GrantInv(env: Env, w: World, item: Item, g: Grant)
    requires Inv(env, w) && !Issued(w.grants, g.token)
    requires item.tokenHash == Some(env.digest(g.token)) && item.expiresAt == g.expiresAt && item.remaining == g.max
    requires 1 <= g.max <= 10 && 60_000 <= g.expiresAt - g.issuedAt <= 86_400_000
    ensures Inv(env, World(item, w.grants + [g], w.served))
  {
    var u := World(item, w.grants + [g], w.served);
    assert forall k :: 0 <= k < |w.grants| ==> u.grants[k] == w.grants[k];
    forall k | 0 <= k < |u.served|
      ensures u.served[k].token != g.token && Issued(u.grants, u.served[k].token)
    {
      assert Issued(w.grants, w.served[k].token);
      var j :| 0 <= j < |w.grants| && w.grants[j].token == w.served[k].token;
      assert u.grants[j] == w.grants[j];
    }
    NeverUsed(w.served, g.token);
  }

  lemma FetchInv(bind: Binder, env: Env, w: World, c: Call)
    requires Inv(env, w) && c.Fetch? && NewestTold(env, w, c.token)
    ensures Inv(env, Next(bind, env, w, c))
  {
    var u := Next(bind, env, w, c);
    if u.served != w.served {
      var last, x := |w.grants| - 1, Served(c.token, c.at);
      assert env.digest(w.grants[last].token) == env.digest(c.token);
      forall k | 0 <= k < |w.grants| ensures Fair(u.grants[k], u.served) {
        UsesSnoc(w.served, x, w.grants[k].token);
      }
    }
  }

  lemma {:induction false} GrantsWereRequested(bind: Binder, env: Env, calls: seq<Call>)
    ensures forall k :: 0 <= k < |Reached(bind, env, calls).grants| ==>
              Requested(calls, Reached(bind, env, calls).grants[k].token)
  {
    if calls != [] {
      var before, c := calls[..|calls| - 1], calls[|calls| - 1];
      GrantsWereRequested(bind, env, before);
      forall token | Requested(before, token) ensures Requested(calls, token) {
        var j :| 0 <= j < |before| && before[j].Refresh? && before[j].token == token;
        assert calls[j] == before[j];
      }
      var w, u := Reached(bind, env, before), Reached(bind, env, calls);
      forall k | 0 <= k < |u.grants| ensures Requested(calls, u.grants[k].token) {
        if k < |w.grants| {
          assert u.grants[k] == w.grants[k];
        } else {
          assert calls[|calls| - 1].token == u.grants[k].token;
        }
      }
    }
  }

  ghost predicate Requested(calls: seq<Call>, token: string) {
    exists j :: 0 <= j < |calls| && calls[j].Refresh? && calls[j].token == token
  }

  lemma FreshBefore(env: Env, before: seq<Call>, c: Call)
    requires FreshTokens(env, before + [c])
    ensures FreshTokens(env, before)
  {
    assert forall k :: 0 <= k < |before| ==> (before + [c])[k] == before[k];
  }

  lemma ReachedOneMore(bind: Binder, env: Env, before: seq<Call>, c: Call)
    ensures Reached(bind, env, before + [c]) == Next(bind, env, Reached(bind, env, before), c)
  {
    assert (before + [c])[..|before|] == before;
  }

  lemma CallInv(bind: Binder, env: Env, before: seq<Call>, c: Call, w: World)
    requires FreshTokens(env, before + [c]) && Inv(env, w)
    requires forall k :: 0 <= k < |w.grants| ==> Requested(before, w.grants[k].token)
    ensures Inv(env, Next(bind, env, w, c))
  {
    if c.Refresh? {
      NotYetIssued(env, before, c, w.grants);
      RefreshInv(bind, env, w, c);
    } else {
      NewestIsTold(env, before, c, w);
      FetchInv(bind, env, w, c);
    }
  }

  lemma {:induction false} ReachedInv(bind: Binder, env: Env, calls: seq<Call>)
    requires FreshTokens(env, calls)
    ensures Inv(env, Reached(bind, env, calls))
  {
    if calls != [] {
      var before, c := calls[..|calls| - 1], calls[|calls| - 1];
      assert calls == before + [c];
      FreshBefore(env, before, c);
      ReachedInv(bind, env, before);
      GrantsWereRequested(bind, env, before);
      CallInv(bind, env, before, c, Reached(bind, env, before));
      ReachedOneMore(bind, env, before, c);
    }
  }

  lemma NewestIsTold(env: Env, before: seq<Call>, c: Call, w: World)
    requires FreshTokens(env, before + [c])
    requires forall k :: 0 <= k < |w.grants| ==> Requested(before, w.grants[k].token)
    ensures NewestTold(env, w, c.token)
  {
    var calls := before + [c];
    if w.grants != [] {
      var token := w.grants[|w.grants| - 1].token;
      assert Requested(before, token);
      var j :| 0 <= j < |before| && before[j].Refresh? && before[j].token == token;
      assert calls[j] == before[j] && calls[|before|] == c;
      assert Told(env, calls[j].token, calls[|before|].token);
    }
  }

  lemma NotYetIssued(env: Env, before: seq<Call>, c: Call, grants: seq<Grant>)
    requires FreshTokens(env, before + [c]) && c.Refresh?
    requires forall k :: 0 <= k < |grants| ==> Requested(before, grants[k].token)
    ensures !Issued(grants, c.token)
  {
    var calls := before + [c];
    forall token | Requested(before, token) ensures token != c.token {
      var j :| 0 <= j < |before| && before[j].Refresh? && before[j].token == token;
      assert calls[j] == before[j] && calls[|before|] == c;
    }
  }

  // Over any sequence of refreshes and downloads, each token ever issued serves at most its one to
  // ten downloads, all of them before it expires.
  lemma TokensAreBounded(bind: Binder, env: Env, calls: seq<Call>, k: nat)
    requires FreshTokens(env, calls) && k < |Reached(bind, env, calls).grants|
    ensures Fair(Reached(bind, env, calls).grants[k], Reached(bind, env, calls).served)
  {
    ReachedInv(bind, env, calls);
  }

  // A download is served exactly when its token is the newest one issued, not expired and not used
  // up; a rotated token serves nothing any more.
  lemma ServedIff(bind: Binder, env: Env, calls: seq<Call>, token: string, at: int, builds: bool)
    requires FreshTokens(env, calls + [Fetch(token, at, builds)])
    ensures var w := Reached(bind, env, calls);
            |Next(bind, env, w, Fetch(token, at, builds)).served| > |w.served| <==>
            && w.item.artifact.Some? && builds && w.grants != []
            && var g := w.grants[|w.grants| - 1]; token == g.token && at < g.expiresAt && Uses(w.served, token) < g.max
  {
    var c := Fetch(token, at, builds);
    var all := calls + [c];
    assert forall k :: 0 <= k < |calls| ==> all[k] == calls[k];
    ReachedInv(bind, env, calls);
    GrantsWereRequested(bind, env, calls);
    NewestIsTold(env, calls, c, Reached(bind, env, calls));
    ServedInvIff(bind, env, Reached(bind, env, calls), token, at, builds);
  }

  lemma ServedInvIff(bind: Binder, env: Env, w: World, token: string, at: int, builds: bool)
    requires Inv(env, w) && NewestTold(env, w, token)
    ensures |Next(bind, env, w, Fetch(token, at, builds)).served| > |w.served| <==>
            && w.item.artifact.Some? && builds && w.grants != []
            && var g := w.grants[|w.grants| - 1]; token == g.token && at < g.expiresAt && Uses(w.served, token) < g.max
  {
    if w.grants != [] {
      var g := w.grants[|w.grants| - 1];
      assert env.digest(g.token) == env.digest(token) <==> g.token == token;
    }
  }
}
