/** What the entries of the alert history say: each is the record of one stretch of heartbeats, and
    what is announced is what the entries hold (apps/central/src/server.js). */
module AlertEntries {
  import opened Optional
  import opened Text
  import opened AlertHistory
  import opened AlertDiff

  // ---------------------------------------------------------------- one list

  // What an alert leaves in an entry, whatever the entry was before.
  ghost predicate Shows(e: Entry, a: Report, now: int) {
    && e.key == a.key && e.status == Active && e.level == a.level && e.message == a.message
    && (a.code != "" ==> e.code == a.code) && e.lastSeenAt == now && e.resolvedAt == None
  }

  // The entry of an alert that had none, and of one that had the entry `was`.
  ghost predicate Started(e: Entry, a: Report, now: int) {
    Shows(e, a, now) && e.firstSeenAt == now && e.occurrences == 1 && (a.code == "" ==> e.code == "generic")
  }

  ghost predicate Continued(was: Entry, e: Entry, a: Report, now: int) {
    && Shows(e, a, now) && e.firstSeenAt == was.firstSeenAt && e.occurrences == was.occurrences + 1
    && (a.code == "" && was.code != "" ==> e.code == was.code)
  }

  ghost predicate ReportedIn(h: seq<Entry>, m: seq<Entry>, j: int, a: Report, now: int)
    requires 0 <= j < |m|
  {
    if j < |h| then Continued(h[j], m[j], a, now) else Started(m[j], a, now)
  }

  // Every entry of a reported key tells that report.
  ghost predicate Told(h: seq<Entry>, m: seq<Entry>, rs: seq<Report>, now: int) {
    forall j, i :: 0 <= j < |m| && 0 <= i < |rs| && m[j].key == rs[i].key ==> ReportedIn(h, m, j, rs[i], now)
  }

  lemma ToldFresh(h: seq<Entry>, m: seq<Entry>, done: seq<Report>, a: Report, now: int)
    requires |h| <= |m| && Told(h, m, done, now) && DistinctKeys(done + [a])
    requires forall j :: 0 <= j < |m| ==> m[j].key != a.key
    requires a.level != "" && a.message != ""
    ensures Told(h, m + [Fresh(a, now)], done + [a], now)
  {
    var m', all := m + [Fresh(a, now)], done + [a];
    FirstOfItsKey(done, a);
    forall j, i | 0 <= j < |m'| && 0 <= i < |all| && m'[j].key == all[i].key ensures ReportedIn(h, m', j, all[i], now) {
      if i < |done| { assert done[i].key in KeySet(done) && j < |m|; }
    }
  }

  lemma ToldRefreshed(h: seq<Entry>, m: seq<Entry>, done: seq<Report>, a: Report, at: nat, now: int)
    requires at < |h| <= |m| && Told(h, m, done, now) && DistinctKeys(done + [a])
    requires UniqueKeys(m) && m[at] == h[at] && m[at].key == a.key
    requires a.level != "" && a.message != ""
    ensures Told(h, m[at := Refreshed(m[at], a, now)], done + [a], now)
  {
    var m', all := m[at := Refreshed(m[at], a, now)], done + [a];
    FirstOfItsKey(done, a);
    forall j, i | 0 <= j < |m'| && 0 <= i < |all| && m'[j].key == all[i].key ensures ReportedIn(h, m', j, all[i], now) {
      if i < |done| { assert done[i].key in KeySet(done) && j != at; }
    }
  }

  lemma NoEntryOf(h: seq<Entry>, m: seq<Entry>, done: seq<Report>, a: Report)
    requires Framed(h, m, KeySet(done)) && DistinctKeys(done + [a]) && !HasKey(h, a.key)
    ensures forall j :: 0 <= j < |m| ==> m[j].key != a.key
  {
    FirstOfItsKey(done, a);
    forall j | 0 <= j < |m| ensures m[j].key != a.key {
      if j < |h| { assert h[j].key != a.key; }
    }
  }

  lemma {:induction false} AbsorbTells(h: seq<Entry>, last: map<string, string>, rs: seq<Report>, canon: Canon,
                                       universe: Vocabulary, t: int, now: int)
    requires Sound(h, last, canon, universe, t) && GoodList(rs, canon, universe) && DistinctKeys(rs)
    ensures Told(h, AbsorbAll(h, rs, Index(h, canon), now).history, rs, now)
  {
    if rs != [] {
      var n := |rs| - 1;
      var a, done := rs[n], rs[..n];
      assert done + [a] == rs;
      AbsorbTells(h, last, done, canon, universe, t, now);
      AbsorbTracks(h, last, done, canon, universe, t, now);
      GoodKeys(done, canon, universe);
      AbsorbFrames(h, done, canon, universe, now);
      IndexExact(h, canon, universe, a.key);
      FirstOfItsKey(done, a);
      var m, idx := AbsorbAll(h, done, Index(h, canon), now).history, Index(h, canon);
      if a.key !in idx {
        NoEntryOf(h, m, done, a);
        ToldFresh(h, m, done, a, now);
      } else {
        ToldRefreshed(h, m, done, a, idx[a.key], now);
      }
    }
  }

  // ---------------------------------------------------------------- entries under an old key

  // The only entry that belongs to the key does so by its canonical key.
  ghost predicate OnlyAlias(h: seq<Entry>, canon: Canon, k: string, at: int) {
    && 0 <= at < |h| && CanonOf(h[at], canon) == k && !HasKey(h, k)
    && forall j :: 0 <= j < |h| && CanonOf(h[j], canon) == k ==> j == at
  }

  lemma {:induction false} NoKeyNoIndex(h: seq<Entry>, canon: Canon, k: string)
    requires forall j :: 0 <= j < |h| ==> h[j].key != k && CanonOf(h[j], canon) != k
    ensures k !in Index(h, canon)
  {
    if h != [] { NoKeyNoIndex(h[..|h| - 1], canon, k); }
  }

  lemma {:induction false} AliasIsIndexed(h: seq<Entry>, canon: Canon, k: string, at: int)
    requires OnlyAlias(h, canon, k, at)
    ensures k in Index(h, canon) && Index(h, canon)[k] == at
  {
    var last := |h| - 1;
    var before := h[..last];
    assert h[last].key != k;
    forall j | 0 <= j < last ensures before[j] == h[j] && before[j].key != k {}
    if at == last { NoKeyNoIndex(before, canon, k); } else { AliasIsIndexed(before, canon, k, at); }
  }

  /** An entry stored under an older key is taken over by the alert whose key is the canonical one: it gets
      that key and stays one problem, announced only if it was resolved before or becomes critical. */
  lemma OldKeyIsMigrated(h: seq<Entry>, a: Report, canon: Canon, now: int, at: int)
    requires OnlyAlias(h, canon, a.key, at)
    ensures var p := Merged(h, [a], canon, now);
            && |p.history| == |h| && p.history[at].key == a.key && p.history[at].status == Active
            && p.history[at].firstSeenAt == h[at].firstSeenAt && p.history[at].occurrences == h[at].occurrences + 1
            && (forall j :: 0 <= j < |h| && j != at ==> p.history[j] == h[j])
            && (p.novos == [] <==>
                  h[at].status == Active && !(a.level == "critical" && h[at].level != "critical"))
  {
    AliasIsIndexed(h, canon, a.key, at);
    assert [a][..0] == [];
    assert AbsorbAll(h, [], Index(h, canon), now) == Progress(h, []);
  }

  // ---------------------------------------------------------------- what is said

  // The notice says what the entry says.
  ghost predicate Says(n: Notice, e: Entry) {
    n.key == e.key && n.level == e.level && n.code == e.code && n.message == e.message
  }

  ghost predicate AllSaid(ns: seq<Notice>, m: seq<Entry>, keys: set<string>) {
    forall n :: n in ns ==> n.key in keys && exists j :: 0 <= j < |m| && Says(n, m[j])
  }

  // Other entries may change, and more may be said of this one.
  lemma SaidAfter(ns: seq<Notice>, m: seq<Entry>, m': seq<Entry>, keys: set<string>, at: nat)
    requires AllSaid(ns, m, keys) && |m| <= |m'| && at < |m'| && m'[at].key !in keys
    requires forall j :: 0 <= j < |m| && j != at ==> m'[j] == m[j]
    requires at < |m| ==> m[at].key == m'[at].key
    ensures AllSaid(ns, m', keys + {m'[at].key}) && AllSaid(ns + [NoticeOf(m'[at])], m', keys + {m'[at].key})
  {
    forall n | n in ns ensures exists j :: 0 <= j < |m'| && Says(n, m'[j]) {
      var j :| 0 <= j < |m| && Says(n, m[j]);
      assert m'[j] == m[j];
    }
    assert Says(NoticeOf(m'[at]), m'[at]);
  }

  lemma {:induction false} AbsorbSays(h: seq<Entry>, last: map<string, string>, rs: seq<Report>, canon: Canon,
                                      universe: Vocabulary, t: int, now: int)
    requires Sound(h, last, canon, universe, t) && GoodList(rs, canon, universe) && DistinctKeys(rs)
    ensures var p := AbsorbAll(h, rs, Index(h, canon), now); AllSaid(p.novos, p.history, KeySet(rs))
  {
    if rs != [] {
      var n := |rs| - 1;
      var a, done := rs[n], rs[..n];
      assert done + [a] == rs;
      AbsorbSays(h, last, done, canon, universe, t, now);
      GoodKeys(done, canon, universe);
      AbsorbFrames(h, done, canon, universe, now);
      IndexExact(h, canon, universe, a.key);
      FirstOfItsKey(done, a);
      KeySetSnoc(done, a);
      var idx := Index(h, canon);
      var p, q := AbsorbAll(h, done, idx, now), AbsorbAll(h, rs, idx, now);
      SaidAfter(p.novos, p.history, q.history, KeySet(done), if a.key in idx then idx[a.key] else |p.history|);
    }
  }

  /** An announcement says what the entry of its key says after the heartbeat, and a resolution what
      that entry said before it. */
  lemma NoticesSayEntries(h: seq<Entry>, last: map<string, string>, rs: seq<Report>, canon: Canon,
                          universe: Vocabulary, t: int, now: int, limit: nat)
    requires Sound(h, last, canon, universe, t) && GoodList(rs, canon, universe) && DistinctKeys(rs)
    requires t < now && |rs| <= limit
    ensures var o := Update(h, rs, canon, now, limit);
            && (forall n :: n in o.novos ==> exists j :: 0 <= j < |o.history| && Says(n, o.history[j]))
            && (forall n :: n in o.resolvidos ==> exists j :: 0 <= j < |h| && h[j].status == Active && Says(n, h[j]))
  {
    var o := Update(h, rs, canon, now, limit);
    AbsorbSays(h, last, rs, canon, universe, t, now);
    forall n | n in o.novos ensures exists j :: 0 <= j < |o.history| && Says(n, o.history[j]) {
      SaidInHistory(h, last, rs, canon, universe, t, now, limit, n);
    }
    GoodKeys(rs, canon, universe);
    AbsorbFrames(h, rs, canon, universe, now);
    var m := Merged(h, rs, canon, now).history;
    forall n | n in o.resolvidos ensures exists j :: 0 <= j < |h| && h[j].status == Active && Says(n, h[j]) {
      var j := GoneSays(m, KeySet(rs), n);
      assert m[j] == h[j];
    }
  }

  // A reported entry is active, so the cut does not reach it.
  lemma SaidInHistory(h: seq<Entry>, last: map<string, string>, rs: seq<Report>, canon: Canon, universe: Vocabulary,
                      t: int, now: int, limit: nat, n: Notice)
    requires Sound(h, last, canon, universe, t) && GoodList(rs, canon, universe) && DistinctKeys(rs)
    requires t < now && |rs| <= limit && n.key in KeySet(rs)
    requires var m := Merged(h, rs, canon, now).history; exists j :: 0 <= j < |m| && Says(n, m[j])
    ensures var c := Update(h, rs, canon, now, limit).history; exists j :: 0 <= j < |c| && Says(n, c[j])
  {
    var m := Merged(h, rs, canon, now).history;
    var j :| 0 <= j < |m| && Says(n, m[j]);
    var s := SettleAll(m, KeySet(rs), now);
    assert s[j] == m[j] && s[j] in s;
    ReportedIsKept(h, last, rs, canon, universe, t, now, limit, s[j]);
  }

  lemma ReportedIsKept(h: seq<Entry>, last: map<string, string>, rs: seq<Report>, canon: Canon, universe: Vocabulary,
                       t: int, now: int, limit: nat, e: Entry)
    requires Sound(h, last, canon, universe, t) && GoodList(rs, canon, universe) && DistinctKeys(rs)
    requires t < now && |rs| <= limit && e.key in KeySet(rs)
    requires e in SettleAll(Merged(h, rs, canon, now).history, KeySet(rs), now)
    ensures e in Update(h, rs, canon, now, limit).history
  {
    var r := Full(h, rs, canon, now);
    var c := Cut(r, limit);
    SortFacts(SettleAll(Merged(h, rs, canon, now).history, KeySet(rs), now));
    FullTracks(h, last, rs, canon, universe, t, now);
    CutKeepsActiveIff(r, rs, limit);
    assert HasActive(c, e.key);
    var i :| 0 <= i < |c| && c[i].key == e.key && c[i].status == Active;
    assert c[i] == r[i];
    SameEntry(r, e, i);
  }

  lemma SameEntry(r: seq<Entry>, e: Entry, i: nat)
    requires UniqueKeys(r) && e in r && i < |r| && r[i].key == e.key
    ensures r[i] == e
  {
    var k :| 0 <= k < |r| && r[k] == e;
  }

  lemma {:induction false} GoneSays(m: seq<Entry>, keys: set<string>, n: Notice) returns (j: nat)
    requires n in GoneNotices(m, keys)
    ensures j < |m| && m[j].status == Active && m[j].key !in keys && Says(n, m[j])
  {
    var last := |m| - 1;
    if n in GoneNotices(m[..last], keys) { j := GoneSays(m[..last], keys, n); } else { j := last; }
  }

  // ---------------------------------------------------------------- one heartbeat

  // An active entry whose alert is gone is resolved now; any other entry stays as it is.
  ghost predicate Left(was: Entry, e: Entry, now: int) {
    if was.status == Active then e == was.(status := Resolved, resolvedAt := Some(now)) else e == was
  }

  ghost predicate Comes(h: seq<Entry>, e: Entry, a: Report, now: int) {
    && e.key == a.key
    && (Started(e, a, now) || exists j :: 0 <= j < |h| && h[j].key == e.key && Continued(h[j], e, a, now))
  }

  // Where an entry comes from that a heartbeat leaves.
  ghost predicate Follows(h: seq<Entry>, e: Entry, rs: seq<Report>, now: int) {
    if e.key in KeySet(rs) then exists i :: 0 <= i < |rs| && Comes(h, e, rs[i], now)
    else exists j :: 0 <= j < |h| && h[j].key == e.key && Left(h[j], e, now)
  }

  lemma SettledFollows(h: seq<Entry>, m: seq<Entry>, rs: seq<Report>, j: nat, now: int)
    requires Framed(h, m, KeySet(rs)) && Told(h, m, rs, now) && j < |m|
    ensures Follows(h, Settle(m[j], KeySet(rs), now), rs, now)
  {
    var e := Settle(m[j], KeySet(rs), now);
    if e.key in KeySet(rs) {
      var i :| 0 <= i < |rs| && rs[i].key == e.key;
      assert ReportedIn(h, m, j, rs[i], now);
      assert e == m[j] && Comes(h, e, rs[i], now);
    } else {
      assert m[j] == h[j] && Left(h[j], e, now);
    }
  }

  /** Every entry that a heartbeat leaves continues the entry of its key by this report, starts with
      it, or belongs to no report: then it is the old entry, resolved now if it was active. */
  lemma HeartbeatFollows(h: seq<Entry>, last: map<string, string>, rs: seq<Report>, canon: Canon,
                         universe: Vocabulary, t: int, now: int, limit: nat, e: Entry)
    requires Sound(h, last, canon, universe, t) && GoodList(rs, canon, universe) && DistinctKeys(rs)
    requires e in Update(h, rs, canon, now, limit).history
    ensures Follows(h, e, rs, now)
  {
    var m := Merged(h, rs, canon, now).history;
    var s := SettleAll(m, KeySet(rs), now);
    GoodKeys(rs, canon, universe);
    AbsorbFrames(h, rs, canon, universe, now);
    AbsorbTells(h, last, rs, canon, universe, t, now);
    SortFacts(s);
    assert e in SortByRecency(s);
    var j :| 0 <= j < |s| && s[j] == e;
    SettledFollows(h, m, rs, j, now);
  }

  // ---------------------------------------------------------------- whole runs

  ghost function HistoryAfter(beats: seq<Beat>, canon: Canon, limit: nat): seq<Entry> {
    if beats == [] then []
    else
      var last := |beats| - 1;
      Update(HistoryAfter(beats[..last], canon, limit), beats[last].rs, canon, beats[last].now, limit).history
  }

  // How many of the lists report the key.
  ghost function Reporting(beats: seq<Beat>, k: string): nat {
    if beats == [] then 0
    else Reporting(beats[..|beats| - 1], k) + if k in KeySet(beats[|beats| - 1].rs) then 1 else 0
  }

  ghost predicate ReportedAs(rs: seq<Report>, e: Entry, i: int) {
    && 0 <= i < |rs| && rs[i].key == e.key && rs[i].level == e.level && rs[i].message == e.message
    && (rs[i].code != "" ==> rs[i].code == e.code)
  }

  // The entry is the record of the lists from the first to the last: first and last time, how often,
  // what the last report said, and when the alert was first missing.
  ghost predicate Records(e: Entry, beats: seq<Beat>, first: int, last: int) {
    && 0 <= first <= last < |beats|
    && e.firstSeenAt == beats[first].now && e.key in KeySet(beats[first].rs)
    && e.lastSeenAt == beats[last].now && (exists i :: ReportedAs(beats[last].rs, e, i))
    && (forall n :: last < n < |beats| ==> e.key !in KeySet(beats[n].rs))
    && e.occurrences == Reporting(beats[first..], e.key)
    && e.status == (if last == |beats| - 1 then Active else Resolved)
    && e.resolvedAt == (if last == |beats| - 1 then None else Some(beats[last + 1].now))
  }

  lemma ReportingSnoc(beats: seq<Beat>, b: Beat, first: nat, k: string)
    requires first <= |beats|
    ensures Reporting((beats + [b])[first..], k) == Reporting(beats[first..], k) + if k in KeySet(b.rs) then 1 else 0
  {
    assert (beats + [b])[first..] == beats[first..] + [b];
    assert (beats[first..] + [b])[..|beats[first..]|] == beats[first..];
  }

  lemma RecordStarts(e: Entry, before: seq<Beat>, b: Beat, i: nat)
    requires i < |b.rs| && e.key == b.rs[i].key && Started(e, b.rs[i], b.now)
    ensures Records(e, before + [b], |before|, |before|)
  {
    var beats := before + [b];
    assert e.key in KeySet(b.rs);
    ReportingSnoc(before, b, |before|, e.key);
    assert ReportedAs(beats[|before|].rs, e, i);
  }

  lemma RecordContinues(was: Entry, e: Entry, before: seq<Beat>, b: Beat, i: nat, first: int, last: int)
    requires Records(was, before, first, last) && i < |b.rs| && was.key == e.key == b.rs[i].key
    requires Continued(was, e, b.rs[i], b.now)
    ensures Records(e, before + [b], first, |before|)
  {
    var beats := before + [b];
    assert beats[first] == before[first];
    assert e.key in KeySet(b.rs);
    ReportingSnoc(before, b, first, e.key);
    assert ReportedAs(beats[|before|].rs, e, i);
  }

  lemma RecordStays(was: Entry, e: Entry, before: seq<Beat>, b: Beat, first: int, last: int)
    requires Records(was, before, first, last) && Left(was, e, b.now) && e.key !in KeySet(b.rs)
    ensures Records(e, before + [b], first, last)
  {
    var beats := before + [b];
    assert forall n :: 0 <= n < |before| ==> beats[n] == before[n];
    ReportingSnoc(before, b, first, e.key);
    var i :| ReportedAs(before[last].rs, was, i);
    assert ReportedAs(beats[last].rs, e, i);
  }

  ghost function LastList(beats: seq<Beat>): map<string, string> {
    if beats == [] then map[] else Levels(beats[|beats| - 1].rs)
  }

  ghost function LastClock(t: int, beats: seq<Beat>): int { if beats == [] then t else beats[|beats| - 1].now }

  lemma OneMore(before: seq<Beat>, b: Beat, canon: Canon, universe: Vocabulary, t: int, limit: nat)
    requires GoodRun(before + [b], canon, universe, t, limit)
    ensures GoodRun(before, canon, universe, t, limit) && LastClock(t, before) < b.now
    ensures GoodList(b.rs, canon, universe) && DistinctKeys(b.rs) && |b.rs| <= limit
    ensures HistoryAfter(before + [b], canon, limit) ==
            Update(HistoryAfter(before, canon, limit), b.rs, canon, b.now, limit).history
  {
    var beats := before + [b];
    assert beats[|before|] == b && beats[..|before|] == before;
    GoodPrefix(beats, canon, universe, t, limit);
    assert ClockBefore(t, beats, |before|) < beats[|before|].now;
  }

  lemma {:induction false} SoundAfter(beats: seq<Beat>, canon: Canon, universe: Vocabulary, t: int, limit: nat)
    requires GoodRun(beats, canon, universe, t, limit)
    ensures Sound(HistoryAfter(beats, canon, limit), LastList(beats), canon, universe, LastClock(t, beats))
  {
    if beats != [] {
      var before, b := beats[..|beats| - 1], beats[|beats| - 1];
      assert beats == before + [b];
      GoodPrefix(beats, canon, universe, t, limit);
      SoundAfter(before, canon, universe, t, limit);
      SoundOneMore(before, b, canon, universe, t, limit);
    }
  }

  lemma SoundOneMore(before: seq<Beat>, b: Beat, canon: Canon, universe: Vocabulary, t: int, limit: nat)
    requires GoodRun(before + [b], canon, universe, t, limit)
    requires Sound(HistoryAfter(before, canon, limit), LastList(before), canon, universe, LastClock(t, before))
    ensures var beats := before + [b];
            Sound(HistoryAfter(beats, canon, limit), LastList(beats), canon, universe, LastClock(t, beats))
  {
    OneMore(before, b, canon, universe, t, limit);
    StaysSound(HistoryAfter(before, canon, limit), LastList(before), b, canon, universe, LastClock(t, before), limit);
  }

  lemma StaysSound(h: seq<Entry>, last: map<string, string>, b: Beat, canon: Canon, universe: Vocabulary, t: int,
                   limit: nat)
    requires Sound(h, last, canon, universe, t) && t < b.now
    requires GoodList(b.rs, canon, universe) && DistinctKeys(b.rs) && |b.rs| <= limit
    ensures Sound(Update(h, b.rs, canon, b.now, limit).history, Levels(b.rs), canon, universe, b.now)
  {
    HeartbeatRefinesDiff(h, last, b.rs, canon, universe, t, b.now, limit);
  }

  lemma GoodPrefix(beats: seq<Beat>, canon: Canon, universe: Vocabulary, t: int, limit: nat)
    requires GoodRun(beats, canon, universe, t, limit) && beats != []
    ensures GoodRun(beats[..|beats| - 1], canon, universe, t, limit)
  {
    var before := beats[..|beats| - 1];
    forall i | 0 <= i < |before| ensures ClockBefore(t, before, i) < before[i].now {
      assert ClockBefore(t, beats, i) < beats[i].now;
    }
  }

  lemma LastFollows(before: seq<Beat>, b: Beat, canon: Canon, universe: Vocabulary, t: int, limit: nat, e: Entry)
    requires GoodRun(before + [b], canon, universe, t, limit) && e in HistoryAfter(before + [b], canon, limit)
    ensures GoodRun(before, canon, universe, t, limit) && Follows(HistoryAfter(before, canon, limit), e, b.rs, b.now)
  {
    OneMore(before, b, canon, universe, t, limit);
    SoundAfter(before, canon, universe, t, limit);
    HeartbeatFollows(HistoryAfter(before, canon, limit), LastList(before), b.rs, canon, universe,
                     LastClock(t, before), b.now, limit, e);
  }

  ghost predicate HasRecord(e: Entry, beats: seq<Beat>) { exists first, last :: Records(e, beats, first, last) }

  lemma NextRecord(h: seq<Entry>, before: seq<Beat>, b: Beat, e: Entry)
    requires (forall w :: w in h ==> HasRecord(w, before)) && Follows(h, e, b.rs, b.now)
    ensures HasRecord(e, before + [b])
  {
    if e.key in KeySet(b.rs) {
      var i :| 0 <= i < |b.rs| && Comes(h, e, b.rs[i], b.now);
      if Started(e, b.rs[i], b.now) {
        RecordStarts(e, before, b, i);
      } else {
        var j :| 0 <= j < |h| && h[j].key == e.key && Continued(h[j], e, b.rs[i], b.now);
        assert HasRecord(h[j], before);
        var first, last :| Records(h[j], before, first, last);
        RecordContinues(h[j], e, before, b, i, first, last);
      }
    } else {
      var j :| 0 <= j < |h| && h[j].key == e.key && Left(h[j], e, b.now);
      assert HasRecord(h[j], before);
      var first, last :| Records(h[j], before, first, last);
      RecordStays(h[j], e, before, b, first, last);
    }
  }

  /** Over any run, however much is cut off on the way, every entry of the history is the record of a
      stretch of lists: when its alert came and was last seen, how many lists reported it in between,
      what the last of them said, and at which list it was missing. */
  lemma {:induction false} EntriesAreRecords(beats: seq<Beat>, canon: Canon, universe: Vocabulary, t: int, limit: nat)
    requires GoodRun(beats, canon, universe, t, limit)
    ensures forall e :: e in HistoryAfter(beats, canon, limit) ==> HasRecord(e, beats)
  {
    if beats != [] {
      var before, b := beats[..|beats| - 1], beats[|beats| - 1];
      assert beats == before + [b];
      GoodPrefix(beats, canon, universe, t, limit);
      EntriesAreRecords(before, canon, universe, t, limit);
      forall e | e in HistoryAfter(beats, canon, limit) ensures HasRecord(e, beats) {
        LastFollows(before, b, canon, universe, t, limit, e);
        NextRecord(HistoryAfter(before, canon, limit), before, b, e);
      }
    }
  }
}
