/** What the alert history guarantees: over any run of heartbeats it notifies exactly the
    difference between consecutive alert lists, although it only keeps a truncated history. */
module AlertDiff {
  import opened Basics
  import opened Text
  import opened AlertHistory

  // ---------------------------------------------------------------- vocabulary

  ghost predicate UniqueKeys(h: seq<Entry>) {
    forall i, j :: 0 <= i < j < |h| ==> h[i].key != h[j].key
  }

  // Every key that occurs, with the codes that it occurs with.
  type Vocabulary = map<string, set<string>>

  // The canonical key `c` of an entry with key `k` is not the key of another alert.
  predicate NoAlias(k: string, c: string, universe: Vocabulary) { c == k || c !in universe }

  // No canonical key of a stored entry is the key of another alert in `universe`.
  ghost predicate AliasFree(h: seq<Entry>, canon: Canon, universe: Vocabulary) {
    forall i :: 0 <= i < |h| ==> NoAlias(h[i].key, CanonOf(h[i], canon), universe)
  }

  ghost predicate Coded(h: seq<Entry>, universe: Vocabulary) {
    forall i :: 0 <= i < |h| && h[i].key in universe ==> h[i].code in universe[h[i].key]
  }

  ghost predicate HasKey(h: seq<Entry>, k: string) { exists i :: 0 <= i < |h| && h[i].key == k }

  ghost predicate HasActive(h: seq<Entry>, k: string) {
    exists i :: 0 <= i < |h| && h[i].key == k && h[i].status == Active
  }

  // The active entries are exactly the rs of `last`, with their levels.
  ghost predicate Tracks(h: seq<Entry>, last: map<string, string>) {
    && (forall i :: 0 <= i < |h| && h[i].status == Active ==> h[i].key in last && last[h[i].key] == h[i].level)
    && (forall k :: k in last ==> HasActive(h, k))
  }

  ghost predicate SeenBy(h: seq<Entry>, t: int) { forall i :: 0 <= i < |h| ==> h[i].lastSeenAt <= t }

  ghost predicate Sound(h: seq<Entry>, last: map<string, string>, canon: Canon, universe: Vocabulary, t: int) {
    UniqueKeys(h) && AliasFree(h, canon, universe) && Coded(h, universe) && Tracks(h, last) && SeenBy(h, t)
  }

  ghost predicate DistinctKeys(rs: seq<Report>) {
    forall i, j :: 0 <= i < j < |rs| ==> rs[i].key != rs[j].key
  }

  // An alert as ingestion delivers it: it has a level and a message, but perhaps no code.  Without a
  // code an entry keeps the one it has, so its key must be no alias under any code it occurs with.
  ghost predicate GoodReport(a: Report, canon: Canon, universe: Vocabulary) {
    && a.level != "" && a.message != "" && a.key in universe && OrElse(a.code, "generic") in universe[a.key]
    && (forall c :: (if a.code != "" then c == a.code else c in universe[a.key]) ==>
          NoAlias(a.key, canon(c, a.level, a.message), universe))
  }

  ghost predicate GoodList(rs: seq<Report>, canon: Canon, universe: Vocabulary) {
    forall i :: 0 <= i < |rs| ==> GoodReport(rs[i], canon, universe)
  }

  ghost function Levels(rs: seq<Report>): (m: map<string, string>)
    ensures m.Keys == KeySet(rs)
  {
    if rs == [] then map[]
    else
      var last := |rs| - 1;
      assert rs == rs[..last] + [rs[last]];
      Levels(rs[..last])[rs[last].key := rs[last].level]
  }

  // An alert gets worse only by becoming critical.
  ghost predicate Worse(level: string, before: string) { level == "critical" && before != "critical" }

  // The reference: a plain comparison with the previous alert list.
  ghost predicate IsNew(last: map<string, string>, a: Report) {
    a.key !in last || Worse(a.level, last[a.key])
  }

  ghost function NewPairs(last: map<string, string>, rs: seq<Report>): seq<(string, string)> {
    if rs == [] then []
    else
      var a := rs[|rs| - 1];
      NewPairs(last, rs[..|rs| - 1]) + if IsNew(last, a) then [(a.key, a.level)] else []
  }

  ghost function Pairs(ns: seq<Notice>): (r: seq<(string, string)>)
    ensures |r| == |ns|
  {
    seq(|ns|, i requires 0 <= i < |ns| => (ns[i].key, ns[i].level))
  }

  ghost function NoticeKeys(ns: seq<Notice>): set<string> { set n | n in ns :: n.key }

  ghost predicate DistinctNotices(ns: seq<Notice>) {
    forall i, j :: 0 <= i < j < |ns| ==> ns[i].key != ns[j].key
  }

  // ---------------------------------------------------------------- the index

  lemma HasKeySnoc(h: seq<Entry>, e: Entry, k: string)
    ensures HasKey(h + [e], k) <==> HasKey(h, k) || e.key == k
  {
    var all := h + [e];
    assert all[|h|] == e && forall i :: 0 <= i < |h| ==> all[i] == h[i];
  }

  lemma IndexSnoc(h: seq<Entry>, e: Entry, canon: Canon)
    ensures var m := Index(h, canon)[e.key := |h|];
            Index(h + [e], canon) == if CanonOf(e, canon) in m then m else m[CanonOf(e, canon) := |h|]
  {
    assert (h + [e])[..|h|] == h;
  }

  lemma {:induction false} IndexExact(h: seq<Entry>, canon: Canon, universe: Vocabulary, k: string)
    requires UniqueKeys(h) && AliasFree(h, canon, universe) && k in universe
    ensures k in Index(h, canon) <==> HasKey(h, k)
    ensures k in Index(h, canon) ==> h[Index(h, canon)[k]].key == k
  {
    if h != [] {
      var before, e := h[..|h| - 1], h[|h| - 1];
      assert h == before + [e];
      IndexExact(before, canon, universe, k);
      HasKeySnoc(before, e, k);
      IndexSnoc(before, e, canon);
      assert NoAlias(e.key, CanonOf(e, canon), universe);
    }
  }

  // ---------------------------------------------------------------- absorbing one list

  lemma KeySetSnoc(rs: seq<Report>, a: Report)
    ensures KeySet(rs + [a]) == KeySet(rs) + {a.key}
  {
    var all := rs + [a];
    assert all[|rs|] == a;
    assert forall i :: 0 <= i < |rs| ==> all[i] == rs[i];
  }

  // Entries keep their key, entries of no incoming alert keep everything, and what is
  // appended belongs to an incoming alert.  Repeated keys are allowed here.
  ghost predicate Framed(before: seq<Entry>, h: seq<Entry>, keys: set<string>) {
    && |before| <= |h|
    && (forall j :: 0 <= j < |before| ==> h[j].key == before[j].key)
    && (forall j :: 0 <= j < |before| && before[j].key !in keys ==> h[j] == before[j])
    && (forall j :: |before| <= j < |h| ==> h[j].key in keys)
  }

  lemma {:induction false} AbsorbFrames(h: seq<Entry>, rs: seq<Report>, canon: Canon, universe: Vocabulary, now: int)
    requires UniqueKeys(h) && AliasFree(h, canon, universe) && KeySet(rs) <= universe.Keys
    ensures Framed(h, AbsorbAll(h, rs, Index(h, canon), now).history, KeySet(rs))
  {
    if rs != [] {
      var last := |rs| - 1;
      var a := rs[last];
      assert rs == rs[..last] + [a];
      KeySetSnoc(rs[..last], a);
      AbsorbFrames(h, rs[..last], canon, universe, now);
      IndexExact(h, canon, universe, a.key);
    }
  }

  // Entries of an absorbed alert are active, seen now, at that alert's level.
  ghost predicate Filled(h: seq<Entry>, rs: seq<Report>, now: int) {
    forall j, i :: 0 <= j < |h| && 0 <= i < |rs| && h[j].key == rs[i].key ==>
      h[j].status == Active && h[j].lastSeenAt == now && h[j].level == rs[i].level
  }

  ghost predicate Covers(h: seq<Entry>, rs: seq<Report>) {
    forall i :: 0 <= i < |rs| ==> HasKey(h, rs[i].key)
  }

  ghost predicate Absorbed(h: seq<Entry>, rs: seq<Report>, canon: Canon, universe: Vocabulary, now: int) {
    UniqueKeys(h) && AliasFree(h, canon, universe) && Coded(h, universe) && Filled(h, rs, now) && Covers(h, rs)
  }

  lemma AppendFresh(before: seq<Entry>, h: seq<Entry>, done: seq<Report>, a: Report, canon: Canon,
                    universe: Vocabulary, now: int)
    requires Framed(before, h, KeySet(done)) && Absorbed(h, done, canon, universe, now)
    requires GoodReport(a, canon, universe) && DistinctKeys(done + [a]) && !HasKey(before, a.key)
    ensures Absorbed(h + [Fresh(a, now)], done + [a], canon, universe, now)
  {
    var key, all, e := a.key, done + [a], Fresh(a, now);
    var h' := h + [e];
    forall i | 0 <= i < |done| ensures done[i].key != key {
      assert all[i] == done[i] && all[|done|] == a;
    }
    forall j | 0 <= j < |h| ensures h[j].key != key {
      if j < |before| {
        assert before[j].key != key;
      } else {
        var i :| 0 <= i < |done| && h[j].key == done[i].key;
      }
    }
    assert Covers(h', all) by {
      forall i | 0 <= i < |all| ensures HasKey(h', all[i].key) {
        if i < |done| {
          var j :| 0 <= j < |h| && h[j].key == done[i].key;
          assert h'[j].key == all[i].key;
        } else {
          assert h'[|h|].key == key;
        }
      }
    }
  }

  lemma RefreshInPlace(h: seq<Entry>, done: seq<Report>, a: Report, at: nat, canon: Canon, universe: Vocabulary,
                       now: int)
    requires Absorbed(h, done, canon, universe, now) && at < |h| && h[at].key == a.key
    requires GoodReport(a, canon, universe) && DistinctKeys(done + [a])
    ensures Absorbed(h[at := Refreshed(h[at], a, now)], done + [a], canon, universe, now)
  {
    var key, all := a.key, done + [a];
    var h' := h[at := Refreshed(h[at], a, now)];
    forall i | 0 <= i < |done| ensures done[i].key != key {
      assert all[i] == done[i] && all[|done|] == a;
    }
    assert forall j :: 0 <= j < |h| ==> h'[j].key == h[j].key;
    assert Covers(h', all) by {
      forall i | 0 <= i < |all| ensures HasKey(h', all[i].key) {
        if i < |done| {
          var j :| 0 <= j < |h| && h[j].key == done[i].key;
          assert h'[j].key == all[i].key;
        } else {
          assert h'[at].key == key;
        }
      }
    }
  }

  lemma PairsSnoc(ns: seq<Notice>, n: Notice)
    ensures Pairs(ns + [n]) == Pairs(ns) + [(n.key, n.level)]
  {}

  lemma FirstOfItsKey(done: seq<Report>, a: Report)
    requires DistinctKeys(done + [a])
    ensures a.key !in KeySet(done)
  {
    var all := done + [a];
    assert all[|done|] == a;
    assert forall i :: 0 <= i < |done| ==> all[i] == done[i];
  }

  // Absorbing one more report keeps all of the above, and announces it exactly when the
  // plain comparison calls it new.
  lemma AbsorbStep(h: seq<Entry>, last: map<string, string>, p: Progress, done: seq<Report>, a: Report, canon: Canon,
                   universe: Vocabulary, t: int, now: int)
    requires Sound(h, last, canon, universe, t) && GoodReport(a, canon, universe) && DistinctKeys(done + [a])
    requires Framed(h, p.history, KeySet(done)) && Absorbed(p.history, done, canon, universe, now)
    ensures var q := Absorb(p, a, Index(h, canon), now);
            && Absorbed(q.history, done + [a], canon, universe, now)
            && Pairs(q.novos) == Pairs(p.novos) + if IsNew(last, a) then [(a.key, a.level)] else []
  {
    var idx := Index(h, canon);
    IndexExact(h, canon, universe, a.key);
    if a.key !in idx {
      AppendFresh(h, p.history, done, a, canon, universe, now);
      PairsSnoc(p.novos, NoticeOf(Fresh(a, now)));
      assert a.key !in last;
    } else {
      KnownStep(h, last, p, done, a, idx[a.key], canon, universe, now);
    }
  }

  // The alert is known: its entry is as it was before the list, and is refreshed in place.
  lemma KnownStep(h: seq<Entry>, last: map<string, string>, p: Progress, done: seq<Report>, a: Report, at: nat,
                  canon: Canon, universe: Vocabulary, now: int)
    requires UniqueKeys(h) && Tracks(h, last) && GoodReport(a, canon, universe) && DistinctKeys(done + [a])
    requires Framed(h, p.history, KeySet(done)) && Absorbed(p.history, done, canon, universe, now)
    requires at < |h| && h[at].key == a.key
    ensures p.history[at] == h[at] && (Announces(h[at], a) <==> IsNew(last, a))
    ensures var r := Refreshed(h[at], a, now);
            && Absorbed(p.history[at := r], done + [a], canon, universe, now)
            && Pairs(p.novos + [NoticeOf(r)]) == Pairs(p.novos) + [(a.key, a.level)]
  {
    FirstOfItsKey(done, a);
    RefreshInPlace(p.history, done, a, at, canon, universe, now);
    PairsSnoc(p.novos, NoticeOf(Refreshed(h[at], a, now)));
    AnnouncesIffNew(h, last, at, a);
  }

  lemma AnnouncesIffNew(h: seq<Entry>, last: map<string, string>, at: nat, a: Report)
    requires UniqueKeys(h) && Tracks(h, last) && at < |h| && h[at].key == a.key
    ensures Announces(h[at], a) <==> IsNew(last, a)
  {
    if a.key in last {
      var j :| 0 <= j < |h| && h[j].key == a.key && h[j].status == Active;
      assert j == at;
    }
  }

  lemma GoodKeys(rs: seq<Report>, canon: Canon, universe: Vocabulary)
    requires GoodList(rs, canon, universe)
    ensures KeySet(rs) <= universe.Keys
  {}

  // The heart of the refinement: after absorbing the list, every incoming alert has its one
  // active entry, and what was announced is what the plain comparison calls new.
  lemma {:induction false} AbsorbTracks(h: seq<Entry>, last: map<string, string>, rs: seq<Report>, canon: Canon,
                                        universe: Vocabulary, t: int, now: int)
    requires Sound(h, last, canon, universe, t) && GoodList(rs, canon, universe) && DistinctKeys(rs)
    ensures var p := AbsorbAll(h, rs, Index(h, canon), now);
            Absorbed(p.history, rs, canon, universe, now) && Pairs(p.novos) == NewPairs(last, rs)
  {
    if rs != [] {
      var n := |rs| - 1;
      var a, done := rs[n], rs[..n];
      assert done + [a] == rs;
      AbsorbTracks(h, last, done, canon, universe, t, now);
      GoodKeys(done, canon, universe);
      AbsorbFrames(h, done, canon, universe, now);
      AbsorbStep(h, last, AbsorbAll(h, done, Index(h, canon), now), done, a, canon, universe, t, now);
    }
  }

  // ---------------------------------------------------------------- what is announced

  ghost predicate IsNewAt(last: map<string, string>, rs: seq<Report>, i: int, p: (string, string)) {
    0 <= i < |rs| && IsNew(last, rs[i]) && p == (rs[i].key, rs[i].level)
  }

  ghost predicate NewIn(last: map<string, string>, rs: seq<Report>, p: (string, string)) {
    exists i :: IsNewAt(last, rs, i, p)
  }

  lemma NewInSnoc(last: map<string, string>, rs: seq<Report>, a: Report, p: (string, string))
    ensures NewIn(last, rs + [a], p) <==> NewIn(last, rs, p) || (IsNew(last, a) && p == (a.key, a.level))
  {
    var all := rs + [a];
    assert all[|rs|] == a && forall i :: 0 <= i < |rs| ==> all[i] == rs[i];
    if i :| IsNewAt(last, rs, i, p) { assert IsNewAt(last, all, i, p); }
    if i :| IsNewAt(last, all, i, p) { assert i < |rs| ==> IsNewAt(last, rs, i, p); }
    if IsNew(last, a) && p == (a.key, a.level) { assert IsNewAt(last, all, |rs|, p); }
  }

  lemma {:induction false} NewPairsAre(last: map<string, string>, rs: seq<Report>, p: (string, string))
    ensures p in NewPairs(last, rs) <==> NewIn(last, rs, p)
  {
    if rs != [] {
      var before, a := rs[..|rs| - 1], rs[|rs| - 1];
      assert rs == before + [a];
      NewPairsAre(last, before, p);
      NewInSnoc(last, before, a, p);
    }
  }

  lemma NewPairKeys(last: map<string, string>, rs: seq<Report>, p: (string, string))
    requires p in NewPairs(last, rs)
    ensures p.0 in KeySet(rs)
  {
    NewPairsAre(last, rs, p);
    var i :| IsNewAt(last, rs, i, p);
  }

  lemma {:induction false} NewPairsDistinct(last: map<string, string>, rs: seq<Report>)
    requires DistinctKeys(rs)
    ensures var ps := NewPairs(last, rs); forall i, j :: 0 <= i < j < |ps| ==> ps[i].0 != ps[j].0
  {
    if rs != [] {
      var before, a := rs[..|rs| - 1], rs[|rs| - 1];
      assert rs == before + [a];
      NewPairsDistinct(last, before);
      FirstOfItsKey(before, a);
      var ps := NewPairs(last, before);
      forall i | 0 <= i < |ps| ensures ps[i].0 != a.key { NewPairKeys(last, before, ps[i]); }
      assert NewPairs(last, rs) == ps + if IsNew(last, a) then [(a.key, a.level)] else [];
    }
  }

  lemma PairsDistinct(ns: seq<Notice>)
    requires var ps := Pairs(ns); forall i, j :: 0 <= i < j < |ps| ==> ps[i].0 != ps[j].0
    ensures DistinctNotices(ns)
  {
    var ps := Pairs(ns);
    assert forall i :: 0 <= i < |ns| ==> ps[i].0 == ns[i].key;
  }

  // ---------------------------------------------------------------- repeated keys

  ghost function KeySeq(h: seq<Entry>): (r: seq<string>)
    ensures |r| == |h|
  {
    seq(|h|, i requires 0 <= i < |h| => h[i].key)
  }

  // The keys the update appends: the index is not extended while it runs.
  ghost function AppendedKeys(h: seq<Entry>, rs: seq<Report>): seq<string> {
    if rs == [] then []
    else
      var a := rs[|rs| - 1];
      AppendedKeys(h, rs[..|rs| - 1]) + if HasKey(h, a.key) then [] else [a.key]
  }

  lemma KeySeqSnoc(h: seq<Entry>, e: Entry)
    ensures KeySeq(h + [e]) == KeySeq(h) + [e.key]
  {}

  lemma KeySeqUpdate(h: seq<Entry>, at: nat, e: Entry)
    requires at < |h| && h[at].key == e.key
    ensures KeySeq(h[at := e]) == KeySeq(h)
  {}

  lemma {:induction false} MergedKeys(h: seq<Entry>, rs: seq<Report>, canon: Canon, universe: Vocabulary, now: int)
    requires UniqueKeys(h) && AliasFree(h, canon, universe) && KeySet(rs) <= universe.Keys
    ensures KeySeq(AbsorbAll(h, rs, Index(h, canon), now).history) == KeySeq(h) + AppendedKeys(h, rs)
  {
    if rs != [] {
      var last := |rs| - 1;
      var a := rs[last];
      assert rs == rs[..last] + [a];
      KeySetSnoc(rs[..last], a);
      MergedKeys(h, rs[..last], canon, universe, now);
      AbsorbFrames(h, rs[..last], canon, universe, now);
      IndexExact(h, canon, universe, a.key);
      var m := AbsorbAll(h, rs[..last], Index(h, canon), now).history;
      if !HasKey(h, a.key) {
        KeySeqSnoc(m, Fresh(a, now));
      } else {
        var at := Index(h, canon)[a.key];
        KeySeqUpdate(m, at, Refreshed(m[at], a, now));
      }
    }
  }

  ghost predicate NoRepeats(ks: seq<string>) { forall i, j :: 0 <= i < j < |ks| ==> ks[i] != ks[j] }

  // Only keys the history already has may come twice in one list.
  ghost predicate RepeatsAreKnown(h: seq<Entry>, rs: seq<Report>) {
    forall i, j :: 0 <= i < j < |rs| && rs[i].key == rs[j].key ==> HasKey(h, rs[i].key)
  }

  lemma {:induction false} AppendedFacts(h: seq<Entry>, rs: seq<Report>)
    ensures forall k :: k in AppendedKeys(h, rs) <==> k in KeySet(rs) && !HasKey(h, k)
    ensures NoRepeats(AppendedKeys(h, rs)) <==> RepeatsAreKnown(h, rs)
  {
    if rs != [] {
      var last := |rs| - 1;
      var a, before := rs[last], AppendedKeys(h, rs[..last]);
      assert rs == rs[..last] + [a];
      KeySetSnoc(rs[..last], a);
      AppendedFacts(h, rs[..last]);
      var ks := AppendedKeys(h, rs);
      if HasKey(h, a.key) {
        assert ks == before;
      } else {
        assert ks == before + [a.key];
        SnocNoRepeats(before, a.key);
      }
      SnocRepeats(h, rs[..last], a);
    }
  }

  lemma SnocNoRepeats(ks: seq<string>, k: string)
    ensures NoRepeats(ks + [k]) <==> NoRepeats(ks) && k !in ks
  {
    var all := ks + [k];
    assert forall i :: 0 <= i < |ks| ==> all[i] == ks[i];
    assert all[|ks|] == k;
  }

  lemma SnocRepeats(h: seq<Entry>, rs: seq<Report>, a: Report)
    ensures RepeatsAreKnown(h, rs + [a]) <==> RepeatsAreKnown(h, rs) && (a.key in KeySet(rs) ==> HasKey(h, a.key))
  {
    var all := rs + [a];
    assert forall i :: 0 <= i < |rs| ==> all[i] == rs[i];
    assert all[|rs|] == a;
  }

  /** One problem keeps one entry exactly when no key unknown to the history is repeated. */
  lemma UniqueAfterIff(h: seq<Entry>, rs: seq<Report>, canon: Canon, universe: Vocabulary, now: int)
    requires UniqueKeys(h) && AliasFree(h, canon, universe) && KeySet(rs) <= universe.Keys
    ensures UniqueKeys(Merged(h, rs, canon, now).history) <==> RepeatsAreKnown(h, rs)
  {
    var known, appended := KeySeq(h), AppendedKeys(h, rs);
    MergedKeys(h, rs, canon, universe, now);
    AppendedFacts(h, rs);
    UniqueIffNoRepeats(h);
    UniqueIffNoRepeats(Merged(h, rs, canon, now).history);
    forall i, j | 0 <= i < |known| && 0 <= j < |appended| ensures known[i] != appended[j] {
      assert appended[j] in appended && h[i].key == known[i];
    }
    NoRepeatsJoined(known, appended);
  }

  lemma UniqueIffNoRepeats(h: seq<Entry>)
    ensures UniqueKeys(h) <==> NoRepeats(KeySeq(h))
  {
    var ks := KeySeq(h);
    assert forall i :: 0 <= i < |h| ==> ks[i] == h[i].key;
  }

  lemma NoRepeatsJoined(a: seq<string>, b: seq<string>)
    requires NoRepeats(a) && forall i, j :: 0 <= i < |a| && 0 <= j < |b| ==> a[i] != b[j]
    ensures NoRepeats(a + b) <==> NoRepeats(b)
  {
    assert forall i :: 0 <= i < |b| ==> (a + b)[|a| + i] == b[i];
  }

  // ---------------------------------------------------------------- what is resolved

  ghost function GoneKeys(h: seq<Entry>, keys: set<string>): set<string> {
    set j | 0 <= j < |h| && Gone(h[j], keys) :: h[j].key
  }

  lemma {:induction false} GoneExact(h: seq<Entry>, keys: set<string>)
    ensures NoticeKeys(GoneNotices(h, keys)) == GoneKeys(h, keys)
    ensures UniqueKeys(h) ==> DistinctNotices(GoneNotices(h, keys))
  {
    if h != [] {
      var last := |h| - 1;
      var before, ns := h[..last], GoneNotices(h[..last], keys);
      GoneExact(before, keys);
      GoneKeysSnoc(before, h[last], keys);
      assert before + [h[last]] == h;
      if Gone(h[last], keys) {
        NoticeKeysSnoc(ns, NoticeOf(h[last]));
        forall i | UniqueKeys(h) && 0 <= i < |ns| ensures ns[i].key != h[last].key {
          assert ns[i].key in NoticeKeys(ns);
          var j :| 0 <= j < last && before[j].key == ns[i].key;
          assert h[j] == before[j];
        }
      }
    }
  }

  lemma GoneKeysSnoc(h: seq<Entry>, e: Entry, keys: set<string>)
    ensures GoneKeys(h + [e], keys) == GoneKeys(h, keys) + if Gone(e, keys) then {e.key} else {}
  {
    var all := h + [e];
    assert all[|h|] == e;
    assert forall j :: 0 <= j < |h| ==> all[j] == h[j];
  }

  lemma NoticeKeysSnoc(ns: seq<Notice>, n: Notice)
    ensures NoticeKeys(ns + [n]) == NoticeKeys(ns) + {n.key}
  {
    assert forall x :: x in ns + [n] <==> x in ns || x == n;
  }

  ghost function ActiveKeys(h: seq<Entry>): set<string> {
    set i | 0 <= i < |h| && h[i].status == Active :: h[i].key
  }

  // For any list, repeated keys included, exactly the active keys that are gone are resolved.
  lemma ResolvedExact(h: seq<Entry>, rs: seq<Report>, canon: Canon, universe: Vocabulary, now: int, limit: nat)
    requires UniqueKeys(h) && AliasFree(h, canon, universe) && KeySet(rs) <= universe.Keys
    ensures NoticeKeys(Update(h, rs, canon, now, limit).resolvidos) == ActiveKeys(h) - KeySet(rs)
  {
    var keys := KeySet(rs);
    var m := Merged(h, rs, canon, now).history;
    AbsorbFrames(h, rs, canon, universe, now);
    GoneExact(m, keys);
    forall k | k in GoneKeys(m, keys) ensures k in ActiveKeys(h) - keys {
      var j :| 0 <= j < |m| && Gone(m[j], keys) && m[j].key == k;
      assert j < |h| && m[j] == h[j];
    }
    forall k | k in ActiveKeys(h) - keys ensures k in GoneKeys(m, keys) {
      var j :| 0 <= j < |h| && h[j].status == Active && h[j].key == k;
      assert m[j] == h[j] && Gone(m[j], keys);
    }
  }

  // ---------------------------------------------------------------- sorting and truncation

  ghost predicate NewestFirst(s: seq<Entry>) {
    forall i, j :: 0 <= i < j < |s| ==> s[i].lastSeenAt >= s[j].lastSeenAt
  }

  lemma {:induction false} InsertMembers(e: Entry, s: seq<Entry>)
    ensures forall x :: x in InsertByRecency(e, s) <==> x == e || x in s
  {
    if s != [] && e.lastSeenAt < s[0].lastSeenAt {
      InsertMembers(e, s[1..]);
      assert s == [s[0]] + s[1..];
    }
  }

  lemma ConsNewest(first: Entry, rest: seq<Entry>)
    requires NewestFirst(rest) && forall x :: x in rest ==> first.lastSeenAt >= x.lastSeenAt
    ensures NewestFirst([first] + rest)
  {
    var all := [first] + rest;
    assert forall j :: 0 < j < |all| ==> all[j] == rest[j - 1] && rest[j - 1] in rest;
  }

  lemma {:induction false} InsertSorted(e: Entry, s: seq<Entry>)
    requires NewestFirst(s)
    ensures NewestFirst(InsertByRecency(e, s))
  {
    if s != [] && e.lastSeenAt < s[0].lastSeenAt {
      InsertSorted(e, s[1..]);
      InsertMembers(e, s[1..]);
      ConsNewest(s[0], InsertByRecency(e, s[1..]));
    } else {
      assert s != [] ==> forall x :: x in s ==> s[0].lastSeenAt >= x.lastSeenAt;
      ConsNewest(e, s);
    }
  }

  lemma ConsUnique(first: Entry, rest: seq<Entry>)
    requires UniqueKeys(rest) && forall x :: x in rest ==> first.key != x.key
    ensures UniqueKeys([first] + rest)
  {
    var all := [first] + rest;
    assert forall j :: 0 < j < |all| ==> all[j] == rest[j - 1] && rest[j - 1] in rest;
  }

  lemma {:induction false} InsertUnique(e: Entry, s: seq<Entry>)
    requires UniqueKeys(s) && forall x :: x in s ==> x.key != e.key
    ensures UniqueKeys(InsertByRecency(e, s))
  {
    if s != [] && e.lastSeenAt < s[0].lastSeenAt {
      assert s[0] in s && forall x :: x in s[1..] ==> x in s;
      InsertUnique(e, s[1..]);
      InsertMembers(e, s[1..]);
      ConsUnique(s[0], InsertByRecency(e, s[1..]));
    } else {
      ConsUnique(e, s);
    }
  }

  lemma {:induction false} SortFacts(h: seq<Entry>)
    ensures forall x :: x in SortByRecency(h) <==> x in h
    ensures NewestFirst(SortByRecency(h))
    ensures UniqueKeys(h) ==> UniqueKeys(SortByRecency(h))
  {
    if h != [] {
      var rest := SortByRecency(h[1..]);
      assert h == [h[0]] + h[1..];
      SortFacts(h[1..]);
      InsertMembers(h[0], rest);
      InsertSorted(h[0], rest);
      if UniqueKeys(h) {
        InsertUnique(h[0], rest);
      }
    }
  }

  // The entries last seen at one time, in their order.
  ghost function SeenAt(s: seq<Entry>, t: int): seq<Entry> {
    if s == [] then [] else (if s[0].lastSeenAt == t then [s[0]] else []) + SeenAt(s[1..], t)
  }

  lemma SeenAtCons(e: Entry, s: seq<Entry>, t: int)
    ensures SeenAt([e] + s, t) == (if e.lastSeenAt == t then [e] else []) + SeenAt(s, t)
  {
    assert ([e] + s)[1..] == s;
  }

  lemma {:induction false} InsertStable(e: Entry, s: seq<Entry>, t: int)
    ensures SeenAt(InsertByRecency(e, s), t) == SeenAt([e] + s, t)
  {
    SeenAtCons(e, s, t);
    if s != [] && e.lastSeenAt < s[0].lastSeenAt {
      InsertStable(e, s[1..], t);
      SeenAtCons(s[0], InsertByRecency(e, s[1..]), t);
      SeenAtCons(e, s[1..], t);
    }
  }

  /** Sorting by recency is stable: newest first, and entries last seen at the same time stay in order. */
  lemma {:induction false} SortIsStable(h: seq<Entry>, t: int)
    ensures NewestFirst(SortByRecency(h)) && SeenAt(SortByRecency(h), t) == SeenAt(h, t)
  {
    SortFacts(h);
    if h != [] {
      SortIsStable(h[1..], t);
      InsertStable(h[0], SortByRecency(h[1..]), t);
      SeenAtCons(h[0], SortByRecency(h[1..]), t);
    }
  }

  lemma {:induction false} DistinctFit(s: seq<Entry>, keys: set<string>)
    requires UniqueKeys(s) && forall i :: 0 <= i < |s| ==> s[i].key in keys
    ensures |s| <= |keys|
  {
    if s != [] {
      var last := |s| - 1;
      DistinctFit(s[..last], keys - {s[last].key});
    }
  }

  lemma {:induction false} KeySetSize(rs: seq<Report>)
    ensures |KeySet(rs)| <= |rs|
    ensures DistinctKeys(rs) ==> |KeySet(rs)| == |rs|
  {
    if rs != [] {
      var last := |rs| - 1;
      assert rs == rs[..last] + [rs[last]];
      KeySetSnoc(rs[..last], rs[last]);
      KeySetSize(rs[..last]);
      if DistinctKeys(rs) {
        FirstOfItsKey(rs[..last], rs[last]);
      }
    }
  }

  lemma {:induction false} EntryKeysSize(s: seq<Entry>)
    ensures |set i | 0 <= i < |s| :: s[i].key| <= |s|
  {
    if s != [] {
      var last := |s| - 1;
      EntryKeysSize(s[..last]);
      assert (set i | 0 <= i < |s| :: s[i].key) == (set i | 0 <= i < last :: s[..last][i].key) + {s[last].key};
    }
  }

  // The sorted, not yet truncated, history after one heartbeat.
  ghost function Full(h: seq<Entry>, rs: seq<Report>, canon: Canon, now: int): seq<Entry> {
    SortByRecency(SettleAll(Merged(h, rs, canon, now).history, KeySet(rs), now))
  }

  lemma LevelsAt(rs: seq<Report>, i: nat)
    requires DistinctKeys(rs) && i < |rs|
    ensures rs[i].key in Levels(rs) && Levels(rs)[rs[i].key] == rs[i].level
  {
    if i < |rs| - 1 {
      LevelsAt(rs[..|rs| - 1], i);
    }
  }

  // One entry, after it was absorbed and settled.
  lemma SettledEntry(h: seq<Entry>, m: seq<Entry>, j: nat, rs: seq<Report>, t: int, now: int)
    requires SeenBy(h, t) && t < now && DistinctKeys(rs)
    requires Framed(h, m, KeySet(rs)) && Filled(m, rs, now) && j < |m|
    ensures var e := Settle(m[j], KeySet(rs), now);
            && e.key == m[j].key && e.lastSeenAt <= now
            && (e.lastSeenAt == now <==> e.status == Active)
            && (e.status == Active ==> e.key in Levels(rs) && Levels(rs)[e.key] == e.level)
  {
    if m[j].key in KeySet(rs) {
      var i :| 0 <= i < |rs| && rs[i].key == m[j].key;
      LevelsAt(rs, i);
    } else {
      assert m[j] == h[j];
    }
  }

  lemma SettledTracks(h: seq<Entry>, last: map<string, string>, rs: seq<Report>, canon: Canon,
                      universe: Vocabulary, t: int, now: int)
    requires Sound(h, last, canon, universe, t) && GoodList(rs, canon, universe) && DistinctKeys(rs) && t < now
    ensures var s := SettleAll(Merged(h, rs, canon, now).history, KeySet(rs), now);
            && Sound(s, Levels(rs), canon, universe, now)
            && (forall i :: 0 <= i < |s| ==> (s[i].lastSeenAt == now <==> s[i].status == Active))
  {
    var m := Merged(h, rs, canon, now).history;
    AbsorbTracks(h, last, rs, canon, universe, t, now);
    GoodKeys(rs, canon, universe);
    AbsorbFrames(h, rs, canon, universe, now);
    SettledSound(h, m, rs, canon, universe, t, now);
  }

  // Settling changes neither keys nor what a canonical key is computed from.
  lemma SettledKeepsKeys(m: seq<Entry>, keys: set<string>, canon: Canon, universe: Vocabulary, now: int)
    requires UniqueKeys(m) && AliasFree(m, canon, universe) && Coded(m, universe)
    ensures var s := SettleAll(m, keys, now); UniqueKeys(s) && AliasFree(s, canon, universe) && Coded(s, universe)
  {
    var s := SettleAll(m, keys, now);
    assert forall j :: 0 <= j < |s| ==>
           s[j].key == m[j].key && s[j].code == m[j].code && CanonOf(s[j], canon) == CanonOf(m[j], canon);
  }

  lemma SettledSound(h: seq<Entry>, m: seq<Entry>, rs: seq<Report>, canon: Canon, universe: Vocabulary, t: int,
                     now: int)
    requires SeenBy(h, t) && t < now && DistinctKeys(rs)
    requires Framed(h, m, KeySet(rs)) && Absorbed(m, rs, canon, universe, now)
    ensures var s := SettleAll(m, KeySet(rs), now);
            && Sound(s, Levels(rs), canon, universe, now)
            && (forall i :: 0 <= i < |s| ==> (s[i].lastSeenAt == now <==> s[i].status == Active))
  {
    var s := SettleAll(m, KeySet(rs), now);
    SettledKeepsKeys(m, KeySet(rs), canon, universe, now);
    SettledTracksList(h, m, rs, t, now);
  }

  lemma SettledTracksList(h: seq<Entry>, m: seq<Entry>, rs: seq<Report>, t: int, now: int)
    requires SeenBy(h, t) && t < now && DistinctKeys(rs)
    requires Framed(h, m, KeySet(rs)) && Filled(m, rs, now) && Covers(m, rs)
    ensures var s := SettleAll(m, KeySet(rs), now);
            && Tracks(s, Levels(rs)) && SeenBy(s, now)
            && (forall i :: 0 <= i < |s| ==> (s[i].lastSeenAt == now <==> s[i].status == Active))
  {
    var s := SettleAll(m, KeySet(rs), now);
    forall j | 0 <= j < |s|
      ensures s[j].key == m[j].key && s[j].lastSeenAt <= now && (s[j].lastSeenAt == now <==> s[j].status == Active)
      ensures s[j].status == Active ==> s[j].key in Levels(rs) && Levels(rs)[s[j].key] == s[j].level
    {
      SettledEntry(h, m, j, rs, t, now);
    }
    forall k | k in Levels(rs) ensures HasActive(s, k) {
      var i :| 0 <= i < |rs| && rs[i].key == k;
      var j :| 0 <= j < |m| && m[j].key == rs[i].key;
      assert s[j].key == k && s[j].status == Active;
    }
  }

  lemma SortedSound(s: seq<Entry>, last: map<string, string>, canon: Canon, universe: Vocabulary, t: int)
    requires Sound(s, last, canon, universe, t)
    ensures Sound(SortByRecency(s), last, canon, universe, t)
  {
    var r := SortByRecency(s);
    SortFacts(s);
    forall i | 0 <= i < |r|
      ensures NoAlias(r[i].key, CanonOf(r[i], canon), universe)
      ensures r[i].key in universe ==> r[i].code in universe[r[i].key]
      ensures r[i].status == Active ==> r[i].key in last && last[r[i].key] == r[i].level
      ensures r[i].lastSeenAt <= t
    {
      assert r[i] in s;
    }
    forall k | k in last ensures HasActive(r, k) {
      var j :| 0 <= j < |s| && s[j].key == k && s[j].status == Active;
      assert s[j] in r;
    }
  }

  lemma FullTracks(h: seq<Entry>, last: map<string, string>, rs: seq<Report>, canon: Canon,
                   universe: Vocabulary, t: int, now: int)
    requires Sound(h, last, canon, universe, t) && GoodList(rs, canon, universe) && DistinctKeys(rs) && t < now
    ensures var r := Full(h, rs, canon, now);
            && Sound(r, Levels(rs), canon, universe, now)
            && (forall i :: 0 <= i < |r| ==> (i < |rs| <==> r[i].status == Active))
  {
    var s := SettleAll(Merged(h, rs, canon, now).history, KeySet(rs), now);
    SettledTracks(h, last, rs, canon, universe, t, now);
    SortedSound(s, Levels(rs), canon, universe, now);
    SortFacts(s);
    KeySetSize(rs);
    SplitAtCount(s, SortByRecency(s), Levels(rs), now);
  }

  lemma SplitAtCount(s: seq<Entry>, r: seq<Entry>, last: map<string, string>, now: int)
    requires forall x :: x in r ==> x in s
    requires forall i :: 0 <= i < |s| ==> (s[i].lastSeenAt == now <==> s[i].status == Active)
    requires NewestFirst(r) && UniqueKeys(r) && Tracks(r, last) && SeenBy(r, now)
    ensures forall i :: 0 <= i < |r| ==> (i < |last.Keys| <==> r[i].status == Active)
  {
    forall i | 0 <= i < |r| ensures r[i].lastSeenAt == now <==> r[i].status == Active {
      assert r[i] in s;
    }
    forall i | 0 <= i < |r| ensures i < |last.Keys| <==> r[i].status == Active {
      if r[i].status == Active {
        DistinctFit(r[..i + 1], last.Keys);
      } else {
        ActiveFirst(r, i, last, now);
      }
    }
  }

  // An inactive entry comes after all the active ones, of which there is one per key.
  lemma ActiveFirst(r: seq<Entry>, i: nat, last: map<string, string>, now: int)
    requires NewestFirst(r) && Tracks(r, last) && i < |r| && r[i].status != Active
    requires forall j :: 0 <= j < |r| ==> (r[j].lastSeenAt == now <==> r[j].status == Active)
    requires forall j :: 0 <= j < |r| ==> r[j].lastSeenAt <= now
    ensures |last.Keys| <= i
  {
    var front := set j | 0 <= j < i :: r[..i][j].key;
    forall k | k in last ensures k in front {
      var j :| 0 <= j < |r| && r[j].key == k && r[j].status == Active;
      assert j < i && r[..i][j].key == k;
    }
    EntryKeysSize(r[..i]);
    SubsetSize(last.Keys, front);
  }

  /** Truncation drops no active entry exactly when the list fits in the history. */
  lemma TruncationKeepsActiveIff(h: seq<Entry>, last: map<string, string>, rs: seq<Report>, canon: Canon,
                                 universe: Vocabulary, t: int, now: int, limit: nat)
    requires Sound(h, last, canon, universe, t) && GoodList(rs, canon, universe) && DistinctKeys(rs) && t < now
    ensures (forall k :: k in KeySet(rs) ==> HasActive(Update(h, rs, canon, now, limit).history, k))
            <==> |rs| <= limit
  {
    FullTracks(h, last, rs, canon, universe, t, now);
    CutKeepsActiveIff(Full(h, rs, canon, now), rs, limit);
  }

  lemma CutKeepsActiveIff(r: seq<Entry>, rs: seq<Report>, limit: nat)
    requires Tracks(r, Levels(rs)) && DistinctKeys(rs)
    requires forall i :: 0 <= i < |r| ==> (i < |rs| <==> r[i].status == Active)
    ensures (forall k :: k in KeySet(rs) ==> HasActive(Cut(r, limit), k)) <==> |rs| <= limit
  {
    if |rs| <= limit {
      CutKeepsActive(r, Levels(rs), |rs|, limit);
    } else if forall k :: k in KeySet(rs) ==> HasActive(Cut(r, limit), k) {
      ActiveFit(Cut(r, limit), rs);
    }
  }

  lemma CutKeepsActive(r: seq<Entry>, last: map<string, string>, count: nat, limit: nat)
    requires Tracks(r, last) && count <= limit
    requires forall i :: 0 <= i < |r| ==> (i < count <==> r[i].status == Active)
    ensures Tracks(Cut(r, limit), last)
  {
    var c := Cut(r, limit);
    forall k | k in last ensures HasActive(c, k) {
      var j :| 0 <= j < |r| && r[j].key == k && r[j].status == Active;
      assert c[j] == r[j];
    }
  }

  lemma ActiveFit(c: seq<Entry>, rs: seq<Report>)
    requires DistinctKeys(rs) && forall k :: k in KeySet(rs) ==> HasActive(c, k)
    ensures |rs| <= |c|
  {
    var front := set i | 0 <= i < |c| :: c[i].key;
    forall k | k in KeySet(rs) ensures k in front {
      assert HasActive(c, k);
    }
    KeySetSize(rs);
    EntryKeysSize(c);
    SubsetSize(KeySet(rs), front);
  }

  // What a plain comparison of two consecutive lists would notify.
  ghost predicate IsDiff(o: Outcome, last: map<string, string>, rs: seq<Report>) {
    && Pairs(o.novos) == NewPairs(last, rs)
    && NoticeKeys(o.resolvidos) == last.Keys - KeySet(rs) && DistinctNotices(o.resolvidos)
  }

  /** One heartbeat: the announcements are the plain difference, and the truncated history
      is again in step with the list just received. */
  lemma HeartbeatRefinesDiff(h: seq<Entry>, last: map<string, string>, rs: seq<Report>, canon: Canon,
                             universe: Vocabulary, t: int, now: int, limit: nat)
    requires Sound(h, last, canon, universe, t) && GoodList(rs, canon, universe) && DistinctKeys(rs)
    requires t < now && |rs| <= limit
    ensures var o := Update(h, rs, canon, now, limit);
            IsDiff(o, last, rs) && Sound(o.history, Levels(rs), canon, universe, now) && |o.history| <= limit
  {
    NoticesAreDiff(h, last, rs, canon, universe, t, now, limit);
    HistoryStaysSound(h, last, rs, canon, universe, t, now, limit);
  }

  lemma NoticesAreDiff(h: seq<Entry>, last: map<string, string>, rs: seq<Report>, canon: Canon,
                       universe: Vocabulary, t: int, now: int, limit: nat)
    requires Sound(h, last, canon, universe, t) && GoodList(rs, canon, universe) && DistinctKeys(rs)
    ensures IsDiff(Update(h, rs, canon, now, limit), last, rs)
  {
    AbsorbTracks(h, last, rs, canon, universe, t, now);
    GoodKeys(rs, canon, universe);
    GoneExact(Merged(h, rs, canon, now).history, KeySet(rs));
    ResolvedAreGone(h, last, rs, canon, universe, now, limit);
  }

  lemma ResolvedAreGone(h: seq<Entry>, last: map<string, string>, rs: seq<Report>, canon: Canon, universe: Vocabulary,
                        now: int, limit: nat)
    requires UniqueKeys(h) && AliasFree(h, canon, universe) && KeySet(rs) <= universe.Keys && Tracks(h, last)
    ensures NoticeKeys(Update(h, rs, canon, now, limit).resolvidos) == last.Keys - KeySet(rs)
  {
    ResolvedExact(h, rs, canon, universe, now, limit);
    assert ActiveKeys(h) == last.Keys;
  }

  lemma HistoryStaysSound(h: seq<Entry>, last: map<string, string>, rs: seq<Report>, canon: Canon,
                          universe: Vocabulary, t: int, now: int, limit: nat)
    requires Sound(h, last, canon, universe, t) && GoodList(rs, canon, universe) && DistinctKeys(rs)
    requires t < now && |rs| <= limit
    ensures var c := Cut(Full(h, rs, canon, now), limit);
            Sound(c, Levels(rs), canon, universe, now) && |c| <= limit
  {
    FullTracks(h, last, rs, canon, universe, t, now);
    CutKeepsActive(Full(h, rs, canon, now), Levels(rs), |rs|, limit);
    CutIsSound(Full(h, rs, canon, now), Levels(rs), canon, universe, now, limit);
  }

  lemma CutIsSound(r: seq<Entry>, last: map<string, string>, canon: Canon, universe: Vocabulary, now: int, limit: nat)
    requires Sound(r, last, canon, universe, now) && Tracks(Cut(r, limit), last)
    ensures Sound(Cut(r, limit), last, canon, universe, now) && |Cut(r, limit)| <= limit
  {}

  /** A known problem is announced again exactly when it becomes critical: once it is, or at any other
      level, its key is not notified.  An unknown one is always announced, at its level. */
  lemma EscalationIff(h: seq<Entry>, last: map<string, string>, rs: seq<Report>, canon: Canon, universe: Vocabulary,
                      t: int, now: int, limit: nat, i: nat)
    requires Sound(h, last, canon, universe, t) && GoodList(rs, canon, universe) && DistinctKeys(rs) && i < |rs|
    ensures var ns := Update(h, rs, canon, now, limit).novos;
            && (rs[i].key in NoticeKeys(ns) <==>
                  (rs[i].key in last ==> rs[i].level == "critical" && last[rs[i].key] != "critical"))
            && (rs[i].key in NoticeKeys(ns) <==> (rs[i].key, rs[i].level) in Pairs(ns))
  {
    var ns := Update(h, rs, canon, now, limit).novos;
    NoticesAreDiff(h, last, rs, canon, universe, t, now, limit);
    var p := (rs[i].key, rs[i].level);
    NewPairsAre(last, rs, p);
    if IsNew(last, rs[i]) { assert IsNewAt(last, rs, i, p); }
    if k :| 0 <= k < |ns| && ns[k].key == rs[i].key {
      var q := Pairs(ns)[k];
      assert q in NewPairs(last, rs);
      NewPairsAre(last, rs, q);
      var j :| IsNewAt(last, rs, j, q);
      assert j == i;
    }
    if p in Pairs(ns) {
      var k :| 0 <= k < |ns| && Pairs(ns)[k] == p;
      assert ns[k] in ns && ns[k].key == rs[i].key;
    }
  }

  // ---------------------------------------------------------------- whole runs

  datatype Beat = Beat(rs: seq<Report>, now: int)

  ghost function ClockBefore(t: int, beats: seq<Beat>, i: nat): int
    requires i < |beats|
  {
    if i == 0 then t else beats[i - 1].now
  }

  ghost predicate GoodRun(beats: seq<Beat>, canon: Canon, universe: Vocabulary, t: int, limit: nat) {
    && (forall i :: 0 <= i < |beats| ==> GoodList(beats[i].rs, canon, universe))
    && (forall i :: 0 <= i < |beats| ==> DistinctKeys(beats[i].rs))
    && (forall i :: 0 <= i < |beats| ==> |beats[i].rs| <= limit)
    && (forall i :: 0 <= i < |beats| ==> ClockBefore(t, beats, i) < beats[i].now)
  }

  // Each heartbeat, run on the history the previous one left, notifies the difference from
  // the list before it, and leaves a bounded history whose active entries are its own list.
  ghost predicate RunIsDiff(h: seq<Entry>, last: map<string, string>, beats: seq<Beat>, canon: Canon, limit: nat)
    decreases |beats|
  {
    beats == [] ||
    var b := beats[0];
    var o := Update(h, b.rs, canon, b.now, limit);
    && IsDiff(o, last, b.rs) && Tracks(o.history, Levels(b.rs)) && |o.history| <= limit
    && RunIsDiff(o.history, Levels(b.rs), beats[1..], canon, limit)
  }

  /** However much the history was truncated on the way, every heartbeat of a run announces
      exactly the difference between its list and the previous one. */
  lemma {:induction false} RunRefinesDiff(h: seq<Entry>, last: map<string, string>, beats: seq<Beat>, canon: Canon,
                                          universe: Vocabulary, t: int, limit: nat)
    requires Sound(h, last, canon, universe, t) && GoodRun(beats, canon, universe, t, limit)
    ensures RunIsDiff(h, last, beats, canon, limit)
    decreases |beats|
  {
    if beats != [] {
      var b := beats[0];
      FirstBeat(beats, canon, universe, t, limit);
      HeartbeatRefinesDiff(h, last, b.rs, canon, universe, t, b.now, limit);
      var o := Update(h, b.rs, canon, b.now, limit);
      RunRefinesDiff(o.history, Levels(b.rs), beats[1..], canon, universe, b.now, limit);
    }
  }

  lemma FirstBeat(beats: seq<Beat>, canon: Canon, universe: Vocabulary, t: int, limit: nat)
    requires GoodRun(beats, canon, universe, t, limit) && beats != []
    ensures t < beats[0].now && |beats[0].rs| <= limit
    ensures GoodList(beats[0].rs, canon, universe) && DistinctKeys(beats[0].rs)
    ensures GoodRun(beats[1..], canon, universe, beats[0].now, limit)
  {
    assert ClockBefore(t, beats, 0) < beats[0].now;
    forall j | 0 <= j < |beats| - 1 ensures ClockBefore(beats[0].now, beats[1..], j) < beats[1..][j].now {
      assert ClockBefore(t, beats, j + 1) < beats[j + 1].now;
    }
  }
}
