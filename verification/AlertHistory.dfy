/** Central's alert history (apps/central/src/server.js): the loop that turns each
    heartbeat's alert list into a bounded, sorted history plus the transitions to notify. */
module AlertHistory {
  import opened Optional
  import opened Text

  datatype Status = Active | Resolved
  // An absent field is the empty string, which JavaScript treats alike in `a || b`.
  datatype Alert = Alert(key: string, level: string, code: string, message: string)

  // An alert with the key that `alertKey` computed for it.
  datatype Report = Report(key: string, level: string, code: string, message: string)

  datatype Entry = Entry(
    key: string, status: Status, level: string, code: string, message: string,
    firstSeenAt: int, lastSeenAt: int, resolvedAt: Option<int>, occurrences: nat)

  datatype Notice = Notice(key: string, level: string, code: string, message: string)
  datatype Progress = Progress(history: seq<Entry>, novos: seq<Notice>)
  datatype Outcome = Outcome(history: seq<Entry>, novos: seq<Notice>, resolvidos: seq<Notice>)

  // The key that `normalizarAlertaOperacional` gives to a stored (code, level, message).
  type Canon = (string, string, string) -> string

  const KEY_LENGTH: nat := 160
  const MESSAGE_LENGTH: nat := 120
  const DEFAULT_MESSAGE := "Alerta operacional."

  // ---------------------------------------------------------------- keys and levels

  function NormKey(s: string): string { Take(Lower(Trim(s)), KEY_LENGTH) }

  function AlertKey(a: Alert): string {
    var informed := NormKey(a.key);
    if informed != "" then informed
    else
      var code := Lower(Trim(OrElse(a.code, "generic")));
      if code != "generic" then code
      else code + ":" + Take(Lower(Trim(a.message)), MESSAGE_LENGTH)
  }

  function Rank(level: string): nat { if level == "critical" then 2 else 1 }

  // The key function is a parameter here only so that proofs need not look inside it.
  type KeyOf = Alert -> string

  function ReportOf(a: Alert, keyOf: KeyOf): Report { Report(keyOf(a), a.level, a.code, a.message) }

  function Reports(alerts: seq<Alert>, keyOf: KeyOf): (r: seq<Report>)
    ensures |r| == |alerts|
    ensures forall i :: 0 <= i < |alerts| ==> r[i] == ReportOf(alerts[i], keyOf)
  {
    seq(|alerts|, i requires 0 <= i < |alerts| => ReportOf(alerts[i], keyOf))
  }

  function KeySet(rs: seq<Report>): set<string> { set i | 0 <= i < |rs| :: rs[i].key }

  function CanonOf(e: Entry, canon: Canon): string { canon(e.code, e.level, e.message) }

  // ---------------------------------------------------------------- the update, as functions

  /** The Map from key to position: the last entry of a key wins, and an entry's canonical
      key points at it unless that key is already taken. */
  function Index(h: seq<Entry>, canon: Canon): (m: map<string, nat>)
    ensures forall k :: k in m ==> m[k] < |h|
  {
    if h == [] then map[]
    else
      var last := |h| - 1;
      var m := Index(h[..last], canon)[h[last].key := last];
      var c := CanonOf(h[last], canon);
      if c in m then m else m[c := last]
  }

  function Fresh(a: Report, now: int): Entry {
    Entry(a.key, Active, OrElse(a.level, "warning"), OrElse(a.code, "generic"),
          OrElse(a.message, DEFAULT_MESSAGE), now, now, None, 1)
  }

  function Refreshed(e: Entry, a: Report, now: int): Entry {
    e.(key := a.key, status := Active,
       level := OrElse(a.level, OrElse(e.level, "warning")),
       code := OrElse(a.code, OrElse(e.code, "generic")),
       message := OrElse(a.message, OrElse(e.message, DEFAULT_MESSAGE)),
       lastSeenAt := now, resolvedAt := None, occurrences := e.occurrences + 1)
  }

  predicate Announces(e: Entry, a: Report) {
    e.status != Active || Rank(a.level) > Rank(e.level)
  }

  function NoticeOf(e: Entry): Notice { Notice(e.key, e.level, e.code, e.message) }

  function Absorb(p: Progress, a: Report, idx: map<string, nat>, now: int): (q: Progress)
    requires forall k :: k in idx ==> idx[k] < |p.history|
    ensures |p.history| <= |q.history|
  {
    var key := a.key;
    if key !in idx then
      Progress(p.history + [Fresh(a, now)], p.novos + [NoticeOf(Fresh(a, now))])
    else
      var e := p.history[idx[key]];
      var r := Refreshed(e, a, now);
      Progress(p.history[idx[key] := r],
               if Announces(e, a) then p.novos + [NoticeOf(r)] else p.novos)
  }

  function AbsorbAll(h: seq<Entry>, rs: seq<Report>, idx: map<string, nat>, now: int): (q: Progress)
    requires forall k :: k in idx ==> idx[k] < |h|
    ensures |h| <= |q.history|
  {
    if rs == [] then Progress(h, [])
    else
      var last := |rs| - 1;
      Absorb(AbsorbAll(h, rs[..last], idx, now), rs[last], idx, now)
  }

  predicate Gone(e: Entry, keys: set<string>) { e.status == Active && e.key !in keys }

  function Settle(e: Entry, keys: set<string>, now: int): Entry {
    if Gone(e, keys) then e.(status := Resolved, resolvedAt := Some(now)) else e
  }

  function SettleAll(h: seq<Entry>, keys: set<string>, now: int): (r: seq<Entry>)
    ensures |r| == |h|
    ensures forall i :: 0 <= i < |h| ==> r[i] == Settle(h[i], keys, now)
  {
    seq(|h|, i requires 0 <= i < |h| => Settle(h[i], keys, now))
  }

  function GoneNotices(h: seq<Entry>, keys: set<string>): seq<Notice> {
    if h == [] then []
    else
      var e := h[|h| - 1];
      GoneNotices(h[..|h| - 1], keys) + if Gone(e, keys) then [NoticeOf(e)] else []
  }

  // Array.prototype.sort is stable: entries of equal time keep their order.
  function InsertByRecency(e: Entry, s: seq<Entry>): (r: seq<Entry>)
    ensures multiset(r) == multiset{e} + multiset(s)
  {
    if s == [] || e.lastSeenAt >= s[0].lastSeenAt then [e] + s
    else
      assert s == [s[0]] + s[1..];
      [s[0]] + InsertByRecency(e, s[1..])
  }

  function SortByRecency(h: seq<Entry>): (r: seq<Entry>)
    ensures multiset(r) == multiset(h)
  {
    if h == [] then []
    else
      assert h == [h[0]] + h[1..];
      InsertByRecency(h[0], SortByRecency(h[1..]))
  }

  function Cut(h: seq<Entry>, limit: nat): seq<Entry> { if |h| <= limit then h else h[..limit] }

  function Merged(h: seq<Entry>, rs: seq<Report>, canon: Canon, now: int): (p: Progress)
    ensures |h| <= |p.history|
  {
    AbsorbAll(h, rs, Index(h, canon), now)
  }

  function Update(h: seq<Entry>, rs: seq<Report>, canon: Canon, now: int, limit: nat): Outcome {
    var p := Merged(h, rs, canon, now);
    var keys := KeySet(rs);
    Outcome(Cut(SortByRecency(SettleAll(p.history, keys, now)), limit),
            p.novos, GoneNotices(p.history, keys))
  }

  // ---------------------------------------------------------------- the update, as the source's loops

  method BuildIndex(history: seq<Entry>, canon: Canon) returns (indexByKey: map<string, nat>)
    ensures indexByKey == Index(history, canon)
  {
    indexByKey := map[];
    for i := 0 to |history|
      invariant indexByKey == Index(history[..i], canon)
    {
      assert history[..i + 1][..i] == history[..i];
      indexByKey := indexByKey[history[i].key := i];
      var canonical := CanonOf(history[i], canon);
      if canonical !in indexByKey {
        indexByKey := indexByKey[canonical := i];
      }
    }
    assert history[..|history|] == history;
  }

  method AbsorbReports(existing: seq<Entry>, rs: seq<Report>, indexByKey: map<string, nat>, now: int)
    returns (history: seq<Entry>, novos: seq<Notice>)
    requires forall k :: k in indexByKey ==> indexByKey[k] < |existing|
    ensures Progress(history, novos) == AbsorbAll(existing, rs, indexByKey, now)
  {
    history, novos := existing, [];
    for i := 0 to |rs|
      invariant |existing| <= |history|
      invariant Progress(history, novos) == AbsorbAll(existing, rs[..i], indexByKey, now)
    {
      assert rs[..i + 1][..i] == rs[..i];
      var alert := rs[i];
      var key := alert.key;
      if key !in indexByKey {
        var entry := Fresh(alert, now);
        novos := novos + [NoticeOf(entry)];
        history := history + [entry];
      } else {
        var at := indexByKey[key];
        var entry := history[at];
        var escalated := entry.status == Active && Rank(alert.level) > Rank(entry.level);
        var updated := Refreshed(entry, alert, now);
        if entry.status != Active || escalated {
          novos := novos + [NoticeOf(updated)];
        }
        history := history[at := updated];
      }
    }
    assert rs[..|rs|] == rs;
  }

  method ResolveMissing(absorbed: seq<Entry>, activeKeys: set<string>, now: int)
    returns (history: seq<Entry>, resolvidos: seq<Notice>)
    ensures history == SettleAll(absorbed, activeKeys, now)
    ensures resolvidos == GoneNotices(absorbed, activeKeys)
  {
    history, resolvidos := absorbed, [];
    for i := 0 to |history|
      invariant |history| == |absorbed|
      invariant forall k :: 0 <= k < i ==> history[k] == Settle(absorbed[k], activeKeys, now)
      invariant forall k :: i <= k < |history| ==> history[k] == absorbed[k]
      invariant resolvidos == GoneNotices(absorbed[..i], activeKeys)
    {
      assert absorbed[..i + 1][..i] == absorbed[..i];
      if history[i].status == Active && history[i].key !in activeKeys {
        resolvidos := resolvidos + [NoticeOf(history[i])];
        history := history[i := history[i].(status := Resolved, resolvedAt := Some(now))];
      }
    }
    assert absorbed[..|absorbed|] == absorbed;
  }

  method UpdateAlertHistory(existing: seq<Entry>, alerts: seq<Alert>, canon: Canon, now: int, limit: nat)
    returns (history: seq<Entry>, novos: seq<Notice>, resolvidos: seq<Notice>)
    ensures Outcome(history, novos, resolvidos) == Update(existing, Reports(alerts, AlertKey), canon, now, limit)
  {
    var rs := Reports(alerts, AlertKey);
    var activeKeys := KeySet(rs);
    var indexByKey := BuildIndex(existing, canon);
    history, novos := AbsorbReports(existing, rs, indexByKey, now);
    history, resolvidos := ResolveMissing(history, activeKeys, now);
    history := Cut(SortByRecency(history), limit);
  }
}
