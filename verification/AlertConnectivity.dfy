/** The connectivity monitor: a heartbeat cannot announce its own absence, so Central adds the
    communication alert to the list of what is still active (apps/central/src/server.js). */
module AlertConnectivity {
  import opened Optional
  import opened Text
  import opened AlertHistory
  import opened AlertDiff

  datatype Check = Check(changed: bool, history: seq<Entry>, novos: seq<Notice>)

  // The alert that the monitor adds; the lemmas below hold for any such alert.
  function Offline(message: string): Alert {
    Alert("installation_connectivity", "critical", "installation_offline", message)
  }

  // The list the monitor feeds back: every other active entry under its stored key.
  function Carried(h: seq<Entry>, own: string): seq<Alert> {
    if h == [] then []
    else
      var e := h[|h| - 1];
      Carried(h[..|h| - 1], own) +
      if e.status == Active && e.key != own then [Alert(e.key, e.level, e.code, e.message)] else []
  }

  function MonitorReports(h: seq<Entry>, offline: Alert, keyOf: KeyOf): seq<Report> {
    Reports(Carried(h, offline.key) + [offline], keyOf)
  }

  predicate Known(h: seq<Entry>, own: string) {
    exists i :: 0 <= i < |h| && h[i].status == Active && h[i].key == own
  }

  function UpdateConnectivity(h: seq<Entry>, lastHeartbeatAt: Option<int>, now: int, threshold: int,
                              offline: Alert, keyOf: KeyOf, canon: Canon, limit: nat): Check {
    if lastHeartbeatAt.None? || (now - lastHeartbeatAt.value) / 1000 <= threshold || Known(h, offline.key) then
      Check(false, h, [])
    else
      var o := Update(h, MonitorReports(h, offline, keyOf), canon, now, limit);
      Check(|o.novos| > 0, o.history, o.novos)
  }

  // ---------------------------------------------------------------- keys fed back

  // A key that feeding back through `alertKey` leaves alone.
  predicate Settled(k: string) { NormKey(k) == k }

  type Norm = string -> string

  // What the monitor needs to know of the key function and of the normalisation inside it.
  ghost predicate Keying(keyOf: KeyOf, norm: Norm) {
    && (forall a: Alert :: norm(a.key) != "" ==> keyOf(a) == norm(a.key))
    && (forall k: string :: |norm(k)| <= |k|)
    && (forall k: string :: |norm(k)| == |k| ==> norm(norm(k)) == norm(k))
    && (forall k: string :: norm(k) != "" ==> norm(norm(k)) != "")
  }

  predicate Plain(s: string) { forall c :: c in s ==> !('A' <= c <= 'Z') && !IsSpace(c) }

  lemma PlainIsSettled(s: string)
    requires Plain(s) && |s| <= KEY_LENGTH
    ensures Settled(s)
  {
    if s != [] {
      assert s[0] in s && s[|s| - 1] in s;
    }
    forall i | 0 <= i < |s| ensures Lower(s)[i] == s[i] {
      assert s[i] in s;
    }
    FixedIsSettled(s);
  }

  lemma OfflineIsSettled(message: string)
    ensures Settled(Offline(message).key) && Offline(message).key == "installation_connectivity"
    ensures Offline(message).level == "critical" && Offline(message).code == "installation_offline"
  {
    assert Plain("installation_connectivity");
    PlainIsSettled("installation_connectivity");
  }

  // Cutting this text, once trimmed, to n characters leaves a blank at the end.
  predicate CutAtBlank(s: string, n: nat)
    requires n > 0
  {
    |Trim(s)| > n && IsSpace(Trim(s)[n - 1])
  }

  lemma LowerIsStable(s: string)
    ensures Lower(Lower(s)) == Lower(s) && |Lower(s)| == |s| && (Trimmed(s) ==> Trimmed(Lower(s)))
  {}

  lemma NormOfLower(k: string)
    requires k != "" && Lower(k) == k && !IsSpace(k[0]) && |k| <= KEY_LENGTH
    ensures Settled(k) <==> !IsSpace(k[|k| - 1])
    ensures NormKey(k) != ""
  {
    LowerIsStable(Trim(k));
    if IsSpace(k[|k| - 1]) { assert !Trimmed(k) && |Trim(k)| < |k|; } else { assert Trimmed(k); }
    TrimOfBlank(k);
  }

  lemma TrimOfBlank(k: string)
    requires k != "" && !IsSpace(k[0])
    ensures Trim(k) != ""
  {
    FrontSurvives(k);
  }

  lemma {:induction false} FrontSurvives(k: string)
    requires k != "" && !IsSpace(k[0])
    ensures TrimRight(k) != ""
  {
    if |k| > 1 && IsSpace(k[|k| - 1]) { FrontSurvives(k[..|k| - 1]); }
  }

  lemma LowerTake(s: string, n: nat)
    ensures Lower(Take(Lower(s), n)) == Take(Lower(s), n)
  {
    var k := Take(Lower(s), n);
    forall i | 0 <= i < |k| ensures LowerChar(k[i]) == k[i] {
      assert k[i] == LowerChar(s[i]);
    }
  }

  // The three ways to derive a key, and when its result is left alone the next time.
  lemma CutIsSettledIff(s: string, n: nat)
    requires 0 < n <= KEY_LENGTH && s != "" && Trimmed(s)
    ensures var k := Take(Lower(s), n);
            k != "" && Lower(k) == k && !IsSpace(k[0]) && (IsSpace(k[|k| - 1]) <==> |s| > n && IsSpace(s[n - 1]))
  {
    LowerTake(s, n);
    var k := Take(Lower(s), n);
    assert k[0] == LowerChar(s[0]) && k[|k| - 1] == LowerChar(s[|k| - 1]);
  }

  lemma InformedIsSettledIff(a: Alert)
    requires Trim(a.key) != ""
    ensures AlertKey(a) == NormKey(a.key) && NormKey(AlertKey(a)) != ""
    ensures Settled(AlertKey(a)) <==> !CutAtBlank(a.key, KEY_LENGTH)
  {
    CutIsSettledIff(Trim(a.key), KEY_LENGTH);
    NormOfLower(NormKey(a.key));
  }

  lemma NormOfTrimmed(k: string)
    requires Trimmed(k) && Lower(k) == k
    ensures NormKey(k) == Take(k, KEY_LENGTH)
  {
    assert Trim(k) == k;
  }

  lemma TakeIsWholeIff(k: string, n: nat)
    requires n > 0
    ensures Take(k, n) == k <==> |k| <= n
    ensures Take(k, n) == "" <==> k == ""
  {}

  lemma CodeIsSettledIff(code: string)
    requires Trimmed(code)
    ensures Settled(Lower(code)) <==> |code| <= KEY_LENGTH
    ensures NormKey(Lower(code)) == "" <==> code == ""
  {
    var k := Lower(code);
    assert Trimmed(k) && Lower(k) == k && |k| == |code| by { LowerIsStable(code); }
    NormOfTrimmed(k);
    TakeIsWholeIff(k, KEY_LENGTH);
  }

  lemma GenericIsSettledIff(s: string)
    requires Trimmed(s)
    ensures var k := "generic" + ":" + Take(Lower(s), MESSAGE_LENGTH);
            (Settled(k) <==> !(|s| > MESSAGE_LENGTH && IsSpace(s[MESSAGE_LENGTH - 1]))) && NormKey(k) != ""
  {
    var m := Take(Lower(s), MESSAGE_LENGTH);
    var k := "generic" + ":" + m;
    LowerTake(s, MESSAGE_LENGTH);
    GenericIsLower(m);
    if s != "" { CutIsSettledIff(s, MESSAGE_LENGTH); }
    assert k[|k| - 1] == if m == "" then ':' else m[|m| - 1];
    NormOfLower(k);
  }

  lemma GenericIsLower(m: string)
    requires Lower(m) == m
    ensures var k := "generic" + ":" + m; k[0] == 'g' && |k| == 8 + |m| && Lower(k) == k
  {
    var k := "generic" + ":" + m;
    forall i | 0 <= i < |k| ensures LowerChar(k[i]) == k[i] {
      if i >= 8 { assert k[i] == m[i - 8] && Lower(m)[i - 8] == m[i - 8]; }
    }
  }

  function CodeOf(a: Alert): string { Trim(OrElse(a.code, "generic")) }

  lemma NoInformedKey(a: Alert)
    requires Trim(a.key) == ""
    ensures AlertKey(a) == if Lower(CodeOf(a)) != "generic" then Lower(CodeOf(a))
                           else "generic" + ":" + Take(Lower(Trim(a.message)), MESSAGE_LENGTH)
  {
    assert NormKey(a.key) == "";
  }

  lemma CodeKeyIsSettledIff(a: Alert)
    requires Trim(a.key) == "" && Lower(CodeOf(a)) != "generic"
    ensures Settled(AlertKey(a)) <==> |CodeOf(a)| <= KEY_LENGTH
    ensures NormKey(AlertKey(a)) == "" <==> CodeOf(a) == ""
  {
    NoInformedKey(a);
    CodeIsSettledIff(CodeOf(a));
  }

  lemma MessageKeyIsSettledIff(a: Alert)
    requires Trim(a.key) == "" && Lower(CodeOf(a)) == "generic"
    ensures Settled(AlertKey(a)) <==> !CutAtBlank(a.message, MESSAGE_LENGTH)
    ensures NormKey(AlertKey(a)) != ""
  {
    NoInformedKey(a);
    GenericIsSettledIff(Trim(a.message));
  }

  /** Deriving the key of an alert a second time, from the key stored for it, changes nothing exactly
      when no cut left a blank at the end and no code longer than a key was used as one. */
  lemma StoredKeyIsSettledIff(a: Alert)
    ensures Settled(AlertKey(a)) <==>
            if Trim(a.key) != "" then !CutAtBlank(a.key, KEY_LENGTH)
            else if Lower(CodeOf(a)) != "generic" then |CodeOf(a)| <= KEY_LENGTH
            else !CutAtBlank(a.message, MESSAGE_LENGTH)
  {
    if Trim(a.key) != "" {
      InformedIsSettledIff(a);
    } else if Lower(CodeOf(a)) != "generic" {
      CodeKeyIsSettledIff(a);
    } else {
      MessageKeyIsSettledIff(a);
    }
  }

  lemma CodeIsBlankIff(a: Alert)
    ensures CodeOf(a) == "" <==> a.code != "" && Trim(a.code) == ""
  {
    assert Trimmed("generic");
  }

  /** The stored key of an alert is blank exactly when it has no key and its code is nothing but blanks,
      which ingestion turns into no code at all. */
  lemma StoredKeyIsBlankIff(a: Alert)
    ensures NormKey(AlertKey(a)) == "" <==> Trim(a.key) == "" && a.code != "" && Trim(a.code) == ""
  {
    if Trim(a.key) != "" {
      InformedIsSettledIff(a);
    } else {
      CodeIsBlankIff(a);
      if Lower(CodeOf(a)) != "generic" { CodeKeyIsSettledIff(a); } else { MessageKeyIsSettledIff(a); }
    }
  }

  /** Such alerts are delivered: without key and code, a trimmed message of 121 characters whose 120th
      is a blank gets a stored key that is not found again. */
  lemma GenericKeyIsLost(level: string, message: string)
    requires Trimmed(message) && |message| == MESSAGE_LENGTH + 1 && message[MESSAGE_LENGTH - 1] == ' '
    ensures !Settled(AlertKey(Alert("", level, "", message)))
  {
    var a := Alert("", level, "", message);
    assert Trimmed("generic") && Lower("generic") == "generic";
    assert CodeOf(a) == "generic";
    StoredKeyIsSettledIff(a);
  }

  lemma FixedIsSettled(k: string)
    requires Trimmed(k) && Lower(k) == k && |k| <= KEY_LENGTH
    ensures Settled(k)
  {}

  // Normalisation never lengthens a key; when it keeps the length it lands on a settled key.
  lemma NormKeyShrinks(k: string)
    ensures |NormKey(k)| <= |k|
    ensures |NormKey(k)| == |k| ==> Settled(NormKey(k))
  {
    if |NormKey(k)| == |k| {
      assert Trim(k) == k;
      var n := Lower(k);
      assert NormKey(k) == n;
      assert Trimmed(n);
      assert Lower(n) == n;
    }
  }

  lemma NormKeyStaysNonBlank(k: string)
    requires NormKey(k) != ""
    ensures NormKey(NormKey(k)) != ""
  {
    CutIsSettledIff(Trim(k), KEY_LENGTH);
    NormOfLower(NormKey(k));
  }

  lemma InformedKey(a: Alert)
    requires NormKey(a.key) != ""
    ensures AlertKey(a) == NormKey(a.key)
  {}

  lemma AlertKeyKeying()
    ensures Keying(AlertKey, NormKey)
  {
    forall a: Alert | NormKey(a.key) != "" { InformedKey(a); }
    forall k: string { NormKeyShrinks(k); }
    forall k: string | NormKey(k) != "" { NormKeyStaysNonBlank(k); }
  }

  // A longest element of a nonempty finite set of keys.
  lemma {:induction false} Longest(ks: set<string>) returns (k: string)
    requires ks != {}
    ensures k in ks && forall j :: j in ks ==> |j| <= |k|
    decreases |ks|
  {
    k :| k in ks;
    if ks != {k} {
      var rest := ks - {k};
      var other := Longest(rest);
      assert ks == rest + {k};
      if |other| > |k| {
        k := other;
      }
    }
  }

  ghost function Image(f: Norm, ks: set<string>): set<string> { set k | k in ks :: f(k) }

  // Every key is the image of a key at least as long: follow those up to the longest ones.
  lemma {:induction false} CoveredIsFixed(f: Norm, ks: set<string>, k: string, longest: nat)
    requires forall j :: |f(j)| == |j| ==> f(f(j)) == f(j)
    requires forall j :: |f(j)| <= |j|
    requires ks <= Image(f, ks) && k in ks && forall j :: j in ks ==> |j| <= longest
    ensures f(k) == k
    decreases longest - |k|
  {
    assert k in Image(f, ks);
    var z :| z in ks && f(z) == k;
    if |z| != |k| {
      CoveredIsFixed(f, ks, z, longest);
    }
  }

  // A map that never lengthens, and that settles what it does not shorten, covers a finite
  // set by itself only if it moves nothing in it.
  lemma ImageCoversOnlyFixpoints(f: Norm, ks: set<string>)
    requires forall k :: |f(k)| == |k| ==> f(f(k)) == f(k)
    requires forall k :: |f(k)| <= |k|
    ensures ks <= Image(f, ks) <==> forall k :: k in ks ==> f(k) == k
  {
    if ks <= Image(f, ks) {
      forall k | k in ks ensures f(k) == k {
        var longest := Longest(ks);
        CoveredIsFixed(f, ks, k, |longest|);
      }
    }
    if forall k :: k in ks ==> f(k) == k {
      forall k | k in ks ensures k in Image(f, ks) {
        assert f(k) == k;
      }
    }
  }

  // ---------------------------------------------------------------- what it resolves

  ghost predicate AllSettled(h: seq<Entry>, norm: Norm) {
    forall i :: 0 <= i < |h| && h[i].status == Active ==> norm(h[i].key) == h[i].key
  }

  ghost predicate KeysNonBlank(h: seq<Entry>, norm: Norm) {
    forall i :: 0 <= i < |h| && h[i].status == Active ==> norm(h[i].key) != ""
  }

  lemma CarriedKey(e: Entry, keyOf: KeyOf, norm: Norm)
    requires Keying(keyOf, norm) && norm(e.key) != ""
    ensures ReportOf(Alert(e.key, e.level, e.code, e.message), keyOf) == Report(norm(e.key), e.level, e.code, e.message)
  {}

  lemma ActiveKeysSnoc(h: seq<Entry>, e: Entry)
    ensures ActiveKeys(h + [e]) == ActiveKeys(h) + if e.status == Active then {e.key} else {}
  {
    var all := h + [e];
    assert all[|h|] == e;
    assert forall j :: 0 <= j < |h| ==> all[j] == h[j];
  }

  lemma ImageSnoc(f: Norm, ks: set<string>, k: string)
    ensures Image(f, ks + {k}) == Image(f, ks) + {f(k)}
  {}

  lemma ReportsSnoc(s: seq<Alert>, a: Alert, keyOf: KeyOf)
    ensures Reports(s + [a], keyOf) == Reports(s, keyOf) + [ReportOf(a, keyOf)]
  {}

  lemma MonitorKeys(h: seq<Entry>, offline: Alert, keyOf: KeyOf, norm: Norm)
    requires Keying(keyOf, norm) && KeysNonBlank(h, norm) && offline.key !in ActiveKeys(h) && offline.key != ""
    requires norm(offline.key) == offline.key
    ensures KeySet(MonitorReports(h, offline, keyOf)) == Image(norm, ActiveKeys(h)) + {offline.key}
  {
    CarriedReports(h, offline.key, keyOf, norm);
    ActiveReportKeys(h, norm);
    ReportsSnoc(Carried(h, offline.key), offline, keyOf);
    KeySetSnoc(Reports(Carried(h, offline.key), keyOf), ReportOf(offline, keyOf));
  }

  lemma NothingMissingIff(h: seq<Entry>, offline: Alert, keyOf: KeyOf, norm: Norm)
    requires Keying(keyOf, norm) && KeysNonBlank(h, norm)
    requires offline.key !in ActiveKeys(h) && offline.key != "" && norm(offline.key) == offline.key
    ensures ActiveKeys(h) - KeySet(MonitorReports(h, offline, keyOf)) == {} <==> AllSettled(h, norm)
  {
    var active := ActiveKeys(h);
    MonitorKeys(h, offline, keyOf, norm);
    var missing := active - (Image(norm, active) + {offline.key});
    assert missing == {} <==> active <= Image(norm, active) by {
      assert forall k :: k in missing <==> k in active && k !in Image(norm, active);
      assert active <= Image(norm, active) <==> forall k :: k in active ==> k in Image(norm, active);
    }
    ImageCoversOnlyFixpoints(norm, active);
    SettledKeys(h, norm);
  }

  /** The monitor resolves nothing exactly when every active key is settled. */
  lemma MonitorResolvesNoneIff(h: seq<Entry>, offline: Alert, keyOf: KeyOf, norm: Norm, canon: Canon,
                               universe: Vocabulary, now: int, limit: nat)
    requires Keying(keyOf, norm) && UniqueKeys(h) && AliasFree(h, canon, universe) && KeysNonBlank(h, norm)
    requires offline.key !in ActiveKeys(h) && offline.key != "" && norm(offline.key) == offline.key
    requires KeySet(MonitorReports(h, offline, keyOf)) <= universe.Keys
    ensures NoticeKeys(Update(h, MonitorReports(h, offline, keyOf), canon, now, limit).resolvidos) == {}
            <==> AllSettled(h, norm)
  {
    ResolvedExact(h, MonitorReports(h, offline, keyOf), canon, universe, now, limit);
    NothingMissingIff(h, offline, keyOf, norm);
  }

  lemma SettledKeys(h: seq<Entry>, norm: Norm)
    ensures AllSettled(h, norm) <==> forall k :: k in ActiveKeys(h) ==> norm(k) == k
  {
    forall i | 0 <= i < |h| && h[i].status == Active ensures h[i].key in ActiveKeys(h) {}
  }

  // ---------------------------------------------------------------- what it announces

  ghost predicate FieldsFilled(h: seq<Entry>) {
    forall i :: 0 <= i < |h| ==> h[i].level != "" && h[i].code != "" && h[i].message != ""
  }

  // What the monitor feeds back for an active entry.
  function FedBack(e: Entry, norm: Norm): Report { Report(norm(e.key), e.level, e.code, e.message) }

  ghost function ActiveReports(h: seq<Entry>, norm: Norm): seq<Report> {
    if h == [] then []
    else
      var e, before := h[|h| - 1], ActiveReports(h[..|h| - 1], norm);
      if e.status == Active then before + [FedBack(e, norm)] else before
  }

  lemma {:induction false} CarriedReports(h: seq<Entry>, own: string, keyOf: KeyOf, norm: Norm)
    requires Keying(keyOf, norm) && KeysNonBlank(h, norm) && own !in ActiveKeys(h)
    ensures Reports(Carried(h, own), keyOf) == ActiveReports(h, norm)
  {
    if h != [] {
      var last := |h| - 1;
      var e := h[last];
      assert h == h[..last] + [e];
      ActiveKeysSnoc(h[..last], e);
      CarriedReports(h[..last], own, keyOf, norm);
      if e.status == Active {
        CarriedKey(e, keyOf, norm);
        ReportsSnoc(Carried(h[..last], own), Alert(e.key, e.level, e.code, e.message), keyOf);
      }
    }
  }

  ghost predicate FromActive(h: seq<Entry>, norm: Norm, r: Report) {
    exists j :: 0 <= j < |h| && h[j].status == Active && r == FedBack(h[j], norm)
  }

  lemma FromActiveSnoc(h: seq<Entry>, e: Entry, norm: Norm, r: Report)
    ensures FromActive(h + [e], norm, r) <==> FromActive(h, norm, r) || (e.status == Active && r == FedBack(e, norm))
  {
    var all := h + [e];
    assert all[|h|] == e;
    assert forall j :: 0 <= j < |h| ==> all[j] == h[j];
  }

  lemma {:induction false} ActiveReportsFrom(h: seq<Entry>, norm: Norm)
    ensures forall i :: 0 <= i < |ActiveReports(h, norm)| ==> FromActive(h, norm, ActiveReports(h, norm)[i])
  {
    if h != [] {
      var before, e := h[..|h| - 1], h[|h| - 1];
      assert h == before + [e];
      ActiveReportsFrom(before, norm);
      forall r { FromActiveSnoc(before, e, norm, r); }
    }
  }

  lemma {:induction false} ActiveReportKeys(h: seq<Entry>, norm: Norm)
    ensures KeySet(ActiveReports(h, norm)) == Image(norm, ActiveKeys(h))
  {
    if h != [] {
      var before, e := h[..|h| - 1], h[|h| - 1];
      assert h == before + [e];
      ActiveReportKeys(before, norm);
      ActiveKeysSnoc(before, e);
      if e.status == Active {
        KeySetSnoc(ActiveReports(before, norm), FedBack(e, norm));
        ImageSnoc(norm, ActiveKeys(before), e.key);
      } else {
        assert ActiveKeys(before) + {} == ActiveKeys(before);
      }
    }
  }

  // Deriving the keys again keeps them apart.
  ghost predicate Injective(norm: Norm, ks: set<string>) {
    forall j, k :: j in ks && k in ks && norm(j) == norm(k) ==> j == k
  }

  lemma NewKeyIsApart(before: seq<Entry>, e: Entry, norm: Norm)
    requires UniqueKeys(before + [e]) && e.status == Active && Injective(norm, ActiveKeys(before + [e]))
    ensures norm(e.key) !in KeySet(ActiveReports(before, norm))
  {
    ActiveReportKeys(before, norm);
    ActiveKeysSnoc(before, e);
    forall k | k in ActiveKeys(before) ensures k != e.key {
      var j :| 0 <= j < |before| && before[j].status == Active && before[j].key == k;
      assert (before + [e])[j].key != (before + [e])[|before|].key;
    }
  }

  lemma {:induction false} ActiveReportsDistinct(h: seq<Entry>, norm: Norm)
    requires UniqueKeys(h) && Injective(norm, ActiveKeys(h))
    ensures DistinctKeys(ActiveReports(h, norm))
  {
    if h != [] {
      var before, e := h[..|h| - 1], h[|h| - 1];
      assert h == before + [e];
      ActiveKeysSnoc(before, e);
      ActiveReportsDistinct(before, norm);
      if e.status == Active {
        NewKeyIsApart(before, e, norm);
        DistinctSnoc(ActiveReports(before, norm), FedBack(e, norm));
      }
    }
  }

  lemma DistinctSnoc(rs: seq<Report>, a: Report)
    requires DistinctKeys(rs) && a.key !in KeySet(rs)
    ensures DistinctKeys(rs + [a])
  {
    assert forall i :: 0 <= i < |rs| ==> rs[i].key in KeySet(rs);
  }

  // The key that the monitor derives from k may be stored: it is known, occurs with k's codes, and if it
  // differs from k it is no alias under any of them.
  ghost predicate Derivable(k: string, norm: Norm, canon: Canon, universe: Vocabulary) {
    && k in universe && norm(k) in universe && universe[k] <= universe[norm(k)]
    && (norm(k) != k ==>
          forall code, level, message :: code in universe[k] ==>
            NoAlias(norm(k), canon(code, level, message), universe))
  }

  lemma SettledIsDerivable(k: string, norm: Norm, canon: Canon, universe: Vocabulary)
    requires k in universe && norm(k) == k
    ensures Derivable(k, norm, canon, universe)
  {}

  lemma FedBackIsGood(h: seq<Entry>, j: nat, norm: Norm, canon: Canon, universe: Vocabulary)
    requires AliasFree(h, canon, universe) && Coded(h, universe) && FieldsFilled(h)
    requires j < |h| && Derivable(h[j].key, norm, canon, universe)
    ensures GoodReport(FedBack(h[j], norm), canon, universe)
  {
    var e := h[j];
    assert NoAlias(e.key, CanonOf(e, canon), universe) && e.code in universe[e.key];
  }

  lemma FedBackAreGood(h: seq<Entry>, last: map<string, string>, norm: Norm, canon: Canon, universe: Vocabulary, t: int)
    requires Sound(h, last, canon, universe, t) && FieldsFilled(h)
    requires forall k :: k in last ==> Derivable(k, norm, canon, universe)
    ensures GoodList(ActiveReports(h, norm), canon, universe)
  {
    var rs := ActiveReports(h, norm);
    ActiveReportsFrom(h, norm);
    forall i | 0 <= i < |rs| ensures GoodReport(rs[i], canon, universe) {
      assert FromActive(h, norm, rs[i]);
      var j :| 0 <= j < |h| && h[j].status == Active && rs[i] == FedBack(h[j], norm);
      FedBackIsGood(h, j, norm, canon, universe);
    }
  }

  lemma OwnReport(offline: Alert, keyOf: KeyOf, norm: Norm)
    requires Keying(keyOf, norm) && offline.key != "" && norm(offline.key) == offline.key
    ensures ReportOf(offline, keyOf).key == offline.key && ReportOf(offline, keyOf).level == offline.level
  {}

  // ---------------------------------------------------------------- the list it makes

  ghost function Origin(norm: Norm, ks: set<string>, d: string): (k: string)
    requires d in Image(norm, ks)
    ensures k in ks && norm(k) == d
  {
    var k :| k in ks && norm(k) == d;
    k
  }

  // The list with every key derived again, each at its level.
  ghost function Derived(last: map<string, string>, norm: Norm): map<string, string> {
    map d | d in Image(norm, last.Keys) :: last[Origin(norm, last.Keys, d)]
  }

  lemma DerivedAt(last: map<string, string>, norm: Norm, k: string)
    requires Injective(norm, last.Keys) && k in last
    ensures norm(k) in Derived(last, norm) && Derived(last, norm)[norm(k)] == last[k]
  {
    assert norm(k) in Image(norm, last.Keys);
    assert Origin(norm, last.Keys, norm(k)) == k;
  }

  lemma SettledIsDerived(last: map<string, string>, norm: Norm)
    requires forall k :: k in last ==> norm(k) == k
    ensures Derived(last, norm) == last && Injective(norm, last.Keys) && Image(norm, last.Keys) == last.Keys
  {
    forall k | k in last
      ensures k in Derived(last, norm) && Derived(last, norm)[k] == last[k]
    {
      DerivedAt(last, norm, k);
    }
  }

  lemma LevelOf(h: seq<Entry>, last: map<string, string>, norm: Norm, rs: seq<Report>, d: string)
    requires Tracks(h, last) && Injective(norm, last.Keys) && DistinctKeys(rs) && d in KeySet(rs)
    requires forall i :: 0 <= i < |rs| ==> FromActive(h, norm, rs[i])
    ensures d in Levels(rs) && d in Derived(last, norm) && Levels(rs)[d] == Derived(last, norm)[d]
  {
    var i :| 0 <= i < |rs| && rs[i].key == d;
    LevelsAt(rs, i);
    assert FromActive(h, norm, rs[i]);
    var j :| 0 <= j < |h| && h[j].status == Active && rs[i] == FedBack(h[j], norm);
    DerivedAt(last, norm, h[j].key);
  }

  lemma LevelsOfFedBack(h: seq<Entry>, last: map<string, string>, norm: Norm)
    requires UniqueKeys(h) && Tracks(h, last) && Injective(norm, last.Keys)
    ensures Levels(ActiveReports(h, norm)) == Derived(last, norm)
  {
    var rs := ActiveReports(h, norm);
    TracksKeys(h, last);
    ActiveReportsFrom(h, norm);
    ActiveReportsDistinct(h, norm);
    ActiveReportKeys(h, norm);
    forall d | d in KeySet(rs) { LevelOf(h, last, norm, rs, d); }
  }

  lemma TracksKeys(h: seq<Entry>, last: map<string, string>)
    requires Tracks(h, last)
    ensures ActiveKeys(h) == last.Keys
  {}

  lemma LevelsSnoc(rs: seq<Report>, a: Report)
    ensures Levels(rs + [a]) == Levels(rs)[a.key := a.level]
  {
    assert (rs + [a])[..|rs|] == rs;
  }

  // What the monitor asks of its own alert, and of the keys that are active when it acts: derived again
  // they stay apart from each other and from its own, and may be stored.
  ghost predicate GoodOwn(offline: Alert, keyOf: KeyOf, norm: Norm, canon: Canon, universe: Vocabulary) {
    offline.key != "" && norm(offline.key) == offline.key && GoodReport(ReportOf(offline, keyOf), canon, universe)
  }

  ghost predicate GoodActive(ks: set<string>, own: string, norm: Norm, canon: Canon, universe: Vocabulary) {
    Injective(norm, ks) && forall k :: k in ks ==> norm(k) != own && Derivable(k, norm, canon, universe)
  }

  // The list as the monitor makes it, and its keys.
  lemma MonitorList(h: seq<Entry>, last: map<string, string>, offline: Alert, keyOf: KeyOf, norm: Norm)
    requires Keying(keyOf, norm) && Tracks(h, last) && KeysNonBlank(h, norm) && offline.key !in last
    requires offline.key != "" && norm(offline.key) == offline.key
    ensures var rs := MonitorReports(h, offline, keyOf);
            && rs == ActiveReports(h, norm) + [ReportOf(offline, keyOf)]
            && KeySet(ActiveReports(h, norm)) == Image(norm, last.Keys)
            && KeySet(rs) == Image(norm, last.Keys) + {offline.key}
  {
    TracksKeys(h, last);
    CarriedReports(h, offline.key, keyOf, norm);
    ReportsSnoc(Carried(h, offline.key), offline, keyOf);
    ActiveReportKeys(h, norm);
    MonitorKeys(h, offline, keyOf, norm);
  }

  lemma CarriedAreDistinct(h: seq<Entry>, last: map<string, string>, norm: Norm)
    requires UniqueKeys(h) && Tracks(h, last) && Injective(norm, last.Keys)
    ensures DistinctKeys(ActiveReports(h, norm)) && |ActiveReports(h, norm)| == |last.Keys|
  {
    TracksKeys(h, last);
    ActiveReportsDistinct(h, norm);
    ActiveReportKeys(h, norm);
    KeySetSize(ActiveReports(h, norm));
    ImageSize(norm, last.Keys);
  }

  lemma MonitorListIsGood(h: seq<Entry>, last: map<string, string>, offline: Alert, own: Report, norm: Norm,
                          canon: Canon, universe: Vocabulary, t: int)
    requires Sound(h, last, canon, universe, t) && FieldsFilled(h)
    requires own.key == offline.key && GoodReport(own, canon, universe)
    requires GoodActive(last.Keys, offline.key, norm, canon, universe)
    requires KeySet(ActiveReports(h, norm)) == Image(norm, last.Keys)
    ensures var rs := ActiveReports(h, norm) + [own];
            GoodList(rs, canon, universe) && DistinctKeys(rs) && |rs| == |last.Keys| + 1
  {
    CarriedAreDistinct(h, last, norm);
    FedBackAreGood(h, last, norm, canon, universe, t);
    DistinctSnoc(ActiveReports(h, norm), own);
  }

  lemma {:induction false} ImageSize(norm: Norm, ks: set<string>)
    requires Injective(norm, ks)
    ensures |Image(norm, ks)| == |ks|
  {
    if ks != {} {
      var k :| k in ks;
      ImageSize(norm, ks - {k});
      assert ks == (ks - {k}) + {k};
      ImageSnoc(norm, ks - {k}, k);
    } else {
      assert Image(norm, ks) == {};
    }
  }

  // ---------------------------------------------------------------- what it notifies

  // A derived key that is announced: unknown before, or at a worse level.
  ghost predicate Resurfaces(last: map<string, string>, norm: Norm, k: string)
    requires k in last
  {
    norm(k) !in last || Worse(last[k], last[norm(k)])
  }

  ghost function Announced(last: map<string, string>, norm: Norm, offline: Alert): set<(string, string)> {
    (set k | k in last && Resurfaces(last, norm, k) :: (norm(k), last[k])) + {(offline.key, offline.level)}
  }

  // These pairs are notified, each once.
  ghost predicate Notifies(ns: seq<Notice>, pairs: set<(string, string)>) {
    DistinctNotices(ns) && forall p :: p in Pairs(ns) <==> p in pairs
  }

  lemma ResurfacesIsNew(h: seq<Entry>, last: map<string, string>, offline: Alert, norm: Norm, p: (string, string))
    requires Tracks(h, last)
    ensures NewIn(last, ActiveReports(h, norm), p) ==> p in Announced(last, norm, offline)
    ensures (exists k :: k in last && Resurfaces(last, norm, k) && p == (norm(k), last[k])) ==>
            NewIn(last, ActiveReports(h, norm), p)
  {
    var rs := ActiveReports(h, norm);
    if i :| IsNewAt(last, rs, i, p) {
      ActiveReportsFrom(h, norm);
      assert FromActive(h, norm, rs[i]);
      var j :| 0 <= j < |h| && h[j].status == Active && rs[i] == FedBack(h[j], norm);
      assert Resurfaces(last, norm, h[j].key);
    }
    if k :| k in last && Resurfaces(last, norm, k) && p == (norm(k), last[k]) {
      var i := ActiveReportOf(h, last, norm, k);
      assert IsNewAt(last, rs, i, p);
    }
  }

  // A report of the monitor's list that is new: a key that resurfaces, or the monitor's own.
  lemma NewInMonitorList(h: seq<Entry>, last: map<string, string>, offline: Alert, own: Report, norm: Norm,
                         p: (string, string))
    requires Tracks(h, last) && own.key == offline.key && own.level == offline.level && own.key !in last
    ensures NewIn(last, ActiveReports(h, norm) + [own], p) <==> p in Announced(last, norm, offline)
  {
    ResurfacesIsNew(h, last, offline, norm, p);
    NewInSnoc(last, ActiveReports(h, norm), own, p);
  }

  lemma ActiveReportOf(h: seq<Entry>, last: map<string, string>, norm: Norm, k: string) returns (i: nat)
    requires Tracks(h, last) && k in last
    ensures i < |ActiveReports(h, norm)|
    ensures ActiveReports(h, norm)[i].key == norm(k) && ActiveReports(h, norm)[i].level == last[k]
  {
    assert HasActive(h, k);
    var j :| 0 <= j < |h| && h[j].key == k && h[j].status == Active;
    i := FedBackAt(h, norm, j);
  }

  lemma {:induction false} FedBackAt(h: seq<Entry>, norm: Norm, j: nat) returns (i: nat)
    requires j < |h| && h[j].status == Active
    ensures i < |ActiveReports(h, norm)| && ActiveReports(h, norm)[i] == FedBack(h[j], norm)
  {
    var before := h[..|h| - 1];
    if j == |h| - 1 { i := |ActiveReports(before, norm)|; } else { i := FedBackAt(before, norm, j); }
  }

  lemma MonitorLevels(h: seq<Entry>, last: map<string, string>, offline: Alert, own: Report, norm: Norm)
    requires UniqueKeys(h) && Tracks(h, last) && Injective(norm, last.Keys)
    requires own.key == offline.key && own.level == offline.level
    ensures Levels(ActiveReports(h, norm) + [own]) == Derived(last, norm)[offline.key := offline.level]
  {
    LevelsOfFedBack(h, last, norm);
    LevelsSnoc(ActiveReports(h, norm), own);
  }

  lemma MonitorIsHeartbeat(h: seq<Entry>, last: map<string, string>, rs: seq<Report>, now: int, offline: Alert,
                           own: Report, norm: Norm, canon: Canon, universe: Vocabulary, t: int, limit: nat)
    requires Sound(h, last, canon, universe, t) && Injective(norm, last.Keys) && t < now && |rs| <= limit
    requires own.key == offline.key && own.level == offline.level && own.key !in last
    requires rs == ActiveReports(h, norm) + [own] && GoodList(rs, canon, universe) && DistinctKeys(rs)
    ensures var o := Update(h, rs, canon, now, limit);
            && Notifies(o.novos, Announced(last, norm, offline)) && NoticeKeys(o.resolvidos) == last.Keys - KeySet(rs)
            && Sound(o.history, Derived(last, norm)[offline.key := offline.level], canon, universe, now)
  {
    HeartbeatRefinesDiff(h, last, rs, canon, universe, t, now, limit);
    MonitorLevels(h, last, offline, own, norm);
    MonitorNotifies(h, last, offline, own, norm, rs, Update(h, rs, canon, now, limit).novos);
  }

  /** With the heartbeat overdue, the monitor's check is a heartbeat whose list is the active alerts under
      their derived keys and the communication alert: it announces exactly the keys that resurface and its
      own, and leaves a history in step with that list, which the next heartbeat or check can rely on. */
  lemma MonitorFeedsBack(h: seq<Entry>, last: map<string, string>, now: int, offline: Alert, keyOf: KeyOf,
                         norm: Norm, canon: Canon, universe: Vocabulary, t: int, limit: nat)
    requires Keying(keyOf, norm) && Sound(h, last, canon, universe, t) && FieldsFilled(h) && KeysNonBlank(h, norm)
    requires offline.key !in last && GoodOwn(offline, keyOf, norm, canon, universe)
    requires GoodActive(last.Keys, offline.key, norm, canon, universe)
    requires t < now && |last.Keys| < limit
    ensures var o := Update(h, MonitorReports(h, offline, keyOf), canon, now, limit);
            && Notifies(o.novos, Announced(last, norm, offline))
            && NoticeKeys(o.resolvidos) == last.Keys - (Image(norm, last.Keys) + {offline.key})
            && Sound(o.history, Derived(last, norm)[offline.key := offline.level], canon, universe, now)
  {
    MonitorList(h, last, offline, keyOf, norm);
    OwnReport(offline, keyOf, norm);
    MonitorListIsGood(h, last, offline, ReportOf(offline, keyOf), norm, canon, universe, t);
    MonitorIsHeartbeat(h, last, MonitorReports(h, offline, keyOf), now, offline, ReportOf(offline, keyOf), norm, canon,
                       universe, t, limit);
  }

  lemma MonitorNotifies(h: seq<Entry>, last: map<string, string>, offline: Alert, own: Report, norm: Norm,
                        rs: seq<Report>, ns: seq<Notice>)
    requires Tracks(h, last) && own.key == offline.key && own.level == offline.level && own.key !in last
    requires rs == ActiveReports(h, norm) + [own] && DistinctKeys(rs) && Pairs(ns) == NewPairs(last, rs)
    ensures Notifies(ns, Announced(last, norm, offline))
  {
    NewPairsDistinct(last, rs);
    PairsDistinct(ns);
    forall p ensures p in Pairs(ns) <==> p in Announced(last, norm, offline) {
      NewPairsAre(last, rs, p);
      NewInMonitorList(h, last, offline, own, norm, p);
    }
  }

  lemma {:induction false} NoticesFit(ns: seq<Notice>, keys: set<string>)
    requires DistinctNotices(ns) && forall i :: 0 <= i < |ns| ==> ns[i].key in keys
    ensures |ns| <= |keys|
  {
    if ns != [] {
      var last := |ns| - 1;
      NoticesFit(ns[..last], keys - {ns[last].key});
    }
  }

  lemma OneNotice(ns: seq<Notice>, pair: (string, string))
    requires Notifies(ns, {pair})
    ensures Pairs(ns) == [pair]
  {
    var ps := Pairs(ns);
    assert pair in ps;
    forall i | 0 <= i < |ps| ensures ps[i] == pair { assert ps[i] in ps; }
    forall i | 0 <= i < |ns| ensures ns[i].key in {pair.0} { assert ps[i].0 == ns[i].key; }
    NoticesFit(ns, {pair.0});
  }

  // With settled keys nothing resurfaces.
  lemma SettledAnnounced(last: map<string, string>, norm: Norm, offline: Alert)
    requires forall k :: k in last ==> norm(k) == k
    ensures Announced(last, norm, offline) == {(offline.key, offline.level)}
  {}

  /** In particular, when every active key is settled, it announces the communication alert and nothing
      else, resolves nothing, keeps every alert active at its level and adds its own. */
  lemma MonitorAddsOneResolvesNone(h: seq<Entry>, last: map<string, string>, now: int, offline: Alert,
                                   keyOf: KeyOf, norm: Norm, canon: Canon, universe: Vocabulary, t: int, limit: nat)
    requires Keying(keyOf, norm) && Sound(h, last, canon, universe, t) && FieldsFilled(h)
    requires AllSettled(h, norm) && KeysNonBlank(h, norm)
    requires offline.key !in last && GoodOwn(offline, keyOf, norm, canon, universe)
    requires last.Keys <= universe.Keys && t < now && |last.Keys| < limit
    ensures var o := Update(h, MonitorReports(h, offline, keyOf), canon, now, limit);
            && Pairs(o.novos) == [(offline.key, offline.level)] && NoticeKeys(o.resolvidos) == {}
            && Sound(o.history, last[offline.key := offline.level], canon, universe, now)
  {
    TracksKeys(h, last);
    SettledKeys(h, norm);
    SettledIsDerived(last, norm);
    SettledAnnounced(last, norm, offline);
    forall k | k in last { SettledIsDerivable(k, norm, canon, universe); }
    MonitorFeedsBack(h, last, now, offline, keyOf, norm, canon, universe, t, limit);
    OneNotice(Update(h, MonitorReports(h, offline, keyOf), canon, now, limit).novos, (offline.key, offline.level));
  }

  lemma KnownIffActive(h: seq<Entry>, last: map<string, string>, k: string)
    requires Tracks(h, last)
    ensures Known(h, k) <==> k in last
  {
    if k in last {
      assert HasActive(h, k);
    }
  }

  // ---------------------------------------------------------------- when it acts

  // A report of a problem that is not active is announced, whatever precedes it in the list.
  lemma {:induction false} InactiveIsAnnounced(h: seq<Entry>, rs: seq<Report>, k: string, canon: Canon,
                                               universe: Vocabulary, now: int)
    requires UniqueKeys(h) && AliasFree(h, canon, universe) && KeySet(rs) <= universe.Keys
    requires k in KeySet(rs) && k !in ActiveKeys(h)
    ensures AbsorbAll(h, rs, Index(h, canon), now).novos != []
  {
    var n := |rs| - 1;
    var a, done := rs[n], rs[..n];
    assert rs == done + [a];
    KeySetSnoc(done, a);
    if k in KeySet(done) {
      InactiveIsAnnounced(h, done, k, canon, universe, now);
    } else {
      AbsorbFrames(h, done, canon, universe, now);
      IndexExact(h, canon, universe, k);
    }
  }

  /** The monitor acts only on an overdue heartbeat, a known silence is not announced again, and an
      unknown one always is, also when other keys change on the way through. */
  lemma MonitorActsIff(h: seq<Entry>, heardAt: Option<int>, now: int, threshold: int, offline: Alert, keyOf: KeyOf,
                       canon: Canon, universe: Vocabulary, limit: nat)
    requires UniqueKeys(h) && AliasFree(h, canon, universe)
    requires KeySet(MonitorReports(h, offline, keyOf)) <= universe.Keys
    requires keyOf(offline) == offline.key
    ensures UpdateConnectivity(h, heardAt, now, threshold, offline, keyOf, canon, limit).changed <==>
            heardAt.Some? && (now - heardAt.value) / 1000 > threshold && offline.key !in ActiveKeys(h)
  {
    var rs := MonitorReports(h, offline, keyOf);
    ReportsSnoc(Carried(h, offline.key), offline, keyOf);
    KeySetSnoc(Reports(Carried(h, offline.key), keyOf), ReportOf(offline, keyOf));
    if offline.key !in ActiveKeys(h) { InactiveIsAnnounced(h, rs, offline.key, canon, universe, now); }
  }

  // ---------------------------------------------------------------- every entry has its fields

  lemma {:induction false} AbsorbFills(h: seq<Entry>, rs: seq<Report>, idx: map<string, nat>, now: int)
    requires FieldsFilled(h) && forall k :: k in idx ==> idx[k] < |h|
    ensures FieldsFilled(AbsorbAll(h, rs, idx, now).history)
  {
    if rs != [] {
      AbsorbFills(h, rs[..|rs| - 1], idx, now);
    }
  }

  lemma SortFills(s: seq<Entry>)
    requires FieldsFilled(s)
    ensures FieldsFilled(SortByRecency(s))
  {
    var r := SortByRecency(s);
    SortFacts(s);
    forall i | 0 <= i < |r| ensures r[i].level != "" && r[i].code != "" && r[i].message != "" {
      assert r[i] in s;
    }
  }

  lemma UpdateFills(h: seq<Entry>, rs: seq<Report>, canon: Canon, now: int, limit: nat)
    requires FieldsFilled(h)
    ensures FieldsFilled(Update(h, rs, canon, now, limit).history)
  {
    AbsorbFills(h, rs, Index(h, canon), now);
    SortFills(SettleAll(Merged(h, rs, canon, now).history, KeySet(rs), now));
  }
}
