/** The candidate merge and the window split in `main` of scripts/build-motion-review.py.
    Candidates are Python dictionaries with a mutable `engines` set, so they are objects here. */
module ReviewWindows {
  import opened Basics

  const MERGE_GAP_FRAMES := 4
  const REVIEW_WINDOW_FRAMES := 60

  class EngineSet {
    var elems: set<string>

    constructor (elems: set<string>)
      ensures this.elems == elems
    {
      this.elems := elems;
    }
  }

  class Candidate {
    var start: int
    var end: int
    var semantic: bool
    var engines: EngineSet

    constructor (start: int, end: int, semantic: bool, engines: EngineSet)
      ensures this.start == start && this.end == end && this.semantic == semantic && this.engines == engines
    {
      this.start, this.end, this.semantic, this.engines := start, end, semantic, engines;
    }
  }

  // The value of a candidate, of a merged interval or of a window.
  datatype Interval = Interval(start: int, end: int, semantic: bool, engines: set<string>)

  ghost function Val(c: Candidate): Interval
    reads c, c.engines
  {
    Interval(c.start, c.end, c.semantic, c.engines.elems)
  }

  // The objects cs hold the values vs.
  ghost predicate Shows(cs: seq<Candidate>, vs: seq<Interval>)
    reads *
  {
    |cs| == |vs| && forall i :: 0 <= i < |cs| ==> Val(cs[i]) == vs[i]
  }

  // ---------------------------------------------------------------- sorting

  // By start, and by end where the starts are equal.
  ghost predicate Before(a: Interval, b: Interval) { a.start < b.start || (a.start == b.start && a.end <= b.end) }

  ghost predicate InOrder(vs: seq<Interval>) { forall i, j :: 0 <= i < j < |vs| ==> Before(vs[i], vs[j]) }

  function InsertAt<T>(s: seq<T>, at: nat, x: T): seq<T>
    requires at <= |s|
  {
    s[..at] + [x] + s[at..]
  }

  // Inserting a value after everything that is not behind it.
  lemma InsertInOrder(vs: seq<Interval>, at: nat, v: Interval)
    requires at <= |vs| && InOrder(vs) && (at > 0 ==> Before(vs[at - 1], v))
    requires forall i :: at <= i < |vs| ==> !Before(vs[i], v)
    ensures InOrder(InsertAt(vs, at, v))
  {
    assert forall i :: 0 <= i < at - 1 ==> Before(vs[i], vs[at - 1]);
  }

  lemma MultisetInsert<T>(s: seq<T>, at: nat, x: T)
    requires at <= |s|
    ensures multiset(InsertAt(s, at, x)) == multiset(s) + multiset{x}
  {
    assert s == s[..at] + s[at..];
  }

  lemma ShowsInsert(s: seq<Candidate>, ws: seq<Interval>, at: nat, c: Candidate)
    requires Shows(s, ws) && at <= |s|
    ensures Shows(InsertAt(s, at, c), InsertAt(ws, at, Val(c)))
  {
    var t, us := InsertAt(s, at, c), InsertAt(ws, at, Val(c));
    forall i | 0 <= i < |t| ensures Val(t[i]) == us[i] {
      if i < at {
        assert t[i] == s[i] && us[i] == ws[i];
      } else if i > at {
        assert t[i] == s[i - 1] && us[i] == ws[i - 1];
      }
    }
  }

  // The place of a candidate in a list that is already in order.
  method PlaceOf(sorted: seq<Candidate>, ghost ws: seq<Interval>, c: Candidate) returns (at: nat)
    requires Shows(sorted, ws)
    ensures at <= |sorted| && (at > 0 ==> Before(ws[at - 1], Val(c)))
    ensures forall i :: at <= i < |sorted| ==> !Before(ws[i], Val(c))
  {
    at := |sorted|;
    while at > 0 && (sorted[at - 1].start > c.start || (sorted[at - 1].start == c.start && sorted[at - 1].end > c.end))
      invariant at <= |sorted|
      invariant forall i :: at <= i < |sorted| ==> !Before(ws[i], Val(c))
    {
      assert Val(sorted[at - 1]) == ws[at - 1];
      at := at - 1;
    }
    assert at > 0 ==> Val(sorted[at - 1]) == ws[at - 1];
  }

  ghost predicate Orders(sorted: seq<Candidate>, ws: seq<Interval>, cs: seq<Candidate>, vs: seq<Interval>) {
    InOrder(ws) && multiset(ws) == multiset(vs) && multiset(sorted) == multiset(cs)
  }

  lemma OrdersOneMore(sorted: seq<Candidate>, ws: seq<Interval>, cs: seq<Candidate>, vs: seq<Interval>,
                      at: nat, c: Candidate, v: Interval)
    requires Orders(sorted, ws, cs, vs) && at <= |ws| == |sorted| && (at > 0 ==> Before(ws[at - 1], v))
    requires forall i :: at <= i < |ws| ==> !Before(ws[i], v)
    ensures Orders(InsertAt(sorted, at, c), InsertAt(ws, at, v), cs + [c], vs + [v])
  {
    InsertInOrder(ws, at, v);
    MultisetInsert(ws, at, v);
    MultisetInsert(sorted, at, c);
  }

  method SortCandidates(cs: seq<Candidate>, ghost vs: seq<Interval>)
    returns (sorted: seq<Candidate>, ghost ws: seq<Interval>)
    requires Shows(cs, vs)
    ensures Shows(sorted, ws) && InOrder(ws)
    ensures multiset(ws) == multiset(vs) && multiset(sorted) == multiset(cs)
  {
    sorted, ws := [], [];
    for n := 0 to |cs|
      invariant Shows(sorted, ws) && Orders(sorted, ws, cs[..n], vs[..n])
    {
      var c := cs[n];
      var at := PlaceOf(sorted, ws, c);
      assert vs[..n + 1] == vs[..n] + [vs[n]] && cs[..n + 1] == cs[..n] + [c];
      OrdersOneMore(sorted, ws, cs[..n], vs[..n], at, c, vs[n]);
      ShowsInsert(sorted, ws, at, c);
      sorted, ws := InsertAt(sorted, at, c), InsertAt(ws, at, vs[n]);
    }
    assert vs[..|vs|] == vs && cs[..|cs|] == cs;
  }

  // ---------------------------------------------------------------- merging

  function Join(m: Interval, c: Interval): Interval {
    Interval(m.start, Max(m.end, c.end), m.semantic || c.semantic, m.engines + c.engines)
  }

  predicate Near(m: Interval, c: Interval) { c.start <= m.end + MERGE_GAP_FRAMES }

  function Merge(vs: seq<Interval>): (m: seq<Interval>)
    ensures vs != [] ==> m != []
  {
    if vs == [] then []
    else
      var c, m := vs[|vs| - 1], Merge(vs[..|vs| - 1]);
      if m != [] && Near(m[|m| - 1], c) then m[|m| - 1 := Join(m[|m| - 1], c)] else m + [c]
  }

  // No object and no set is shared, within the list or with another one.
  ghost predicate Unshared(ms: seq<Candidate>)
    reads *
  {
    forall i, j :: 0 <= i < j < |ms| ==> ms[i] != ms[j] && ms[i].engines != ms[j].engines
  }

  ghost predicate Apart(ms: seq<Candidate>, cs: seq<Candidate>)
    reads *
  {
    forall i, j :: 0 <= i < |ms| && 0 <= j < |cs| ==> ms[i] != cs[j] && ms[i].engines != cs[j].engines
  }

  // merged[-1] absorbs cs[n] in place; nothing else that is shown changes.
  method JoinLast(merged: seq<Candidate>, ghost ms: seq<Interval>, cs: seq<Candidate>, ghost vs: seq<Interval>, n: nat)
    requires merged != [] && n < |cs| && Unshared(merged) && Apart(merged, cs) && Shows(merged, ms) && Shows(cs, vs)
    modifies merged[|merged| - 1], merged[|merged| - 1].engines
    ensures forall i :: 0 <= i < |merged| ==> merged[i].engines == old(merged[i].engines)
    ensures Shows(merged, ms[|merged| - 1 := Join(ms[|merged| - 1], vs[n])]) && Shows(cs, vs)
  {
    var last, candidate := merged[|merged| - 1], cs[n];
    assert Val(last) == ms[|merged| - 1] && Val(candidate) == vs[n];
    last.end := Max(last.end, candidate.end);
    last.semantic := last.semantic || candidate.semantic;
    last.engines.elems := last.engines.elems + candidate.engines.elems;
    forall i | 0 <= i < |cs| ensures Val(cs[i]) == vs[i] {
      assert old(Val(cs[i])) == vs[i];
    }
    forall i | 0 <= i < |merged| - 1 ensures Val(merged[i]) == ms[i] {
      assert old(Val(merged[i])) == ms[i];
    }
  }

  // A copy of cs[n], with a set of its own, goes to the end.
  method AppendCopy(merged: seq<Candidate>, ghost ms: seq<Interval>, cs: seq<Candidate>, ghost vs: seq<Interval>,
                    n: nat)
    returns (longer: seq<Candidate>)
    requires n < |cs| && Unshared(merged) && Apart(merged, cs) && Shows(merged, ms) && Shows(cs, vs)
    ensures |longer| == |merged| + 1 && longer[..|merged|] == merged
    ensures fresh(longer[|merged|]) && fresh(longer[|merged|].engines)
    ensures Unshared(longer) && Apart(longer, cs) && Shows(longer, ms + [vs[n]]) && Shows(cs, vs)
  {
    assert Val(cs[n]) == vs[n];
    var engines := new EngineSet(cs[n].engines.elems);
    var copy := new Candidate(cs[n].start, cs[n].end, cs[n].semantic, engines);
    longer := merged + [copy];
  }

  /** Without a modifies clause: joining works in place, but only on objects made here, so the
      source candidates and their sets are left as they were. */
  method MergeCandidates(sorted: seq<Candidate>, ghost vs: seq<Interval>) returns (merged: seq<Candidate>)
    requires Shows(sorted, vs)
    ensures forall i :: 0 <= i < |merged| ==> fresh(merged[i]) && fresh(merged[i].engines)
    ensures Shows(merged, Merge(vs)) && Shows(sorted, vs) && Unshared(merged)
  {
    merged := [];
    ghost var ms: seq<Interval> := [];
    for n := 0 to |sorted|
      invariant forall i :: 0 <= i < |merged| ==> fresh(merged[i]) && fresh(merged[i].engines)
      invariant Unshared(merged) && Apart(merged, sorted)
      invariant Shows(sorted, vs) && Shows(merged, ms) && ms == Merge(vs[..n])
    {
      assert vs[..n + 1][..n] == vs[..n];
      assert Val(sorted[n]) == vs[n];
      if merged != [] && sorted[n].start <= merged[|merged| - 1].end + MERGE_GAP_FRAMES {
        assert Val(merged[|merged| - 1]) == ms[|merged| - 1];
        JoinLast(merged, ms, sorted, vs, n);
        ms := ms[|merged| - 1 := Join(ms[|merged| - 1], vs[n])];
      } else {
        assert merged != [] ==> Val(merged[|merged| - 1]) == ms[|merged| - 1];
        merged := AppendCopy(merged, ms, sorted, vs, n);
        ms := ms + [vs[n]];
      }
    }
    assert vs[..|vs|] == vs;
  }

  // ---------------------------------------------------------------- windows

  predicate Overlaps(c: Interval, from: int, to: int) { c.start <= to && c.end >= from }

  function EnginesIn(cs: seq<Interval>, from: int, to: int): set<string> {
    set i, e | 0 <= i < |cs| && Overlaps(cs[i], from, to) && e in cs[i].engines :: e
  }

  predicate SemanticIn(cs: seq<Interval>, from: int, to: int) {
    exists i :: 0 <= i < |cs| && Overlaps(cs[i], from, to) && cs[i].semantic
  }

  function Window(cs: seq<Interval>, from: int, to: int): Interval {
    Interval(from, to, SemanticIn(cs, from, to), EnginesIn(cs, from, to))
  }

  // The windows of an interval, by arithmetic: the k-th starts 60*k frames in.
  function WindowCount(i: Interval): nat {
    if i.start > i.end then 0 else (i.end - i.start) / REVIEW_WINDOW_FRAMES + 1
  }

  function NthWindow(cs: seq<Interval>, i: Interval, k: nat): Interval {
    var from := i.start + REVIEW_WINDOW_FRAMES * k;
    Window(cs, from, Min(i.end, from + REVIEW_WINDOW_FRAMES - 1))
  }

  function WindowsOf(cs: seq<Interval>, i: Interval): (ws: seq<Interval>)
    ensures |ws| == WindowCount(i)
  {
    seq(WindowCount(i), k requires 0 <= k < WindowCount(i) => NthWindow(cs, i, k))
  }

  method SplitInterval(cs: seq<Interval>, interval: Interval) returns (windows: seq<Interval>)
    ensures windows == WindowsOf(cs, interval)
  {
    windows := [];
    var windowStart := interval.start;
    while windowStart <= interval.end
      invariant |windows| <= WindowCount(interval)
      invariant windowStart <= interval.end ==>
                windowStart == interval.start + REVIEW_WINDOW_FRAMES * |windows| && |windows| < WindowCount(interval)
      invariant windowStart > interval.end ==> |windows| == WindowCount(interval)
      invariant forall k :: 0 <= k < |windows| ==> windows[k] == NthWindow(cs, interval, k)
      decreases interval.end - windowStart
    {
      var windowEnd := Min(interval.end, windowStart + REVIEW_WINDOW_FRAMES - 1);
      windows := windows + [Window(cs, windowStart, windowEnd)];
      windowStart := windowEnd + 1;
    }
  }

  function AllWindows(cs: seq<Interval>, merged: seq<Interval>): seq<Interval> {
    if merged == [] then []
    else AllWindows(cs, merged[..|merged| - 1]) + WindowsOf(cs, merged[|merged| - 1])
  }

  // The windows of the candidates, for some way to put them in order.
  ghost predicate AreWindows(vs: seq<Interval>, windows: seq<Interval>) { exists ws :: AreWindowsOf(vs, ws, windows) }

  ghost predicate AreWindowsOf(vs: seq<Interval>, ws: seq<Interval>, windows: seq<Interval>) {
    InOrder(ws) && multiset(ws) == multiset(vs) && windows == AllWindows(vs, Merge(ws))
  }

  /** The whole of it: sort, merge in place, split.  No source object changes. */
  method Review(candidates: seq<Candidate>, ghost vs: seq<Interval>) returns (windows: seq<Interval>)
    requires Shows(candidates, vs)
    ensures AreWindows(vs, windows) && Shows(candidates, vs)
  {
    var sorted;
    ghost var ws;
    sorted, ws := SortCandidates(candidates, vs);
    var merged := MergeCandidates(sorted, ws);
    var source := ReadAll(candidates, vs);
    var intervals := ReadAll(merged, Merge(ws));
    windows := [];
    for n := 0 to |intervals|
      invariant windows == AllWindows(source, intervals[..n])
    {
      assert intervals[..n + 1][..n] == intervals[..n];
      var piece := SplitInterval(source, intervals[n]);
      windows := windows + piece;
    }
    assert intervals[..|intervals|] == intervals;
    assert AreWindowsOf(vs, ws, windows);
  }

  method ReadAll(cs: seq<Candidate>, ghost expected: seq<Interval>) returns (vs: seq<Interval>)
    requires Shows(cs, expected)
    ensures vs == expected
  {
    vs := [];
    for i := 0 to |cs|
      invariant vs == expected[..i]
    {
      assert Val(cs[i]) == expected[i];
      vs := vs + [Interval(cs[i].start, cs[i].end, cs[i].semantic, cs[i].engines.elems)];
    }
  }

  // ---------------------------------------------------------------- what merging guarantees

  ghost predicate WellFormed(vs: seq<Interval>) { forall i :: 0 <= i < |vs| ==> vs[i].start <= vs[i].end }

  predicate Within(c: Interval, m: Interval) { m.start <= c.start && c.end <= m.end }

  ghost predicate Separated(ms: seq<Interval>) {
    forall j, k :: 0 <= j < k < |ms| ==> ms[j].end + MERGE_GAP_FRAMES < ms[k].start
  }

  // The starts of a merge ascend, and each is that of a candidate.
  lemma {:induction false} StartsAscend(vs: seq<Interval>)
    requires InOrder(vs)
    ensures forall j, k :: 0 <= j <= k < |Merge(vs)| ==> Merge(vs)[j].start <= Merge(vs)[k].start
    ensures vs != [] ==> Merge(vs)[|Merge(vs)| - 1].start <= vs[|vs| - 1].start
  {
    if vs != [] {
      var n := |vs| - 1;
      StartsAscend(vs[..n]);
      if n > 0 { assert Before(vs[n - 1], vs[n]); }
    }
  }

  /** Merged intervals are in order and more than MERGE_GAP_FRAMES apart, also when some candidate
      ends before it starts; they are nonempty if no candidate does. */
  lemma {:induction false} MergedAreSeparated(vs: seq<Interval>)
    requires InOrder(vs)
    ensures Separated(Merge(vs)) && (WellFormed(vs) ==> WellFormed(Merge(vs)))
  {
    if vs != [] {
      var n := |vs| - 1;
      var m := Merge(vs[..n]);
      MergedAreSeparated(vs[..n]);
      StartsAscend(vs[..n]);
      StartsAscend(vs);
    }
  }

  lemma {:induction false} MergeGrows(vs: seq<Interval>, i: nat)
    requires i <= |vs|
    ensures |Merge(vs[..i])| <= |Merge(vs)|
  {
    if i == |vs| {
      assert vs[..i] == vs;
    } else {
      MergeGrows(vs[..|vs| - 1], i);
      assert vs[..|vs| - 1][..i] == vs[..i];
    }
  }

  // The merged interval that candidate i went into: the last one when its turn came.
  function GroupOf(vs: seq<Interval>, i: nat): (k: nat)
    requires i < |vs|
    ensures k < |Merge(vs)|
  {
    MergeGrows(vs, i + 1);
    assert vs[..i + 1] != [];
    |Merge(vs[..i + 1])| - 1
  }

  // Interval m of the merge accounts for candidate c.
  predicate Accounts(m: Interval, c: Interval) {
    Within(c, m) && c.engines <= m.engines && (c.semantic ==> m.semantic)
  }

  /** Every candidate lies in the merged interval it went into, which lists its engines and its origin. */
  lemma {:induction false} MergeCovers(vs: seq<Interval>, i: nat)
    requires InOrder(vs) && i < |vs|
    ensures Accounts(Merge(vs)[GroupOf(vs, i)], vs[i])
  {
    var n := |vs| - 1;
    var m := Merge(vs[..n]);
    if i < n {
      MergeCovers(vs[..n], i);
      assert vs[..n][..i + 1] == vs[..i + 1];
    } else {
      assert vs[..n + 1] == vs;
      StartsAscend(vs);
    }
  }

  // Some candidate that went into interval k brings this engine.
  ghost predicate BroughtInto(vs: seq<Interval>, k: int, e: string) {
    exists i :: 0 <= i < |vs| && GroupOf(vs, i) == k && e in vs[i].engines
  }

  lemma BroughtLater(vs: seq<Interval>, v: Interval, k: int, e: string)
    requires BroughtInto(vs, k, e)
    ensures BroughtInto(vs + [v], k, e)
  {
    var i :| 0 <= i < |vs| && GroupOf(vs, i) == k && e in vs[i].engines;
    assert (vs + [v])[..i + 1] == vs[..i + 1];
    assert GroupOf(vs + [v], i) == k;
  }

  /** No merged interval lists an engine that no candidate of it brought. */
  lemma {:induction false} MergeInventsNothing(vs: seq<Interval>, k: nat, e: string)
    requires k < |Merge(vs)| && e in Merge(vs)[k].engines
    ensures BroughtInto(vs, k, e)
  {
    var n := |vs| - 1;
    var m := Merge(vs[..n]);
    assert vs == vs[..n] + [vs[n]];
    if k < |m| && e in m[k].engines {
      MergeInventsNothing(vs[..n], k, e);
      BroughtLater(vs[..n], vs[n], k, e);
    } else {
      assert vs[..n + 1] == vs;
      assert GroupOf(vs, n) == k;
    }
  }

  // Some candidate that went into interval k is a semantic one.
  ghost predicate SemanticInto(vs: seq<Interval>, k: int) {
    exists i :: 0 <= i < |vs| && GroupOf(vs, i) == k && vs[i].semantic
  }

  /** A merged interval is semantic exactly when a candidate that went into it is. */
  lemma {:induction false} MergedSemanticIff(vs: seq<Interval>, k: nat)
    requires InOrder(vs) && k < |Merge(vs)|
    ensures Merge(vs)[k].semantic <==> SemanticInto(vs, k)
  {
    if SemanticInto(vs, k) {
      var i :| 0 <= i < |vs| && GroupOf(vs, i) == k && vs[i].semantic;
      MergeCovers(vs, i);
    }
    if Merge(vs)[k].semantic { SemanticWasBrought(vs, k); }
  }

  lemma {:induction false} SemanticWasBrought(vs: seq<Interval>, k: nat)
    requires k < |Merge(vs)| && Merge(vs)[k].semantic
    ensures SemanticInto(vs, k)
  {
    var n := |vs| - 1;
    var before := vs[..n];
    var m := Merge(before);
    assert vs == before + [vs[n]];
    if k < |m| && m[k].semantic {
      SemanticWasBrought(before, k);
      var i :| 0 <= i < n && GroupOf(before, i) == k && before[i].semantic;
      assert vs[..i + 1] == before[..i + 1];
      assert GroupOf(vs, i) == k;
    } else {
      assert vs[..n + 1] == vs;
      assert GroupOf(vs, n) == k;
    }
  }

  // ---------------------------------------------------------------- what splitting guarantees

  lemma WindowOf(cs: seq<Interval>, i: Interval, f: int) returns (k: nat)
    requires i.start <= f <= i.end
    ensures k < WindowCount(i) && k == (f - i.start) / REVIEW_WINDOW_FRAMES
    ensures NthWindow(cs, i, k).start <= f <= NthWindow(cs, i, k).end
  {
    k := (f - i.start) / REVIEW_WINDOW_FRAMES;
  }

  /** Windows partition the interval: each of its frames lies in exactly one of them, no other
      frame lies in any, and none is longer than 60 frames. */
  lemma WindowsPartition(cs: seq<Interval>, i: Interval, f: int, k: nat)
    requires k < WindowCount(i)
    ensures var w := WindowsOf(cs, i)[k];
            && i.start <= w.start <= w.end <= i.end && w.end - w.start < REVIEW_WINDOW_FRAMES
            && (w.start <= f <= w.end <==> i.start <= f <= i.end && k == (f - i.start) / REVIEW_WINDOW_FRAMES)
  {
    var w := NthWindow(cs, i, k);
    assert WindowsOf(cs, i)[k] == w;
    assert k <= (i.end - i.start) / REVIEW_WINDOW_FRAMES;
  }

  // A candidate shares a frame with the window, or reaches over its ends.
  ghost predicate Touches(c: Interval, w: Interval) { c.start <= w.end && c.end >= w.start }

  /** A window lists an engine exactly when a candidate that overlaps it brings the engine, and is semantic
      exactly when a semantic candidate overlaps it. */
  lemma WindowTells(cs: seq<Interval>, i: Interval, k: nat, e: string)
    requires k < WindowCount(i)
    ensures var w := WindowsOf(cs, i)[k];
            && (e in w.engines <==> exists c :: c in cs && Touches(c, w) && e in c.engines)
            && (w.semantic <==> exists c :: c in cs && Touches(c, w) && c.semantic)
  {
    var w := NthWindow(cs, i, k);
    assert WindowsOf(cs, i)[k] == w;
    if c :| c in cs && Touches(c, w) && e in c.engines {
      var j :| 0 <= j < |cs| && cs[j] == c;
      assert Overlaps(cs[j], w.start, w.end);
    }
    if c :| c in cs && Touches(c, w) && c.semantic {
      var j :| 0 <= j < |cs| && cs[j] == c;
      assert Overlaps(cs[j], w.start, w.end);
    }
    if w.semantic {
      var j :| 0 <= j < |cs| && Overlaps(cs[j], w.start, w.end) && cs[j].semantic;
      assert cs[j] in cs && Touches(cs[j], w);
    }
  }

  predicate Holds(i: Interval, f: int) { i.start <= f <= i.end }

  // Each one ends before the next begins.
  ghost predicate Consecutive(ws: seq<Interval>) { forall a, b :: 0 <= a < b < |ws| ==> ws[a].end < ws[b].start }

  ghost predicate AllShort(ws: seq<Interval>) {
    forall a :: 0 <= a < |ws| ==> ws[a].start <= ws[a].end < ws[a].start + REVIEW_WINDOW_FRAMES
  }

  lemma OwnWindows(cs: seq<Interval>, i: Interval)
    ensures Consecutive(WindowsOf(cs, i)) && AllShort(WindowsOf(cs, i))
    ensures forall w :: w in WindowsOf(cs, i) ==> i.start <= w.start && w.end <= i.end
  {
    var ws := WindowsOf(cs, i);
    forall a | 0 <= a < |ws| { WindowsPartition(cs, i, 0, a); }
  }

  lemma {:induction false} AllWindowsSplit(cs: seq<Interval>, ms: seq<Interval>)
    requires Separated(ms)
    ensures var ws := AllWindows(cs, ms);
            && Consecutive(ws) && AllShort(ws)
            && forall w :: w in ws ==> exists j :: 0 <= j < |ms| && Within(w, ms[j])
  {
    if ms != [] {
      var n := |ms| - 1;
      var before, last := AllWindows(cs, ms[..n]), WindowsOf(cs, ms[n]);
      AllWindowsSplit(cs, ms[..n]);
      OwnWindows(cs, ms[n]);
      forall w | w in before ensures w.end < ms[n].start {
        var j :| 0 <= j < n && Within(w, ms[..n][j]);
        assert ms[j].end + MERGE_GAP_FRAMES < ms[n].start;
      }
      Follow(before, last, ms[n].start);
      forall w | w in before + last ensures exists j :: 0 <= j < |ms| && Within(w, ms[j]) {
        if w in before {
          var j :| 0 <= j < n && Within(w, ms[..n][j]);
          assert Within(w, ms[j]);
        } else {
          assert Within(w, ms[n]);
        }
      }
    }
  }

  lemma Follow(a: seq<Interval>, b: seq<Interval>, start: int)
    requires Consecutive(a) && Consecutive(b)
    requires (forall w :: w in a ==> w.end < start) && forall w :: w in b ==> start <= w.start
    ensures Consecutive(a + b)
  {
    forall i, j | 0 <= i < j < |a + b| ensures (a + b)[i].end < (a + b)[j].start {
      if i < |a| <= j { assert a[i] in a && b[j - |a|] in b; }
    }
  }

  lemma {:induction false} AllWindowsHold(cs: seq<Interval>, ms: seq<Interval>, f: int)
    ensures (exists w :: w in AllWindows(cs, ms) && Holds(w, f)) <==> (exists m :: m in ms && Holds(m, f))
  {
    if ms != [] {
      var n := |ms| - 1;
      var before, last := AllWindows(cs, ms[..n]), WindowsOf(cs, ms[n]);
      assert ms == ms[..n] + [ms[n]];
      AllWindowsHold(cs, ms[..n], f);
      OwnWindows(cs, ms[n]);
      if Holds(ms[n], f) {
        var k := WindowOf(cs, ms[n], f);
        assert last[k] in last && Holds(last[k], f);
      }
    }
  }

  /** The whole review: its windows follow each other without overlap, none is longer than 60 frames, and
      together they hold exactly the frames of the merged intervals. */
  lemma ReviewTiles(cs: seq<Interval>, vs: seq<Interval>, f: int)
    requires InOrder(vs)
    ensures Consecutive(AllWindows(cs, Merge(vs))) && AllShort(AllWindows(cs, Merge(vs)))
    ensures (exists w :: w in AllWindows(cs, Merge(vs)) && Holds(w, f)) <==> (exists m :: m in Merge(vs) && Holds(m, f))
  {
    MergedAreSeparated(vs);
    AllWindowsSplit(cs, Merge(vs));
    AllWindowsHold(cs, Merge(vs), f);
  }

  // So every frame of a candidate is reviewed.
  lemma CandidatesAreReviewed(cs: seq<Interval>, vs: seq<Interval>, i: nat, f: int)
    requires InOrder(vs) && i < |vs| && Holds(vs[i], f)
    ensures exists w :: w in AllWindows(cs, Merge(vs)) && Holds(w, f)
  {
    MergeCovers(vs, i);
    ReviewTiles(cs, vs, f);
    assert Merge(vs)[GroupOf(vs, i)] in Merge(vs) && Holds(Merge(vs)[GroupOf(vs, i)], f);
  }

  ghost function WindowEngines(ws: seq<Interval>): set<string> {
    set k, e | 0 <= k < |ws| && e in ws[k].engines :: e
  }

  // The windows are computed from the unsorted candidates; only membership matters.
  ghost predicate SameMembers(cs: seq<Interval>, vs: seq<Interval>) { forall v :: v in cs <==> v in vs }

  // A candidate that overlaps a window went into the interval of that window.
  lemma OverlapBelongs(vs: seq<Interval>, i: nat, k: nat, from: int, to: int)
    requires InOrder(vs) && i < |vs| && k < |Merge(vs)|
    requires Merge(vs)[k].start <= from <= to <= Merge(vs)[k].end && Overlaps(vs[i], from, to)
    ensures GroupOf(vs, i) == k
  {
    MergeCovers(vs, i);
    MergedAreSeparated(vs);
  }

  // A candidate that ends before it starts is seen only if one window holds both of its ends.
  predicate Seen(c: Interval, m: Interval) {
    || c.start <= c.end
    || (&& m.start <= c.end && c.start <= m.end
        && (c.end - m.start) / REVIEW_WINDOW_FRAMES == (c.start - m.start) / REVIEW_WINDOW_FRAMES)
  }

  ghost predicate OverlapsWindow(cs: seq<Interval>, c: Interval, m: Interval, k: int) {
    0 <= k < WindowCount(m) && Overlaps(c, NthWindow(cs, m, k).start, NthWindow(cs, m, k).end)
  }

  lemma SeenIff(cs: seq<Interval>, c: Interval, m: Interval)
    requires Within(c, m)
    ensures Seen(c, m) <==> exists k :: OverlapsWindow(cs, c, m, k)
  {
    if Seen(c, m) {
      var k := WindowOf(cs, m, c.start);
      if c.end < c.start { var k' := WindowOf(cs, m, c.end); }
      assert OverlapsWindow(cs, c, m, k);
    }
    if k :| OverlapsWindow(cs, c, m, k) {
      WindowsPartition(cs, m, c.start, k);
      WindowsPartition(cs, m, c.end, k);
    }
  }

  // Some candidate that went into interval k brings this engine and is seen by its windows.
  ghost predicate SeenWith(vs: seq<Interval>, k: nat, e: string)
    requires k < |Merge(vs)|
  {
    exists i :: 0 <= i < |vs| && GroupOf(vs, i) == k && e in vs[i].engines && Seen(vs[i], Merge(vs)[k])
  }

  lemma WindowsList(cs: seq<Interval>, vs: seq<Interval>, k: nat, e: string)
    requires InOrder(vs) && SameMembers(cs, vs) && k < |Merge(vs)|
    ensures e in WindowEngines(WindowsOf(cs, Merge(vs)[k])) <==> SeenWith(vs, k, e)
  {
    var m := Merge(vs)[k];
    var ws := WindowsOf(cs, m);
    if SeenWith(vs, k, e) {
      var i :| 0 <= i < |vs| && GroupOf(vs, i) == k && e in vs[i].engines && Seen(vs[i], m);
      MergeCovers(vs, i);
      SeenIff(cs, vs[i], m);
      var j :| OverlapsWindow(cs, vs[i], m, j);
      assert vs[i] in cs;
      assert e in ws[j].engines;
    }
    if e in WindowEngines(ws) {
      var j :| 0 <= j < |ws| && e in ws[j].engines;
      WindowsPartition(cs, m, 0, j);
      var c :| 0 <= c < |cs| && Overlaps(cs[c], ws[j].start, ws[j].end) && e in cs[c].engines;
      assert cs[c] in vs;
      var i :| 0 <= i < |vs| && vs[i] == cs[c];
      OverlapBelongs(vs, i, k, ws[j].start, ws[j].end);
      MergeCovers(vs, i);
      assert OverlapsWindow(cs, vs[i], m, j);
      SeenIff(cs, vs[i], m);
    }
  }

  ghost predicate KeepsEngines(cs: seq<Interval>, vs: seq<Interval>) {
    forall k :: 0 <= k < |Merge(vs)| ==> WindowEngines(WindowsOf(cs, Merge(vs)[k])) == Merge(vs)[k].engines
  }

  // Every engine that a candidate brings is also brought to the same interval by one that is seen.
  ghost predicate EnginesSeen(vs: seq<Interval>) {
    forall i, e :: 0 <= i < |vs| && e in vs[i].engines ==> SeenWith(vs, GroupOf(vs, i), e)
  }

  /** The windows of each merged interval list no engine but its own, whatever the candidates; they
      list all of them, for every interval, exactly when each engine comes with a candidate that is seen. */
  lemma WindowsKeepEnginesIff(cs: seq<Interval>, vs: seq<Interval>)
    requires InOrder(vs) && SameMembers(cs, vs)
    ensures forall k :: 0 <= k < |Merge(vs)| ==> WindowEngines(WindowsOf(cs, Merge(vs)[k])) <= Merge(vs)[k].engines
    ensures KeepsEngines(cs, vs) <==> EnginesSeen(vs)
  {
    forall k, e | 0 <= k < |Merge(vs)| && e in WindowEngines(WindowsOf(cs, Merge(vs)[k]))
      ensures e in Merge(vs)[k].engines
    {
      WindowsList(cs, vs, k, e);
      var i :| 0 <= i < |vs| && GroupOf(vs, i) == k && e in vs[i].engines;
      MergeCovers(vs, i);
    }
    if KeepsEngines(cs, vs) {
      forall i, e | 0 <= i < |vs| && e in vs[i].engines ensures SeenWith(vs, GroupOf(vs, i), e) {
        MergeCovers(vs, i);
        WindowsList(cs, vs, GroupOf(vs, i), e);
      }
    }
    if EnginesSeen(vs) {
      forall k, e | 0 <= k < |Merge(vs)| && e in Merge(vs)[k].engines
        ensures e in WindowEngines(WindowsOf(cs, Merge(vs)[k]))
      {
        MergeInventsNothing(vs, k, e);
        var i :| 0 <= i < |vs| && GroupOf(vs, i) == k && e in vs[i].engines;
        WindowsList(cs, vs, k, e);
      }
    }
  }

  /** In particular nothing is lost when every candidate ends no earlier than it starts. */
  lemma WindowsKeepEngines(cs: seq<Interval>, vs: seq<Interval>)
    requires InOrder(vs) && SameMembers(cs, vs)
    ensures WellFormed(vs) ==> KeepsEngines(cs, vs)
  {
    if WellFormed(vs) {
      forall i, e | 0 <= i < |vs| && e in vs[i].engines ensures SeenWith(vs, GroupOf(vs, i), e) {
        MergeCovers(vs, i);
        assert Seen(vs[i], Merge(vs)[GroupOf(vs, i)]);
      }
      WindowsKeepEnginesIff(cs, vs);
    }
  }

  // ---------------------------------------------------------------- for every assignment of engines

  predicate SameSpan(a: Interval, b: Interval) { a.start == b.start && a.end == b.end }

  ghost predicate SameSpans(vs: seq<Interval>, ws: seq<Interval>) {
    |vs| == |ws| && forall i :: 0 <= i < |vs| ==> SameSpan(vs[i], ws[i])
  }

  // Which candidates are joined depends on their spans only.
  lemma {:induction false} MergeOfSpans(vs: seq<Interval>, ws: seq<Interval>)
    requires SameSpans(vs, ws)
    ensures SameSpans(Merge(vs), Merge(ws))
  {
    if vs != [] {
      var n := |vs| - 1;
      MergeOfSpans(vs[..n], ws[..n]);
      assert SameSpan(vs[n], ws[n]);
    }
  }

  ghost predicate AllSeen(vs: seq<Interval>) {
    forall i :: 0 <= i < |vs| ==> Seen(vs[i], Merge(vs)[GroupOf(vs, i)])
  }

  lemma GroupOfSpans(vs: seq<Interval>, ws: seq<Interval>, i: nat)
    requires SameSpans(vs, ws) && i < |vs|
    ensures GroupOf(vs, i) == GroupOf(ws, i) && SameSpan(Merge(vs)[GroupOf(vs, i)], Merge(ws)[GroupOf(ws, i)])
  {
    MergeOfSpans(vs[..i + 1], ws[..i + 1]);
    MergeOfSpans(vs, ws);
  }

  lemma SameSeen(c: Interval, m: Interval, d: Interval, n: Interval)
    requires SameSpan(c, d) && SameSpan(m, n)
    ensures Seen(c, m) <==> Seen(d, n)
  {}

  lemma SeenOfSpans(vs: seq<Interval>, ws: seq<Interval>, i: nat)
    requires SameSpans(vs, ws) && i < |vs|
    ensures GroupOf(vs, i) == GroupOf(ws, i)
    ensures Seen(vs[i], Merge(vs)[GroupOf(vs, i)]) <==> Seen(ws[i], Merge(ws)[GroupOf(ws, i)])
  {
    GroupOfSpans(vs, ws, i);
    SameSeen(vs[i], Merge(vs)[GroupOf(vs, i)], ws[i], Merge(ws)[GroupOf(ws, i)]);
  }

  function OnlyFrom(vs: seq<Interval>, i: nat): (r: seq<Interval>)
    ensures SameSpans(vs, r)
  {
    seq(|vs|, j requires 0 <= j < |vs| => Interval(vs[j].start, vs[j].end, false, if j == i then {"engine"} else {}))
  }

  /** Whatever engines the candidates bring, the windows keep them all: for given spans this is so
      exactly when every candidate is seen by a window of the interval it went into. */
  lemma EnginesAlwaysKeptIff(vs: seq<Interval>)
    requires InOrder(vs)
    ensures (forall ws, cs :: SameSpans(vs, ws) && SameMembers(cs, ws) ==> KeepsEngines(cs, ws)) <==> AllSeen(vs)
  {
    if AllSeen(vs) {
      forall ws, cs | SameSpans(vs, ws) && SameMembers(cs, ws) ensures KeepsEngines(cs, ws) {
        SpansInOrder(vs, ws);
        AllSeenSuffices(vs, ws);
        WindowsKeepEnginesIff(cs, ws);
      }
    } else {
      var i: nat :| i < |vs| && !Seen(vs[i], Merge(vs)[GroupOf(vs, i)]);
      UnseenIsLost(vs, i);
      var ws := OnlyFrom(vs, i);
      assert SameSpans(vs, ws) && SameMembers(ws, ws) && !KeepsEngines(ws, ws);
    }
  }

  lemma SpansInOrder(vs: seq<Interval>, ws: seq<Interval>)
    requires InOrder(vs) && SameSpans(vs, ws)
    ensures InOrder(ws)
  {
    forall i, j | 0 <= i < j < |ws| ensures Before(ws[i], ws[j]) {
      assert Before(vs[i], vs[j]) && SameSpan(vs[i], ws[i]) && SameSpan(vs[j], ws[j]);
    }
  }

  lemma AllSeenSuffices(vs: seq<Interval>, ws: seq<Interval>)
    requires InOrder(vs) && InOrder(ws) && SameSpans(vs, ws) && AllSeen(vs)
    ensures EnginesSeen(ws)
  {
    forall i, e | 0 <= i < |ws| && e in ws[i].engines ensures SeenWith(ws, GroupOf(ws, i), e) {
      MergeCovers(ws, i);
      SeenOfSpans(vs, ws, i);
      assert Seen(ws[i], Merge(ws)[GroupOf(ws, i)]);
    }
  }

  lemma UnseenIsLost(vs: seq<Interval>, i: nat)
    requires InOrder(vs) && i < |vs|
    ensures !Seen(vs[i], Merge(vs)[GroupOf(vs, i)]) ==> !KeepsEngines(OnlyFrom(vs, i), OnlyFrom(vs, i))
  {
    var ws := OnlyFrom(vs, i);
    SpansInOrder(vs, ws);
    SeenOfSpans(vs, ws, i);
    WindowsKeepEnginesIff(ws, ws);
    assert "engine" in ws[i].engines;
    assert SeenWith(ws, GroupOf(ws, i), "engine") ==> Seen(ws[i], Merge(ws)[GroupOf(ws, i)]);
  }

  /** The smallest failing input: a candidate on its own keeps its engines exactly when its frames
      are in order or it has none, since an inverted interval gets no window at all. */
  lemma LoneCandidateKeepsEnginesIff(c: Interval)
    ensures KeepsEngines([c], [c]) <==> c.start <= c.end || c.engines == {}
  {
    assert [c][..0] == [];
    assert Merge([c]) == [c];
    if c.start <= c.end {
      WindowsKeepEngines([c], [c]);
    } else {
      assert WindowEngines(WindowsOf([c], c)) == {};
    }
    assert KeepsEngines([c], [c]) <==> WindowEngines(WindowsOf([c], Merge([c])[0])) == Merge([c])[0].engines;
  }
}
