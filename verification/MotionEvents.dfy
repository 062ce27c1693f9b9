/** `events_from_active` of scripts/build-motion-review.py: two adjacent active frames open an
    event, three inactive ones close it, and events at most 5 s apart are joined. */
module MotionEvents {
  import opened Optional

  // First and last frame, both included.
  datatype Event = Event(first: int, last: int)

  const JOIN_GAP := 10   // round(5.0 * FPS) at 2 frames per second

  predicate Pair(active: seq<bool>, i: int) { 0 <= i && i + 1 < |active| && active[i] && active[i + 1] }

  predicate Quiet(active: seq<bool>, i: int) {
    0 <= i && i + 2 < |active| && !active[i] && !active[i + 1] && !active[i + 2]
  }

  predicate Inside(e: Event, i: int) { e.first <= i && i + 1 <= e.last }

  // ---------------------------------------------------------------- the declarative specification

  // An event starts with a pair, has no three inactive frames in a row, and ends at the last
  // active frame before three inactive ones or at the end of the stream.
  ghost predicate IsEvent(active: seq<bool>, e: Event) {
    && e.first < e.last < |active| && Pair(active, e.first)
    && (forall i :: e.first <= i && i + 2 <= e.last ==> !Quiet(active, i))
    && (e.last == |active| - 1 || (active[e.last] && Quiet(active, e.last + 1)))
  }

  ghost predicate Ascending(es: seq<Event>) { forall j, k :: 0 <= j < k < |es| ==> es[j].last < es[k].first }

  ghost predicate Hit(es: seq<Event>, i: int) { exists k :: 0 <= k < |es| && Inside(es[k], i) }

  // The raw events from frame `from` on: events in order, none of the pairs left out.
  ghost predicate IsRaw(active: seq<bool>, from: int, es: seq<Event>) {
    && (forall k :: 0 <= k < |es| ==> IsEvent(active, es[k]) && from <= es[k].first)
    && Ascending(es)
    && (forall i {:trigger Hit(es, i)} :: from <= i && Pair(active, i) ==> Hit(es, i))
  }

  // No pair lies between `from` and the first event.
  lemma FirstIsEarliest(active: seq<bool>, from: int, es: seq<Event>, i: int)
    requires IsRaw(active, from, es) && es != [] && from <= i && Pair(active, i)
    ensures es[0].first <= i
  {
    assert Hit(es, i);
    var k :| 0 <= k < |es| && Inside(es[k], i);
  }

  lemma SameEnd(active: seq<bool>, d: Event, e: Event)
    requires IsEvent(active, d) && IsEvent(active, e) && d.first == e.first
    ensures d.last >= e.last
  {
    assert d.last + 3 <= e.last ==> !Quiet(active, d.last + 1);
  }

  lemma TailIsRaw(active: seq<bool>, from: int, es: seq<Event>)
    requires IsRaw(active, from, es) && es != []
    ensures IsRaw(active, es[0].last + 1, es[1..])
  {
    forall i | es[0].last + 1 <= i && Pair(active, i) ensures Hit(es[1..], i) {
      assert from <= i && Hit(es, i);
      var k :| 0 <= k < |es| && Inside(es[k], i);
      assert Inside(es[1..][k - 1], i);
    }
  }

  /** The specification leaves no choice: at most one list of events satisfies it. */
  lemma {:induction false} RawIsUnique(active: seq<bool>, from: int, ds: seq<Event>, es: seq<Event>)
    requires IsRaw(active, from, ds) && IsRaw(active, from, es)
    ensures ds == es
    decreases |ds|
  {
    if ds == [] {
      assert es != [] ==> Hit(ds, es[0].first);
    } else {
      assert Hit(es, ds[0].first);
      FirstIsEarliest(active, from, ds, es[0].first);
      FirstIsEarliest(active, from, es, ds[0].first);
      SameEnd(active, ds[0], es[0]);
      SameEnd(active, es[0], ds[0]);
      TailIsRaw(active, from, ds);
      TailIsRaw(active, from, es);
      RawIsUnique(active, ds[0].last + 1, ds[1..], es[1..]);
    }
  }

  // ---------------------------------------------------------------- the first loop

  // What the loop knows before frame n: the closed events, and the open one if any.
  ghost predicate Closed(active: seq<bool>, n: nat, es: seq<Event>) {
    && (forall k :: 0 <= k < |es| ==> 0 <= es[k].first && IsEvent(active, es[k]) && es[k].last + 3 < n)
    && Ascending(es)
  }

  ghost predicate Covered(active: seq<bool>, from: int, to: int, es: seq<Event>) {
    forall i {:trigger Hit(es, i)} :: from <= i && i + 1 < to && Pair(active, i) ==> Hit(es, i)
  }

  predicate RunCounts(active: seq<bool>, n: nat, run: nat)
    requires n <= |active|
  {
    && (run >= 1 <==> n >= 1 && active[n - 1])
    && (run >= 2 <==> n >= 2 && active[n - 1] && active[n - 2])
  }

  ghost predicate Open(active: seq<bool>, n: nat, es: seq<Event>, s: int, gap: nat)
    requires n <= |active|
  {
    && Pair(active, s) && s + 1 < n && (es != [] ==> es[|es| - 1].last < s)
    && (forall i :: s <= i && i + 2 < n ==> !Quiet(active, i))
    && gap <= 2 && s < n - 1 - gap && active[n - 1 - gap]
    && (forall i :: n - gap <= i < n ==> !active[i])
  }

  lemma AppendEvent(active: seq<bool>, n: nat, es: seq<Event>, e: Event, from: int, to: int)
    requires Closed(active, n, es) && IsEvent(active, e) && (es != [] ==> es[|es| - 1].last < e.first)
    requires Covered(active, from, e.first + 1, es)
    requires forall i :: i + 1 < to && i + 1 > e.last ==> !Pair(active, i)
    ensures Ascending(es + [e]) && Covered(active, from, to, es + [e])
  {
    var all := es + [e];
    assert forall k :: 0 <= k < |es| ==> all[k] == es[k];
    assert all[|es|] == e;
    forall i | from <= i && i + 1 < to && Pair(active, i) ensures Hit(all, i) {
      if i < e.first {
        assert Hit(es, i);
        var k :| 0 <= k < |es| && Inside(es[k], i);
        assert Inside(all[k], i);
      } else {
        assert Inside(all[|es|], i);
      }
    }
  }

  ghost predicate Scanned(active: seq<bool>, n: nat, es: seq<Event>, start: Option<int>, run: nat, gap: nat)
    requires n <= |active|
  {
    && Closed(active, n, es) && RunCounts(active, n, run)
    && (start.None? ==> gap == 0 && run < 2 && Covered(active, 0, n, es))
    && (start.Some? ==> Open(active, n, es, start.value, gap) && Covered(active, 0, start.value + 1, es))
  }

  lemma ActiveFrame(active: seq<bool>, n: nat, es: seq<Event>, start: Option<int>, run: nat, gap: nat)
    requires n < |active| && active[n] && Scanned(active, n, es, start, run, gap)
    ensures Scanned(active, n + 1, es, if start.None? && run + 1 >= 2 then Some(n - 1) else start, run + 1, 0)
  {
    if start.None? {
      if run >= 1 {
        assert Covered(active, 0, n, es);
      } else {
        assert n >= 1 ==> !Pair(active, n - 1);
        forall i | 0 <= i && i + 1 < n + 1 && Pair(active, i) ensures Hit(es, i) {
          assert i + 1 < n;
        }
      }
    }
  }

  lemma InactiveFrame(active: seq<bool>, n: nat, es: seq<Event>, start: Option<int>, run: nat, gap: nat)
    requires n < |active| && !active[n] && Scanned(active, n, es, start, run, gap) && (start.Some? ==> gap < 2)
    ensures Scanned(active, n + 1, es, start, 0, if start.Some? then gap + 1 else gap)
  {
    if start.None? {
      forall i | 0 <= i && i + 1 < n + 1 && Pair(active, i) ensures Hit(es, i) {
        assert i + 1 < n;
      }
    } else {
      forall i | start.value <= i && i + 2 < n + 1 ensures !Quiet(active, i) {
        if i + 2 == n {
          assert active[n - 1 - gap];
        }
      }
    }
  }

  lemma ThirdInactiveFrame(active: seq<bool>, n: nat, es: seq<Event>, s: int, run: nat)
    requires n < |active| && !active[n] && Scanned(active, n, es, Some(s), run, 2)
    ensures Scanned(active, n + 1, es + [Event(s, n - 3)], None, 0, 0)
  {
    var e := Event(s, n - 3);
    assert !active[n - 1] && !active[n - 2];
    assert Quiet(active, e.last + 1);
    assert IsEvent(active, e);
    AppendEvent(active, n + 1, es, e, 0, n + 1);
  }

  lemma EndOfStream(active: seq<bool>, es: seq<Event>, start: Option<int>, run: nat, gap: nat)
    requires Scanned(active, |active|, es, start, run, gap)
    ensures start.None? ==> IsRaw(active, 0, es)
    ensures start.Some? ==> IsRaw(active, 0, es + [Event(start.value, |active| - 1)])
  {
    if start.Some? {
      var e := Event(start.value, |active| - 1);
      assert IsEvent(active, e);
      AppendEvent(active, |active|, es, e, 0, |active|);
    }
  }

  method RawEvents(active: seq<bool>) returns (events: seq<Event>)
    ensures IsRaw(active, 0, events)
  {
    events := [];
    var run, gap: nat := 0, 0;
    var start: Option<int> := None;
    for index := 0 to |active|
      invariant Scanned(active, index, events, start, run, gap)
    {
      if active[index] {
        ActiveFrame(active, index, events, start, run, gap);
        gap := 0;
        run := run + 1;
        if start.None? && run >= 2 {
          start := Some(index - 1);
        }
      } else {
        if start.Some? && gap == 2 {
          ThirdInactiveFrame(active, index, events, start.value, run);
        } else {
          InactiveFrame(active, index, events, start, run, gap);
        }
        run := 0;
        if start.Some? {
          gap := gap + 1;
          if gap >= 3 {
            events := events + [Event(start.value, index - gap)];
            start := None;
            gap := 0;
          }
        }
      }
    }
    EndOfStream(active, events, start, run, gap);
    if start.Some? {
      events := events + [Event(start.value, |active| - 1)];
    }
  }

  // ---------------------------------------------------------------- the second loop

  predicate Far(d: Event, e: Event) { e.first - d.last > JOIN_GAP }

  function Merge(raw: seq<Event>): (m: seq<Event>)
    ensures |m| <= |raw| && (raw != [] ==> m != [] && m[|m| - 1].last == raw[|raw| - 1].last)
  {
    if raw == [] then []
    else
      var e, m := raw[|raw| - 1], Merge(raw[..|raw| - 1]);
      if m != [] && !Far(m[|m| - 1], e) then m[|m| - 1 := Event(m[|m| - 1].first, e.last)] else m + [e]
  }

  method MergeEvents(events: seq<Event>) returns (merged: seq<Event>)
    ensures merged == Merge(events)
  {
    merged := [];
    for i := 0 to |events|
      invariant merged == Merge(events[..i])
    {
      assert events[..i + 1][..i] == events[..i];
      var event := events[i];
      if merged != [] && event.first - merged[|merged| - 1].last <= JOIN_GAP {
        merged := merged[|merged| - 1 := Event(merged[|merged| - 1].first, event.last)];
      } else {
        merged := merged + [event];
      }
    }
    assert events[..|events|] == events;
  }

  /** The whole function: the joined events of the one list that the specification admits. */
  method EventsFromActive(active: seq<bool>) returns (merged: seq<Event>)
    ensures exists raw :: IsRaw(active, 0, raw)
    ensures forall raw :: IsRaw(active, 0, raw) ==> merged == Merge(raw)
  {
    var events := RawEvents(active);
    merged := MergeEvents(events);
    forall raw | IsRaw(active, 0, raw) ensures merged == Merge(raw) { RawIsUnique(active, 0, raw, events); }
  }

  // ---------------------------------------------------------------- what joining means

  // Raw event j belongs to the joined event with this number.
  function Group(raw: seq<Event>, j: nat): nat
    requires j < |raw|
  {
    if j == 0 then 0 else Group(raw, j - 1) + if Far(raw[j - 1], raw[j]) then 1 else 0
  }

  lemma {:induction false} GroupPrefix(raw: seq<Event>, n: nat, j: nat)
    requires j < n <= |raw|
    ensures Group(raw[..n], j) == Group(raw, j)
  {
    if j > 0 {
      GroupPrefix(raw, n, j - 1);
    }
  }

  lemma {:induction false} GroupsAscend(raw: seq<Event>, i: nat, j: nat)
    requires i <= j < |raw|
    ensures Group(raw, i) <= Group(raw, j)
  {
    if i < j {
      GroupsAscend(raw, i, j - 1);
    }
  }

  lemma {:induction false} MergeCount(raw: seq<Event>)
    requires raw != []
    ensures |Merge(raw)| == Group(raw, |raw| - 1) + 1
  {
    var n := |raw| - 1;
    if n > 0 {
      MergeCount(raw[..n]);
      GroupPrefix(raw, n, n - 1);
      assert raw[..n][n - 1] == raw[n - 1];
    }
  }

  // One more raw event changes the last joined event at most, and that only if it is near.
  lemma MergeSnoc(raw: seq<Event>, e: Event)
    requires raw != []
    ensures var m, r := Merge(raw), Merge(raw + [e]);
            && (Far(raw[|raw| - 1], e) ==> r == m + [e])
            && (!Far(raw[|raw| - 1], e) ==> r == m[|m| - 1 := Event(m[|m| - 1].first, e.last)])
  {
    assert (raw + [e])[..|raw|] == raw;
  }

  lemma MergeExactAtEnd(raw: seq<Event>)
    requires raw != []
    ensures var n := |raw| - 1;
            && Group(raw, n) == |Merge(raw)| - 1 && Merge(raw)[Group(raw, n)].last == raw[n].last
            && (n == 0 || Far(raw[n - 1], raw[n]) ==> Merge(raw)[Group(raw, n)].first == raw[n].first)
  {
    var n := |raw| - 1;
    MergeCount(raw);
    assert raw == raw[..n] + [raw[n]];
    if n > 0 {
      MergeSnoc(raw[..n], raw[n]);
      assert raw[..n][n - 1] == raw[n - 1];
    }
  }

  lemma LastOfGroup(raw: seq<Event>, j: nat, n: nat)
    requires j < n < |raw| && Far(raw[j], raw[j + 1])
    ensures j < n - 1 ==> Group(raw, j) < Group(raw, n - 1)
  {
    if j < n - 1 {
      GroupsAscend(raw, j, n - 1);
      if Group(raw, j) == Group(raw, n - 1) { NoBreakInside(raw, j, n - 1); }
    }
  }

  /** A joined event spans exactly one chain of raw events: it starts where the chain's first
      event starts and ends where its last one ends, and a chain breaks exactly at gaps of
      more than 10 frames. */
  lemma {:induction false} MergeExact(raw: seq<Event>, j: nat)
    requires j < |raw|
    ensures Group(raw, j) < |Merge(raw)|
    ensures j == 0 || raw[j].first - raw[j - 1].last > 10 ==> Merge(raw)[Group(raw, j)].first == raw[j].first
    ensures j == |raw| - 1 || raw[j + 1].first - raw[j].last > 10 ==> Merge(raw)[Group(raw, j)].last == raw[j].last
    ensures j == 0 ==> Group(raw, j) == 0
    ensures j > 0 ==> Group(raw, j) == Group(raw, j - 1) + if raw[j].first - raw[j - 1].last > 10 then 1 else 0
  {
    var n := |raw| - 1;
    if j == n {
      MergeExactAtEnd(raw);
    } else {
      var before := raw[..n];
      assert raw == before + [raw[n]] && before[j] == raw[j] && before[n - 1] == raw[n - 1];
      MergeExact(before, j);
      GroupPrefix(raw, n, j);
      MergeExactAtEnd(before);
      GroupPrefix(raw, n, n - 1);
      MergeSnoc(before, raw[n]);
      if Far(raw[j], raw[j + 1]) { LastOfGroup(raw, j, n); }
    }
  }

  lemma {:induction false} NoBreakInside(raw: seq<Event>, i: nat, j: nat)
    requires i < j < |raw| && Group(raw, i) == Group(raw, j)
    ensures !Far(raw[i], raw[i + 1])
  {
    GroupsAscend(raw, i, j - 1);
    if i < j - 1 {
      NoBreakInside(raw, i, j - 1);
    }
  }

  // The first and the last raw event of the chain that raw event j belongs to.
  lemma {:induction false} ChainStart(raw: seq<Event>, j: nat) returns (i: nat)
    requires j < |raw|
    ensures i <= j && Group(raw, i) == Group(raw, j) && (i == 0 || Far(raw[i - 1], raw[i]))
  {
    i := j;
    if j > 0 && !Far(raw[j - 1], raw[j]) {
      i := ChainStart(raw, j - 1);
    }
  }

  lemma {:induction false} ChainEnd(raw: seq<Event>, j: nat) returns (i: nat)
    requires j < |raw|
    ensures j <= i < |raw| && Group(raw, i) == Group(raw, j) && (i == |raw| - 1 || Far(raw[i], raw[i + 1]))
    decreases |raw| - j
  {
    i := j;
    if j < |raw| - 1 && !Far(raw[j], raw[j + 1]) {
      i := ChainEnd(raw, j + 1);
    }
  }

  lemma RawInOrder(active: seq<bool>, raw: seq<Event>, a: nat, b: nat)
    requires IsRaw(active, 0, raw) && a <= b < |raw|
    ensures raw[a].first <= raw[b].first && raw[a].last <= raw[b].last
  {
    assert IsEvent(active, raw[a]) && IsEvent(active, raw[b]);
  }

  /** Every adjacent active pair of the stream lies in a joined event. */
  lemma EveryPairIsReported(active: seq<bool>, raw: seq<Event>, i: int)
    requires IsRaw(active, 0, raw) && Pair(active, i)
    ensures Hit(Merge(raw), i)
  {
    assert Hit(raw, i);
    var j :| 0 <= j < |raw| && Inside(raw[j], i);
    var a := ChainStart(raw, j);
    var b := ChainEnd(raw, j);
    MergeExact(raw, a);
    MergeExact(raw, b);
    RawInOrder(active, raw, a, j);
    RawInOrder(active, raw, j, b);
    assert Inside(Merge(raw)[Group(raw, j)], i);
  }

  /** Consecutive joined events are more than 10 frames apart. */
  lemma {:induction false} JoinedAreFar(raw: seq<Event>, k: nat)
    requires k + 1 < |Merge(raw)|
    ensures Merge(raw)[k + 1].first - Merge(raw)[k].last > 10
  {
    var n := |raw| - 1;
    var m := Merge(raw[..n]);
    if k + 1 < |m| {
      JoinedAreFar(raw[..n], k);
    }
  }

  predicate Placed(active: seq<bool>, e: Event) { 0 <= e.first < e.last < |active| && Pair(active, e.first) }

  /** Every joined event lies in the stream and starts with an active pair. */
  lemma JoinedAreEvents(active: seq<bool>, raw: seq<Event>, k: nat)
    requires IsRaw(active, 0, raw) && k < |Merge(raw)|
    ensures var e := Merge(raw)[k]; 0 <= e.first < e.last < |active| && Pair(active, e.first)
  {
    forall j | 0 <= j < |raw| ensures Placed(active, raw[j]) { assert IsEvent(active, raw[j]); }
    JoinedArePlaced(active, raw);
    assert Placed(active, Merge(raw)[k]);
  }

  ghost predicate AllPlaced(active: seq<bool>, es: seq<Event>) { forall k :: 0 <= k < |es| ==> Placed(active, es[k]) }

  lemma PlacedSnoc(active: seq<bool>, m: seq<Event>, e: Event, r: seq<Event>)
    requires AllPlaced(active, m) && m != [] && Placed(active, e) && m[|m| - 1].last < e.first
    requires r == m + [e] || r == m[|m| - 1 := Event(m[|m| - 1].first, e.last)]
    ensures AllPlaced(active, r)
  {
    assert Placed(active, m[|m| - 1]);
  }

  lemma RawBefore(active: seq<bool>, raw: seq<Event>, e: Event)
    requires Ascending(raw + [e]) && AllPlaced(active, raw + [e])
    ensures Ascending(raw) && AllPlaced(active, raw) && Placed(active, e)
            && (raw != [] ==> raw[|raw| - 1].last < e.first)
  {
    assert (raw + [e])[|raw|] == e && forall k :: 0 <= k < |raw| ==> (raw + [e])[k] == raw[k];
  }

  lemma MergeOne(e: Event)
    ensures Merge([e]) == [e]
  {
    assert [e][..0] == [];
  }

  lemma {:induction false} JoinedArePlaced(active: seq<bool>, raw: seq<Event>)
    requires Ascending(raw) && AllPlaced(active, raw)
    ensures AllPlaced(active, Merge(raw))
  {
    if raw != [] {
      var before, e := raw[..|raw| - 1], raw[|raw| - 1];
      assert raw == before + [e];
      RawBefore(active, before, e);
      if before == [] {
        MergeOne(e);
        assert raw == [e];
      } else {
        JoinedArePlaced(active, before);
        LastEndsWithRaw(before);
        MergeSnoc(before, e);
        PlacedSnoc(active, Merge(before), e, Merge(raw));
      }
    }
  }

  lemma LastEndsWithRaw(raw: seq<Event>)
    requires raw != []
    ensures Merge(raw) != [] && Merge(raw)[|Merge(raw)| - 1].last == raw[|raw| - 1].last
  {}
}
