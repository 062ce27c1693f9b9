/** `downsamplePoints` of apps/central/public/chart-utils.js: a long series is cut into buckets
    and each bucket keeps, for every field, its first minimum and its first maximum. */
module Downsample {
  import opened Basics
  import opened Optional

  // `values` holds the fields whose Number(...) is finite.
  datatype Point = Point(id: int, values: map<string, real>)

  // The elements that are objects; anything else in the list is dropped.
  function Objects(points: seq<Option<Point>>): (r: seq<Point>) {
    if points == [] then []
    else (if points[0].Some? then [points[0].value] else []) + Objects(points[1..])
  }

  function Named(keys: seq<string>): (r: seq<string>)
    ensures forall key :: key in r <==> key in keys && key != ""
  {
    if keys == [] then [] else
      assert keys == [keys[0]] + keys[1..];
      (if keys[0] != "" then [keys[0]] else []) + Named(keys[1..])
  }

  function Limit(maxPoints: real): (r: nat)
    ensures r >= 2 && (maxPoints >= 3.0 ==> r as real <= maxPoints < r as real + 1.0)
  {
    Max(2, maxPoints.Floor)
  }

  function PerBucket(fields: nat): nat { Max(2, 2 * fields) }

  function Buckets(max: nat, fields: nat): (r: nat) { Max(1, max / PerBucket(fields)) }

  // Where bucket `b` starts; bucket `buckets - 1` runs to the end of the series.
  function Cut(b: nat, n: nat, buckets: nat): int
    requires buckets > 0
  {
    if b == buckets then n else (b as real * (n as real / buckets as real)).Floor
  }

  // ---------------------------------------------------------------- the declarative specification

  predicate Has(list: seq<Point>, field: string, i: int) { 0 <= i < |list| && field in list[i].values }

  // The first smallest value of a field among lo <= i < hi.
  predicate FirstMin(list: seq<Point>, field: string, lo: int, hi: int, i: int) {
    && lo <= i < hi && Has(list, field, i)
    && (forall j :: lo <= j < hi && Has(list, field, j) ==>
          list[i].values[field] <= list[j].values[field] && (j < i ==> list[i].values[field] < list[j].values[field]))
  }

  predicate FirstMax(list: seq<Point>, field: string, lo: int, hi: int, i: int) {
    && lo <= i < hi && Has(list, field, i)
    && (forall j :: lo <= j < hi && Has(list, field, j) ==>
          list[j].values[field] <= list[i].values[field] && (j < i ==> list[j].values[field] < list[i].values[field]))
  }

  predicate Extreme(list: seq<Point>, field: string, lo: int, hi: int, i: int) {
    FirstMin(list, field, lo, hi, i) || FirstMax(list, field, lo, hi, i)
  }

  predicate ExtremeOfSome(list: seq<Point>, fields: seq<string>, lo: int, hi: int, i: int) {
    exists k :: 0 <= k < |fields| && Extreme(list, fields[k], lo, hi, i)
  }

  // What a bucket keeps: without fields, its first point.
  predicate Picked(list: seq<Point>, fields: seq<string>, lo: int, hi: int, i: int) {
    lo < hi && (if fields == [] then i == lo else ExtremeOfSome(list, fields, lo, hi, i))
  }

  predicate PickedBefore(list: seq<Point>, fields: seq<string>, buckets: nat, count: nat, i: int)
    requires buckets > 0
  {
    exists b :: 0 <= b < count && Picked(list, fields, Cut(b, |list|, buckets), Cut(b + 1, |list|, buckets), i)
  }

  function Kept(list: seq<Point>, fields: seq<string>, buckets: nat, count: nat): set<int>
    requires buckets > 0
  {
    set i | 0 <= i < |list| && (i == 0 || i == |list| - 1 || PickedBefore(list, fields, buckets, count, i))
  }

  // The members of `s` below `n`, in ascending order.
  function Sorted(s: set<int>, n: nat): (r: seq<int>)
    ensures forall k :: 0 <= k < |r| ==> 0 <= r[k] < n && r[k] in s
    ensures forall j, k :: 0 <= j < k < |r| ==> r[j] < r[k]
    ensures forall i :: i in s && 0 <= i < n ==> i in r
  {
    if n == 0 then [] else if n - 1 in s then Sorted(s, n - 1) + [n - 1] else Sorted(s, n - 1)
  }

  function At(list: seq<Point>, indexes: seq<int>): (r: seq<Point>)
    requires forall k :: 0 <= k < |indexes| ==> 0 <= indexes[k] < |list|
    ensures |r| == |indexes| && forall k :: 0 <= k < |r| ==> r[k] == list[indexes[k]]
  {
    seq(|indexes|, k requires 0 <= k < |indexes| => list[indexes[k]])
  }

  // The indexes shown for a series.
  function Shown(list: seq<Point>, maxPoints: real, fields: seq<string>): (r: seq<int>)
    ensures forall k :: 0 <= k < |r| ==> 0 <= r[k] < |list|
    ensures forall j, k :: 0 <= j < k < |r| ==> r[j] < r[k]
  {
    var max := Limit(maxPoints);
    if |list| <= max then seq(|list|, i => i)
    else var n := Buckets(max, |fields|); Sorted(Kept(list, fields, n, n), |list|)
  }

  // ---------------------------------------------------------------- the buckets tile the series

  lemma Scale(b: nat, n: nat, buckets: nat)
    requires 0 <= b <= buckets && buckets > 0
    ensures b as real * (n as real / buckets as real) <= n as real
    ensures b == buckets ==> b as real * (n as real / buckets as real) == n as real
  {
    var s := n as real / buckets as real;
    assert buckets as real * s == n as real;
    Grows(b as real, buckets as real, s);
  }

  lemma Grows(x: real, y: real, s: real)
    requires x <= y && s >= 0.0
    ensures x * s <= y * s
  {
    assert (y - x) * s >= 0.0;
  }

  // Every bucket of a series longer than the limit has at least one point.
  lemma NextCut(b: nat, n: nat, buckets: nat)
    requires b < buckets <= n
    ensures 0 <= Cut(b, n, buckets) < Cut(b + 1, n, buckets) <= n
    ensures Cut(0, n, buckets) == 0
  {
    var s := n as real / buckets as real;
    assert s >= 1.0 by { Scale(buckets, n, buckets); if s < 1.0 { Grows(s, 1.0, buckets as real); } }
    Scale(b, n, buckets);
    Scale(b + 1, n, buckets);
    assert (b + 1) as real * s == b as real * s + s;
  }

  lemma {:induction false} CutsAscend(b: nat, c: nat, n: nat, buckets: nat)
    requires b < c <= buckets <= n && buckets > 0
    ensures Cut(b, n, buckets) < Cut(c, n, buckets)
  {
    NextCut(c - 1, n, buckets);
    if b < c - 1 { CutsAscend(b, c - 1, n, buckets); }
  }

  predicate InBucket(i: int, b: nat, n: nat, buckets: nat)
    requires buckets > 0
  {
    b < buckets && Cut(b, n, buckets) <= i < Cut(b + 1, n, buckets)
  }

  // Every index lies in exactly one bucket.
  lemma {:induction false} BucketsTile(i: int, n: nat, buckets: nat)
    requires 0 < buckets <= n && 0 <= i < n
    ensures exists b: nat :: InBucket(i, b, n, buckets)
    ensures forall b: nat, c: nat :: InBucket(i, b, n, buckets) && InBucket(i, c, n, buckets) ==> b == c
  {
    NextCut(0, n, buckets);
    var b := BucketOf(i, buckets, n, buckets);
    assert InBucket(i, b, n, buckets);
    forall b: nat, c: nat | InBucket(i, b, n, buckets) && InBucket(i, c, n, buckets) ensures b == c {
      if b + 1 < c { CutsAscend(b + 1, c, n, buckets); }
      if c + 1 < b { CutsAscend(c + 1, b, n, buckets); }
    }
  }

  lemma {:induction false} BucketOf(i: int, count: nat, n: nat, buckets: nat) returns (b: nat)
    requires 0 < buckets <= n && 0 < count <= buckets && Cut(0, n, buckets) <= i < Cut(count, n, buckets)
    ensures InBucket(i, b, n, buckets)
  {
    NextCut(0, n, buckets);
    if Cut(count - 1, n, buckets) <= i {
      b := count - 1;
    } else {
      b := BucketOf(i, count - 1, n, buckets);
    }
  }

  lemma FewBuckets(max: nat, fields: nat)
    requires max >= 2
    ensures 1 <= Buckets(max, fields) <= max
  {
    QuotientFits(max, PerBucket(fields));
  }

  lemma QuotientFits(a: nat, p: nat)
    requires p >= 2
    ensures a / p * p <= a && a / p <= a && (a / p == 0 ==> a < p)
  {
    assert a == a / p * p + a % p;
    assert a / p * p >= a / p;
  }

  // ---------------------------------------------------------------- how many points are kept

  // A field may be asked for twice; it then counts twice for the number of buckets, but its extremes
  // are the same two points.
  function Names(fields: seq<string>): set<string> { set field | field in fields }

  predicate Distinct(fields: seq<string>) { forall j, k :: 0 <= j < k < |fields| ==> fields[j] != fields[k] }

  function Unique(fields: seq<string>): (r: seq<string>)
    ensures Distinct(r) && |r| <= |fields| && forall field :: field in r <==> field in fields
  {
    if fields == [] then [] else
      assert fields == [fields[0]] + fields[1..];
      var rest := Unique(fields[1..]);
      if fields[0] in rest then rest else [fields[0]] + rest
  }

  lemma {:induction false} DistinctCount(fields: seq<string>)
    requires Distinct(fields)
    ensures |Names(fields)| == |fields|
  {
    if fields != [] {
      DistinctCount(fields[1..]);
      assert fields == [fields[0]] + fields[1..];
      assert Names(fields) == {fields[0]} + Names(fields[1..]);
    }
  }

  lemma UniqueCount(fields: seq<string>)
    ensures |Unique(fields)| == |Names(fields)| <= |fields|
  {
    DistinctCount(Unique(fields));
    assert Names(Unique(fields)) == Names(fields);
  }

  lemma SamePicks(list: seq<Point>, fields: seq<string>, lo: int, hi: int, i: int)
    ensures ExtremeOfSome(list, fields, lo, hi, i) <==> ExtremeOfSome(list, Unique(fields), lo, hi, i)
  {
    var unique := Unique(fields);
    if ExtremeOfSome(list, fields, lo, hi, i) {
      var k :| 0 <= k < |fields| && Extreme(list, fields[k], lo, hi, i);
      assert fields[k] in unique;
      var u :| 0 <= u < |unique| && unique[u] == fields[k];
    }
    if ExtremeOfSome(list, unique, lo, hi, i) {
      var u :| 0 <= u < |unique| && Extreme(list, unique[u], lo, hi, i);
      assert unique[u] in fields;
      var k :| 0 <= k < |fields| && fields[k] == unique[u];
    }
  }

  lemma ExtremesAreUnique(list: seq<Point>, field: string, lo: int, hi: int, i: int, j: int)
    ensures FirstMin(list, field, lo, hi, i) && FirstMin(list, field, lo, hi, j) ==> i == j
    ensures FirstMax(list, field, lo, hi, i) && FirstMax(list, field, lo, hi, j) ==> i == j
  {}

  function Least(list: seq<Point>, field: string, lo: int, hi: int): set<int>
  {
    set i | lo <= i < hi && FirstMin(list, field, lo, hi, i)
  }

  function Greatest(list: seq<Point>, field: string, lo: int, hi: int): set<int>
  {
    set i | lo <= i < hi && FirstMax(list, field, lo, hi, i)
  }

  lemma AtMostOne<T>(s: set<T>)
    requires forall i, j :: i in s && j in s ==> i == j
    ensures |s| <= 1
  {
    if s != {} {
      var i :| i in s;
      assert s == {i};
    }
  }

  lemma TwoPerField(list: seq<Point>, field: string, lo: int, hi: int)
    ensures |Least(list, field, lo, hi) + Greatest(list, field, lo, hi)| <= 2
  {
    var least, greatest := Least(list, field, lo, hi), Greatest(list, field, lo, hi);
    forall i, j { ExtremesAreUnique(list, field, lo, hi, i, j); }
    AtMostOne(least);
    AtMostOne(greatest);
  }

  lemma {:induction false} ExtremesOfFields(list: seq<Point>, fields: seq<string>, lo: int, hi: int)
    returns (s: set<int>)
    ensures |s| <= 2 * |fields|
    ensures forall i :: ExtremeOfSome(list, fields, lo, hi, i) ==> i in s
  {
    s := {};
    for k := 0 to |fields|
      invariant |s| <= 2 * k
      invariant forall i, c :: 0 <= c < k && Extreme(list, fields[c], lo, hi, i) ==> i in s
    {
      TwoPerField(list, fields[k], lo, hi);
      s := s + (Least(list, fields[k], lo, hi) + Greatest(list, fields[k], lo, hi));
    }
  }

  // How many points one bucket keeps at most.
  function Share(fields: seq<string>): nat { if fields == [] then 1 else 2 * |Names(fields)| }

  lemma PickedInBucket(list: seq<Point>, fields: seq<string>, lo: int, hi: int) returns (s: set<int>)
    ensures |s| <= Share(fields)
    ensures forall i :: Picked(list, fields, lo, hi, i) ==> i in s
  {
    if fields == [] {
      s := {lo};
    } else {
      UniqueCount(fields);
      s := ExtremesOfFields(list, Unique(fields), lo, hi);
      forall i { SamePicks(list, fields, lo, hi, i); }
    }
  }

  lemma {:induction false} PickedInBuckets(list: seq<Point>, fields: seq<string>, buckets: nat, count: nat)
    returns (s: set<int>)
    requires buckets > 0
    ensures |s| <= count * Share(fields)
    ensures forall i :: PickedBefore(list, fields, buckets, count, i) ==> i in s
  {
    if count == 0 { return {}; }
    var before := PickedInBuckets(list, fields, buckets, count - 1);
    var here := PickedInBucket(list, fields, Cut(count - 1, |list|, buckets), Cut(count, |list|, buckets));
    s := before + here;
    assert count * Share(fields) == (count - 1) * Share(fields) + Share(fields);
  }

  lemma NoNames(fields: seq<string>)
    ensures |Names(fields)| == 0 <==> fields == []
  {
    if fields == [] { assert Names(fields) == {}; } else { assert fields[0] in Names(fields); }
  }

  lemma ShareFits(max: nat, fields: nat, share: nat)
    requires max >= 2 && share <= PerBucket(fields)
    ensures Buckets(max, fields) * share <= Max(max, share)
  {
    QuotientFits(max, PerBucket(fields));
    var n := max / PerBucket(fields);
    assert n * share <= n * PerBucket(fields) by { assert n * (PerBucket(fields) - share) >= 0; }
    assert 1 * share == share;
  }

  // All buckets together keep no more than the limit, or than one bucket does.
  lemma SharesFit(max: nat, fields: seq<string>)
    requires max >= 2
    ensures Buckets(max, |fields|) * Share(fields) <= Max(max, 2 * |Names(fields)|)
  {
    UniqueCount(fields);
    ShareFits(max, |fields|, Share(fields));
  }

  lemma KeptSize(list: seq<Point>, fields: seq<string>, max: nat)
    requires max >= 2
    ensures var n := Buckets(max, |fields|); |Kept(list, fields, n, n)| <= Max(max, 2 * |Names(fields)|) + 2
  {
    var n := Buckets(max, |fields|);
    SharesFit(max, fields);
    var picked := PickedInBuckets(list, fields, n, n);
    SubsetSize(Kept(list, fields, n, n), picked + {0, |list| - 1});
    assert |{0, |list| - 1}| <= 2;
  }

  lemma {:induction false} AscendingFits(r: seq<int>, s: set<int>)
    requires forall k :: 0 <= k < |r| ==> r[k] in s
    requires forall j, k :: 0 <= j < k < |r| ==> r[j] < r[k]
    ensures |r| <= |s|
  {
    if r != [] {
      var last := |r| - 1;
      AscendingFits(r[..last], s - {r[last]});
    }
  }

  // The size bound that does hold, whatever the series and the fields.
  lemma SizeBound(list: seq<Point>, maxPoints: real, fields: seq<string>)
    ensures |Shown(list, maxPoints, fields)| <= Max(Limit(maxPoints), 2 * |Names(fields)|) + 2
  {
    var max := Limit(maxPoints);
    if |list| > max {
      var n := Buckets(max, |fields|);
      var kept := Kept(list, fields, n, n);
      KeptSize(list, fields, max);
      AscendingFits(Sorted(kept, |list|), kept);
    }
  }

  // ---------------------------------------------------------------- nothing that matters is lost

  // The result starts and ends with the ends of the series, in the order of the series.
  lemma EndsSurvive(list: seq<Point>, maxPoints: real, fields: seq<string>)
    requires list != []
    ensures var r := Shown(list, maxPoints, fields); r != [] && r[0] == 0 && r[|r| - 1] == |list| - 1
  {
    var max, r := Limit(maxPoints), Shown(list, maxPoints, fields);
    if |list| > max {
      var n := Buckets(max, |fields|);
      var kept := Kept(list, fields, n, n);
      assert 0 in kept && |list| - 1 in kept;
      assert 0 in r && |list| - 1 in r;
    }
  }

  lemma Narrowed(list: seq<Point>, field: string, lo: int, hi: int, i: int)
    requires 0 <= lo <= i < hi <= |list|
    ensures FirstMin(list, field, 0, |list|, i) ==> FirstMin(list, field, lo, hi, i)
    ensures FirstMax(list, field, 0, |list|, i) ==> FirstMax(list, field, lo, hi, i)
  {}

  // The first minimum and the first maximum of the whole series, for every field asked for, are shown.
  lemma PeaksSurvive(list: seq<Point>, maxPoints: real, fields: seq<string>, field: string, i: int)
    requires field in fields && Extreme(list, field, 0, |list|, i)
    ensures i in Shown(list, maxPoints, fields)
  {
    var max := Limit(maxPoints);
    if |list| <= max {
      assert Shown(list, maxPoints, fields)[i] == i;
    } else {
      var n := Buckets(max, |fields|);
      FewBuckets(max, |fields|);
      BucketsTile(i, |list|, n);
      var b: nat :| InBucket(i, b, |list|, n);
      CutsInside(b, |list|, n);
      Narrowed(list, field, Cut(b, |list|, n), Cut(b + 1, |list|, n), i);
      var k :| 0 <= k < |fields| && fields[k] == field;
      assert Extreme(list, fields[k], Cut(b, |list|, n), Cut(b + 1, |list|, n), i);
      assert Picked(list, fields, Cut(b, |list|, n), Cut(b + 1, |list|, n), i);
      assert i in Kept(list, fields, n, n);
    }
  }

  lemma CutsInside(b: nat, n: nat, buckets: nat)
    requires b < buckets <= n
    ensures 0 <= Cut(b, n, buckets) < Cut(b + 1, n, buckets) <= n
  {
    NextCut(b, n, buckets);
  }

  // A field with a finite value somewhere has a first minimum and a first maximum.
  lemma {:induction false} ExtremesExist(list: seq<Point>, field: string, lo: nat, hi: nat)
    requires lo <= hi <= |list| && exists i :: lo <= i < hi && Has(list, field, i)
    ensures exists i :: FirstMin(list, field, lo, hi, i)
    ensures exists i :: FirstMax(list, field, lo, hi, i)
  {
    var last := hi - 1;
    if exists i :: lo <= i < last && Has(list, field, i) {
      ExtremesExist(list, field, lo, last);
      var least :| FirstMin(list, field, lo, last, least);
      var greatest :| FirstMax(list, field, lo, last, greatest);
      var lower := Has(list, field, last) && list[last].values[field] < list[least].values[field];
      var higher := Has(list, field, last) && list[last].values[field] > list[greatest].values[field];
      assert FirstMin(list, field, lo, hi, if lower then last else least);
      assert FirstMax(list, field, lo, hi, if higher then last else greatest);
    } else {
      assert FirstMin(list, field, lo, hi, last) && FirstMax(list, field, lo, hi, last);
    }
  }

  // So the drawn range of every field is exactly the range of the series: no peak is smoothed away.
  lemma RangeSurvives(list: seq<Point>, maxPoints: real, fields: seq<string>, field: string, i: int)
    requires field in fields && Has(list, field, i)
    ensures exists least, greatest ::
              && least in Shown(list, maxPoints, fields) && greatest in Shown(list, maxPoints, fields)
              && FirstMin(list, field, 0, |list|, least) && FirstMax(list, field, 0, |list|, greatest)
              && list[least].values[field] <= list[i].values[field] <= list[greatest].values[field]
  {
    ExtremesExist(list, field, 0, |list|);
    var least :| FirstMin(list, field, 0, |list|, least);
    var greatest :| FirstMax(list, field, 0, |list|, greatest);
    PeaksSurvive(list, maxPoints, fields, field, least);
    PeaksSurvive(list, maxPoints, fields, field, greatest);
  }

  lemma BucketIsShort(b: nat, n: nat, buckets: nat)
    requires b < buckets <= n
    ensures (Cut(b + 1, n, buckets) - Cut(b, n, buckets)) as real < n as real / buckets as real + 1.0
  {
    var s := n as real / buckets as real;
    Scale(b + 1, n, buckets);
    assert (b + 1) as real * s == b as real * s + s;
  }

  // A bucket keeps something of every field that it has, and something in any case without fields.
  lemma BucketKeeps(list: seq<Point>, fields: seq<string>, lo: nat, hi: nat, i: nat)
    requires lo <= i < hi <= |list| && (fields == [] || exists field :: field in fields && Has(list, field, i))
    ensures exists j :: lo <= j < hi && Picked(list, fields, lo, hi, j)
  {
    if fields == [] {
      assert Picked(list, fields, lo, hi, lo);
    } else {
      var field :| field in fields && Has(list, field, i);
      ExtremesExist(list, field, lo, hi);
      var j :| FirstMin(list, field, lo, hi, j);
      var k :| 0 <= k < |fields| && fields[k] == field;
      assert Extreme(list, fields[k], lo, hi, j);
      assert Picked(list, fields, lo, hi, j);
    }
  }

  ghost predicate IsNear(i: int, j: int, stretch: real) { -stretch < (j - i) as real < stretch }

  lemma SameBucketIsNear(b: nat, n: nat, buckets: nat, i: int, j: int)
    requires b < buckets <= n && InBucket(i, b, n, buckets) && InBucket(j, b, n, buckets)
    ensures IsNear(i, j, n as real / buckets as real + 1.0)
  {
    BucketIsShort(b, n, buckets);
  }

  lemma KeptIsNear(list: seq<Point>, fields: seq<string>, buckets: nat, i: nat) returns (j: int)
    requires 0 < buckets <= |list| && i < |list|
    requires fields == [] || exists field :: field in fields && Has(list, field, i)
    ensures j in Kept(list, fields, buckets, buckets) && IsNear(i, j, |list| as real / buckets as real + 1.0)
  {
    BucketsTile(i, |list|, buckets);
    var b: nat :| InBucket(i, b, |list|, buckets);
    CutsInside(b, |list|, buckets);
    var lo, hi := Cut(b, |list|, buckets), Cut(b + 1, |list|, buckets);
    BucketKeeps(list, fields, lo, hi, i);
    j :| lo <= j < hi && Picked(list, fields, lo, hi, j);
    SameBucketIsNear(b, |list|, buckets, i, j);
    assert PickedBefore(list, fields, buckets, buckets, j);
  }

  /** The resolution: of as many equal stretches as the limit leaves room for, two points for each field in
      each, none is skipped.  Near every point with a value of a field asked for, some point is shown. */
  lemma NearbyIsShown(list: seq<Point>, maxPoints: real, fields: seq<string>, i: nat) returns (j: int)
    requires i < |list| && (fields == [] || exists field :: field in fields && Has(list, field, i))
    ensures var buckets := Max(1, Limit(maxPoints) / Max(2, 2 * |fields|));
            j in Shown(list, maxPoints, fields) && IsNear(i, j, |list| as real / buckets as real + 1.0)
  {
    var max := Limit(maxPoints);
    var n := Buckets(max, |fields|);
    if |list| <= max {
      j := i;
      assert Shown(list, maxPoints, fields)[i] == i;
      assert |list| as real / n as real >= 0.0;
    } else {
      FewBuckets(max, |fields|);
      j := KeptIsNear(list, fields, n, i);
    }
  }

  // ---------------------------------------------------------------- what is left of the input

  /** Points that are no objects are dropped, all others stay in order; so do names, without the empty ones. */
  lemma {:induction false} ObjectsStay(a: seq<Option<Point>>, p: Option<Point>, b: seq<Option<Point>>)
    ensures Objects(a + [p] + b) == Objects(a) + (if p == None then [] else [p.value]) + Objects(b)
    ensures Objects([]) == []
  {
    var all := a + [p] + b;
    if a == [] {
      assert all[0] == p && all[1..] == b;
    } else {
      assert all[0] == a[0] && all[1..] == a[1..] + [p] + b;
      ObjectsStay(a[1..], p, b);
    }
  }

  lemma {:induction false} NamesStay(a: seq<string>, key: string, b: seq<string>)
    ensures Named(a + [key] + b) == Named(a) + (if key == "" then [] else [key]) + Named(b)
    ensures Named([]) == []
  {
    var all := a + [key] + b;
    if a == [] {
      assert all[0] == key && all[1..] == b;
    } else {
      assert all[0] == a[0] && all[1..] == a[1..] + [key] + b;
      NamesStay(a[1..], key, b);
    }
  }

  // ---------------------------------------------------------------- the documented bound

  function IndexOf(fields: seq<string>, field: string): (k: nat)
    requires field in fields
    ensures k < |fields| && fields[k] == field
  {
    if fields[0] == field then 0 else IndexOf(fields[1..], field) + 1
  }

  function Spike(i: int, k: int): real { if i == 2 * k + 1 then -1.0 else if i == 2 * k + 2 then 1.0 else 0.0 }

  // Two points more than extremes: each inner point is the only minimum or maximum of its field.
  function Spiky(fields: seq<string>): (r: seq<Point>)
    ensures |r| == 2 * |fields| + 2
  {
    seq(2 * |fields| + 2, i => Point(i, map field | field in fields :: Spike(i, IndexOf(fields, field))))
  }

  lemma SpikeAt(fields: seq<string>, k: nat, j: nat)
    requires Distinct(fields) && k < |fields| && j < 2 * |fields| + 2
    ensures Has(Spiky(fields), fields[k], j) && Spiky(fields)[j].values[fields[k]] == Spike(j, k)
  {
    assert IndexOf(fields, fields[k]) == k;
  }

  lemma SpikesAreExtreme(fields: seq<string>, k: nat)
    requires Distinct(fields) && k < |fields|
    ensures FirstMin(Spiky(fields), fields[k], 0, 2 * |fields| + 2, 2 * k + 1)
    ensures FirstMax(Spiky(fields), fields[k], 0, 2 * |fields| + 2, 2 * k + 2)
  {
    forall j: nat | j < 2 * |fields| + 2
      ensures Has(Spiky(fields), fields[k], j) && Spiky(fields)[j].values[fields[k]] == Spike(j, k)
    {
      SpikeAt(fields, k, j);
    }
  }

  lemma {:induction false} AllSorted(s: set<int>, n: nat)
    requires forall i :: 0 <= i < n ==> i in s
    ensures |Sorted(s, n)| == n
  {
    if n > 0 { AllSorted(s, n - 1); }
  }

  lemma OneBucket(max: nat, fields: nat)
    requires 2 <= max && (max == 2 || max < 2 * fields)
    ensures Buckets(max, fields) == 1
  {
    if max < PerBucket(fields) { SmallQuotient(max, PerBucket(fields)); }
  }

  lemma SmallQuotient(a: nat, b: nat)
    requires a < b
    ensures a / b == 0
  {}

  lemma OneCut(n: nat)
    requires n > 0
    ensures Cut(0, n, 1) == 0 && Cut(1, n, 1) == n
  {
    NextCut(0, n, 1);
  }

  lemma SpikeIsPicked(fields: seq<string>, k: nat, i: int)
    requires Distinct(fields) && k < |fields| && (i == 2 * k + 1 || i == 2 * k + 2)
    ensures PickedBefore(Spiky(fields), fields, 1, 1, i)
  {
    var list := Spiky(fields);
    SpikesAreExtreme(fields, k);
    assert Extreme(list, fields[k], 0, |list|, i);
    OneCut(|list|);
    assert Picked(list, fields, 0, |list|, i);
  }

  lemma SpikesAreAllKept(fields: seq<string>)
    requires Distinct(fields)
    ensures forall i :: 0 <= i < 2 * |fields| + 2 ==> i in Kept(Spiky(fields), fields, 1, 1)
  {
    forall i | 0 < i < 2 * |fields| + 1 ensures PickedBefore(Spiky(fields), fields, 1, 1, i) {
      SpikeIsPicked(fields, (i - 1) / 2, i);
    }
  }

  lemma SamePicksBefore(list: seq<Point>, fields: seq<string>, i: int)
    requires PickedBefore(list, Unique(fields), 1, 1, i) && fields != []
    ensures PickedBefore(list, fields, 1, 1, i)
  {
    var lo, hi := Cut(0, |list|, 1), Cut(1, |list|, 1);
    assert Picked(list, Unique(fields), lo, hi, i);
    assert fields[0] in Unique(fields);
    SamePicks(list, fields, lo, hi, i);
    assert Picked(list, fields, lo, hi, i);
  }

  lemma SpikesAreKeptFor(list: seq<Point>, fields: seq<string>)
    requires fields != [] && list == Spiky(Unique(fields))
    ensures forall i :: 0 <= i < |list| ==> i in Kept(list, fields, 1, 1)
  {
    SpikesAreAllKept(Unique(fields));
    forall i | 0 <= i < |list| ensures i in Kept(list, fields, 1, 1) {
      assert i in Kept(list, Unique(fields), 1, 1);
      if 0 < i < |list| - 1 { SamePicksBefore(list, fields, i); }
    }
  }

  // A series of which every point is shown, although it is longer than the limit.
  lemma SpikesAreAllShown(maxPoints: real, fields: seq<string>)
    requires 2.0 * |Names(fields)| as real > maxPoints && fields != []
    ensures |Shown(Spiky(Unique(fields)), maxPoints, fields)| == 2 * |Names(fields)| + 2
  {
    var list := Spiky(Unique(fields));
    UniqueCount(fields);
    NoNames(fields);
    assert |list| > Limit(maxPoints);
    OneBucket(Limit(maxPoints), |fields|);
    SpikesAreKeptFor(list, fields);
    AllSorted(Kept(list, fields, 1, 1), |list|);
  }

  // Without fields and with the smallest limit, only the two ends are left.
  lemma OnlyEnds(list: seq<Point>, maxPoints: real)
    requires Limit(maxPoints) == 2
    ensures |Shown(list, maxPoints, [])| <= 2
  {
    if |list| > 2 {
      var kept := Kept(list, [], 1, 1);
      OneBucket(2, 0);
      NextCut(0, |list|, 1);
      assert kept <= {0, |list| - 1};
      SubsetSize(kept, {0, |list| - 1});
      AscendingFits(Sorted(kept, |list|), kept);
    }
  }

  ghost predicate KeepsPromise(maxPoints: real, fields: seq<string>) {
    forall list: seq<Point> :: |Shown(list, maxPoints, fields)| as real <= maxPoints + 2.0
  }

  lemma PromiseKept(list: seq<Point>, maxPoints: real, fields: seq<string>)
    requires 2.0 * |Names(fields)| as real <= maxPoints
    ensures |Shown(list, maxPoints, fields)| as real <= maxPoints + 2.0
  {
    SizeBound(list, maxPoints, fields);
    if maxPoints < 2.0 {
      NoNames(fields);
      OnlyEnds(list, maxPoints);
    }
  }

  lemma PromiseBroken(maxPoints: real, fields: seq<string>)
    requires 2.0 * |Names(fields)| as real > maxPoints
    ensures !KeepsPromise(maxPoints, fields)
  {
    NoNames(fields);
    if fields == [] {
      var pair := [Point(0, map[]), Point(1, map[])];
      assert |Shown(pair, maxPoints, fields)| == 2;
    } else {
      SpikesAreAllShown(maxPoints, fields);
    }
  }

  // "At most maxPoints + 2" is what the comment promises.  For every maxPoints, also one below two or
  // below zero, it holds for all series exactly when the extremes of all different fields fit into it.
  lemma DocumentedBoundIff(maxPoints: real, fields: seq<string>)
    ensures (forall list: seq<Point> :: |Shown(list, maxPoints, fields)| as real <= maxPoints + 2.0) <==>
            2.0 * |Names(fields)| as real <= maxPoints
  {
    if 2.0 * |Names(fields)| as real <= maxPoints {
      forall list: seq<Point> { PromiseKept(list, maxPoints, fields); }
    } else {
      PromiseBroken(maxPoints, fields);
    }
  }

  // ---------------------------------------------------------------- the loops

  method BucketExtremes(list: seq<Point>, field: string, start: nat, end: nat) returns (minIndex: int, maxIndex: int)
    requires start <= end <= |list|
    ensures -1 <= minIndex && -1 <= maxIndex
    ensures forall i :: FirstMin(list, field, start, end, i) <==> i == minIndex && minIndex >= 0
    ensures forall i :: FirstMax(list, field, start, end, i) <==> i == maxIndex && maxIndex >= 0
  {
    minIndex, maxIndex := -1, -1;
    var minValue, maxValue := 0.0, 0.0;
    for index := start to end
      invariant (minIndex == -1 && maxIndex == -1) || (minIndex >= 0 && maxIndex >= 0)
      invariant minIndex == -1 ==> forall j :: start <= j < index ==> !Has(list, field, j)
      invariant minIndex >= 0 ==>
                  FirstMin(list, field, start, index, minIndex) && minValue == list[minIndex].values[field]
      invariant maxIndex >= 0 ==>
                  FirstMax(list, field, start, index, maxIndex) && maxValue == list[maxIndex].values[field]
    {
      if field in list[index].values {
        var value := list[index].values[field];
        if minIndex < 0 || value < minValue { minValue, minIndex := value, index; }
        if maxIndex < 0 || value > maxValue { maxValue, maxIndex := value, index; }
      }
    }
    forall i ensures FirstMin(list, field, start, end, i) <==> i == minIndex && minIndex >= 0 {
      ExtremesAreUnique(list, field, start, end, i, minIndex);
    }
    forall i ensures FirstMax(list, field, start, end, i) <==> i == maxIndex && maxIndex >= 0 {
      ExtremesAreUnique(list, field, start, end, i, maxIndex);
    }
  }

  method KeepBucket(list: seq<Point>, fields: seq<string>, start: nat, end: nat, before: set<int>)
    returns (keep: set<int>)
    requires start <= end <= |list|
    ensures forall i :: i in keep <==> i in before || Picked(list, fields, start, end, i)
  {
    keep := before;
    if end <= start { return; }
    if fields == [] {
      keep := keep + {start};
      return;
    }
    for k := 0 to |fields|
      invariant forall i :: i in keep <==>
                i in before || exists c :: 0 <= c < k && Extreme(list, fields[c], start, end, i)
    {
      ghost var was := keep;
      var minIndex, maxIndex := BucketExtremes(list, fields[k], start, end);
      if minIndex >= 0 { keep := keep + {minIndex}; }
      if maxIndex >= 0 { keep := keep + {maxIndex}; }
      assert forall i :: i in keep <==> i in was || Extreme(list, fields[k], start, end, i);
    }
  }

  ghost predicate Collected(keep: set<int>, list: seq<Point>, fields: seq<string>, buckets: nat, count: nat)
    requires buckets > 0
  {
    forall i :: i in keep <==> i == 0 || i == |list| - 1 || PickedBefore(list, fields, buckets, count, i)
  }

  lemma OneMoreBucket(before: set<int>, keep: set<int>, list: seq<Point>, fields: seq<string>, buckets: nat, count: nat)
    requires count < buckets && Collected(before, list, fields, buckets, count)
    requires forall i :: i in keep <==>
               i in before || Picked(list, fields, Cut(count, |list|, buckets), Cut(count + 1, |list|, buckets), i)
    ensures Collected(keep, list, fields, buckets, count + 1)
  {
    forall i
      ensures PickedBefore(list, fields, buckets, count + 1, i) <==>
              PickedBefore(list, fields, buckets, count, i) ||
              Picked(list, fields, Cut(count, |list|, buckets), Cut(count + 1, |list|, buckets), i)
    {}
  }

  lemma CollectedIsKept(keep: set<int>, list: seq<Point>, fields: seq<string>, buckets: nat)
    requires 0 < buckets <= |list| && Collected(keep, list, fields, buckets, buckets)
    ensures keep == Kept(list, fields, buckets, buckets)
  {
    PickedInside(list, fields, buckets);
  }

  method DownsamplePoints(points: seq<Option<Point>>, maxPoints: real, keys: seq<string>) returns (r: seq<Point>)
    ensures r == At(Objects(points), Shown(Objects(points), maxPoints, Named(keys)))
  {
    var list, max, fields := Objects(points), Limit(maxPoints), Named(keys);
    if |list| <= max { return list; }
    var buckets := Buckets(max, |fields|);
    FewBuckets(max, |fields|);
    var keep := {0, |list| - 1};
    assert Collected(keep, list, fields, buckets, 0);
    for bucket := 0 to buckets
      invariant Collected(keep, list, fields, buckets, bucket)
    {
      CutsInside(bucket, |list|, buckets);
      var start, end := Cut(bucket, |list|, buckets), Cut(bucket + 1, |list|, buckets);
      var next := KeepBucket(list, fields, start, end, keep);
      OneMoreBucket(keep, next, list, fields, buckets, bucket);
      keep := next;
    }
    CollectedIsKept(keep, list, fields, buckets);
    r := At(list, Sorted(keep, |list|));
  }

  lemma PickedInside(list: seq<Point>, fields: seq<string>, buckets: nat)
    requires 0 < buckets <= |list|
    ensures forall i :: PickedBefore(list, fields, buckets, buckets, i) ==> 0 <= i < |list|
  {
    forall i | PickedBefore(list, fields, buckets, buckets, i) ensures 0 <= i < |list| {
      var b :| 0 <= b < buckets && Picked(list, fields, Cut(b, |list|, buckets), Cut(b + 1, |list|, buckets), i);
      CutsInside(b, |list|, buckets);
    }
  }
}
