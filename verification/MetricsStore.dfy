/** Turning the stored samples of a metric into series of time buckets. */
module MetricsStore {
  import opened Arithmetic
  import opened Options

  /** Time in milliseconds, and a value that JSON may give as null. */
  datatype Sample = Sample(ts: int, value: Option<int>)
  datatype Point<V> = Point(start: int, value: V)

  function BucketOf(ts: int, bucketMs: int): int
    requires bucketMs > 0
  {
    ts - ts % bucketMs
  }

  // ---------- an ordered dictionary of buckets ----------

  ghost predicate DistinctStarts<V>(d: seq<Point<V>>) {
    forall i, j :: 0 <= i < j < |d| ==> d[i].start != d[j].start
  }

  ghost predicate Increasing<V>(d: seq<Point<V>>) {
    forall i, j :: 0 <= i < j < |d| ==> d[i].start < d[j].start
  }

  /** Position of a key, or the length. */
  function Find<V>(d: seq<Point<V>>, key: int): (i: nat)
    ensures i <= |d|
    ensures forall j :: 0 <= j < i ==> d[j].start != key
    ensures i < |d| ==> d[i].start == key
  {
    if d == [] then 0
    else if d[0].start == key then 0
    else
      var i := Find(d[1..], key);
      assert forall j :: 1 <= j < i + 1 ==> d[j] == d[1..][j - 1];
      i + 1
  }

  function Lookup<V>(d: seq<Point<V>>, key: int): Option<V> {
    var i := Find(d, key);
    if i < |d| then Some(d[i].value) else None
  }

  function GetOr(o: Option<int>, default_: int): int {
    match o case None => default_ case Some(v) => v
  }

  /** Assignment: a known key keeps its place, a new one goes to the end. */
  function Put<V>(d: seq<Point<V>>, key: int, value: V): seq<Point<V>> {
    var i := Find(d, key);
    if i < |d| then d[i := Point(key, value)] else d + [Point(key, value)]
  }

  lemma LookupAt<V>(d: seq<Point<V>>, i: nat)
    requires DistinctStarts(d) && i < |d|
    ensures Lookup(d, d[i].start) == Some(d[i].value)
  {
  }

  lemma PutLooksUp<V>(d: seq<Point<V>>, key: int, value: V)
    requires DistinctStarts(d)
    ensures DistinctStarts(Put(d, key, value))
    ensures forall k :: Lookup(Put(d, key, value), k) == if k == key then Some(value) else Lookup(d, k)
  {
    var e := Put(d, key, value);
    var i := Find(d, key);
    forall k ensures Lookup(e, k) == if k == key then Some(value) else Lookup(d, k) {
      var j := Find(e, k);
      if k == key {
        assert e[i].start == key;
        LookupAt(e, i);
      } else if j < |e| {
        assert e[j] == d[j];
        LookupAt(d, j);
      } else {
        assert forall m :: 0 <= m < |d| && m != i ==> e[m] == d[m];
      }
    }
  }

  /** Keys that never go back are kept in increasing order. */
  lemma PutKeepsOrder<V>(d: seq<Point<V>>, key: int, value: V)
    requires Increasing(d) && forall i :: 0 <= i < |d| ==> d[i].start <= key
    ensures Increasing(Put(d, key, value))
    ensures forall i :: 0 <= i < |Put(d, key, value)| ==> Put(d, key, value)[i].start <= key
  {
  }

  function Total(d: seq<Point<int>>): int {
    if d == [] then 0 else Total(d[..|d| - 1]) + d[|d| - 1].value
  }

  lemma {:induction false} TotalUpdate(d: seq<Point<int>>, i: nat, p: Point<int>)
    requires i < |d|
    ensures Total(d[i := p]) == Total(d) - d[i].value + p.value
  {
    var n := |d| - 1;
    if i < n {
      TotalUpdate(d[..n], i, p);
      assert d[i := p][..n] == d[..n][i := p];
    } else {
      assert d[i := p][..n] == d[..n];
    }
  }

  lemma TotalPut(d: seq<Point<int>>, key: int, delta: int)
    ensures Total(Put(d, key, GetOr(Lookup(d, key), 0) + delta)) == Total(d) + delta
  {
    var i := Find(d, key);
    if i < |d| {
      TotalUpdate(d, i, Point(key, d[i].value + delta));
    } else {
      var e := Put(d, key, delta);
      assert e[..|e| - 1] == d;
    }
  }

  function InSeconds<V>(d: seq<Point<V>>): seq<Point<V>> {
    seq(|d|, i requires 0 <= i < |d| => Point(d[i].start / 1000, d[i].value))
  }

  // ---------- increments between samples ----------

  /** Number of leading nulls: the sample after them is only a starting point. */
  function Leading(samples: seq<Sample>): (n: nat)
    ensures n <= |samples|
    ensures forall j :: 0 <= j < n ==> samples[j].value.None?
    ensures n < |samples| ==> samples[n].value.Some?
  {
    if samples == [] || samples[0].value.Some? then 0 else
    var n := Leading(samples[1..]);
    assert forall j :: 1 <= j < n + 1 ==> samples[j] == samples[1..][j - 1];
    n + 1
  }

  /** No null after the first number; adding a null raises. */
  ghost predicate Summable(samples: seq<Sample>) {
    forall j :: Leading(samples) < j < |samples| ==> samples[j].value.Some?
  }

  /** What sample j adds: its growth, or all of it when the counter was reset. */
  function Increment(samples: seq<Sample>, j: int): int
    requires 0 < j < |samples| && samples[j].value.Some? && samples[j - 1].value.Some?
  {
    var v, p := samples[j].value.value, samples[j - 1].value.value;
    if v >= p then v - p else v
  }

  predicate Counts(samples: seq<Sample>, j: int) {
    Leading(samples) < j < |samples|
  }

  /** Increments of the samples before n that fall into one bucket. */
  function SumIn(samples: seq<Sample>, bucketMs: int, key: int, n: nat): int
    requires Summable(samples) && bucketMs > 0 && n <= |samples|
  {
    if n == 0 then 0
    else SumIn(samples, bucketMs, key, n - 1) +
         (if Counts(samples, n - 1) && BucketOf(samples[n - 1].ts, bucketMs) == key
          then Increment(samples, n - 1) else 0)
  }

  /** Increments of the samples before n, whatever their time. */
  function SumAll(samples: seq<Sample>, n: nat): int
    requires Summable(samples) && n <= |samples|
  {
    if n == 0 then 0
    else SumAll(samples, n - 1) + (if Counts(samples, n - 1) then Increment(samples, n - 1) else 0)
  }

  ghost predicate HasSample(samples: seq<Sample>, bucketMs: int, key: int, n: nat)
    requires bucketMs > 0 && n <= |samples|
  {
    exists j :: 0 <= j < n && Counts(samples, j) && BucketOf(samples[j].ts, bucketMs) == key
  }

  ghost predicate SortedTimes(samples: seq<Sample>) {
    forall i, j :: 0 <= i < j < |samples| ==> samples[i].ts <= samples[j].ts
  }

  lemma BucketMonotone(a: int, b: int, bucketMs: int)
    requires bucketMs > 0 && a <= b
    ensures BucketOf(a, bucketMs) <= BucketOf(b, bucketMs)
  {
    var x, y := a / bucketMs, b / bucketMs;
    assert a == bucketMs * x + a % bucketMs && b == bucketMs * y + b % bucketMs;
    if x < y {
      MulStep(bucketMs, y, x);
    } else if x > y {
      MulStep(bucketMs, x, y);
    }
  }

  lemma MulStep(m: int, x: int, y: int)
    requires m > 0 && x > y
    ensures m * x >= m * y + m
  {
    MulBound(m, x - y);
    assert m * x == m * y + m * (x - y);
  }

  /** What a bucket holds of the samples before n; None where none of them falls into it. */
  ghost function BucketValue(samples: seq<Sample>, bucketMs: int, key: int, n: nat): Option<int>
    requires Summable(samples) && bucketMs > 0 && n <= |samples|
  {
    if HasSample(samples, bucketMs, key, n) then Some(SumIn(samples, bucketMs, key, n)) else None
  }

  /** The buckets of the samples before n. */
  ghost predicate DeltaBuckets(samples: seq<Sample>, bucketMs: int, n: nat, buckets: seq<Point<int>>)
    requires Summable(samples) && bucketMs > 0 && n <= |samples|
  {
    && DistinctStarts(buckets)
    && (forall key :: Lookup(buckets, key) == BucketValue(samples, bucketMs, key, n))
    && Total(buckets) == SumAll(samples, n)
  }

  lemma NoSampleNoSum(samples: seq<Sample>, bucketMs: int, key: int, n: nat)
    requires Summable(samples) && bucketMs > 0 && n <= |samples| && !HasSample(samples, bucketMs, key, n)
    ensures SumIn(samples, bucketMs, key, n) == 0
  {
    if n > 0 {
      NoSampleNoSum(samples, bucketMs, key, n - 1);
    }
  }

  lemma HasSampleGrows(samples: seq<Sample>, bucketMs: int, k: int, n: nat)
    requires bucketMs > 0 && n < |samples|
    ensures HasSample(samples, bucketMs, k, n + 1) <==>
            HasSample(samples, bucketMs, k, n) || (Counts(samples, n) && BucketOf(samples[n].ts, bucketMs) == k)
  {
  }

  lemma BucketsGrow(samples: seq<Sample>, bucketMs: int, n: nat, buckets: seq<Point<int>>)
    requires Summable(samples) && bucketMs > 0 && n < |samples| && Counts(samples, n)
    requires DeltaBuckets(samples, bucketMs, n, buckets)
    ensures var key := BucketOf(samples[n].ts, bucketMs);
            DeltaBuckets(samples, bucketMs, n + 1, AddTo(buckets, key, Increment(samples, n)))
  {
    var key := BucketOf(samples[n].ts, bucketMs);
    var value := GetOr(Lookup(buckets, key), 0) + Increment(samples, n);
    PutLooksUp(buckets, key, value);
    TotalPut(buckets, key, Increment(samples, n));
    BucketsLookUp(samples, bucketMs, n, buckets, Put(buckets, key, value));
  }

  lemma BucketsLookUp(samples: seq<Sample>, bucketMs: int, n: nat, buckets: seq<Point<int>>, after: seq<Point<int>>)
    requires Summable(samples) && bucketMs > 0 && n < |samples| && Counts(samples, n)
    requires forall k :: Lookup(buckets, k) == BucketValue(samples, bucketMs, k, n)
    requires var key := BucketOf(samples[n].ts, bucketMs);
             forall k :: Lookup(after, k) ==
               if k == key then Some(GetOr(Lookup(buckets, key), 0) + Increment(samples, n)) else Lookup(buckets, k)
    ensures forall k :: Lookup(after, k) == BucketValue(samples, bucketMs, k, n + 1)
  {
    forall k ensures Lookup(after, k) == BucketValue(samples, bucketMs, k, n + 1)
    {
      BucketGrows(samples, bucketMs, n, buckets, after, k);
    }
  }

  lemma BucketGrows(samples: seq<Sample>, bucketMs: int, n: nat, buckets: seq<Point<int>>, after: seq<Point<int>>,
                    k: int)
    requires Summable(samples) && bucketMs > 0 && n < |samples| && Counts(samples, n)
    requires Lookup(buckets, k) == BucketValue(samples, bucketMs, k, n)
    requires var key := BucketOf(samples[n].ts, bucketMs);
             Lookup(after, k) == if k == key then Some(GetOr(Lookup(buckets, key), 0) + Increment(samples, n))
                                 else Lookup(buckets, k)
    ensures Lookup(after, k) == BucketValue(samples, bucketMs, k, n + 1)
  {
    HasSampleGrows(samples, bucketMs, k, n);
    if !HasSample(samples, bucketMs, k, n) {
      NoSampleNoSum(samples, bucketMs, k, n);
    }
  }

  ghost predicate Sound(samples: seq<Sample>, bucketMs: int, n: nat, d: seq<Point<int>>)
    requires bucketMs > 0 && n <= |samples|
  {
    Summable(samples) ==> DeltaBuckets(samples, bucketMs, n, d)
  }

  function AddTo(d: seq<Point<int>>, key: int, delta: int): seq<Point<int>> {
    Put(d, key, GetOr(Lookup(d, key), 0) + delta)
  }

  lemma SoundStep(samples: seq<Sample>, bucketMs: int, n: nat, d: seq<Point<int>>, delta: int)
    requires bucketMs > 0 && n < |samples| && Counts(samples, n) && Sound(samples, bucketMs, n, d)
    requires samples[n].value.Some? && samples[n - 1].value.Some? && delta == Increment(samples, n)
    ensures Sound(samples, bucketMs, n + 1, AddTo(d, BucketOf(samples[n].ts, bucketMs), delta))
  {
    if Summable(samples) {
      BucketsGrow(samples, bucketMs, n, d);
    }
  }

  /** Buckets of time-sorted samples appear in increasing order. */
  ghost predicate Ordered<V>(samples: seq<Sample>, bucketMs: int, n: nat, d: seq<Point<V>>)
    requires bucketMs > 0 && n <= |samples|
  {
    SortedTimes(samples) ==>
      && Increasing(d)
      && (n == 0 ==> d == [])
      && (n > 0 ==> forall k :: 0 <= k < |d| ==> d[k].start <= BucketOf(samples[n - 1].ts, bucketMs))
  }

  lemma OrderedStep<V>(samples: seq<Sample>, bucketMs: int, n: nat, d: seq<Point<V>>, value: V)
    requires bucketMs > 0 && n < |samples| && Ordered(samples, bucketMs, n, d)
    ensures Ordered(samples, bucketMs, n + 1, d)
    ensures Ordered(samples, bucketMs, n + 1, Put(d, BucketOf(samples[n].ts, bucketMs), value))
  {
    if SortedTimes(samples) {
      if n > 0 {
        BucketMonotone(samples[n - 1].ts, samples[n].ts, bucketMs);
      }
      PutKeepsOrder(d, BucketOf(samples[n].ts, bucketMs), value);
    }
  }

  /** points are the increments of the samples, bucket by bucket. */
  ghost predicate IsDeltaSeries(samples: seq<Sample>, bucketMs: int, buckets: seq<Point<int>>, points: seq<Point<int>>)
    requires Summable(samples) && bucketMs > 0
  {
    && points == InSeconds(buckets) && DeltaBuckets(samples, bucketMs, |samples|, buckets)
    && (SortedTimes(samples) ==> Increasing(buckets))
  }

  /** None where the original raises. */
  method DeltaSeries(samples: seq<Sample>, bucketMs: int) returns (r: Option<seq<Point<int>>>)
    requires bucketMs > 0
    ensures r.Some? <==> Summable(samples)
    ensures r.Some? ==> exists buckets :: IsDeltaSeries(samples, bucketMs, buckets, r.value)
  {
    var dict: seq<Point<int>> := [];
    var previous: Option<int> := None;
    for i := 0 to |samples|
      invariant previous == if i <= Leading(samples) then None else samples[i - 1].value
      invariant forall j :: Leading(samples) < j < i ==> samples[j].value.Some?
      invariant Sound(samples, bucketMs, i, dict)
      invariant Ordered(samples, bucketMs, i, dict)
    {
      var value := samples[i].value;
      if previous.None? {
        previous := value;
        Uncounted(samples, bucketMs, i, dict);
        OrderedStep(samples, bucketMs, i, dict, 0);
        continue;
      }
      var delta := value;
      if value.Some? && value.value >= previous.value {
        delta := Some(value.value - previous.value);
      }
      if delta.None? {
        return None;
      }
      var bucket := BucketOf(samples[i].ts, bucketMs);
      SoundStep(samples, bucketMs, i, dict, delta.value);
      OrderedStep(samples, bucketMs, i, dict, GetOr(Lookup(dict, bucket), 0) + delta.value);
      dict := AddTo(dict, bucket, delta.value);
      previous := value;
    }
    r := Some(InSeconds(dict));
    assert IsDeltaSeries(samples, bucketMs, dict, r.value);
  }

  lemma Uncounted(samples: seq<Sample>, bucketMs: int, n: nat, buckets: seq<Point<int>>)
    requires bucketMs > 0 && n < |samples| && !Counts(samples, n)
    ensures Sound(samples, bucketMs, n, buckets) ==> Sound(samples, bucketMs, n + 1, buckets)
  {
    if Summable(samples) && DeltaBuckets(samples, bucketMs, n, buckets) {
      forall key ensures HasSample(samples, bucketMs, key, n + 1) <==> HasSample(samples, bucketMs, key, n) {
      }
    }
  }

  /** Conservation: the buckets of any size add up to the same amount. */
  lemma TotalIndependentOfSize(samples: seq<Sample>, a: int, b: int, d: seq<Point<int>>, e: seq<Point<int>>)
    requires Summable(samples) && a > 0 && b > 0
    requires DeltaBuckets(samples, a, |samples|, d) && DeltaBuckets(samples, b, |samples|, e)
    ensures Total(InSeconds(d)) == Total(InSeconds(e)) == SumAll(samples, |samples|)
  {
    InSecondsTotal(d);
    InSecondsTotal(e);
  }

  lemma {:induction false} InSecondsTotal(d: seq<Point<int>>)
    ensures Total(InSeconds(d)) == Total(d)
  {
    if d != [] {
      var n := |d| - 1;
      InSecondsTotal(d[..n]);
      assert InSeconds(d)[..n] == InSeconds(d[..n]);
    }
  }

  /** What the counter had reached before each of its resets among the samples before n. */
  function BeforeResets(samples: seq<Sample>, n: nat): int
    requires Summable(samples) && n <= |samples|
  {
    if n == 0 then 0
    else BeforeResets(samples, n - 1) +
         (if Counts(samples, n - 1) && samples[n - 1].value.value < samples[n - 2].value.value
          then samples[n - 2].value.value else 0)
  }

  /** With any resets: the total is the last value minus the first, and what the counter
      had reached before each reset. */
  lemma {:induction false} TotalWithResets(samples: seq<Sample>, n: nat)
    requires Summable(samples) && Leading(samples) < n <= |samples|
    ensures SumAll(samples, n) ==
            samples[n - 1].value.value - samples[Leading(samples)].value.value + BeforeResets(samples, n)
  {
    if n == Leading(samples) + 1 {
      NothingBefore(samples, n);
    } else {
      TotalWithResets(samples, n - 1);
      assert Counts(samples, n - 1);
    }
  }

  /** For a counter that is never reset the total is the last value minus the first. */
  lemma {:induction false} MonotoneTotal(samples: seq<Sample>, n: nat)
    requires Summable(samples) && Leading(samples) < n <= |samples|
    requires forall j :: Counts(samples, j) ==> samples[j].value.value >= samples[j - 1].value.value
    ensures SumAll(samples, n) == samples[n - 1].value.value - samples[Leading(samples)].value.value
  {
    if n == Leading(samples) + 1 {
      NothingBefore(samples, n);
    } else {
      MonotoneTotal(samples, n - 1);
      assert Counts(samples, n - 1);
    }
  }

  lemma {:induction false} NothingBefore(samples: seq<Sample>, n: nat)
    requires Summable(samples) && n <= |samples| && n <= Leading(samples) + 1
    ensures SumAll(samples, n) == 0 == BeforeResets(samples, n)
  {
    if n > 0 {
      NothingBefore(samples, n - 1);
    }
  }

  /** Sizes that are whole seconds lose nothing in the division by 1000: each point's
      second starts a bucket, which holds exactly the samples it counts. */
  lemma SecondsAreExact(samples: seq<Sample>, seconds: int, buckets: seq<Point<int>>, k: nat, j: int)
    requires Summable(samples) && seconds > 0 && k < |buckets| && Counts(samples, j)
    requires DeltaBuckets(samples, seconds * 1000, |samples|, buckets)
    ensures InSeconds(buckets)[k].start * 1000 == buckets[k].start
    ensures buckets[k].start % (seconds * 1000) == 0
    ensures BucketOf(samples[j].ts, seconds * 1000) == buckets[k].start <==>
            buckets[k].start <= samples[j].ts < buckets[k].start + seconds * 1000
  {
    var m := seconds * 1000;
    LookupAt(buckets, k);
    assert HasSample(samples, m, buckets[k].start, |samples|);
    var i :| 0 <= i < |samples| && Counts(samples, i) && BucketOf(samples[i].ts, m) == buckets[k].start;
    BucketIsMultiple(samples[i].ts, seconds);
    SameBucket(samples[j].ts, buckets[k].start, m);
  }

  lemma BucketIsMultiple(ts: int, seconds: int)
    requires seconds > 0
    ensures BucketOf(ts, seconds * 1000) % 1000 == 0
    ensures BucketOf(ts, seconds * 1000) % (seconds * 1000) == 0
  {
    var m := seconds * 1000;
    var q := ts / m;
    assert BucketOf(ts, m) == m * q;
    assert m * q == 1000 * (seconds * q);
    DivUnique(m * q, m, q, 0);
    DivUnique(m * q, 1000, seconds * q, 0);
  }

  lemma SameBucket(ts: int, start: int, m: int)
    requires m > 0 && start % m == 0
    ensures BucketOf(ts, m) == start <==> start <= ts < start + m
  {
    var x, y := ts / m, start / m;
    assert ts == m * x + ts % m && start == m * y;
    if x < y {
      MulStep(m, y, x);
    } else if x > y {
      MulStep(m, x, y);
    }
  }

  // ---------- counters ----------

  /** The last value reported in a bucket by the samples before n. */
  function LastIn(samples: seq<Sample>, bucketMs: int, key: int, n: nat): Option<Option<int>>
    requires bucketMs > 0 && n <= |samples|
  {
    if n == 0 then None
    else if BucketOf(samples[n - 1].ts, bucketMs) == key then Some(samples[n - 1].value)
    else LastIn(samples, bucketMs, key, n - 1)
  }

  /** That value is of a sample in the bucket, after which no other falls into it. */
  lemma {:induction false} LastInExactly(samples: seq<Sample>, bucketMs: int, key: int, n: nat, value: Option<int>)
    requires bucketMs > 0 && n <= |samples|
    ensures LastIn(samples, bucketMs, key, n) == Some(value) <==>
            exists j :: 0 <= j < n && samples[j].value == value && LatestIn(samples, bucketMs, key, n, j)
  {
    if n > 0 && BucketOf(samples[n - 1].ts, bucketMs) != key {
      LastInExactly(samples, bucketMs, key, n - 1, value);
      forall j | 0 <= j < n - 1
        ensures LatestIn(samples, bucketMs, key, n, j) <==> LatestIn(samples, bucketMs, key, n - 1, j)
      {
      }
    } else if n > 0 {
      assert LatestIn(samples, bucketMs, key, n, n - 1);
    }
  }

  ghost predicate LatestIn(samples: seq<Sample>, bucketMs: int, key: int, n: nat, j: nat)
    requires bucketMs > 0 && j < n <= |samples|
  {
    BucketOf(samples[j].ts, bucketMs) == key && forall m :: j < m < n ==> BucketOf(samples[m].ts, bucketMs) != key
  }

  /** points are the last values of the samples, bucket by bucket. */
  ghost predicate IsCounterSeries(samples: seq<Sample>, bucketMs: int, buckets: seq<Point<Option<int>>>,
                                  points: seq<Point<Option<int>>>)
    requires bucketMs > 0
  {
    && points == InSeconds(buckets) && DistinctStarts(buckets)
    && (forall key :: Lookup(buckets, key) == LastIn(samples, bucketMs, key, |samples|))
    && (SortedTimes(samples) ==> Increasing(buckets))
  }

  method CounterSeries(samples: seq<Sample>, bucketMs: int) returns (r: seq<Point<Option<int>>>)
    requires bucketMs > 0
    ensures exists buckets :: IsCounterSeries(samples, bucketMs, buckets, r)
  {
    var dict: seq<Point<Option<int>>> := [];
    for i := 0 to |samples|
      invariant DistinctStarts(dict)
      invariant forall key :: Lookup(dict, key) == LastIn(samples, bucketMs, key, i)
      invariant Ordered(samples, bucketMs, i, dict)
    {
      var bucket := BucketOf(samples[i].ts, bucketMs);
      PutLooksUp(dict, bucket, samples[i].value);
      OrderedStep(samples, bucketMs, i, dict, samples[i].value);
      dict := Put(dict, bucket, samples[i].value);
    }
    r := InSeconds(dict);
    assert IsCounterSeries(samples, bucketMs, dict, r);
  }
}
