/** The alert trend histogram: which alerts fall into an emitted bucket. */
module Trends {
  import opened Alerts

  datatype Alert = Alert(time: real, threatClass: ThreatClass)

  /** Bucket width and window length in seconds. */
  datatype Query = Query(bucket: int, window: int)

  /** What the API admits: buckets of 1 to 60 minutes in a window of 5 to 1440 minutes. */
  predicate Admitted(q: Query) {
    60 <= q.bucket <= 3600 && 300 <= q.window <= 86400 && q.bucket % 60 == 0 && q.window % 60 == 0
  }

  /** `x // b` on real numbers. */
  function FloorDiv(x: real, b: int): int
    requires b > 0
  {
    (x / b as real).Floor
  }

  function Start(q: Query, now: real): int
    requires q.bucket > 0
  {
    FloorDiv(now - q.window as real, q.bucket) * q.bucket
  }

  function BucketOf(q: Query, start: int, time: real): int
    requires q.bucket > 0
  {
    FloorDiv(time - start as real, q.bucket)
  }

  function BucketCount(q: Query): nat
    requires q.bucket > 0 && q.window >= 0
  {
    q.window / q.bucket + 1
  }

  type Counts = map<ThreatClass, nat>
  const ZERO: Counts := map[VolumetricDos := 0, BotnetC2 := 0, DgaDns := 0, EncryptedMalware := 0, ReconScan := 0,
                            DataExfil := 0]

  datatype Point = Point(start: int, counts: Counts)

  // ---------- Specification ----------

  /** How many alerts of class `c` lie in bucket `b`, counted from `start`. */
  function CountIn(q: Query, start: int, alerts: seq<Alert>, b: int, c: ThreatClass): nat
    requires q.bucket > 0
  {
    if alerts == [] then 0
    else
      var a := alerts[|alerts| - 1];
      CountIn(q, start, alerts[..|alerts| - 1], b, c)
      + if a.time >= start as real && BucketOf(q, start, a.time) == b && a.threatClass == c then 1 else 0
  }

  predicate AllClasses(m: Counts) {
    forall c: ThreatClass :: c in m
  }

  ghost predicate BucketsOf(m: map<int, Counts>, q: Query, start: int, alerts: seq<Alert>)
    requires q.bucket > 0
  {
    && (forall b | b in m :: AllClasses(m[b]))
    && (forall b, c: ThreatClass :: (if b in m && c in m[b] then m[b][c] else 0) == CountIn(q, start, alerts, b, c))
  }

  function At(m: map<int, Counts>, b: int): Counts {
    if b in m then m[b] else ZERO
  }

  lemma {:induction false} CountStep(q: Query, start: int, alerts: seq<Alert>, a: Alert, b: int, c: ThreatClass)
    requires q.bucket > 0
    ensures CountIn(q, start, alerts + [a], b, c) == CountIn(q, start, alerts, b, c)
      + if a.time >= start as real && BucketOf(q, start, a.time) == b && a.threatClass == c then 1 else 0
  {
    assert (alerts + [a])[..|alerts|] == alerts;
  }

  lemma {:induction false} ZeroCounts(c: ThreatClass)
    ensures c in ZERO && ZERO[c] == 0
  {
    match c
    case VolumetricDos =>
    case BotnetC2 =>
    case DgaDns =>
    case EncryptedMalware =>
    case ReconScan =>
    case DataExfil =>
  }

  /** What a bucket shows, present or not. */
  lemma {:induction false} BucketShows(m: map<int, Counts>, q: Query, start: int, alerts: seq<Alert>, b: int,
                                       c: ThreatClass)
    requires q.bucket > 0 && BucketsOf(m, q, start, alerts)
    ensures c in At(m, b) && At(m, b)[c] == CountIn(q, start, alerts, b, c)
  {
    ZeroCounts(c);
  }

  /** Counting one more alert into its bucket. */
  function Bumped(m: map<int, Counts>, q: Query, start: int, a: Alert): map<int, Counts>
    requires q.bucket > 0
  {
    if a.time < start as real then m
    else
      var b := BucketOf(q, start, a.time);
      var counts := At(m, b);
      m[b := counts[a.threatClass := (if a.threatClass in counts then counts[a.threatClass] else 0) + 1]]
  }

  lemma {:induction false} BucketsStep(m: map<int, Counts>, q: Query, start: int, alerts: seq<Alert>, a: Alert)
    requires q.bucket > 0 && BucketsOf(m, q, start, alerts)
    ensures BucketsOf(Bumped(m, q, start, a), q, start, alerts + [a])
  {
    var next := Bumped(m, q, start, a);
    forall b, c: ThreatClass
      ensures (if b in next && c in next[b] then next[b][c] else 0) == CountIn(q, start, alerts + [a], b, c)
    {
      CountStep(q, start, alerts, a, b, c);
      BucketShows(m, q, start, alerts, b, c);
    }
    forall b | b in next ensures AllClasses(next[b]) {
      forall c: ThreatClass ensures c in next[b] {
        BucketShows(m, q, start, alerts, b, c);
      }
    }
  }

  // ---------- Conservation ----------

  function AllIn(q: Query, start: int, alerts: seq<Alert>, b: int): nat
    requires q.bucket > 0
  {
    CountIn(q, start, alerts, b, VolumetricDos) + CountIn(q, start, alerts, b, BotnetC2)
    + CountIn(q, start, alerts, b, DgaDns) + CountIn(q, start, alerts, b, EncryptedMalware)
    + CountIn(q, start, alerts, b, ReconScan) + CountIn(q, start, alerts, b, DataExfil)
  }

  /** The sum of all counts over the first `n` buckets. */
  function Total(q: Query, start: int, alerts: seq<Alert>, n: nat): nat
    requires q.bucket > 0
  {
    if n == 0 then 0 else Total(q, start, alerts, n - 1) + AllIn(q, start, alerts, n - 1)
  }

  /** The number of alerts stamped between two instants, the later one excluded. */
  function Between(alerts: seq<Alert>, lo: real, hi: real): nat {
    if alerts == [] then 0
    else Between(alerts[..|alerts| - 1], lo, hi) + if lo <= alerts[|alerts| - 1].time < hi then 1 else 0
  }

  lemma {:induction false} QuotientBound(x: real, b: real, n: real)
    requires b > 0.0
    ensures x / b < n <==> x < n * b
  {
    assert x == x / b * b;
    if x / b < n {
      Scale(x / b, n, b);
    } else {
      ScaleUp(n, x / b, b);
    }
  }

  lemma {:induction false} Scale(x: real, y: real, b: real)
    requires b > 0.0 && x < y
    ensures x * b < y * b
  {
  }

  lemma {:induction false} ScaleUp(x: real, y: real, b: real)
    requires b > 0.0 && x <= y
    ensures x * b <= y * b
  {
  }

  lemma {:induction false} FloorBelow(x: real, b: int, n: int)
    requires b > 0
    ensures FloorDiv(x, b) < n <==> x < n as real * b as real
  {
    QuotientBound(x, b as real, n as real);
  }

  /** An alert's bucket is below `n` exactly when it is stamped before the end of that bucket. */
  lemma {:induction false} BucketBelow(q: Query, start: int, time: real, n: nat)
    requires q.bucket > 0
    ensures BucketOf(q, start, time) < n <==> time < start as real + n as real * q.bucket as real
    ensures time >= start as real ==> BucketOf(q, start, time) >= 0
  {
    FloorBelow(time - start as real, q.bucket, n);
    FloorBelow(time - start as real, q.bucket, 0);
  }

  lemma {:induction false} TotalStep(q: Query, start: int, alerts: seq<Alert>, a: Alert, n: nat)
    requires q.bucket > 0
    ensures Total(q, start, alerts + [a], n) == Total(q, start, alerts, n)
      + if a.time >= start as real && 0 <= BucketOf(q, start, a.time) < n then 1 else 0
    decreases n
  {
    if n > 0 {
      TotalStep(q, start, alerts, a, n - 1);
      AllInStep(q, start, alerts, a, n - 1);
    }
  }

  lemma {:induction false} AllInStep(q: Query, start: int, alerts: seq<Alert>, a: Alert, b: int)
    requires q.bucket > 0
    ensures AllIn(q, start, alerts + [a], b) == AllIn(q, start, alerts, b)
      + if a.time >= start as real && BucketOf(q, start, a.time) == b then 1 else 0
  {
    CountStep(q, start, alerts, a, b, VolumetricDos);
    CountStep(q, start, alerts, a, b, BotnetC2);
    CountStep(q, start, alerts, a, b, DgaDns);
    CountStep(q, start, alerts, a, b, EncryptedMalware);
    CountStep(q, start, alerts, a, b, ReconScan);
    CountStep(q, start, alerts, a, b, DataExfil);
  }

  /** Over any number of buckets, every alert in their span is counted once, in its class. */
  lemma {:induction false} TotalIsBetween(q: Query, start: int, alerts: seq<Alert>, n: nat)
    requires q.bucket > 0
    ensures Total(q, start, alerts, n)
         == Between(alerts, start as real, start as real + n as real * q.bucket as real)
  {
    if alerts == [] {
      TotalOfNone(q, start, n);
    } else {
      var front, a := alerts[..|alerts| - 1], alerts[|alerts| - 1];
      TotalIsBetween(q, start, front, n);
      assert alerts == front + [a];
      TotalStep(q, start, front, a, n);
      BucketBelow(q, start, a.time, n);
    }
  }

  lemma {:induction false} TotalOfNone(q: Query, start: int, n: nat)
    requires q.bucket > 0
    ensures Total(q, start, [], n) == 0
  {
    if n > 0 {
      TotalOfNone(q, start, n - 1);
    }
  }

  // ---------- Where the buckets lie ----------

  /** The number of alerts of class `c` stamped from `lo` up to, not including, `hi`. */
  function StampedIn(alerts: seq<Alert>, lo: real, hi: real, c: ThreatClass): nat {
    if alerts == [] then 0
    else
      var a := alerts[|alerts| - 1];
      StampedIn(alerts[..|alerts| - 1], lo, hi, c) + if lo <= a.time < hi && a.threatClass == c then 1 else 0
  }

  /** Bucket `b` counts exactly the alerts of its stretch of time. */
  lemma {:induction false} BucketCountsItsStretch(q: Query, start: int, alerts: seq<Alert>, b: nat, c: ThreatClass)
    requires q.bucket > 0
    ensures CountIn(q, start, alerts, b, c)
         == StampedIn(alerts, start as real + b as real * q.bucket as real,
                      start as real + (b + 1) as real * q.bucket as real, c)
  {
    if alerts != [] {
      var a := alerts[|alerts| - 1];
      BucketCountsItsStretch(q, start, alerts[..|alerts| - 1], b, c);
      BucketBelow(q, start, a.time, b);
      BucketBelow(q, start, a.time, b + 1);
      StretchAfterStart(q.bucket, b);
    }
  }

  lemma {:induction false} StretchAfterStart(bucket: int, b: nat)
    requires bucket > 0
    ensures b as real * bucket as real >= 0.0
  {
  }

  /** Buckets start at whole multiples of their width, counted from 1970. */
  lemma {:induction false} StartIsAligned(q: Query, now: real) returns (k: int)
    requires q.bucket > 0
    ensures Start(q, now) == k * q.bucket
  {
    k := FloorDiv(now - q.window as real, q.bucket);
  }

  // ---------- Exactly when nothing recent is lost ----------

  /** The emitted buckets reach beyond `now`. */
  predicate Reaches(q: Query, now: real)
    requires q.bucket > 0 && q.window >= 0
  {
    now < Start(q, now) as real + BucketCount(q) as real * q.bucket as real
  }

  /** The number of alerts stamped from `lo` through `hi`. */
  function Through(alerts: seq<Alert>, lo: real, hi: real): nat {
    if alerts == [] then 0
    else Through(alerts[..|alerts| - 1], lo, hi) + if lo <= alerts[|alerts| - 1].time <= hi then 1 else 0
  }

  predicate StampedBy(alerts: seq<Alert>, now: real) {
    forall i | 0 <= i < |alerts| :: alerts[i].time <= now
  }

  lemma {:induction false} ThroughIsBetween(alerts: seq<Alert>, lo: real, hi: real, end: real)
    requires forall i | 0 <= i < |alerts| :: alerts[i].time <= hi
    requires hi < end
    ensures Between(alerts, lo, end) == Through(alerts, lo, hi)
  {
    if alerts != [] {
      ThroughIsBetween(alerts[..|alerts| - 1], lo, hi, end);
    }
  }

  /** When they do, and no alert is stamped in the future, the counts over all buckets sum to
      the number of alerts from the start of the histogram through `now`. */
  lemma {:induction false} NothingIsLost(q: Query, alerts: seq<Alert>, now: real)
    requires Admitted(q) && Reaches(q, now)
    requires StampedBy(alerts, now)
    ensures Total(q, Start(q, now), alerts, BucketCount(q)) == Through(alerts, Start(q, now) as real, now)
  {
    var start, n := Start(q, now), BucketCount(q);
    TotalIsBetween(q, start, alerts, n);
    ThroughIsBetween(alerts, start as real, now, start as real + n as real * q.bucket as real);
  }

  /** The start lies less than one bucket before `now - window`. */
  lemma {:induction false} StartBounds(q: Query, now: real)
    requires q.bucket > 0
    ensures Start(q, now) as real <= now - q.window as real < Start(q, now) as real + q.bucket as real
  {
    var x := now - q.window as real;
    var k := FloorDiv(x, q.bucket);
    FloorBelow(x, q.bucket, k);
    FloorBelow(x, q.bucket, k + 1);
    assert (k + 1) as real * q.bucket as real == k as real * q.bucket as real + q.bucket as real;
    assert (k * q.bucket) as real == k as real * q.bucket as real;
  }

  lemma {:induction false} DivisibleReaches(q: Query, now: real)
    requires Admitted(q) && q.window % q.bucket == 0
    ensures Reaches(q, now)
  {
    StartBounds(q, now);
    var n := BucketCount(q);
    assert n * q.bucket == q.window + q.bucket;
    assert n as real * q.bucket as real == (n * q.bucket) as real;
  }

  /** Otherwise they fall short again and again: once in every bucket period. */
  lemma {:induction false} IndivisibleMisses(q: Query, k: nat)
    requires Admitted(q) && q.window % q.bucket != 0
    ensures !Reaches(q, (q.window + (k + 1) * q.bucket - 1) as real)
  {
    var now := (q.window + (k + 1) * q.bucket - 1) as real;
    LastSecondOfBucket(q.bucket, k);
    assert now - q.window as real == ((k + 1) * q.bucket - 1) as real;
    assert Start(q, now) == k * q.bucket;
    var n := BucketCount(q);
    assert n * q.bucket <= q.window + q.bucket - 1;
    assert n as real * q.bucket as real == (n * q.bucket) as real;
    assert (k + 1) * q.bucket == k * q.bucket + q.bucket;
  }

  lemma {:induction false} LastSecondOfBucket(b: int, k: nat)
    requires b > 0
    ensures FloorDiv(((k + 1) * b - 1) as real, b) == k
  {
    var x := ((k + 1) * b - 1) as real;
    FloorBelow(x, b, k);
    FloorBelow(x, b, k + 1);
    assert (k + 1) * b == k * b + b;
    assert (k + 1) as real * b as real == ((k + 1) * b) as real;
    assert k as real * b as real == (k * b) as real;
  }

  /** Some such instant lies at or after any given time. */
  lemma {:induction false} LaterMiss(q: Query, from: real) returns (now: real)
    requires Admitted(q) && q.window % q.bucket != 0
    ensures now >= from && !Reaches(q, now)
  {
    var k := if from <= 0.0 then 0 else from.Floor + 1;
    IndivisibleMisses(q, k);
    ManySeconds(q.bucket, k + 1);
    now := (q.window + (k + 1) * q.bucket - 1) as real;
  }

  lemma {:induction false} ManySeconds(b: int, n: nat)
    requires b > 0
    ensures n * b >= n
  {
  }

  /** From any time on, nothing up to `now` is ever lost exactly when the bucket width divides
      the window. */
  lemma {:induction false} AlwaysReachesIffDivisible(q: Query, from: real)
    requires Admitted(q)
    ensures (forall now: real | now >= from :: Reaches(q, now)) <==> q.window % q.bucket == 0
  {
    if q.window % q.bucket == 0 {
      forall now: real ensures Reaches(q, now) {
        DivisibleReaches(q, now);
      }
    } else {
      var now := LaterMiss(q, from);
    }
  }

  // ---------- The same about the counts ----------

  /** Whatever alerts are stamped by `now`, the counts account for all from the start on. */
  ghost predicate CountsEverything(q: Query, now: real)
    requires q.bucket > 0 && q.window >= 0
  {
    forall alerts: seq<Alert> | StampedBy(alerts, now) ::
      Total(q, Start(q, now), alerts, BucketCount(q)) == Through(alerts, Start(q, now) as real, now)
  }

  /** At any one instant, no alert is lost exactly when the buckets reach beyond that instant;
      otherwise an alert stamped at that very instant is. */
  lemma {:induction false} CountsEverythingIffReaches(q: Query, now: real)
    requires Admitted(q)
    ensures CountsEverything(q, now) <==> Reaches(q, now)
  {
    if Reaches(q, now) {
      forall alerts: seq<Alert> | StampedBy(alerts, now)
        ensures Total(q, Start(q, now), alerts, BucketCount(q)) == Through(alerts, Start(q, now) as real, now)
      {
        NothingIsLost(q, alerts, now);
      }
    } else {
      AlertNowIsLost(q, now, Alert(now, BotnetC2));
    }
  }

  lemma {:induction false} AlertNowIsLost(q: Query, now: real, a: Alert)
    requires Admitted(q) && !Reaches(q, now) && a.time == now
    ensures StampedBy([a], now)
    ensures Total(q, Start(q, now), [a], BucketCount(q)) == 0 && Through([a], Start(q, now) as real, now) == 1
  {
    StartBounds(q, now);
    TotalIsBetween(q, Start(q, now), [a], BucketCount(q));
    assert [a][..0] == [];
  }

  /** From any time on, no alert is ever lost exactly when the bucket width divides the window. */
  lemma {:induction false} CountsEverythingIffDivisible(q: Query, from: real)
    requires Admitted(q)
    ensures (forall now: real | now >= from :: CountsEverything(q, now)) <==> q.window % q.bucket == 0
  {
    if q.window % q.bucket == 0 {
      forall now: real ensures CountsEverything(q, now) {
        DivisibleReaches(q, now);
        CountsEverythingIffReaches(q, now);
      }
    } else {
      var now := LaterMiss(q, from);
      CountsEverythingIffReaches(q, now);
    }
  }

  // ---------- The endpoint ----------

  function CountsTotal(m: Counts): nat {
    var f := (c: ThreatClass) => if c in m then m[c] else 0;
    f(VolumetricDos) + f(BotnetC2) + f(DgaDns) + f(EncryptedMalware) + f(ReconScan) + f(DataExfil)
  }

  /** The sum of the counts over all points and classes. */
  function SumOf(points: seq<Point>): nat {
    if points == [] then 0 else SumOf(points[..|points| - 1]) + CountsTotal(points[|points| - 1].counts)
  }

  lemma {:induction false} PointsSum(points: seq<Point>, q: Query, start: int, alerts: seq<Alert>)
    requires q.bucket > 0
    requires forall k, c: ThreatClass | 0 <= k < |points| ::
      c in points[k].counts && points[k].counts[c] == CountIn(q, start, alerts, k, c)
    ensures SumOf(points) == Total(q, start, alerts, |points|)
  {
    if points != [] {
      PointsSum(points[..|points| - 1], q, start, alerts);
    }
  }

  /** Consecutive buckets from the start of the histogram, each counting exactly the alerts
      stamped in it, per class. */
  predicate Histogram(points: seq<Point>, q: Query, alerts: seq<Alert>, now: real)
    requires Admitted(q)
  {
    && |points| == BucketCount(q)
    && forall k | 0 <= k < |points| ::
         points[k].start == Start(q, now) + k * q.bucket && AllClasses(points[k].counts)
         && forall c: ThreatClass | c in points[k].counts ::
              points[k].counts[c] == CountIn(q, Start(q, now), alerts, k, c)
  }

  /** The counts over all points sum to the alerts from the start of the histogram through now. */
  predicate CountsAll(points: seq<Point>, q: Query, alerts: seq<Alert>, now: real)
    requires Admitted(q)
  {
    SumOf(points) == Through(alerts, Start(q, now) as real, now)
  }

  /** The bucketing loop of `get_alert_trends`. */
  method FillBuckets(q: Query, start: int, alerts: seq<Alert>) returns (buckets: map<int, Counts>)
    requires q.bucket > 0
    ensures BucketsOf(buckets, q, start, alerts)
  {
    buckets := map[];
    var i := 0;
    while i < |alerts|
      invariant 0 <= i <= |alerts|
      invariant BucketsOf(buckets, q, start, alerts[..i])
    {
      var a := alerts[i];
      assert alerts[..i + 1] == alerts[..i] + [a];
      BucketsStep(buckets, q, start, alerts[..i], a);
      if a.time >= start as real {
        var b := BucketOf(q, start, a.time);
        BucketShows(buckets, q, start, alerts[..i], b, a.threatClass);
        var counts := At(buckets, b);
        buckets := buckets[b := counts[a.threatClass := counts[a.threatClass] + 1]];
      }
      i := i + 1;
    }
    assert alerts[..i] == alerts;
  }

  /** The emitted points show the buckets. */
  lemma {:induction false} PointsShow(points: seq<Point>, buckets: map<int, Counts>, q: Query, start: int,
                                      alerts: seq<Alert>)
    requires q.bucket > 0 && BucketsOf(buckets, q, start, alerts)
    requires forall j | 0 <= j < |points| :: points[j] == Point(start + j * q.bucket, At(buckets, j))
    ensures forall k | 0 <= k < |points| :: AllClasses(points[k].counts)
    ensures forall k, c: ThreatClass | 0 <= k < |points| ::
      c in points[k].counts && points[k].counts[c] == CountIn(q, start, alerts, k, c)
    ensures SumOf(points) == Total(q, start, alerts, |points|)
  {
    forall j, c: ThreatClass | 0 <= j < |points|
      ensures c in points[j].counts && points[j].counts[c] == CountIn(q, start, alerts, j, c)
    {
      BucketShows(buckets, q, start, alerts, j, c);
    }
    PointsSum(points, q, start, alerts);
  }

  /** `get_alert_trends`: the bucketing loop, then the emission loop. */
  method GetAlertTrends(q: Query, alerts: seq<Alert>, now: real) returns (points: seq<Point>)
    requires Admitted(q)
    ensures Histogram(points, q, alerts, now)
    ensures q.window % q.bucket == 0 && StampedBy(alerts, now) ==> CountsAll(points, q, alerts, now)
  {
    var start := Start(q, now);
    var buckets := FillBuckets(q, start, alerts);
    points := [];
    var k := 0;
    while k < BucketCount(q)
      invariant 0 <= k <= BucketCount(q) && |points| == k
      invariant forall j | 0 <= j < k :: points[j] == Point(start + j * q.bucket, At(buckets, j))
    {
      points := points + [Point(start + k * q.bucket, At(buckets, k))];
      k := k + 1;
    }
    PointsShow(points, buckets, q, start, alerts);
    if q.window % q.bucket == 0 && StampedBy(alerts, now) {
      DivisibleReaches(q, now);
      NothingIsLost(q, alerts, now);
    }
  }
}
