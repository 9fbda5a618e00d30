/** Hourly open/high/low/close candles. A time is a count of milliseconds; a bucket is named by the start of its hour, which
    orders like the ISO text of that hour. */
module Ohlc {
  import opened Sorting

  const HOUR_MS := 3_600_000

  datatype Period = Hour | Day | Week | Month

  /** The length of a period a chart can ask for. */
  function PeriodHours(p: Period): int {
    match p
    case Hour => 1
    case Day => 24
    case Week => 24 * 7
    case Month => 24 * 30
  }

  datatype Point = Point(rate: real, at: int)

  datatype Group = Group(bucket: int, points: seq<Point>)

  /** An entry of the buckets map: it is created with its first point. */
  type Bucket = g: Group | g.points != [] witness Group(0, [Point(0.0, 0)])

  datatype Candle = Candle(bucket: int, open: real, high: real, low: real, close: real)

  // Division by a positive number rounds down here, as Math.floor does.
  function HourOf(at: int): (h: int)
    ensures h % 3_600_000 == 0 && h <= at < h + 3_600_000
  {
    at / HOUR_MS * HOUR_MS
  }

  const AT_OF := (p: Point) => p.at
  const BUCKET_OF := (g: Bucket) => g.bucket
  const CANDLE_BUCKET := (c: Candle) => c.bucket

  function InHour(h: int): Point -> bool { (p: Point) => HourOf(p.at) == h }
  function Before(t: int): Point -> bool { (p: Point) => p.at < t }
  function From(t: int): Point -> bool { (p: Point) => p.at >= t }

  /** The points of one hour in their given order. */
  function HourPoints(points: seq<Point>, h: int): seq<Point> {
    Filter(points, InHour(h))
  }

  // ---------------------------------------------------------------- the computation

  /** The entry of hour h, looked up in the map. */
  function IndexOf(g: seq<Bucket>, h: int): (i: int)
    ensures i == |g| ==> forall k :: 0 <= k < |g| ==> g[k].bucket != h
    ensures i != |g| ==> 0 <= i < |g| && g[i].bucket == h
  {
    if g == [] then 0 else if g[|g| - 1].bucket == h then |g| - 1 else
      var i := IndexOf(g[..|g| - 1], h);
      if i == |g| - 1 then |g| else i
  }

  /** An existing entry keeps its place in the map; a new one goes to the end. */
  function Put(g: seq<Bucket>, p: Point): seq<Bucket> {
    var h := HourOf(p.at);
    var i := IndexOf(g, h);
    if i == |g| then g + [Group(h, [p])] else g[i := Group(h, g[i].points + [p])]
  }

  function Groups(s: seq<Point>): seq<Bucket> {
    if s == [] then [] else Put(Groups(s[..|s| - 1]), s[|s| - 1])
  }

  function Highest(s: seq<Point>): (r: real)
    requires s != []
    ensures (exists p :: p in s && p.rate == r) && forall p :: p in s ==> p.rate <= r
  {
    assert s == s[..|s| - 1] + [s[|s| - 1]];
    var x := s[|s| - 1];
    if |s| == 1 then assert x in s; x.rate else
      var m := Highest(s[..|s| - 1]);
      if m < x.rate then assert x in s; x.rate else m
  }

  function Lowest(s: seq<Point>): (r: real)
    requires s != []
    ensures (exists p :: p in s && p.rate == r) && forall p :: p in s ==> r <= p.rate
  {
    assert s == s[..|s| - 1] + [s[|s| - 1]];
    var x := s[|s| - 1];
    if |s| == 1 then assert x in s; x.rate else
      var m := Lowest(s[..|s| - 1]);
      if x.rate < m then assert x in s; x.rate else m
  }

  function CandleOf(g: Bucket): Candle {
    Candle(g.bucket, g.points[0].rate, Highest(g.points), Lowest(g.points), g.points[|g.points| - 1].rate)
  }

  function Candles(g: seq<Bucket>): seq<Candle> {
    seq(|g|, i requires 0 <= i < |g| => CandleOf(g[i]))
  }

  function ToOhlc(points: seq<Point>): seq<Candle> {
    SortBy(Candles(Groups(SortBy(points, AT_OF))), CANDLE_BUCKET)
  }

  /** The points recorded in the trailing period, the cutoff included. */
  function WithinPeriod(points: seq<Point>, period: Period, now: int): seq<Point> {
    Filter(points, From(Cutoff(period, now)))
  }

  function Cutoff(period: Period, now: int): int {
    now - PeriodHours(period) * 3_600_000
  }

  // ---------------------------------------------------------------- grouping an ascending sequence

  /** A later point goes into the last bucket or opens a new one behind it. */
  function PutLast(g: seq<Bucket>, p: Point): seq<Bucket> {
    var h := HourOf(p.at);
    if g == [] || g[|g| - 1].bucket != h then g + [Group(h, [p])]
    else g[..|g| - 1] + [Group(h, g[|g| - 1].points + [p])]
  }

  /** Each bucket holds exactly the points of its hour. */
  ghost predicate Exact(g: seq<Bucket>, s: seq<Point>) {
    forall k :: 0 <= k < |g| ==> g[k].points == HourPoints(s, g[k].bucket)
  }

  ghost predicate HasBucket(g: seq<Bucket>, h: int) {
    exists k :: 0 <= k < |g| && g[k].bucket == h
  }

  /** An hour has a bucket exactly if it has a point. */
  ghost predicate Covers(g: seq<Bucket>, s: seq<Point>) {
    forall h: int {:trigger HasBucket(g, h)} :: HasBucket(g, h) <==> HourPoints(s, h) != []
  }

  /** The buckets of s: ascending, exact, complete, and ending with the hour of the last point. */
  ghost predicate Grouped(g: seq<Bucket>, s: seq<Point>) {
    StrictlyAscending(g, BUCKET_OF) && Exact(g, s) && Covers(g, s)
    && (g == [] <==> s == [])
    && (s != [] ==> g[|g| - 1].bucket == HourOf(s[|s| - 1].at))
  }

  lemma PutIsPutLast(g: seq<Bucket>, s: seq<Point>, p: Point)
    requires Grouped(g, s) && (s == [] || s[|s| - 1].at <= p.at)
    ensures Put(g, p) == PutLast(g, p)
  {
    var h, i := HourOf(p.at), IndexOf(g, HourOf(p.at));
    if g != [] {
      assert forall k :: 0 <= k < |g| - 1 ==> BUCKET_OF(g[k]) < BUCKET_OF(g[|g| - 1]);
      assert g[|g| - 1].bucket <= h;
      if i != |g| { assert g[i].bucket == h; }
    }
  }

  lemma HourPointsAppend(s: seq<Point>, p: Point, h: int)
    ensures HourPoints(s + [p], h) == if h == HourOf(p.at) then HourPoints(s, h) + [p] else HourPoints(s, h)
  {
    FilterAppend(s, p, InHour(h));
  }

  lemma PutLastAscends(g: seq<Bucket>, p: Point)
    requires StrictlyAscending(g, BUCKET_OF) && (g != [] ==> g[|g| - 1].bucket <= HourOf(p.at))
    ensures StrictlyAscending(PutLast(g, p), BUCKET_OF)
  {
    assert forall i :: 0 <= i < |g| - 1 ==> BUCKET_OF(g[i]) < BUCKET_OF(g[|g| - 1]);
  }

  lemma PutLastExact(g: seq<Bucket>, s: seq<Point>, p: Point)
    requires Grouped(g, s) && (g != [] ==> g[|g| - 1].bucket <= HourOf(p.at))
    ensures Exact(PutLast(g, p), s + [p])
  {
    var g', h := PutLast(g, p), HourOf(p.at);
    assert forall j :: 0 <= j < |g| - 1 ==> BUCKET_OF(g[j]) < BUCKET_OF(g[|g| - 1]);
    forall k | 0 <= k < |g'| ensures g'[k].points == HourPoints(s + [p], g'[k].bucket) {
      HourPointsAppend(s, p, g'[k].bucket);
      if k == |g| { assert !HasBucket(g, h); }
    }
  }

  lemma PutLastCovers(g: seq<Bucket>, s: seq<Point>, p: Point)
    requires Covers(g, s)
    ensures Covers(PutLast(g, p), s + [p])
  {
    var g' := PutLast(g, p);
    forall h: int ensures HasBucket(g', h) <==> HourPoints(s + [p], h) != [] {
      HourPointsAppend(s, p, h);
      assert HasBucket(g, h) <==> HourPoints(s, h) != [];
      assert g'[|g'| - 1].bucket == HourOf(p.at);
      if HasBucket(g, h) {
        var k :| 0 <= k < |g| && g[k].bucket == h;
        assert g'[k].bucket == h;
      }
    }
  }

  lemma PutLastGroups(g: seq<Bucket>, s: seq<Point>, p: Point)
    requires Grouped(g, s) && (s == [] || s[|s| - 1].at <= p.at)
    ensures Grouped(PutLast(g, p), s + [p])
  {
    PutLastAscends(g, p);
    PutLastExact(g, s, p);
    PutLastCovers(g, s, p);
  }

  lemma LastIsLatest(s: seq<Point>)
    requires Ascending(s, AT_OF) && s != []
    ensures var t, p := s[..|s| - 1], s[|s| - 1];
            s == t + [p] && Ascending(t, AT_OF) && (t == [] || t[|t| - 1].at <= p.at)
  {
    AscendingFront(s, AT_OF);
  }

  lemma {:induction false} GroupsAreGrouped(s: seq<Point>)
    requires Ascending(s, AT_OF)
    ensures Grouped(Groups(s), s)
  {
    if s != [] {
      var t, p := s[..|s| - 1], s[|s| - 1];
      LastIsLatest(s);
      GroupsAreGrouped(t);
      PutIsPutLast(Groups(t), t, p);
      PutLastGroups(Groups(t), t, p);
    }
  }

  // ---------------------------------------------------------------- every point is in one candle

  function Flatten(g: seq<Bucket>): seq<Point> {
    if g == [] then [] else Flatten(g[..|g| - 1]) + g[|g| - 1].points
  }

  lemma FlattenAppend(g: seq<Bucket>, b: Bucket)
    ensures Flatten(g + [b]) == Flatten(g) + b.points
  {
    assert (g + [b])[..|g|] == g;
  }

  lemma FlattenPutLast(g: seq<Bucket>, p: Point)
    ensures Flatten(PutLast(g, p)) == Flatten(g) + [p]
  {
    if g == [] || g[|g| - 1].bucket != HourOf(p.at) {
      FlattenAppend(g, Group(HourOf(p.at), [p]));
    } else {
      FlattenAppend(g[..|g| - 1], Group(HourOf(p.at), g[|g| - 1].points + [p]));
    }
  }

  lemma GroupsStep(t: seq<Point>, p: Point)
    requires Ascending(t, AT_OF) && (t == [] || t[|t| - 1].at <= p.at)
    ensures Groups(t + [p]) == PutLast(Groups(t), p)
  {
    assert (t + [p])[..|t|] == t;
    GroupsAreGrouped(t);
    PutIsPutLast(Groups(t), t, p);
  }

  /** Read one after the other, the buckets are the sorted points: none is lost, none is used twice. */
  lemma {:induction false} BucketsPartition(s: seq<Point>)
    requires Ascending(s, AT_OF)
    ensures Flatten(Groups(s)) == s
  {
    if s != [] {
      LastIsLatest(s);
      BucketsPartition(s[..|s| - 1]);
      PartitionStep(s[..|s| - 1], s[|s| - 1]);
    }
  }

  lemma PartitionStep(t: seq<Point>, p: Point)
    requires Ascending(t, AT_OF) && (t == [] || t[|t| - 1].at <= p.at) && Flatten(Groups(t)) == t
    ensures Flatten(Groups(t + [p])) == t + [p]
  {
    GroupsStep(t, p);
    FlattenPutLast(Groups(t), p);
  }

  // ---------------------------------------------------------------- what the candles are

  /** c sums up f, the points of one hour in input order: it opens with the first of the earliest, closes with the last of the
      latest, and its high and low are reached and not exceeded. */
  ghost predicate Summarises(c: Candle, f: seq<Point>) {
    (exists i :: IsFirst(f, i, AT_OF) && c.open == f[i].rate)
    && (exists i :: IsLast(f, i, AT_OF) && c.close == f[i].rate)
    && (exists p :: p in f && p.rate == c.high) && (forall p :: p in f ==> p.rate <= c.high)
    && (exists p :: p in f && p.rate == c.low) && (forall p :: p in f ==> c.low <= p.rate)
  }

  ghost predicate HasCandle(cs: seq<Candle>, h: int) {
    exists k :: 0 <= k < |cs| && cs[k].bucket == h
  }

  /** One candle for every hour with a point, in ascending order, each summing up its hour. */
  ghost predicate IsChart(cs: seq<Candle>, points: seq<Point>) {
    StrictlyAscending(cs, CANDLE_BUCKET)
    && (forall h: int {:trigger HasCandle(cs, h)} :: HasCandle(cs, h) <==> HourPoints(points, h) != [])
    && (forall c :: c in cs ==> Summarises(c, HourPoints(points, c.bucket)))
  }

  lemma SummaryOfSorted(g: Bucket, f: seq<Point>)
    requires f != [] && g.points == SortBy(f, AT_OF)
    ensures Summarises(CandleOf(g), f)
  {
    SortFirst(f, AT_OF);
    SortLast(f, AT_OF);
    SortFacts(f, AT_OF);
    forall p ensures p in f <==> p in g.points {
      assert p in f <==> p in multiset(f);
    }
  }

  lemma SummaryIsUnique(c: Candle, d: Candle, f: seq<Point>)
    requires Summarises(c, f) && Summarises(d, f) && c.bucket == d.bucket
    ensures c == d
  {
  }

  lemma CandlesAscend(g: seq<Bucket>)
    requires StrictlyAscending(g, BUCKET_OF)
    ensures StrictlyAscending(Candles(g), CANDLE_BUCKET)
  {
    forall i, j | 0 <= i < j < |g| ensures CANDLE_BUCKET(Candles(g)[i]) < CANDLE_BUCKET(Candles(g)[j]) {
      assert BUCKET_OF(g[i]) < BUCKET_OF(g[j]);
    }
  }

  /** The buckets come out ascending, so the final sort changes nothing. */
  lemma FinalSortIsIdentity(points: seq<Point>)
    ensures ToOhlc(points) == Candles(Groups(SortBy(points, AT_OF)))
    ensures StrictlyAscending(ToOhlc(points), CANDLE_BUCKET)
  {
    var s := SortBy(points, AT_OF);
    SortFacts(points, AT_OF);
    GroupsAreGrouped(s);
    CandlesAscend(Groups(s));
    SortIdentity(Candles(Groups(s)), CANDLE_BUCKET);
  }

  lemma SortedHour(points: seq<Point>, h: int)
    ensures HourPoints(SortBy(points, AT_OF), h) == SortBy(HourPoints(points, h), AT_OF)
    ensures HourPoints(SortBy(points, AT_OF), h) == [] <==> HourPoints(points, h) == []
  {
    SortFilter(points, AT_OF, InHour(h));
    SortFacts(HourPoints(points, h), AT_OF);
  }

  lemma CandleForEveryHour(g: seq<Bucket>, points: seq<Point>)
    requires Covers(g, SortBy(points, AT_OF))
    ensures forall h: int {:trigger HasCandle(Candles(g), h)} :: HasCandle(Candles(g), h) <==> HourPoints(points, h) != []
  {
    forall h: int ensures HasCandle(Candles(g), h) <==> HourPoints(points, h) != [] {
      SortedHour(points, h);
      assert HasBucket(g, h) <==> HourPoints(SortBy(points, AT_OF), h) != [];
      assert forall k :: 0 <= k < |g| ==> Candles(g)[k].bucket == g[k].bucket;
    }
  }

  lemma CandlesSummarise(g: seq<Bucket>, points: seq<Point>)
    requires Exact(g, SortBy(points, AT_OF))
    ensures forall c :: c in Candles(g) ==> Summarises(c, HourPoints(points, c.bucket))
  {
    forall c | c in Candles(g) ensures Summarises(c, HourPoints(points, c.bucket)) {
      var k :| 0 <= k < |g| && Candles(g)[k] == c;
      SortedHour(points, c.bucket);
      assert g[k].points == HourPoints(SortBy(points, AT_OF), g[k].bucket);
      SummaryOfSorted(g[k], HourPoints(points, c.bucket));
    }
  }

  lemma OhlcIsChart(points: seq<Point>)
    ensures IsChart(ToOhlc(points), points)
  {
    SortFacts(points, AT_OF);
    GroupsAreGrouped(SortBy(points, AT_OF));
    FinalSortIsIdentity(points);
    CandleForEveryHour(Groups(SortBy(points, AT_OF)), points);
    CandlesSummarise(Groups(SortBy(points, AT_OF)), points);
  }

  lemma ChartContains(cs: seq<Candle>, ds: seq<Candle>, points: seq<Point>, c: Candle)
    requires IsChart(cs, points) && IsChart(ds, points) && c in cs
    ensures c in ds
  {
    assert HasCandle(cs, c.bucket);
    assert HasCandle(ds, c.bucket);
    var k :| 0 <= k < |ds| && ds[k].bucket == c.bucket;
    assert ds[k] in ds;
    SummaryIsUnique(c, ds[k], HourPoints(points, c.bucket));
  }

  /** The result is the one chart of the points: nothing else meets the description, and the result does. */
  lemma OhlcExactly(points: seq<Point>, cs: seq<Candle>)
    ensures cs == ToOhlc(points) <==> IsChart(cs, points)
  {
    OhlcIsChart(points);
    if IsChart(cs, points) {
      var ds := ToOhlc(points);
      forall c ensures c in cs <==> c in ds {
        if c in cs { ChartContains(cs, ds, points, c); }
        if c in ds { ChartContains(ds, cs, points, c); }
      }
      StrictlySortedUnique(cs, ds, CANDLE_BUCKET);
    }
  }

  // ---------------------------------------------------------------- splitting, reordering, trailing periods

  lemma HourPointsOfPart(points: seq<Point>, bound: int, h: int)
    requires bound % HOUR_MS == 0 && h % HOUR_MS == 0
    ensures HourPoints(Filter(points, Before(bound)), h) == if h < bound then HourPoints(points, h) else []
    ensures HourPoints(Filter(points, From(bound)), h) == if h < bound then [] else HourPoints(points, h)
  {
    if h < bound {
      FilterFilter(points, Before(bound), InHour(h), InHour(h));
      FilterDisjoint(points, From(bound), InHour(h));
    } else {
      FilterFilter(points, From(bound), InHour(h), InHour(h));
      FilterDisjoint(points, Before(bound), InHour(h));
    }
  }

  lemma OffTheHour(points: seq<Point>, h: int)
    requires h % HOUR_MS != 0
    ensures HourPoints(points, h) == []
  {
    FilterNone(points, InHour(h));
  }

  lemma CandleHasPoint(cs: seq<Candle>, points: seq<Point>, c: Candle)
    requires IsChart(cs, points) && c in cs
    ensures c.bucket % HOUR_MS == 0 && exists p :: p in points && HourOf(p.at) == c.bucket
  {
    assert HasCandle(cs, c.bucket);
    if c.bucket % HOUR_MS != 0 { OffTheHour(points, c.bucket); }
    FilterMembers(points, InHour(c.bucket));
    var p := HourPoints(points, c.bucket)[0];
    assert p in HourPoints(points, c.bucket);
  }

  /** Charts of the points before and from an hour boundary. */
  lemma ChartsJoin(points: seq<Point>, bound: int, cs: seq<Candle>, ds: seq<Candle>)
    requires bound % HOUR_MS == 0
    requires IsChart(cs, Filter(points, Before(bound))) && IsChart(ds, Filter(points, From(bound)))
    ensures IsChart(cs + ds, points)
  {
    var below, above := Filter(points, Before(bound)), Filter(points, From(bound));
    forall c | c in cs ensures c.bucket < bound && Summarises(c, HourPoints(points, c.bucket)) {
      CandleHasPoint(cs, below, c);
      FilterMembers(points, Before(bound));
      HourPointsOfPart(points, bound, c.bucket);
    }
    forall c | c in ds ensures c.bucket >= bound && Summarises(c, HourPoints(points, c.bucket)) {
      CandleHasPoint(ds, above, c);
      FilterMembers(points, From(bound));
      HourPointsOfPart(points, bound, c.bucket);
    }
    JoinAscends(cs, ds, bound);
    forall h: int ensures HasCandle(cs + ds, h) <==> HourPoints(points, h) != [] {
      HasCandleJoin(cs, ds, h);
      assert HasCandle(cs, h) <==> HourPoints(below, h) != [];
      assert HasCandle(ds, h) <==> HourPoints(above, h) != [];
      if h % HOUR_MS == 0 {
        HourPointsOfPart(points, bound, h);
      } else {
        OffTheHour(points, h);
        OffTheHour(below, h);
        OffTheHour(above, h);
      }
    }
  }

  lemma HasCandleJoin(cs: seq<Candle>, ds: seq<Candle>, h: int)
    ensures HasCandle(cs + ds, h) <==> HasCandle(cs, h) || HasCandle(ds, h)
  {
    if HasCandle(cs, h) {
      var k :| 0 <= k < |cs| && cs[k].bucket == h;
      assert (cs + ds)[k].bucket == h;
    }
    if HasCandle(ds, h) {
      var k :| 0 <= k < |ds| && ds[k].bucket == h;
      assert (cs + ds)[|cs| + k].bucket == h;
    }
  }

  lemma JoinAscends(cs: seq<Candle>, ds: seq<Candle>, bound: int)
    requires StrictlyAscending(cs, CANDLE_BUCKET) && StrictlyAscending(ds, CANDLE_BUCKET)
    requires (forall c :: c in cs ==> c.bucket < bound) && forall c :: c in ds ==> c.bucket >= bound
    ensures StrictlyAscending(cs + ds, CANDLE_BUCKET)
  {
    var es := cs + ds;
    forall i, j | 0 <= i < j < |es| ensures CANDLE_BUCKET(es[i]) < CANDLE_BUCKET(es[j]) {
      if i < |cs| <= j {
        assert cs[i] in cs && ds[j - |cs|] in ds;
      }
    }
  }

  /** Splitting the points at any hour boundary splits the chart there. */
  lemma HourSplit(points: seq<Point>, bound: int)
    requires bound % HOUR_MS == 0
    ensures ToOhlc(points) == ToOhlc(Filter(points, Before(bound))) + ToOhlc(Filter(points, From(bound)))
  {
    var below, above := Filter(points, Before(bound)), Filter(points, From(bound));
    OhlcIsChart(below);
    OhlcIsChart(above);
    ChartsJoin(points, bound, ToOhlc(below), ToOhlc(above));
    OhlcExactly(points, ToOhlc(below) + ToOhlc(above));
  }

  /** With distinct times the chart depends on the set of points only. */
  lemma OrderDoesNotMatter(a: seq<Point>, b: seq<Point>)
    requires DistinctKeys(a, AT_OF) && DistinctKeys(b, AT_OF) && forall p :: p in a <==> p in b
    ensures ToOhlc(a) == ToOhlc(b)
  {
    SortStrict(a, AT_OF);
    SortStrict(b, AT_OF);
    SortMembers(a, AT_OF);
    SortMembers(b, AT_OF);
    StrictlySortedUnique(SortBy(a, AT_OF), SortBy(b, AT_OF), AT_OF);
  }

  /** Two points of one instant show their order: the first gives the opening rate. */
  lemma TiesShowOrder(p: Point, q: Point)
    requires p.at == q.at && p.rate != q.rate
    ensures ToOhlc([p, q]) != ToOhlc([q, p])
  {
    SortIdentity([p, q], AT_OF);
    SortIdentity([q, p], AT_OF);
    GroupOfTwo(p, q);
    GroupOfTwo(q, p);
    ChartOfOneGroup([p, q], Group(HourOf(p.at), [p, q]));
    ChartOfOneGroup([q, p], Group(HourOf(p.at), [q, p]));
  }

  lemma ChartOfOneGroup(points: seq<Point>, g: Bucket)
    requires Groups(SortBy(points, AT_OF)) == [g]
    ensures ToOhlc(points) == [CandleOf(g)]
  {
    FinalSortIsIdentity(points);
  }

  lemma GroupOfTwo(p: Point, q: Point)
    requires p.at == q.at
    ensures Groups([p, q]) == [Group(HourOf(p.at), [p, q])]
  {
    var g: seq<Bucket> := [Group(HourOf(p.at), [p])];
    assert [p, q][..1] == [p] && [p][..0] == [];
    assert Groups([p]) == Put([], p) == g;
    assert IndexOf(g, HourOf(q.at)) == 0;
    assert Put(g, q) == [Group(HourOf(p.at), [p, q])] by { assert [p] + [q] == [p, q]; }
    assert Groups([p, q]) == Put(Groups([p, q][..1]), q);
  }

  lemma OneHourOneCandle(part: seq<Point>, h: int)
    requires forall p :: p in part ==> HourOf(p.at) == h
    ensures |ToOhlc(part)| <= 1
  {
    OhlcIsChart(part);
    var cs := ToOhlc(part);
    assert |cs| > 1 ==> CANDLE_BUCKET(cs[0]) < CANDLE_BUCKET(cs[1]) && cs[0] in cs && cs[1] in cs;
    forall c | c in cs ensures c.bucket == h { CandleHasPoint(cs, part, c); }
  }

  lemma LastPartialHour(at: int, bound: int)
    requires bound % HOUR_MS == 0 && bound - HOUR_MS <= at < bound
    ensures HourOf(at) == bound - HOUR_MS
  {
  }

  lemma PartialHour(points: seq<Point>, cutoff: int, bound: int)
    requires bound % HOUR_MS == 0 && bound - HOUR_MS < cutoff <= bound
    ensures |ToOhlc(Filter(Filter(points, From(cutoff)), Before(bound)))| <= 1
  {
    var kept := Filter(points, From(cutoff));
    var part := Filter(kept, Before(bound));
    forall p | p in part ensures HourOf(p.at) == bound - HOUR_MS {
      FilterMembers(kept, Before(bound));
      FilterMembers(points, From(cutoff));
      assert p in kept && Before(bound)(p) && From(cutoff)(p);
      LastPartialHour(p.at, bound);
    }
    OneHourOneCandle(part, bound - HOUR_MS);
  }

  lemma KeptSplit(points: seq<Point>, cutoff: int, bound: int)
    requires bound % HOUR_MS == 0 && cutoff <= bound
    ensures var kept := Filter(points, From(cutoff));
            ToOhlc(kept) == ToOhlc(Filter(kept, Before(bound))) + ToOhlc(Filter(points, From(bound)))
  {
    HourSplit(Filter(points, From(cutoff)), bound);
    FilterFilter(points, From(cutoff), From(bound), From(bound));
  }

  /** Charting the points from a cutoff on differs from charting everything in at most its first candle: from the first full
      hour on the candles are the same. */
  lemma CutoffCutsOneCandle(points: seq<Point>, cutoff: int, bound: int)
    requires bound % HOUR_MS == 0 && bound - HOUR_MS < cutoff <= bound
    ensures ToOhlc(points) == ToOhlc(Filter(points, Before(bound))) + ToOhlc(Filter(points, From(bound)))
    ensures var kept := Filter(points, From(cutoff));
            && ToOhlc(kept) == ToOhlc(Filter(kept, Before(bound))) + ToOhlc(Filter(points, From(bound)))
            && |ToOhlc(Filter(kept, Before(bound)))| <= 1
  {
    HourSplit(points, bound);
    KeptSplit(points, cutoff, bound);
    PartialHour(points, cutoff, bound);
  }

  /** A trailing period is one hour, a day, seven days or thirty; it keeps the points no older than that, in their order, however they are
      ordered. */
  lemma PeriodExactly(points: seq<Point>, p: Point, now: int)
    ensures p in WithinPeriod(points, Hour, now) <==> p in points && now - p.at <= 3_600_000
    ensures p in WithinPeriod(points, Day, now) <==> p in points && now - p.at <= 86_400_000
    ensures p in WithinPeriod(points, Week, now) <==> p in points && now - p.at <= 604_800_000
    ensures p in WithinPeriod(points, Month, now) <==> p in points && now - p.at <= 2_592_000_000
    ensures forall period :: WithinPeriod(points + [p], period, now)
                             == WithinPeriod(points, period, now) + (if p in WithinPeriod([p], period, now) then [p] else [])
  {
    forall period ensures p in WithinPeriod(points, period, now) <==> p in points && From(Cutoff(period, now))(p) {
      FilterMembers(points, From(Cutoff(period, now)));
    }
    forall period
      ensures WithinPeriod(points + [p], period, now)
              == WithinPeriod(points, period, now) + (if p in WithinPeriod([p], period, now) then [p] else [])
    {
      FilterAppend(points, p, From(Cutoff(period, now)));
      FilterMembers([p], From(Cutoff(period, now)));
    }
  }

  /** The same for the points of a trailing period. */
  lemma PeriodCutsOneCandle(points: seq<Point>, period: Period, now: int, bound: int)
    requires bound % HOUR_MS == 0 && bound - HOUR_MS < Cutoff(period, now) <= bound
    ensures var kept := WithinPeriod(points, period, now);
            && ToOhlc(kept) == ToOhlc(Filter(kept, Before(bound))) + ToOhlc(Filter(points, From(bound)))
            && |ToOhlc(Filter(kept, Before(bound)))| <= 1
  {
    CutoffCutsOneCandle(points, Cutoff(period, now), bound);
  }

  // ---------------------------------------------------------------- the loop

  /** The aggregation as it runs: sort, fill the buckets map point by point, map every entry, sort. */
  method Aggregate(points: seq<Point>) returns (candles: seq<Candle>)
    ensures IsChart(candles, points)
    ensures candles == ToOhlc(points)
  {
    var sorted := SortBy(points, AT_OF);
    var buckets: seq<Bucket> := [];
    for i := 0 to |sorted|
      invariant buckets == Groups(sorted[..i])
    {
      assert sorted[..i + 1][..i] == sorted[..i];
      buckets := Put(buckets, sorted[i]);
    }
    assert sorted[..|sorted|] == sorted;
    candles := SortBy(Candles(buckets), CANDLE_BUCKET);
    OhlcIsChart(points);
  }
}
