/** TS.ADD, TS.RANGE, TS.GET and the one-pass down-sampling of TS.DOWNSAMPLE. A time is an instant,
    a number of nanoseconds since Go's zero time, together with a location. Before, After and
    IsZero look at the instant only, Truncate keeps the location, and == compares both. */
module DownSampling {

  datatype Zone = Utc | Local | Other(id: nat)

  datatype Point = Point(time: int, zone: Zone, value: real)

  /** time.Truncate: down to a multiple of the interval since the zero time. */
  function Truncate(time: int, interval: int): (b: int)
    ensures b <= time || interval <= 0
  {
    if interval <= 0 then time else time - time % interval
  }

  /** The one multiple of the interval that is at most the time and less than an interval below. */
  lemma TruncateLaw(time: int, interval: int)
    ensures interval <= 0 ==> Truncate(time, interval) == time
    ensures interval > 0 ==>
            var b := Truncate(time, interval);
            b <= time < b + interval && exists k :: b == k * interval
  {
    if interval > 0 {
      var k := time / interval;
      assert Truncate(time, interval) == k * interval;
    }
  }

  lemma TimesMonotone(a: int, b: int, k: int)
    requires a <= b && k > 0
    ensures a * k <= b * k
  {
    assert (b - a) * k >= 0;
  }

  lemma QuotientMonotone(s: int, t: int, k: int)
    requires s <= t && k > 0
    ensures s / k <= t / k
  {
    var a, b := s / k, t / k;
    assert s == a * k + s % k && t == b * k + t % k;
    if b < a { TimesMonotone(b + 1, a, k); }
  }

  lemma TruncateIs(time: int, interval: int)
    requires interval > 0
    ensures Truncate(time, interval) == time / interval * interval
  {
  }

  lemma TruncateMonotone(s: int, t: int, interval: int)
    requires s <= t
    ensures Truncate(s, interval) <= Truncate(t, interval)
  {
    if interval > 0 {
      TruncateIs(s, interval);
      TruncateIs(t, interval);
      QuotientMonotone(s, t, interval);
      TimesMonotone(s / interval, t / interval, interval);
      hide Truncate;
    }
  }

  predicate Sorted(ps: seq<Point>) {
    forall a, b | 0 <= a < b < |ps| :: ps[a].time <= ps[b].time
  }

  /** The points strictly between start and end, in order. */
  function InRange(ps: seq<Point>, start: int, end: int): seq<Point> {
    if ps == [] then []
    else
      var p := ps[|ps| - 1];
      InRange(ps[..|ps| - 1], start, end) + if start < p.time < end then [p] else []
  }

  lemma InRangeAppend(ps: seq<Point>, p: Point, start: int, end: int)
    ensures InRange(ps + [p], start, end) ==
            if start < p.time < end then InRange(ps, start, end) + [p] else InRange(ps, start, end)
  {
    assert (ps + [p])[..|ps|] == ps;
  }

  lemma {:induction false} InRangeSorted(ps: seq<Point>, start: int, end: int)
    requires Sorted(ps)
    ensures Sorted(InRange(ps, start, end))
    ensures forall p | p in InRange(ps, start, end) :: p in ps && start < p.time < end
  {
    if ps != [] {
      var n := |ps| - 1;
      InRangeSorted(ps[..n], start, end);
      var rest := InRange(ps[..n], start, end);
      assert InRange(ps, start, end) == rest + if start < ps[n].time < end then [ps[n]] else [];
      hide InRange;
      forall p | p in rest
        ensures p in ps && p.time <= ps[n].time
      {
        var k :| 0 <= k < n && ps[..n][k] == p;
        assert ps[k] == p;
      }
    }
  }

  /** The values of the points whose bucket starts at b, in order. */
  function Bucket(ps: seq<Point>, interval: int, b: int): seq<real> {
    if ps == [] then []
    else
      var p := ps[|ps| - 1];
      Bucket(ps[..|ps| - 1], interval, b) + if Truncate(p.time, interval) == b then [p.value] else []
  }

  // ---------- aggregation ----------

  function Sum(vs: seq<real>): real {
    if vs == [] then 0.0 else Sum(vs[..|vs| - 1]) + vs[|vs| - 1]
  }

  /** m is one of the values and no value is below it. */
  predicate IsMin(vs: seq<real>, m: real) {
    m in vs && forall v | v in vs :: m <= v
  }

  predicate IsMax(vs: seq<real>, m: real) {
    m in vs && forall v | v in vs :: v <= m
  }

  function Min(vs: seq<real>): (m: real)
    ensures vs != [] ==> IsMin(vs, m)
  {
    if |vs| <= 1 then if vs == [] then 0.0 else vs[0]
    else
      var m, v := Min(vs[..|vs| - 1]), vs[|vs| - 1];
      assert vs == vs[..|vs| - 1] + [v];
      if v < m then v else m
  }

  function Max(vs: seq<real>): (m: real)
    ensures vs != [] ==> IsMax(vs, m)
  {
    if |vs| <= 1 then if vs == [] then 0.0 else vs[0]
    else
      var m, v := Max(vs[..|vs| - 1]), vs[|vs| - 1];
      assert vs == vs[..|vs| - 1] + [v];
      if v > m then v else m
  }

  function Aggregated(vs: seq<real>, agg: string): real
    requires vs != [] || agg != "avg"
  {
    if agg == "avg" then Sum(vs) / |vs| as real
    else if agg == "min" then Min(vs)
    else if agg == "max" then Max(vs)
    else 0.0
  }

  lemma SumAppend(vs: seq<real>, v: real)
    ensures Sum(vs + [v]) == Sum(vs) + v
  {
    assert (vs + [v])[..|vs|] == vs;
  }

  lemma {:induction false} SumConcat(vs: seq<real>, ws: seq<real>)
    ensures Sum(vs + ws) == Sum(vs) + Sum(ws)
  {
    if ws == [] {
      assert vs + ws == vs;
    } else {
      var n := |ws| - 1;
      SumConcat(vs, ws[..n]);
      assert vs + ws == (vs + ws[..n]) + [ws[n]];
      SumAppend(vs + ws[..n], ws[n]);
    }
  }

  lemma SumOfOne(v: real)
    ensures Sum([]) == 0.0 && Sum([v]) == v
  {
    assert [v][..0] == [];
  }

  /** What each method answers of the values: the least of them, the greatest, their mean, or 0. */
  predicate Summarizes(vs: seq<real>, agg: string, r: real) {
    && (agg == "min" ==> r in vs && forall v | v in vs :: r <= v)
    && (agg == "max" ==> r in vs && forall v | v in vs :: v <= r)
    && (agg == "avg" ==> r * |vs| as real == Sum(vs))
    && (agg !in {"min", "max", "avg"} ==> r == 0.0)
  }

  lemma AggregatedSummarizes(vs: seq<real>, agg: string)
    requires vs != []
    ensures Summarizes(vs, agg, Aggregated(vs, agg))
  {
    var n := |vs| as real;
    assert Sum(vs) / n * n == Sum(vs);
    assert IsMin(vs, Min(vs)) && IsMax(vs, Max(vs));
    hide Min, Max, Sum;
  }

  /** tsMin: the accumulator starts at +Inf, here None. */
  method TsMin(vs: seq<real>) returns (m: real)
    ensures m == Min(vs)
  {
    if |vs| == 0 { return 0.0; }
    var infinite := true;
    m := 0.0;
    for i := 0 to |vs|
      invariant infinite == (i == 0)
      invariant i > 0 ==> m == Min(vs[..i])
    {
      assert i > 0 ==> vs[..i + 1][..i] == vs[..i];
      if infinite || vs[i] < m { infinite, m := false, vs[i]; }
    }
    assert vs[..|vs|] == vs;
  }

  /** tsMax: the accumulator starts at -Inf. */
  method TsMax(vs: seq<real>) returns (m: real)
    ensures m == Max(vs)
  {
    if |vs| == 0 { return 0.0; }
    var infinite := true;
    m := 0.0;
    for i := 0 to |vs|
      invariant infinite == (i == 0)
      invariant i > 0 ==> m == Max(vs[..i])
    {
      assert i > 0 ==> vs[..i + 1][..i] == vs[..i];
      if infinite || vs[i] > m { infinite, m := false, vs[i]; }
    }
    assert vs[..|vs|] == vs;
  }

  /** The average of no values is a division of 0 by 0. */
  datatype Float = Number(value: real) | NaN

  method Aggregate(vs: seq<real>, agg: string) returns (r: Float)
    ensures r == if vs == [] && agg == "avg" then NaN else Number(Aggregated(vs, agg))
    ensures vs == [] ==> r == if agg == "avg" then NaN else Number(0.0)
    ensures vs != [] ==> r.Number? && Summarizes(vs, agg, r.value)
  {
    if |vs| > 0 { AggregatedSummarizes(vs, agg); }
    if agg == "avg" {
      var sum := 0.0;
      for i := 0 to |vs|
        invariant sum == Sum(vs[..i])
      {
        assert vs[..i + 1][..i] == vs[..i];
        sum := sum + vs[i];
      }
      assert vs[..|vs|] == vs;
      return if |vs| == 0 then NaN else Number(sum / |vs| as real);
    } else if agg == "min" {
      var m := TsMin(vs);
      return Number(m);
    } else if agg == "max" {
      var m := TsMax(vs);
      return Number(m);
    } else {
      return Number(0.0);
    }
  }

  // ---------- the one-pass grouping ----------

  /** The loop variables of DownSample: the buckets closed so far, and the open one. */
  datatype Pass = Pass(closed: seq<Point>, start: int, zone: Zone, values: seq<real>)

  function StepPass(s: Pass, p: Point, interval: int, agg: string): Pass
    requires s.start != 0 ==> s.values != []
  {
    var b := Truncate(p.time, interval);
    var (start, zone) := if s.start == 0 then (b, p.zone) else (s.start, s.zone);
    if b == start && p.zone == zone then Pass(s.closed, start, zone, s.values + [p.value])
    else Pass(s.closed + [Point(start, zone, Aggregated(s.values, agg))], b, p.zone, [p.value])
  }

  function RunPass(ps: seq<Point>, interval: int, agg: string): (s: Pass)
    ensures s.start != 0 ==> s.values != []
    ensures ps != [] ==> s.values != []
  {
    if ps == [] then Pass([], 0, Utc, [])
    else StepPass(RunPass(ps[..|ps| - 1], interval, agg), ps[|ps| - 1], interval, agg)
  }

  function Close(s: Pass, agg: string): seq<Point> {
    if s.values == [] then s.closed else s.closed + [Point(s.start, s.zone, Aggregated(s.values, agg))]
  }

  /** TS.DOWNSAMPLE on the stored points. */
  function DownSampled(ps: seq<Point>, start: int, end: int, interval: int, agg: string): seq<Point> {
    Close(RunPass(InRange(ps, start, end), interval, agg), agg)
  }

  predicate Ascending(out: seq<Point>) {
    forall a, b | 0 <= a < b < |out| :: out[a].time < out[b].time
  }

  predicate HasStart(out: seq<Point>, b: int) {
    exists a | 0 <= a < |out| :: out[a].time == b
  }

  predicate Covers(out: seq<Point>, ps: seq<Point>, interval: int) {
    forall p | p in ps :: HasStart(out, Truncate(p.time, interval))
  }

  /** The output is given in the location of one of the points of its bucket. */
  predicate InZone(q: Point, ps: seq<Point>, interval: int) {
    exists p | p in ps :: Truncate(p.time, interval) == q.time && p.zone == q.zone
  }

  predicate IsGroup(q: Point, ps: seq<Point>, interval: int, agg: string) {
    var vs := Bucket(ps, interval, q.time);
    vs != [] && q.value == Aggregated(vs, agg) && InZone(q, ps, interval)
  }

  /** What down-sampling promises: bucket starts strictly increase, every point's bucket is there,
      and each output is the aggregate of exactly the points of its bucket. */
  predicate Groups(out: seq<Point>, ps: seq<Point>, interval: int, agg: string) {
    && Ascending(out)
    && Covers(out, ps, interval)
    && forall a | 0 <= a < |out| :: IsGroup(out[a], ps, interval, agg)
  }

  /** The zero time is taken for "no bucket open yet": a bucket that starts there and is followed
      by a later one is merged into it. */
  predicate ZeroMerged(ps: seq<Point>, interval: int) {
    exists p, q | p in ps && q in ps :: Truncate(p.time, interval) == 0 < Truncate(q.time, interval)
  }

  /** Bucket starts of two locations are never equal: a bucket holding points of both is split,
      unless it starts at the zero time. */
  predicate ZoneSplit(ps: seq<Point>, interval: int) {
    exists p, q | p in ps && q in ps ::
      Truncate(p.time, interval) == Truncate(q.time, interval) != 0 && p.zone != q.zone
  }

  predicate Groupable(ps: seq<Point>, interval: int) {
    !ZeroMerged(ps, interval) && !ZoneSplit(ps, interval)
  }

  lemma {:induction false} BucketOf(ps: seq<Point>, interval: int, b: int)
    ensures Bucket(ps, interval, b) != [] <==> exists p | p in ps :: Truncate(p.time, interval) == b
  {
    if ps != [] {
      BucketOf(ps[..|ps| - 1], interval, b);
      assert ps == ps[..|ps| - 1] + [ps[|ps| - 1]];
    }
  }

  /** The pass over a prefix holds the groups of the prefix, the last one still open. */
  predicate Tracks(s: Pass, ps: seq<Point>, interval: int, agg: string)
    requires ps != []
  {
    && s.start == Truncate(ps[|ps| - 1].time, interval)
    && s.zone == ps[|ps| - 1].zone
    && s.values == Bucket(ps, interval, s.start)
    && s.values != []
    && Groups(Close(s, agg), ps, interval, agg)
  }

  lemma BucketAppend(ps: seq<Point>, p: Point, interval: int, b: int)
    ensures Bucket(ps + [p], interval, b) ==
            if Truncate(p.time, interval) == b then Bucket(ps, interval, b) + [p.value] else Bucket(ps, interval, b)
  {
    assert (ps + [p])[..|ps + [p]| - 1] == ps;
  }

  /** A bucket after the last output time holds no point yet. */
  lemma BucketAbsent(ps: seq<Point>, out: seq<Point>, interval: int, agg: string, b: int)
    requires Groups(out, ps, interval, agg) && (out != [] ==> out[|out| - 1].time < b)
    ensures Bucket(ps, interval, b) == []
  {
    BucketOf(ps, interval, b);
    forall p | p in ps
      ensures Truncate(p.time, interval) != b
    {
      assert HasStart(out, Truncate(p.time, interval));
    }
  }

  /** A point of a later bucket opens a new group and leaves the others alone. */
  lemma GroupsOpen(out: seq<Point>, ps: seq<Point>, p: Point, interval: int, agg: string)
    requires Groups(out, ps, interval, agg)
    requires out != [] ==> out[|out| - 1].time < Truncate(p.time, interval)
    ensures Bucket(ps + [p], interval, Truncate(p.time, interval)) == [p.value]
    ensures Groups(out + [Point(Truncate(p.time, interval), p.zone, Aggregated([p.value], agg))],
                   ps + [p], interval, agg)
  {
    hide Aggregated, Bucket, Truncate;
    var b := Truncate(p.time, interval);
    var q := Point(b, p.zone, Aggregated([p.value], agg));
    BucketAbsent(ps, out, interval, agg, b);
    BucketAppend(ps, p, interval, b);
    assert (out + [q])[|out|].time == b;
    assert HasStart(out + [q], b);
    forall r | r in ps
      ensures HasStart(out + [q], Truncate(r.time, interval))
    {
      assert HasStart(out, Truncate(r.time, interval));
      var a :| 0 <= a < |out| && out[a].time == Truncate(r.time, interval);
      assert (out + [q])[a].time == out[a].time;
    }
    forall a | 0 <= a < |out|
      ensures IsGroup(out[a], ps + [p], interval, agg)
    {
      assert IsGroup(out[a], ps, interval, agg);
      InZoneAppend(out[a], ps, p, interval);
      BucketAppend(ps, p, interval, out[a].time);
    }
    InZoneLast(q, ps, p, interval);
  }

  lemma InZoneAppend(q: Point, ps: seq<Point>, p: Point, interval: int)
    requires InZone(q, ps, interval)
    ensures InZone(q, ps + [p], interval)
  {
    hide Truncate;
    var r :| r in ps && Truncate(r.time, interval) == q.time && r.zone == q.zone;
    assert r in ps + [p];
  }

  lemma InZoneLast(q: Point, ps: seq<Point>, p: Point, interval: int)
    requires Truncate(p.time, interval) == q.time && p.zone == q.zone
    ensures InZone(q, ps + [p], interval)
  {
    hide Truncate;
    assert p in ps + [p];
  }

  /** A point of the last bucket joins it. */
  lemma GroupsJoin(closed: seq<Point>, last: Point, ps: seq<Point>, p: Point, interval: int, agg: string)
    requires Groups(closed + [last], ps, interval, agg) && Truncate(p.time, interval) == last.time
    ensures Bucket(ps + [p], interval, last.time) == Bucket(ps, interval, last.time) + [p.value]
    ensures Groups(closed + [Point(last.time, p.zone, Aggregated(Bucket(ps, interval, last.time) + [p.value], agg))],
                   ps + [p], interval, agg)
  {
    hide Aggregated, Bucket, Truncate;
    var b, out := last.time, closed + [last];
    var out' := closed + [Point(b, p.zone, Aggregated(Bucket(ps, interval, b) + [p.value], agg))];
    BucketAppend(ps, p, interval, b);
    assert forall a | 0 <= a < |out| :: out'[a].time == out[a].time;
    assert out'[|closed|].time == b;
    forall r | r in ps + [p]
      ensures HasStart(out', Truncate(r.time, interval))
    {
      if r in ps {
        assert HasStart(out, Truncate(r.time, interval));
        var a :| 0 <= a < |out| && out[a].time == Truncate(r.time, interval);
        assert out'[a].time == out[a].time;
      }
    }
    forall a | 0 <= a < |closed|
      ensures IsGroup(out'[a], ps + [p], interval, agg)
    {
      assert IsGroup(out[a], ps, interval, agg) && out[a] == closed[a] && out[|closed|] == last;
      InZoneAppend(out[a], ps, p, interval);
      BucketAppend(ps, p, interval, out[a].time);
    }
    InZoneLast(out'[|closed|], ps, p, interval);
  }

  lemma TracksFirst(p: Point, interval: int, agg: string)
    ensures Tracks(RunPass([p], interval, agg), [p], interval, agg)
  {
    GroupsOpen([], [], p, interval, agg);
    assert [] + [p] == [p];
    var q := Point(Truncate(p.time, interval), p.zone, Aggregated([p.value], agg));
    assert [] + [q] == [q];
    assert RunPass([p], interval, agg) == Pass([], q.time, p.zone, [p.value]);
  }

  lemma TracksStep(s: Pass, ps: seq<Point>, p: Point, interval: int, agg: string)
    requires ps != [] && Tracks(s, ps, interval, agg)
    requires Truncate(p.time, interval) >= s.start
    requires s.start == 0 ==> Truncate(p.time, interval) == 0
    requires Truncate(p.time, interval) == s.start != 0 ==> p.zone == s.zone
    ensures Tracks(StepPass(s, p, interval, agg), ps + [p], interval, agg)
  {
    hide Aggregated, Bucket, Truncate, Groups;
    if Truncate(p.time, interval) == s.start {
      GroupsJoin(s.closed, Point(s.start, s.zone, Aggregated(s.values, agg)), ps, p, interval, agg);
    } else {
      GroupsOpen(Close(s, agg), ps, p, interval, agg);
    }
  }

  lemma {:induction false} PassTracks(ps: seq<Point>, interval: int, agg: string)
    requires ps != [] && Sorted(ps) && Groupable(ps, interval)
    ensures Tracks(RunPass(ps, interval, agg), ps, interval, agg)
  {
    hide Aggregated, Bucket, Truncate, Groups, Close, RunPass, StepPass;
    var n := |ps| - 1;
    var qs, p := ps[..n], ps[n];
    assert ps == qs + [p];
    if n == 0 {
      TracksFirst(p, interval, agg);
      assert ps == [p];
    } else {
      RunPassAppend(qs, p, interval, agg);
      PassTracks(qs, interval, agg);
      TruncateMonotone(ps[n - 1].time, p.time, interval);
      assert qs[n - 1] in ps && p in ps;
      TracksStep(RunPass(qs, interval, agg), qs, p, interval, agg);
    }
  }

  /** The zero time is never the start of a closed bucket, and the open bucket is always that of
      the last point, in its location. */
  lemma {:induction false} NeverClosesZero(ps: seq<Point>, interval: int, agg: string)
    ensures forall a | 0 <= a < |RunPass(ps, interval, agg).closed| ::
              RunPass(ps, interval, agg).closed[a].time != 0
    ensures ps != [] ==>
              var s, p := RunPass(ps, interval, agg), ps[|ps| - 1];
              s.start == Truncate(p.time, interval) && s.zone == p.zone
  {
    if ps != [] { NeverClosesZero(ps[..|ps| - 1], interval, agg); }
  }

  /** A bucket at the zero time that is followed by another has no output of its own. */
  lemma MergedIsMissing(ps: seq<Point>, interval: int, agg: string)
    requires Sorted(ps) && ZeroMerged(ps, interval)
    ensures !Covers(Close(RunPass(ps, interval, agg), agg), ps, interval)
  {
    hide Truncate, Aggregated, RunPass;
    var p, q :| p in ps && q in ps && Truncate(p.time, interval) == 0 < Truncate(q.time, interval);
    NeverClosesZero(ps, interval, agg);
    var k :| 0 <= k < |ps| && ps[k] == q;
    assert q.time <= ps[|ps| - 1].time;
    TruncateMonotone(q.time, ps[|ps| - 1].time, interval);
    assert !HasStart(Close(RunPass(ps, interval, agg), agg), Truncate(p.time, interval));
  }

  /** Two outputs, the open one included, with the same start. */
  predicate Repeats(s: Pass) {
    || (exists a | 0 <= a < |s.closed| :: s.closed[a].time == s.start != 0)
    || (exists a, c | 0 <= a < c < |s.closed| :: s.closed[a].time == s.closed[c].time)
  }

  lemma RepeatsStay(s: Pass, p: Point, interval: int, agg: string)
    requires (s.start != 0 ==> s.values != []) && Repeats(s)
    ensures Repeats(StepPass(s, p, interval, agg))
  {
    hide Truncate, Aggregated;
    var t := StepPass(s, p, interval, agg);
    assert s.closed <= t.closed;
    if a, c :| 0 <= a < c < |s.closed| && s.closed[a].time == s.closed[c].time {
      assert t.closed[a].time == t.closed[c].time;
    } else {
      var a :| 0 <= a < |s.closed| && s.closed[a].time == s.start != 0;
      assert t.closed[a].time == s.start;
      if t.closed != s.closed { assert t.closed[|s.closed|].time == s.start; }
    }
  }

  /** Two neighbours in the same bucket, but not in the same location. */
  predicate Parted(ps: seq<Point>, interval: int, k: nat) {
    && 0 < k < |ps|
    && Truncate(ps[k - 1].time, interval) == Truncate(ps[k].time, interval) != 0
    && ps[k - 1].zone != ps[k].zone
  }

  lemma {:induction false} PartedRepeats(ps: seq<Point>, interval: int, agg: string, k: nat)
    requires Parted(ps, interval, k)
    ensures Repeats(RunPass(ps, interval, agg))
    decreases |ps|
  {
    hide Truncate, Aggregated;
    var qs, p := ps[..|ps| - 1], ps[|ps| - 1];
    if k < |ps| - 1 {
      PartedRepeats(qs, interval, agg, k);
      RepeatsStay(RunPass(qs, interval, agg), p, interval, agg);
    } else {
      NeverClosesZero(qs, interval, agg);
      var s, t := RunPass(qs, interval, agg), RunPass(ps, interval, agg);
      assert t.closed[|s.closed|].time == t.start;
    }
  }

  /** In a sorted series a bucket of two locations has two such neighbours. */
  lemma {:induction false} SplitIsParted(ps: seq<Point>, interval: int, i: nat, j: nat) returns (k: nat)
    requires Sorted(ps) && i < j < |ps| && ps[i].zone != ps[j].zone
    requires Truncate(ps[i].time, interval) == Truncate(ps[j].time, interval) != 0
    ensures Parted(ps, interval, k)
  {
    hide Truncate;
    k := i + 1;
    TruncateMonotone(ps[i].time, ps[k].time, interval);
    TruncateMonotone(ps[k].time, ps[j].time, interval);
    while ps[k].zone == ps[i].zone
      invariant i < k <= j && ps[k - 1].zone == ps[i].zone
      invariant Truncate(ps[k - 1].time, interval) == Truncate(ps[k].time, interval) == Truncate(ps[i].time, interval)
      decreases j - k
    {
      k := k + 1;
      TruncateMonotone(ps[k - 1].time, ps[k].time, interval);
      TruncateMonotone(ps[k].time, ps[j].time, interval);
    }
  }

  /** A bucket of two locations away from the zero time has two outputs. */
  lemma SplitIsRepeated(ps: seq<Point>, interval: int, agg: string)
    requires Sorted(ps) && ZoneSplit(ps, interval)
    ensures !Ascending(Close(RunPass(ps, interval, agg), agg))
  {
    hide Truncate, Aggregated, RunPass;
    var p, q :| p in ps && q in ps && Truncate(p.time, interval) == Truncate(q.time, interval) != 0 && p.zone != q.zone;
    var i :| 0 <= i < |ps| && ps[i] == p;
    var j :| 0 <= j < |ps| && ps[j] == q;
    var k := SplitIsParted(ps, interval, if i < j then i else j, if i < j then j else i);
    PartedRepeats(ps, interval, agg, k);
    RepeatsClose(RunPass(ps, interval, agg), agg);
  }

  lemma RepeatsClose(s: Pass, agg: string)
    requires (s.start != 0 ==> s.values != []) && Repeats(s)
    ensures !Ascending(Close(s, agg))
  {
    hide Aggregated;
    var out := Close(s, agg);
    if a, c :| 0 <= a < c < |s.closed| && s.closed[a].time == s.closed[c].time {
      assert out[a].time == out[c].time;
    } else {
      var a :| 0 <= a < |s.closed| && s.closed[a].time == s.start != 0;
      assert out[a].time == out[|s.closed|].time;
    }
  }

  /** One-pass down-sampling of sorted points groups them as promised if and only if no bucket
      starting at the zero time is followed by another, and no other bucket holds points of two
      locations. */
  lemma GroupsIff(ps: seq<Point>, interval: int, agg: string)
    requires Sorted(ps)
    ensures Groups(Close(RunPass(ps, interval, agg), agg), ps, interval, agg)
            <==> !ZeroMerged(ps, interval) && !ZoneSplit(ps, interval)
  {
    hide ZeroMerged, ZoneSplit, Ascending, Covers, Close, RunPass, Truncate;
    if ZeroMerged(ps, interval) {
      MergedIsMissing(ps, interval, agg);
    } else if ZoneSplit(ps, interval) {
      SplitIsRepeated(ps, interval, agg);
    } else if ps != [] {
      PassTracks(ps, interval, agg);
    } else {
      NoGroups(interval, agg);
    }
  }

  lemma NoGroups(interval: int, agg: string)
    ensures Groups(Close(RunPass([], interval, agg), agg), [], interval, agg)
  {
  }

  /** What each output of a bucket is, said of the bucket. */
  lemma GroupsSummarize(out: seq<Point>, ps: seq<Point>, interval: int, agg: string)
    ensures Groups(out, ps, interval, agg) ==>
            forall a | 0 <= a < |out| :: Summarizes(Bucket(ps, interval, out[a].time), agg, out[a].value)
  {
    hide Bucket, Aggregated, Summarizes, Truncate;
    if Groups(out, ps, interval, agg) {
      forall a | 0 <= a < |out|
        ensures Summarizes(Bucket(ps, interval, out[a].time), agg, out[a].value)
      {
        assert IsGroup(out[a], ps, interval, agg);
        AggregatedSummarizes(Bucket(ps, interval, out[a].time), agg);
      }
    }
  }

  lemma RunPassAppend(ps: seq<Point>, p: Point, interval: int, agg: string)
    ensures RunPass(ps + [p], interval, agg) == StepPass(RunPass(ps, interval, agg), p, interval, agg)
  {
    assert (ps + [p])[..|ps|] == ps;
  }

  lemma PassOfNone(ps: seq<Point>, start: int, end: int, interval: int, agg: string)
    requires ps == []
    ensures InRange(ps, start, end) == [] && RunPass([], interval, agg) == Pass([], 0, Utc, [])
  {
  }

  lemma RangeOfTwo(p: Point, q: Point)
    requires p.time <= q.time
    ensures InRange([p, q], p.time - 1, q.time + 1) == [p, q]
  {
    assert InRange([], p.time - 1, q.time + 1) == [];
    InRangeAppend([], p, p.time - 1, q.time + 1);
    InRangeAppend([p], q, p.time - 1, q.time + 1);
    assert [] + [p] == [p] && [p] + [q] == [p, q];
    hide InRange;
  }

  lemma PassOfTwo(p: Point, q: Point, interval: int, agg: string)
    ensures var b, c := Truncate(p.time, interval), Truncate(q.time, interval);
            RunPass([p, q], interval, agg) ==
            if b == 0 || (b == c && p.zone == q.zone) then Pass([], c, q.zone, [p.value, q.value])
            else Pass([Point(b, p.zone, Aggregated([p.value], agg))], c, q.zone, [q.value])
  {
    hide Truncate, Aggregated;
    assert RunPass([], interval, agg) == Pass([], 0, Utc, []);
    RunPassAppend([], p, interval, agg);
    RunPassAppend([p], q, interval, agg);
    assert [] + [p] == [p] && [p] + [q] == [p, q];
    hide RunPass;
    assert [] + [p.value] == [p.value] && [p.value] + [q.value] == [p.value, q.value];
  }

  lemma FirstBucket(t: int, u: int, interval: int)
    requires 0 <= t < interval <= u
    ensures Truncate(t, interval) == 0 < Truncate(u, interval)
  {
    SmallRemainder(t, interval);
    OneRemainder(interval);
    TruncateMonotone(interval, u, interval);
    assert Truncate(t, interval) == 0 && Truncate(interval, interval) == interval;
    hide Truncate;
  }

  lemma SmallRemainder(t: int, k: int)
    requires 0 <= t < k
    ensures t % k == t
  {
  }

  lemma OneRemainder(k: int)
    requires k > 0
    ensures k % k == 0
  {
  }

  /** A failing series of two points: the first in the bucket at the zero time, the second in a
      later one. Both are answered as one group, under the start of the later bucket. */
  lemma ZeroBucketMerges(p: Point, q: Point, interval: int, agg: string)
    requires 0 <= p.time < interval <= q.time
    ensures var out := DownSampled([p, q], p.time - 1, q.time + 1, interval, agg);
            && out == [Point(Truncate(q.time, interval), q.zone, Aggregated([p.value, q.value], agg))]
            && !Groups(out, [p, q], interval, agg)
  {
    hide Aggregated, Groups, RunPass, InRange, Truncate;
    RangeOfTwo(p, q);
    FirstBucket(p.time, q.time, interval);
    PassOfTwo(p, q, interval, agg);
    assert p in [p, q] && q in [p, q];
    GroupsIff([p, q], interval, agg);
  }

  /** A failing series of two points: both in one later bucket, the first in local time, the second
      in UTC. They are answered as two groups with the same start. */
  lemma TwoZonesSplit(p: Point, q: Point, interval: int, agg: string)
    requires p.time <= q.time && p.zone == Local && q.zone == Utc
    requires Truncate(p.time, interval) == Truncate(q.time, interval) != 0
    ensures var out, b := DownSampled([p, q], p.time - 1, q.time + 1, interval, agg), Truncate(p.time, interval);
            && out == [Point(b, Local, Aggregated([p.value], agg)), Point(b, Utc, Aggregated([q.value], agg))]
            && !Groups(out, [p, q], interval, agg)
  {
    hide Aggregated, Groups, RunPass, InRange, Truncate;
    RangeOfTwo(p, q);
    PassOfTwo(p, q, interval, agg);
    assert p in [p, q] && q in [p, q];
    GroupsIff([p, q], interval, agg);
  }
}
