/** The stored series: points appended and re-sorted in place, then read by the query loops. */
module Series {
  import opened DownSampling
  import opened Results
  import opened Sequences

  lemma InsertSorted(qs: seq<Point>, k: nat, p: Point)
    requires Sorted(qs) && k <= |qs|
    requires k > 0 ==> qs[k - 1].time <= p.time
    requires k < |qs| ==> p.time <= qs[k].time
    ensures Sorted(Insert(qs, k, p))
  {
    hide Insert;
  }

  lemma InsertNext(ps: seq<Point>, i: nat, qs: seq<Point>, k: nat)
    requires i < |ps| && k <= |qs| && multiset(qs) == multiset(ps[..i])
    ensures multiset(Insert(qs, k, ps[i])) == multiset(ps[..i + 1])
  {
    InsertMultiset(qs, k, ps[i]);
    assert ps[..i + 1] == ps[..i] + [ps[i]];
  }

  /** A permutation by time. sort.Slice leaves the order of equal times open, and so does this. */
  method SortByTime(ps: seq<Point>) returns (qs: seq<Point>)
    ensures Sorted(qs) && multiset(qs) == multiset(ps)
  {
    qs := [];
    assert Sorted(qs);
    hide Sorted, Insert;
    for i := 0 to |ps|
      invariant Sorted(qs) && multiset(qs) == multiset(ps[..i])
    {
      var k := |qs|;
      while k > 0 && qs[k - 1].time > ps[i].time
        invariant 0 <= k <= |qs|
        invariant k < |qs| ==> qs[k].time > ps[i].time
      {
        k := k - 1;
      }
      InsertSorted(qs, k, ps[i]);
      InsertNext(ps, i, qs, k);
      qs := Insert(qs, k, ps[i]);
    }
    assert ps[..|ps|] == ps;
  }

  class TimeSeries {
    var points: seq<Point>
    var aggregation: string

    ghost predicate Valid()
      reads this
    {
      Sorted(points)
    }

    constructor (aggregation: string)
      ensures Valid() && points == []
    {
      points := [];
      this.aggregation := aggregation;
    }

    method TSAdd(time: int, zone: Zone, value: real)
      requires Valid()
      modifies this`points
      ensures Valid() && multiset(points) == multiset(old(points)) + multiset{Point(time, zone, value)}
    {
      points := points + [Point(time, zone, value)];
      points := SortByTime(points);
    }

    method TSRange(start: int, end: int) returns (result: seq<Point>)
      ensures result == InRange(points, start, end)
    {
      result := [];
      for i := 0 to |points|
        invariant result == InRange(points[..i], start, end)
      {
        assert points[..i + 1][..i] == points[..i];
        if points[i].time > start && points[i].time < end {
          result := result + [points[i]];
        }
      }
      assert points[..|points|] == points;
    }

    method TSGet() returns (r: Result<Point>)
      requires Valid()
      ensures points == [] <==> r.Err?
      ensures r.Ok? ==> r.value in points && forall p | p in points :: p.time <= r.value.time
    {
      if |points| == 0 {
        return Err("no data points in time series");
      }
      return Ok(points[|points| - 1]);
    }

    method DownSample(start: int, end: int, interval: int, agg: string) returns (result: seq<Point>)
      requires Valid()
      ensures result == DownSampled(points, start, end, interval, agg)
      ensures var ps := InRange(points, start, end);
              Groupable(ps, interval) <==> Groups(result, ps, interval, agg)
      ensures var ps := InRange(points, start, end);
              Groupable(ps, interval) ==>
              forall a | 0 <= a < |result| :: Summarizes(Bucket(ps, interval, result[a].time), agg, result[a].value)
    {
      hide Truncate, Aggregated, Summarizes, Groups, ZeroMerged, ZoneSplit, Bucket, InRange, RunPass;
      var currentStart, currentZone, currentValues := 0, Utc, [];
      assert InRange(points[..0], start, end) == [] && RunPass([], interval, agg) == Pass([], 0, Utc, []) by {
        PassOfNone(points[..0], start, end, interval, agg);
      }
      result := [];
      for i := 0 to |points|
        invariant Pass(result, currentStart, currentZone, currentValues) ==
                  RunPass(InRange(points[..i], start, end), interval, agg)
      {
        var p := points[i];
        assert points[..i + 1] == points[..i] + [p];
        InRangeAppend(points[..i], p, start, end);
        if p.time > start && p.time < end {
          RunPassAppend(InRange(points[..i], start, end), p, interval, agg);
          var b := Truncate(p.time, interval);
          if currentStart == 0 {
            currentStart, currentZone := b, p.zone;
          }
          if b == currentStart && p.zone == currentZone {
            currentValues := currentValues + [p.value];
          } else {
            var v := Aggregate(currentValues, agg);
            result := result + [Point(currentStart, currentZone, v.value)];
            currentStart, currentZone := b, p.zone;
            currentValues := [p.value];
          }
        }
      }
      assert points[..|points|] == points;
      if |currentValues| > 0 {
        var v := Aggregate(currentValues, agg);
        result := result + [Point(currentStart, currentZone, v.value)];
      }
      InRangeSorted(points, start, end);
      GroupsIff(InRange(points, start, end), interval, agg);
      GroupsSummarize(result, InRange(points, start, end), interval, agg);
    }
  }
}
