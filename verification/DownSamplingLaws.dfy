/** What one-pass down-sampling conserves, and that the order of insertion does not matter. */
module DownSamplingLaws {
  import opened DownSampling
  import opened Sequences

  function Values(ps: seq<Point>): (vs: seq<real>)
    ensures |vs| == |ps|
  {
    if ps == [] then [] else Values(ps[..|ps| - 1]) + [ps[|ps| - 1].value]
  }

  // ---------- no point is lost or counted twice ----------

  /** The number of points behind the outputs. */
  function Count(out: seq<Point>, ps: seq<Point>, interval: int): nat {
    if out == [] then 0 else Count(out[1..], ps, interval) + |Bucket(ps, interval, out[0].time)|
  }

  /** The sum of the values behind the outputs. */
  function Mass(out: seq<Point>, ps: seq<Point>, interval: int): real {
    if out == [] then 0.0 else Mass(out[1..], ps, interval) + Sum(Bucket(ps, interval, out[0].time))
  }

  lemma {:induction false} BehindAppend(out: seq<Point>, ps: seq<Point>, p: Point, interval: int)
    requires Ascending(out)
    ensures var hit := HasStart(out, Truncate(p.time, interval));
            && Count(out, ps + [p], interval) == Count(out, ps, interval) + (if hit then 1 else 0)
            && Mass(out, ps + [p], interval) == Mass(out, ps, interval) + (if hit then p.value else 0.0)
  {
    if out != [] {
      var b := Truncate(p.time, interval);
      BehindAppend(out[1..], ps, p, interval);
      BucketAppend(ps, p, interval, out[0].time);
      SumAppend(Bucket(ps, interval, out[0].time), p.value);
      if HasStart(out[1..], b) {
        var a :| 0 <= a < |out[1..]| && out[1..][a].time == b;
        assert out[a + 1].time == b && out[0].time < out[a + 1].time;
      } else {
        forall a | 1 <= a < |out|
          ensures out[a].time != b
        {
          assert out[1..][a - 1] == out[a];
        }
        assert out[0].time == b ==> HasStart(out, b);
      }
    }
  }

  lemma {:induction false} NothingBehindNone(out: seq<Point>, interval: int)
    ensures Count(out, [], interval) == 0 && Mass(out, [], interval) == 0.0
  {
    if out != [] { NothingBehindNone(out[1..], interval); }
  }

  /** The groups partition the points: counts and sums add up to those of the whole range. */
  lemma {:induction false} Partition(out: seq<Point>, ps: seq<Point>, interval: int)
    requires Ascending(out) && Covers(out, ps, interval)
    ensures Count(out, ps, interval) == |ps|
    ensures Mass(out, ps, interval) == Sum(Values(ps))
  {
    if ps == [] {
      NothingBehindNone(out, interval);
    } else {
      var qs, p := ps[..|ps| - 1], ps[|ps| - 1];
      assert ps == qs + [p] && p in ps;
      Partition(out, qs, interval);
      BehindAppend(out, qs, p, interval);
      SumAppend(Values(qs), p.value);
    }
  }

  /** The averages weighted by the sizes of their groups. */
  function Weighted(out: seq<Point>, ps: seq<Point>, interval: int): real {
    if out == [] then 0.0
    else Weighted(out[1..], ps, interval) + |Bucket(ps, interval, out[0].time)| as real * out[0].value
  }

  lemma {:induction false} WeightedIsMass(out: seq<Point>, ps: seq<Point>, interval: int)
    requires forall a | 0 <= a < |out| :: IsGroup(out[a], ps, interval, "avg")
    ensures Weighted(out, ps, interval) == Mass(out, ps, interval)
  {
    if out != [] {
      assert IsGroup(out[0], ps, interval, "avg");
      assert forall a | 0 <= a < |out[1..]| :: out[1..][a] == out[a + 1];
      WeightedIsMass(out[1..], ps, interval);
      var n, s := |Bucket(ps, interval, out[0].time)| as real, Sum(Bucket(ps, interval, out[0].time));
      assert n * (s / n) == s;
    }
  }

  /** When the points are grouped, averages weighted by the sizes of their buckets add up to the
      sum over the range. */
  lemma AveragesConserveSum(ps: seq<Point>, interval: int)
    requires Sorted(ps) && Groupable(ps, interval)
    ensures Weighted(Close(RunPass(ps, interval, "avg"), "avg"), ps, interval) == Sum(Values(ps))
  {
    var out := Close(RunPass(ps, interval, "avg"), "avg");
    GroupsIff(ps, interval, "avg");
    Partition(out, ps, interval);
    WeightedIsMass(out, ps, interval);
  }

  // ---------- what holds of every series, grouped as promised or not ----------

  /** A point goes to the open bucket of the point before it. */
  predicate Joins(q: Point, p: Point, interval: int) {
    var b := Truncate(q.time, interval);
    b == 0 || (b == Truncate(p.time, interval) && q.zone == p.zone)
  }

  /** The points' values cut wherever a point does not join the one before it. */
  function Chunks(ps: seq<Point>, interval: int): (cs: seq<seq<real>>)
    ensures |cs| <= |ps| && (ps != [] ==> cs != [])
    ensures forall a | 0 <= a < |cs| :: cs[a] != []
  {
    if ps == [] then []
    else
      var n := |ps| - 1;
      var cs := Chunks(ps[..n], interval);
      if n > 0 && Joins(ps[n - 1], ps[n], interval)
      then cs[..|cs| - 1] + [cs[|cs| - 1] + [ps[n].value]]
      else cs + [[ps[n].value]]
  }

  function Concat(cs: seq<seq<real>>): seq<real> {
    if cs == [] then [] else Concat(cs[..|cs| - 1]) + cs[|cs| - 1]
  }

  /** Nothing is lost, repeated or moved. */
  lemma {:induction false} ChunksConcat(ps: seq<Point>, interval: int)
    ensures Concat(Chunks(ps, interval)) == Values(ps)
  {
    hide Joins;
    if ps != [] {
      var n := |ps| - 1;
      var cs, v := Chunks(ps[..n], interval), ps[n].value;
      ChunksConcat(ps[..n], interval);
      ConcatAppend(cs, [v]);
      if cs != [] { ConcatGrow(cs, v); }
      hide Concat;
    }
  }

  lemma ConcatAppend(cs: seq<seq<real>>, c: seq<real>)
    ensures Concat(cs + [c]) == Concat(cs) + c
  {
    assert (cs + [c])[..|cs|] == cs;
  }

  lemma ConcatGrow(cs: seq<seq<real>>, v: real)
    requires cs != []
    ensures Concat(cs[..|cs| - 1] + [cs[|cs| - 1] + [v]]) == Concat(cs) + [v]
  {
    ConcatAppend(cs[..|cs| - 1], cs[|cs| - 1] + [v]);
  }

  /** The outputs are the aggregates of the chunks, in order. */
  predicate Aggregates(out: seq<Point>, cs: seq<seq<real>>, agg: string)
    requires forall a | 0 <= a < |cs| :: cs[a] != []
  {
    |out| == |cs| && forall a | 0 <= a < |out| :: out[a].value == Aggregated(cs[a], agg)
  }

  /** The last chunk is the open bucket, the others are closed. */
  predicate PassChunks(s: Pass, cs: seq<seq<real>>, agg: string)
    requires forall a | 0 <= a < |cs| :: cs[a] != []
  {
    cs != [] && s.values == cs[|cs| - 1] && Aggregates(s.closed, cs[..|cs| - 1], agg)
  }

  lemma ChunkGrows(s: Pass, t: Pass, cs: seq<seq<real>>, v: real, agg: string)
    requires (forall a | 0 <= a < |cs| :: cs[a] != []) && PassChunks(s, cs, agg)
    requires t.closed == s.closed && t.values == s.values + [v]
    ensures PassChunks(t, cs[..|cs| - 1] + [cs[|cs| - 1] + [v]], agg)
  {
    hide Aggregates;
    var m := |cs| - 1;
    assert (cs[..m] + [cs[m] + [v]])[..m] == cs[..m];
  }

  lemma ChunkOpens(s: Pass, t: Pass, cs: seq<seq<real>>, q: Point, v: real, agg: string)
    requires (forall a | 0 <= a < |cs| :: cs[a] != []) && PassChunks(s, cs, agg)
    requires t.closed == s.closed + [q] && q.value == Aggregated(s.values, agg) && t.values == [v]
    ensures PassChunks(t, cs + [[v]], agg)
  {
    hide Aggregated;
    assert (cs + [[v]])[..|cs|] == cs;
  }

  lemma {:induction false} PassIsChunks(ps: seq<Point>, interval: int, agg: string)
    requires ps != []
    ensures PassChunks(RunPass(ps, interval, agg), Chunks(ps, interval), agg)
  {
    hide Aggregated, Truncate, StepPass, Joins, PassChunks;
    var n := |ps| - 1;
    if n > 0 {
      var s, t := RunPass(ps[..n], interval, agg), RunPass(ps, interval, agg);
      var cs, v := Chunks(ps[..n], interval), ps[n].value;
      PassIsChunks(ps[..n], interval, agg);
      NeverClosesZero(ps[..n], interval, agg);
      JoinsStep(s, ps[n - 1], ps[n], interval, agg);
      if Joins(ps[n - 1], ps[n], interval) {
        ChunkGrows(s, t, cs, v, agg);
      } else {
        ChunkOpens(s, t, cs, Point(s.start, s.zone, Aggregated(s.values, agg)), v, agg);
      }
    } else {
      FirstChunk(ps[0], interval, agg);
      assert ps[..0] == [] && ps == [ps[0]];
    }
  }

  lemma FirstChunk(p: Point, interval: int, agg: string)
    ensures PassChunks(RunPass([p], interval, agg), Chunks([p], interval), agg)
  {
    FirstStep(p, interval, agg);
    hide StepPass;
    assert [p][..0] == [];
  }

  lemma FirstStep(p: Point, interval: int, agg: string)
    ensures StepPass(Pass([], 0, Utc, []), p, interval, agg) == Pass([], Truncate(p.time, interval), p.zone, [p.value])
  {
  }

  lemma JoinsStep(s: Pass, q: Point, p: Point, interval: int, agg: string)
    requires s.start == Truncate(q.time, interval) && s.zone == q.zone && s.values != []
    ensures StepPass(s, p, interval, agg) ==
            if Joins(q, p, interval)
            then Pass(s.closed, Truncate(p.time, interval), p.zone, s.values + [p.value])
            else Pass(s.closed + [Point(s.start, s.zone, Aggregated(s.values, agg))],
                      Truncate(p.time, interval), p.zone, [p.value])
  {
    hide Truncate, Aggregated;
  }

  /** Whatever the times, locations and order of the points, each output is the aggregate of a run
      of neighbours, and the runs put together are all the points. */
  lemma OutputsPartition(ps: seq<Point>, interval: int, agg: string)
    ensures Aggregates(Close(RunPass(ps, interval, agg), agg), Chunks(ps, interval), agg)
    ensures Concat(Chunks(ps, interval)) == Values(ps)
  {
    ChunksConcat(ps, interval);
    if ps != [] {
      PassIsChunks(ps, interval, agg);
      hide RunPass, Chunks, Aggregated;
    }
  }

  /** The averages weighted by the sizes of the runs they are taken over. */
  function RunWeighted(out: seq<Point>, cs: seq<seq<real>>): real
    requires |out| == |cs|
  {
    if out == [] then 0.0
    else RunWeighted(out[..|out| - 1], cs[..|cs| - 1]) + |cs[|cs| - 1]| as real * out[|out| - 1].value
  }

  lemma {:induction false} RunWeightedIsSum(out: seq<Point>, cs: seq<seq<real>>)
    requires forall a | 0 <= a < |cs| :: cs[a] != []
    requires Aggregates(out, cs, "avg")
    ensures RunWeighted(out, cs) == Sum(Concat(cs))
  {
    if out != [] {
      var n := |out| - 1;
      RunWeightedIsSum(out[..n], cs[..n]);
      SumConcat(Concat(cs[..n]), cs[n]);
      var k, s := |cs[n]| as real, Sum(cs[n]);
      assert out[n].value == s / k;
      assert k * (s / k) == s;
    }
  }

  /** Averages weighted by the sizes of their groups add up to the sum over the range, for every
      series. */
  lemma AveragesAlwaysConserve(ps: seq<Point>, interval: int)
    ensures Aggregates(Close(RunPass(ps, interval, "avg"), "avg"), Chunks(ps, interval), "avg")
    ensures RunWeighted(Close(RunPass(ps, interval, "avg"), "avg"), Chunks(ps, interval)) == Sum(Values(ps))
  {
    OutputsPartition(ps, interval, "avg");
    RunWeightedIsSum(Close(RunPass(ps, interval, "avg"), "avg"), Chunks(ps, interval));
  }

  lemma {:induction false} ConcatMembers(cs: seq<seq<real>>, v: real)
    ensures v in Concat(cs) <==> exists a | 0 <= a < |cs| :: v in cs[a]
  {
    if cs != [] { ConcatMembers(cs[..|cs| - 1], v); }
  }

  lemma {:induction false} ValueMembers(ps: seq<Point>, v: real)
    ensures v in Values(ps) <==> exists a | 0 <= a < |ps| :: ps[a].value == v
  {
    if ps != [] { ValueMembers(ps[..|ps| - 1], v); }
  }

  /** The least of the minima is the least of the whole range, for every series. */
  lemma MinOfMins(ps: seq<Point>, interval: int)
    requires ps != []
    ensures IsMin(Values(ps), Min(Values(Close(RunPass(ps, interval, "min"), "min"))))
  {
    var out, cs := Close(RunPass(ps, interval, "min"), "min"), Chunks(ps, interval);
    OutputsPartition(ps, interval, "min");
    hide Close, RunPass, Chunks, Min;
    var m := Min(Values(out));
    ValueMembers(out, m);
    var a :| 0 <= a < |out| && out[a].value == m;
    ConcatMembers(cs, m);
    assert IsMin(cs[a], m);
    forall v | v in Values(ps)
      ensures m <= v
    {
      ConcatMembers(cs, v);
      var c :| 0 <= c < |cs| && v in cs[c];
      assert IsMin(cs[c], out[c].value);
      ValueMembers(out, out[c].value);
    }
  }

  /** The greatest of the maxima is the greatest of the whole range, for every series. */
  lemma MaxOfMaxes(ps: seq<Point>, interval: int)
    requires ps != []
    ensures IsMax(Values(ps), Max(Values(Close(RunPass(ps, interval, "max"), "max"))))
  {
    var out, cs := Close(RunPass(ps, interval, "max"), "max"), Chunks(ps, interval);
    OutputsPartition(ps, interval, "max");
    hide Close, RunPass, Chunks, Max;
    var m := Max(Values(out));
    ValueMembers(out, m);
    var a :| 0 <= a < |out| && out[a].value == m;
    ConcatMembers(cs, m);
    assert IsMax(cs[a], m);
    forall v | v in Values(ps)
      ensures v <= m
    {
      ConcatMembers(cs, v);
      var c :| 0 <= c < |cs| && v in cs[c];
      assert IsMax(cs[c], out[c].value);
      ValueMembers(out, out[c].value);
    }
  }

  // ---------- the order of insertion ----------

  lemma DropAppend<T>(s: seq<T>, k: nat, x: T)
    requires k < |s|
    ensures Drop(s + [x], k) == Drop(s, k) + [x]
  {
  }

  lemma Cancel<T>(a: multiset<T>, b: multiset<T>, x: T)
    requires a + multiset{x} == b + multiset{x}
    ensures a == b
  {
    forall y
      ensures a[y] == b[y]
    {
      assert (a + multiset{x})[y] == (b + multiset{x})[y];
    }
  }

  /** The last element of a sequence, found in a permutation of it and taken out of both. */
  lemma Match<T>(s: seq<T>, t: seq<T>) returns (k: nat)
    requires s != [] && multiset(s) == multiset(t)
    ensures k < |t| && t[k] == s[|s| - 1]
    ensures multiset(Drop(s, |s| - 1)) == multiset(Drop(t, k))
  {
    var n := |s| - 1;
    assert s[n] in multiset(s);
    k :| 0 <= k < |t| && t[k] == s[n];
    DropMultiset(s, n);
    DropMultiset(t, k);
    Cancel(multiset(Drop(s, n)), multiset(Drop(t, k)), s[n]);
  }

  lemma {:induction false} SumDrop(vs: seq<real>, k: nat)
    requires k < |vs|
    ensures Sum(vs) == Sum(Drop(vs, k)) + vs[k]
  {
    var n := |vs| - 1;
    if k == n {
      assert Drop(vs, k) == vs[..k];
    } else {
      SumDrop(vs[..n], k);
      assert vs == vs[..n] + [vs[n]];
      DropAppend(vs[..n], k, vs[n]);
      SumAppend(Drop(vs[..n], k), vs[n]);
    }
  }

  lemma {:induction false} SumPermutes(vs: seq<real>, ws: seq<real>)
    requires multiset(vs) == multiset(ws)
    ensures Sum(vs) == Sum(ws)
    decreases |vs|
  {
    if vs == [] {
      assert |multiset(ws)| == 0;
    } else {
      var k := Match(vs, ws);
      SumPermutes(Drop(vs, |vs| - 1), Drop(ws, k));
      SumDrop(vs, |vs| - 1);
      SumDrop(ws, k);
    }
  }

  lemma AggregatePermutes(vs: seq<real>, ws: seq<real>, agg: string)
    requires vs != [] && multiset(vs) == multiset(ws)
    ensures ws != [] && Aggregated(vs, agg) == Aggregated(ws, agg)
  {
    assert |vs| == |multiset(vs)| == |multiset(ws)| == |ws|;
    SumPermutes(vs, ws);
    assert forall v :: v in vs <==> v in multiset(vs);
    assert forall v :: v in ws <==> v in multiset(ws);
    assert IsMin(ws, Min(vs)) && IsMin(ws, Min(ws));
    assert IsMax(ws, Max(vs)) && IsMax(ws, Max(ws));
  }

  lemma {:induction false} BucketDrop(ps: seq<Point>, interval: int, b: int, k: nat)
    requires k < |ps|
    ensures multiset(Bucket(ps, interval, b)) ==
            multiset(Bucket(Drop(ps, k), interval, b)) +
            if Truncate(ps[k].time, interval) == b then multiset{ps[k].value} else multiset{}
  {
    hide Bucket, Truncate;
    var n := |ps| - 1;
    var qs, p := ps[..n], ps[n];
    assert ps == qs + [p];
    BucketAppend(qs, p, interval, b);
    if k == n {
      assert Drop(ps, k) == qs;
    } else {
      BucketDrop(qs, interval, b, k);
      DropAppend(qs, k, p);
      BucketAppend(Drop(qs, k), p, interval, b);
    }
  }

  lemma {:induction false} BucketPermutes(ps: seq<Point>, qs: seq<Point>, interval: int, b: int)
    requires multiset(ps) == multiset(qs)
    ensures multiset(Bucket(ps, interval, b)) == multiset(Bucket(qs, interval, b))
    decreases |ps|
  {
    if ps == [] {
      assert |multiset(qs)| == 0;
    } else {
      hide Bucket, Truncate;
      var k := Match(ps, qs);
      BucketPermutes(Drop(ps, |ps| - 1), Drop(qs, k), interval, b);
      BucketDrop(ps, interval, b, |ps| - 1);
      BucketDrop(qs, interval, b, k);
    }
  }

  lemma {:induction false} InRangeDrop(ps: seq<Point>, start: int, end: int, k: nat)
    requires k < |ps|
    ensures multiset(InRange(ps, start, end)) ==
            multiset(InRange(Drop(ps, k), start, end)) +
            if start < ps[k].time < end then multiset{ps[k]} else multiset{}
  {
    hide InRange;
    var n := |ps| - 1;
    var qs, p := ps[..n], ps[n];
    assert ps == qs + [p];
    InRangeAppend(qs, p, start, end);
    if k == n {
      assert Drop(ps, k) == qs;
    } else {
      InRangeDrop(qs, start, end, k);
      DropAppend(qs, k, p);
      InRangeAppend(Drop(qs, k), p, start, end);
    }
  }

  lemma {:induction false} InRangePermutes(ps: seq<Point>, qs: seq<Point>, start: int, end: int)
    requires multiset(ps) == multiset(qs)
    ensures multiset(InRange(ps, start, end)) == multiset(InRange(qs, start, end))
    decreases |ps|
  {
    if ps == [] {
      assert |multiset(qs)| == 0;
    } else {
      hide InRange;
      var k := Match(ps, qs);
      InRangePermutes(Drop(ps, |ps| - 1), Drop(qs, k), start, end);
      InRangeDrop(ps, start, end, |ps| - 1);
      InRangeDrop(qs, start, end, k);
    }
  }

  lemma {:induction false} AscendingUnique(xs: seq<Point>, ys: seq<Point>)
    requires Ascending(xs) && Ascending(ys) && forall b :: HasStart(xs, b) <==> HasStart(ys, b)
    ensures |xs| == |ys| && forall a | 0 <= a < |xs| :: xs[a].time == ys[a].time
  {
    if xs == [] || ys == [] {
      if xs != [] { assert HasStart(xs, xs[0].time); }
      if ys != [] { assert HasStart(ys, ys[0].time); }
    } else {
      var m, n := |xs| - 1, |ys| - 1;
      assert HasStart(xs, xs[m].time) && HasStart(ys, ys[n].time);
      assert xs[m].time == ys[n].time;
      forall b
        ensures HasStart(xs[..m], b) <==> HasStart(ys[..n], b)
      {
        assert HasStart(xs[..m], b) <==> HasStart(xs, b) && b != xs[m].time;
        assert HasStart(ys[..n], b) <==> HasStart(ys, b) && b != ys[n].time;
      }
      AscendingUnique(xs[..m], ys[..n]);
    }
  }

  lemma StartsAreBuckets(out: seq<Point>, ps: seq<Point>, interval: int, agg: string, b: int)
    requires Groups(out, ps, interval, agg)
    ensures HasStart(out, b) <==> Bucket(ps, interval, b) != []
  {
    hide Truncate, Aggregated, Bucket;
    BucketOf(ps, interval, b);
    if HasStart(out, b) {
      var a :| 0 <= a < |out| && out[a].time == b;
      assert IsGroup(out[a], ps, interval, agg);
    }
  }

  predicate OneZone(ps: seq<Point>, interval: int, b: int) {
    forall p, q | p in ps && q in ps && Truncate(p.time, interval) == b == Truncate(q.time, interval) ::
      p.zone == q.zone
  }

  /** Groups of the same points in two orders are the same outputs, and in the same location
      wherever a bucket has only one. */
  lemma GroupsUnique(xs: seq<Point>, ps: seq<Point>, ys: seq<Point>, qs: seq<Point>, interval: int, agg: string)
    requires multiset(ps) == multiset(qs)
    requires Groups(xs, ps, interval, agg) && Groups(ys, qs, interval, agg)
    ensures |xs| == |ys|
    ensures forall a | 0 <= a < |xs| :: xs[a].time == ys[a].time && xs[a].value == ys[a].value
    ensures forall a | 0 <= a < |xs| :: OneZone(ps, interval, xs[a].time) ==> xs[a] == ys[a]
  {
    hide Truncate, Aggregated, Bucket, Covers;
    forall b
      ensures HasStart(xs, b) <==> HasStart(ys, b)
    {
      StartsAreBuckets(xs, ps, interval, agg, b);
      StartsAreBuckets(ys, qs, interval, agg, b);
      BucketPermutes(ps, qs, interval, b);
      assert |multiset(Bucket(ps, interval, b))| == |multiset(Bucket(qs, interval, b))|;
    }
    AscendingUnique(xs, ys);
    forall a | 0 <= a < |xs|
      ensures xs[a].value == ys[a].value && (OneZone(ps, interval, xs[a].time) ==> xs[a].zone == ys[a].zone)
    {
      var b := xs[a].time;
      assert IsGroup(xs[a], ps, interval, agg) && IsGroup(ys[a], qs, interval, agg);
      BucketPermutes(ps, qs, interval, b);
      AggregatePermutes(Bucket(ps, interval, b), Bucket(qs, interval, b), agg);
      var p :| p in ps && Truncate(p.time, interval) == b && p.zone == xs[a].zone;
      var q :| q in qs && Truncate(q.time, interval) == b && q.zone == ys[a].zone;
      assert q in multiset(qs);
    }
  }

  /** Passes over the same points: only the order of the open bucket's values may differ, and its
      location while it starts at the zero time. */
  predicate Alike(s: Pass, t: Pass) {
    && s.closed == t.closed
    && s.start == t.start
    && (s.start != 0 ==> s.zone == t.zone && s.values != [])
    && multiset(s.values) == multiset(t.values)
  }

  lemma AlikeStep(s: Pass, t: Pass, p: Point, interval: int, agg: string)
    requires Alike(s, t) && (t.start != 0 ==> t.values != [])
    ensures Alike(StepPass(s, p, interval, agg), StepPass(t, p, interval, agg))
  {
    hide Aggregated, Truncate;
    if s.start != 0 { AggregatePermutes(s.values, t.values, agg); }
  }

  /** Two points of one bucket and location, or both of the bucket at the zero time, may change
      places. */
  predicate Swappable(p: Point, q: Point, interval: int) {
    Truncate(p.time, interval) == Truncate(q.time, interval) && (Truncate(p.time, interval) != 0 ==> p.zone == q.zone)
  }

  lemma AlikeSwap(s: Pass, p: Point, q: Point, interval: int, agg: string)
    requires Swappable(p, q, interval) && (s.start != 0 ==> s.values != [])
    ensures Alike(StepPass(StepPass(s, p, interval, agg), q, interval, agg),
                  StepPass(StepPass(s, q, interval, agg), p, interval, agg))
  {
    StepAgain(s, p, q, interval, agg);
    StepAgain(s, q, p, interval, agg);
    var t, u := StepPass(s, p, interval, agg), StepPass(s, q, interval, agg);
    hide StepPass, Truncate;
    StepSwap(s, p, q, interval, agg);
  }

  lemma StepSwap(s: Pass, p: Point, q: Point, interval: int, agg: string)
    requires Swappable(p, q, interval) && (s.start != 0 ==> s.values != [])
    ensures var t, u := StepPass(s, p, interval, agg), StepPass(s, q, interval, agg);
            && t.closed == u.closed && t.start == u.start == Truncate(p.time, interval)
            && multiset(t.values + [q.value]) == multiset(u.values + [p.value])
  {
    hide Aggregated, Truncate;
    assert multiset(s.values + [p.value] + [q.value]) == multiset(s.values + [q.value] + [p.value]);
    assert multiset([p.value] + [q.value]) == multiset([q.value] + [p.value]);
  }

  /** The second of two such points joins the first. */
  lemma StepAgain(s: Pass, p: Point, q: Point, interval: int, agg: string)
    requires Swappable(p, q, interval) && (s.start != 0 ==> s.values != [])
    ensures var t := StepPass(s, p, interval, agg);
            StepPass(t, q, interval, agg) == t.(zone := q.zone, values := t.values + [q.value])
  {
    hide Aggregated, Truncate;
  }

  lemma {:induction false} AlikeMoved(ps: seq<Point>, k: nat, interval: int, agg: string)
    requires k < |ps| && forall j | k < j < |ps| :: Swappable(ps[k], ps[j], interval)
    ensures Alike(RunPass(ps, interval, agg), RunPass(Drop(ps, k) + [ps[k]], interval, agg))
    decreases |ps|
  {
    hide StepPass, RunPass, Drop, Swappable, Aggregated;
    var n := |ps| - 1;
    var qs, x, y := ps[..n], ps[k], ps[n];
    assert ps == qs + [y];
    if k == n {
      assert Drop(ps, k) == qs;
    } else {
      AlikeMoved(qs, k, interval, agg);
      var rest := Drop(qs, k);
      DropAppend(qs, k, y);
      RunPassAppend(qs, y, interval, agg);
      RunPassAppend(rest, x, interval, agg);
      RunPassAppend(rest, y, interval, agg);
      RunPassAppend(rest + [y], x, interval, agg);
      AlikeStep(RunPass(qs, interval, agg), RunPass(rest + [x], interval, agg), y, interval, agg);
      AlikeSwap(RunPass(rest, interval, agg), x, y, interval, agg);
    }
  }

  /** Points of the same instant are of one location, unless their bucket is the one at the zero
      time. */
  predicate TiesAgree(ps: seq<Point>, interval: int) {
    forall p, q | p in ps && q in ps && p.time == q.time && Truncate(p.time, interval) != 0 :: p.zone == q.zone
  }

  lemma {:induction false} AlikeOrder(ps: seq<Point>, qs: seq<Point>, interval: int, agg: string)
    requires Sorted(ps) && Sorted(qs) && multiset(ps) == multiset(qs) && TiesAgree(ps, interval)
    ensures Alike(RunPass(ps, interval, agg), RunPass(qs, interval, agg))
    decreases |ps|
  {
    if ps == [] {
      assert |multiset(qs)| == 0;
    } else {
      var n := |ps| - 1;
      var x := ps[n];
      var k := Match(ps, qs);
      TiesSwap(ps, qs, interval, k);
      assert Drop(ps, n) == ps[..n] && ps == ps[..n] + [x];
      hide RunPass, StepPass, Truncate, Aggregated, Swappable, Alike, Drop;
      assert TiesAgree(ps[..n], interval) && Sorted(ps[..n]);
      SortedDrop(qs, k);
      hide TiesAgree, Sorted;
      AlikeMoved(qs, k, interval, agg);
      AlikeOrder(ps[..n], Drop(qs, k), interval, agg);
      RunPassAppend(ps[..n], x, interval, agg);
      RunPassAppend(Drop(qs, k), x, interval, agg);
      AlikeLast(RunPass(ps[..n], interval, agg), RunPass(Drop(qs, k), interval, agg), RunPass(qs, interval, agg),
                x, interval, agg);
    }
  }

  lemma SortedDrop(ps: seq<Point>, k: nat)
    requires Sorted(ps) && k < |ps|
    ensures Sorted(Drop(ps, k))
  {
  }

  lemma AlikeLast(s: Pass, t: Pass, u: Pass, x: Point, interval: int, agg: string)
    requires (t.start != 0 ==> t.values != []) && (s.start != 0 ==> s.values != [])
    requires Alike(s, t) && Alike(u, StepPass(t, x, interval, agg))
    ensures Alike(StepPass(s, x, interval, agg), u)
  {
    AlikeStep(s, t, x, interval, agg);
    hide StepPass;
  }

  /** What follows, in a sorted order, a point that could have come last is tied with it. */
  lemma TiesSwap(ps: seq<Point>, qs: seq<Point>, interval: int, k: nat)
    requires Sorted(ps) && Sorted(qs) && multiset(ps) == multiset(qs) && TiesAgree(ps, interval)
    requires ps != [] && k < |qs| && qs[k] == ps[|ps| - 1]
    ensures forall j | k < j < |qs| :: Swappable(qs[k], qs[j], interval)
  {
    hide Truncate;
    forall j | k < j < |qs|
      ensures Swappable(qs[k], qs[j], interval)
    {
      assert qs[j] in multiset(qs);
      assert qs[j] in ps && qs[k] in ps;
      assert qs[j].time == qs[k].time;
    }
  }

  /** The same outputs, but for the location of one at the zero time. */
  predicate SameOutputs(xs: seq<Point>, ys: seq<Point>) {
    && |xs| == |ys|
    && forall a | 0 <= a < |xs| ::
         xs[a].time == ys[a].time && xs[a].value == ys[a].value && (xs[a].time != 0 ==> xs[a].zone == ys[a].zone)
  }

  lemma AlikeClose(s: Pass, t: Pass, agg: string)
    requires Alike(s, t)
    ensures SameOutputs(Close(s, agg), Close(t, agg))
    ensures s.zone == t.zone ==> Close(s, agg) == Close(t, agg)
  {
    hide Aggregated;
    assert s.values == [] <==> t.values == [] by {
      assert |multiset(s.values)| == |multiset(t.values)|;
    }
    if s.values != [] { AggregatePermutes(s.values, t.values, agg); }
  }

  lemma SameLastTime(xs: seq<Point>, ys: seq<Point>)
    requires Sorted(xs) && Sorted(ys) && multiset(xs) == multiset(ys) && xs != []
    ensures ys != [] && ys[|ys| - 1] in xs && xs[|xs| - 1].time == ys[|ys| - 1].time
  {
    assert |multiset(xs)| == |multiset(ys)|;
    assert xs[|xs| - 1] in multiset(ys) && ys[|ys| - 1] in multiset(xs);
  }

  /** Two series holding the same points, however they were added and however ties were sorted,
      down-sample to the same outputs if tied points are of one location. Ties in the bucket at the
      zero time can only show in the location of its output. */
  lemma OrderIrrelevant(ps: seq<Point>, qs: seq<Point>, start: int, end: int, interval: int, agg: string)
    requires Sorted(ps) && Sorted(qs) && multiset(ps) == multiset(qs)
    requires TiesAgree(InRange(ps, start, end), interval)
    ensures SameOutputs(DownSampled(ps, start, end, interval, agg), DownSampled(qs, start, end, interval, agg))
    ensures (forall p, q | p in InRange(ps, start, end) && q in InRange(ps, start, end) && p.time == q.time ::
               p.zone == q.zone)
            ==> DownSampled(ps, start, end, interval, agg) == DownSampled(qs, start, end, interval, agg)
  {
    var xs, ys := InRange(ps, start, end), InRange(qs, start, end);
    InRangeSorted(ps, start, end);
    InRangeSorted(qs, start, end);
    InRangePermutes(ps, qs, start, end);
    AlikeOrder(xs, ys, interval, agg);
    AlikeClose(RunPass(xs, interval, agg), RunPass(ys, interval, agg), agg);
    hide InRange, Alike, SameOutputs, TiesAgree, Truncate;
    if xs == [] {
      assert |multiset(ys)| == 0;
    } else {
      SameLastTime(xs, ys);
      NeverClosesZero(xs, interval, agg);
      NeverClosesZero(ys, interval, agg);
    }
  }

  /** Tied points of two locations do show: three points of one instant come out as three groups
      in one order and as two in another. */
  lemma TiesShow(p: Point, q: Point, r: Point, interval: int, agg: string)
    requires p.time == q.time == r.time && Truncate(p.time, interval) != 0
    requires p.zone == r.zone != q.zone
    ensures |Close(RunPass([p, q, r], interval, agg), agg)| == 3
    ensures |Close(RunPass([q, p, r], interval, agg), agg)| == 2
  {
    hide Aggregated, Truncate;
    PassOfTwo(p, q, interval, agg);
    PassOfTwo(q, p, interval, agg);
    RunPassAppend([p, q], r, interval, agg);
    RunPassAppend([q, p], r, interval, agg);
    assert [p, q] + [r] == [p, q, r] && [q, p] + [r] == [q, p, r];
    hide RunPass;
  }
}
