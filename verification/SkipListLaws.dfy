/** What holds of the skip list over every run, whatever the coin flips. */
module SkipListLaws {
  import opened Towers
  import opened Order
  import opened Sequences

  // ---------- runs ----------

  datatype Op = Add(key: string, score: real, height: nat) | Rem(key: string)

  const EMPTY: seq<Tower> := [Tower("", 0.0, MAX_LEVEL)]

  function Step(ts: seq<Tower>, op: Op): seq<Tower>
    requires |ts| > 0
  {
    match op
    case Add(key, score, height) => AddTower(ts, key, score, height)
    case Rem(key) => RemTower(ts, key)
  }

  predicate Playable(ops: seq<Op>) {
    forall op | op in ops && op.Add? :: 1 <= op.height <= MAX_LEVEL
  }

  function Run(ops: seq<Op>): (ts: seq<Tower>)
    ensures |ts| > 0
  {
    if ops == [] then EMPTY else Step(Run(ops[..|ops| - 1]), ops[|ops| - 1])
  }

  /** Strict order on (score, key) and legal heights, in every reachable set. */
  lemma {:induction false} RunOk(ops: seq<Op>)
    requires Playable(ops)
    ensures Ok(Run(ops))
  {
    if ops != [] {
      var ts, op := Run(ops[..|ops| - 1]), ops[|ops| - 1];
      RunOk(ops[..|ops| - 1]);
      match op
      case Add(key, score, height) =>
        assert op in ops;
        AddTowerOk(ts, key, score, height);
      case Rem(key) =>
        if RemTower(ts, key) != ts { DropOk(ts, Found(ts, AtKey(key))); }
    }
  }

  /** Runs that only add end with the same entries however the heights fall. */
  lemma {:induction false} HeightsInvisible(ops: seq<Op>, ops': seq<Op>)
    requires |ops| == |ops'|
    requires forall k | 0 <= k < |ops| ::
               ops[k].Add? && ops'[k].Add? && ops[k].key == ops'[k].key && ops[k].score == ops'[k].score
    ensures Entries(Run(ops)) == Entries(Run(ops'))
  {
    if ops != [] {
      var n := |ops| - 1;
      HeightsInvisible(ops[..n], ops'[..n]);
      AddTowerEntries(Run(ops[..n]), ops[n].key, ops[n].score, ops[n].height);
      AddTowerEntries(Run(ops'[..n]), ops[n].key, ops[n].score, ops'[n].height);
    }
  }

  // ---------- rows ----------

  /** The elements of a sequence of towers that reach level i. */
  function Row(ts: seq<Tower>, i: nat): seq<Tower> {
    if ts == [] then []
    else (if ts[0].height > i then [ts[0]] else []) + Row(ts[1..], i)
  }

  /** What the links spell out at level i after position k. */
  function Chain(ts: seq<Tower>, i: nat, k: nat): seq<Tower>
    requires k < |ts|
    decreases |ts| - k
  {
    var n := Next(ts, i, k);
    if n == |ts| then [] else [ts[n]] + Chain(ts, i, n)
  }

  /** Every chain ends, and visits exactly the elements that reach its level, in bottom order. */
  lemma {:induction false} ChainIsRow(ts: seq<Tower>, i: nat, k: nat)
    requires k < |ts|
    ensures Chain(ts, i, k) == Row(ts[k + 1..], i)
    decreases |ts| - k
  {
    var n := Next(ts, i, k);
    RowSkips(ts, i, k + 1, n);
    if n < |ts| {
      ChainIsRow(ts, i, n);
      assert ts[n..][1..] == ts[n + 1..];
    }
  }

  lemma {:induction false} RowSkips(ts: seq<Tower>, i: nat, lo: nat, hi: nat)
    requires lo <= hi <= |ts| && forall m | lo <= m < hi :: ts[m].height <= i
    ensures Row(ts[lo..], i) == Row(ts[hi..], i)
    decreases hi - lo
  {
    if lo < hi {
      assert ts[lo..][1..] == ts[lo + 1..];
      RowSkips(ts, i, lo + 1, hi);
    }
  }

  /** Each level is a subsequence of the level below: what remains of it at the next height. */
  lemma {:induction false} RowsNest(ts: seq<Tower>, i: nat)
    ensures Row(Row(ts, i), i + 1) == Row(ts, i + 1)
  {
    if ts != [] {
      var rest := Row(ts[1..], i);
      RowsNest(ts[1..], i);
      assert Row(ts, i) == if ts[0].height > i then [ts[0]] + rest else rest;
      assert ([ts[0]] + rest)[1..] == rest;
    }
  }

  predicate StrictlySorted(row: seq<Tower>) {
    forall a, b | 0 <= a < b < |row| :: Passes(row[a], AtEntry(row[b].key, row[b].score))
  }

  lemma {:induction false} RowSorted(ts: seq<Tower>, i: nat)
    requires StrictlySorted(ts)
    ensures StrictlySorted(Row(ts, i)) && forall t | t in Row(ts, i) :: t in ts
  {
    if ts != [] {
      RowSorted(ts[1..], i);
      forall b | 0 <= b < |Row(ts[1..], i)|
        ensures Passes(ts[0], AtEntry(Row(ts[1..], i)[b].key, Row(ts[1..], i)[b].score))
      {
        var t := Row(ts[1..], i)[b];
        assert t in ts[1..];
        var k :| 1 <= k < |ts| && ts[k] == t;
      }
    }
  }

  /** In every reachable set the chain of every level is strictly sorted by (score, key). */
  lemma ChainsSorted(ops: seq<Op>, i: nat)
    requires Playable(ops)
    ensures StrictlySorted(Chain(Run(ops), i, 0))
  {
    var ts := Run(ops);
    RunOk(ops);
    assert StrictlySorted(ts[1..]) by {
      forall a, b | 0 <= a < b < |ts[1..]|
        ensures Passes(ts[1..][a], AtEntry(ts[1..][b].key, ts[1..][b].score))
      {
        assert Passes(ts[a + 1], AtEntry(ts[b + 1].key, ts[b + 1].score));
      }
    }
    RowSorted(ts[1..], i);
    ChainIsRow(ts, i, 0);
  }

  /** The level field is the least bound, at least 1, from which on the header has no successor. */
  lemma LevelIsLeast(ts: seq<Tower>, level: nat)
    requires Heights(ts)
    ensures IsLevel(ts, level) <==>
            && level >= 1
            && (forall i | level <= i :: Next(ts, i, 0) == |ts|)
            && (level == 1 || Next(ts, level - 1, 0) < |ts|)
  {
    if && level >= 1
       && (forall i | level <= i :: Next(ts, i, 0) == |ts|)
       && (level == 1 || Next(ts, level - 1, 0) < |ts|)
    {
      assert Next(ts, level, 0) == |ts|;
      if level > 1 { assert ts[Next(ts, level - 1, 0)].height == level; }
    }
    if IsLevel(ts, level) {
      if level > 1 {
        var k :| 1 <= k < |ts| && ts[k].height == level;
        assert Next(ts, level - 1, 0) <= k;
      }
    }
  }

  // ---------- ZRem: exactly when it finds the first occurrence ----------

  /** Position q holds the key, with only smaller keys before it and no smaller key after it. */
  predicate Separates(es: seq<Entry>, key: string, q: nat) {
    && q < |es|
    && es[q].key == key
    && (forall k | 0 <= k < q :: Less(es[k].key, key))
    && (forall k | q < k < |es| :: !Less(es[k].key, key))
  }

  lemma {:induction false} WalkStays(ts: seq<Tower>, g: Goal, i: nat, t: Trail, q: nat)
    requires Heights(ts) && t.at < q < |ts|
    requires forall k | q <= k < |ts| :: !Passes(ts[k], g)
    requires forall k | 1 <= k < q :: Passes(ts[k], g)
    ensures Walk(ts, g, i, t).at < q
    ensures i == 0 ==> Walk(ts, g, i, t).at == q - 1
    decreases q - t.at
  {
    var n := Next(ts, i, t.at);
    if n < |ts| && Passes(ts[n], g) { WalkStays(ts, g, i, Trail(n, t.hops + 1), q); }
  }

  lemma {:induction false} DescendStays(ts: seq<Tower>, g: Goal, i: nat, t: Trail, q: nat)
    requires Heights(ts) && t.at < q < |ts|
    requires forall k | q <= k < |ts| :: !Passes(ts[k], g)
    requires forall k | 1 <= k < q :: Passes(ts[k], g)
    ensures Descend(ts, g, i, t).at < q
    ensures i > 0 ==> Descend(ts, g, i, t).at == q - 1
  {
    hide Walk, Next, Passes, Heights;
    if i > 0 {
      WalkStays(ts, g, i - 1, t, q);
      DescendStays(ts, g, i - 1, Walk(ts, g, i - 1, t), q);
    }
  }

  lemma SeparatesFound(ts: seq<Tower>, key: string, q: nat)
    requires Heights(ts) && Separates(Entries(ts), key, q)
    ensures Found(ts, AtKey(key)) == q + 1
  {
    var es := Entries(ts);
    LessIrreflexive(key);
    forall k | 1 <= k < |ts|
      ensures Passes(ts[k], AtKey(key)) <==> k < q + 1
    {
      assert es[k - 1] == Entry(ts[k].key, ts[k].score);
    }
    DescendStays(ts, AtKey(key), Level(ts), Trail(0, 0), q + 1);
  }

  function Towered(es: seq<Entry>, heights: seq<nat>): (ts: seq<Tower>)
    requires |heights| == |es|
    ensures |ts| == |es|
    ensures forall k | 0 <= k < |es| :: ts[k] == Tower(es[k].key, es[k].score, heights[k])
  {
    seq(|es|, k requires 0 <= k < |es| => Tower(es[k].key, es[k].score, heights[k]))
  }

  /** The entries under towers of the given heights. */
  function Raised(es: seq<Entry>, heights: seq<nat>): (ts: seq<Tower>)
    requires |heights| == |es| && forall k | 0 <= k < |es| :: 1 <= heights[k] <= 2
    ensures Heights(ts) && Entries(ts) == es
    ensures |ts| == |es| + 1
    ensures forall m | 1 <= m <= |es| :: ts[m] == Tower(es[m - 1].key, es[m - 1].score, heights[m - 1])
  {
    EMPTY + Towered(es, heights)
  }

  /** The entries with one tower of height 2 and all others of height 1. */
  function Spike(es: seq<Entry>, s: nat): (ts: seq<Tower>)
    ensures Heights(ts) && Entries(ts) == es
  {
    Raised(es, seq(|es|, k => if k == s then 2 else 1))
  }

  lemma WalkOnce(ts: seq<Tower>, g: Goal, i: nat, t: Trail, n: nat)
    requires t.at < n < |ts| && Next(ts, i, t.at) == n && Passes(ts[n], g)
    requires Next(ts, i, n) < |ts| ==> !Passes(ts[Next(ts, i, n)], g)
    ensures Walk(ts, g, i, t) == Trail(n, t.hops + 1)
  {
    assert Walk(ts, g, i, Trail(n, t.hops + 1)) == Trail(n, t.hops + 1);
  }

  lemma SpikeAt(es: seq<Entry>, s: nat, k: nat)
    requires k < |es|
    ensures Spike(es, s)[k + 1] == Tower(es[k].key, es[k].score, if k == s then 2 else 1)
  {
  }

  lemma SpikeHeights(es: seq<Entry>, s: nat)
    requires s <= |es|
    ensures forall m | 1 <= m <= |es| :: Spike(es, s)[m].height == if m == s + 1 then 2 else 1
    ensures forall m | 1 <= m <= |es| :: Spike(es, s)[m].key == es[m - 1].key
    ensures |Spike(es, s)| == |es| + 1
  {
  }

  lemma SpikeLevel(es: seq<Entry>, s: nat)
    requires s < |es|
    ensures Level(Spike(es, s)) == 2
  {
    hide Spike, Level;
    SpikeHeights(es, s);
    assert Spike(es, s)[s + 1].height == 2;
    LevelUnique(Spike(es, s), Level(Spike(es, s)), 2);
  }

  lemma SpikeTop(es: seq<Entry>, g: Goal, s: nat)
    requires s < |es| && Precedes(es[s].key, es[s].score, g)
    ensures Walk(Spike(es, s), g, 1, Trail(0, 0)) == Trail(s + 1, 1)
  {
    hide Next, Spike, Walk, Precedes, Entries;
    var ts := Spike(es, s);
    SpikeAt(es, s, s);
    SpikeHeights(es, s);
    NextIs(ts, 1, 0, s + 1);
    NextIs(ts, 1, s + 1, |ts|);
    WalkOnce(ts, g, 1, Trail(0, 0), s + 1);
  }

  /** With one spike, at a passed element, the top row leads there in one hop. */
  lemma SpikeDescent(es: seq<Entry>, g: Goal, s: nat)
    requires s < |es| && Precedes(es[s].key, es[s].score, g)
    ensures var ts := Spike(es, s);
            && Level(ts) == 2
            && Descend(ts, g, 2, Trail(0, 0)) == Walk(ts, g, 0, Trail(s + 1, 1))
  {
    hide Walk, Next, Spike, Level;
    var ts := Spike(es, s);
    SpikeTop(es, g, s);
    SpikeLevel(es, s);
    assert Descend(ts, g, 2, Trail(0, 0)) == Descend(ts, g, 1, Trail(s + 1, 1));
    assert Descend(ts, g, 1, Trail(s + 1, 1)) == Walk(ts, g, 0, Trail(s + 1, 1));
  }

  /** A spike on a later, smaller key carries the descent past the first occurrence. */
  lemma SpikeOvershoots(es: seq<Entry>, key: string, s: nat)
    requires s < |es| && Less(es[s].key, key)
    ensures Found(Spike(es, s), AtKey(key)) > s + 1
  {
    SpikeDescent(es, AtKey(key), s);
  }

  lemma {:induction false} FlatWalkStops(ts: seq<Tower>, g: Goal, t: Trail, s: nat)
    requires Heights(ts) && t.at < s < |ts| && !Passes(ts[s], g)
    ensures Walk(ts, g, 0, t).at < s
    decreases s - t.at
  {
    assert Next(ts, 0, t.at) == t.at + 1;
    if Passes(ts[t.at + 1], g) { FlatWalkStops(ts, g, Trail(t.at + 1, t.hops + 1), s); }
  }

  lemma FlatFound(ts: seq<Tower>, g: Goal)
    requires |ts| > 0 && IsLevel(ts, 1)
    ensures Found(ts, g) == Walk(ts, g, 0, Trail(0, 0)).at + 1
  {
    LevelUnique(ts, Level(ts), 1);
    hide Level, Walk;
    assert Descend(ts, g, 1, Trail(0, 0)) == Descend(ts, g, 0, Walk(ts, g, 0, Trail(0, 0)));
  }

  /** On a single level an earlier key that is not smaller stops the descent short. */
  lemma FlatStopsShort(es: seq<Entry>, key: string, s: nat)
    requires s < |es| && !Less(es[s].key, key)
    ensures Found(Spike(es, |es|), AtKey(key)) <= s + 1
  {
    var ts, g := Spike(es, |es|), AtKey(key);
    hide Spike, Raised, Less;
    SpikeHeights(es, |es|);
    assert IsLevel(ts, 1) && !Passes(ts[s + 1], g);
    FlatFound(ts, g);
    hide Level, Walk, Next, Entries, Found, Descend, Passes, Heights;
    FlatWalkStops(ts, g, Trail(0, 0), s + 1);
  }

  /** ZRem and ZRank find the first occurrence of a member at every choice of heights if and only
      if every key before it is smaller and no key after it is. */
  lemma FoundIffSeparates(es: seq<Entry>, key: string, q: nat)
    requires q < |es| && es[q].key == key && forall k | 0 <= k < q :: es[k].key != key
    ensures (forall ts: seq<Tower> | Heights(ts) && Entries(ts) == es :: Found(ts, AtKey(key)) == q + 1)
            <==> Separates(es, key, q)
  {
    hide Spike, Found, Less;
    if Separates(es, key, q) {
      forall ts: seq<Tower> | Heights(ts) && Entries(ts) == es
        ensures Found(ts, AtKey(key)) == q + 1
      {
        SeparatesFound(ts, key, q);
      }
    } else if k :| 0 <= k < q && !Less(es[k].key, key) {
      FlatStopsShort(es, key, k);
      assert Found(Spike(es, |es|), AtKey(key)) != q + 1;
    } else {
      var k :| q < k < |es| && Less(es[k].key, key);
      SpikeOvershoots(es, key, k);
      assert Found(Spike(es, k), AtKey(key)) != q + 1;
    }
  }

  // ---------- ZRem: exactly when it succeeds ----------

  /** A place where a by-key search may stop: a smaller key before it, no smaller key at it. */
  predicate Boundary(es: seq<Entry>, key: string, p: nat) {
    && p <= |es|
    && (p == 0 || Less(es[p - 1].key, key))
    && (p == |es| || !Less(es[p].key, key))
  }

  /** The search for the key ends at an element with the key. */
  predicate Finds(ts: seq<Tower>, key: string)
    requires |ts| > 0
  {
    var p := Found(ts, AtKey(key));
    p < |ts| && ts[p].key == key
  }

  lemma {:induction false} DescendStops(ts: seq<Tower>, g: Goal, i: nat, t: Trail)
    requires t.at < |ts| && (t.at == 0 || Passes(ts[t.at], g))
    ensures var r := Descend(ts, g, i, t).at;
            && (r == 0 || Passes(ts[r], g))
            && (i > 0 && Next(ts, 0, r) < |ts| ==> !Passes(ts[Next(ts, 0, r)], g))
  {
    hide Next, Passes;
    if i > 0 {
      WalkPasses(ts, g, i - 1, t);
      DescendStops(ts, g, i - 1, Walk(ts, g, i - 1, t));
    }
  }

  /** Every search ends at a boundary. */
  lemma FoundIsBoundary(ts: seq<Tower>, key: string)
    requires Heights(ts)
    ensures Boundary(Entries(ts), key, Found(ts, AtKey(key)) - 1)
  {
    var p := Found(ts, AtKey(key));
    DescendStops(ts, AtKey(key), Level(ts), Trail(0, 0));
    NextIs(ts, 0, p - 1, p);
    hide Next, Descend, Level, Walk, Entries, Less;
    assert p > 1 ==> Entries(ts)[p - 2].key == ts[p - 1].key;
    assert p < |ts| ==> Entries(ts)[p - 1].key == ts[p].key;
  }

  /** Some choice of heights leads the search to any given boundary. */
  lemma BoundaryIsFound(es: seq<Entry>, key: string, p: nat)
    requires Boundary(es, key, p)
    ensures Found(Spike(es, if p == 0 then |es| else p - 1), AtKey(key)) == p + 1
  {
    if p > 0 {
      SpikeStops(es, key, p);
    } else {
      hide Spike, Level, Descend, Walk;
      if es != [] { FlatStopsShort(es, key, 0); }
      assert Entries(Spike(es, |es|)) == es;
    }
  }

  lemma SpikeStops(es: seq<Entry>, key: string, p: nat)
    requires Boundary(es, key, p) && p > 0
    ensures Found(Spike(es, p - 1), AtKey(key)) == p + 1
  {
    var ts := Spike(es, p - 1);
    hide Spike, Raised, Level, Entries, Less, Walk, Passes, Heights, Found, Descend, Precedes;
    SpikeFacts(es, key, p);
    StopsWhere(ts, AtKey(key), p);
  }

  lemma StopsWhere(ts: seq<Tower>, g: Goal, p: nat)
    requires Heights(ts) && p < |ts| && (p + 1 < |ts| ==> !Passes(ts[p + 1], g))
    requires Level(ts) == 2 && Descend(ts, g, 2, Trail(0, 0)) == Walk(ts, g, 0, Trail(p, 1))
    ensures Found(ts, g) == p + 1
  {
    hide Descend, Walk, Level;
    NextIs(ts, 0, p, p + 1);
    WalkEnds(ts, g, 0, Trail(p, 1));
  }

  lemma SpikeFacts(es: seq<Entry>, key: string, p: nat)
    requires Boundary(es, key, p) && p > 0
    ensures var ts := Spike(es, p - 1);
            && p < |ts| && (p + 1 < |ts| ==> !Passes(ts[p + 1], AtKey(key)))
            && Level(ts) == 2
            && Descend(ts, AtKey(key), 2, Trail(0, 0)) == Walk(ts, AtKey(key), 0, Trail(p, 1))
  {
    hide Spike, Less, Walk, Descend, Level, Heights;
    SpikeDescent(es, AtKey(key), p - 1);
    SpikeHeights(es, p - 1);
  }

  lemma WalkEnds(ts: seq<Tower>, g: Goal, i: nat, t: Trail)
    requires t.at < |ts| && (Next(ts, i, t.at) < |ts| ==> !Passes(ts[Next(ts, i, t.at)], g))
    ensures Walk(ts, g, i, t) == t
  {
  }

  /** ZRem removes an entry with the key, and ZRank answers a rank, at every choice of heights if
      and only if the key stands at every boundary. The entries need not be sorted by key. */
  lemma FindsIff(es: seq<Entry>, key: string)
    ensures (forall ts: seq<Tower> | Heights(ts) && Entries(ts) == es :: Finds(ts, key))
            <==> forall p: nat | Boundary(es, key, p) :: p < |es| && es[p].key == key
    ensures forall ts: seq<Tower> | Heights(ts) ::
              (Finds(ts, key) <==> RemTower(ts, key) != ts) && (Finds(ts, key) <==> RankOf(ts, key) >= 0)
  {
    hide Found, Spike, Boundary, RemTower, RankOf, Finds, Less;
    forall ts: seq<Tower> | Heights(ts)
      ensures (Finds(ts, key) <==> RemTower(ts, key) != ts) && (Finds(ts, key) <==> RankOf(ts, key) >= 0)
    {
      FindsMeans(ts, key);
    }
    if forall p: nat | Boundary(es, key, p) :: p < |es| && es[p].key == key {
      forall ts: seq<Tower> | Heights(ts) && Entries(ts) == es
        ensures Finds(ts, key)
      {
        FoundIsBoundary(ts, key);
        FindsAt(ts, key);
      }
    } else {
      var p: nat :| Boundary(es, key, p) && !(p < |es| && es[p].key == key);
      var ts := Spike(es, if p == 0 then |es| else p - 1);
      BoundaryIsFound(es, key, p);
      FindsAt(ts, key);
    }
  }

  lemma FindsMeans(ts: seq<Tower>, key: string)
    requires |ts| > 0
    ensures Finds(ts, key) <==> RemTower(ts, key) != ts
    ensures Finds(ts, key) <==> RankOf(ts, key) >= 0
  {
    hide Found, Level, Descend;
  }

  lemma FindsAt(ts: seq<Tower>, key: string)
    requires |ts| > 0
    ensures var es, p := Entries(ts), Found(ts, AtKey(key)) - 1;
            Finds(ts, key) <==> p < |es| && es[p].key == key
  {
    hide Found;
  }

  /** Smaller keys before the member are not enough: two ZAdds reach a set in which ZRem misses
      the first entry. */
  lemma RemMisses()
    ensures var ts := Spike([Entry("b", 1.0), Entry("a", 2.0)], 1);
            && Ok(ts)
            && RemTower(ts, "b") == ts
            && exists ops :: Playable(ops) && Run(ops) == ts
  {
    var es := [Entry("b", 1.0), Entry("a", 2.0)];
    var ts, ops := Spike(es, 1), [Add("b", 1.0, 1), Add("a", 2.0, 2)];
    RemMissesReached();
    RunOk(ops);
    assert Less("a", "b");
    hide Spike, Ok, Less, Run, RemTower, Playable;
    SpikeMisses(es, "b", 1);
  }

  /** A spike on a smaller key in the last place carries the search past the end. */
  lemma SpikeMisses(es: seq<Entry>, key: string, s: nat)
    requires s + 1 == |es| && Less(es[s].key, key)
    ensures RemTower(Spike(es, s), key) == Spike(es, s)
  {
    hide Spike, Found, Less;
    SpikeHeights(es, s);
    SpikeOvershoots(es, key, s);
  }

  lemma RemMissesReached()
    ensures var ops := [Add("b", 1.0, 1), Add("a", 2.0, 2)];
            Playable(ops) && Run(ops) == Spike([Entry("b", 1.0), Entry("a", 2.0)], 1)
  {
    var ops := [Add("b", 1.0, 1), Add("a", 2.0, 2)];
    var one := EMPTY + [Tower("b", 1.0, 1)];
    assert ops[..1] == [ops[0]] && [ops[0]][..0] == [];
    assert Run([]) == EMPTY;
    AddLast(EMPTY, "b", 1.0, 1);
    AddLast(one, "a", 2.0, 2);
    hide AddTower;
    assert Run([ops[0]]) == one;
    assert Run(ops) == one + [Tower("a", 2.0, 2)];
  }

  /** An addition after all the entries. */
  lemma AddLast(ts: seq<Tower>, key: string, score: real, h: nat)
    requires |ts| > 0 && forall k | 1 <= k < |ts| :: ts[k].score < score
    ensures AddTower(ts, key, score, h) == ts + [Tower(key, score, h)]
  {
    PlaceIs(Entries(ts), key, score, |ts| - 1);
  }

  /** A successful ZRem takes out one entry with the key and keeps the rest in order. */
  lemma RemEntries(ts: seq<Tower>, key: string)
    requires Heights(ts)
    ensures var p := Found(ts, AtKey(key));
            if p < |ts| && ts[p].key == key
            then Entries(ts)[p - 1].key == key && Entries(RemTower(ts, key)) == Drop(Entries(ts), p - 1)
            else RemTower(ts, key) == ts
  {
    hide Found;
    var p := Found(ts, AtKey(key));
    if p < |ts| && ts[p].key == key { EntriesOfDrop(ts, p); }
  }

  lemma EntriesOfDrop(ts: seq<Tower>, p: nat)
    requires 1 <= p < |ts|
    ensures Entries(Drop(ts, p)) == Drop(Entries(ts), p - 1)
    ensures Entries(ts)[p - 1].key == ts[p].key
  {
    var es, fs := Entries(Drop(ts, p)), Drop(Entries(ts), p - 1);
    hide Drop;
    forall k | 0 <= k < |es|
      ensures es[k] == fs[k]
    {
      assert Drop(ts, p)[k + 1] == if k + 1 < p then ts[k + 1] else ts[k + 2];
    }
  }

  // ---------- ZRank ----------

  lemma {:induction false} WalkHops(ts: seq<Tower>, g: Goal, i: nat, t: Trail)
    requires Heights(ts) && t.at < |ts|
    ensures var r := Walk(ts, g, i, t);
            && t.hops <= r.hops && r.hops - t.hops <= r.at - t.at
            && (r.at > t.at ==> r.hops > t.hops)
            && (i == 0 ==> r.hops - t.hops == r.at - t.at)
    decreases |ts| - t.at
  {
    var n := Next(ts, i, t.at);
    if n < |ts| && Passes(ts[n], g) { WalkHops(ts, g, i, Trail(n, t.hops + 1)); }
  }

  lemma {:induction false} DescendHops(ts: seq<Tower>, g: Goal, i: nat, t: Trail)
    requires Heights(ts) && t.at < |ts|
    ensures var r := Descend(ts, g, i, t);
            && t.hops <= r.hops && r.hops - t.hops <= r.at - t.at
            && (r.at > t.at ==> r.hops > t.hops)
            && (i == 1 ==> r.hops - t.hops == r.at - t.at)
  {
    hide Walk, Next, Passes;
    if i > 0 {
      WalkHops(ts, g, i - 1, t);
      DescendHops(ts, g, i - 1, Walk(ts, g, i - 1, t));
    }
  }

  /** A rank is the index of an entry with the key or falls short of it, and is positive unless
      the index is 0; on a single level it is the index. */
  lemma RankBounds(ts: seq<Tower>, key: string)
    requires Heights(ts) && RankOf(ts, key) >= 0
    ensures var index := Found(ts, AtKey(key)) - 1;
            && index < |Entries(ts)| && Entries(ts)[index].key == key
            && RankOf(ts, key) <= index
            && (RankOf(ts, key) == 0 <==> index == 0)
            && (Level(ts) == 1 ==> RankOf(ts, key) == index)
  {
    hide Level, Descend, Less;
    DescendHops(ts, AtKey(key), Level(ts), Trail(0, 0));
  }

  /** A spike under the predecessor is reached in one hop. */
  lemma RankFallsShort(es: seq<Entry>, key: string, q: nat)
    requires Separates(es, key, q) && q > 1
    ensures RankOf(Spike(es, q - 1), key) == 1
  {
    var ts, g := Spike(es, q - 1), AtKey(key);
    SeparatesFound(ts, key, q);
    SpikeDescent(es, g, q - 1);
    SpikeAt(es, q - 1, q);
    LessIrreflexive(key);
    NextIs(ts, 0, q, q + 1);
    assert Walk(ts, g, 0, Trail(q, 1)) == Trail(q, 1);
    hide Walk, Next, Spike, Separates;
  }

  /** The entries with towers of height 2 under the smaller keys only. */
  function Tall(es: seq<Entry>, key: string): (ts: seq<Tower>)
    ensures Heights(ts) && Entries(ts) == es
    ensures |ts| == |es| + 1
    ensures forall m | 1 <= m < |ts| :: ts[m].key == es[m - 1].key && ts[m].height == TallHeight(ts[m].key, key)
  {
    Raised(es, seq(|es|, k requires 0 <= k < |es| => TallHeight(es[k].key, key)))
  }

  function TallHeight(k: string, key: string): (h: nat)
    ensures 1 <= h <= 2
  {
    if Less(k, key) then 2 else 1
  }

  lemma WalkHop(ts: seq<Tower>, g: Goal, i: nat, t: Trail)
    requires t.at < |ts| && Next(ts, i, t.at) < |ts| && Passes(ts[Next(ts, i, t.at)], g)
    ensures Walk(ts, g, i, t) == Walk(ts, g, i, Trail(Next(ts, i, t.at), t.hops + 1))
  {
  }

  lemma {:induction false} WalkSteps(ts: seq<Tower>, g: Goal, i: nat, t: Trail, q: nat)
    requires t.at <= q < |ts|
    requires forall k | t.at < k <= q :: ts[k].height > i && Passes(ts[k], g)
    ensures Walk(ts, g, i, t) == Walk(ts, g, i, Trail(q, t.hops + q - t.at))
    decreases q - t.at
  {
    hide Walk, Next, Passes;
    if t.at < q {
      NextIs(ts, i, t.at, t.at + 1);
      WalkHop(ts, g, i, t);
      WalkSteps(ts, g, i, Trail(t.at + 1, t.hops + 1), q);
    }
  }

  /** With a smaller key k after position q, the top row of the tall set takes more than q hops. */
  lemma TallWalk(es: seq<Entry>, key: string, q: nat, k: nat)
    requires q < k < |es| && Less(es[k].key, key) && forall m | 0 <= m < q :: Less(es[m].key, key)
    ensures Walk(Tall(es, key), AtKey(key), 1, Trail(0, 0)).hops > q
  {
    var ts, g := Tall(es, key), AtKey(key);
    hide Tall, Heights, Entries, Less, Walk, Next;
    forall m | 1 <= m <= q
      ensures ts[m].height > 1 && Passes(ts[m], g)
    {
      assert Less(es[m - 1].key, key);
    }
    WalkSteps(ts, g, 1, Trail(0, 0), q);
    assert ts[k + 1].height == 2;
    WalkHop(ts, g, 1, Trail(q, q));
    WalkHops(ts, g, 1, Trail(Next(ts, 1, q), q + 1));
  }

  lemma TallLevel(es: seq<Entry>, key: string, k: nat)
    requires k < |es| && Less(es[k].key, key)
    ensures Level(Tall(es, key)) == 2
  {
    hide Tall, Level, Less;
    var ts := Tall(es, key);
    assert ts[k + 1].height == 2;
    LevelUnique(ts, 2, Level(ts));
  }

  lemma RankTooHigh(es: seq<Entry>, key: string, q: nat, k: nat)
    requires q < k < |es| && Less(es[k].key, key) && forall m | 0 <= m < q :: Less(es[m].key, key)
    ensures RankOf(Tall(es, key), key) != q
  {
    var ts, g := Tall(es, key), AtKey(key);
    hide Walk, Tall, Level, Less, Heights, Entries, Descend, RankOf, TallHeight;
    TallWalk(es, key, q, k);
    TallLevel(es, key, k);
    DescendFirst(ts, g, 1);
    RankIsHops(ts, key);
  }

  lemma DescendFirst(ts: seq<Tower>, g: Goal, i: nat)
    requires Heights(ts)
    ensures Descend(ts, g, i + 1, Trail(0, 0)).hops >= Walk(ts, g, i, Trail(0, 0)).hops
  {
    DescendHops(ts, g, i, Walk(ts, g, i, Trail(0, 0)));
    hide Walk, Heights;
  }

  lemma RankIsHops(ts: seq<Tower>, key: string)
    requires |ts| > 0
    ensures RankOf(ts, key) == -1 || RankOf(ts, key) == Descend(ts, AtKey(key), Level(ts), Trail(0, 0)).hops
  {
    hide Descend, Level;
  }

  lemma RankAtMostOne(ts: seq<Tower>, key: string, q: nat)
    requires Heights(ts) && Separates(Entries(ts), key, q) && q <= 1
    ensures RankOf(ts, key) == q
  {
    hide Less, Level, Descend;
    SeparatesFound(ts, key, q);
    assert Entries(ts)[q] == Entry(ts[q + 1].key, ts[q + 1].score);
    RankBounds(ts, key);
  }

  /** The rank of a member is the index of its first occurrence at every choice of heights if and
      only if every key before it is smaller, no key after it is, and the index is 0 or 1. */
  lemma RankIsIndexIff(es: seq<Entry>, key: string, q: nat)
    requires q < |es| && es[q].key == key && forall k | 0 <= k < q :: es[k].key != key
    ensures (forall ts: seq<Tower> | Heights(ts) && Entries(ts) == es :: RankOf(ts, key) == q)
            <==> Separates(es, key, q) && q <= 1
  {
    hide Spike, Tall, RankOf, Found, Level, Less;
    if k :| 0 <= k < q && !Less(es[k].key, key) {
      FlatMisses(es, key, q, k);
    } else if k :| q < k < |es| && Less(es[k].key, key) {
      RankTooHigh(es, key, q, k);
    } else if q <= 1 {
      forall ts: seq<Tower> | Heights(ts) && Entries(ts) == es
        ensures RankOf(ts, key) == q
      {
        RankAtMostOne(ts, key, q);
      }
    } else {
      RankFallsShort(es, key, q);
    }
  }

  lemma RankMissed(ts: seq<Tower>, key: string)
    requires |ts| > 0 && (Found(ts, AtKey(key)) < |ts| ==> ts[Found(ts, AtKey(key))].key != key)
    ensures RankOf(ts, key) == -1
  {
    hide Found;
  }

  /** On a single level a search stopped before the first occurrence finds another key. */
  lemma FlatMisses(es: seq<Entry>, key: string, q: nat, k: nat)
    requires k < q < |es| && !Less(es[k].key, key) && forall m | 0 <= m < q :: es[m].key != key
    ensures RankOf(Spike(es, |es|), key) == -1
  {
    hide Spike, Raised, Found, Less, Level, Entries, Heights, RankOf;
    FlatStopsShort(es, key, k);
    SpikeHeights(es, |es|);
    RankMissed(Spike(es, |es|), key);
  }
}
