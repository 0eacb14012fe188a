/** The skip list as a value: the bottom row, header first, each element with its tower height.
    The row at level i is the subsequence of the towers higher than i, so one sequence
    determines every link of the structure. */
module Towers {
  import opened Order
  import opened Sequences

  const MAX_LEVEL: nat := 16

  datatype Tower = Tower(key: string, score: real, height: nat)

  datatype Entry = Entry(key: string, score: real)

  /** What a descent looks for: ZAdd a (score, key) pair, ZRem and ZRank a bare key. */
  datatype Goal = AtEntry(key: string, score: real) | AtKey(key: string)

  predicate Precedes(key: string, score: real, g: Goal) {
    match g
    case AtEntry(k, s) => score < s || (score == s && Less(key, k))
    case AtKey(k) => Less(key, k)
  }

  predicate Passes(t: Tower, g: Goal) {
    Precedes(t.key, t.score, g)
  }

  predicate Sorted(ts: seq<Tower>) {
    forall a, b | 1 <= a < b < |ts| :: Passes(ts[a], AtEntry(ts[b].key, ts[b].score))
  }

  predicate Heights(ts: seq<Tower>) {
    && |ts| > 0
    && ts[0].height == MAX_LEVEL
    && forall k | 0 <= k < |ts| :: 1 <= ts[k].height <= MAX_LEVEL
  }

  predicate Ok(ts: seq<Tower>) {
    Heights(ts) && Sorted(ts)
  }

  /** The successor of position k in the row at level i; |ts| when there is none. */
  function Next(ts: seq<Tower>, i: nat, k: nat): (j: nat)
    requires k < |ts|
    ensures k < j <= |ts|
    ensures j < |ts| ==> ts[j].height > i
    ensures forall m | k < m < j :: ts[m].height <= i
    decreases |ts| - k
  {
    if k + 1 == |ts| || ts[k + 1].height > i then k + 1 else Next(ts, i, k + 1)
  }

  lemma NextIs(ts: seq<Tower>, i: nat, k: nat, j: nat)
    requires k < j <= |ts|
    requires j < |ts| ==> ts[j].height > i
    requires forall m | k < m < j :: ts[m].height <= i
    ensures Next(ts, i, k) == j
  {
  }

  /** Links after a splice at p: an element before p whose successor was at or past p now points
      at the new tower, if that is high enough, and every other link keeps its target. */
  lemma NextInsertBefore(ts: seq<Tower>, p: nat, t: Tower, i: nat, k: nat)
    requires k < p <= |ts|
    ensures Next(Insert(ts, p, t), i, k) ==
            if Next(ts, i, k) < p then Next(ts, i, k)
            else if t.height > i then p else Next(ts, i, k) + 1
  {
    var n := Next(ts, i, k);
    NextIs(Insert(ts, p, t), i, k, if n < p then n else if t.height > i then p else n + 1);
  }

  lemma NextInsertAfter(ts: seq<Tower>, p: nat, t: Tower, i: nat, k: nat)
    requires p <= k < |ts|
    ensures Next(Insert(ts, p, t), i, k + 1) == Next(ts, i, k) + 1
  {
    NextIs(Insert(ts, p, t), i, k + 1, Next(ts, i, k) + 1);
  }

  /** The new tower takes over the successor of the predecessor at each of its levels. */
  lemma NextInsertAt(ts: seq<Tower>, p: nat, t: Tower, i: nat, k: nat)
    requires k < p <= |ts| && p <= Next(ts, i, k)
    ensures Next(Insert(ts, p, t), i, p) == Next(ts, i, k) + 1
  {
    NextIs(Insert(ts, p, t), i, p, Next(ts, i, k) + 1);
  }

  /** Links after an unlinking at p: what pointed at p takes over p's successor. */
  lemma NextDropBefore(ts: seq<Tower>, p: nat, i: nat, k: nat)
    requires k < p < |ts|
    ensures Next(Drop(ts, p), i, k) ==
            if Next(ts, i, k) < p then Next(ts, i, k)
            else if Next(ts, i, k) == p then Next(ts, i, p) - 1
            else Next(ts, i, k) - 1
  {
    var n := Next(ts, i, k);
    NextIs(Drop(ts, p), i, k, if n < p then n else if n == p then Next(ts, i, p) - 1 else n - 1);
  }

  lemma NextDropAfter(ts: seq<Tower>, p: nat, i: nat, k: nat)
    requires p <= k && k + 1 < |ts|
    ensures Next(Drop(ts, p), i, k) == Next(ts, i, k + 1) - 1
  {
    NextIs(Drop(ts, p), i, k, Next(ts, i, k + 1) - 1);
  }

  /** ups names, level by level below hi, the element after which position p lies. */
  predicate Straddles(ts: seq<Tower>, ups: seq<nat>, hi: nat, p: nat) {
    && hi <= |ups|
    && forall i | 0 <= i < hi :: ups[i] < p <= |ts| && ts[ups[i]].height > i && p <= Next(ts, i, ups[i])
  }

  /** Only the straddling element of a row points past it. */
  lemma StraddleUnique(ts: seq<Tower>, ups: seq<nat>, hi: nat, p: nat, i: nat, k: nat)
    requires Straddles(ts, ups, hi, p) && i < hi && k < p <= |ts| && ts[k].height > i
    ensures Next(ts, i, k) >= p <==> k == ups[i]
  {
  }

  /** Lowering or raising a score moves no link. */
  lemma {:induction false} NextScore(ts: seq<Tower>, p: nat, score: real, i: nat, k: nat)
    requires p < |ts| && k < |ts|
    ensures Next(ts[p := ts[p].(score := score)], i, k) == Next(ts, i, k)
    decreases |ts| - k
  {
    if k + 1 < |ts| { NextScore(ts, p, score, i, k + 1); }
  }

  // ---------- the level field ----------

  /** The least bound, at least 1, on the heights of the elements. */
  predicate IsLevel(ts: seq<Tower>, level: nat) {
    && 1 <= level
    && (forall k | 1 <= k < |ts| :: ts[k].height <= level)
    && (level > 1 ==> exists k | 1 <= k < |ts| :: ts[k].height == level)
  }

  function Level(ts: seq<Tower>): (level: nat)
    ensures IsLevel(ts, level)
  {
    if |ts| <= 1 then 1
    else
      var rest := Level(ts[..|ts| - 1]);
      assert rest > 1 ==> exists k | 1 <= k < |ts| - 1 :: ts[..|ts| - 1][k] == ts[k] && ts[k].height == rest;
      assert forall k | 1 <= k < |ts| - 1 :: ts[k] == ts[..|ts| - 1][k];
      if ts[|ts| - 1].height > rest then ts[|ts| - 1].height else rest
  }

  lemma LevelUnique(ts: seq<Tower>, a: nat, b: nat)
    requires IsLevel(ts, a) && IsLevel(ts, b)
    ensures a == b
  {
  }

  // ---------- descents ----------

  /** Where a descent stands and how many links it has followed. */
  datatype Trail = Trail(at: nat, hops: nat)

  /** Follow the row at level i while the successor precedes the goal. */
  function Walk(ts: seq<Tower>, g: Goal, i: nat, t: Trail): (r: Trail)
    requires t.at < |ts|
    ensures t.at <= r.at < |ts|
    ensures Next(ts, i, r.at) < |ts| ==> !Passes(ts[Next(ts, i, r.at)], g)
    decreases |ts| - t.at
  {
    var n := Next(ts, i, t.at);
    if n < |ts| && Passes(ts[n], g) then Walk(ts, g, i, Trail(n, t.hops + 1)) else t
  }

  /** Walk the rows i - 1, ..., 0 in turn. */
  function Descend(ts: seq<Tower>, g: Goal, i: nat, t: Trail): (r: Trail)
    requires t.at < |ts|
    ensures t.at <= r.at < |ts|
  {
    if i == 0 then t else Descend(ts, g, i - 1, Walk(ts, g, i - 1, t))
  }

  /** The successor, on the bottom row, of where the descent for g ends. */
  function Found(ts: seq<Tower>, g: Goal): (p: nat)
    requires |ts| > 0
    ensures 1 <= p <= |ts|
  {
    Descend(ts, g, Level(ts), Trail(0, 0)).at + 1
  }

  /** Where a descent stands when it leaves level j; at the header before the top level. */
  function StopAt(stops: seq<Trail>, j: nat): Trail {
    if j < |stops| then stops[j] else Trail(0, 0)
  }

  predicate IsStop(ts: seq<Tower>, g: Goal, stops: seq<Trail>, j: nat) {
    StopAt(stops, j + 1).at < |ts| && StopAt(stops, j) == Walk(ts, g, j, StopAt(stops, j + 1))
  }

  /** stops[j], for j from lo up, is where the descent leaves level j. */
  predicate IsDescent(ts: seq<Tower>, g: Goal, stops: seq<Trail>, lo: nat) {
    forall j | lo <= j < |stops| :: IsStop(ts, g, stops, j)
  }

  lemma DescentExtend(ts: seq<Tower>, g: Goal, stops: seq<Trail>, i: nat)
    requires i < |stops| && IsDescent(ts, g, stops, i + 1) && StopAt(stops, i + 1).at < |ts|
    ensures IsDescent(ts, g, stops[i := Walk(ts, g, i, StopAt(stops, i + 1))], i)
  {
    var s := stops[i := Walk(ts, g, i, StopAt(stops, i + 1))];
    forall j | i <= j < |s| ensures IsStop(ts, g, s, j) {
      assert j > i ==> IsStop(ts, g, stops, j);
    }
  }

  /** What a finished descent leaves behind at level j: the stop reaches that level, and the
      final position lies between it and its successor. */
  predicate Bracket(ts: seq<Tower>, g: Goal, stop: nat, j: nat, at: nat) {
    && stop <= at < |ts|
    && ts[stop].height > j
    && at < Next(ts, j, stop)
    && (Next(ts, j, stop) < |ts| ==> !Passes(ts[Next(ts, j, stop)], g))
  }

  /** A walk at level i never overtakes a successor rejected at a higher level j. */
  lemma {:induction false} BracketWalk(ts: seq<Tower>, g: Goal, stop: nat, j: nat, i: nat, t: Trail)
    requires i < j && t.at < |ts| && Bracket(ts, g, stop, j, t.at)
    ensures Bracket(ts, g, stop, j, Walk(ts, g, i, t).at)
    decreases |ts| - t.at
  {
    var n := Next(ts, i, t.at);
    if n < |ts| && Passes(ts[n], g) {
      BracketWalk(ts, g, stop, j, i, Trail(n, t.hops + 1));
    }
  }

  lemma {:induction false} WalkHeight(ts: seq<Tower>, g: Goal, i: nat, t: Trail)
    requires t.at < |ts| && ts[t.at].height > i
    ensures ts[Walk(ts, g, i, t).at].height > i
    decreases |ts| - t.at
  {
    var n := Next(ts, i, t.at);
    if n < |ts| && Passes(ts[n], g) { WalkHeight(ts, g, i, Trail(n, t.hops + 1)); }
  }

  lemma {:induction false} StopHeight(ts: seq<Tower>, g: Goal, stops: seq<Trail>, j: nat)
    requires Heights(ts) && j < |stops| <= MAX_LEVEL && IsDescent(ts, g, stops, j)
    ensures stops[j].at < |ts| && ts[stops[j].at].height > j
    decreases |stops| - j
  {
    assert IsStop(ts, g, stops, j);
    if j + 1 < |stops| { StopHeight(ts, g, stops, j + 1); }
    WalkHeight(ts, g, j, StopAt(stops, j + 1));
  }

  /** The stop at level j brackets every position reached at level j or below. */
  lemma {:induction false} DescentBrackets(ts: seq<Tower>, g: Goal, stops: seq<Trail>, lo: nat, j: nat)
    requires Heights(ts) && lo <= j < |stops| <= MAX_LEVEL && IsDescent(ts, g, stops, lo)
    ensures stops[lo].at < |ts| && Bracket(ts, g, stops[j].at, j, stops[lo].at)
    decreases j - lo
  {
    assert IsStop(ts, g, stops, lo);
    if j == lo {
      StopHeight(ts, g, stops, j);
    } else {
      DescentBrackets(ts, g, stops, lo + 1, j);
      BracketWalk(ts, g, stops[j].at, j, lo, stops[lo + 1]);
    }
  }

  lemma {:induction false} DescentIs(ts: seq<Tower>, g: Goal, stops: seq<Trail>, i: nat)
    requires |ts| > 0 && i <= |stops| && IsDescent(ts, g, stops, 0)
    ensures StopAt(stops, i).at < |ts| && Descend(ts, g, i, StopAt(stops, i)) == StopAt(stops, 0)
  {
    hide Walk, Next, Passes;
    if i > 0 {
      assert IsStop(ts, g, stops, i - 1);
      DescentIs(ts, g, stops, i - 1);
    }
    if i < |stops| { assert IsStop(ts, g, stops, i); }
  }

  /** The position of the stop at each level; the header above the top level. */
  function StopPositions(stops: seq<Trail>): (ups: seq<nat>)
    ensures |ups| == MAX_LEVEL
  {
    seq(MAX_LEVEL, j requires 0 <= j => StopAt(stops, j).at)
  }

  lemma StopsStraddle(ts: seq<Tower>, g: Goal, stops: seq<Trail>, h: nat)
    requires Heights(ts) && IsLevel(ts, |stops|) && |stops| <= MAX_LEVEL && h <= MAX_LEVEL
    requires IsDescent(ts, g, stops, 0)
    ensures Straddles(ts, StopPositions(stops), h, stops[0].at + 1)
  {
    forall i | 0 <= i < h
      ensures var up := StopAt(stops, i).at;
              up <= stops[0].at < |ts| && ts[up].height > i && stops[0].at < Next(ts, i, up)
    {
      DescentBrackets(ts, g, stops, 0, if i < |stops| then i else 0);
    }
  }

  lemma LevelBound(ts: seq<Tower>, level: nat)
    requires Heights(ts) && IsLevel(ts, level)
    ensures level <= MAX_LEVEL
  {
  }

  // ---------- sorted rows: ZAdd ----------

  function Entries(ts: seq<Tower>): (es: seq<Entry>)
    requires |ts| > 0
    ensures |es| == |ts| - 1
  {
    seq(|ts| - 1, k requires 0 <= k < |ts| - 1 => Entry(ts[k + 1].key, ts[k + 1].score))
  }

  /** The number of leading entries before (score, key). */
  function Place(es: seq<Entry>, key: string, score: real): (p: nat)
    ensures p <= |es|
    ensures forall k | 0 <= k < p :: Precedes(es[k].key, es[k].score, AtEntry(key, score))
    ensures p < |es| ==> !Precedes(es[p].key, es[p].score, AtEntry(key, score))
  {
    if es == [] || !Precedes(es[0].key, es[0].score, AtEntry(key, score)) then 0
    else 1 + Place(es[1..], key, score)
  }

  /** ZAdd on the sequence of entries; no tower height occurs in it. */
  function Added(es: seq<Entry>, key: string, score: real): seq<Entry> {
    var p := Place(es, key, score);
    if p < |es| && es[p].key == key then es[p := Entry(key, score)]
    else es[..p] + [Entry(key, score)] + es[p..]
  }

  lemma PrecedesTransitive(a: Entry, b: Entry, g: Goal)
    requires Precedes(a.key, a.score, AtEntry(b.key, b.score)) && Precedes(b.key, b.score, g) && g.AtEntry?
    ensures Precedes(a.key, a.score, g)
  {
    if a.score == b.score == g.score { LessTransitive(a.key, b.key, g.key); }
  }

  lemma PrecedesTotal(a: Entry, b: Entry)
    requires !Precedes(a.key, a.score, AtEntry(b.key, b.score))
    ensures a == b || Precedes(b.key, b.score, AtEntry(a.key, a.score))
  {
    LessTotal(a.key, b.key);
  }

  predicate SortedEntries(es: seq<Entry>) {
    forall a, b | 0 <= a < b < |es| :: Precedes(es[a].key, es[a].score, AtEntry(es[b].key, es[b].score))
  }

  /** In a sorted sequence everything from the place on is after the pair, or is the pair. */
  lemma PlaceSplits(es: seq<Entry>, key: string, score: real, k: nat)
    requires SortedEntries(es) && Place(es, key, score) <= k < |es|
    ensures es[k] == Entry(key, score) || Precedes(key, score, AtEntry(es[k].key, es[k].score))
    ensures k > Place(es, key, score) ==> Precedes(key, score, AtEntry(es[k].key, es[k].score))
  {
    var p := Place(es, key, score);
    PrecedesTotal(es[p], Entry(key, score));
    if k > p && es[p] != Entry(key, score) {
      PrecedesTransitive(Entry(key, score), es[p], AtEntry(es[k].key, es[k].score));
    }
  }

  /** ZAdd keeps strict order on (score, key). */
  lemma AddedSorted(es: seq<Entry>, key: string, score: real)
    requires SortedEntries(es)
    ensures SortedEntries(Added(es, key, score))
  {
    var p := Place(es, key, score);
    forall k | p <= k < |es|
      ensures es[k] == Entry(key, score) || Precedes(key, score, AtEntry(es[k].key, es[k].score))
      ensures k > p ==> Precedes(key, score, AtEntry(es[k].key, es[k].score))
    {
      PlaceSplits(es, key, score, k);
    }
  }

  /** The number of entries before (score, key): lower scores, and equal scores with smaller keys. */
  function Earlier(es: seq<Entry>, key: string, score: real): (n: nat)
    ensures n <= |es|
  {
    if es == [] then 0
    else
      var e := es[|es| - 1];
      Earlier(es[..|es| - 1], key, score) +
      if e.score < score || (e.score == score && Less(e.key, key)) then 1 else 0
  }

  lemma {:induction false} EarlierIs(es: seq<Entry>, key: string, score: real, p: nat)
    requires p <= |es|
    requires forall k | 0 <= k < p :: es[k].score < score || (es[k].score == score && Less(es[k].key, key))
    requires forall k | p <= k < |es| :: !(es[k].score < score || (es[k].score == score && Less(es[k].key, key)))
    ensures Earlier(es, key, score) == p
  {
    if es != [] { EarlierIs(es[..|es| - 1], key, score, if p == |es| then p - 1 else p); }
  }

  /** In a sorted sequence the place of the pair is the number of entries before it. */
  lemma PlaceIsCount(es: seq<Entry>, key: string, score: real)
    requires SortedEntries(es)
    ensures Earlier(es, key, score) == Place(es, key, score)
  {
    var p := Place(es, key, score);
    forall k | p <= k < |es|
      ensures !(es[k].score < score || (es[k].score == score && Less(es[k].key, key)))
    {
      PlaceSplits(es, key, score, k);
      if es[k].score == score && es[k].key != key { LessAsymmetric(key, es[k].key); }
      LessIrreflexive(key);
    }
    EarlierIs(es, key, score, p);
  }

  /** What ZAdd makes of a sorted sequence: the pair is in it with its new score, everything else
      is kept, and only an entry with the key found right at the pair's place gives way to it. */
  lemma AddedContents(es: seq<Entry>, key: string, score: real)
    requires SortedEntries(es)
    ensures var n, fs := Earlier(es, key, score), Added(es, key, score);
            && Entry(key, score) in fs
            && multiset(fs) ==
               multiset(es) + multiset{Entry(key, score)}
               - (if n < |es| && es[n].key == key then multiset{es[n]} else multiset{})
  {
    var p, fs := Place(es, key, score), Added(es, key, score);
    PlaceIsCount(es, key, score);
    assert fs[p] == Entry(key, score);
    hide Place, Earlier, SortedEntries;
    if p < |es| && es[p].key == key {
      ReplaceMultiset(es, p, Entry(key, score));
    } else {
      InsertMultiset(es, p, Entry(key, score));
      assert fs == Insert(es, p, Entry(key, score));
    }
  }

  /** A lower score replaces that of a lone member; with a higher one the member is there twice. */
  lemma ScoreMoves(key: string, a: real, b: real)
    ensures Added([Entry(key, a)], key, b) == if b <= a then [Entry(key, b)] else [Entry(key, a), Entry(key, b)]
  {
    var es := [Entry(key, a)];
    LessIrreflexive(key);
    PlaceIs(es, key, b, if b <= a then 0 else 1);
    hide Place, Less;
    if b > a { assert es[..1] == es && es[1..] == []; }
  }

  /** Strict order by score, equal scores by key. */
  lemma SortedMeans(es: seq<Entry>)
    ensures SortedEntries(es) <==>
            forall a, b | 0 <= a < b < |es| ::
              es[a].score < es[b].score || (es[a].score == es[b].score && Less(es[a].key, es[b].key))
  {
    hide Less;
    if SortedEntries(es) {
      forall a, b | 0 <= a < b < |es|
        ensures es[a].score < es[b].score || (es[a].score == es[b].score && Less(es[a].key, es[b].key))
      {
        assert Precedes(es[a].key, es[a].score, AtEntry(es[b].key, es[b].score));
      }
    }
  }

  lemma {:induction false} PlaceIs(es: seq<Entry>, key: string, score: real, p: nat)
    requires p <= |es|
    requires forall k | 0 <= k < p :: Precedes(es[k].key, es[k].score, AtEntry(key, score))
    requires p < |es| ==> !Precedes(es[p].key, es[p].score, AtEntry(key, score))
    ensures Place(es, key, score) == p
  {
    if p > 0 { PlaceIs(es[1..], key, score, p - 1); }
  }

  lemma {:induction false} WalkPasses(ts: seq<Tower>, g: Goal, i: nat, t: Trail)
    requires t.at < |ts|
    ensures Walk(ts, g, i, t).at == t.at || Passes(ts[Walk(ts, g, i, t).at], g)
    decreases |ts| - t.at
  {
    var n := Next(ts, i, t.at);
    if n < |ts| && Passes(ts[n], g) { WalkPasses(ts, g, i, Trail(n, t.hops + 1)); }
  }

  lemma {:induction false} DescentPasses(ts: seq<Tower>, g: Goal, stops: seq<Trail>, j: nat)
    requires |ts| > 0 && IsDescent(ts, g, stops, j)
    ensures StopAt(stops, j).at < |ts|
    ensures StopAt(stops, j).at == 0 || Passes(ts[StopAt(stops, j).at], g)
    decreases |stops| - j
  {
    if j < |stops| {
      assert IsStop(ts, g, stops, j);
      DescentPasses(ts, g, stops, j + 1);
      WalkPasses(ts, g, j, StopAt(stops, j + 1));
    }
  }

  /** The descent for (score, key) in a sorted row ends just before the place of the pair. */
  lemma DescentFindsPlace(ts: seq<Tower>, key: string, score: real, stops: seq<Trail>)
    requires Ok(ts) && 0 < |stops| <= MAX_LEVEL && IsDescent(ts, AtEntry(key, score), stops, 0)
    ensures stops[0].at == Place(Entries(ts), key, score)
  {
    var g, es, at := AtEntry(key, score), Entries(ts), stops[0].at;
    DescentPasses(ts, g, stops, 0);
    DescentBrackets(ts, g, stops, 0, 0);
    forall k | 0 <= k < at
      ensures Precedes(es[k].key, es[k].score, g)
    {
      if k + 1 < at {
        assert Passes(ts[k + 1], AtEntry(ts[at].key, ts[at].score));
        PrecedesTransitive(es[k], es[at - 1], g);
      }
    }
    assert Next(ts, 0, at) == at + 1;
    PlaceIs(es, key, score, at);
  }

  /** ZAdd on towers: a new one of height h at its place, or a new score for the one found there. */
  function AddTower(ts: seq<Tower>, key: string, score: real, h: nat): seq<Tower>
    requires |ts| > 0
  {
    var p := Place(Entries(ts), key, score) + 1;
    if p < |ts| && ts[p].key == key then ts[p := ts[p].(score := score)] else Insert(ts, p, Tower(key, score, h))
  }

  /** The height chosen for a new tower never shows in the entries. */
  lemma AddTowerEntries(ts: seq<Tower>, key: string, score: real, h: nat)
    requires |ts| > 0
    ensures Entries(AddTower(ts, key, score, h)) == Added(Entries(ts), key, score)
  {
    var es := Entries(ts);
    var p := Place(es, key, score);
    assert |Entries(AddTower(ts, key, score, h))| == |Added(es, key, score)|;
  }

  lemma SortedIsSortedEntries(ts: seq<Tower>)
    requires |ts| > 0
    ensures Sorted(ts) <==> SortedEntries(Entries(ts))
  {
    var es := Entries(ts);
    if SortedEntries(es) {
      forall a, b | 1 <= a < b < |ts|
        ensures Passes(ts[a], AtEntry(ts[b].key, ts[b].score))
      {
        assert Precedes(es[a - 1].key, es[a - 1].score, AtEntry(es[b - 1].key, es[b - 1].score));
      }
    }
    if Sorted(ts) {
      forall a, b | 0 <= a < b < |es|
        ensures Precedes(es[a].key, es[a].score, AtEntry(es[b].key, es[b].score))
      {
        assert Passes(ts[a + 1], AtEntry(ts[b + 1].key, ts[b + 1].score));
      }
    }
  }

  lemma AddTowerOk(ts: seq<Tower>, key: string, score: real, h: nat)
    requires Ok(ts) && 1 <= h <= MAX_LEVEL
    ensures Ok(AddTower(ts, key, score, h))
  {
    SortedIsSortedEntries(ts);
    AddedSorted(Entries(ts), key, score);
    AddTowerEntries(ts, key, score, h);
    SortedIsSortedEntries(AddTower(ts, key, score, h));
  }

  lemma AddTowerScore(ts: seq<Tower>, key: string, score: real, level: nat)
    requires Heights(ts) && IsLevel(ts, level) && Place(Entries(ts), key, score) + 1 < |ts|
    requires ts[Place(Entries(ts), key, score) + 1].key == key
    ensures forall h: nat :: IsLevel(AddTower(ts, key, score, h), level)
  {
    var u := AddTower(ts, key, score, 1);
    assert forall h: nat :: AddTower(ts, key, score, h) == u;
    assert forall k | 0 <= k < |ts| :: u[k].height == ts[k].height;
    if level > 1 {
      var k :| 1 <= k < |ts| && ts[k].height == level;
      assert u[k].height == level;
    }
  }

  lemma AddTowerLevel(ts: seq<Tower>, p: nat, t: Tower, level: nat)
    requires 1 <= p <= |ts| && IsLevel(ts, level) && t.height >= 1
    ensures IsLevel(Insert(ts, p, t), if t.height > level then t.height else level)
  {
    var u := Insert(ts, p, t);
    if t.height > level {
      assert u[p].height == t.height;
    } else if level > 1 {
      var k :| 1 <= k < |ts| && ts[k].height == level;
      assert u[if k < p then k else k + 1].height == level;
    }
  }

  /** What ZAdd keeps, whether it raises a tower or only moves a score. */
  lemma AddTowerFacts(ts: seq<Tower>, key: string, score: real, h: nat, level: nat)
    requires Heights(ts) && Sorted(ts) && IsLevel(ts, level) && 1 <= h <= MAX_LEVEL
    ensures Heights(AddTower(ts, key, score, h)) && Sorted(AddTower(ts, key, score, h))
    ensures Entries(AddTower(ts, key, score, h)) == Added(Entries(ts), key, score)
    ensures var p := Place(Entries(ts), key, score) + 1;
            IsLevel(AddTower(ts, key, score, h),
                    if p < |ts| && ts[p].key == key then level else if h > level then h else level)
  {
    AddTowerOk(ts, key, score, h);
    AddTowerEntries(ts, key, score, h);
    var p := Place(Entries(ts), key, score) + 1;
    hide Place, Entries, Insert, Sorted;
    if p < |ts| && ts[p].key == key {
      AddTowerScore(ts, key, score, level);
    } else {
      AddTowerLevel(ts, p, Tower(key, score, h), level);
    }
  }

  // ---------- ZRem ----------

  /** ZRem on towers: the node after the end of the by-key descent goes, if it has the key. */
  function RemTower(ts: seq<Tower>, key: string): seq<Tower>
    requires |ts| > 0
  {
    var p := Found(ts, AtKey(key));
    if p < |ts| && ts[p].key == key then Drop(ts, p) else ts
  }

  lemma DropOk(ts: seq<Tower>, p: nat)
    requires Ok(ts) && 0 < p < |ts|
    ensures Ok(Drop(ts, p))
  {
    var u := Drop(ts, p);
    forall a, b | 1 <= a < b < |u|
      ensures Passes(u[a], AtEntry(u[b].key, u[b].score))
    {
      assert Passes(ts[if a < p then a else a + 1],
                    AtEntry(ts[if b < p then b else b + 1].key, ts[if b < p then b else b + 1].score));
    }
  }

  lemma FoundIs(ts: seq<Tower>, g: Goal, stops: seq<Trail>)
    requires Heights(ts) && IsLevel(ts, |stops|) && IsDescent(ts, g, stops, 0)
    ensures Found(ts, g) == stops[0].at + 1
    ensures Descend(ts, g, Level(ts), Trail(0, 0)) == stops[0]
  {
    LevelUnique(ts, |stops|, Level(ts));
    DescentIs(ts, g, stops, |stops|);
  }

  /** Up to level hi, the recorded predecessor points at p exactly on the rows p's tower reaches. */
  predicate Aims(ts: seq<Tower>, ups: seq<nat>, hi: nat, p: nat) {
    && hi <= |ups|
    && p < |ts|
    && forall i | 0 <= i < hi ::
         ups[i] < p && ts[ups[i]].height > i && (Next(ts, i, ups[i]) == p <==> i < ts[p].height)
  }

  /** Unlinking is sound although ZRem searches a score-ordered list by key. */
  lemma StopsAim(ts: seq<Tower>, g: Goal, stops: seq<Trail>)
    requires Heights(ts) && 0 < |stops| <= MAX_LEVEL && IsDescent(ts, g, stops, 0) && IsLevel(ts, |stops|)
    requires stops[0].at + 1 < |ts|
    ensures ts[stops[0].at + 1].height <= |stops|
    ensures Aims(ts, StopPositions(stops), |stops|, stops[0].at + 1)
  {
    var ups := StopPositions(stops);
    forall i | 0 <= i < |stops|
      ensures Bracket(ts, g, ups[i], i, stops[0].at)
    {
      DescentBrackets(ts, g, stops, 0, i);
    }
  }

  // ---------- ZRank ----------

  /** The number of links followed, not of elements passed; -1 when the descent misses the key. */
  function RankOf(ts: seq<Tower>, key: string): (r: int)
    requires |ts| > 0
  {
    var p := Found(ts, AtKey(key));
    if p < |ts| && ts[p].key == key then Descend(ts, AtKey(key), Level(ts), Trail(0, 0)).hops else -1
  }

  // ---------- ZRange, ZRangeByScore ----------

  function KeysOf(es: seq<Entry>): (keys: seq<string>)
    ensures |keys| == |es|
  {
    seq(|es|, k requires 0 <= k < |es| => es[k].key)
  }

  lemma KeysOfExtend(es: seq<Entry>, lo: nat, hi: nat)
    requires lo <= hi < |es|
    ensures KeysOf(es[lo..hi + 1]) == KeysOf(es[lo..hi]) + [es[hi].key]
  {
  }

  function Slice(es: seq<Entry>, start: int, end: int): seq<string> {
    if start < 0 || end < 0 || start >= |es| || start > end then []
    else KeysOf(es[start..if end < |es| then end + 1 else |es|])
  }

  /** The keys from index start to index end, or to the last; none for bad bounds. */
  lemma SliceIs(es: seq<Entry>, start: int, end: int)
    ensures var keys := Slice(es, start, end);
            if 0 <= start <= end && start < |es|
            then |keys| == (if end < |es| then end + 1 else |es|) - start &&
                 forall k | 0 <= k < |keys| :: keys[k] == es[start + k].key
            else keys == []
  {
  }

  /** Exactly the entries with scores in range are kept, as often as they occur, */
  lemma {:induction false} WithinIs(es: seq<Entry>, min: real, max: real, e: Entry)
    ensures multiset(Within(es, min, max))[e] == if min <= e.score <= max then multiset(es)[e] else 0
  {
    if es != [] {
      WithinIs(es[1..], min, max, e);
      assert es == [es[0]] + es[1..];
    }
  }

  /** and they stay in order. */
  lemma {:induction false} WithinSorted(es: seq<Entry>, min: real, max: real)
    requires SortedEntries(es)
    ensures SortedEntries(Within(es, min, max))
    ensures forall e | e in Within(es, min, max) :: e in es
  {
    hide Precedes;
    if es != [] {
      var rest := Within(es[1..], min, max);
      WithinSorted(es[1..], min, max);
      forall e | e in rest
        ensures Precedes(es[0].key, es[0].score, AtEntry(e.key, e.score))
      {
        var k :| 0 <= k < |es[1..]| && es[1..][k] == e;
        assert es[k + 1] == e;
      }
    }
  }

  /** The entries with min <= score <= max, in order. */
  function Within(es: seq<Entry>, min: real, max: real): seq<Entry> {
    if es == [] then []
    else if min <= es[0].score <= max then [es[0]] + Within(es[1..], min, max)
    else Within(es[1..], min, max)
  }

  lemma ScoresAscend(es: seq<Entry>, i: nat)
    requires SortedEntries(es) && i + 1 < |es|
    ensures es[i].score <= es[i + 1].score
  {
    assert Precedes(es[i].key, es[i].score, AtEntry(es[i + 1].key, es[i + 1].score));
  }

  lemma WithinStep(es: seq<Entry>, i: nat, min: real, max: real)
    requires i < |es|
    ensures KeysOf(Within(es[i..], min, max)) ==
            (if min <= es[i].score <= max then [es[i].key] else []) + KeysOf(Within(es[i + 1..], min, max))
  {
    assert es[i..][1..] == es[i + 1..];
  }

  lemma {:induction false} WithinNone(es: seq<Entry>, i: nat, min: real, max: real)
    requires SortedEntries(es) && i <= |es| && (i < |es| ==> es[i].score > max)
    ensures KeysOf(Within(es[i..], min, max)) == []
    decreases |es| - i
  {
    if i < |es| {
      WithinStep(es, i, min, max);
      if i + 1 < |es| { ScoresAscend(es, i); }
      WithinNone(es, i + 1, min, max);
    }
  }
}
