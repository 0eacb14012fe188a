/** The heap-linked skip list behind ZADD, ZREM, ZRANK, ZRANGE and ZRANGEBYSCORE. */
module SkipList {
  import opened Towers
  import opened Sequences

  class Node {
    const key: string
    var score: real
    var forward: seq<Node?>

    constructor (key: string, score: real, level: nat)
      ensures this.key == key && this.score == score
      ensures forward == seq(level, _ => null)
    {
      this.key := key;
      this.score := score;
      forward := seq(level, _ => null);
    }
  }

  /** The slots the node at position k must have: at level i, the next node that reaches it. */
  function Slots(ns: seq<Node>, ts: seq<Tower>, k: nat): (f: seq<Node?>)
    requires k < |ts| == |ns|
    ensures |f| == ts[k].height
  {
    seq(ts[k].height, i requires 0 <= i => NodeAt(ns, Next(ts, i, k)))
  }

  /** The node at a position, null past the end. */
  function NodeAt(ns: seq<Node>, k: nat): Node? {
    if k < |ns| then ns[k] else null
  }

  /** Slots of the node at position k once the first c levels have been redirected at ups. */
  function Patched(f: seq<Node?>, ups: seq<nat>, k: nat, c: nat, targets: seq<Node?>): seq<Node?>
    requires c <= |ups| && c <= |targets|
  {
    seq(|f|, i requires 0 <= i < |f| => if i < c && ups[i] == k then targets[i] else f[i])
  }

  lemma PatchStep(f: seq<Node?>, ups: seq<nat>, k: nat, c: nat, targets: seq<Node?>)
    requires c < |ups| && c < |targets| && (ups[c] == k ==> c < |f|)
    ensures Patched(f, ups, k, c + 1, targets) ==
            if ups[c] == k then Patched(f, ups, k, c, targets)[c := targets[c]] else Patched(f, ups, k, c, targets)
  {
  }

  lemma PatchNone(f: seq<Node?>, ups: seq<nat>, k: nat, c: nat, targets: seq<Node?>)
    requires c <= |ups| && c <= |targets| && forall i | 0 <= i < c :: ups[i] != k
    ensures Patched(f, ups, k, c, targets) == f
  {
  }

  /** update[j], for j from lo up, is the node at which the descent leaves level j. */
  predicate Recorded(update: seq<Node?>, ns: seq<Node>, stops: seq<Trail>, lo: nat) {
    |stops| <= |update| && forall j | lo <= j < |stops| :: stops[j].at < |ns| && update[j] == ns[stops[j].at]
  }

  lemma RecordExtend(update: seq<Node?>, ns: seq<Node>, stops: seq<Trail>, i: nat, t: Trail)
    requires i < |stops| && Recorded(update, ns, stops, i + 1) && t.at < |ns|
    ensures Recorded(update[i := ns[t.at]], ns, stops[i := t], i)
  {
  }

  // What every node's slots become when a node is spliced in at position p.

  lemma SlotsBefore(ns: seq<Node>, ts: seq<Tower>, ups: seq<nat>, p: nat, node: Node, t: Tower, k: nat)
    requires |ns| == |ts| && k < p <= |ts| && Straddles(ts, ups, t.height, p)
    ensures Slots(Insert(ns, p, node), Insert(ts, p, t), k) ==
            Patched(Slots(ns, ts, k), ups, k, t.height, seq(t.height, _ => node))
  {
    hide Next, Insert;
    forall i | 0 <= i < ts[k].height
      ensures NodeAt(Insert(ns, p, node), Next(Insert(ts, p, t), i, k)) ==
              if i < t.height && ups[i] == k then node else NodeAt(ns, Next(ts, i, k))
    {
      NextInsertBefore(ts, p, t, i, k);
      if i < t.height { StraddleUnique(ts, ups, t.height, p, i, k); }
    }
  }

  lemma SlotsAt(ns: seq<Node>, ts: seq<Tower>, ups: seq<nat>, p: nat, node: Node, t: Tower)
    requires |ns| == |ts| && p <= |ts| && Straddles(ts, ups, t.height, p)
    ensures |Slots(Insert(ns, p, node), Insert(ts, p, t), p)| == t.height
    ensures forall i | 0 <= i < t.height ::
              Slots(Insert(ns, p, node), Insert(ts, p, t), p)[i] == NodeAt(ns, Next(ts, i, ups[i]))
  {
    forall i | 0 <= i < t.height
      ensures NodeAt(Insert(ns, p, node), Next(Insert(ts, p, t), i, p)) == NodeAt(ns, Next(ts, i, ups[i]))
    {
      NextInsertAt(ts, p, t, i, ups[i]);
    }
  }

  lemma SlotsAfter(ns: seq<Node>, ts: seq<Tower>, p: nat, node: Node, t: Tower, k: nat)
    requires |ns| == |ts| && p <= k < |ts|
    ensures Slots(Insert(ns, p, node), Insert(ts, p, t), k + 1) == Slots(ns, ts, k)
  {
    hide Next, Insert;
    forall i | 0 <= i < ts[k].height
      ensures NodeAt(Insert(ns, p, node), Next(Insert(ts, p, t), i, k + 1)) == NodeAt(ns, Next(ts, i, k))
    {
      NextInsertAfter(ts, p, t, i, k);
    }
  }

  lemma RelinkIn(ns: seq<Node>, ts: seq<Tower>, ups: seq<nat>, p: nat, node: Node, t: Tower, k: nat)
    requires |ns| == |ts| && p <= |ts| && Straddles(ts, ups, t.height, p) && k <= |ns|
    requires |node.forward| == t.height
    requires forall j | 0 <= j < t.height :: node.forward[j] == NodeAt(ns, Next(ts, j, ups[j]))
    requires forall m | 0 <= m < |ns| ::
        ns[m].forward == Patched(Slots(ns, ts, m), ups, m, t.height, seq(t.height, _ => node))
    ensures Insert(ns, p, node)[k].forward == Slots(Insert(ns, p, node), Insert(ts, p, t), k)
  {
    hide Slots, Patched, Next, Insert;
    if k < p {
      SlotsBefore(ns, ts, ups, p, node, t, k);
    } else if k == p {
      SlotsAt(ns, ts, ups, p, node, t);
    } else {
      SlotsAfter(ns, ts, p, node, t, k - 1);
      PatchNone(Slots(ns, ts, k - 1), ups, k - 1, t.height, seq(t.height, _ => node));
    }
  }

  // What every node's slots become when the node at position p is taken out.

  lemma SlotsDropBefore(ns: seq<Node>, ts: seq<Tower>, ups: seq<nat>, p: nat, k: nat)
    requires |ns| == |ts| && k < p < |ts| && Straddles(ts, ups, ts[p].height, p)
    ensures Slots(Drop(ns, p), Drop(ts, p), k) ==
            Patched(Slots(ns, ts, k), ups, k, ts[p].height, Slots(ns, ts, p))
  {
    hide Next, Drop;
    forall i | 0 <= i < ts[k].height
      ensures NodeAt(Drop(ns, p), Next(Drop(ts, p), i, k)) ==
              if i < ts[p].height && ups[i] == k then NodeAt(ns, Next(ts, i, p)) else NodeAt(ns, Next(ts, i, k))
    {
      NextDropBefore(ts, p, i, k);
      if i < ts[p].height { StraddleUnique(ts, ups, ts[p].height, p, i, k); }
    }
  }

  lemma SlotsDropAfter(ns: seq<Node>, ts: seq<Tower>, p: nat, k: nat)
    requires |ns| == |ts| && p <= k && k + 1 < |ts|
    ensures Slots(Drop(ns, p), Drop(ts, p), k) == Slots(ns, ts, k + 1)
  {
    hide Next, Drop;
    forall i | 0 <= i < ts[k + 1].height
      ensures NodeAt(Drop(ns, p), Next(Drop(ts, p), i, k)) == NodeAt(ns, Next(ts, i, k + 1))
    {
      NextDropAfter(ts, p, i, k);
    }
  }

  lemma RelinkOut(ns: seq<Node>, ts: seq<Tower>, ups: seq<nat>, p: nat, k: nat)
    requires |ns| == |ts| && p < |ts| && Straddles(ts, ups, ts[p].height, p) && k + 1 < |ts|
    requires forall m | 0 <= m < |ns| ::
        ns[m].forward == Patched(Slots(ns, ts, m), ups, m, ts[p].height, Slots(ns, ts, p))
    ensures Drop(ns, p)[k].forward == Slots(Drop(ns, p), Drop(ts, p), k)
  {
    hide Slots, Patched, Next, Drop;
    if k < p {
      SlotsDropBefore(ns, ts, ups, p, k);
    } else {
      SlotsDropAfter(ns, ts, p, k);
      PatchNone(Slots(ns, ts, k + 1), ups, k + 1, ts[p].height, Slots(ns, ts, p));
    }
  }

  class SortedSet {
    const header: Node
    var level: nat
    var length: nat

    // The bottom row, header first, as objects and as values.
    ghost var nodes: seq<Node>
    ghost var towers: seq<Tower>

    /** Every node of the bottom row carries what its tower says, and points where it must. */
    ghost predicate Wired()
      reads this`nodes, this`towers, nodes
    {
      && |nodes| == |towers|
      && (forall k | 0 <= k < |nodes| :: nodes[k].key == towers[k].key && nodes[k].score == towers[k].score)
      && (forall k | 0 <= k < |nodes| :: WiredAt(k))
      && (forall a, b | 0 <= a < b < |nodes| :: nodes[a] != nodes[b])
    }

    ghost predicate WiredAt(k: nat)
      requires k < |nodes| == |towers|
      reads this`nodes, this`towers, nodes
    {
      nodes[k].forward == Slots(nodes, towers, k)
    }

    ghost predicate Searchable()
      reads this, nodes
    {
      |nodes| == |towers| && Wired() && Heights(towers) && nodes[0] == header && 1 <= level <= MAX_LEVEL
    }

    ghost predicate Valid()
      reads this, nodes
    {
      Searchable() && Sorted(towers) && IsLevel(towers, level) && length == |nodes| - 1
    }

    ghost function Contents(): seq<Entry>
      requires |towers| > 0
      reads this
    {
      Entries(towers)
    }

    constructor ()
      ensures Valid() && fresh(nodes)
      ensures towers == [Tower("", 0.0, 16)] && Contents() == []
    {
      var h := new Node("", 0.0, MAX_LEVEL);
      header := h;
      level := 1;
      length := 0;
      nodes := [h];
      towers := [Tower("", 0.0, MAX_LEVEL)];
    }

    /** Coin flips: any height from 1 to MAX_LEVEL can come out. */
    method RandomLevel() returns (height: nat)
      ensures 1 <= height <= 16
    {
      height := 1;
      var heads: bool := *;
      while heads && height < MAX_LEVEL
        invariant 1 <= height <= MAX_LEVEL
        decreases MAX_LEVEL - height
      {
        height := height + 1;
        heads := *;
      }
    }

    lemma NodeFacts(k: nat)
      requires Wired() && k < |nodes|
      ensures nodes[k].key == towers[k].key && nodes[k].score == towers[k].score
      ensures |nodes[k].forward| == towers[k].height
      ensures forall i {:trigger nodes[k].forward[i]} | 0 <= i < towers[k].height ::
                nodes[k].forward[i] == NodeAt(nodes, Next(towers, i, k))
    {
      assert WiredAt(k);
    }

    /** The inner loop of a search: follow one row while the successor precedes the goal. */
    method WalkRow(g: Goal, i: nat, start: Node, ghost from: Trail) returns (current: Node, hops: nat, ghost t: Trail)
      requires Searchable()
      requires from.at < |nodes| && start == nodes[from.at] && towers[from.at].height > i
      ensures t == Walk(towers, g, i, from)
      ensures current == nodes[t.at] && towers[t.at].height > i && hops == t.hops - from.hops
    {
      hide SortedSet.Wired, Next, Slots;
      current, hops, t := start, 0, from;
      NodeFacts(t.at);
      while current.forward[i] != null && Precedes(current.forward[i].key, current.forward[i].score, g)
        invariant t.at < |nodes| && current == nodes[t.at] && i < towers[t.at].height == |current.forward|
        invariant current.forward[i] == NodeAt(nodes, Next(towers, i, t.at))
        invariant hops == t.hops - from.hops
        invariant Walk(towers, g, i, from) == Walk(towers, g, i, t)
        decreases |nodes| - t.at
      {
        NodeFacts(Next(towers, i, t.at));
        current, hops := current.forward[i], hops + 1;
        t := Trail(Next(towers, i, t.at), t.hops + 1);
      }
      if Next(towers, i, t.at) < |nodes| { NodeFacts(Next(towers, i, t.at)); }
    }

    /** The search loop of ZAdd, ZRem and ZRank, which differ only in what a node is compared with. */
    method Descend(g: Goal) returns (update: seq<Node?>, current: Node, hops: nat, ghost stops: seq<Trail>)
      requires Searchable()
      ensures |update| == MAX_LEVEL && |stops| == level && IsDescent(towers, g, stops, 0)
      ensures Recorded(update, nodes, stops, 0)
      ensures stops[0].at < |nodes| && current == nodes[stops[0].at] && hops == stops[0].hops
    {
      hide SortedSet.Wired, Walk, Next, Slots;
      update := seq(MAX_LEVEL, _ => null);
      current, hops := header, 0;
      stops := seq(level, _ => Trail(0, 0));
      ghost var t := Trail(0, 0);
      var i := level;
      while i > 0
        invariant 0 <= i <= level && |update| == MAX_LEVEL && |stops| == level
        invariant t == StopAt(stops, i) && t.at < |nodes| && towers[t.at].height >= i
        invariant current == nodes[t.at] && hops == t.hops
        invariant i < level ==> update[i] == current
        invariant IsDescent(towers, g, stops, i)
        invariant Recorded(update, nodes, stops, i)
      {
        i := i - 1;
        DescentExtend(towers, g, stops, i);
        RecordExtend(update, nodes, stops, i, Walk(towers, g, i, t));
        var n: nat;
        current, n, t := WalkRow(g, i, current, t);
        hops := hops + n;
        update := update[i := current];
        stops := stops[i := t];
      }
    }

    lemma SlotUnpatched(i: nat, ups: seq<nat>, targets: seq<Node?>)
      requires |nodes| == |towers| && i < |ups| && i <= |targets| && ups[i] < |nodes| && towers[ups[i]].height > i
      requires nodes[ups[i]].forward == Patched(Slots(nodes, towers, ups[i]), ups, ups[i], i, targets)
      ensures i < |nodes[ups[i]].forward|
      ensures nodes[ups[i]].forward[i] == NodeAt(nodes, Next(towers, i, ups[i]))
    {
    }

    lemma PatchAll(i: nat, ups: seq<nat>, targets: seq<Node?>)
      requires |nodes| == |towers| && i < |ups| && i < |targets| && ups[i] < |nodes|
      requires i < |nodes[ups[i]].forward|
      requires forall k {:trigger nodes[k]} | 0 <= k < |nodes| ::
                 nodes[k].forward == Patched(Slots(nodes, towers, k), ups, k, i, targets)
      ensures forall k {:trigger nodes[k]} | 0 <= k < |nodes| ::
                Patched(Slots(nodes, towers, k), ups, k, i + 1, targets) ==
                if ups[i] == k then nodes[ups[i]].forward[i := targets[i]] else nodes[k].forward
    {
      forall k | 0 <= k < |nodes|
        ensures Patched(Slots(nodes, towers, k), ups, k, i + 1, targets) ==
                if ups[i] == k then Patched(Slots(nodes, towers, k), ups, k, i, targets)[i := targets[i]]
                else Patched(Slots(nodes, towers, k), ups, k, i, targets)
      {
        PatchStep(Slots(nodes, towers, k), ups, k, i, targets);
      }
    }

    /** The slot-by-slot insertion loop: the node enters the rows below its height. */
    method RedirectTo(node: Node, update: seq<Node?>, ghost ups: seq<nat>, ghost targets: seq<Node?>)
      requires Wired() && node !in nodes && |node.forward| <= |update| && |node.forward| <= |ups|
      requires targets == seq(|node.forward|, _ => node)
      requires forall i | 0 <= i < |node.forward| ::
          ups[i] < |nodes| && towers[ups[i]].height > i && update[i] == nodes[ups[i]]
      modifies nodes`forward, node`forward
      ensures |node.forward| == |targets|
      ensures forall k {:trigger nodes[k]} | 0 <= k < |nodes| ::
          nodes[k].forward == Patched(Slots(nodes, towers, k), ups, k, |targets|, targets)
      ensures forall j | 0 <= j < |targets| :: node.forward[j] == NodeAt(nodes, Next(towers, j, ups[j]))
    {
      hide Slots, Patched, Next;
      forall k | 0 <= k < |nodes|
        ensures nodes[k].forward == Patched(Slots(nodes, towers, k), ups, k, 0, targets)
      {
        PatchNone(Slots(nodes, towers, k), ups, k, 0, targets);
        assert WiredAt(k);
      }
      for i := 0 to |node.forward|
        invariant |node.forward| == |targets|
        invariant forall k {:trigger nodes[k]} | 0 <= k < |nodes| ::
            nodes[k].forward == Patched(Slots(nodes, towers, k), ups, k, i, targets)
        invariant forall j | 0 <= j < i :: node.forward[j] == NodeAt(nodes, Next(towers, j, ups[j]))
      {
        SlotUnpatched(i, ups, targets);
        PatchAll(i, ups, targets);
        node.forward := node.forward[i := update[i].forward[i]];
        update[i].forward := update[i].forward[i := node];
      }
    }

    method SpliceIn(update: seq<Node?>, node: Node, ghost t: Tower, ghost ups: seq<nat>, ghost p: nat)
      requires Wired() && node !in nodes
      requires node.key == t.key && node.score == t.score && |node.forward| == t.height <= |update|
      requires Straddles(towers, ups, t.height, p) && 0 < p <= |towers|
      requires forall i | 0 <= i < t.height :: update[i] == nodes[ups[i]]
      modifies this`nodes, this`towers, nodes`forward, node`forward
      ensures nodes == Insert(old(nodes), p, node)
      ensures towers == Insert(old(towers), p, t)
      ensures Wired()
    {
      hide Slots, Patched, Next, Insert;
      RedirectTo(node, update, ups, seq(t.height, _ => node));
      forall k | 0 <= k <= |nodes|
        ensures Insert(nodes, p, node)[k].forward == Slots(Insert(nodes, p, node), Insert(towers, p, t), k)
      {
        RelinkIn(nodes, towers, ups, p, node, t, k);
      }
      nodes, towers := Insert(nodes, p, node), Insert(towers, p, t);
    }

    /** The slot-by-slot removal loop of ZRem, which stops at the first row the target is not in. */
    method Redirect(update: seq<Node?>, target: Node, ghost ups: seq<nat>, ghost p: nat)
      requires Searchable() && level <= |update| && level <= |ups|
      requires 0 < p < |nodes| && target == nodes[p] && towers[p].height <= level
      requires Aims(towers, ups, level, p)
      requires forall i | 0 <= i < level :: update[i] == nodes[ups[i]]
      modifies nodes`forward
      ensures forall k {:trigger nodes[k]} | 0 <= k < |nodes| ::
          nodes[k].forward == Patched(Slots(nodes, towers, k), ups, k, towers[p].height, Slots(nodes, towers, p))
    {
      hide Slots, Patched, Next;
      ghost var targets := Slots(nodes, towers, p);
      forall k | 0 <= k < |nodes|
        ensures nodes[k].forward == Patched(Slots(nodes, towers, k), ups, k, 0, targets)
      {
        PatchNone(Slots(nodes, towers, k), ups, k, 0, targets);
        assert WiredAt(k);
      }
      var i := 0;
      while i < level
        invariant 0 <= i <= |targets|
        invariant forall k {:trigger nodes[k]} | 0 <= k < |nodes| ::
            nodes[k].forward == Patched(Slots(nodes, towers, k), ups, k, i, targets)
      {
        SlotUnpatched(i, ups, targets);
        if update[i].forward[i] != target { break; }
        PatchAll(i, ups, targets);
        PatchNone(targets, ups, p, i, targets);
        update[i].forward := update[i].forward[i := target.forward[i]];
        i := i + 1;
      }
    }

    method SpliceOut(update: seq<Node?>, target: Node, ghost ups: seq<nat>, ghost p: nat)
      requires Searchable() && level <= |update| && level <= |ups|
      requires 0 < p < |nodes| && target == nodes[p] && towers[p].height <= level
      requires Aims(towers, ups, level, p)
      requires forall i | 0 <= i < level :: update[i] == nodes[ups[i]]
      modifies this`nodes, this`towers, nodes`forward
      ensures nodes == Drop(old(nodes), p)
      ensures towers == Drop(old(towers), p)
      ensures Wired()
    {
      hide Slots, Patched, Next, Drop, Heights;
      Redirect(update, target, ups, p);
      forall k | 0 <= k < |nodes| - 1
        ensures Drop(nodes, p)[k].forward == Slots(Drop(nodes, p), Drop(towers, p), k)
      {
        RelinkOut(nodes, towers, ups, p, k);
      }
      nodes, towers := Drop(nodes, p), Drop(towers, p);
    }

    /** The search for (score, key) stops right before the place of the pair. */
    lemma PlaceFound(key: string, score: real, stops: seq<Trail>)
      requires Valid() && |stops| == level && IsDescent(towers, AtEntry(key, score), stops, 0)
      ensures stops[0].at == Place(Entries(towers), key, score) < |nodes|
      ensures |nodes[stops[0].at].forward| > 0
      ensures nodes[stops[0].at].forward[0] == NodeAt(nodes, stops[0].at + 1)
      ensures stops[0].at + 1 < |nodes| ==> nodes[stops[0].at + 1].key == towers[stops[0].at + 1].key
    {
      LevelBound(towers, level);
      DescentFindsPlace(towers, key, score, stops);
      NodeAfter(AtEntry(key, score), stops);
    }

    method ZAdd(key: string, score: real)
      requires Valid()
      modifies this, nodes
      ensures Valid() && fresh(set n | n in nodes && n !in old(nodes))
      ensures Contents() == Added(old(Contents()), key, score)
      // The pair is stored, and only an entry with the key right at its place gives way to it.
      ensures Entry(key, score) in Contents()
      ensures var es, n := old(Contents()), Earlier(old(Contents()), key, score);
              multiset(Contents()) ==
              multiset(es) + multiset{Entry(key, score)}
              - (if n < |es| && es[n].key == key then multiset{es[n]} else multiset{})
      ensures exists h | 1 <= h <= MAX_LEVEL :: towers == AddTower(old(towers), key, score, h)
    {
      hide SortedSet.Wired, Next, Place, Entries, Added, Heights, Sorted, IsDescent, Recorded, IsLevel, Insert;
      hide Earlier, SortedEntries;
      SortedIsSortedEntries(towers);
      AddedContents(Contents(), key, score);
      var update, current, hops, stops := Descend(AtEntry(key, score));
      PlaceFound(key, score, stops);
      ghost var h := 1;
      if current.forward[0] != null && current.forward[0].key == key {
        AddTowerFacts(towers, key, score, h, level);
        SetScore(current.forward[0], score, stops[0].at + 1);
      } else {
        var newLevel := RandomLevel();
        h := newLevel;
        AddTowerFacts(towers, key, score, h, level);
        InsertNew(key, score, newLevel, update, stops, AtEntry(key, score));
      }
      assert towers == AddTower(old(towers), key, score, h);
    }

    /** The last part of ZAdd: raise the level if needed and splice in a new node. */
    method InsertNew(
        key: string, score: real, newLevel: nat, update: seq<Node?>,
        ghost stops: seq<Trail>, ghost g: Goal)
      requires Searchable() && IsLevel(towers, level) && length == |nodes| - 1 && 1 <= newLevel <= MAX_LEVEL
      requires |update| == MAX_LEVEL && |stops| == level && IsDescent(towers, g, stops, 0)
      requires Recorded(update, nodes, stops, 0)
      modifies this, nodes
      ensures stops[0].at < |old(nodes)| && fresh(set n | n in nodes && n !in old(nodes))
      ensures towers == Insert(old(towers), stops[0].at + 1, Tower(key, score, newLevel))
      ensures Wired() && |nodes| == |towers| && nodes[0] == header && length == |nodes| - 1
      ensures level == if newLevel > old(level) then newLevel else old(level)
    {
      hide SortedSet.Wired, Next;
      StopsStraddle(towers, g, stops, newLevel);
      var preds := update;
      if newLevel > level {
        preds := Raise(update, level, newLevel);
        level := newLevel;
      }
      var node := new Node(key, score, newLevel);
      SpliceIn(preds, node, Tower(key, score, newLevel), StopPositions(stops), stops[0].at + 1);
      length := length + 1;
    }

    /** The header precedes the new node on the levels the list did not have before. */
    method Raise(update: seq<Node?>, lo: nat, hi: nat) returns (preds: seq<Node?>)
      requires lo <= hi <= |update|
      ensures |preds| == |update|
      ensures forall i | 0 <= i < |update| :: preds[i] == if lo <= i < hi then header else update[i]
    {
      preds := update;
      for i := lo to hi
        invariant |preds| == |update|
        invariant forall j | 0 <= j < |update| :: preds[j] == if lo <= j < i then header else update[j]
      {
        preds := preds[i := header];
      }
    }

    lemma NodeAfter(g: Goal, stops: seq<Trail>)
      requires Searchable() && 0 < |stops| <= MAX_LEVEL && IsDescent(towers, g, stops, 0)
      ensures stops[0].at < |nodes| && |nodes[stops[0].at].forward| > 0
      ensures nodes[stops[0].at].forward[0] == NodeAt(nodes, stops[0].at + 1)
    {
      DescentBrackets(towers, g, stops, 0, 0);
      NodeFacts(stops[0].at);
      assert Next(towers, 0, stops[0].at) == stops[0].at + 1;
    }

    /** The score of an existing member is lowered where it stands. */
    method SetScore(node: Node, score: real, ghost p: nat)
      requires Wired() && p < |nodes| && node == nodes[p]
      modifies this`towers, node`score
      ensures Wired() && towers == old(towers)[p := old(towers)[p].(score := score)]
    {
      node.score := score;
      ghost var ts := towers;
      towers := ts[p := ts[p].(score := score)];
      forall k | 0 <= k < |nodes|
        ensures WiredAt(k)
      {
        assert old(WiredAt(k));
        forall i | 0 <= i < ts[k].height
          ensures Next(towers, i, k) == Next(ts, i, k)
        {
          NextScore(ts, p, score, i, k);
        }
      }
    }

    method ZRem(key: string) returns (removed: bool)
      requires Valid()
      modifies this, nodes
      ensures Valid() && (forall n | n in nodes :: n in old(nodes))
      ensures towers == RemTower(old(towers), key)
      ensures removed <==> towers != old(towers)
    {
      hide SortedSet.Wired, Next, Sorted, IsDescent, Recorded, Entries;
      var g := AtKey(key);
      var update, current, hops, stops := Descend(g);
      LevelBound(towers, level);
      FoundIs(towers, g, stops);
      NodeAfter(g, stops);
      ghost var p := Found(towers, g);
      if p < |nodes| { NodeFacts(p); }
      var target := current.forward[0];
      if target == null || target.key != key {
        return false;
      }
      DropOk(towers, p);
      Unlink(update, target, stops, g);
      return true;
    }

    /** The last part of ZRem: take the target out of its rows, then lower the level if needed. */
    method Unlink(update: seq<Node?>, target: Node, ghost stops: seq<Trail>, ghost g: Goal)
      requires Searchable() && IsLevel(towers, level) && length == |nodes| - 1
      requires |update| == MAX_LEVEL && |stops| == level && IsDescent(towers, g, stops, 0)
      requires Recorded(update, nodes, stops, 0)
      requires stops[0].at + 1 < |nodes| && target == nodes[stops[0].at + 1]
      modifies this, nodes`forward
      ensures nodes == Drop(old(nodes), stops[0].at + 1)
      ensures towers == Drop(old(towers), stops[0].at + 1)
      ensures Searchable() && IsLevel(towers, level) && length == |nodes| - 1
    {
      hide SortedSet.Wired, Next;
      ghost var p, ups := stops[0].at + 1, StopPositions(stops);
      StopsAim(towers, g, stops);
      SpliceOut(update, target, ups, p);
      Lower();
      length := length - 1;
    }

    /** The level drops while the header has no successor on the top row. */
    method Lower()
      requires |nodes| == |towers| && Wired() && Heights(towers) && nodes[0] == header && 1 <= level <= MAX_LEVEL
      requires forall k | 1 <= k < |towers| :: towers[k].height <= level
      modifies this`level
      ensures 1 <= level <= MAX_LEVEL && IsLevel(towers, level)
    {
      hide SortedSet.Wired, Next;
      NodeFacts(0);
      while level > 1 && header.forward[level - 1] == null
        invariant 1 <= level <= MAX_LEVEL
        invariant forall k | 1 <= k < |towers| :: towers[k].height <= level
      {
        assert Next(towers, level - 1, 0) >= |nodes|;
        level := level - 1;
      }
    }

    method ZRank(key: string) returns (rank: int)
      requires Valid()
      ensures rank == RankOf(towers, key)
    {
      hide SortedSet.Wired, Next, Sorted, IsDescent, Recorded;
      var g := AtKey(key);
      var update, current, hops, stops := Descend(g);
      LevelBound(towers, level);
      FoundIs(towers, g, stops);
      NodeAfter(g, stops);
      if Found(towers, g) < |nodes| { NodeFacts(Found(towers, g)); }
      if current.forward[0] != null && current.forward[0].key == key {
        return hops;
      }
      return -1;
    }

    /** The bottom row from a position on, as the ZRANGE and ZRANGEBYSCORE loops walk it. */
    method ZRange(start: int, end: int) returns (keys: seq<string>)
      requires Valid()
      ensures keys == Slice(Contents(), start, end)
    {
      hide SortedSet.Wired, Next, Sorted, IsLevel, Heights, Entries, KeysOf;
      if start < 0 || end < 0 || start >= length || start > end {
        return [];
      }
      keys := [];
      ghost var es := Contents();
      BottomRow(0);
      var current := header.forward[0];
      var i := 0;
      while i < start && current != null
        invariant 0 <= i <= start && current == NodeAt(nodes, i + 1)
      {
        BottomRow(i + 1);
        current := current.forward[0];
        i := i + 1;
      }
      i := start;
      while i <= end && current != null
        invariant start <= i <= end + 1 && i <= |es| && current == NodeAt(nodes, i + 1)
        invariant keys == KeysOf(es[start..i])
      {
        BottomRow(i + 1);
        KeysOfExtend(es, start, i);
        keys := keys + [current.key];
        current := current.forward[0];
        i := i + 1;
      }
    }

    method ZRangeByScore(min: real, max: real) returns (keys: seq<string>)
      requires Valid()
      ensures keys == KeysOf(Within(Contents(), min, max))
    {
      hide SortedSet.Wired, Next, IsLevel, Sorted, Entries, Within, KeysOf, SortedEntries, Heights;
      keys := [];
      ghost var es := Contents();
      SortedIsSortedEntries(towers);
      assert es[0..] == es;
      BottomRow(0);
      var current := header.forward[0];
      ghost var i := 0;
      while current != null && current.score < min
        invariant i <= |es| && current == NodeAt(nodes, i + 1)
        invariant current != null ==> i < |es| && es[i] == Entry(current.key, current.score)
        invariant KeysOf(Within(es, min, max)) == KeysOf(Within(es[i..], min, max))
        decreases |es| - i
      {
        BottomRow(i + 1);
        WithinStep(es, i, min, max);
        current, i := current.forward[0], i + 1;
      }
      while current != null && current.score <= max
        invariant i <= |es| && current == NodeAt(nodes, i + 1)
        invariant current != null ==> i < |es| && es[i] == Entry(current.key, current.score)
        invariant i < |es| ==> min <= es[i].score
        invariant KeysOf(Within(es, min, max)) == keys + KeysOf(Within(es[i..], min, max))
        decreases |es| - i
      {
        BottomRow(i + 1);
        WithinStep(es, i, min, max);
        if i + 1 < |es| { ScoresAscend(es, i); }
        keys := keys + [current.key];
        current, i := current.forward[0], i + 1;
      }
      WithinNone(es, i, min, max);
    }

    lemma BottomRow(k: nat)
      requires Searchable() && k < |nodes|
      ensures |nodes[k].forward| > 0 && nodes[k].forward[0] == NodeAt(nodes, k + 1)
      ensures k > 0 ==> Contents()[k - 1] == Entry(nodes[k].key, nodes[k].score)
      ensures k + 1 < |nodes| ==> Contents()[k] == Entry(nodes[k + 1].key, nodes[k + 1].score)
    {
      NodeFacts(k);
      if k + 1 < |nodes| { NodeFacts(k + 1); }
    }
  }
}
