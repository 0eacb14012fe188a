/** The stream object: entries appended, groups created, pages delivered and acknowledged. */
module Streams {
  import opened Order
  import opened StreamSpec

  /** A group in order: its pending entries are sound, and as many as were delivered and not yet
      acknowledged. */
  ghost predicate Settled(g: Group, entries: seq<Entry>, delivered: nat, acknowledged: nat) {
    Consistent(g, entries) && delivered == acknowledged + |g.pending|
  }

  class Stream {
    var entries: seq<Entry>
    var groups: map<string, Group>

    // How many entries each group has had become pending, and how many it has acknowledged.
    ghost var delivered: map<string, nat>
    ghost var acknowledged: map<string, nat>

    ghost predicate Valid()
      reads this
    {
      && delivered.Keys == acknowledged.Keys == groups.Keys
      && forall name | name in groups :: Settled(groups[name], entries, delivered[name], acknowledged[name])
    }

    constructor ()
      ensures Valid() && entries == [] && groups == map[]
    {
      entries, groups := [], map[];
      delivered, acknowledged := map[], map[];
    }

    /** The id is as given; a generated one is the caller's clock reading. */
    method XAdd(id: string, fields: map<string, string>)
      requires Valid()
      modifies this`entries
      ensures Valid() && entries == old(entries) + [Entry(id, fields)]
    {
      hide Settled;
      forall name | name in groups
        ensures Settled(groups[name], entries + [Entry(id, fields)], delivered[name], acknowledged[name])
      {
        AppendSettles(groups[name], entries, Entry(id, fields), delivered[name], acknowledged[name]);
      }
      entries := entries + [Entry(id, fields)];
    }

    method XRead(start: string, count: int) returns (result: seq<Entry>)
      ensures result == Read(entries, start, count)
    {
      hide After, Less, Cut, Read;
      result := [];
      AfterNone([], start);
      assert entries[..0] == [];
      var i := 0;
      while i < |entries|
        invariant i <= |entries|
        invariant result == After(entries[..i], start)
        invariant count > 0 ==> |result| < count
      {
        AfterAppend(entries, i, start);
        if Less(start, entries[i].id) {
          result := result + [entries[i]];
          if count > 0 && |result| >= count {
            AfterExtends(entries, i + 1, start);
            ReadStops(entries, start, count, result);
            return;
          }
        }
        i := i + 1;
      }
      assert entries[..|entries|] == entries;
      ReadEnds(entries, start, count);
    }

    method XRange(start: string, end: string) returns (result: seq<Entry>)
      ensures result == Between(entries, start, end)
    {
      result := [];
      for i := 0 to |entries|
        invariant result == Between(entries[..i], start, end)
      {
        assert entries[..i + 1][..i] == entries[..i];
        if !Less(entries[i].id, start) && !Less(end, entries[i].id) {
          result := result + [entries[i]];
        }
      }
      assert entries[..|entries|] == entries;
    }

    method XGroupCreate(name: string) returns (created: bool)
      requires Valid()
      modifies this`groups, this`delivered, this`acknowledged
      ensures Valid() && created == (name !in old(groups))
      ensures groups == if created then old(groups)[name := Group(map[], map[])] else old(groups)
    {
      hide Settled;
      if name in groups {
        return false;
      }
      NewSettled(entries);
      groups := groups[name := Group(map[], map[])];
      delivered, acknowledged := delivered[name := 0], acknowledged[name := 0];
      return true;
    }

    method XReadGroup(name: string, consumer: string, start: string, count: int) returns (result: seq<Entry>)
      requires Valid()
      modifies this`groups, this`delivered
      ensures Valid()
      ensures name !in old(groups) ==> result == [] && groups == old(groups) && delivered == old(delivered)
      ensures name in old(groups) ==> result == Read(entries, start, count)
      ensures name in old(groups) ==> groups == old(groups)[name := Deliver(old(groups)[name], consumer, result)]
      ensures name in old(groups) ==>
          delivered == old(delivered)[name := old(delivered)[name] + NewlyPending(old(groups)[name], consumer, result)]
    {
      hide Consistent, Settled, Deliver, NewlyPending, Read;
      if name !in groups {
        return [];
      }
      var group;
      ghost var before := groups[name];
      result, group := DeliverPage(groups[name], entries, consumer, start, count);
      AfterMembers(entries, start);
      DeliverSettles(before, entries, consumer, result, delivered[name], acknowledged[name]);
      groups := groups[name := group];
      delivered := delivered[name := delivered[name] + NewlyPending(before, consumer, result)];
    }

    method XAck(name: string, ids: seq<string>) returns (count: nat)
      requires Valid()
      modifies this`groups, this`acknowledged
      ensures Valid()
      ensures name !in old(groups) ==> count == 0 && groups == old(groups) && acknowledged == old(acknowledged)
      ensures name in old(groups) ==> groups == old(groups)[name := Acked(old(groups)[name], ids)]
      ensures name in old(groups) ==> count == |old(groups)[name].pending| - |groups[name].pending|
      ensures name in old(groups) ==> acknowledged == old(acknowledged)[name := old(acknowledged)[name] + count]
    {
      hide Consistent, Settled, Acked;
      if name !in groups {
        return 0;
      }
      var group;
      ghost var before := groups[name];
      group, count := Acknowledge(groups[name], ids);
      AckSettles(before, entries, ids, delivered[name], acknowledged[name]);
      groups := groups[name := group];
      acknowledged := acknowledged[name := acknowledged[name] + count];
    }
  }

  /** The loop of XREADGROUP: every entry read becomes pending and joins the consumer's list. */
  method DeliverPage(before: Group, entries: seq<Entry>, consumer: string, start: string, count: int)
    returns (result: seq<Entry>, group: Group)
    ensures result == Read(entries, start, count) && result <= After(entries, start)
    ensures group == Deliver(before, consumer, result)
  {
    hide After, Less, Deliver, Read, Cut;
    result, group := [], before;
    if consumer !in group.consumers {
      group := group.(consumers := group.consumers[consumer := []]);
    }
    AfterNone([], start);
    DeliverNone(before, consumer);
    assert entries[..0] == [];
    var i := 0;
    while i < |entries|
      invariant i <= |entries|
      invariant result == After(entries[..i], start)
      invariant count > 0 ==> |result| < count
      invariant group == Deliver(before, consumer, result) && consumer in group.consumers
    {
      AfterAppend(entries, i, start);
      if Less(start, entries[i].id) {
        var e := entries[i];
        DeliverStep(before, consumer, result, e);
        result := result + [e];
        group := Group(group.consumers[consumer := group.consumers[consumer] + [e.id]], group.pending[e.id := e]);
        if count > 0 && |result| >= count {
          AfterExtends(entries, i + 1, start);
          ReadStops(entries, start, count, result);
          return;
        }
      }
      i := i + 1;
    }
    assert entries[..|entries|] == entries;
    ReadEnds(entries, start, count);
  }

  lemma ReadStops(es: seq<Entry>, start: string, count: int, r: seq<Entry>)
    requires r <= After(es, start) && 0 < count == |r|
    ensures r == Read(es, start, count)
  {
  }

  lemma ReadEnds(es: seq<Entry>, start: string, count: int)
    requires count > 0 ==> |After(es, start)| < count
    ensures Read(es, start, count) == After(es, start)
  {
  }

  lemma DeliverNone(g: Group, consumer: string)
    ensures Deliver(g, consumer, []) ==
            if consumer in g.consumers then g else g.(consumers := g.consumers[consumer := []])
    ensures consumer in Deliver(g, consumer, []).consumers
  {
    if consumer in g.consumers {
      assert g.consumers[consumer := g.consumers[consumer]] == g.consumers;
    }
  }

  lemma DeliverStep(g: Group, consumer: string, es: seq<Entry>, e: Entry)
    requires consumer in Deliver(g, consumer, es).consumers
    ensures var h := Deliver(g, consumer, es);
            Deliver(g, consumer, es + [e]) ==
            Group(h.consumers[consumer := h.consumers[consumer] + [e.id]], h.pending[e.id := e])
  {
    assert (es + [e])[..|es|] == es;
  }

  /** The loop of XACK, which counts the ids that were still pending when their turn came. */
  method Acknowledge(before: Group, ids: seq<string>) returns (group: Group, count: nat)
    ensures group == Acked(before, ids)
    ensures count == |before.pending| - |group.pending|
  {
    hide Acked;
    group, count := before, 0;
    AckedNone(before);
    assert ids[..0] == [];
    for i := 0 to |ids|
      invariant group == Acked(before, ids[..i])
      invariant count == |before.pending| - |group.pending|
    {
      AckedStep(before, ids, i);
      if ids[i] in group.pending {
        RemoveOne(group.pending, ids[i]);
        group := group.(pending := group.pending - {ids[i]});
        count := count + 1;
      }
    }
    assert ids[..|ids|] == ids;
  }

  lemma AckedNone(g: Group)
    ensures Acked(g, []) == g
  {
  }

  lemma NewSettled(entries: seq<Entry>)
    ensures Settled(Group(map[], map[]), entries, 0, 0)
  {
  }

  lemma AppendSettles(g: Group, entries: seq<Entry>, e: Entry, delivered: nat, acknowledged: nat)
    requires Settled(g, entries, delivered, acknowledged)
    ensures Settled(g, entries + [e], delivered, acknowledged)
  {
  }

  lemma DeliverSettles(
      g: Group, entries: seq<Entry>, consumer: string, es: seq<Entry>,
      delivered: nat, acknowledged: nat)
    requires Settled(g, entries, delivered, acknowledged) && forall e | e in es :: e in entries
    ensures Settled(Deliver(g, consumer, es), entries, delivered + NewlyPending(g, consumer, es), acknowledged)
  {
    DeliverConsistent(g, consumer, es, entries);
  }

  lemma AckSettles(g: Group, entries: seq<Entry>, ids: seq<string>, delivered: nat, acknowledged: nat)
    requires Settled(g, entries, delivered, acknowledged)
    ensures |g.pending| >= |Acked(g, ids).pending|
    ensures Settled(Acked(g, ids), entries, delivered, acknowledged + |g.pending| - |Acked(g, ids).pending|)
  {
    AckedConsistent(g, ids, entries);
    SubsetSize(Acked(g, ids).pending.Keys, g.pending.Keys);
  }

  lemma {:induction false} SubsetSize<T>(a: set<T>, b: set<T>)
    requires a <= b
    ensures |a| <= |b|
  {
    assert b == a + (b - a);
  }

  lemma AfterAppend(es: seq<Entry>, i: nat, start: string)
    requires i < |es|
    ensures After(es[..i + 1], start) ==
            if Less(start, es[i].id) then After(es[..i], start) + [es[i]] else After(es[..i], start)
  {
    assert es[..i + 1][..i] == es[..i];
  }

  lemma {:induction false} AfterExtends(es: seq<Entry>, i: nat, start: string)
    requires i <= |es|
    ensures After(es[..i], start) <= After(es, start)
    decreases |es| - i
  {
    if i == |es| {
      assert es[..i] == es;
    } else {
      AfterAppend(es, i, start);
      AfterExtends(es, i + 1, start);
    }
  }

  lemma RemoveOne<K, V>(m: map<K, V>, k: K)
    requires k in m
    ensures |m - {k}| == |m| - 1
  {
    assert m.Keys == (m - {k}).Keys + {k};
    assert |m.Keys| == |(m - {k}).Keys| + 1;
  }

  lemma AckedStep(g: Group, ids: seq<string>, i: nat)
    requires i < |ids|
    ensures Acked(g, ids[..i + 1]) ==
            var h := Acked(g, ids[..i]);
            if ids[i] in h.pending then h.(pending := h.pending - {ids[i]}) else h
  {
    assert ids[..i + 1] == ids[..i] + [ids[i]];
  }
}
