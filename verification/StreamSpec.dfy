/** Streams as values: reading a page, delivering it to a consumer, acknowledging. Entry ids are
    compared as strings. */
module StreamSpec {
  import opened Order
  import opened Results

  datatype Entry = Entry(id: string, fields: map<string, string>)

  datatype Group = Group(consumers: map<string, seq<string>>, pending: map<string, Entry>)

  // ---------- reading ----------

  function After(es: seq<Entry>, start: string): seq<Entry> {
    if es == [] then []
    else After(es[..|es| - 1], start) + if Less(start, es[|es| - 1].id) then [es[|es| - 1]] else []
  }

  /** XREAD: the entries after an id, cut at the count when it is positive. */
  function Read(es: seq<Entry>, start: string, count: int): (r: seq<Entry>)
    ensures count > 0 ==> |r| <= count
  {
    Cut(After(es, start), count)
  }

  function Cut(all: seq<Entry>, count: int): (r: seq<Entry>)
    ensures |r| == if 0 < count < |all| then count else |all|
    ensures r <= all
  {
    if 0 < count <= |all| then all[..count] else all
  }

  lemma CutTwice(all: seq<Entry>, n: nat, m: nat)
    requires n > 0 && m > 0
    ensures Cut(all, n) + Cut(all[|Cut(all, n)|..], m) == Cut(all, n + m)
  {
    if n + m <= |all| {
      assert all[n..][..m] == all[n..n + m];
    }
  }

  function Between(es: seq<Entry>, start: string, end: string): seq<Entry> {
    if es == [] then []
    else
      var e := es[|es| - 1];
      Between(es[..|es| - 1], start, end) + if Less(e.id, start) || Less(end, e.id) then [] else [e]
  }

  /** XRANGE: an entry more is returned exactly when its id is neither below the start nor above
      the end, both ends included. */
  lemma BetweenOneMore(es: seq<Entry>, e: Entry, start: string, end: string)
    ensures Between([], start, end) == []
    ensures Between(es + [e], start, end) ==
            Between(es, start, end)
            + if (e.id == start || Less(start, e.id)) && (e.id == end || Less(e.id, end)) then [e] else []
  {
    assert (es + [e])[..|es|] == es;
    LessTotal(start, e.id);
    LessTotal(e.id, end);
    LessIrreflexive(e.id);
    if Less(start, e.id) && Less(e.id, start) { LessAsymmetric(start, e.id); }
    if Less(end, e.id) && Less(e.id, end) { LessAsymmetric(end, e.id); }
  }

  predicate Increasing(es: seq<Entry>) {
    forall a, b | 0 <= a < b < |es| :: Less(es[a].id, es[b].id)
  }

  lemma {:induction false} AfterNone(es: seq<Entry>, start: string)
    requires forall k | 0 <= k < |es| :: !Less(start, es[k].id)
    ensures After(es, start) == []
  {
    if es != [] { AfterNone(es[..|es| - 1], start); }
  }

  lemma {:induction false} AfterMembers(es: seq<Entry>, start: string)
    ensures forall e | e in After(es, start) :: e in es && Less(start, e.id)
  {
    if es != [] { AfterMembers(es[..|es| - 1], start); }
  }

  /** Where the entries after an id begin, when ids increase. */
  lemma {:induction false} AfterIsSuffix(es: seq<Entry>, start: string, k: nat)
    requires k <= |es|
    requires forall j | 0 <= j < k :: !Less(start, es[j].id)
    requires forall j | k <= j < |es| :: Less(start, es[j].id)
    ensures After(es, start) == es[k..]
  {
    var n := |es| - 1;
    if k == |es| {
      AfterNone(es, start);
    } else {
      AfterIsSuffix(es[..n], start, k);
      assert es[k..] == es[..n][k..] + [es[n]];
    }
  }

  lemma {:induction false} FirstAfter(es: seq<Entry>, start: string) returns (k: nat)
    requires Increasing(es)
    ensures k <= |es|
    ensures forall j | 0 <= j < k :: !Less(start, es[j].id)
    ensures forall j | k <= j < |es| :: Less(start, es[j].id)
  {
    k := 0;
    while k < |es| && !Less(start, es[k].id)
      invariant k <= |es| && forall j | 0 <= j < k :: !Less(start, es[j].id)
    {
      k := k + 1;
    }
    forall j | k <= j < |es|
      ensures Less(start, es[j].id)
    {
      if j > k { LessTransitive(start, es[k].id, es[j].id); }
    }
  }

  /** A page of n and then a page of m from its last id, against one page of n + m. */
  predicate Pages(es: seq<Entry>, start: string, n: nat, m: nat) {
    var first := Read(es, start, n);
    first != [] ==> first + Read(es, first[|first| - 1].id, m) == Read(es, start, n + m)
  }

  lemma IncreasingPages(es: seq<Entry>, start: string, n: nat, m: nat)
    requires Increasing(es) && n > 0 && m > 0
    ensures Pages(es, start, n, m)
  {
    var k := FirstAfter(es, start);
    AfterIsSuffix(es, start, k);
    var all := es[k..];
    forall j | 0 <= j < |all|
      ensures After(es, all[j].id) == all[j + 1..]
    {
      AfterLast(es, k + j);
      assert all[j] == es[k + j] && all[j + 1..] == es[k + j + 1..];
    }
    CutPages(es, start, all, n, m);
  }

  lemma CutPages(es: seq<Entry>, start: string, all: seq<Entry>, n: nat, m: nat)
    requires After(es, start) == all && n > 0 && m > 0
    requires forall j | 0 <= j < |all| :: After(es, all[j].id) == all[j + 1..]
    ensures Pages(es, start, n, m)
  {
    hide After, Cut;
    CutTwice(all, n, m);
    var c := |Cut(all, n)|;
    if c > 0 {
      assert Cut(all, n)[c - 1] == all[c - 1];
      assert After(es, all[c - 1].id) == all[c..];
    }
  }

  /** After an entry of an increasing stream come exactly the entries stored after it. */
  lemma AfterLast(es: seq<Entry>, l: nat)
    requires Increasing(es) && l < |es|
    ensures After(es, es[l].id) == es[l + 1..]
  {
    forall j | 0 <= j < |es|
      ensures Less(es[l].id, es[j].id) <==> j > l
    {
      if j < l { LessAsymmetric(es[j].id, es[l].id); }
      LessIrreflexive(es[l].id);
    }
    AfterIsSuffix(es, es[l].id, l + 1);
  }

  lemma AfterOneMore(es: seq<Entry>, e: Entry, start: string)
    ensures After(es + [e], start) == After(es, start) + if Less(start, e.id) then [e] else []
  {
    assert (es + [e])[..|es|] == es;
  }

  /** No read sees an entry with the empty id: what can be seen is what follows "". */
  lemma {:induction false} AfterVisible(es: seq<Entry>, start: string)
    ensures After(After(es, ""), start) == After(es, start)
  {
    if es != [] {
      var rest, e := es[..|es| - 1], es[|es| - 1];
      AfterVisible(rest, start);
      AfterOneMore(After(rest, ""), e, start);
      assert After(es, "") == if Less("", e.id) then After(rest, "") + [e] else After(rest, "");
      assert Less(start, e.id) ==> Less("", e.id);
    }
  }

  /** Reading page by page is reading at once, from every start and for all page sizes, if and only
      if the ids that a read can return increase strictly, as strings. */
  lemma PagesIff(es: seq<Entry>)
    ensures (forall start: string, n: nat, m: nat | n > 0 && m > 0 :: Pages(es, start, n, m))
            <==> Increasing(After(es, ""))
  {
    var seen := After(es, "");
    AfterMembers(es, "");
    forall start: string, n: nat, m: nat
      ensures Pages(es, start, n, m) <==> Pages(seen, start, n, m)
    {
      PagesOfVisible(es, start, n, m);
    }
    if Increasing(seen) {
      forall start: string, n: nat, m: nat | n > 0 && m > 0
        ensures Pages(es, start, n, m)
      {
        IncreasingPages(seen, start, n, m);
      }
    } else {
      var k := PageBreak(seen);
    }
  }

  lemma PagesOfVisible(es: seq<Entry>, start: string, n: nat, m: nat)
    ensures Pages(es, start, n, m) <==> Pages(After(es, ""), start, n, m)
  {
    AfterVisible(es, start);
    var first := Read(es, start, n);
    hide After, Cut;
    if first != [] { AfterVisible(es, first[|first| - 1].id); }
  }

  lemma PageBreak(es: seq<Entry>) returns (k: nat)
    requires (forall k | 0 <= k < |es| :: es[k].id != "") && !Increasing(es)
    ensures !Pages(es, "", k + 1, 1)
  {
    hide Increasing;
    k := Descent(es);
    AfterIsSuffix(es, "", 0);
    hide After, Less;
    assert es[0..] == es;
    var first, next := Cut(es, k + 1), Read(es, es[k].id, 1);
    assert first[k] == es[k] && |first| == k + 1;
    if next != [] {
      AfterMembers(es, es[k].id);
      assert next[0] in After(es, es[k].id);
      assert (first + next)[k + 1] == next[0] && Cut(es, k + 2)[k + 1] == es[k + 1];
    }
  }

  lemma {:induction false} Descent(es: seq<Entry>) returns (k: nat)
    requires !Increasing(es)
    ensures k + 1 < |es| && !Less(es[k].id, es[k + 1].id)
  {
    k := 0;
    while Less(es[k].id, es[k + 1].id)
      invariant k + 1 < |es| && Increasing(es[..k + 1])
      decreases |es| - k
    {
      forall a, b | 0 <= a < b < k + 2
        ensures Less(es[a].id, es[b].id)
      {
        if b == k + 1 && a < k {
          assert Less(es[..k + 1][a].id, es[..k + 1][k].id);
          LessTransitive(es[a].id, es[k].id, es[k + 1].id);
        } else if b <= k {
          assert Less(es[..k + 1][a].id, es[..k + 1][b].id);
        }
      }
      k := k + 1;
    }
  }

  /** Numeric ids of different lengths are such a case: "10-0" is never read after "9-0". */
  lemma NumericIdsMissed(fields: map<string, string>, count: int)
    ensures Read([Entry("9-0", fields), Entry("10-0", fields)], "9-0", count) == []
  {
    LessIrreflexive("9-0");
    AfterNone([Entry("9-0", fields), Entry("10-0", fields)], "9-0");
  }

  // ---------- delivering ----------

  function Consumer(g: Group, consumer: string): seq<string> {
    if consumer in g.consumers then g.consumers[consumer] else []
  }

  /** The group after the entries have been handed to a consumer, one by one. */
  function Deliver(g: Group, consumer: string, es: seq<Entry>): Group {
    if es == [] then g.(consumers := g.consumers[consumer := Consumer(g, consumer)])
    else
      var h, e := Deliver(g, consumer, es[..|es| - 1]), es[|es| - 1];
      Group(h.consumers[consumer := Consumer(h, consumer) + [e.id]], h.pending[e.id := e])
  }

  function Ids(es: seq<Entry>): (ids: seq<string>)
    ensures |ids| == |es|
  {
    seq(|es|, k requires 0 <= k < |es| => es[k].id)
  }

  /** The ids join the end of the consumer's list in order, and no other list changes. */
  lemma {:induction false} DeliverLists(g: Group, consumer: string, es: seq<Entry>)
    ensures var d := Deliver(g, consumer, es);
            && consumer in d.consumers && d.consumers[consumer] == Consumer(g, consumer) + Ids(es)
            && d.consumers - {consumer} == g.consumers - {consumer}
  {
    if es == [] {
      assert Ids(es) == [] && Consumer(g, consumer) + [] == Consumer(g, consumer);
    } else {
      var n := |es| - 1;
      DeliverLists(g, consumer, es[..n]);
      assert Ids(es) == Ids(es[..n]) + [es[n].id];
    }
  }

  /** The last entry with an id. */
  function LastWith(es: seq<Entry>, id: string): (e: Option<Entry>)
    ensures e.Some? ==> e.value in es && e.value.id == id
    ensures e.None? ==> forall k | 0 <= k < |es| :: es[k].id != id
  {
    if es == [] then None
    else if es[|es| - 1].id == id then Some(es[|es| - 1])
    else LastWith(es[..|es| - 1], id)
  }

  /** Pending are the old ids and these: each with the last entry delivered under it, or the one it
      had. */
  lemma {:induction false} DeliverPending(g: Group, consumer: string, es: seq<Entry>, id: string)
    ensures var d, last := Deliver(g, consumer, es), LastWith(es, id);
            && (id in d.pending <==> id in g.pending || last.Some?)
            && (id in d.pending ==> d.pending[id] == if last.Some? then last.value else g.pending[id])
  {
    if es != [] { DeliverPending(g, consumer, es[..|es| - 1], id); }
  }

  /** How many of the entries were not pending when their turn came. */
  function NewlyPending(g: Group, consumer: string, es: seq<Entry>): nat {
    if es == [] then 0
    else
      var h, e := Deliver(g, consumer, es[..|es| - 1]), es[|es| - 1];
      NewlyPending(g, consumer, es[..|es| - 1]) + if e.id in h.pending then 0 else 1
  }

  /** Every pending entry is one of the stream, under its own id, and on some consumer's list. */
  predicate Consistent(g: Group, es: seq<Entry>) {
    forall id | id in g.pending ::
      && g.pending[id].id == id
      && g.pending[id] in es
      && exists c | c in g.consumers :: id in g.consumers[c]
  }

  lemma {:induction false} DeliverConsistent(g: Group, consumer: string, es: seq<Entry>, all: seq<Entry>)
    requires Consistent(g, all) && forall e | e in es :: e in all
    ensures Consistent(Deliver(g, consumer, es), all) && consumer in Deliver(g, consumer, es).consumers
    ensures |Deliver(g, consumer, es).pending| == |g.pending| + NewlyPending(g, consumer, es)
  {
    var d := Deliver(g, consumer, es);
    if es == [] {
      forall id | id in d.pending
        ensures exists c | c in d.consumers :: id in d.consumers[c]
      {
        var c :| c in g.consumers && id in g.consumers[c];
        assert c in d.consumers && id in d.consumers[c];
      }
    } else {
      var n := |es| - 1;
      DeliverConsistent(g, consumer, es[..n], all);
      var h, e := Deliver(g, consumer, es[..n]), es[n];
      assert e in es;
      forall id | id in d.pending
        ensures d.pending[id].id == id && d.pending[id] in all
        ensures exists c | c in d.consumers :: id in d.consumers[c]
      {
        if id == e.id {
          assert consumer in d.consumers && id in d.consumers[consumer];
        } else {
          var c :| c in h.consumers && id in h.consumers[c];
          assert c in d.consumers && id in d.consumers[c];
        }
      }
    }
  }

  // ---------- acknowledging ----------

  function Acked(g: Group, ids: seq<string>): Group {
    g.(pending := g.pending - (set id | id in ids))
  }

  lemma AckedConsistent(g: Group, ids: seq<string>, all: seq<Entry>)
    requires Consistent(g, all)
    ensures Consistent(Acked(g, ids), all)
  {
  }
}
