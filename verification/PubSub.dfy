/** Publish and subscribe. Every Go channel ever made has an index in queues; a subscription is the
    index of its channel, and the delivery loop of a channel keeps receiving after it is closed. */
module PubSub {
  import opened Results
  import opened Text

  const CAPACITY: nat := 100

  datatype Queue = Queue(buffer: seq<string>, closed: bool)

  /** What has been published to a subscription since it began, what its delivery loop has
      received, and whether a publish ever found its buffer full. */
  datatype Past = Past(published: seq<string>, received: seq<string>, overflowed: bool)

  // ---------- one subscription ----------

  /** a is b with some messages left out. */
  predicate InOrder(a: seq<string>, b: seq<string>) {
    || a == []
    || (b != [] && a[|a| - 1] == b[|b| - 1] && InOrder(a[..|a| - 1], b[..|b| - 1]))
    || (b != [] && InOrder(a, b[..|b| - 1]))
  }

  predicate Faithful(q: Queue, p: Past) {
    && |q.buffer| <= CAPACITY
    && InOrder(p.received + q.buffer, p.published)
    && (!p.overflowed ==> p.received + q.buffer == p.published)
    && (p.overflowed ==> |p.received + q.buffer| < |p.published|)
  }

  /** A send that does not block: a full buffer drops the message. */
  function Offer(q: Queue, message: string): Queue {
    if |q.buffer| < CAPACITY then q.(buffer := q.buffer + [message]) else q
  }

  function Noted(q: Queue, p: Past, message: string): Past {
    p.(published := p.published + [message], overflowed := p.overflowed || |q.buffer| >= CAPACITY)
  }

  lemma InOrderGrows(a: seq<string>, b: seq<string>, m: string)
    requires InOrder(a, b)
    ensures InOrder(a, b + [m]) && InOrder(a + [m], b + [m])
  {
    assert (b + [m])[..|b|] == b && (a + [m])[..|a|] == a;
  }

  lemma OfferFaithful(q: Queue, p: Past, message: string)
    requires Faithful(q, p)
    ensures Faithful(Offer(q, message), Noted(q, p, message))
  {
    hide InOrder;
    InOrderGrows(p.received + q.buffer, p.published, message);
    assert p.received + (q.buffer + [message]) == p.received + q.buffer + [message];
  }

  lemma TakeFaithful(q: Queue, p: Past)
    requires Faithful(q, p) && q.buffer != []
    ensures Faithful(q.(buffer := q.buffer[1..]), p.(received := p.received + [q.buffer[0]]))
  {
    assert p.received + [q.buffer[0]] + q.buffer[1..] == p.received + q.buffer;
  }

  /** Once a subscription is drained, it has received everything, in order, if and only if no
      publish found its buffer full. */
  lemma DrainedReceivedAll(q: Queue, p: Past)
    requires Faithful(q, p) && q.buffer == []
    ensures p.received == p.published <==> !p.overflowed
  {
    assert p.received + [] == p.received;
  }

  // ---------- the broker ----------

  /** The queues after a message has been offered to those at the given indices. */
  function OfferAll(queues: seq<Queue>, targets: set<nat>, message: string): (r: seq<Queue>)
    ensures |r| == |queues|
  {
    seq(|queues|, q requires 0 <= q < |queues| => if q in targets then Offer(queues[q], message) else queues[q])
  }

  function NoteAll(queues: seq<Queue>, past: seq<Past>, targets: set<nat>, message: string): (r: seq<Past>)
    requires |queues| == |past|
    ensures |r| == |past|
  {
    seq(|past|, q requires 0 <= q < |past| => if q in targets then Noted(queues[q], past[q], message) else past[q])
  }

  type Subscribers = map<string, map<string, nat>>

  predicate Subscribed(subs: Subscribers, channel: string, client: string) {
    channel in subs && client in subs[channel]
  }

  /** The queue of a subscription. */
  predicate Slot(subs: Subscribers, channel: string, client: string, q: nat) {
    Subscribed(subs, channel, client) && subs[channel][client] == q
  }

  predicate NoneEmpty(subs: Subscribers) {
    forall c | c in subs :: subs[c] != map[]
  }

  ghost predicate OpenOnes(subs: Subscribers, queues: seq<Queue>) {
    forall c: string, k: string, q: nat | Slot(subs, c, k, q) :: q < |queues| && !queues[q].closed
  }

  ghost predicate OwnOnes(subs: Subscribers) {
    forall c: string, k: string, d: string, l: string, q: nat | Slot(subs, c, k, q) && Slot(subs, d, l, q) ::
      c == d && k == l
  }

  ghost predicate AllTaken(subs: Subscribers, queues: seq<Queue>) {
    forall q | 0 <= q < |queues| && !queues[q].closed :: exists c, k :: Slot(subs, c, k, q)
  }

  /** No channel is left without subscribers, subscriptions have open queues of their own, and
      every open queue has its subscription. */
  ghost predicate Wired(subs: Subscribers, queues: seq<Queue>) {
    NoneEmpty(subs) && OpenOnes(subs, queues) && OwnOnes(subs) && AllTaken(subs, queues)
  }

  ghost predicate AllFaithful(queues: seq<Queue>, past: seq<Past>) {
    |past| == |queues| && forall q | 0 <= q < |queues| :: Faithful(queues[q], past[q])
  }

  function Clients(subs: Subscribers, channel: string): map<string, nat> {
    if channel in subs then subs[channel] else map[]
  }

  function Joined(subs: Subscribers, channel: string, client: string, q: nat): Subscribers {
    subs[channel := Clients(subs, channel)[client := q]]
  }

  function Left(subs: Subscribers, channel: string, client: string): Subscribers {
    var rest := Clients(subs, channel) - {client};
    if rest == map[] then subs - {channel} else subs[channel := rest]
  }

  lemma JoinedSlot(subs: Subscribers, channel: string, client: string, n: nat, c: string, k: string, q: nat)
    requires !Subscribed(subs, channel, client)
    ensures Slot(Joined(subs, channel, client, n), c, k, q) <==>
            Slot(subs, c, k, q) || (c == channel && k == client && q == n)
  {
  }

  lemma LeftSlot(subs: Subscribers, channel: string, client: string, c: string, k: string, q: nat)
    requires Subscribed(subs, channel, client)
    ensures Slot(Left(subs, channel, client), c, k, q) <==>
            Slot(subs, c, k, q) && !(c == channel && k == client)
  {
    var rest := Clients(subs, channel) - {client};
    if c == channel && k != client && Subscribed(subs, c, k) {
      assert k in rest;
    }
  }

  lemma WiredJoin(subs: Subscribers, queues: seq<Queue>, channel: string, client: string)
    requires Wired(subs, queues) && !Subscribed(subs, channel, client)
    ensures Wired(Joined(subs, channel, client, |queues|), queues + [Queue([], false)])
  {
    var subs', queues' := Joined(subs, channel, client, |queues|), queues + [Queue([], false)];
    assert NoneEmpty(subs') by { assert client in subs'[channel]; }
    hide Joined, Slot, Subscribed, NoneEmpty;
    forall c: string, k: string, q: nat
      ensures Slot(subs', c, k, q) <==> Slot(subs, c, k, q) || (c == channel && k == client && q == |queues|)
    {
      JoinedSlot(subs, channel, client, |queues|, c, k, q);
    }
    forall q | 0 <= q < |queues'| && !queues'[q].closed
      ensures exists c, k :: Slot(subs', c, k, q)
    {
      if q == |queues| {
        assert Slot(subs', channel, client, q);
      } else {
        assert !queues[q].closed;
        var c, k :| Slot(subs, c, k, q);
        assert Slot(subs', c, k, q);
      }
    }
  }

  lemma WiredLeave(subs: Subscribers, queues: seq<Queue>, channel: string, client: string)
    requires Wired(subs, queues) && Subscribed(subs, channel, client)
    ensures var q := subs[channel][client];
            q < |queues| && Wired(Left(subs, channel, client), queues[q := queues[q].(closed := true)])
  {
    var q := subs[channel][client];
    var subs' := Left(subs, channel, client);
    assert NoneEmpty(subs');
    assert Slot(subs, channel, client, q);
    hide Left, Slot, Subscribed, NoneEmpty;
    var queues' := queues[q := queues[q].(closed := true)];
    forall c: string, k: string, r: nat
      ensures Slot(subs', c, k, r) <==> Slot(subs, c, k, r) && !(c == channel && k == client)
    {
      LeftSlot(subs, channel, client, c, k, r);
    }
    forall r | 0 <= r < |queues'| && !queues'[r].closed
      ensures exists c, k :: Slot(subs', c, k, r)
    {
      assert r != q && !queues[r].closed;
      var c, k :| Slot(subs, c, k, r);
      assert Slot(subs', c, k, r) by {
        if c == channel && k == client { SlotUnique(subs, c, k, q, r); }
      }
    }
  }

  lemma SlotUnique(subs: Subscribers, c: string, k: string, q: nat, r: nat)
    requires Slot(subs, c, k, q) && Slot(subs, c, k, r)
    ensures q == r
  {
  }

  /** Only buffers change. */
  lemma WiredBuffers(subs: Subscribers, queues: seq<Queue>, queues': seq<Queue>)
    requires Wired(subs, queues) && |queues'| == |queues|
    requires forall q | 0 <= q < |queues| :: queues'[q].closed == queues[q].closed
    ensures Wired(subs, queues')
  {
    hide Slot, NoneEmpty, OwnOnes;
    forall q | 0 <= q < |queues'| && !queues'[q].closed
      ensures exists c, k :: Slot(subs, c, k, q)
    {
      assert !queues[q].closed;
    }
  }

  lemma OfferAllFaithful(queues: seq<Queue>, past: seq<Past>, targets: set<nat>, message: string)
    requires AllFaithful(queues, past)
    ensures AllFaithful(OfferAll(queues, targets, message), NoteAll(queues, past, targets, message))
  {
    forall q | 0 <= q < |queues|
      ensures Faithful(OfferAll(queues, targets, message)[q], NoteAll(queues, past, targets, message)[q])
    {
      OfferFaithful(queues[q], past[q], message);
    }
  }

  lemma OfferOneMore(queues: seq<Queue>, targets: set<nat>, q: nat, message: string)
    requires q < |queues| && q !in targets
    ensures OfferAll(queues, targets, message)[q] == queues[q]
    ensures OfferAll(queues, targets + {q}, message) ==
            OfferAll(queues, targets, message)[q := Offer(queues[q], message)]
  {
  }

  lemma NewFaithful(queues: seq<Queue>, past: seq<Past>)
    requires AllFaithful(queues, past)
    ensures AllFaithful(queues + [Queue([], false)], past + [Past([], [], false)])
  {
  }

  class Broker {
    var subscribers: Subscribers
    var queues: seq<Queue>
    ghost var past: seq<Past>

    ghost predicate Valid()
      reads this
    {
      |past| == |queues| && Wired(subscribers, queues) && AllFaithful(queues, past)
    }

    constructor ()
      ensures Valid() && subscribers == map[] && queues == []
    {
      subscribers, queues, past := map[], [], [];
    }

    method Subscribe(client: string, channel: string) returns (reply: string)
      requires Valid()
      modifies this
      ensures Valid() && reply == "+SUBSCRIBED to " + channel
      ensures if old(Subscribed(subscribers, channel, client))
              then subscribers == old(subscribers) && queues == old(queues) && past == old(past)
              else subscribers == Joined(old(subscribers), channel, client, |old(queues)|) &&
                   queues == old(queues) + [Queue([], false)] && past == old(past) + [Past([], [], false)]
    {
      hide Wired, AllFaithful;
      if !Subscribed(subscribers, channel, client) {
        WiredJoin(subscribers, queues, channel, client);
        NewFaithful(queues, past);
      }
      var subs := if channel in subscribers then subscribers[channel] else map[];
      if client !in subs {
        subscribers := subscribers[channel := subs[client := |queues|]];
        queues := queues + [Queue([], false)];
        past := past + [Past([], [], false)];
      }
      return "+SUBSCRIBED to " + channel;
    }

    method Unsubscribe(client: string, channel: string) returns (reply: string)
      requires Valid()
      modifies this`subscribers, this`queues
      ensures Valid() && reply == "+UNSUBSCRIBED from " + channel
      ensures if old(Subscribed(subscribers, channel, client))
              then var q := old(subscribers)[channel][client];
                   && subscribers == Left(old(subscribers), channel, client)
                   && q < |old(queues)| && queues == old(queues)[q := old(queues)[q].(closed := true)]
              else subscribers == old(subscribers) && queues == old(queues)
    {
      if Subscribed(subscribers, channel, client) {
        WiredLeave(subscribers, queues, channel, client);
        CloseFaithful(queues, past, subscribers[channel][client]);
      }
      if channel in subscribers {
        NoEmptyChannel(subscribers, queues, channel);
        hide Wired, AllFaithful;
        var subs := subscribers[channel];
        if client in subs {
          var q := subs[client];
          queues := queues[q := queues[q].(closed := true)];
          subs := subs - {client};
          subscribers := subscribers[channel := subs];
        }
        assert subscribers - {channel} == old(subscribers) - {channel};
        if |subs| == 0 {
          subscribers := subscribers - {channel};
        }
      }
      return "+UNSUBSCRIBED from " + channel;
    }

    /** A send on a closed Go channel would panic: it is never made. */
    method Send(q: nat, message: string)
      requires q < |queues| && !queues[q].closed
      modifies this`queues
      ensures queues == old(queues)[q := Offer(old(queues)[q], message)]
      ensures queues[q].buffer ==
              if |old(queues)[q].buffer| < 100 then old(queues)[q].buffer + [message] else old(queues)[q].buffer
    {
      if |queues[q].buffer| < CAPACITY {
        queues := queues[q := queues[q].(buffer := queues[q].buffer + [message])];
      }
    }

    /** Offers the message to every subscriber of the channel; the map gives them in any order. */
    method Publish(channel: string, message: string) returns (reply: string)
      requires Valid()
      modifies this`queues, this`past
      ensures Valid()
      ensures reply == ":" + Itoa(|Clients(subscribers, channel)|)
      ensures var targets := Clients(subscribers, channel).Values;
              queues == OfferAll(old(queues), targets, message) &&
              past == NoteAll(old(queues), old(past), targets, message)
    {
      hide Wired, AllFaithful, OfferAll, NoteAll, Itoa;
      OfferNone(queues, past, message);
      if channel !in subscribers {
        ZeroText();
        return ":0";
      }
      var subs := subscribers[channel];
      ghost var done := SendAll(channel, subs, message);
      past := NoteAll(old(queues), past, done, message);
      OfferAllFaithful(old(queues), old(past), done, message);
      OfferAllWired(subscribers, old(queues), done, message);
      return ":" + Itoa(|subs|);
    }

    method SendAll(ghost channel: string, subs: map<string, nat>, message: string) returns (ghost done: set<nat>)
      requires Wired(subscribers, queues) && channel in subscribers && subs == subscribers[channel]
      modifies this`queues
      ensures done == subs.Values && queues == OfferAll(old(queues), done, message)
    {
      hide Wired, OfferAll;
      OfferNone(queues, past, message);
      var todo := subs.Keys;
      done := {};
      while todo != {}
        invariant todo <= subs.Keys
        invariant forall client | client in subs.Keys - todo :: subs[client] in done
        invariant forall q | q in done :: exists client | client in subs.Keys - todo :: subs[client] == q
        invariant queues == OfferAll(old(queues), done, message)
        decreases todo
      {
        var client :| client in todo;
        OwnQueue(subscribers, old(queues), channel, client, todo, done);
        OfferOneMore(old(queues), done, subs[client], message);
        Send(subs[client], message);
        todo := todo - {client};
        done := done + {subs[client]};
      }
    }

    /** One turn of a delivery loop: the oldest buffered message is received. The loop ends, with
        done true, when its channel is closed and drained. */
    method Receive(q: nat) returns (message: Option<string>, done: bool)
      requires Valid() && q < |queues|
      modifies this`queues, this`past
      ensures Valid() && |queues| == |old(queues)| == |old(past)|
      ensures done <==> old(queues)[q].closed && old(queues)[q].buffer == []
      ensures message.Some? <==> old(queues)[q].buffer != []
      ensures message.None? ==> queues == old(queues) && past == old(past)
      ensures message.Some? ==>
          && [message.value] + queues[q].buffer == old(queues)[q].buffer
          && queues == old(queues)[q := old(queues)[q].(buffer := old(queues)[q].buffer[1..])]
          && past == old(past)[q := old(past)[q].(received := old(past)[q].received + [message.value])]
    {
      hide Wired, Faithful;
      if queues[q].buffer == [] {
        return None, queues[q].closed;
      }
      TakeFaithful(queues[q], past[q]);
      message, done := Some(queues[q].buffer[0]), false;
      past := past[q := past[q].(received := past[q].received + [message.value])];
      queues := queues[q := queues[q].(buffer := queues[q].buffer[1..])];
      WiredBuffers(subscribers, old(queues), queues);
    }
  }

  lemma ZeroText()
    ensures ":" + Itoa(0) == ":0"
  {
  }

  lemma OfferNone(queues: seq<Queue>, past: seq<Past>, message: string)
    ensures OfferAll(queues, {}, message) == queues
    ensures |queues| == |past| ==> NoteAll(queues, past, {}, message) == past
  {
  }

  lemma OfferAllWired(subs: Subscribers, queues: seq<Queue>, targets: set<nat>, message: string)
    requires Wired(subs, queues)
    ensures Wired(subs, OfferAll(queues, targets, message))
  {
    WiredBuffers(subs, queues, OfferAll(queues, targets, message));
  }

  lemma CloseFaithful(queues: seq<Queue>, past: seq<Past>, q: nat)
    requires AllFaithful(queues, past) && q < |queues|
    ensures AllFaithful(queues[q := queues[q].(closed := true)], past)
  {
    assert Faithful(queues[q], past[q]);
  }

  lemma NoEmptyChannel(subs: Subscribers, queues: seq<Queue>, channel: string)
    requires Wired(subs, queues) && channel in subs
    ensures |subs[channel]| > 0
  {
  }

  /** A subscriber whose turn is still to come has a queue not offered the message yet. */
  lemma OwnQueue(
      subs: Subscribers, queues: seq<Queue>, channel: string, client: string,
      todo: set<string>, done: set<nat>)
    requires Wired(subs, queues) && channel in subs && client in todo && todo <= subs[channel].Keys
    requires forall q | q in done :: exists k | k in subs[channel].Keys - todo :: subs[channel][k] == q
    ensures subs[channel][client] < |queues| && !queues[subs[channel][client]].closed
    ensures subs[channel][client] !in done
  {
    var q := subs[channel][client];
    assert Slot(subs, channel, client, q);
    if q in done {
      var k :| k in subs[channel].Keys - todo && subs[channel][k] == q;
      assert Slot(subs, channel, k, q);
    }
  }
}
