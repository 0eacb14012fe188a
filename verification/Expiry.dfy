/** Lazy expiry on reads and the periodic sweep are interchangeable for Set, Get and TTL. */
module Expiry {
  import opened Results
  import opened Text
  import opened Keys

  datatype Op = SetOp(key: string, value: string, ttl: int) | GetOp(key: string) | TtlOp(key: string)

  datatype Response = Done | Got(value: Option<string>) | Seconds(left: int)

  datatype Event = Call(now: int, op: Op) | Sweep(now: int)

  function Respond(db: Db, now: int, op: Op): (Db, Response) {
    match op
    case SetOp(key, value, ttl) => (Set(db, now, key, value, ttl), Done)
    case GetOp(key) => var (db', v) := Get(db, now, key); (db', Got(v))
    case TtlOp(key) => (db, Seconds(Ttl(db, now, key)))
  }

  /** The responses to the calls among the events. */
  function Responses(db: Db, events: seq<Event>): seq<Response>
    decreases events
  {
    if events == [] then []
    else match events[0]
      case Sweep(now) => Responses(Swept(db, now), events[1..])
      case Call(now, op) => [Respond(db, now, op).1] + Responses(Respond(db, now, op).0, events[1..])
  }

  function WithoutSweeps(events: seq<Event>): seq<Event> {
    if events == [] then []
    else (if events[0].Call? then [events[0]] else []) + WithoutSweeps(events[1..])
  }

  predicate Chronological(from: int, events: seq<Event>)
    decreases events
  {
    events == [] || (from <= events[0].now && Chronological(events[0].now, events[1..]))
  }

  // ---------- the simulation ----------

  datatype View = View(value: Option<string>, expiry: Option<int>)

  function ViewOf(db: Db, key: string): View {
    View(if key in db.store then Some(db.store[key]) else None,
         if key in db.expiries then Some(db.expiries[key]) else None)
  }

  /** Key by key, the swept store shows what the unswept one does, or nothing where the unswept
      one still holds something whose time is up. */
  ghost predicate Simulates(swept: Db, unswept: Db, now: int) {
    forall key: string :: SimulatesAt(swept, unswept, now, key)
  }

  ghost predicate SimulatesAt(swept: Db, unswept: Db, now: int, key: string) {
    || ViewOf(swept, key) == ViewOf(unswept, key)
    || (ViewOf(swept, key) == View(None, None) && unswept.Expired(key, now))
  }

  lemma SimulatesRespond(swept: Db, unswept: Db, t: int, now: int, op: Op)
    requires Simulates(swept, unswept, t) && t <= now
    ensures Respond(swept, now, op).1 == Respond(unswept, now, op).1
    ensures Simulates(Respond(swept, now, op).0, Respond(unswept, now, op).0, now)
  {
    assert SimulatesAt(swept, unswept, t, op.key);
    forall key: string
      ensures SimulatesAt(Respond(swept, now, op).0, Respond(unswept, now, op).0, now, key)
    {
      assert SimulatesAt(swept, unswept, t, key);
    }
  }

  lemma SimulatesSweep(swept: Db, unswept: Db, t: int, now: int)
    requires Simulates(swept, unswept, t) && t <= now
    ensures Simulates(Swept(swept, now), unswept, now)
  {
    forall key: string
      ensures SimulatesAt(Swept(swept, now), unswept, now, key)
    {
      assert SimulatesAt(swept, unswept, t, key);
    }
  }

  lemma {:induction false} SweepsUnseen(swept: Db, unswept: Db, t: int, events: seq<Event>)
    requires Simulates(swept, unswept, t) && Chronological(t, events)
    ensures Responses(swept, events) == Responses(unswept, WithoutSweeps(events))
    decreases events
  {
    if events != [] {
      var rest := WithoutSweeps(events[1..]);
      match events[0]
      case Sweep(now) =>
        SimulatesSweep(swept, unswept, t, now);
        SweepsUnseen(Swept(swept, now), unswept, now, events[1..]);
        assert WithoutSweeps(events) == rest;
      case Call(now, op) =>
        SimulatesRespond(swept, unswept, t, now, op);
        SweepsUnseen(Respond(swept, now, op).0, Respond(unswept, now, op).0, now, events[1..]);
        assert WithoutSweeps(events) == [events[0]] + rest && ([events[0]] + rest)[1..] == rest;
    }
  }

  /** On a non-decreasing clock, sweeps at any points of a run of Set, Get and TTL change no
      response. */
  lemma SweepsChangeNothing(db: Db, t: int, events: seq<Event>)
    requires Chronological(t, events)
    ensures Responses(db, events) == Responses(db, WithoutSweeps(events))
  {
    SweepsUnseen(db, db, t, events);
  }

  lemma SweptKey(db: Db, now: int, key: string)
    ensures key in Swept(db, now).store <==> key in db.store && !db.Expired(key, now)
    ensures key in Swept(db, now).expiries <==> key in db.expiries && !db.Expired(key, now)
    ensures key in Swept(db, now).store ==> Swept(db, now).store[key] == db.store[key]
  {
  }

  /** The commands that do not look at the expiry answer alike before and after a sweep exactly
      when the key is not a stored key whose time is up; APPEND and INCRBY also when such a key
      holds nothing to append to, or to add to. */
  lemma SweepSeenByOthers(db: Db, now: int, key: string, value: string, increment: int)
    requires MIN_INT <= increment <= MAX_INT
    ensures var after, stale := Swept(db, now), key in db.store && db.Expired(key, now);
            && ((key in db.store) == (key in after.store) <==> !stale)
            && (Del(db, key).1 == Del(after, key).1 <==> !stale)
            && (Persist(db, key).1 == Persist(after, key).1 <==> !stale)
            && (Append(db, key, value).1 == Append(after, key, value).1 <==> !stale || db.store[key] == "")
            && (IncrBy(db, key, increment).1 == IncrBy(after, key, increment).1
                <==> !stale || Atoi(db.store[key]) == Some(0))
  {
    SweptKey(db, now, key);
    hide Swept, Wrap, Itoa, Atoi;
    if key in db.store && Atoi(db.store[key]).Some? { WrapMoves(Atoi(db.store[key]).value, increment); }
  }

  /** Adding a number of the int64 range leaves another one as it was only if it is 0. */
  lemma WrapMoves(current: int, increment: int)
    requires MIN_INT <= increment <= MAX_INT
    ensures MIN_INT <= current <= MAX_INT ==> (Wrap(current + increment) == increment <==> current == 0)
  {
  }
}
