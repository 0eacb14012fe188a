/** String keys and their expiries as values: what Set, Get, Del, Append, IncrBy, TTL and PERSIST
    do to the two maps, with the clock reading as a parameter (nanoseconds). */
module Keys {
  import opened Results
  import opened Text

  const SECOND: int := 1_000_000_000

  datatype Db = Db(store: map<string, string>, expiries: map<string, int>) {

    function Without(key: string): Db {
      Db(store - {key}, expiries - {key})
    }

    predicate Expired(key: string, now: int) {
      key in expiries && now > expiries[key]
    }
  }

  function Set(db: Db, now: int, key: string, value: string, ttl: int): Db {
    Db(db.store[key := value], if ttl > 0 then db.expiries[key := now + ttl] else db.expiries - {key})
  }

  /** A lazily expired key is deleted by the read that finds it. */
  function Get(db: Db, now: int, key: string): (Db, Option<string>) {
    if db.Expired(key, now) then (db.Without(key), None)
    else (db, if key in db.store then Some(db.store[key]) else None)
  }

  function Del(db: Db, key: string): (Db, bool) {
    if key in db.store then (db.Without(key), true) else (db, false)
  }

  function Append(db: Db, key: string, value: string): (Db, int) {
    var v := (if key in db.store then db.store[key] else "") + value;
    (db.(store := db.store[key := v]), |v|)
  }

  function IncrBy(db: Db, key: string, increment: int): (Db, Option<int>) {
    if key !in db.store then (db.(store := db.store[key := Itoa(increment)]), Some(increment))
    else match Atoi(db.store[key])
      case None => (db, None)
      case Some(current) =>
        var v := Wrap(current + increment);
        (db.(store := db.store[key := Itoa(v)]), Some(v))
  }

  /** Whole seconds left; -1 without an expiry, -2 when the key is missing or its time is up. */
  function Ttl(db: Db, now: int, key: string): int {
    if key !in db.store then -2
    else if key !in db.expiries then -1
    else if db.expiries[key] > now then (db.expiries[key] - now) / SECOND
    else -2
  }

  function Persist(db: Db, key: string): (Db, int) {
    if key in db.store && key in db.expiries then (db.(expiries := db.expiries - {key}), 1) else (db, 0)
  }

  /** Successive increments of a key add up, modulo 2^64 in the signed range. */
  lemma IncrByAdds(db: Db, key: string, a: int, b: int)
    requires MIN_INT <= a <= MAX_INT && IncrBy(db, key, a).1.Some?
    ensures var once := IncrBy(db, key, a);
            var twice := IncrBy(once.0, key, b);
            var base := if key in db.store then Atoi(db.store[key]) else Some(0);
            && base.Some?
            && twice.1 == Some(Wrap(base.value + a + b))
            && twice.0.store == db.store[key := Itoa(Wrap(base.value + a + b))]
            && twice.0.expiries == db.expiries
  {
    hide Atoi, Itoa, Wrap;
    var once, v := IncrBy(db, key, a).0, IncrBy(db, key, a).1.value;
    AtoiOfItoa(v);
    assert once.store == db.store[key := Itoa(v)] && once.expiries == db.expiries;
    var base := if key in db.store then Atoi(db.store[key]) else Some(0);
    WrapAdds(base.value + a, b);
    var w := Wrap(v + b);
    assert IncrBy(once, key, b) == (once.(store := once.store[key := Itoa(w)]), Some(w));
  }

  lemma WrapAdds(x: int, y: int)
    ensures Wrap(Wrap(x) + y) == Wrap(x + y)
  {
  }

  // ---------- what a read gives back ----------

  /** A value set is read back until its time is up, if it has one, and no other key is touched. */
  lemma SetThenGet(db: Db, now: int, key: string, value: string, ttl: int, other: string, later: int)
    ensures var after := Set(db, now, key, value, ttl);
            && Get(after, later, key).1 == (if ttl > 0 && later > now + ttl then None else Some(value))
            && (other != key ==> Get(after, later, other).1 == Get(db, later, other).1)
  {
  }

  /** A read changes nothing but a key whose time is up, which it deletes. */
  lemma GetTwice(db: Db, now: int, key: string, later: int)
    requires now <= later
    ensures var (after, value) := Get(db, now, key);
            && (if key in db.expiries && now > db.expiries[key]
                then value == None && key !in after.store && key !in after.expiries
                else after == db && (value.Some? <==> key in db.store))
            && (value.None? ==> Get(after, later, key).1 == None)
            && (forall other | other != key :: Get(after, later, other).1 == Get(db, later, other).1)
  {
  }

  /** A deleted key is gone with its expiry: built up again by APPEND it has none. */
  lemma DelThenGet(db: Db, key: string, value: string, other: string, later: int)
    ensures var (after, found) := Del(db, key);
            && (found <==> key in db.store)
            && (!found ==> after == db)
            && (found ==> Get(after, later, key).1 == None && Ttl(after, later, key) == -2)
            && (found ==> Ttl(Append(after, key, value).0, later, key) == -1)
            && (other != key ==> Get(after, later, other).1 == Get(db, later, other).1)
  {
  }

  /** Appending keeps the expiry, and reads as the old value, if any, followed by the new one. */
  lemma AppendThenGet(db: Db, key: string, value: string, other: string, later: int)
    requires !db.Expired(key, later)
    ensures var (after, length) := Append(db, key, value);
            var old_ := Get(db, later, key).1;
            && Get(after, later, key).1 == Some(if old_.Some? then old_.value + value else value)
            && length == |value| + (if old_.Some? then |old_.value| else 0)
            && (other != key ==> Get(after, later, other).1 == Get(db, later, other).1)
  {
    assert "" + value == value;
  }

  /** TTL counts whole seconds of 10^9 nanoseconds down to the moment a SET named, and is -1 for a
      key without one. */
  lemma SetThenTtl(db: Db, now: int, key: string, value: string, ttl: int, later: int)
    ensures var left, r := now + ttl - later, Ttl(Set(db, now, key, value, ttl), later, key);
            if ttl <= 0 then r == -1
            else if left > 0 then r >= 0 && 1_000_000_000 * r <= left < 1_000_000_000 * (r + 1)
            else r == -2
  {
  }

  /** PERSIST takes the expiry of a stored key away and leaves its value. */
  lemma PersistThenRead(db: Db, key: string, other: string, later: int)
    ensures var (after, r) := Persist(db, key);
            && (r == 1 <==> key in db.store && key in db.expiries) && (r == 0 || r == 1)
            && (key in db.store ==> Ttl(after, later, key) == -1 && Get(after, later, key).1 == Some(db.store[key]))
            && (other != key ==> Get(after, later, other).1 == Get(db, later, other).1
                                 && Ttl(after, later, other) == Ttl(db, later, other))
  {
  }

  /** An increment adds to the number stored, to 0 when there is none, and is refused, with no
      change, for a value that is no number. */
  lemma IncrByThenGet(db: Db, key: string, increment: int, other: string, later: int)
    requires MIN_INT <= increment <= MAX_INT && !db.Expired(key, later)
    ensures var (after, r) := IncrBy(db, key, increment);
            var base := if key in db.store then Atoi(db.store[key]) else Some(0);
            && (base.None? ==> r == None && after == db)
            && (base.Some? ==> r == Some(Wrap(base.value + increment))
                               && Get(after, later, key).1 == Some(Itoa(Wrap(base.value + increment))))
            && (other != key ==> Get(after, later, other).1 == Get(db, later, other).1)
            && after.expiries == db.expiries
  {
    hide Atoi, Itoa;
  }

  // ---------- the sweep ----------

  /** The data after the expired keys among those given have been deleted. */
  function Purge(db: Db, now: int, keys: set<string>): Db {
    var gone := set key | key in keys && db.Expired(key, now);
    Db(db.store - gone, db.expiries - gone)
  }

  function Swept(db: Db, now: int): Db {
    Purge(db, now, db.expiries.Keys)
  }

  lemma PurgeStep(db: Db, now: int, keys: set<string>, key: string)
    requires key !in keys && key in db.expiries
    ensures key in Purge(db, now, keys).expiries && Purge(db, now, keys).expiries[key] == db.expiries[key]
    ensures Purge(db, now, keys + {key}) ==
            if now > db.expiries[key] then Purge(db, now, keys).Without(key) else Purge(db, now, keys)
  {
    var gone := set k | k in keys && db.Expired(k, now);
    var gone' := set k | k in keys + {key} && db.Expired(k, now);
    assert gone' == if now > db.expiries[key] then gone + {key} else gone;
  }
}
