/** The server object: its two data maps, the queues and the global flag, changed in place. */
module Server {
  import opened Results
  import opened Text
  import opened Keys
  import opened Transactions

  class Tealis {
    const env: Env
    var store: map<string, string>
    var expiries: map<string, int>
    var transactions: map<string, seq<string>>
    var multi: bool
    var readings: nat

    ghost function Contents(): State
      reads this
    {
      State(Db(store, expiries), transactions, multi, readings)
    }

    constructor (env: Env)
      ensures Contents() == State(Db(map[], map[]), map[], false, 0) && this.env == env
    {
      this.env := env;
      store, expiries, transactions := map[], map[], map[];
      multi, readings := false, 0;
    }

    method MULTI(id: string)
      modifies this
      ensures Contents() == Multi(old(Contents()), id)
    {
      transactions := transactions[id := []];
      multi := true;
    }

    method DISCARD(id: string)
      modifies this
      ensures Contents() == Discard(old(Contents()), id)
    {
      multi := false;
      transactions := transactions - {id};
    }

    method APPENDTO(id: string, command: string) returns (reply: string)
      modifies this
      ensures (Contents(), reply) == AppendTo(old(Contents()), id, command)
    {
      if id !in transactions {
        return "- appendto ERR No transaction started\r\n";
      }
      transactions := transactions[id := transactions[id] + [command]];
      return "+QUEUED\r\n";
    }

    method SET(key: string, value: string, ttl: int, now: int)
      modifies this`store, this`expiries
      ensures Contents().db == Set(old(Contents()).db, now, key, value, ttl)
    {
      store := store[key := value];
      if ttl > 0 {
        expiries := expiries[key := now + ttl];
      } else {
        expiries := expiries - {key};
      }
    }

    method GET(key: string, now: int) returns (value: Option<string>)
      modifies this`store, this`expiries
      ensures (Contents().db, value) == Get(old(Contents()).db, now, key)
    {
      if key in expiries && now > expiries[key] {
        store := store - {key};
        expiries := expiries - {key};
        return None;
      }
      return if key in store then Some(store[key]) else None;
    }

    method DEL(key: string) returns (found: bool)
      modifies this`store, this`expiries
      ensures (Contents().db, found) == Del(old(Contents()).db, key)
    {
      found := key in store;
      if found {
        store := store - {key};
        expiries := expiries - {key};
      }
    }

    method APPEND(key: string, value: string) returns (length: int)
      modifies this`store
      ensures (Contents().db, length) == Append(old(Contents()).db, key, value)
    {
      if key in store {
        store := store[key := store[key] + value];
      } else {
        assert "" + value == value;
        store := store[key := value];
      }
      length := |store[key]|;
    }

    method INCRBY(key: string, increment: int) returns (value: Option<int>)
      modifies this`store
      ensures (Contents().db, value) == IncrBy(old(Contents()).db, key, increment)
    {
      if key !in store {
        store := store[key := Itoa(increment)];
        return Some(increment);
      }
      var current := Atoi(store[key]);
      if current == None {
        return None;
      }
      var sum := Wrap(current.value + increment);
      store := store[key := Itoa(sum)];
      return Some(sum);
    }

    method TTL(key: string, now: int) returns (seconds: int)
      ensures seconds == Ttl(Contents().db, now, key)
    {
      if key !in store {
        return -2;
      }
      if key in expiries {
        var remaining := expiries[key] - now;
        if remaining > 0 {
          return remaining / SECOND;
        }
        return -2;
      }
      return -1;
    }

    method PERSIST(key: string) returns (r: int)
      modifies this`expiries
      ensures (Contents().db, r) == Persist(old(Contents()).db, key)
    {
      if key !in store || key !in expiries {
        return 0;
      }
      expiries := expiries - {key};
      return 1;
    }

    /** One pass of the cleanup loop: every key whose time is up goes from both maps. */
    method Sweep(now: int)
      modifies this`store, this`expiries
      ensures Contents().db == Swept(old(Contents()).db, now)
    {
      var todo := expiries.Keys;
      while todo != {}
        invariant todo <= old(expiries).Keys
        invariant Contents().db == Purge(old(Contents()).db, now, old(expiries).Keys - todo)
        decreases todo
      {
        ghost var before := todo;
        var key :| key in todo;
        todo := todo - {key};
        if now > expiries[key] {
          store := store - {key};
          expiries := expiries - {key};
        }
        PurgeStep(old(Contents()).db, now, old(expiries).Keys - before, key);
        assert old(expiries).Keys - todo == (old(expiries).Keys - before) + {key};
      }
      assert old(expiries).Keys - {} == old(expiries).Keys;
    }

    method ProcessCommand(parts: seq<string>, id: string) returns (reply: string, ghost depth: nat)
      modifies this
      ensures Outcome(Contents(), reply, depth) == Process(env, old(Contents()), parts, id)
      decreases if IsExec(parts) then Rank(Contents(), id) else 0, 2, 0
    {
      depth := 0;
      if |parts| == 0 {
        return "-ERR Empty command", 0;
      }
      var line := Join(parts, " ");
      var command := Upper(parts[0]);
      if multi && !(command == "EXEC" || command == "DISCARD") {
        reply := APPENDTO(id, line);
        return;
      }
      if command == "MULTI" {
        MULTI(id);
        return "+OK MULTI\r\n", 0;
      }
      if command == "EXEC" {
        reply, depth := EXEC(id);
        return;
      }
      if command == "DISCARD" {
        DISCARD(id);
        return "+OK\r\n", 0;
      }
      reply := RunCommand(parts);
    }

    /** The remaining cases of the command switch. */
    method RunCommand(parts: seq<string>) returns (reply: string)
      requires parts != []
      modifies this`store, this`expiries, this`readings
      ensures readings == old(readings) + 1
      ensures (Contents().db, reply) == Dispatch(env, old(Contents()).db, env.clock(old(readings)), parts)
    {
      var n, command, now := |parts|, Upper(parts[0]), env.clock(readings);
      readings := readings + 1;
      if command == "SET" {
        if n < 3 { return "-ERR SET requires key and value"; }
        var ttl := 0;
        if n == 5 && Upper(parts[3]) == "EX" {
          var secs := Atoi(parts[4]);
          if secs == None { return "-ERR Invalid TTL"; }
          ttl := Wrap(secs.value * SECOND);
        }
        SET(parts[1], parts[2], ttl, now);
        return "+OK";
      } else if command == "GET" {
        if n < 2 { return "-ERR GET requires a key"; }
        var value := GET(parts[1], now);
        return if value.Some? then "$" + Itoa(|value.value|) + CRLF + value.value else "$-1";
      } else if command == "DEL" {
        if n < 2 { return "-ERR DEL requires a key"; }
        var found := DEL(parts[1]);
        return if found then ":1" else ":0";
      } else if command == "EXISTS" {
        if n < 2 { return "-ERR EXISTS requires a key"; }
        return if parts[1] in store then ":1" else ":0";
      } else if command == "TTL" {
        if n < 2 { return "-ERR TTL requires a key"; }
        var seconds := TTL(parts[1], now);
        return Itoa(seconds);
      } else if command == "PERSIST" {
        if n < 2 { return "-ERR PERSIST requires a key"; }
        var r := PERSIST(parts[1]);
        return Itoa(r);
      } else if command == "APPEND" {
        if n < 3 { return "-ERR APPEND requires key and value"; }
        var length := APPEND(parts[1], parts[2]);
        return ":" + Itoa(length);
      }
      reply := RunCounter(parts, now);
    }

    /** The counter commands, and every case kept abstract. */
    method RunCounter(parts: seq<string>, ghost now: int) returns (reply: string)
      requires parts != [] && Command(parts) !in {"SET", "GET", "DEL", "EXISTS", "TTL", "PERSIST", "APPEND"}
      modifies this`store, this`expiries
      ensures (Contents().db, reply) == Dispatch(env, old(Contents()).db, now, parts)
    {
      hide Wrap, Itoa, Atoi, IncrBy;
      var n, command := |parts|, Upper(parts[0]);
      if command == "INCR" {
        if n < 2 { return "-ERR INCR requires a key"; }
        var v := INCRBY(parts[1], 1);
        return if v.Some? then ":" + Itoa(v.value) else "-ERR value is not an integer";
      } else if command == "DECR" {
        if n < 2 { return "-ERR DECR requires a key"; }
        var v := INCRBY(parts[1], -1);
        return if v.Some? then ":" + Itoa(v.value) else "-ERR value is not an integer";
      } else if command == "INCRBY" {
        if n < 3 { return "-ERR INCRBY requires a key and increment value"; }
        var increment := Atoi(parts[2]);
        if increment == None { return "-ERR Increment must be an integer"; }
        var v := INCRBY(parts[1], Wrap(increment.value));
        return if v.Some? then ":" + Itoa(v.value) else "-ERR value is not an integer";
      } else if command == "DECRBY" {
        if n < 3 { return "-ERR DECRBY requires a key and decrement value"; }
        var decrement := Atoi(parts[2]);
        if decrement == None { return "-ERR Decrement must be an integer"; }
        var v := INCRBY(parts[1], Wrap(-decrement.value));
        return if v.Some? then ":" + Itoa(v.value) else "-ERR value is not an integer";
      }
      var (db, r) := env.other(Db(store, expiries), parts);
      store, expiries := db.store, db.expiries;
      return r;
    }

    method EXEC(id: string) returns (reply: string, ghost depth: nat)
      modifies this
      ensures Outcome(Contents(), reply, depth) == Exec(env, old(Contents()), id)
      decreases Rank(Contents(), id), 1, 0
    {
      hide Process, Clean, Fields, Join, Dispatch;
      if id !in transactions {
        return "-ERR No transaction started\r\n", 0;
      }
      var queue := transactions[id];
      ghost var dirty := !Clean(queue);
      transactions := transactions - {id};
      multi := false;
      ghost var s := Contents();
      assert s == Discard(old(Contents()), id);
      var replies: seq<string> := [];
      depth := 0;
      CombineNone(RunQueue(env, s, queue, id));
      assert queue[0..] == queue;
      for i := 0 to |queue|
        invariant CleanAt(Contents(), id)
        invariant RunQueue(env, s, queue, id) == Combine(replies, depth, RunQueue(env, Contents(), queue[i..], id))
      {
        QueueStep(env, Contents(), queue, i, id, replies, depth);
        var r: string;
        ghost var d: nat;
        r, d := ProcessCommand(Fields(queue[i]), id);
        replies := replies + [r];
        depth := if d > depth then d else depth;
      }
      assert queue[|queue|..] == [];
      CombineDone(env, Contents(), id, replies, depth);
      return Join(replies, CRLF) + CRLF, 1 + depth;
    }
  }

  lemma CombineNone(b: Batch)
    ensures Combine([], 0, b) == b
  {
  }

  lemma CombineDone(e: Env, s: State, id: string, replies: seq<string>, depth: nat)
    requires CleanAt(s, id)
    ensures Combine(replies, depth, RunQueue(e, s, [], id)) == Batch(s, replies, depth)
  {
    assert replies + [] == replies;
  }

  lemma QueueStep(e: Env, s: State, queue: seq<string>, i: nat, id: string, replies: seq<string>, depth: nat)
    requires i < |queue| && CleanAt(s, id)
    ensures IsExec(Fields(queue[i])) ==> !Clean(queue)
    ensures var o := Process(e, s, Fields(queue[i]), id);
            && CleanAt(o.state, id)
            && Combine(replies, depth, RunQueue(e, s, queue[i..], id)) ==
               Combine(replies + [o.reply], if o.depth > depth then o.depth else depth,
                       RunQueue(e, o.state, queue[i + 1..], id))
  {
    assert queue[i..][1..] == queue[i + 1..];
  }

  /** The batch that starts with the given replies and goes on with b. */
  function Combine(replies: seq<string>, depth: nat, b: Batch): Batch {
    Batch(b.state, replies + b.replies, if depth > b.depth then depth else b.depth)
  }
}
