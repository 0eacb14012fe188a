/** What a client is answered, command after command: the replies of the string commands, the gate
    and EXEC, read off from what was sent before. */
module CommandLaws {
  import opened Results
  import opened Text
  import opened Keys
  import opened Transactions

  /** A state in which commands are run as they come. */
  predicate Running(s: State, parts: seq<string>, command: string, n: nat) {
    !s.multi && Named(parts, command, n)
  }

  predicate Named(parts: seq<string>, command: string, n: nat) {
    |parts| >= n > 0 && Upper(parts[0]) == command
  }

  lemma ProcessRuns(e: Env, s: State, parts: seq<string>, id: string)
    requires !s.multi && parts != [] && !Controls(parts)
    ensures var (db, reply) := Dispatch(e, s.db, e.clock(s.readings), parts);
            Process(e, s, parts, id) == Outcome(s.(db := db, readings := s.readings + 1), reply, 0)
  {
    hide Dispatch;
  }

  /** The reply to a read: length and bytes, or none. */
  function Bulk(v: Option<string>): string {
    if v.Some? then "$" + Itoa(|v.value|) + "\r\n" + v.value else "$-1"
  }

  /** The reply of a counter command: the new number, or a complaint about the old value. */
  function Integer(r: Option<int>): string {
    if r.Some? then ":" + Itoa(r.value) else "-ERR value is not an integer"
  }

  // ---------- SET, GET ----------

  /** GET answers the length and the bytes of the value SET was given, without a time limit. */
  lemma SetGetReplies(e: Env, s: State, id: string, set_: seq<string>, get: seq<string>)
    requires Running(s, set_, "SET", 3) && Running(s, get, "GET", 2) && get[1] == set_[1]
    requires |set_| != 5 || Upper(set_[3]) != "EX"
    ensures var stored := Process(e, s, set_, id);
            && stored.reply == "+OK"
            && Process(e, stored.state, get, id).reply == Bulk(Some(set_[2]))
  {
    hide Upper, Itoa;
  }

  /** With EX n it does so for n seconds by the clock readings, and then answers that there is none;
      nanoseconds are counted in an int64, and a number of them that is not positive is no limit. */
  lemma SetExGetReplies(e: Env, s: State, id: string, set_: seq<string>, n: int, get: seq<string>)
    requires Running(s, set_, "SET", 5) && |set_| == 5 && Upper(set_[3]) == "EX" && Atoi(set_[4]) == Some(n)
    requires Running(s, get, "GET", 2) && get[1] == set_[1]
    ensures var stored := Process(e, s, set_, id);
            && stored.reply == "+OK"
            && Process(e, stored.state, get, id).reply ==
               if 0 < Wrap(n * 1_000_000_000) < e.clock(s.readings + 1) - e.clock(s.readings)
               then Bulk(None) else Bulk(Some(set_[2]))
  {
    hide Upper, Itoa, Atoi, Wrap;
  }

  /** A key never stored has no value. */
  lemma GetMissingReply(e: Env, s: State, id: string, get: seq<string>)
    requires Running(s, get, "GET", 2) && get[1] !in s.db.store
    ensures Process(e, s, get, id).reply == Bulk(None)
  {
    hide Upper, Itoa;
  }

  // ---------- DEL, EXISTS, APPEND, TTL, PERSIST ----------

  lemma DelReplies(e: Env, s: State, id: string, del: seq<string>, exists_: seq<string>, get: seq<string>)
    requires Running(s, del, "DEL", 2) && Running(s, exists_, "EXISTS", 2) && Running(s, get, "GET", 2)
    requires exists_[1] == get[1] == del[1]
    ensures var deleted := Process(e, s, del, id);
            && deleted.reply == (if del[1] in s.db.store then ":1" else ":0")
            && Process(e, s, exists_, id).reply == deleted.reply
            && Process(e, s, exists_, id).state.db == s.db
            && Process(e, deleted.state, exists_, id).reply == ":0"
            && Process(e, deleted.state, get, id).reply == Bulk(None)
  {
    hide Upper, Itoa;
  }

  lemma AppendReplies(e: Env, s: State, id: string, append: seq<string>, get: seq<string>)
    requires Running(s, append, "APPEND", 3) && Running(s, get, "GET", 2) && get[1] == append[1]
    requires !s.db.Expired(append[1], e.clock(s.readings + 1))
    ensures var value := (if append[1] in s.db.store then s.db.store[append[1]] else "") + append[2];
            var appended := Process(e, s, append, id);
            && appended.reply == ":" + Itoa(|value|)
            && Process(e, appended.state, get, id).reply == Bulk(Some(value))
  {
    hide Upper, Itoa;
  }

  /** TTL prints the number of seconds; PERSIST answers 1 when it took an expiry away, after which
      TTL prints -1. */
  lemma TtlReplies(e: Env, s: State, id: string, ttl: seq<string>, persist: seq<string>)
    requires Running(s, ttl, "TTL", 2) && Running(s, persist, "PERSIST", 2) && persist[1] == ttl[1]
    ensures var persisted := Process(e, s, persist, id);
            && Process(e, s, ttl, id).reply == Itoa(Ttl(s.db, e.clock(s.readings), ttl[1]))
            && Process(e, s, ttl, id).state.db == s.db
            && persisted.reply == Itoa(if ttl[1] in s.db.store && ttl[1] in s.db.expiries then 1 else 0)
            && (ttl[1] in s.db.store ==> Process(e, persisted.state, ttl, id).reply == Itoa(-1))
  {
    hide Upper, Itoa;
  }

  // ---------- counters ----------

  /** What a counter command adds. */
  predicate Adds(parts: seq<string>, n: int) {
    && |parts| >= 2
    && match Upper(parts[0])
       case "INCR" => n == 1
       case "DECR" => n == -1
       case "INCRBY" => |parts| >= 3 && Atoi(parts[2]) == Some(n)
       case "DECRBY" => |parts| >= 3 && Atoi(parts[2]) == Some(-n)
       case _ => false
  }

  lemma CounterDispatch(e: Env, db: Db, now: int, parts: seq<string>, n: int)
    requires Adds(parts, n) && MIN_INT <= n <= MAX_INT
    ensures Dispatch(e, db, now, parts) ==
            var (after, r) := IncrBy(db, parts[1], n);
            (after, Integer(r))
    ensures !Controls(parts)
  {
    hide Upper, Atoi, Itoa, IncrBy;
  }

  /** A counter command answers the number its increment leaves, which a GET then reads; a value
      that is no number is refused. `Keys.IncrByThenGet` says which number that is. */
  lemma CounterReplies(e: Env, s: State, id: string, parts: seq<string>, n: int, get: seq<string>)
    requires !s.multi && Adds(parts, n) && MIN_INT <= n <= MAX_INT && Running(s, get, "GET", 2)
    ensures var counted, (db, r) := Process(e, s, parts, id), IncrBy(s.db, parts[1], n);
            && counted.reply == Integer(r)
            && counted.state.db == db
            && var v := Get(db, e.clock(s.readings + 1), get[1]).1;
               Process(e, counted.state, get, id).reply == Bulk(v)
  {
    CounterRuns(e, s, id, parts, n);
    hide Upper, Atoi, Itoa, IncrBy, Get, Process, Adds, Named, Integer;
    GetReply(e, Process(e, s, parts, id).state, id, get);
  }

  lemma CounterRuns(e: Env, s: State, id: string, parts: seq<string>, n: int)
    requires !s.multi && Adds(parts, n) && MIN_INT <= n <= MAX_INT
    ensures var (db, r) := IncrBy(s.db, parts[1], n);
            Process(e, s, parts, id) ==
            Outcome(s.(db := db, readings := s.readings + 1), Integer(r), 0)
  {
    CounterDispatch(e, s.db, e.clock(s.readings), parts, n);
    ProcessRuns(e, s, parts, id);
    hide Adds, Upper, IncrBy, Itoa, Dispatch;
  }

  lemma GetReply(e: Env, s: State, id: string, get: seq<string>)
    requires Running(s, get, "GET", 2)
    ensures var v := Get(s.db, e.clock(s.readings), get[1]).1;
            Process(e, s, get, id).reply == Bulk(v)
  {
    hide Upper, Itoa, Get;
  }

  // ---------- argument errors ----------

  /** How many parts a command needs, and its complaint when there are fewer. */
  function Needs(command: string): (nat, string) {
    match command
    case "SET" => (3, "-ERR SET requires key and value")
    case "GET" => (2, "-ERR GET requires a key")
    case "DEL" => (2, "-ERR DEL requires a key")
    case "EXISTS" => (2, "-ERR EXISTS requires a key")
    case "TTL" => (2, "-ERR TTL requires a key")
    case "PERSIST" => (2, "-ERR PERSIST requires a key")
    case "APPEND" => (3, "-ERR APPEND requires key and value")
    case "INCR" => (2, "-ERR INCR requires a key")
    case "DECR" => (2, "-ERR DECR requires a key")
    case "INCRBY" => (3, "-ERR INCRBY requires a key and increment value")
    case "DECRBY" => (3, "-ERR DECRBY requires a key and decrement value")
    case _ => (0, "")
  }

  lemma ArgumentErrors(e: Env, s: State, id: string, parts: seq<string>)
    requires !s.multi && parts != [] && |parts| < Needs(Upper(parts[0])).0
    ensures Process(e, s, parts, id).reply == Needs(Upper(parts[0])).1
    ensures Process(e, s, parts, id).state.db == s.db
  {
    DispatchErrors(e, s.db, e.clock(s.readings), parts);
    ProcessRuns(e, s, parts, id);
    hide Upper, Dispatch, Needs;
  }

  lemma DispatchErrors(e: Env, db: Db, now: int, parts: seq<string>)
    requires parts != [] && |parts| < Needs(Upper(parts[0])).0
    ensures Dispatch(e, db, now, parts) == (db, Needs(Upper(parts[0])).1) && !Controls(parts)
  {
    hide Upper;
  }

  lemma NumberErrors(e: Env, s: State, id: string, parts: seq<string>)
    requires !s.multi && |parts| >= 3
    ensures Upper(parts[0]) == "INCRBY" && Atoi(parts[2]).None? ==>
              Process(e, s, parts, id).reply == "-ERR Increment must be an integer"
    ensures Upper(parts[0]) == "DECRBY" && Atoi(parts[2]).None? ==>
              Process(e, s, parts, id).reply == "-ERR Decrement must be an integer"
    ensures Upper(parts[0]) == "SET" && |parts| == 5 && Upper(parts[3]) == "EX" && Atoi(parts[4]).None? ==>
              Process(e, s, parts, id).reply == "-ERR Invalid TTL" && Process(e, s, parts, id).state.db == s.db
  {
    hide Upper, Atoi, Itoa, IncrBy;
  }

  // ---------- the gate ----------

  lemma GateReplies(e: Env, s: State, id: string, parts: seq<string>)
    ensures Process(e, s, [], id).reply == "-ERR Empty command"
    ensures parts != [] && s.multi && Upper(parts[0]) !in {"EXEC", "DISCARD"} ==>
              Process(e, s, parts, id).reply ==
              if id in s.transactions then "+QUEUED\r\n" else "- appendto ERR No transaction started\r\n"
    ensures parts != [] && !s.multi && Upper(parts[0]) == "MULTI" ==>
              Process(e, s, parts, id).reply == "+OK MULTI\r\n"
    ensures parts != [] && Upper(parts[0]) == "DISCARD" ==> Process(e, s, parts, id).reply == "+OK\r\n"
    ensures parts != [] && Upper(parts[0]) == "EXEC" && id !in s.transactions ==>
              Process(e, s, parts, id).reply == "-ERR No transaction started\r\n" && Process(e, s, parts, id).state == s
  {
    hide Upper, Join, Dispatch, RunQueue;
  }

  /** A transaction of a SET and a GET of the key answers both, each line ended. */
  lemma ExecOfTwo(e: Env, s: State, id: string, set_: seq<string>, get: seq<string>)
    requires id in s.transactions && s.transactions[id] == [Join(set_, " "), Join(get, " ")]
    requires Tidy(set_) && Named(set_, "SET", 3) && |set_| != 5
    requires Tidy(get) && Named(get, "GET", 2) && get[1] == set_[1]
    ensures Exec(e, s, id).reply == "+OK" + "\r\n" + Bulk(Some(set_[2])) + "\r\n"
  {
    var t := Discard(s, id);
    FieldsOfJoin(set_);
    FieldsOfJoin(get);
    SetGetReplies(e, t, id, set_, get);
    assert |set_| >= 3;
    hide Upper, Itoa, Fields, Process, RunQueue, Named, Tidy, Bulk, Join;
    ExecReplies(e, s, id, Join(set_, " "), Join(get, " "));
  }

  lemma ExecReplies(e: Env, s: State, id: string, a: string, b: string)
    requires id in s.transactions && s.transactions[id] == [a, b]
    ensures var o := Process(e, Discard(s, id), Fields(a), id);
            Exec(e, s, id).reply == o.reply + "\r\n" + Process(e, o.state, Fields(b), id).reply + "\r\n"
  {
    RunTwo(e, Discard(s, id), id, a, b);
    hide Fields, Process, RunQueue;
    var o := Process(e, Discard(s, id), Fields(a), id);
    JoinTwo(o.reply, Process(e, o.state, Fields(b), id).reply);
  }

  lemma JoinTwo(a: string, b: string)
    ensures Join([a, b], "\r\n") == a + "\r\n" + b
  {
    JoinLast([], a, "\r\n");
    JoinLast([a], b, "\r\n");
    assert [] + [a] == [a] && [a] + [b] == [a, b];
  }

  lemma RunTwo(e: Env, s: State, id: string, a: string, b: string)
    requires CleanAt(s, id)
    ensures var o := Process(e, s, Fields(a), id);
            CleanAt(o.state, id)
            && RunQueue(e, s, [a, b], id).replies == [o.reply, Process(e, o.state, Fields(b), id).reply]
  {
    hide Process, Fields;
    var o := Process(e, s, Fields(a), id);
    assert [a, b][1..] == [b] && [b][1..] == [];
    var p := Process(e, o.state, Fields(b), id);
    assert RunQueue(e, o.state, [b], id).replies == [p.reply] + [];
  }
}
