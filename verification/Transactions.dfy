/** MULTI, EXEC and DISCARD as ProcessCommand dispatches them, on values. */
module Transactions {
  import opened Results
  import opened Text
  import opened Keys

  const CRLF := "\r\n"

  /** What the server cannot see: the clock's successive readings, and every case of the command
      switch that is not written out below, as an arbitrary function. */
  datatype Env = Env(clock: nat -> int, other: (Db, seq<string>) -> (Db, string))

  datatype State = State(db: Db, transactions: map<string, seq<string>>, multi: bool, readings: nat)

  /** depth counts how deep queues were being run while the command was processed. */
  datatype Outcome = Outcome(state: State, reply: string, depth: nat)

  datatype Batch = Batch(state: State, replies: seq<string>, depth: nat)

  // ---------- the command switch ----------

  function Command(parts: seq<string>): string {
    if parts == [] then "" else Upper(parts[0])
  }

  predicate IsExec(parts: seq<string>) {
    Command(parts) == "EXEC"
  }

  /** The commands the gate lets through while a transaction is open. */
  predicate Ends(parts: seq<string>) {
    Command(parts) == "EXEC" || Command(parts) == "DISCARD"
  }

  predicate Controls(parts: seq<string>) {
    Ends(parts) || Command(parts) == "MULTI"
  }

  function IncrReply(r: (Db, Option<int>)): (Db, string) {
    (r.0, if r.1.Some? then ":" + Itoa(r.1.value) else "-ERR value is not an integer")
  }

  function IncrByText(db: Db, key: string, text: string, sign: int, error: string): (Db, string) {
    match Atoi(text)
    case None => (db, error)
    case Some(n) => IncrReply(IncrBy(db, key, Wrap(sign * n)))
  }

  /** The cases of the switch that read or change string keys. */
  function Dispatch(e: Env, db: Db, now: int, parts: seq<string>): (Db, string)
    requires parts != []
  {
    var n, command := |parts|, Command(parts);
    if command == "SET" then
      if n < 3 then (db, "-ERR SET requires key and value")
      else if n == 5 && Upper(parts[3]) == "EX" then
        match Atoi(parts[4])
        case None => (db, "-ERR Invalid TTL")
        case Some(secs) => (Set(db, now, parts[1], parts[2], Wrap(secs * SECOND)), "+OK")
      else (Set(db, now, parts[1], parts[2], 0), "+OK")
    else if command == "GET" then
      if n < 2 then (db, "-ERR GET requires a key")
      else
        var (db', v) := Get(db, now, parts[1]);
        (db', if v.Some? then "$" + Itoa(|v.value|) + CRLF + v.value else "$-1")
    else if command == "DEL" then
      if n < 2 then (db, "-ERR DEL requires a key")
      else var (db', found) := Del(db, parts[1]); (db', if found then ":1" else ":0")
    else if command == "EXISTS" then
      if n < 2 then (db, "-ERR EXISTS requires a key")
      else (db, if parts[1] in db.store then ":1" else ":0")
    else if command == "TTL" then
      if n < 2 then (db, "-ERR TTL requires a key") else (db, Itoa(Ttl(db, now, parts[1])))
    else if command == "PERSIST" then
      if n < 2 then (db, "-ERR PERSIST requires a key")
      else var (db', r) := Persist(db, parts[1]); (db', Itoa(r))
    else if command == "APPEND" then
      if n < 3 then (db, "-ERR APPEND requires key and value")
      else var (db', r) := Append(db, parts[1], parts[2]); (db', ":" + Itoa(r))
    else if command == "INCR" then
      if n < 2 then (db, "-ERR INCR requires a key") else IncrReply(IncrBy(db, parts[1], 1))
    else if command == "DECR" then
      if n < 2 then (db, "-ERR DECR requires a key") else IncrReply(IncrBy(db, parts[1], -1))
    else if command == "INCRBY" then
      if n < 3 then (db, "-ERR INCRBY requires a key and increment value")
      else IncrByText(db, parts[1], parts[2], 1, "-ERR Increment must be an integer")
    else if command == "DECRBY" then
      if n < 3 then (db, "-ERR DECRBY requires a key and decrement value")
      else IncrByText(db, parts[1], parts[2], -1, "-ERR Decrement must be an integer")
    else e.other(db, parts)
  }

  // ---------- the gate, EXEC and the recursion between them ----------

  /** No queued command splits into fields headed by EXEC. */
  predicate Clean(queue: seq<string>) {
    forall k | 0 <= k < |queue| :: !IsExec(Fields(queue[k]))
  }

  /** No queued command splits into fields headed by MULTI. */
  predicate NoMulti(queue: seq<string>) {
    forall k | 0 <= k < |queue| :: Command(Fields(queue[k])) != "MULTI"
  }

  predicate CleanAt(s: State, id: string) {
    id in s.transactions ==> Clean(s.transactions[id])
  }

  /** The global flag is up only while some client has a queue. */
  predicate FlagBacked(s: State) {
    s.multi ==> s.transactions.Keys != {}
  }

  /** Bounds the work left: what each caller below hands on has a smaller rank. */
  function Rank(s: State, id: string): nat {
    if CleanAt(s, id) then 2 else 4
  }

  function AppendTo(s: State, id: string, command: string): (State, string) {
    if id !in s.transactions then (s, "- appendto ERR No transaction started\r\n")
    else (s.(transactions := s.transactions[id := s.transactions[id] + [command]]), "+QUEUED\r\n")
  }

  function Multi(s: State, id: string): State {
    s.(transactions := s.transactions[id := []], multi := true)
  }

  function Discard(s: State, id: string): State {
    s.(transactions := s.transactions - {id}, multi := false)
  }

  function Process(e: Env, s: State, parts: seq<string>, id: string): (r: Outcome)
    ensures FlagBacked(s) ==> FlagBacked(r.state)
    ensures Tidy(parts) && CleanAt(s, id) ==> CleanAt(r.state, id)
    ensures r.state.transactions - {id} == s.transactions - {id}
    ensures id !in s.transactions && Command(parts) != "MULTI" ==> id !in r.state.transactions
    ensures r.depth <= if !IsExec(parts) then 0 else if CleanAt(s, id) then 1 else 2
    decreases if IsExec(parts) then Rank(s, id) else 0, 2, 0
  {
    if parts == [] then Outcome(s, "-ERR Empty command", 0)
    else if s.multi && !Ends(parts) then
      FieldsOfJoinIff(parts);
      var (s', reply) := AppendTo(s, id, Join(parts, " "));
      Outcome(s', reply, 0)
    else if Command(parts) == "MULTI" then Outcome(Multi(s, id), "+OK MULTI\r\n", 0)
    else if IsExec(parts) then Exec(e, s, id)
    else if Command(parts) == "DISCARD" then Outcome(Discard(s, id), "+OK\r\n", 0)
    else
      var (db', reply) := Dispatch(e, s.db, e.clock(s.readings), parts);
      Outcome(s.(db := db', readings := s.readings + 1), reply, 0)
  }

  function Exec(e: Env, s: State, id: string): (r: Outcome)
    ensures FlagBacked(s) ==> FlagBacked(r.state)
    ensures CleanAt(r.state, id)
    ensures r.state.transactions - {id} == s.transactions - {id}
    ensures (id in s.transactions ==> NoMulti(s.transactions[id])) ==> id !in r.state.transactions
    ensures r.depth <= if CleanAt(s, id) then 1 else 2
    decreases Rank(s, id), 1, 0
  {
    if id !in s.transactions then Outcome(s, "-ERR No transaction started\r\n", 0)
    else
      var b := RunQueue(e, Discard(s, id), s.transactions[id], id);
      Outcome(b.state, Join(b.replies, CRLF) + CRLF, 1 + b.depth)
  }

  /** EXEC's loop over its copy of the queue, each command split into fields again. */
  function RunQueue(e: Env, s: State, queue: seq<string>, id: string): (r: Batch)
    requires CleanAt(s, id)
    ensures FlagBacked(s) ==> FlagBacked(r.state)
    ensures CleanAt(r.state, id) && |r.replies| == |queue|
    ensures r.state.transactions - {id} == s.transactions - {id}
    ensures id !in s.transactions && NoMulti(queue) ==> id !in r.state.transactions
    ensures r.depth <= if Clean(queue) then 0 else 1
    decreases if Clean(queue) then 1 else 3, 0, |queue|
  {
    if queue == [] then Batch(s, [], 0)
    else
      var o := Process(e, s, Fields(queue[0]), id);
      var rest := RunQueue(e, o.state, queue[1..], id);
      Batch(rest.state, [o.reply] + rest.replies, if o.depth > rest.depth then o.depth else rest.depth)
  }
}
