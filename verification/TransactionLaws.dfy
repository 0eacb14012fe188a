/** Isolation, atomicity and faithfulness of transactions over interleaved runs. */
module TransactionLaws {
  import opened Text
  import opened Transactions

  datatype Event = Event(client: string, parts: seq<string>)

  function RunEvents(e: Env, s: State, events: seq<Event>): State
    decreases events
  {
    if events == [] then s
    else RunEvents(e, Process(e, s, events[0].parts, events[0].client).state, events[1..])
  }

  /** The commands a client sent, in order. */
  function SentBy(events: seq<Event>, id: string): seq<seq<string>> {
    if events == [] then []
    else (if events[0].client == id && events[0].parts != [] then [events[0].parts] else []) + SentBy(events[1..], id)
  }

  function Lines(commands: seq<seq<string>>): (lines: seq<string>)
    ensures |lines| == |commands|
  {
    if commands == [] then [] else [Join(commands[0], " ")] + Lines(commands[1..])
  }

  /** The same commands sent one after the other with no transaction around them. */
  function Direct(e: Env, s: State, commands: seq<seq<string>>, id: string): Batch
    decreases commands
  {
    if commands == [] then Batch(s, [], 0)
    else
      var o := Process(e, s, commands[0], id);
      var rest := Direct(e, o.state, commands[1..], id);
      Batch(rest.state, [o.reply] + rest.replies, if o.depth > rest.depth then o.depth else rest.depth)
  }

  // ---------- while a transaction is open ----------

  lemma LinesOfConcat(a: seq<seq<string>>, b: seq<seq<string>>)
    ensures Lines(a + b) == Lines(a) + Lines(b)
  {
    if a == [] {
      assert a + b == b;
    } else {
      assert (a + b)[1..] == a[1..] + b;
      LinesOfConcat(a[1..], b);
    }
  }

  lemma SentNone(id: string)
    ensures Lines(SentBy([], id)) == []
  {
  }

  lemma SentLines(events: seq<Event>, id: string)
    requires events != []
    ensures Lines(SentBy(events, id)) ==
            (if events[0].client == id && events[0].parts != [] then [Join(events[0].parts, " ")] else [])
            + Lines(SentBy(events[1..], id))
  {
    var first := if events[0].client == id && events[0].parts != [] then [events[0].parts] else [];
    LinesOfConcat(first, SentBy(events[1..], id));
    assert Lines(first) == if first == [] then [] else [Join(events[0].parts, " ")];
  }

  /** Neither a DISCARD nor an EXEC by a client holding a queue. */
  predicate Quiet(s: State, parts: seq<string>, id: string) {
    Command(parts) != "DISCARD" && (IsExec(parts) ==> id !in s.transactions)
  }

  /** The gate, while the flag is up: a client with a queue gets its line queued, others an error. */
  lemma GateQueues(e: Env, s: State, id: string, parts: seq<string>)
    requires s.multi && Quiet(s, parts, id)
    ensures Process(e, s, parts, id).state ==
            if id in s.transactions && parts != []
            then s.(transactions := s.transactions[id := s.transactions[id] + [Join(parts, " ")]])
            else s
  {
  }

  /** Whatever the clients send, short of DISCARD and of EXEC by a client with a queue, the data
      stays frozen and the owner's queue grows by exactly the lines the owner sent. */
  lemma {:induction false} OpenTransactionFreezes(e: Env, s: State, id: string, events: seq<Event>)
    requires s.multi && id in s.transactions
    requires forall k | 0 <= k < |events| :: Quiet(s, events[k].parts, events[k].client)
    ensures var s' := RunEvents(e, s, events);
            && s'.db == s.db && s'.readings == s.readings && s'.multi
            && s'.transactions.Keys == s.transactions.Keys
            && s'.transactions[id] == s.transactions[id] + Lines(SentBy(events, id))
    decreases events
  {
    hide Process, Command, Join, Lines, SentBy;
    SentNone(id);
    if events != [] {
      var s1 := Process(e, s, events[0].parts, events[0].client).state;
      assert Quiet(s, events[0].parts, events[0].client);
      GateQueues(e, s, events[0].client, events[0].parts);
      assert s1.transactions.Keys == s.transactions.Keys;
      OpenTransactionFreezes(e, s1, id, events[1..]);
      SentLines(events, id);
    }
  }

  // ---------- when the gate survives ----------

  lemma {:induction false} QuietKeepsFlag(e: Env, s: State, events: seq<Event>)
    requires s.multi && forall k | 0 <= k < |events| :: Quiet(s, events[k].parts, events[k].client)
    ensures var s' := RunEvents(e, s, events); s'.multi && s'.transactions.Keys == s.transactions.Keys
    decreases events
  {
    hide Process, Command, Join;
    if events != [] {
      assert Quiet(s, events[0].parts, events[0].client);
      GateQueues(e, s, events[0].client, events[0].parts);
      QuietKeepsFlag(e, Process(e, s, events[0].parts, events[0].client).state, events[1..]);
    }
  }

  lemma {:induction false} RunEventsLast(e: Env, s: State, events: seq<Event>, event: Event)
    ensures RunEvents(e, s, events + [event]) ==
            Process(e, RunEvents(e, s, events), event.parts, event.client).state
    decreases events
  {
    hide Process;
    if events == [] {
      assert [event][1..] == [];
      assert RunEvents(e, s, [event]) == RunEvents(e, Process(e, s, event.parts, event.client).state, []);
      assert events + [event] == [event];
    } else {
      assert (events + [event])[1..] == events[1..] + [event];
      RunEventsLast(e, Process(e, s, events[0].parts, events[0].client).state, events[1..], event);
    }
  }

  /** As long as no client with a queue sends EXEC, the flag stays up throughout a run if and
      only if nobody, owner or not, sends DISCARD. */
  lemma GateSurvivesIff(e: Env, s: State, events: seq<Event>)
    requires s.multi
    requires forall k | 0 <= k < |events| :: IsExec(events[k].parts) ==> events[k].client !in s.transactions
    ensures (forall n | 0 <= n <= |events| :: RunEvents(e, s, events[..n]).multi)
            <==> forall k | 0 <= k < |events| :: Command(events[k].parts) != "DISCARD"
  {
    hide Process, Command, RunEvents, IsExec;
    if k :| 0 <= k < |events| && Command(events[k].parts) == "DISCARD" {
      RunEventsLast(e, s, events[..k], events[k]);
      DiscardLowers(e, RunEvents(e, s, events[..k]), events[k].parts, events[k].client);
      assert events[..k + 1] == events[..k] + [events[k]];
    } else {
      forall n | 0 <= n <= |events|
        ensures RunEvents(e, s, events[..n]).multi
      {
        QuietKeepsFlag(e, s, events[..n]);
      }
    }
  }

  lemma DiscardLowers(e: Env, s: State, discard: seq<string>, id: string)
    requires Command(discard) == "DISCARD"
    ensures Process(e, s, discard, id).state == Discard(s, id)
  {
  }

  // ---------- EXEC ----------

  predicate AllTidy(commands: seq<seq<string>>) {
    forall k | 0 <= k < |commands| :: Tidy(commands[k])
  }

  /** Running the queued lines is sending the commands one by one, whatever they are. */
  lemma {:induction false} RunQueueIsDirect(e: Env, s: State, commands: seq<seq<string>>, id: string)
    requires CleanAt(s, id) && AllTidy(commands)
    ensures RunQueue(e, s, Lines(commands), id) == Direct(e, s, commands, id)
    decreases commands
  {
    hide Process, Fields, Tidy, CleanAt;
    if commands != [] {
      assert Tidy(commands[0]);
      FieldsOfJoin(commands[0]);
      RunQueueIsDirect(e, Process(e, s, commands[0], id).state, commands[1..], id);
    }
  }

  /** What a client's commands other than EXEC and DISCARD can see of a state. */
  predicate LooksAlike(s: State, t: State, id: string) {
    && s.db == t.db && s.readings == t.readings && s.multi == t.multi
    && (s.multi ==> id in s.transactions && id in t.transactions && s.transactions[id] == t.transactions[id])
  }

  lemma ProcessAlike(e: Env, s: State, t: State, parts: seq<string>, id: string)
    requires LooksAlike(s, t, id) && !Ends(parts)
    ensures var a, b := Process(e, s, parts, id), Process(e, t, parts, id);
            && a.reply == b.reply && LooksAlike(a.state, b.state, id)
            && (!a.state.multi ==> !s.multi && a.state.transactions == s.transactions)
            && (!s.multi && Command(parts) != "MULTI" ==> !a.state.multi)
  {
    hide Dispatch, Upper, Join;
  }

  lemma {:induction false} DirectAlike(e: Env, s: State, t: State, commands: seq<seq<string>>, id: string)
    requires LooksAlike(s, t, id) && forall k | 0 <= k < |commands| :: !Ends(commands[k])
    ensures var a, b := Direct(e, s, commands, id), Direct(e, t, commands, id);
            && a.replies == b.replies && LooksAlike(a.state, b.state, id)
            && a.state.transactions - {id} == s.transactions - {id}
            && (!a.state.multi ==> !s.multi && a.state.transactions == s.transactions)
            && (!s.multi && (forall k | 0 <= k < |commands| :: Command(commands[k]) != "MULTI") ==> !a.state.multi)
    decreases commands
  {
    hide Process, Ends, Command, LooksAlike;
    if commands != [] {
      ProcessAlike(e, s, t, commands[0], id);
      DirectAlike(e, Process(e, s, commands[0], id).state, Process(e, t, commands[0], id).state, commands[1..], id);
    }
  }

  lemma {:induction false} SentNoEnds(s: State, events: seq<Event>, id: string)
    requires id in s.transactions
    requires forall k | 0 <= k < |events| :: Quiet(s, events[k].parts, events[k].client)
    ensures forall k | 0 <= k < |SentBy(events, id)| :: !Ends(SentBy(events, id)[k])
  {
    hide Command;
    if events != [] {
      SentNoEnds(s, events[1..], id);
      assert Quiet(s, events[0].parts, events[0].client);
    }
  }

  /** From MULTI by a client to that client's EXEC, with any commands in between but DISCARD and
      EXEC by a client with a queue, nothing changes. EXEC then leaves the data, the flag and, while
      that is up, the client's queue as if the client's commands had been sent directly, in order,
      at the start, and answers with their replies. */
  lemma ExecRefinesDirect(e: Env, s: State, id: string, multi: seq<string>, exec: seq<string>, events: seq<Event>)
    requires !s.multi && Command(multi) == "MULTI" && Command(exec) == "EXEC"
    requires forall k | 0 <= k < |events| :: Quiet(Multi(s, id), events[k].parts, events[k].client)
    requires AllTidy(SentBy(events, id))
    ensures var before := RunEvents(e, Process(e, s, multi, id).state, events);
            var run := Process(e, before, exec, id);
            var direct := Direct(e, s, SentBy(events, id), id);
            && before.db == s.db && before.readings == s.readings
            && LooksAlike(run.state, direct.state, id)
            && run.reply == Join(direct.replies, "\r\n") + "\r\n"
            && run.state.transactions - {id} == before.transactions - {id}
            && (id in run.state.transactions <==> run.state.multi)
    ensures (forall k | 0 <= k < |SentBy(events, id)| :: Command(SentBy(events, id)[k]) != "MULTI")
            ==> !Process(e, RunEvents(e, Process(e, s, multi, id).state, events), exec, id).state.multi
  {
    var begun := Process(e, s, multi, id).state;
    OpenTransactionFreezes(e, begun, id, events);
    SentNoEnds(begun, events, id);
    var before := RunEvents(e, begun, events);
    var commands := SentBy(events, id);
    assert before.transactions[id] == Lines(commands);
    ExecRuns(e, before, exec, commands, id);
    hide Process, RunEvents, SentBy, Direct, Ends, Lines;
    DirectAlike(e, Discard(before, id), s, commands, id);
  }

  lemma ExecRuns(e: Env, s: State, exec: seq<string>, commands: seq<seq<string>>, id: string)
    requires s.multi && Command(exec) == "EXEC" && AllTidy(commands)
    requires id in s.transactions && s.transactions[id] == Lines(commands)
    ensures var run, direct := Process(e, s, exec, id), Direct(e, Discard(s, id), commands, id);
            run.state == direct.state && run.reply == Join(direct.replies, CRLF) + CRLF
  {
    RunQueueIsDirect(e, Discard(s, id), commands, id);
  }

  // ---------- re-tokenising a queued command ----------

  /** A queued command is run again as it was sent if and only if its parts are words. */
  lemma RequeueFaithfulIff(e: Env, s: State, id: string, parts: seq<string>)
    requires s.multi && id in s.transactions && parts != [] && !Ends(parts)
    ensures var queue := Process(e, s, parts, id).state.transactions[id];
            queue != [] && (Fields(queue[|queue| - 1]) == parts <==> Tidy(parts))
  {
    FieldsOfJoinIff(parts);
  }

  // ---------- nesting ----------

  /** Running MULTI and then an EXEC-headed line, from a state without the client's queue. */
  lemma InnerExec(e: Env, s: State, id: string, first: string, second: string)
    requires !s.multi && id !in s.transactions
    requires Command(Fields(first)) == "MULTI" && Command(Fields(second)) == "EXEC"
    ensures RunQueue(e, s, [first, second], id).depth >= 1
  {
    hide Dispatch, Upper, Fields;
    var s1 := Process(e, s, Fields(first), id).state;
    assert s1 == Multi(s, id);
    assert Process(e, s1, Fields(second), id).depth == 1;
    assert [first, second][1..] == [second];
    assert RunQueue(e, s1, [second], id).depth >= 1;
  }

  /** Two is reached through every command that passes the gate but splits into one headed by
      EXEC, when a MULTI is queued before it. */
  lemma NestingReachesTwo(e: Env, s: State, id: string, multi: seq<string>, padded: seq<string>, exec: seq<string>)
    requires !s.multi && Command(multi) == "MULTI" && Tidy(multi) && Command(exec) == "EXEC"
    requires padded != [] && !Ends(padded) && IsExec(Fields(Join(padded, " ")))
    ensures var s1 := Process(e, s, multi, id).state;
            var s2 := Process(e, s1, multi, id).state;
            var s3 := Process(e, s2, padded, id).state;
            Process(e, s3, exec, id).depth == 2
  {
    hide Dispatch, Upper, Fields, RunQueue, Join, Rank;
    FieldsOfJoin(multi);
    var s1 := Process(e, s, multi, id).state;
    GateQueues(e, s1, id, multi);
    var s2 := Process(e, s1, multi, id).state;
    GateQueues(e, s2, id, padded);
    var s3 := Process(e, s2, padded, id).state;
    assert s3.transactions[id] == [Join(multi, " "), Join(padded, " ")];
    InnerExec(e, Discard(s3, id), id, Join(multi, " "), Join(padded, " "));
    assert Process(e, s3, exec, id).depth <= 2;
  }

  /** Such a command: the quoted part " EXEC". */
  lemma PaddedExec()
    ensures !Ends([" EXEC"]) && IsExec(Fields(Join([" EXEC"], " ")))
  {
    FieldsOfJoin(["EXEC"]);
    assert " EXEC"[1..] == "EXEC";
    assert Upper("EXEC") == "EXEC" && Upper(" EXEC") == " EXEC";
  }

  // ---------- one flag for all clients ----------

  /** DISCARD by any client drops the flag for all: the owner's next command runs at once, on the
      spot, while the queue it meant to join is left behind. */
  lemma DiscardByAnother(e: Env, s: State, id: string, other: string, discard: seq<string>, parts: seq<string>)
    requires s.multi && id in s.transactions && id != other && parts != [] && !Controls(parts)
    requires Command(discard) == "DISCARD"
    ensures var s1 := Process(e, s, discard, other).state;
            var o := Process(e, s1, parts, id);
            && o.state.transactions[id] == s.transactions[id]
            && (o.state.db, o.reply) == Dispatch(e, s.db, e.clock(s.readings), parts)
  {
    hide Dispatch, Upper;
  }
}
