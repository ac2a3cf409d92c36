/**
  What the proxy loop promises, stated over the traces of the model in
  SqsProxy: the shape of one retried call, the per-message policy (deliver
  only a truthy body that describes a request, then exactly one delete call,
  whatever became of the delivery), the order of a batch, and the fatal exits.
*/
module ProxyProperties {
  import opened Retrying
  import opened SqsProxy

  // ---------------------------------------------------------------------------
  // Observations on traces

  predicate IsDeliver(e: Event)
  {
    e.Attempted? && e.op.DeliverOp?
  }

  predicate IsDelete(e: Event)
  {
    e.Attempted? && e.op.DeleteOp?
  }

  /** The number of POSTs to Sentry. */
  function Deliveries(t: seq<Event>): nat
  {
    if |t| == 0 then 0 else (if IsDeliver(t[0]) then 1 else 0) + Deliveries(t[1..])
  }

  /** The receipts of the delete_message calls, in order (a call is its first
      attempt). */
  function DeleteCalls(t: seq<Event>): seq<string>
  {
    if |t| == 0 then []
    else (if IsDelete(t[0]) && t[0].attempt == 1 then [t[0].op.receipt] else []) + DeleteCalls(t[1..])
  }

  /** A receive_messages call is its first attempt. */
  predicate IsReceiveCall(e: Event)
  {
    e.Attempted? && e.op.ReceiveOp? && e.attempt == 1
  }

  /** The number of receive_messages calls. */
  function ReceiveCalls(t: seq<Event>): nat
  {
    if |t| == 0 then 0 else (if IsReceiveCall(t[0]) then 1 else 0) + ReceiveCalls(t[1..])
  }

  function Receipts(msgs: seq<Message>): seq<string>
  {
    if |msgs| == 0 then [] else [msgs[0].receipt] + Receipts(msgs[1..])
  }

  predicate NoTerminal(t: seq<Event>)
  {
    forall k | 0 <= k < |t| :: !IsTerminal(t[k])
  }

  /** An exit or an escaping exception can only be the last event. */
  predicate TerminalOnlyLast(t: seq<Event>)
  {
    forall k | 0 <= k < |t| - 1 :: !IsTerminal(t[k])
  }

  predicate EndsTerminal(t: seq<Event>)
  {
    |t| > 0 && IsTerminal(t[|t| - 1])
  }

  /** A step ends the process exactly when its last event is terminal. */
  predicate WellFormed(s: Step)
  {
    TerminalOnlyLast(s.events) && (s.stop <==> EndsTerminal(s.events))
  }

  /** No POST follows a delete attempt. */
  predicate DeliversBeforeDeletes(t: seq<Event>)
  {
    forall i, j | 0 <= i < j < |t| && IsDelete(t[i]) :: !IsDeliver(t[j])
  }

  // ---------------------------------------------------------------------------
  // Trace algebra

  lemma {:induction false} DeliveriesAppend(a: seq<Event>, b: seq<Event>)
    ensures Deliveries(a + b) == Deliveries(a) + Deliveries(b)
  {
    if |a| == 0 {
      assert a + b == b;
    } else {
      assert (a + b)[0] == a[0];
      assert (a + b)[1..] == a[1..] + b;
      DeliveriesAppend(a[1..], b);
    }
  }

  lemma {:induction false} DeleteCallsAppend(a: seq<Event>, b: seq<Event>)
    ensures DeleteCalls(a + b) == DeleteCalls(a) + DeleteCalls(b)
  {
    if |a| == 0 {
      assert a + b == b;
    } else {
      assert (a + b)[0] == a[0];
      assert (a + b)[1..] == a[1..] + b;
      DeleteCallsAppend(a[1..], b);
      assert DeleteCalls(a + b) == DeleteCalls([a[0]]) + (DeleteCalls(a[1..]) + DeleteCalls(b));
    }
  }

  lemma {:induction false} ReceiveCallsAppend(a: seq<Event>, b: seq<Event>)
    ensures ReceiveCalls(a + b) == ReceiveCalls(a) + ReceiveCalls(b)
  {
    if |a| == 0 {
      assert a + b == b;
    } else {
      assert (a + b)[0] == a[0];
      assert (a + b)[1..] == a[1..] + b;
      ReceiveCallsAppend(a[1..], b);
    }
  }

  /** Events without a delete call in front of a trace leave its delete calls
      as they are. */
  lemma DeleteCallsAfterNone(a: seq<Event>, b: seq<Event>)
    requires |DeleteCalls(a)| == 0
    ensures DeleteCalls(a + b) == DeleteCalls(b)
  {
    DeleteCallsAppend(a, b);
    assert DeleteCalls(a) + DeleteCalls(b) == DeleteCalls(b);
  }

  lemma ConcatShape(a: seq<Event>, b: seq<Event>)
    requires NoTerminal(a) && TerminalOnlyLast(b)
    ensures TerminalOnlyLast(a + b)
    ensures EndsTerminal(a + b) <==> EndsTerminal(b)
  {
    if b != [] {
      assert (a + b)[|a + b| - 1] == b[|b| - 1];
    }
    forall k | 0 <= k < |a + b| - 1 ensures !IsTerminal((a + b)[k]) {
      if k >= |a| {
        assert (a + b)[k] == b[k - |a|];
      }
    }
  }

  /** A trace whose only possible terminal event is the last one, and whose
      last one is not terminal, has none. */
  lemma NoTerminalBeforeEnd(t: seq<Event>)
    requires TerminalOnlyLast(t) && !EndsTerminal(t)
    ensures NoTerminal(t)
  {
  }

  lemma OrderedConcat(a: seq<Event>, b: seq<Event>)
    requires forall k | 0 <= k < |a| :: !IsDelete(a[k])
    requires forall k | 0 <= k < |b| :: !IsDeliver(b[k])
    ensures DeliversBeforeDeletes(a + b)
  {
    assert forall k | 0 <= k < |a| :: (a + b)[k] == a[k];
    assert forall k | |a| <= k < |a + b| :: (a + b)[k] == b[k - |a|];
  }

  lemma DeliveriesCarry(a: seq<Event>, b: seq<Event>, request: Request)
    requires forall k | 0 <= k < |a| :: IsDeliver(a[k]) ==> a[k].op.request == request
    requires forall k | 0 <= k < |b| :: !IsDeliver(b[k])
    ensures forall k | 0 <= k < |a + b| && IsDeliver((a + b)[k]) :: (a + b)[k].op.request == request
  {
    assert forall k | 0 <= k < |a| :: (a + b)[k] == a[k];
    assert forall k | |a| <= k < |a + b| :: (a + b)[k] == b[k - |a|];
  }

  // ---------------------------------------------------------------------------
  // One retried call

  lemma {:induction false} AttemptsFromAt(op: Op, k: nat, n: nat)
    requires 1 <= k <= n
    ensures |AttemptsFrom(op, k, n)| == 2 * (n - k) + 1
    ensures forall j | 0 <= j < |AttemptsFrom(op, k, n)| ::
              AttemptsFrom(op, k, n)[j] == if j % 2 == 0 then Attempted(op, k + j / 2) else Slept(WaitFixedMs)
    decreases n - k
  {
    if k < n {
      AttemptsFromAt(op, k + 1, n);
      var t, u := AttemptsFrom(op, k, n), AttemptsFrom(op, k + 1, n);
      forall j | 0 <= j < |t| ensures t[j] == if j % 2 == 0 then Attempted(op, k + j / 2) else Slept(WaitFixedMs) {
        if j >= 2 {
          assert t[j] == u[j - 2];
          assert (j - 2) % 2 == j % 2 && (j - 2) / 2 == j / 2 - 1;
        }
      }
    }
  }

  /** A call of n attempts is attempt 1, then for each further attempt a
      wait of WaitFixedMs followed by that attempt: n attempts, n - 1 waits. */
  lemma CallEventsAt(op: Op, n: nat)
    requires 1 <= n
    ensures |CallEvents(op, n)| == 2 * n - 1
    ensures forall k | 0 <= k < |CallEvents(op, n)| ::
              CallEvents(op, n)[k] == if k % 2 == 0 then Attempted(op, k / 2 + 1) else Slept(WaitFixedMs)
  {
    AttemptsFromAt(op, 1, n);
  }

  lemma {:induction false} AttemptsFromCounts(op: Op, k: nat, n: nat)
    requires 1 <= k <= n
    ensures Deliveries(AttemptsFrom(op, k, n)) == if op.DeliverOp? then n - k + 1 else 0
    ensures DeleteCalls(AttemptsFrom(op, k, n)) == if op.DeleteOp? && k == 1 then [op.receipt] else []
    ensures ReceiveCalls(AttemptsFrom(op, k, n)) == if op.ReceiveOp? && k == 1 then 1 else 0
    ensures forall j | 0 <= j < |AttemptsFrom(op, k, n)| ::
              !IsTerminal(AttemptsFrom(op, k, n)[j]) &&
              (AttemptsFrom(op, k, n)[j].Attempted? ==> AttemptsFrom(op, k, n)[j].op == op)
    decreases n - k
  {
    var head := Attempted(op, k);
    assert [head][1..] == [];
    if k == n {
      assert AttemptsFrom(op, k, n) == [head];
    } else {
      var u := AttemptsFrom(op, k + 1, n);
      AttemptsFromCounts(op, k + 1, n);
      DeliveriesAppend([head, Slept(WaitFixedMs)], u);
      DeleteCallsAppend([head, Slept(WaitFixedMs)], u);
      ReceiveCallsAppend([head, Slept(WaitFixedMs)], u);
      assert [head, Slept(WaitFixedMs)][1..] == [Slept(WaitFixedMs)];
      assert [Slept(WaitFixedMs)][1..] == [];
      forall j | 0 <= j < |AttemptsFrom(op, k, n)|
        ensures !IsTerminal(AttemptsFrom(op, k, n)[j]) &&
                (AttemptsFrom(op, k, n)[j].Attempted? ==> AttemptsFrom(op, k, n)[j].op == op)
      {
        if j >= 2 {
          assert AttemptsFrom(op, k, n)[j] == u[j - 2];
        }
      }
    }
  }

  /** What one retried call contributes: its POSTs, its one delete call, its
      one receive call; nothing terminal, and only the call's own attempts. */
  lemma CallEventsCounts(op: Op, n: nat)
    requires 1 <= n
    ensures Deliveries(CallEvents(op, n)) == if op.DeliverOp? then n else 0
    ensures DeleteCalls(CallEvents(op, n)) == if op.DeleteOp? then [op.receipt] else []
    ensures ReceiveCalls(CallEvents(op, n)) == if op.ReceiveOp? then 1 else 0
    ensures NoTerminal(CallEvents(op, n))
    ensures forall j | 0 <= j < |CallEvents(op, n)| :: CallEvents(op, n)[j].Attempted? ==> CallEvents(op, n)[j].op == op
  {
    AttemptsFromCounts(op, 1, n);
  }

  // ---------------------------------------------------------------------------
  // One message

  /** The delete step: one delete call for the receipt, no POST, and the
      process ends exactly when delete_message gave up, with sys.exit(-1). */
  lemma DeleteStepFacts(env: Env, receipt: string, cur: Cursor)
    ensures var d := DeleteStep(env, receipt, cur);
      && WellFormed(d)
      && Deliveries(d.events) == 0
      && DeleteCalls(d.events) == [receipt]
      && ReceiveCalls(d.events) == 0
      && (forall k | 0 <= k < |d.events| :: !IsDeliver(d.events[k]))
      && (d.stop <==> DeleteMessage(env, cur.deletes).outcome.RetryError?)
      && (d.stop ==> d.events[|d.events| - 1] == Exited(FatalExitCode))
      && d.cur.posts == cur.posts && d.cur.receives == cur.receives
  {
    var c := DeleteMessage(env, cur.deletes);
    var calls := CallEvents(DeleteOp(receipt), c.attempts);
    CallEventsCounts(DeleteOp(receipt), c.attempts);
    if c.outcome.RetryError? {
      var exit := [Exited(FatalExitCode)];
      DeliveriesAppend(calls, exit);
      DeleteCallsAppend(calls, exit);
      ReceiveCallsAppend(calls, exit);
      ConcatShape(calls, exit);
    }
  }

  /** A body json.loads raises on (other than JSONDecodeError), or a truthy
      body that does not describe a request: the exception escapes before
      anything is sent or deleted. */
  lemma EscapingMessage(env: Env, m: Message, cur: Cursor)
    requires Escapes(env, m)
    ensures HandleMessage(env, m, cur) == Step([Escaped(EscapeError(env, m))], cur, true)
  {
  }

  /** A body that is not delivered goes straight to the delete step. */
  lemma SkippedMessage(env: Env, m: Message, cur: Cursor)
    requires Skips(env, m)
    ensures var s := HandleMessage(env, m, cur);
      && WellFormed(s)
      && ReceiveCalls(s.events) == 0
      && DeliversBeforeDeletes(s.events)
      && DeleteCalls(s.events) == [m.receipt]
      && (s.stop <==> DeleteMessage(env, cur.deletes).outcome.RetryError?)
      && Deliveries(s.events) == 0
  {
    var s := DeleteStep(env, m.receipt, cur);
    assert HandleMessage(env, m, cur) == s;
    DeleteStepFacts(env, m.receipt, cur);
    OrderedConcat([], s.events);
    assert [] + s.events == s.events;
  }

  /** A delivered body: send_to_sentry's attempts, all with the request read
      from the body, then the delete step, which starts at the same delete
      cursor whatever the delivery outcome. */
  lemma DeliveredMessage(env: Env, m: Message, cur: Cursor)
    requires Deliverable(env, m)
    ensures var s := HandleMessage(env, m, cur);
      && WellFormed(s)
      && ReceiveCalls(s.events) == 0
      && DeliversBeforeDeletes(s.events)
      && DeleteCalls(s.events) == [m.receipt]
      && (s.stop <==> DeleteMessage(env, cur.deletes).outcome.RetryError?)
      && Deliveries(s.events) == SendToSentry(env, cur.posts).attempts
      && (forall k | 0 <= k < |s.events| && IsDeliver(s.events[k]) ::
            s.events[k].op.request == ExtractRequest(env.loads(m.body).json, env.b64decode).request)
  {
    var request := ExtractRequest(env.loads(m.body).json, env.b64decode).request;
    var sent := SendToSentry(env, cur.posts);
    var next := cur.(posts := cur.posts + sent.attempts);
    var calls := CallEvents(DeliverOp(request), sent.attempts);
    var d := DeleteStep(env, m.receipt, next);
    var s := Step(calls + d.events, d.cur, d.stop);
    assert HandleMessage(env, m, cur) == s;
    CallEventsCounts(DeliverOp(request), sent.attempts);
    DeleteStepFacts(env, m.receipt, next);
    DeliveriesAppend(calls, d.events);
    DeleteCallsAfterNone(calls, d.events);
    ReceiveCallsAppend(calls, d.events);
    ConcatShape(calls, d.events);
    OrderedConcat(calls, d.events);
    DeliveriesCarry(calls, d.events, request);
  }

  /** The per-message policy of sqs_loop.
      A body json.loads raises on (other than JSONDecodeError), or a truthy
      body that does not describe a request, raises out of the loop (no POST,
      no delete). Otherwise the message gets exactly one delete
      call; it is POSTed 1 to 5 times, with the request read from the body,
      exactly when the body is truthy, and never after a delete attempt; and
      the process ends exactly when delete_message gave up, whatever became of
      the delivery. */
  lemma MessagePolicy(env: Env, m: Message, cur: Cursor)
    ensures var s := HandleMessage(env, m, cur);
      && WellFormed(s)
      && ReceiveCalls(s.events) == 0
      && DeliversBeforeDeletes(s.events)
      && (Escapes(env, m) ==>
            s.events == [Escaped(EscapeError(env, m))] && s.stop && s.cur == cur)
      && (!Escapes(env, m) ==> DeleteCalls(s.events) == [m.receipt])
      && (!Escapes(env, m) ==> (s.stop <==> DeleteMessage(env, cur.deletes).outcome.RetryError?))
      && (Skips(env, m) ==> Deliveries(s.events) == 0)
      && (Deliverable(env, m) ==>
            && Deliveries(s.events) == SendToSentry(env, cur.posts).attempts
            && 1 <= Deliveries(s.events) <= StopMaxAttemptNumber
            && (forall k | 0 <= k < |s.events| && IsDeliver(s.events[k]) ::
                  s.events[k].op.request == ExtractRequest(env.loads(m.body).json, env.b64decode).request))
  {
    if Escapes(env, m) {
      EscapingMessage(env, m, cur);
      var e := Escaped(EscapeError(env, m));
      assert [e][1..] == [];
    } else if Skips(env, m) {
      SkippedMessage(env, m, cur);
    } else {
      DeliveredMessage(env, m, cur);
    }
  }

  /** An undecodable body, or one that decodes to a falsy value, is deleted
      (one delete call) and never POSTed. */
  lemma UndecodableBodyIsDeletedWithoutDelivery(env: Env, m: Message, cur: Cursor)
    requires env.loads(m.body) == NotJson || (env.loads(m.body).Parsed? && !Truthy(env.loads(m.body).json))
    ensures Deliveries(HandleMessage(env, m, cur).events) == 0
    ensures DeleteCalls(HandleMessage(env, m, cur).events) == [m.receipt]
  {
    MessagePolicy(env, m, cur);
  }

  /** A body without `url`, `headers` or `data`, or with bad base64 data,
      escapes the loop: no POST and no delete for that message. */
  lemma MalformedRequestEscapes(env: Env, m: Message, cur: Cursor)
    requires IsTruthy(env.loads(m.body))
    requires ExtractRequest(env.loads(m.body).json, env.b64decode).Invalid?
    ensures HandleMessage(env, m, cur).stop
    ensures Deliveries(HandleMessage(env, m, cur).events) == 0
    ensures DeleteCalls(HandleMessage(env, m, cur).events) == []
  {
    MessagePolicy(env, m, cur);
    var e := Escaped(EscapeError(env, m));
    assert [e][1..] == [];
  }

  /** A body json.loads raises on with something other than JSONDecodeError
      (a RecursionError on a deeply nested document) escapes the loop: the
      process ends, and the message is neither POSTed nor deleted. */
  lemma DecoderErrorEscapes(env: Env, m: Message, cur: Cursor)
    requires env.loads(m.body).LoadsRaised?
    ensures HandleMessage(env, m, cur).events == [Escaped(env.loads(m.body).error)]
    ensures HandleMessage(env, m, cur).stop
    ensures Deliveries(HandleMessage(env, m, cur).events) == 0
    ensures DeleteCalls(HandleMessage(env, m, cur).events) == []
  {
    var e := Escaped(env.loads(m.body).error);
    assert [e][1..] == [];
  }

  /** An endpoint that never answers 200: five POSTs, then the message is
      still deleted; the delivery failure does not end the process. */
  lemma RejectingEndpointStillDeletes(env: Env, m: Message, cur: Cursor)
    requires Deliverable(env, m)
    requires forall i | cur.posts <= i < cur.posts + StopMaxAttemptNumber :: env.post(i) != Returned(200)
    ensures Deliveries(HandleMessage(env, m, cur).events) == StopMaxAttemptNumber
    ensures DeleteCalls(HandleMessage(env, m, cur).events) == [m.receipt]
    ensures HandleMessage(env, m, cur).stop <==> DeleteMessage(env, cur.deletes).outcome.RetryError?
  {
    MessagePolicy(env, m, cur);
    var c := SendToSentry(env, cur.posts);
    assert env.post(cur.posts + c.attempts - 1) != Returned(200);
  }

  /** The good path: the first POST answers 200 and the first delete
      succeeds, so the message is POSTed once and deleted once, in that
      order, and the loop goes on. */
  lemma AcceptedMessageIsDeliveredOnceThenDeleted(env: Env, m: Message, cur: Cursor)
    requires Deliverable(env, m)
    requires env.post(cur.posts) == Returned(200)
    requires env.delete(cur.deletes).Returned?
    ensures HandleMessage(env, m, cur).events ==
            [ Attempted(DeliverOp(ExtractRequest(env.loads(m.body).json, env.b64decode).request), 1),
              Attempted(DeleteOp(m.receipt), 1) ]
    ensures !HandleMessage(env, m, cur).stop
  {
    var c := SendToSentry(env, cur.posts);
    var d := DeleteMessage(env, cur.deletes);
    StopsAtFirstAccepted(SentryAnswers(env), cur.posts, AlwaysReject, cur.posts);
    StopsAtFirstAccepted(env.delete, cur.deletes, RetryIfClientError, cur.deletes);
  }

  // ---------------------------------------------------------------------------
  // A batch, a poll, a run

  /** The messages of a batch are handled strictly in order: the delete calls
      are for a prefix of the batch's receipts, all of them unless the process
      ended, and nothing after the end. */
  lemma {:induction false} BatchInOrder(env: Env, msgs: seq<Message>, cur: Cursor)
    ensures WellFormed(HandleBatch(env, msgs, cur))
    ensures ReceiveCalls(HandleBatch(env, msgs, cur).events) == 0
    ensures DeleteCalls(HandleBatch(env, msgs, cur).events) <= Receipts(msgs)
    ensures !HandleBatch(env, msgs, cur).stop ==> DeleteCalls(HandleBatch(env, msgs, cur).events) == Receipts(msgs)
    decreases |msgs|
  {
    if msgs != [] {
      var h := HandleMessage(env, msgs[0], cur);
      MessagePolicy(env, msgs[0], cur);
      assert DeleteCalls(h.events) <= [msgs[0].receipt];
      if !h.stop {
        var rest := HandleBatch(env, msgs[1..], h.cur);
        BatchInOrder(env, msgs[1..], h.cur);
        NoTerminalBeforeEnd(h.events);
        DeleteCallsAppend(h.events, rest.events);
        ReceiveCallsAppend(h.events, rest.events);
        ConcatShape(h.events, rest.events);
      }
    }
  }

  /** A poll whose receive_messages gave up: its attempts, then sys.exit(-1). */
  lemma PollGivesUp(env: Env, r: Retried<Response, Exception>, cur: Cursor)
    requires 1 <= r.attempts && r.outcome.RetryError?
    ensures AfterReceive(env, r, cur).stop
    ensures AfterReceive(env, r, cur).events == CallEvents(ReceiveOp, r.attempts) + [Exited(FatalExitCode)]
    ensures WellFormed(AfterReceive(env, r, cur))
    ensures ReceiveCalls(AfterReceive(env, r, cur).events) == 1
    ensures DeleteCalls(AfterReceive(env, r, cur).events) == []
  {
    var polled := CallEvents(ReceiveOp, r.attempts);
    CallEventsCounts(ReceiveOp, r.attempts);
    var exit := [Exited(FatalExitCode)];
    DeleteCallsAppend(polled, exit);
    ReceiveCallsAppend(polled, exit);
    ConcatShape(polled, exit);
  }

  /** A poll whose receive_messages returned: one receive call, then the
      batch, deleted in order. */
  lemma PollHandlesBatch(env: Env, r: Retried<Response, Exception>, cur: Cursor)
    requires 1 <= r.attempts && r.outcome.Success? && r.outcome.value.messages.Some?
    ensures WellFormed(AfterReceive(env, r, cur))
    ensures ReceiveCalls(AfterReceive(env, r, cur).events) == 1
    ensures DeleteCalls(AfterReceive(env, r, cur).events) <= Receipts(r.outcome.value.messages.value)
    ensures !AfterReceive(env, r, cur).stop ==>
              DeleteCalls(AfterReceive(env, r, cur).events) == Receipts(r.outcome.value.messages.value)
  {
    var msgs := r.outcome.value.messages.value;
    var next := cur.(receives := cur.receives + r.attempts);
    AfterReceiveBatch(env, r, cur);
    CallEventsCounts(ReceiveOp, r.attempts);
    BatchInOrder(env, msgs, next);
    ReceivedThenBatch(CallEvents(ReceiveOp, r.attempts), HandleBatch(env, msgs, next), AfterReceive(env, r, cur), Receipts(msgs));
  }

  /** The Success branch of AfterReceive: the receive attempts, then the
      batch. */
  lemma AfterReceiveBatch(env: Env, r: Retried<Response, Exception>, cur: Cursor)
    requires 1 <= r.attempts && r.outcome.Success? && r.outcome.value.messages.Some?
    ensures var b := HandleBatch(env, r.outcome.value.messages.value, cur.(receives := cur.receives + r.attempts));
      && AfterReceive(env, r, cur).events == CallEvents(ReceiveOp, r.attempts) + b.events
      && AfterReceive(env, r, cur).stop == b.stop
  {
  }

  /** Receive attempts in front of a batch keep its shape and its delete
      calls, and add one receive call. */
  lemma ReceivedThenBatch(polled: seq<Event>, b: Step, s: Step, receipts: seq<string>)
    requires s.events == polled + b.events && s.stop == b.stop
    requires NoTerminal(polled) && ReceiveCalls(polled) == 1 && |DeleteCalls(polled)| == 0
    requires WellFormed(b) && ReceiveCalls(b.events) == 0
    requires DeleteCalls(b.events) <= receipts && (!b.stop ==> DeleteCalls(b.events) == receipts)
    ensures WellFormed(s) && ReceiveCalls(s.events) == 1
    ensures DeleteCalls(s.events) <= receipts && (!s.stop ==> DeleteCalls(s.events) == receipts)
  {
    DeleteCallsAfterNone(polled, b.events);
    ReceiveCallsAppend(polled, b.events);
    ConcatShape(polled, b.events);
  }

  /** One poll makes one receive call and ends the process only with its last
      event. */
  lemma PollFacts(env: Env, cur: Cursor)
    ensures WellFormed(Poll(env, cur))
    ensures ReceiveCalls(Poll(env, cur).events) == 1
  {
    var r := ReceiveMessages(env, cur.receives);
    if r.outcome.RetryError? {
      PollGivesUp(env, r, cur);
    } else {
      PollHandlesBatch(env, r, cur);
    }
  }

  /** What holds of the trace of `polls` polls: an exit or an escaping
      exception can only be its last event, there is at most one receive call
      per poll, and exactly one per poll unless the process ended. */
  predicate RunShape(t: seq<Event>, polls: nat)
  {
    && TerminalOnlyLast(t)
    && ReceiveCalls(t) <= polls
    && (!EndsTerminal(t) ==> ReceiveCalls(t) == polls)
  }

  /** What one iteration contributes: one receive call, and an exit or an
      escaping exception only as its last event. */
  predicate PollShape(p: Step)
  {
    WellFormed(p) && ReceiveCalls(p.events) == 1
  }

  /** Any loop whose iterations have that shape runs in the shape of RunShape. */
  lemma {:induction false} IterateFacts(poll: Cursor -> Step, cur: Cursor, polls: nat)
    requires forall c :: PollShape(poll(c))
    ensures RunShape(Iterate(poll, cur, polls), polls)
    decreases polls
  {
    if polls > 0 {
      var p := poll(cur);
      IterateFacts(poll, p.cur, polls - 1);
      StepThenRun(p, Iterate(poll, p.cur, polls - 1), polls);
    }
  }

  /** The whole loop has that shape. */
  lemma RunFacts(env: Env, cur: Cursor, polls: nat)
    ensures RunShape(Run(env, cur, polls), polls)
  {
    forall c ensures PollShape(Iteration(env)(c)) {
      PollFacts(env, c);
    }
    IterateFacts(Iteration(env), cur, polls);
  }

  /** The receipts the poll at `cur` received: none when receive_messages
      gave up. */
  function PollReceipts(env: Env, cur: Cursor): seq<string>
  {
    var r := ReceiveMessages(env, cur.receives);
    if r.outcome.Success? then Receipts(r.outcome.value.messages.value) else []
  }

  function Received(env: Env): Cursor -> seq<string>
  {
    (cur: Cursor) => PollReceipts(env, cur)
  }

  /** The receipts received by `polls` iterations of a loop whose body is
      `poll` and which receives `received(cur)` at `cur`, in order. */
  function IterateReceipts(poll: Cursor -> Step, received: Cursor -> seq<string>, cur: Cursor, polls: nat): seq<string>
    decreases polls
  {
    if polls == 0 then []
    else
      var p := poll(cur);
      received(cur) + if p.stop then [] else IterateReceipts(poll, received, p.cur, polls - 1)
  }

  /** The receipts of all messages the run received, in order. */
  function RunReceipts(env: Env, cur: Cursor, polls: nat): seq<string>
  {
    IterateReceipts(Iteration(env), Received(env), cur, polls)
  }

  /** The delete calls of a step are for a prefix of `receipts`, and for all
      of them unless it ended the process. */
  predicate DeletesReceived(p: Step, receipts: seq<string>)
  {
    DeleteCalls(p.events) <= receipts && (!p.stop ==> DeleteCalls(p.events) == receipts)
  }

  /** The same of a trace, which ends the process when its last event is
      terminal. */
  predicate RunDeletes(t: seq<Event>, receipts: seq<string>)
  {
    DeleteCalls(t) <= receipts && (!EndsTerminal(t) ==> DeleteCalls(t) == receipts)
  }

  /** One poll deletes, in order, the messages it received. */
  lemma PollDeletes(env: Env, cur: Cursor)
    ensures DeletesReceived(Poll(env, cur), PollReceipts(env, cur))
  {
    var r := ReceiveMessages(env, cur.receives);
    if r.outcome.RetryError? {
      PollGivesUp(env, r, cur);
    } else {
      PollHandlesBatch(env, r, cur);
    }
  }

  /** Any loop whose iterations delete what they received, in order, makes
      delete calls for a prefix of all it received, and for all of it unless
      the process ended. */
  lemma {:induction false} IterateDeletes(poll: Cursor -> Step, received: Cursor -> seq<string>, cur: Cursor, polls: nat)
    requires forall c :: PollShape(poll(c)) && DeletesReceived(poll(c), received(c))
    ensures RunDeletes(Iterate(poll, cur, polls), IterateReceipts(poll, received, cur, polls))
    decreases polls
  {
    if polls > 0 {
      var p := poll(cur);
      IterateDeletes(poll, received, p.cur, polls - 1);
      IterateFacts(poll, p.cur, polls - 1);
      StepThenDeletes(p, received(cur), Iterate(poll, p.cur, polls - 1), IterateReceipts(poll, received, p.cur, polls - 1));
    }
  }

  /** Every message the run received gets exactly one delete call, in the
      order received, unless the process ended; if it ended, the delete calls
      are for a prefix of the received messages. */
  lemma RunDeletesReceived(env: Env, cur: Cursor, polls: nat)
    ensures RunDeletes(Run(env, cur, polls), RunReceipts(env, cur, polls))
  {
    forall c ensures PollShape(Iteration(env)(c)) && DeletesReceived(Iteration(env)(c), Received(env)(c)) {
      PollFacts(env, c);
      PollDeletes(env, c);
    }
    IterateDeletes(Iteration(env), Received(env), cur, polls);
  }

  /** The inductive step of IterateDeletes. */
  lemma StepThenDeletes(p: Step, mine: seq<string>, rest: seq<Event>, later: seq<string>)
    requires PollShape(p) && DeletesReceived(p, mine)
    requires TerminalOnlyLast(rest) && RunDeletes(rest, later)
    ensures RunDeletes(p.events + if p.stop then [] else rest, mine + if p.stop then [] else later)
  {
    if p.stop {
      assert p.events + [] == p.events;
      assert mine + [] == mine;
    } else {
      NoTerminalBeforeEnd(p.events);
      DeleteCallsAppend(p.events, rest);
      ConcatShape(p.events, rest);
      PrefixAfter(mine, DeleteCalls(rest), later);
    }
  }

  lemma PrefixAfter(a: seq<string>, c: seq<string>, d: seq<string>)
    requires c <= d
    ensures a + c <= a + d
  {
    assert forall k | 0 <= k < |a + c| :: (a + c)[k] == (a + d)[k];
  }

  /** The inductive step of RunFacts: one well-formed poll, then (unless it
      ended the process) the rest of the run. */
  lemma StepThenRun(p: Step, rest: seq<Event>, polls: nat)
    requires 1 <= polls
    requires PollShape(p)
    requires RunShape(rest, polls - 1)
    ensures RunShape(p.events + if p.stop then [] else rest, polls)
  {
    if p.stop {
      assert p.events + [] == p.events;
    } else {
      NoTerminalBeforeEnd(p.events);
      ReceiveCallsAppend(p.events, rest);
      ConcatShape(p.events, rest);
    }
  }

  /** Receive errors that persist for five attempts end the process: the
      trace is the five receive attempts and sys.exit(-1), with no message
      handled and no further poll. */
  lemma PersistentReceiveErrorsExit(env: Env, cur: Cursor, polls: nat)
    requires 1 <= polls
    requires forall i | cur.receives <= i < cur.receives + StopMaxAttemptNumber ::
               env.receive(i).Raised? && env.receive(i).error.ClientError?
    ensures Run(env, cur, polls) == CallEvents(ReceiveOp, StopMaxAttemptNumber) + [Exited(FatalExitCode)]
  {
    ExhaustsAfterFiveRejections(env.receive, cur.receives, RetryIfClientError);
    assert Run(env, cur, polls) == Poll(env, cur).events + [];
  }

  // ---------------------------------------------------------------------------
  // The three decorated calls

  /** receive_messages against an empty queue: one attempt, and an empty
      `Messages` list in an otherwise unchanged response. */
  lemma ReceiveFromEmptyQueue(env: Env, at: nat, metadata: map<string, string>)
    requires env.receive(at) == Returned(Response(None, metadata))
    ensures ReceiveMessages(env, at) == Retried(Success(Response(Some([]), metadata)), 1)
  {
    StopsAtFirstAccepted(env.receive, at, RetryIfClientError, at);
  }

  /** An exception other than ClientError is not retried by receive or
      delete: that attempt is the last, and it surfaces as RetryError. */
  lemma OtherErrorsAreNotRetried(env: Env, at: nat)
    ensures env.receive(at).Raised? && !env.receive(at).error.ClientError? ==>
              ReceiveMessages(env, at) == Retried(RetryError(env.receive(at).error), 1)
    ensures env.delete(at).Raised? && !env.delete(at).error.ClientError? ==>
              DeleteMessage(env, at) == Retried(RetryError(env.delete(at).error), 1)
  {
    if env.receive(at).Raised? && !env.receive(at).error.ClientError? {
      StopsAtFirstAccepted(env.receive, at, RetryIfClientError, at);
    }
    if env.delete(at).Raised? && !env.delete(at).error.ClientError? {
      StopsAtFirstAccepted(env.delete, at, RetryIfClientError, at);
    }
  }

  /** send_to_sentry against an endpoint that answers a status other than 200
      five times: five attempts, then a RetryError for the fifth status. */
  lemma RejectedStatusGivesRetryError(env: Env, at: nat)
    requires forall i | at <= i < at + StopMaxAttemptNumber :: env.post(i).Returned? && env.post(i).value != 200
    ensures SendToSentry(env, at).attempts == StopMaxAttemptNumber
    ensures SendToSentry(env, at).outcome == RetryError(InvalidStatus(env.post(at + StopMaxAttemptNumber - 1).value))
  {
    ExhaustsAfterFiveRejections(SentryAnswers(env), at, AlwaysReject);
  }
}
