/**
  The proxy loop of raven-sqs-proxy: poll the queue, and for each message
  decode the body, replay the request it describes against Sentry, and delete
  the message; poll again. Failure classification: exhausted retries on
  receive or delete exit the process with -1, exhausted delivery retries are
  logged and the message is deleted anyway, a body json.loads rejects with
  JSONDecodeError or that decodes to a falsy value is deleted without
  delivery; any other exception raises out of the loop: one json.loads raises
  otherwise, a truthy body that is not an object, lacks `url`, `headers` or
  `data`, or whose `data` is not a string or not valid base64.

  The queue service, Sentry, the JSON parser and the base64 decoder are the
  environment (`Env`); the loop is run for a given number of polls and
  produces a trace of the attempts it makes.
*/
module SqsProxy {
  import opened Retrying

  newtype byte = x: int | 0 <= x < 256

  datatype Option<T> = None | Some(value: T)

  /** The exceptions the wrapped calls can raise. */
  datatype Exception =
    | ClientError(code: string)      // botocore's ClientError (a service error)
    | InvalidStatus(status: int)     // the ValueError send_to_sentry raises for a status other than 200
    | OtherException(name: string)   // anything else boto3 or requests raise

  /** The exceptions that escape the loop while a body is decoded or its
      request is read. */
  datatype Uncaught =
    | KeyError(key: string)   // `url`, `headers` or `data` missing from the body
    | TypeError               // the body is not an object, or `data` is not a string
    | Base64Error             // ValueError (binascii.Error included): `data` is not valid base64
    | DecoderError(name: string)  // what json.loads raises other than JSONDecodeError (RecursionError)

  /** A decoded JSON value. Non-finite numbers are not represented. */
  datatype Json =
    | JNull
    | JBool(b: bool)
    | JNumber(n: real)
    | JString(s: string)
    | JArray(elems: seq<Json>)
    | JObject(fields: map<string, Json>)

  /** What json.loads does with a body: it returns a value, raises the
      JSONDecodeError the loop catches, or raises something else. */
  datatype Loaded = Parsed(json: Json) | NotJson | LoadsRaised(error: Uncaught)

  /** A queue message: its body and the receipt handle that deletes it. */
  datatype Message = Message(body: string, receipt: string)

  /** The response of one receive_message call; `messages` is absent when the
      long poll found nothing. The other keys of the response are `metadata`. */
  datatype Response = Response(messages: Option<seq<Message>>, metadata: map<string, string>)

  /** The request a message body describes. */
  datatype Request = Request(url: Json, headers: Json, payload: seq<byte>)

  /** The environment the loop runs in. Each of the three service calls is an
      oracle over the number of such attempts made before it; `loads` is
      json.loads and `b64decode` is
      base64.b64decode on a string (None: the decoder raised). */
  datatype Env = Env(
    receive: nat -> Attempt<Response, Exception>,
    delete: nat -> Attempt<(), Exception>,
    post: nat -> Attempt<int, Exception>,
    loads: string -> Loaded,
    b64decode: string -> Option<seq<byte>>)

  /** How many calls of each kind have been made so far. */
  datatype Cursor = Cursor(receives: nat, deletes: nat, posts: nat)

  const Start := Cursor(0, 0, 0)

  /** The status sys.exit is called with when receive or delete gives up. */
  const FatalExitCode: int := -1

  /** The service calls the loop makes; each attempt of one is an event. */
  datatype Op = ReceiveOp | DeliverOp(request: Request) | DeleteOp(receipt: string)

  datatype Event =
    | Attempted(op: Op, attempt: nat)   // attempt number `attempt` of a retried call
    | Slept(ms: nat)                    // the fixed wait between two attempts
    | Exited(code: int)                 // sys.exit
    | Escaped(error: Uncaught)          // an exception raised out of the loop

  predicate IsTerminal(e: Event)
  {
    e.Exited? || e.Escaped?
  }

  /** What handling a message, a batch or one poll produced: the events, the
      cursor afterwards, and whether the process ended. */
  datatype Step = Step(events: seq<Event>, cur: Cursor, stop: bool)

  // ---------------------------------------------------------------------------
  // Retry predicates and single attempts

  /** retry_if_client_error: retry exactly the boto client errors. */
  function RetryIfClientError(e: Exception): bool
  {
    e.ClientError?
  }

  /** One attempt of send_to_sentry: the POST raised, or answered with a status
      code; only 200 is a success. */
  function SentryAttempt(a: Attempt<int, Exception>): (r: Attempt<(), Exception>)
    ensures r.Returned? <==> a == Returned(200)
    ensures a.Returned? && a.value != 200 ==> r == Raised(InvalidStatus(a.value))
    ensures a.Raised? ==> r == Raised(a.error)
  {
    match a
    case Raised(e) => Raised(e)
    case Returned(status) => if status != 200 then Raised(InvalidStatus(status)) else Returned(())
  }

  /** The body of receive_messages after the boto call: a missing or empty
      `Messages` becomes the empty list, and nothing else changes. */
  function NormaliseResponse(resp: Response): (r: Response)
    ensures r.messages.Some?
    ensures resp.messages.None? || |resp.messages.value| == 0 ==> |r.messages.value| == 0
    ensures resp.messages.Some? ==> r.messages == resp.messages
    ensures r.metadata == resp.metadata
  {
    if resp.messages.None? || |resp.messages.value| == 0 then resp.(messages := Some([])) else resp
  }

  function SentryAnswers(env: Env): nat -> Attempt<(), Exception>
  {
    (i: nat) => SentryAttempt(env.post(i))
  }

  // ---------------------------------------------------------------------------
  // The three decorated calls

  /** receive_messages, started after `at` earlier receive calls. */
  function ReceiveMessages(env: Env, at: nat): (c: Retried<Response, Exception>)
    ensures 1 <= c.attempts <= StopMaxAttemptNumber
    ensures forall i | at <= i < at + c.attempts - 1 :: env.receive(i).Raised? && env.receive(i).error.ClientError?
    ensures c.attempts < StopMaxAttemptNumber ==>
              !(env.receive(at + c.attempts - 1).Raised? && env.receive(at + c.attempts - 1).error.ClientError?)
    ensures c.outcome.Success? <==> env.receive(at + c.attempts - 1).Returned?
    ensures c.outcome.Success? ==>
              c.outcome.value == NormaliseResponse(env.receive(at + c.attempts - 1).value) &&
              c.outcome.value.messages.Some?
    ensures c.outcome.RetryError? ==> c.outcome.last == env.receive(at + c.attempts - 1).error
  {
    var c := Retry(env.receive, at, RetryIfClientError);
    Retried(NormaliseOutcome(c.outcome), c.attempts)
  }

  /** The normalisation runs after a boto call that returned and cannot raise,
      so it is applied to the outcome of the retried boto call. */
  function NormaliseOutcome(o: Outcome<Response, Exception>): Outcome<Response, Exception>
  {
    match o
    case Success(resp) => Success(NormaliseResponse(resp))
    case RetryError(e) => RetryError(e)
  }

  /** delete_message for one receipt, started after `at` earlier delete calls. */
  function DeleteMessage(env: Env, at: nat): (c: Retried<(), Exception>)
    ensures 1 <= c.attempts <= StopMaxAttemptNumber
    ensures forall i | at <= i < at + c.attempts - 1 :: env.delete(i).Raised? && env.delete(i).error.ClientError?
    ensures c.attempts < StopMaxAttemptNumber ==>
              !(env.delete(at + c.attempts - 1).Raised? && env.delete(at + c.attempts - 1).error.ClientError?)
    ensures c.outcome.Success? <==> env.delete(at + c.attempts - 1).Returned?
    ensures c.outcome.RetryError? ==> c.outcome.last == env.delete(at + c.attempts - 1).error
  {
    var c := Retry(env.delete, at, RetryIfClientError);
    assert forall i | at <= i < at + c.attempts - 1 :: Rejected(RetryIfClientError, env.delete(i));
    c
  }

  /** send_to_sentry, started after `at` earlier POSTs: retried on any
      failure, including a non-200 status. */
  function SendToSentry(env: Env, at: nat): (c: Retried<(), Exception>)
    ensures 1 <= c.attempts <= StopMaxAttemptNumber
    ensures forall i | at <= i < at + c.attempts - 1 :: env.post(i) != Returned(200)
    ensures c.outcome.Success? <==> env.post(at + c.attempts - 1) == Returned(200)
    ensures c.outcome.RetryError? ==> c.attempts == StopMaxAttemptNumber
  {
    var c := Retry(SentryAnswers(env), at, AlwaysReject);
    assert forall i | at <= i < at + c.attempts - 1 :: Rejected(AlwaysReject, SentryAnswers(env)(i));
    c
  }

  // ---------------------------------------------------------------------------
  // Per-message policy

  /** Python truthiness of the decoded body. */
  predicate Truthy(j: Json)
  {
    match j
    case JNull => false
    case JBool(b) => b
    case JNumber(n) => n != 0.0
    case JString(s) => |s| > 0
    case JArray(a) => |a| > 0
    case JObject(o) => |o| > 0
  }

  /** `if body:` where body stays None when json.loads raised
      JSONDecodeError. */
  predicate IsTruthy(body: Loaded)
  {
    body.Parsed? && Truthy(body.json)
  }

  datatype Extracted = Valid(request: Request) | Invalid(error: Uncaught)

  /** body["url"], body["headers"] and base64.b64decode(body["data"]), in that
      order, with the exceptions each can raise. */
  function ExtractRequest(body: Json, b64decode: string -> Option<seq<byte>>): (r: Extracted)
    ensures r.Valid? <==>
              && body.JObject?
              && "url" in body.fields && "headers" in body.fields && "data" in body.fields
              && body.fields["data"].JString?
              && b64decode(body.fields["data"].s).Some?
    ensures r.Valid? ==>
              r.request == Request(body.fields["url"], body.fields["headers"], b64decode(body.fields["data"].s).value)
    ensures !body.JObject? ==> r == Invalid(TypeError)
    ensures body.JObject? && "url" !in body.fields ==> r == Invalid(KeyError("url"))
    ensures body.JObject? && "url" in body.fields && "headers" !in body.fields ==> r == Invalid(KeyError("headers"))
    ensures body.JObject? && "url" in body.fields && "headers" in body.fields && "data" !in body.fields ==>
              r == Invalid(KeyError("data"))
    ensures body.JObject? && "url" in body.fields && "headers" in body.fields && "data" in body.fields ==>
              && (!body.fields["data"].JString? ==> r == Invalid(TypeError))
              && (body.fields["data"].JString? && b64decode(body.fields["data"].s).None? ==> r == Invalid(Base64Error))
  {
    if !body.JObject? then Invalid(TypeError)
    else if "url" !in body.fields then Invalid(KeyError("url"))
    else if "headers" !in body.fields then Invalid(KeyError("headers"))
    else if "data" !in body.fields then Invalid(KeyError("data"))
    else if !body.fields["data"].JString? then Invalid(TypeError)
    else match b64decode(body.fields["data"].s)
      case None => Invalid(Base64Error)
      case Some(payload) => Valid(Request(body.fields["url"], body.fields["headers"], payload))
  }

  /** A message whose body is deleted without delivery: not JSON, or
      decoded to a falsy value. */
  predicate Skips(env: Env, m: Message)
  {
    !env.loads(m.body).LoadsRaised? && !IsTruthy(env.loads(m.body))
  }

  /** A message whose body makes json.loads raise something other than
      JSONDecodeError, or whose truthy body does not describe a request. */
  predicate Escapes(env: Env, m: Message)
  {
    || env.loads(m.body).LoadsRaised?
    || (IsTruthy(env.loads(m.body)) && ExtractRequest(env.loads(m.body).json, env.b64decode).Invalid?)
  }

  /** The exception that escapes the loop for such a message. */
  function EscapeError(env: Env, m: Message): Uncaught
    requires Escapes(env, m)
  {
    if env.loads(m.body).LoadsRaised? then env.loads(m.body).error
    else ExtractRequest(env.loads(m.body).json, env.b64decode).error
  }

  /** A message that is delivered. */
  predicate Deliverable(env: Env, m: Message)
  {
    IsTruthy(env.loads(m.body)) && ExtractRequest(env.loads(m.body).json, env.b64decode).Valid?
  }

  /** The events of one retried call: attempts 1..n with a wait between two
      (see CallEventsAt in ProxyProperties). */
  function CallEvents(op: Op, n: nat): (t: seq<Event>)
    requires 1 <= n
  {
    AttemptsFrom(op, 1, n)
  }

  function AttemptsFrom(op: Op, k: nat, n: nat): (t: seq<Event>)
    requires 1 <= k <= n
    decreases n - k
  {
    if k == n then [Attempted(op, k)]
    else [Attempted(op, k), Slept(WaitFixedMs)] + AttemptsFrom(op, k + 1, n)
  }

  /** The delete step of a message: delete_message, and sys.exit(-1) when it
      gives up. */
  function DeleteStep(env: Env, receipt: string, cur: Cursor): Step
  {
    AfterDelete(receipt, DeleteMessage(env, cur.deletes), cur)
  }

  /** The rest of the delete step once delete_message has given `d`. */
  function AfterDelete(receipt: string, d: Retried<(), Exception>, cur: Cursor): Step
    requires 1 <= d.attempts
  {
    var events := CallEvents(DeleteOp(receipt), d.attempts);
    var next := cur.(deletes := cur.deletes + d.attempts);
    if d.outcome.RetryError? then Step(events + [Exited(FatalExitCode)], next, true)
    else Step(events, next, false)
  }

  /** Events in front of a step. */
  function Then(events: seq<Event>, s: Step): Step
  {
    Step(events + s.events, s.cur, s.stop)
  }

  /** One pass of the `for` loop body. */
  function HandleMessage(env: Env, m: Message, cur: Cursor): Step
  {
    var body := env.loads(m.body);
    if body.LoadsRaised? then Step([Escaped(body.error)], cur, true)
    else if IsTruthy(body) then
      match ExtractRequest(body.json, env.b64decode)
      case Invalid(e) => Step([Escaped(e)], cur, true)
      case Valid(request) =>
        var sent := SendToSentry(env, cur.posts);
        var d := DeleteStep(env, m.receipt, cur.(posts := cur.posts + sent.attempts));
        Then(CallEvents(DeliverOp(request), sent.attempts), d)
    else
      DeleteStep(env, m.receipt, cur)
  }

  /** The `for` loop over one batch, in order, until the process ends. */
  function HandleBatch(env: Env, msgs: seq<Message>, cur: Cursor): Step
    decreases |msgs|
  {
    if |msgs| == 0 then Step([], cur, false)
    else
      var h := HandleMessage(env, msgs[0], cur);
      if h.stop then h
      else
        var rest := HandleBatch(env, msgs[1..], h.cur);
        Step(h.events + rest.events, rest.cur, rest.stop)
  }

  /** One iteration of `while True`: receive, then the batch. */
  function Poll(env: Env, cur: Cursor): Step
  {
    AfterReceive(env, ReceiveMessages(env, cur.receives), cur)
  }

  /** The rest of the iteration once receive_messages has given `r`:
      sys.exit(-1) on RetryError, otherwise the batch. */
  function AfterReceive(env: Env, r: Retried<Response, Exception>, cur: Cursor): Step
    requires 1 <= r.attempts
    requires r.outcome.Success? ==> r.outcome.value.messages.Some?
  {
    var polled := CallEvents(ReceiveOp, r.attempts);
    var next := cur.(receives := cur.receives + r.attempts);
    match r.outcome
    case RetryError(_) => Step(polled + [Exited(FatalExitCode)], next, true)
    case Success(resp) =>
      Then(polled, HandleBatch(env, resp.messages.value, next))
  }

  /** The body of the `while True`, as a function of the cursor. */
  function Iteration(env: Env): Cursor -> Step
  {
    (cur: Cursor) => Poll(env, cur)
  }

  /** The trace of `polls` iterations of a loop whose body is `poll`, or
      fewer if an iteration ends the process. */
  function Iterate(poll: Cursor -> Step, cur: Cursor, polls: nat): seq<Event>
    decreases polls
  {
    if polls == 0 then []
    else
      var p := poll(cur);
      p.events + if p.stop then [] else Iterate(poll, p.cur, polls - 1)
  }

  /** The trace of `polls` iterations of the proxy loop. */
  function Run(env: Env, cur: Cursor, polls: nat): seq<Event>
  {
    Iterate(Iteration(env), cur, polls)
  }

  // ---------------------------------------------------------------------------
  // The loop

  /** sqs_loop, for `polls` iterations of its `while True`. */
  method SqsLoop(env: Env, polls: nat) returns (trace: seq<Event>)
    ensures trace == Run(env, Start, polls)
  {
    ghost var whole := Run(env, Start, polls);
    trace := [];
    var cur := Start;
    var left := polls;
    JoinStart(whole);
    while 0 < left
      invariant Joined(trace, Run(env, cur, left), whole)
    {
      var polled := Advance(env, cur, left, trace, whole);
      trace := trace + polled.events;
      if polled.stop {
        return;
      }
      cur := polled.cur;
      left := left - 1;
    }
    JoinDone(env, cur, trace, whole);
  }

  /** One iteration of SqsLoop, with what it does to the loop invariant. */
  method Advance(env: Env, cur: Cursor, polls: nat, ghost done: seq<Event>, ghost whole: seq<Event>) returns (s: Step)
    requires 0 < polls && Joined(done, Run(env, cur, polls), whole)
    ensures s.stop ==> done + s.events == whole
    ensures !s.stop ==> Joined(done + s.events, Run(env, s.cur, polls - 1), whole)
  {
    s := PollOnce(env, cur);
    JoinPoll(env, cur, polls, done, whole);
  }

  /** The loop invariant of SqsLoop: what has been traced so far, followed by
      what is still to come, is the whole run. */
  ghost predicate Joined(done: seq<Event>, ahead: seq<Event>, whole: seq<Event>)
  {
    done + ahead == whole
  }

  lemma JoinStart(whole: seq<Event>)
    ensures Joined([], whole, whole)
  {
    assert [] + whole == whole;
  }

  /** One more poll moves its events from what is to come to what is done;
      a poll that ends the process leaves nothing to come. */
  lemma JoinPoll(env: Env, cur: Cursor, polls: nat, done: seq<Event>, whole: seq<Event>)
    requires 0 < polls && Joined(done, Run(env, cur, polls), whole)
    ensures Poll(env, cur).stop ==> done + Poll(env, cur).events == whole
    ensures !Poll(env, cur).stop ==> Joined(done + Poll(env, cur).events, Run(env, Poll(env, cur).cur, polls - 1), whole)
  {
    var p := Poll(env, cur);
    var later := if p.stop then [] else Run(env, p.cur, polls - 1);
    assert Run(env, cur, polls) == p.events + later;
    assert done + (p.events + later) == (done + p.events) + later;
    if p.stop {
      assert (done + p.events) + [] == done + p.events;
    }
  }

  /** After the last poll, what is done is the whole run. */
  lemma JoinDone(env: Env, cur: Cursor, done: seq<Event>, whole: seq<Event>)
    requires Joined(done, Run(env, cur, 0), whole)
    ensures done == whole
  {
    assert done + [] == done;
  }

  /** One iteration of the `while True`: receive_messages (exit on RetryError),
      then the batch. */
  method PollOnce(env: Env, cur: Cursor) returns (s: Step)
    ensures s == Poll(env, cur)
  {
    var called := Call(env.receive, cur.receives, RetryIfClientError);
    var received := Retried(NormaliseOutcome(called.outcome), called.attempts);
    assert received == ReceiveMessages(env, cur.receives);
    s := ProcessReceived(env, received, cur);
  }

  /** What the iteration does with the outcome of receive_messages. */
  method ProcessReceived(env: Env, received: Retried<Response, Exception>, cur: Cursor) returns (s: Step)
    requires 1 <= received.attempts
    requires received.outcome.Success? ==> received.outcome.value.messages.Some?
    ensures s == AfterReceive(env, received, cur)
  {
    match received.outcome
    case RetryError(_) =>
      s := AfterReceive(env, received, cur);
    case Success(response) =>
      var batch := ProcessBatch(env, response.messages.value, cur.(receives := cur.receives + received.attempts));
      s := Then(CallEvents(ReceiveOp, received.attempts), batch);
  }

  /** The `for` loop over one batch; a message that ends the process ends it. */
  method ProcessBatch(env: Env, messages: seq<Message>, cur: Cursor) returns (s: Step)
    ensures s == HandleBatch(env, messages, cur)
  {
    ghost var batch := HandleBatch(env, messages, cur);
    var handled: seq<Event> := [];
    var next := cur;
    assert messages[0..] == messages;
    assert handled + batch.events == batch.events;
    for i := 0 to |messages|
      invariant handled + HandleBatch(env, messages[i..], next).events == batch.events
      invariant HandleBatch(env, messages[i..], next).cur == batch.cur
      invariant HandleBatch(env, messages[i..], next).stop == batch.stop
    {
      assert messages[i..][0] == messages[i] && messages[i..][1..] == messages[i + 1..];
      var h := ProcessMessage(env, messages[i], next);
      handled := handled + h.events;
      next := h.cur;
      if h.stop {
        return Step(handled, next, true);
      }
    }
    assert messages[|messages|..] == [];
    s := Step(handled, next, false);
  }

  /** The body of the `for` loop for one message: decode, deliver when the
      body is truthy, delete. */
  method ProcessMessage(env: Env, message: Message, cur: Cursor) returns (s: Step)
    ensures s == HandleMessage(env, message, cur)
  {
    var body := env.loads(message.body);
    if body.LoadsRaised? {
      return Step([Escaped(body.error)], cur, true);
    }
    if !IsTruthy(body) {
      s := DeleteOnce(env, message.receipt, cur);
      return;
    }
    var extracted := ExtractRequest(body.json, env.b64decode);
    if extracted.Invalid? {
      return Step([Escaped(extracted.error)], cur, true);
    }
    var sent := Call(SentryAnswers(env), cur.posts, AlwaysReject);
    assert sent == SendToSentry(env, cur.posts);
    var d := DeleteOnce(env, message.receipt, cur.(posts := cur.posts + sent.attempts));
    s := Then(CallEvents(DeliverOp(extracted.request), sent.attempts), d);
  }

  /** delete_message for one receipt, and sys.exit(-1) when it gives up. */
  method DeleteOnce(env: Env, receipt: string, cur: Cursor) returns (s: Step)
    ensures s == DeleteStep(env, receipt, cur)
  {
    var deleted := Call(env.delete, cur.deletes, RetryIfClientError);
    assert deleted == DeleteMessage(env, cur.deletes);
    s := AfterDelete(receipt, deleted, cur);
  }
}
