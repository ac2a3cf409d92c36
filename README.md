# raven-sqs-proxy: the proxy loop and its retry policy, in Dafny

raven-sqs-proxy relays error reports from an SQS queue to Sentry. There is one
process. It long-polls the queue and, for each message, does three things:

- decodes the JSON body;
- replays the HTTP request the body describes (`url`, `headers`, base64
  `data`) as a POST to Sentry;
- deletes the message.

Then it polls again.

The three service calls are each wrapped in the `retrying` library's `@retry`:

| call | attempts | wait | retried on | wrap_exception |
|---|---|---|---|---|
| `receive_messages` | at most 5 | fixed 3000 ms | `ClientError` only | yes |
| `delete_message` | at most 5 | fixed 3000 ms | `ClientError` only | yes |
| `send_to_sentry` | at most 5 | fixed 3000 ms | any exception, including a status other than 200 | yes |

The loop classifies failures as follows:

- **Receive or delete gives up:** the process exits with `sys.exit(-1)`.
- **Delivery gives up:** it is logged, and the message is deleted anyway.
- **`json.loads` raises `JSONDecodeError`, or the body decodes to a falsy value:** the message is deleted without delivery.
- **`json.loads` raises anything else:** for example, a `RecursionError` on a deeply nested document. The exception escapes the loop. The message is neither delivered nor deleted.
- **The body is truthy but does not describe a request:** it is not an object, a key is missing, `data` is not a string, or `data` is bad base64. The exception escapes the loop. The message is neither delivered nor deleted.

The model has three modules:

- `Retrying` (`retrying.dfy`) is the retry combinator. It is generic in the wrapped call and the retry predicate. It has three parts:
  - a declarative meaning (`IsRetryOutcome`);
  - a function (`Retry`);
  - the library's attempt loop as a method (`Call`), proved equal to the function.
- `SqsProxy` (`sqsproxy.dfy`) holds the environment, the three decorated calls, the per-message policy and the loop. Each part comes twice:
  - as functions over an environment (`HandleMessage`, `HandleBatch`, `Poll`, `Run`);
  - as the imperative loop of the source (`SqsLoop`, with the `for` loop over a batch in `ProcessBatch`), proved to produce exactly the trace those functions define.
- `ProxyProperties` (`proxy_properties.dfy`) holds what the loop promises, stated over traces.

**The environment.** It is the value `Env`.

- Each service call is an oracle from "how many such attempts were made before" to what that attempt does. `receive(i)`, `delete(i)` and `post(i)` each either return a value or raise an exception.
- `loads` stands for `json.loads`. It returns a value (`Parsed`), raises the `JSONDecodeError` the loop catches (`NotJson`), or raises anything else (`LoadsRaised`).
- `b64decode` stands for `base64.b64decode`. It returns `None` when the decoder raises.

**The trace.** The loop produces a trace of events:

- `Attempted(op, n)`: attempt number `n` of a receive, a POST of a given request, or a delete of a given receipt.
- `Slept(3000)`: the wait between two attempts.
- `Exited(-1)`: the process exited.
- `Escaped(e)`: an exception left the loop.

The endless `while True` is run for a given number of polls; the process also ends at an exit or an escape. `Run` is `Iterate` applied to the loop body as a function of the cursor, so that the shape of a run is proved once for any loop body of that shape.

**Where the code does not do what it is meant to do, the model follows the code.**

- **A malformed message.** It is meant to be logged and deleted. The code only catches `JSONDecodeError`, so other exceptions escape the loop and end the process, without a delete (`EscapingMessage`, `MalformedRequestEscapes`, `DecoderErrorEscapes`). The exceptions are these:
  - the `KeyError` or `TypeError` from reading the request;
  - the `ValueError` from `b64decode` (`binascii.Error` included);
  - anything else `json.loads` raises.
- **An exception from boto that is not a `ClientError`.** Receive and delete are meant to be fatal only after their retries are exhausted. In fact such an exception is not retried at all. Because of `wrap_exception`, it still surfaces as a `RetryError` after that one attempt, so the loop exits with -1 (`OtherErrorsAreNotRetried`).

## Model

| member | source | states |
|---|---|---|
| Retrying.Settle | raven_sqs_proxy/sqsproxy.py:52 | the caller gets a value exactly when the last attempt returned; otherwise it gets `RetryError` (`wrap_exception=True`) |
| Retrying.Retry | raven_sqs_proxy/sqsproxy.py:52 | a decorated call makes 1 to 5 attempts. Every attempt but the last was rejected by the retry predicate. The last was accepted, unless the budget of 5 ran out. The caller sees the last attempt. |
| Retrying.RetryFromOutcome | raven_sqs_proxy/sqsproxy.py:52 | continuing the attempt sequence from attempt n (earlier ones rejected) has that meaning, with at least n attempts |
| Retrying.RetryOutcomeUnique | raven_sqs_proxy/sqsproxy.py:52 | the meaning above determines the number of attempts and the outcome uniquely |
| Retrying.Call | raven_sqs_proxy/sqsproxy.py:52 | the library's attempt loop is the function `Retry`: call, stop at an accepted attempt, give up after the fifth, otherwise wait and call again |
| Retrying.StopsAtFirstAccepted | raven_sqs_proxy/sqsproxy.py:52 | the first attempt the predicate does not reject ends the call. It is attempt number k - from + 1, and the caller gets what it returned or a `RetryError` wrapping what it raised. |
| Retrying.ExhaustsAfterFiveRejections | raven_sqs_proxy/sqsproxy.py:75 | five rejected attempts give exactly 5 attempts and a `RetryError` carrying the fifth exception |
| Retrying.NoAttemptAfterSuccess | raven_sqs_proxy/sqsproxy.py:52 | every attempt before the last raised, and the call succeeded exactly when its last attempt returned |
| SqsProxy.SentryAttempt | raven_sqs_proxy/sqsproxy.py:84-87 | a POST attempt succeeds exactly when it answered 200. Another status raises `InvalidStatus(status)`; an exception of `requests` passes through. |
| SqsProxy.NormaliseResponse | raven_sqs_proxy/sqsproxy.py:60-66 | the response always has a `Messages` list. It is empty when the service sent none or an empty one, and unchanged otherwise. The rest of the response is unchanged. |
| SqsProxy.ReceiveMessages | raven_sqs_proxy/sqsproxy.py:52-66 | 1 to 5 attempts, and every attempt but the last raised a `ClientError`. Fewer than 5 attempts means the last was not a `ClientError`. Success is exactly when the last attempt returned, and then the result is the normalised response. Otherwise the `RetryError` carries the last exception. |
| SqsProxy.DeleteMessage | raven_sqs_proxy/sqsproxy.py:69-72 | the same retry facts for delete: retried only on `ClientError`, success exactly when the last attempt returned, and the `RetryError` carries the last exception |
| SqsProxy.SendToSentry | raven_sqs_proxy/sqsproxy.py:75-87 | 1 to 5 POSTs, and none before the last answered 200. Success is exactly when the last answered 200. A `RetryError` comes only after 5 attempts. |
| SqsProxy.ExtractRequest | raven_sqs_proxy/sqsproxy.py:117-120 | a request is read exactly when the body is an object with `url`, `headers` and a string `data` that decodes. It is then exactly (`url`, `headers`, decoded `data`). Otherwise the first failure in the source's order escapes: `TypeError` for a non-object, then `KeyError` for a missing `url`, `headers` or `data`, then `TypeError` for a non-string `data`, then `Base64Error`. |
| SqsProxy.RetryIfClientError | raven_sqs_proxy/sqsproxy.py:47-49 | no contract of its own: retry exactly on a `ClientError`. The contracts of `ReceiveMessages` and `DeleteMessage` and the lemma `OtherErrorsAreNotRetried` state its effect. |
| SqsProxy.Truthy | raven_sqs_proxy/sqsproxy.py:117 | no contract of its own: Python truthiness of a decoded JSON value (`null`, `false`, `0`, `""`, `[]` and `{}` are falsy). `UndecodableBodyIsDeletedWithoutDelivery` and `MessagePolicy` state its effect. |
| SqsProxy.IsTruthy | raven_sqs_proxy/sqsproxy.py:110-117 | no contract of its own: `if body:`, where `body` stays `None` after a `JSONDecodeError`. `MessagePolicy` states its effect. |
| SqsProxy.DeleteStep | raven_sqs_proxy/sqsproxy.py:132-140 | no contract of its own. `DeleteStepFacts` states its behaviour, and `DeleteOnce` is proved equal to it. |
| SqsProxy.AfterDelete | raven_sqs_proxy/sqsproxy.py:133-140 | no contract of its own: the delete attempts, then `Exited(-1)` when the delete gave up. `DeleteStepFacts` states its behaviour. |
| SqsProxy.HandleMessage | raven_sqs_proxy/sqsproxy.py:110-140 | no contract of its own. `MessagePolicy` and the lemmas after it state its behaviour, and `ProcessMessage` is proved equal to it. |
| SqsProxy.HandleBatch | raven_sqs_proxy/sqsproxy.py:109-140 | no contract of its own. `BatchInOrder` states its behaviour, and `ProcessBatch` is proved equal to it. |
| SqsProxy.Poll | raven_sqs_proxy/sqsproxy.py:97-140 | no contract of its own. `PollFacts` and `PollDeletes` state its behaviour, and `PollOnce` is proved equal to it. |
| SqsProxy.AfterReceive | raven_sqs_proxy/sqsproxy.py:101-109 | no contract of its own. `PollGivesUp` and `PollHandlesBatch` state its behaviour, and `ProcessReceived` is proved equal to it. |
| SqsProxy.Iterate | raven_sqs_proxy/sqsproxy.py:97 | no contract of its own. `IterateFacts` and `IterateDeletes` state its behaviour for any loop body. |
| SqsProxy.Run | raven_sqs_proxy/sqsproxy.py:97-140 | no contract of its own. `RunFacts`, `RunDeletesReceived` and `PersistentReceiveErrorsExit` state its behaviour, and `SqsLoop` is proved equal to it. |
| SqsProxy.SqsLoop | raven_sqs_proxy/sqsproxy.py:90-140 | the imperative loop produces exactly the trace `Run` of that many polls from the first call of each kind |
| SqsProxy.Advance | raven_sqs_proxy/sqsproxy.py:97-140 | one iteration moves its events from what is still to come to what is traced. An iteration that ends the process completes the run. |
| SqsProxy.JoinPoll | raven_sqs_proxy/sqsproxy.py:97 | the run of k polls is the first poll's events followed by the run of k - 1 polls from where that poll left off, unless the poll ended the process |
| SqsProxy.PollOnce | raven_sqs_proxy/sqsproxy.py:97-109 | one iteration (receive, then the batch) is `Poll` |
| SqsProxy.ProcessReceived | raven_sqs_proxy/sqsproxy.py:101-109 | after receive: `sys.exit(-1)` on `RetryError`, otherwise the receive attempts followed by the batch |
| SqsProxy.ProcessBatch | raven_sqs_proxy/sqsproxy.py:109-140 | the `for` loop over a batch is `HandleBatch`: the messages in order, until one ends the process |
| SqsProxy.ProcessMessage | raven_sqs_proxy/sqsproxy.py:110-135 | the loop body for one message is `HandleMessage`: decode, deliver if truthy (escaping on a bad request), then delete |
| SqsProxy.DeleteOnce | raven_sqs_proxy/sqsproxy.py:132-140 | delete, and `sys.exit(-1)` exactly when the delete gives up |
| ProxyProperties.CallEventsAt | raven_sqs_proxy/sqsproxy.py:52 | a call of n attempts traces attempts 1..n with a 3000 ms wait between two: 2n - 1 events |
| ProxyProperties.CallEventsCounts | raven_sqs_proxy/sqsproxy.py:52 | one retried call is one receive call, or one delete call for its receipt, or n POSTs. It holds nothing terminal and only that call's attempts. |
| ProxyProperties.DeleteStepFacts | raven_sqs_proxy/sqsproxy.py:132-140 | the delete step makes one delete call for the receipt and no POST. The process ends exactly when `delete_message` gave up, and then the last event is `Exited(-1)`. |
| ProxyProperties.EscapingMessage | raven_sqs_proxy/sqsproxy.py:110-120 | a body on which `json.loads` raises something other than `JSONDecodeError`, or a truthy body that does not describe a request, gives exactly one `Escaped` event with that exception and ends the process: no POST, no delete |
| ProxyProperties.SkippedMessage | raven_sqs_proxy/sqsproxy.py:110-117 | an undecodable or falsy body gives no POST, one delete call, and an exit exactly when the delete gives up |
| ProxyProperties.DeliveredMessage | raven_sqs_proxy/sqsproxy.py:117-135 | a delivered body gives send_to_sentry's POSTs, all carrying the request read from the body, then one delete call, and no POST after a delete attempt. The process ends only when the delete gives up. |
| ProxyProperties.MessagePolicy | raven_sqs_proxy/sqsproxy.py:109-140 | the per-message policy, with one case for each of escape, skip and deliver. Every message that does not escape gets exactly one delete call, and POSTs come before deletes. A truthy request body gets 1 to 5 POSTs with its own request. The process ends exactly when the delete gives up, whatever became of the delivery. |
| ProxyProperties.UndecodableBodyIsDeletedWithoutDelivery | raven_sqs_proxy/sqsproxy.py:110-117 | a body on which `json.loads` raises `JSONDecodeError`, or which decodes to a falsy value: zero POSTs and one delete call |
| ProxyProperties.DecoderErrorEscapes | raven_sqs_proxy/sqsproxy.py:110-115 | a body on which `json.loads` raises something other than `JSONDecodeError` gives exactly one `Escaped` event and ends the process: no POST, no delete |
| ProxyProperties.MalformedRequestEscapes | raven_sqs_proxy/sqsproxy.py:118-120 | a missing key or bad base64: the process ends, with no POST and no delete for that message |
| ProxyProperties.RejectingEndpointStillDeletes | raven_sqs_proxy/sqsproxy.py:123-135 | an endpoint that never answers 200: exactly 5 POSTs and still one delete call. The process ends only if the delete gives up. |
| ProxyProperties.AcceptedMessageIsDeliveredOnceThenDeleted | raven_sqs_proxy/sqsproxy.py:123-136 | a first POST answering 200 and a first delete succeeding: the trace is exactly one POST, then one delete, and the loop goes on |
| ProxyProperties.BatchInOrder | raven_sqs_proxy/sqsproxy.py:109-140 | a batch makes delete calls for a prefix of its receipts, in order. It covers all of them unless the process ended, and ends the process only with its last event. |
| ProxyProperties.PollGivesUp | raven_sqs_proxy/sqsproxy.py:101-106 | a receive that gives up: its attempts, then `Exited(-1)`, no delete, and the process ends |
| ProxyProperties.PollHandlesBatch | raven_sqs_proxy/sqsproxy.py:101-140 | a receive that returns: one receive call, then the batch, with delete calls for a prefix of the received receipts (all of them unless the process ended) |
| ProxyProperties.PollFacts | raven_sqs_proxy/sqsproxy.py:97-140 | every iteration makes one receive call and ends the process only with its last event |
| ProxyProperties.IterateFacts | raven_sqs_proxy/sqsproxy.py:97 | any loop whose every iteration makes one receive call and ends the process only with its last event yields, for any number of polls, a trace of the shape stated in the next row |
| ProxyProperties.RunFacts | raven_sqs_proxy/sqsproxy.py:97-140 | in the whole run, an exit or escape can only be the last event, so nothing is traced after it. There are at most as many receive calls as polls, and exactly as many unless the process ended. |
| ProxyProperties.PollDeletes | raven_sqs_proxy/sqsproxy.py:101-140 | every poll makes delete calls for a prefix of the receipts it received, in order. It makes calls for all of them unless it ended the process. |
| ProxyProperties.IterateDeletes | raven_sqs_proxy/sqsproxy.py:97 | any loop whose every iteration deletes what it received yields a trace that does so for all it received, as stated in the next row |
| ProxyProperties.RunDeletesReceived | raven_sqs_proxy/sqsproxy.py:97-140 | over the whole run, every received message gets exactly one delete call, in the order received, unless the process ended. If it ended, the delete calls are for a prefix of the received messages. |
| ProxyProperties.PersistentReceiveErrorsExit | raven_sqs_proxy/sqsproxy.py:101-106 | five `ClientError`s on receive: the whole run is the five receive attempts and `Exited(-1)` |
| ProxyProperties.ReceiveFromEmptyQueue | raven_sqs_proxy/sqsproxy.py:60-66 | receiving from an empty queue takes one attempt and gives an empty `Messages` list in an otherwise unchanged response |
| ProxyProperties.OtherErrorsAreNotRetried | raven_sqs_proxy/sqsproxy.py:47-49 | an exception that is not a `ClientError` on receive or delete ends the call after that attempt, as a `RetryError` carrying it |
| ProxyProperties.RejectedStatusGivesRetryError | raven_sqs_proxy/sqsproxy.py:84-87 | five non-200 answers give exactly 5 attempts and a `RetryError` for the fifth status |

## Left out

- **Startup plumbing:** `cli`, `get_queue_url` and the creation of the boto3 client. They run before the loop.
- **`validate_region`:** it depends on boto3's list of regions.
- **Logging:** it is a side effect with no bearing on the trace.
- **The SIGINT handler (`handle_exit`, sqsproxy.py:29-34):** interrupts are not modelled. The handler raises `SystemExit` from wherever the main thread is. Outside a decorated call, that ends the process with status 0. Inside an attempt of a decorated call, the retry wrapper catches it like any other exception the attempt raises (during the wait between attempts, it still ends the process with status 0):
  - during `send_to_sentry`, it counts as a failed attempt: the call goes on retrying and ends as a success or as a logged `RetryError`, and the loop goes on;
  - during a receive or a delete, `retry_if_client_error` does not retry it, it surfaces as a `RetryError`, and the process exits with -1.
- **JSON and base64:** `json.loads` and `base64.b64decode` are abstract functions of the environment. Neither the parser nor the decoder is re-implemented. JSON numbers are reals, so `NaN`, `Infinity` and `-Infinity` (which `json.loads` accepts) are not represented. All three are truthy non-objects, so in the source they behave like a non-zero number and escape with `TypeError`.
- **Message fields:** `message["Body"]` and `message["ReceiptHandle"]` are record fields. The model does not represent a message without them.
- **The wait:** the 3000 ms wait is a `Slept(3000)` event, not time. `SQS_WAIT_TIME_SECONDS` (the long-poll duration) is not modelled.
- **The `retrying` library:** its code is not part of this model. Its stop rule, its fixed wait, its retry predicate and `wrap_exception=True` are modelled from the decorator arguments. This is an assumption about the library.
- **What the oracles can see:** the service oracles are indexed by call count. Sentry's answer can depend on when it is called, but not on the request's URL, headers or payload.
- **The response dict:** `messages["Messages"] = []` updates the response dict in place. It is modelled as a new response value. `Metadata` stands for the other keys of the dict.
- **Escapes:** an exception that escapes the loop ends the trace with `Escaped`. Python's exit status in that case, and the traceback, are not modelled.
- **The endless loop:** `while True` is bounded by a number of polls. The model says nothing about an infinite run beyond what holds for every finite prefix of polls.
- **SendToSentry:** the contract does not state which exception the `RetryError` carries, because the loop only logs it.
