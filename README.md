# HttpQueueServer request broker, modelled in Dafny

HttpQueueServer relays HTTP requests to a polling module that cannot be
reached directly. A caller's request is given an id and queued. The
polling module pops the request, sends it on, and posts the response
back under the same id. The broker then hands that response to the
caller, who has been blocked waiting for it. A periodic clean-up sweep
reclaims the ids that time out.

This project models the in-memory core of that broker in three generations:

- `httpqueueserver` (modules `HttpQueueRecords` and `HttpQueueBroker`): the
  current broker. It records request times, pops with a timed wait, and
  runs a clean-up sweep that drops expired requests from the queue and
  answers abandoned callers with a synthesized 504 response.
- `httprelayserver` (modules `HttpRelayRecords` and `HttpRelayBroker`): its
  predecessor. It has no request times, no sweep and a non-blocking pop,
  and registerResponse fails when nobody waits for the id.
- `relayserver` (modules `RelayServerRecords` and `RelayServerBroker`): the
  first version. It has a counter and a queue, and relaying stops after
  the request is stored.

Shared modules:

- `JavaInt` spells out Java `int` and `long` wrap-around.
- `Counter` holds the id rule all three brokers share. The counter is
  incremented, and reset to 0 when it wraps negative.
- `Servlet` models the part of an `HttpServletRequest` the request records
  read. It also holds the extraction steps they share: the relayed URI,
  the header multimap built by a while loop, and the joined body lines.

Each broker is a `class` whose fields are the Java class's fields:

- The Java `responseLocks` and `responseConditions` maps always gain and
  lose an id together, so they are one set, `waiters`.
- Each method is one atomic step.
- A blocking wait is split into a `...Begin` step (the waiter registers)
  and a `...End(interrupted)` step (the wait returns, stays blocked or is
  interrupted).
- Wall-clock time is the parameter `now`.
- `System.lineSeparator()` is the parameter `lineSeparator`.

The clean-up sweep `HttpQueueBroker.RequestManager.CleanUp` is a loop over
the expired ids, taken in an unspecified order (the Java code iterates a
`HashMap`). It is proved equal to the pure function `CleanedUp`. That
function works on the ids' bookkeeping (queue, ids with a stored
response, waiters, request times) and does not depend on the order.
Lemmas then state what one sweep does to each id, and what two sweeps do.

Behaviours of the Java code that the model reproduces and that a reader
might not expect (paths below are under `src/main/java/de/imbei/`):

- **Interrupted wait.** The `finally` block of httpqueueserver's
  `waitForResponse` (httpqueueserver/RequestManager.java:128-139) runs on
  an interrupt too. It removes the id's response, waiter and request time
  at once. If the request is still queued at that point, its queue entry
  stays without a request time, and no sweep reclaims it.
- **Expired request still queued.** For such a request the sweep only
  removes it from the queue (lines 231-234). That branch also keeps the
  request time, so the next sweep finds the id expired and no longer
  queued. A caller still waiting then receives the 504
  (`QueuedTimeoutAnsweredOnNextSweep`).
- **Overwriting responses.** `registerResponse` (lines 191-210) stores with
  `put`. It replaces any response already stored for an id that has a
  waiter.
- **Discarded responses.** Without a waiter, `registerResponse` does
  nothing. The comment at lines 208-209 states this intent.
- **Timeout setting.** `startCleanUpTask` (lines 287-294) keeps the
  two-day default only when the argument is null. Any other value is used
  as given, even a non-positive one.
- **Overflowing timeout.** The expiry filter (line 278) adds request time
  and timeout in `long` arithmetic. A timeout so large that the sum wraps
  makes the request expired at every non-negative `now`.
- **Responses without a waiter in httprelayserver.** httprelayserver's
  `registerResponse` (httprelayserver/RequestManager.java:123-134) takes
  the waiter's lock without a null check. With no waiter it fails before
  changing anything.
- **Response before waiter.** httpqueueserver's `relayRequest` queues the
  request before `waitForResponse` registers the waiter (lines 105-121). A
  response registered in between is discarded, and the caller is then
  answered only by a later sweep's 504.

## Model

| member | source | states |
|---|---|---|
| JavaInt.Wrap32 | src/main/java/de/imbei/httpqueueserver/RequestManager.java:94-97 | the result is the Java `int` congruent to the argument modulo 2^32, and equals it when it is in range |
| JavaInt.Wrap64 | src/main/java/de/imbei/httpqueueserver/RequestManager.java:278 | the result is the Java `long` congruent to the argument modulo 2^64, and equals it when it is in range |
| Counter.NextRequestId | src/main/java/de/imbei/httpqueueserver/RequestManager.java:91-102 | an id is never negative; below the maximum it is the counter plus one (so larger than the counter); at the maximum `int` it wraps to 0 |
| Servlet.ExtractUri | src/main/java/de/imbei/httpqueueserver/RequestData.java:45-61 | a URI shorter than context path + servlet path + 1 relays only the query suffix; otherwise prefix followed by the result is exactly the request URI followed by "?query" (or nothing when the query is null) |
| Servlet.ExtractUriOfPrefixedPath | src/main/java/de/imbei/httpqueueserver/RequestData.java:37-61 | a request to prefix + "/" + path is relayed as exactly path plus the query suffix ("abc/xyz?v=2") |
| Servlet.JoinLines | src/main/java/de/imbei/httpqueueserver/RequestData.java:88-89 | no lines join to "", one line joins to itself |
| Servlet.JoinLinesAppend | src/main/java/de/imbei/httpqueueserver/RequestData.java:88-89 | joining two non-empty blocks of lines puts exactly one separator between their joins |
| Servlet.HeaderMultimap | src/main/java/de/imbei/httpqueueserver/RequestData.java:63-82 | the multimap the header loop builds: null enumeration gives the empty map; otherwise the keys are exactly the enumerated names outside the restricted set, each list holding getHeader(name) once per occurrence of the name |
| Servlet.HeaderMultimapStep | src/main/java/de/imbei/httpqueueserver/RequestData.java:67-79 | one more enumerated name is skipped when restricted, and otherwise appends getHeader(name) to its list, creating the list on first sight |
| Servlet.GroupHeaders | src/main/java/de/imbei/httpqueueserver/RequestData.java:63-82 | the while loop builds the closed-form multimap: each non-restricted enumerated name maps to one getHeader value per occurrence; a null enumeration gives the empty map |
| HttpQueueRecords.ExtractHeaders | src/main/java/de/imbei/httpqueueserver/RequestData.java:63-82 | the keys are exactly the enumerated names that are not restricted (connection, content-length, expect, host, upgrade), each with as many values as it occurs; a null enumeration gives an empty map |
| HttpQueueRecords.RequestDataOf | src/main/java/de/imbei/httpqueueserver/RequestData.java:97-104 | the record keeps the id and method; its header keys are exactly the enumerated names that are not restricted (none for a null enumeration), each with one getHeader value per occurrence; methods other than POST and PUT have an empty body |
| HttpQueueRecords.ExtractBody | src/main/java/de/imbei/httpqueueserver/RequestData.java:84-95 | POST and PUT relay the body lines joined by the line separator; every other method relays "" |
| HttpQueueRecords.NewRequestData | src/main/java/de/imbei/httpqueueserver/RequestData.java:97-104 | the record holds the given id, the method, the extracted URI, headers and body; no restricted header survives |
| HttpQueueRecords.ResponseData.Empty | src/main/java/de/imbei/httpqueueserver/ResponseData.java:17-20 | a new response holds Java's zero values (null modelled as empty) |
| HttpQueueRecords.ResponseData.CreateTimeoutResponse | src/main/java/de/imbei/httpqueueserver/ResponseData.java:22-31 | a fresh response for the id with status 504, the single header Content-Type: text/plain; charset=UTF-8 and the fixed timeout text |
| HttpQueueRecords.ResponseData.SetRequestId | src/main/java/de/imbei/httpqueueserver/ResponseData.java:37-39 | sets the id and leaves status, headers and body as they were |
| HttpQueueRecords.ResponseData.SetStatusCode | src/main/java/de/imbei/httpqueueserver/ResponseData.java:61-63 | sets the status and leaves the other fields as they were |
| HttpQueueRecords.ResponseData.SetHeaders | src/main/java/de/imbei/httpqueueserver/ResponseData.java:45-47 | sets the headers and leaves the other fields as they were |
| HttpQueueRecords.ResponseData.SetBody | src/main/java/de/imbei/httpqueueserver/ResponseData.java:53-55 | sets the body and leaves the other fields as they were |
| HttpQueueBroker.IsExpired | src/main/java/de/imbei/httpqueueserver/RequestManager.java:278 | without overflow, expired exactly when more than the timeout has passed since the request time; when `time + timeout` overflows a `long`, expired at every non-negative `now` |
| HttpQueueBroker.ExpiredIds | src/main/java/de/imbei/httpqueueserver/RequestManager.java:273-285 | only ids with a request time are expired; when `time + timeout` does not overflow, an id is expired exactly when more than the timeout has passed since its request time |
| HttpQueueBroker.ExpiryIsMonotonic | src/main/java/de/imbei/httpqueueserver/RequestManager.java:277-280 | an id expired at one moment is still expired at any later moment |
| HttpQueueBroker.RemoveIds | src/main/java/de/imbei/httpqueueserver/RequestManager.java:255 | an entry survives exactly when it was queued and its id is not removed; the queue never grows |
| HttpQueueBroker.RemoveIdsAppend | src/main/java/de/imbei/httpqueueserver/RequestManager.java:255 | removal distributes over concatenation, so the survivors keep their order |
| HttpQueueBroker.RemoveIdsAbsent | src/main/java/de/imbei/httpqueueserver/RequestManager.java:255 | a queue holding none of the ids is left exactly as it was |
| HttpQueueBroker.RemoveIdsTwice | src/main/java/de/imbei/httpqueueserver/RequestManager.java:255 | removing one batch of ids and then another equals removing both batches at once |
| HttpQueueBroker.QueuedAfterRemoval | src/main/java/de/imbei/httpqueueserver/RequestManager.java:255 | an id is still queued after a removal exactly when it was queued and was not removed |
| HttpQueueBroker.CleanedUpOne | src/main/java/de/imbei/httpqueueserver/RequestManager.java:218-246 | one loop body: an answered id loses response, waiter and time, and the queue is untouched; an unanswered id leaves the queue, keeps waiter and time, and gets a response exactly when it was not queued and has a waiter; every other id keeps its response, waiter, request time (with its value) and queue membership |
| HttpQueueBroker.Swept | src/main/java/de/imbei/httpqueueserver/RequestManager.java:217-247 | the loop over a set of ids: the queue never grows, waiters and times only shrink (kept times unchanged), ids outside the set keep their response, waiter and time, and new responses go only to swept ids |
| HttpQueueBroker.CleanedUp | src/main/java/de/imbei/httpqueueserver/RequestManager.java:215-248 | one run of cleanUp: the queue never grows, waiters and times only shrink (kept times unchanged), and new responses go only to expired ids |
| HttpQueueBroker.SweptNothing | src/main/java/de/imbei/httpqueueserver/RequestManager.java:215-248 | a sweep over no expired id changes no bookkeeping |
| HttpQueueBroker.SweptStep | src/main/java/de/imbei/httpqueueserver/RequestManager.java:217-247 | sweeping one more id is one more run of the loop body, whatever ids came before: the sweep's result does not depend on the HashMap's iteration order |
| HttpQueueBroker.CleanUpSparesLiveIds | src/main/java/de/imbei/httpqueueserver/RequestManager.java:215-248 | an id that has not expired keeps its response, waiter, request time and queue entries |
| HttpQueueBroker.CleanUpCollectsAnswered | src/main/java/de/imbei/httpqueueserver/RequestManager.java:218-230 | an expired id with a stored response loses response, waiter and request time, and its queue entries are not touched |
| HttpQueueBroker.CleanUpDropsQueued | src/main/java/de/imbei/httpqueueserver/RequestManager.java:231-234 | an expired unanswered id that is still queued leaves the queue, keeps its request time and its waiter, and gets no response yet |
| HttpQueueBroker.CleanUpTimesOutPickedUp | src/main/java/de/imbei/httpqueueserver/RequestManager.java:234-245 | an expired unanswered id that was picked up gets a response exactly when a waiter is registered, and keeps its request time either way |
| HttpQueueBroker.CleanUpNeverOverwrites | src/main/java/de/imbei/httpqueueserver/RequestManager.java:215-248 | a sweep gives a response only to an expired, unqueued, awaited id that had none |
| HttpQueueBroker.QueuedTimeoutAnsweredOnNextSweep | src/main/java/de/imbei/httpqueueserver/RequestManager.java:231-245 | a request that expires while still queued, with a waiting caller, gets no response on that sweep but is answered on any later sweep |
| HttpQueueBroker.CleanUpKeepsResponsesWaited | src/main/java/de/imbei/httpqueueserver/RequestManager.java:191-248 | if every stored response has a registered waiter before a sweep, the same holds after it |
| HttpQueueBroker.WakeupGuardAsWrittenFails | src/main/java/de/imbei/httpqueueserver/RequestManager.java:176 | as written, the nanosecond threshold for 30 s is -64771072, so a wake-up at once ends the wait; for 5 s it is 705032704 (about 0.7 s) |
| HttpQueueBroker.WakeupGuardGivesUpAfterWaitingTime | src/main/java/de/imbei/httpqueueserver/RequestManager.java:170-179 | computed in `long` the product never wraps for any `int` waiting time, so a wake-up at elapsed time 0 never ends a non-negative wait (as written it does, for 30 s) |
| HttpQueueBroker.WakeupThresholdsAgreeUpToTwoSeconds | src/main/java/de/imbei/httpqueueserver/RequestManager.java:176 | the `int` threshold as written equals the intended `long` one exactly for waiting times between -2 and 2 seconds |
| HttpQueueBroker.RequestManager.constructor | src/main/java/de/imbei/httpqueueserver/RequestManager.java:28-54 | counter 0, empty queue, responses, waiters and request times; timeout two days (172800000 ms) |
| HttpQueueBroker.RequestManager.NewRequestId | src/main/java/de/imbei/httpqueueserver/RequestManager.java:91-102 | the counter advances by the id rule and the new value is returned; it is non-negative |
| HttpQueueBroker.RequestManager.QueueRequest | src/main/java/de/imbei/httpqueueserver/RequestManager.java:73-89 | the request time is recorded for the id, then the built record is appended at the tail; nothing else changes |
| HttpQueueBroker.RequestManager.RelayRequestBegin | src/main/java/de/imbei/httpqueueserver/RequestManager.java:105-121 | allocates the next id, records its time, appends its record and registers its waiter |
| HttpQueueBroker.RequestManager.PopRequest | src/main/java/de/imbei/httpqueueserver/RequestManager.java:180-184 | after the wait: an empty queue gives None (null), otherwise the head is removed and returned (FIFO) |
| HttpQueueBroker.RequestManager.WaitForResponseBegin | src/main/java/de/imbei/httpqueueserver/RequestManager.java:115-121 | the id gains a registered waiter |
| HttpQueueBroker.RequestManager.WaitForResponseEnd | src/main/java/de/imbei/httpqueueserver/RequestManager.java:122-139 | a stored response is delivered; without one the caller stays blocked or is interrupted; delivery or interruption removes the id's response, waiter and request time |
| HttpQueueBroker.RequestManager.RemoveRequestTime | src/main/java/de/imbei/httpqueueserver/RequestManager.java:142-149 | the id's request time is removed and no other |
| HttpQueueBroker.RequestManager.RegisterResponse | src/main/java/de/imbei/httpqueueserver/RequestManager.java:191-210 | with a registered waiter the response is stored under its id (replacing any earlier one); without one it is discarded and nothing changes |
| HttpQueueBroker.RequestManager.RemoveRequestFromQueue | src/main/java/de/imbei/httpqueueserver/RequestManager.java:252-259 | every entry with the id is removed, the rest keep their order, and the result says whether there was one |
| HttpQueueBroker.RequestManager.StartCleanUpTask | src/main/java/de/imbei/httpqueueserver/RequestManager.java:287-294 | a non-null timeout replaces the current one; null keeps it |
| HttpQueueBroker.RequestManager.CleanUpRequest | src/main/java/de/imbei/httpqueueserver/RequestManager.java:217-247 | one loop body: the bookkeeping becomes `CleanedUpOne` of the old one; earlier responses are kept and any new one is a fresh timeout response for that id |
| HttpQueueBroker.RequestManager.CleanUp | src/main/java/de/imbei/httpqueueserver/RequestManager.java:215-248 | the bookkeeping after the loop is `CleanedUp` of the old one for the current timeout and `now`; stored responses are kept or are fresh 504s; counter and timeout are unchanged |
| HttpRelayRecords.ExtractHeaders | src/main/java/de/imbei/httprelayserver/RequestData.java:49-66 | every enumerated name is a key, nothing filtered, with one value per occurrence; null enumeration gives an empty map |
| HttpRelayRecords.ExtractBody | src/main/java/de/imbei/httprelayserver/RequestData.java:69-80 | only POST relays its joined body lines; PUT and every other method relay "" |
| HttpRelayRecords.RequestDataOf | src/main/java/de/imbei/httprelayserver/RequestData.java:82-89 | the record keeps the id and method; its header keys are exactly the enumerated names, each list holding only getHeader(name) values (empty for a null enumeration); non-POST methods have an empty body |
| HttpRelayRecords.NewRequestData | src/main/java/de/imbei/httprelayserver/RequestData.java:82-89 | the record holds the given id, the method and the extracted URI, headers and body |
| HttpRelayBroker.RequestManager.constructor | src/main/java/de/imbei/httprelayserver/RequestManager.java:22-35 | counter 0, empty queue, responses and waiters |
| HttpRelayBroker.RequestManager.NewRequestId | src/main/java/de/imbei/httprelayserver/RequestManager.java:48-59 | the counter advances by the id rule and the new non-negative value is returned |
| HttpRelayBroker.RequestManager.QueueRequest | src/main/java/de/imbei/httprelayserver/RequestManager.java:39-46 | the built record is appended at the tail; nothing else changes |
| HttpRelayBroker.RequestManager.RelayRequestBegin | src/main/java/de/imbei/httprelayserver/RequestManager.java:64-83 | allocates the next id, appends its record and registers its waiter |
| HttpRelayBroker.RequestManager.PopRequest | src/main/java/de/imbei/httprelayserver/RequestManager.java:109-120 | never waits: an empty queue gives None, otherwise the head is removed and returned |
| HttpRelayBroker.RequestManager.WaitForResponseBegin | src/main/java/de/imbei/httprelayserver/RequestManager.java:77-83 | the id gains a registered waiter |
| HttpRelayBroker.RequestManager.WaitForResponseEnd | src/main/java/de/imbei/httprelayserver/RequestManager.java:84-93 | a stored response ends the wait and removes the waiter (the response stays); an interrupted wait changes nothing, so its waiter stays registered |
| HttpRelayBroker.RequestManager.RelayRequestEnd | src/main/java/de/imbei/httprelayserver/RequestManager.java:69-72 | a stored response is delivered and removed together with the waiter; otherwise nothing changes and the caller is pending or interrupted |
| HttpRelayBroker.RequestManager.RegisterResponse | src/main/java/de/imbei/httprelayserver/RequestManager.java:123-134 | succeeds exactly when a waiter is registered, then stores the response; otherwise fails (null lock) with no state change |
| RelayServerRecords.RequestDataOf | src/main/java/de/imbei/relayserver/RequestData.java:27-64 | the record keeps id, method and path info; its header keys are exactly the enumerated names, each list holding only getHeader(name) values (empty for a null enumeration); non-POST methods have an empty body |
| RelayServerRecords.NewRequestData | src/main/java/de/imbei/relayserver/RequestData.java:27-64 | the record holds the id, the method and the path info unchanged (possibly null); every enumerated header with one value per occurrence; the joined body for POST only |
| RelayServerBroker.AppendKeepsIdsAscending | src/main/java/de/imbei/relayserver/RequestManager.java:16-26 | appending a request under the next id keeps the queued ids strictly ascending and bounded by the counter, barring overflow |
| RelayServerBroker.RequestManager.constructor | src/main/java/de/imbei/relayserver/RequestManager.java:13-14 | counter 0 and an empty queue, whose ids are trivially ascending |
| RelayServerBroker.RequestManager.NewRequestId | src/main/java/de/imbei/relayserver/RequestManager.java:20-26 | the counter advances by the id rule and the new non-negative value is returned |
| RelayServerBroker.RequestManager.StoreRequest | src/main/java/de/imbei/relayserver/RequestManager.java:16-18 | the record is appended under a freshly allocated id; ascending queued ids are preserved while the counter does not overflow |
| RelayServerBroker.RequestManager.RelayRequest | src/main/java/de/imbei/relayserver/RequestManager.java:31-35 | only stores the request under a fresh id |
| RelayServerBroker.RequestManager.PopRequest | src/main/java/de/imbei/relayserver/RequestManager.java:37-43 | an empty queue gives None, otherwise the head is removed and returned; ascending ids are preserved |
| RelayServerBroker.RequestManager.RegisterAnswer | src/main/java/de/imbei/relayserver/RequestManager.java:45-47 | changes neither the counter nor the queue |

## Left out

- Locks, conditions, `signal`/`await` and `synchronized`: each operation is one atomic step, so the model covers no interleaving inside an operation and no lost wake-up.
- The timed wait loop of httpqueueserver's popRequest (lines 167-179): only what follows the wait is modelled, plus the wait's guard under "Findings", because time and spurious wake-ups are outside a sequential model.
- The clocks `System.currentTimeMillis()` and `System.nanoTime()`: they are parameters (`now`, `elapsedNanos`).
- The scheduling in startCleanUpTask and stopCleanUpTask (the executor, `scheduleAtFixedRate` and its rejection of a non-positive period) and CleanUpTask.java: one sweep is `CleanUp(now)`, and when it runs is not modelled.
- writeResponse, Base64 decoding of the body and the servlet output stream: these are I/O at the boundary.
- The servlets (RequestRelayServlet, PopRequestServlet, ResponseServlet) and JSON via Gson (`toString`): they are boundary code, not the broker.
- RequestTime.java is not part of this model: the broker stores plain `long` times.
- `getReader()` is given as the list of its lines, and its IOException path (the body stays "") is not modelled.
- `getHeader` is a total function, so a null header value is not modelled.
- The singleton `getInstance` and the Java static fields: each broker is one object.
- `new ResponseData()` leaves headers and body null; the model uses an empty map and "".
- The getters of ResponseData are its fields, read directly.
- removeFromRequestTimes (lines 262-269) is the same code as removeRequestTime and is modelled by `HttpQueueBroker.RequestManager.RemoveRequestTime`.
- httprelayserver's extractUri (RequestData.java:29-46) is the same code as httpqueueserver's and is modelled by `Servlet.ExtractUri`.
- httprelayserver's ResponseData is a plain holder and is a datatype here.
- Java string lengths count UTF-16 code units; the model's strings are sequences of `char`.
- HttpQueueBroker.ExpiredIds: the equivalence with "more than the timeout has passed" is stated only when `time + timeout` does not overflow a `long`; the filter itself is modelled with the wrap-around.
- RelayServerBroker.RequestManager.StoreRequest: the ascending-id invariant is promised only while the counter has not reached the maximum `int`, because after the wrap to 0 new ids are smaller.

## Findings

| source | as written | input that shows it | evidently intended | confidence | as-written member | corrected member |
|---|---|---|---|---|---|---|
| src/main/java/de/imbei/httpqueueserver/RequestManager.java:176 | `waitingTime * 1000000000` multiplies two `int`s and wraps before the comparison with the `long` elapsed time | waitingTime = 30 (the default) gives -64771072, so any wake-up, spurious or not, ends the wait; waitingTime = 5 gives 705032704 ns, about 0.7 s | the waiting time in nanoseconds computed as a `long` (`waitingTime * 1000000000L`), so the wait ends only once that much time has passed | not executed | HttpQueueBroker.WakeupGuardAsWrittenFails | HttpQueueBroker.WakeupGuardGivesUpAfterWaitingTime |
