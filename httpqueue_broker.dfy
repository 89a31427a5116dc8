/** The request broker of the polling queue server (httpqueueserver's
    RequestManager): it numbers incoming requests, queues them for the
    polling module, hands each caller the response registered for its id,
    and reclaims the bookkeeping of requests that time out.

    Every operation is one atomic step. The blocking wait for a response is
    split into WaitForResponseBegin (the waiter registers) and
    WaitForResponseEnd (the wait returns or is interrupted, and the finally
    block cleans up). Wall-clock time enters as the parameter `now`. */
module HttpQueueBroker {
  import opened Wrappers
  import opened JavaInt
  import opened Servlet
  import opened HttpQueueRecords
  import Counter

  /** Two days, the retention horizon used when none is configured. */
  const DefaultTimeoutMillis: Int64 := 172_800_000

  // ---------------------------------------------------------------------------
  // Expiry
  // ---------------------------------------------------------------------------

  /** The filter of getExpiredRequests: `time + timeoutMillis < now`, with
      the addition done in Java `long` arithmetic. */
  predicate IsExpired(time: Int64, timeout: Int64, now: Int64)
    ensures MinInt64 <= time + timeout <= MaxInt64 ==>
              (IsExpired(time, timeout, now) <==> now - time > timeout)
    ensures time + timeout > MaxInt64 && now >= 0 ==> IsExpired(time, timeout, now)
  {
    Wrap64(time + timeout) < now
  }

  /** getExpiredRequests: the ids whose request time lies more than the
      timeout before `now`. */
  function ExpiredIds(times: map<Int32, Int64>, timeout: Int64, now: Int64): (expired: set<Int32>)
    ensures expired <= times.Keys
    ensures forall id | id in times && MinInt64 <= times[id] + timeout <= MaxInt64 ::
              id in expired <==> now - times[id] > timeout
  {
    set id | id in times && IsExpired(times[id], timeout, now)
  }

  /** A request that has expired stays expired as time goes on. */
  lemma ExpiryIsMonotonic(times: map<Int32, Int64>, timeout: Int64, now: Int64, later: Int64)
    requires now <= later
    ensures ExpiredIds(times, timeout, now) <= ExpiredIds(times, timeout, later)
  {
  }

  // ---------------------------------------------------------------------------
  // The queue: LinkedList add / removeFirst / removeIf
  // ---------------------------------------------------------------------------

  /** The ids that have at least one entry in the queue. */
  function QueuedIds(queue: seq<RequestData>): set<Int32>
  {
    set d | d in queue :: d.requestId
  }

  /** removeIf(request -> ids contains request's id): the queue without the
      entries of the given ids, the others in their order. */
  function RemoveIds(queue: seq<RequestData>, ids: set<Int32>): (rest: seq<RequestData>)
    ensures |rest| <= |queue|
    ensures forall d :: d in rest <==> d in queue && d.requestId !in ids
  {
    if queue == [] then []
    else (if queue[0].requestId in ids then [] else [queue[0]]) + RemoveIds(queue[1..], ids)
  }

  /** Removing entries keeps the order of the rest: it distributes over
      concatenation. */
  lemma {:induction false} RemoveIdsAppend(a: seq<RequestData>, b: seq<RequestData>, ids: set<Int32>)
    ensures RemoveIds(a + b, ids) == RemoveIds(a, ids) + RemoveIds(b, ids)
  {
    if a == [] {
      assert a + b == b;
    } else {
      assert (a + b)[1..] == a[1..] + b;
      RemoveIdsAppend(a[1..], b, ids);
    }
  }

  /** A queue holding none of the ids is left exactly as it is. */
  lemma {:induction false} RemoveIdsAbsent(queue: seq<RequestData>, ids: set<Int32>)
    requires QueuedIds(queue) !! ids
    ensures RemoveIds(queue, ids) == queue
  {
    if queue != [] {
      assert queue[0] in queue;
      assert QueuedIds(queue[1..]) <= QueuedIds(queue) by {
        forall id | id in QueuedIds(queue[1..]) ensures id in QueuedIds(queue) {
          var d :| d in queue[1..] && d.requestId == id;
          assert d in queue;
        }
      }
      RemoveIdsAbsent(queue[1..], ids);
    }
  }

  /** Removing one batch of ids and then another is removing both at once. */
  lemma {:induction false} RemoveIdsTwice(queue: seq<RequestData>, first: set<Int32>, second: set<Int32>)
    ensures RemoveIds(RemoveIds(queue, first), second) == RemoveIds(queue, first + second)
  {
    if queue != [] {
      RemoveIdsTwice(queue[1..], first, second);
      var head := if queue[0].requestId in first then [] else [queue[0]];
      RemoveIdsAppend(head, RemoveIds(queue[1..], first), second);
      if queue[0].requestId !in first {
        assert head[1..] == [];
      }
    }
  }

  /** An id is still queued after a removal exactly when it was queued and
      was not among the removed ids. */
  lemma QueuedAfterRemoval(queue: seq<RequestData>, ids: set<Int32>, id: Int32)
    ensures id in QueuedIds(RemoveIds(queue, ids)) <==> id in QueuedIds(queue) && id !in ids
  {
    if id in QueuedIds(queue) && id !in ids {
      var d :| d in queue && d.requestId == id;
      assert d in RemoveIds(queue, ids);
    }
  }

  // ---------------------------------------------------------------------------
  // The clean-up sweep, stated on the bookkeeping of every id
  // ---------------------------------------------------------------------------

  /** The broker's bookkeeping with responses reduced to the ids that have
      one: the queue, the ids with a stored response, the ids with a waiter
      (responseLocks/responseConditions) and the request times. */
  datatype Bookkeeping = Bookkeeping(
    queue: seq<RequestData>,
    answered: set<Int32>,
    waiters: set<Int32>,
    times: map<Int32, Int64>)

  /** cleanUp's loop body for one expired id, on the bookkeeping: an id
      with a stored response loses it together with its waiter and request
      time; otherwise its queue entries are removed, and if it had none and
      a waiter is registered, it is answered with the timeout response. */
  function CleanedUpOne(b: Bookkeeping, id: Int32): (a: Bookkeeping)
    ensures id in b.answered ==>
              a.queue == b.queue && id !in a.answered && id !in a.waiters && id !in a.times
    ensures id !in b.answered ==>
              && id !in QueuedIds(a.queue) && a.waiters == b.waiters && a.times == b.times
              && (id in a.answered <==> id !in QueuedIds(b.queue) && id in b.waiters)
    ensures a.answered - {id} == b.answered - {id}
    ensures a.waiters - {id} == b.waiters - {id}
    ensures a.times.Keys - {id} == b.times.Keys - {id}
    ensures QueuedIds(a.queue) - {id} == QueuedIds(b.queue) - {id}
    ensures a.times.Items <= b.times.Items
  {
    if id in b.answered then
      Bookkeeping(b.queue, b.answered - {id}, b.waiters - {id}, b.times - {id})
    else if id !in QueuedIds(b.queue) && id in b.waiters then
      Bookkeeping(RemoveIds(b.queue, {id}), b.answered + {id}, b.waiters, b.times)
    else
      Bookkeeping(RemoveIds(b.queue, {id}), b.answered, b.waiters, b.times)
  }

  /** The bookkeeping after the loop body has run for every id in `ids`,
      stated without the loop, so independent of the order of the ids. */
  function Swept(b: Bookkeeping, ids: set<Int32>): (a: Bookkeeping)
    ensures |a.queue| <= |b.queue|
    ensures a.waiters <= b.waiters
    ensures a.times.Items <= b.times.Items
    ensures a.answered - ids == b.answered - ids
    ensures a.waiters - ids == b.waiters - ids
    ensures a.times.Keys - ids == b.times.Keys - ids
  {
    var collected := ids * b.answered;
    var unanswered := ids - b.answered;
    var timedOut := (unanswered - QueuedIds(b.queue)) * b.waiters;
    Bookkeeping(RemoveIds(b.queue, unanswered),
                b.answered - collected + timedOut,
                b.waiters - collected,
                b.times - collected)
  }

  /** What one run of cleanUp leaves: every expired id swept once. Of the
      expired ids,
      - one with a stored response loses its response, its waiter and its
        request time, and the queue is not touched for it;
      - one without a response that is still queued loses its queue entries
        and keeps its request time;
      - one without a response that is no longer queued receives a timeout
        response, if a waiter is registered for it, and keeps its request
        time. */
  function CleanedUp(b: Bookkeeping, timeout: Int64, now: Int64): (a: Bookkeeping)
    ensures |a.queue| <= |b.queue|
    ensures a.waiters <= b.waiters
    ensures a.times.Items <= b.times.Items
    ensures a.answered <= b.answered + ExpiredIds(b.times, timeout, now)
  {
    Swept(b, ExpiredIds(b.times, timeout, now))
  }

  /** Sweeping no id changes nothing. */
  lemma SweptNothing(b: Bookkeeping)
    ensures Swept(b, {}) == b
  {
    var none: set<Int32> := {};
    assert none - b.answered == {} && none * b.answered == {};
    RemoveIdsAbsent(b.queue, {});
  }

  /** Sweeping one more id is one more run of the loop body, whatever the
      ids swept before: the sweep's result does not depend on the order in
      which the expired ids come. */
  lemma SweptStep(b: Bookkeeping, done: set<Int32>, id: Int32)
    requires id !in done
    ensures Swept(b, done + {id}) == CleanedUpOne(Swept(b, done), id)
  {
    if id in b.answered {
      SweptStepAnswered(b, done, id);
    } else {
      SweptStepUnanswered(b, done, id);
    }
  }

  /** SweptStep for an id with a stored response. */
  lemma SweptStepAnswered(b: Bookkeeping, done: set<Int32>, id: Int32)
    requires id !in done && id in b.answered
    ensures Swept(b, done + {id}) == CleanedUpOne(Swept(b, done), id)
  {
    var s := Swept(b, done);
    var t := Swept(b, done + {id});
    var timedOut := ((done - b.answered) - QueuedIds(b.queue)) * b.waiters;
    assert (done + {id}) - b.answered == done - b.answered;
    assert (done + {id}) * b.answered == done * b.answered + {id};
    assert id in s.answered && id !in timedOut;
    assert t.queue == s.queue;
    assert t.answered == s.answered - {id};
    assert t.waiters == s.waiters - {id};
    assert t.times == s.times - {id};
  }

  /** SweptStep for an id without a stored response. */
  lemma SweptStepUnanswered(b: Bookkeeping, done: set<Int32>, id: Int32)
    requires id !in done && id !in b.answered
    ensures Swept(b, done + {id}) == CleanedUpOne(Swept(b, done), id)
  {
    var s := Swept(b, done);
    var t := Swept(b, done + {id});
    var unanswered := done - b.answered;
    assert (done + {id}) * b.answered == done * b.answered;
    assert (done + {id}) - b.answered == unanswered + {id};
    RemoveIdsTwice(b.queue, unanswered, {id});
    assert t.queue == RemoveIds(s.queue, {id});
    QueuedAfterRemoval(b.queue, unanswered, id);
    assert id !in s.answered;
    assert id in s.waiters <==> id in b.waiters;
    assert t.waiters == s.waiters && t.times == s.times;
    if id !in QueuedIds(s.queue) && id in s.waiters {
      assert t.answered == s.answered + {id};
    } else {
      assert t.answered == s.answered;
    }
  }

  /** An id that has not expired keeps all its bookkeeping. */
  lemma CleanUpSparesLiveIds(b: Bookkeeping, timeout: Int64, now: Int64, id: Int32)
    requires id !in ExpiredIds(b.times, timeout, now)
    ensures var a := CleanedUp(b, timeout, now);
            && (id in a.answered <==> id in b.answered)
            && (id in a.waiters <==> id in b.waiters)
            && (id in a.times <==> id in b.times)
            && (id in b.times ==> a.times[id] == b.times[id])
            && (id in QueuedIds(a.queue) <==> id in QueuedIds(b.queue))
  {
    QueuedAfterRemoval(b.queue, ExpiredIds(b.times, timeout, now) - b.answered, id);
  }

  /** An expired id with a stored response loses all its bookkeeping, and its
      queue entries (normally none) are not touched. */
  lemma CleanUpCollectsAnswered(b: Bookkeeping, timeout: Int64, now: Int64, id: Int32)
    requires id in ExpiredIds(b.times, timeout, now) && id in b.answered
    ensures var a := CleanedUp(b, timeout, now);
            && id !in a.answered && id !in a.waiters && id !in a.times
            && (id in QueuedIds(a.queue) <==> id in QueuedIds(b.queue))
  {
    QueuedAfterRemoval(b.queue, ExpiredIds(b.times, timeout, now) - b.answered, id);
  }

  /** An expired id without a response that is still queued is dropped from
      the queue; it keeps its request time and its waiter, and gets no
      response yet. */
  lemma CleanUpDropsQueued(b: Bookkeeping, timeout: Int64, now: Int64, id: Int32)
    requires id in ExpiredIds(b.times, timeout, now) && id !in b.answered
    requires id in QueuedIds(b.queue)
    ensures var a := CleanedUp(b, timeout, now);
            && id !in QueuedIds(a.queue)
            && id in a.times && a.times[id] == b.times[id]
            && id !in a.answered
            && (id in a.waiters <==> id in b.waiters)
  {
    QueuedAfterRemoval(b.queue, ExpiredIds(b.times, timeout, now) - b.answered, id);
  }

  /** An expired id without a response that has been picked up gets the
      timeout response when a waiter is registered for it (registerResponse
      discards it otherwise), and keeps its request time either way. */
  lemma CleanUpTimesOutPickedUp(b: Bookkeeping, timeout: Int64, now: Int64, id: Int32)
    requires id in ExpiredIds(b.times, timeout, now) && id !in b.answered
    requires id !in QueuedIds(b.queue)
    ensures var a := CleanedUp(b, timeout, now);
            && (id in a.answered <==> id in b.waiters)
            && id in a.times && a.times[id] == b.times[id]
            && (id in a.waiters <==> id in b.waiters)
            && id !in QueuedIds(a.queue)
  {
    QueuedAfterRemoval(b.queue, ExpiredIds(b.times, timeout, now) - b.answered, id);
  }

  /** The sweep never replaces a genuine response: an id that had one either
      keeps it (not expired) or loses it together with the rest of its
      bookkeeping; timeout responses go only to ids that had none. */
  lemma CleanUpNeverOverwrites(b: Bookkeeping, timeout: Int64, now: Int64)
    ensures var a := CleanedUp(b, timeout, now);
            forall id :: id in a.answered && id !in b.answered ==>
              id in ExpiredIds(b.times, timeout, now) && id !in QueuedIds(b.queue) && id in b.waiters
  {
  }

  /** A request that expires while still queued, whose caller is still
      waiting, is answered with a timeout on the following sweep: the first
      sweep only drops it from the queue and keeps its request time. */
  lemma {:induction false} QueuedTimeoutAnsweredOnNextSweep(
    b: Bookkeeping, timeout: Int64, now: Int64, later: Int64, id: Int32)
    requires id in ExpiredIds(b.times, timeout, now) && id !in b.answered
    requires id in QueuedIds(b.queue) && id in b.waiters
    requires now <= later
    ensures id !in CleanedUp(b, timeout, now).answered
    ensures id in CleanedUp(CleanedUp(b, timeout, now), timeout, later).answered
  {
    var a := CleanedUp(b, timeout, now);
    CleanUpDropsQueued(b, timeout, now, id);
    assert IsExpired(a.times[id], timeout, later);
    assert id in ExpiredIds(a.times, timeout, later);
    CleanUpTimesOutPickedUp(a, timeout, later, id);
  }

  /** The invariant "every stored response has a registered waiter" is kept
      by the sweep. */
  lemma CleanUpKeepsResponsesWaited(b: Bookkeeping, timeout: Int64, now: Int64)
    requires b.answered <= b.waiters
    ensures CleanedUp(b, timeout, now).answered <= CleanedUp(b, timeout, now).waiters
  {
  }

  // ---------------------------------------------------------------------------
  // The finding about popRequest's spurious-wake-up guard
  // ---------------------------------------------------------------------------

  /** The guard's threshold as written: `waitingTime * 1000000000` multiplies
      two Java `int`s, so the product wraps before it is widened to `long`. */
  function WakeupThresholdAsWritten(waitingTime: Int32): Int32
  {
    Wrap32(waitingTime * 1_000_000_000)
  }

  /** Whether the loop gives up after a wake-up at `elapsedNanos`, as written. */
  predicate GivesUpAsWritten(waitingTime: Int32, elapsedNanos: Int64)
  {
    elapsedNanos > WakeupThresholdAsWritten(waitingTime)
  }

  /** With the default waiting time of 30 seconds the threshold is negative,
      so even a spurious wake-up right away ends the wait; with 5 seconds the
      wait ends after about 0.7 seconds. */
  lemma WakeupGuardAsWrittenFails()
    ensures WakeupThresholdAsWritten(30) == -64_771_072
    ensures GivesUpAsWritten(30, 0)
    ensures WakeupThresholdAsWritten(5) == 705_032_704
  {
  }

  /** The threshold as intended: the waiting time in nanoseconds, computed in
      `long` (it fits for every `int` waiting time). */
  function WakeupThreshold(waitingTime: Int32): Int64
  {
    waitingTime * 1_000_000_000
  }

  predicate GivesUp(waitingTime: Int32, elapsedNanos: Int64)
  {
    elapsedNanos > WakeupThreshold(waitingTime)
  }

  /** The intended threshold is the true product: computing it in `long`
      never wraps, so no wake-up at the very start ends a non-negative wait
      (unlike GivesUpAsWritten(30, 0)). */
  lemma WakeupGuardGivesUpAfterWaitingTime(waitingTime: Int32)
    ensures Wrap64(waitingTime * 1_000_000_000) == WakeupThreshold(waitingTime)
    ensures waitingTime >= 0 ==> !GivesUp(waitingTime, 0)
  {
  }

  /** The guard as written agrees with the intended one only for waiting
      times of at most two seconds (in either direction). */
  lemma WakeupThresholdsAgreeUpToTwoSeconds(waitingTime: Int32)
    ensures WakeupThresholdAsWritten(waitingTime) == WakeupThreshold(waitingTime) <==> -2 <= waitingTime <= 2
  {
  }

  // ---------------------------------------------------------------------------
  // The broker
  // ---------------------------------------------------------------------------

  /** The outcome of the wait for a response. */
  datatype WaitOutcome =
    | Blocked                           // no response yet: the caller still waits
    | Interrupted                       // the wait was interrupted (InterruptedException)
    | Delivered(response: ResponseData) // the registered response is returned

  class RequestManager {
    var requestCounter: Int32
    var requestQueue: seq<RequestData>
    var responses: map<Int32, ResponseData>
    /** The ids present in responseLocks and responseConditions; both maps
        gain and lose an id together in every step of this model. */
    var waiters: set<Int32>
    var requestTimes: map<Int32, Int64>
    var timeoutMillis: Int64

    /** Ids are never negative, and a response is only ever stored for an id
        somebody waits for. */
    ghost predicate Valid()
      reads this
    {
      requestCounter >= 0 && responses.Keys <= waiters
    }

    /** The bookkeeping, with responses reduced to their ids. */
    function Books(): Bookkeeping
      reads this
    {
      Bookkeeping(requestQueue, responses.Keys, waiters, requestTimes)
    }

    constructor ()
      ensures Valid()
      ensures requestCounter == 0 && requestQueue == [] && responses == map[]
      ensures waiters == {} && requestTimes == map[]
      ensures timeoutMillis == DefaultTimeoutMillis
    {
      requestCounter := 0;
      requestQueue := [];
      responses := map[];
      waiters := {};
      requestTimes := map[];
      timeoutMillis := DefaultTimeoutMillis;
    }

    /** newRequestId */
    method NewRequestId() returns (id: Int32)
      requires Valid()
      modifies this`requestCounter
      ensures Valid()
      ensures requestCounter == Counter.NextRequestId(old(requestCounter))
      ensures id == requestCounter && id >= 0
      ensures old(requestCounter) < MaxInt32 ==> id == old(requestCounter) + 1
      ensures old(requestCounter) == MaxInt32 ==> id == 0
    {
      requestCounter := Counter.NextRequestId(requestCounter);
      id := requestCounter;
    }

    /** queueRequest: record the request time, then append the request. */
    method QueueRequest(request: ServletRequest, requestId: Int32, now: Int64, lineSeparator: string)
      requires Valid()
      modifies this`requestTimes, this`requestQueue
      ensures Valid()
      ensures requestTimes == old(requestTimes)[requestId := now]
      ensures requestQueue == old(requestQueue) + [RequestDataOf(request, requestId, lineSeparator)]
    {
      requestTimes := requestTimes[requestId := now];
      var data := NewRequestData(request, requestId, lineSeparator);
      requestQueue := requestQueue + [data];
    }

    /** popRequest, once its wait is over: the head of the queue, or None
        (null) when the queue is still empty. */
    method PopRequest() returns (r: Option<RequestData>)
      requires Valid()
      modifies this`requestQueue
      ensures Valid()
      ensures old(requestQueue) == [] ==> r == None && requestQueue == []
      ensures old(requestQueue) != [] ==>
                r == Some(old(requestQueue)[0]) && requestQueue == old(requestQueue)[1..]
    {
      if requestQueue == [] {
        r := None;
      } else {
        r := Some(requestQueue[0]);
        requestQueue := requestQueue[1..];
      }
    }

    /** waitForResponse up to the wait: the caller's lock and condition are
        registered under its id. */
    method WaitForResponseBegin(requestId: Int32)
      requires Valid()
      modifies this`waiters
      ensures Valid()
      ensures waiters == old(waiters) + {requestId}
    {
      waiters := waiters + {requestId};
    }

    /** waitForResponse from the wait on: the loop ends once a response is
        stored; otherwise the caller stays blocked unless interrupted. When
        the wait ends either way, the finally block removes the id's
        response, waiter and request time. */
    method WaitForResponseEnd(requestId: Int32, interrupted: bool) returns (outcome: WaitOutcome)
      requires Valid()
      modifies this`responses, this`waiters, this`requestTimes
      ensures Valid()
      ensures requestId in old(responses) ==> outcome == Delivered(old(responses)[requestId])
      ensures requestId !in old(responses) ==> outcome == if interrupted then Interrupted else Blocked
      ensures outcome == Blocked ==>
                responses == old(responses) && waiters == old(waiters) && requestTimes == old(requestTimes)
      ensures outcome != Blocked ==>
                && responses == old(responses) - {requestId}
                && waiters == old(waiters) - {requestId}
                && requestTimes == old(requestTimes) - {requestId}
    {
      if requestId in responses {
        outcome := Delivered(responses[requestId]);
      } else if interrupted {
        outcome := Interrupted;
      } else {
        return Blocked;
      }
      responses := responses - {requestId};
      waiters := waiters - {requestId};
      RemoveRequestTime(requestId);
    }

    /** relayRequest up to the wait: allocate an id, queue the request under
        it with the current time, and register the caller as its waiter.
        The waiter registers only after the request is queued. */
    method RelayRequestBegin(request: ServletRequest, now: Int64, lineSeparator: string) returns (requestId: Int32)
      requires Valid()
      modifies this`requestCounter, this`requestTimes, this`requestQueue, this`waiters
      ensures Valid()
      ensures requestId == requestCounter == Counter.NextRequestId(old(requestCounter))
      ensures requestTimes == old(requestTimes)[requestId := now]
      ensures requestQueue == old(requestQueue) + [RequestDataOf(request, requestId, lineSeparator)]
      ensures waiters == old(waiters) + {requestId}
    {
      requestId := NewRequestId();
      QueueRequest(request, requestId, now, lineSeparator);
      WaitForResponseBegin(requestId);
    }

    /** removeRequestTime, and removeFromRequestTimes which is the same code. */
    method RemoveRequestTime(requestId: Int32)
      modifies this`requestTimes
      ensures requestTimes == old(requestTimes) - {requestId}
    {
      requestTimes := requestTimes - {requestId};
    }

    /** registerResponse: store the response and wake its waiter, or discard
        it when nobody waits for that id (any more). */
    method RegisterResponse(response: ResponseData)
      requires Valid()
      modifies this`responses
      ensures Valid()
      ensures response.requestId in waiters ==> responses == old(responses)[response.requestId := response]
      ensures response.requestId !in waiters ==> responses == old(responses)
    {
      var requestId := response.requestId;
      if requestId in waiters {
        responses := responses[requestId := response];
      }
    }

    /** removeRequestFromQueue: drop every entry with the id; report whether
        there was one. */
    method RemoveRequestFromQueue(requestId: Int32) returns (removed: bool)
      modifies this`requestQueue
      ensures removed == (requestId in QueuedIds(old(requestQueue)))
      ensures requestQueue == RemoveIds(old(requestQueue), {requestId})
      ensures requestId !in QueuedIds(requestQueue)
    {
      removed := requestId in QueuedIds(requestQueue);
      QueuedAfterRemoval(requestQueue, {requestId}, requestId);
      requestQueue := RemoveIds(requestQueue, {requestId});
    }

    /** startCleanUpTask, without the scheduling: a given timeout replaces the
        current one; none keeps it (initially the two-day default). */
    method StartCleanUpTask(timeout: Option<Int64>)
      modifies this`timeoutMillis
      ensures timeoutMillis == if timeout.Some? then timeout.value else old(timeoutMillis)
    {
      if timeout.Some? {
        timeoutMillis := timeout.value;
      }
    }

    /** The body of cleanUp's loop for one expired id. */
    method CleanUpRequest(requestId: Int32)
      requires Valid()
      modifies this`responses, this`waiters, this`requestTimes, this`requestQueue
      ensures Valid()
      ensures Books() == CleanedUpOne(old(Books()), requestId)
      ensures forall id :: id in responses ==>
                if id in old(responses) then responses[id] == old(responses)[id]
                else id == requestId && fresh(responses[id]) && IsTimeoutResponse(responses[id], id)
    {
      if requestId in responses {
        responses := responses - {requestId};
        waiters := waiters - {requestId};
        RemoveRequestTime(requestId);
      } else {
        var removed := RemoveRequestFromQueue(requestId);
        if !removed {
          var timeout := ResponseData.CreateTimeoutResponse(requestId);
          RegisterResponse(timeout);
        }
      }
    }

    /** cleanUp: one sweep over the expired ids, in the unspecified order in
        which the request-time map yields them. */
    method CleanUp(now: Int64)
      requires Valid()
      modifies this
      ensures Valid()
      ensures Books() == CleanedUp(old(Books()), old(timeoutMillis), now)
      ensures requestCounter == old(requestCounter) && timeoutMillis == old(timeoutMillis)
      ensures forall id :: id in responses ==>
                if id in old(responses) then responses[id] == old(responses)[id]
                else fresh(responses[id]) && IsTimeoutResponse(responses[id], id)
    {
      ghost var b := Books();
      ghost var before := responses;
      var expired := ExpiredIds(requestTimes, timeoutMillis, now);
      var pending := expired;
      ghost var done: set<Int32> := {};
      SweptNothing(b);
      while pending != {}
        invariant pending + done == expired && pending !! done
        invariant Valid()
        invariant requestCounter == old(requestCounter) && timeoutMillis == old(timeoutMillis)
        invariant Books() == Swept(b, done)
        invariant forall id :: id in responses ==>
                    if id in before then responses[id] == before[id]
                    else fresh(responses[id]) && IsTimeoutResponse(responses[id], id)
        decreases pending
      {
        var id :| id in pending;
        SweptStep(b, done, id);
        CleanUpRequest(id);
        pending := pending - {id};
        done := done + {id};
      }
    }
  }
}
