/** The request broker of the relay server (httprelayserver's
    RequestManager), the predecessor of the queue server's broker: no request
    times and no clean-up, a pop that never waits, and a registerResponse
    that fails when nobody waits for the id.

    The Java class keeps its state in static fields; here it is one object.
    Each operation is one atomic step, and the wait for a response is split
    into WaitForResponseBegin and WaitForResponseEnd. */
module HttpRelayBroker {
  import opened Wrappers
  import opened JavaInt
  import opened Servlet
  import opened HttpRelayRecords
  import Counter

  /** How waitForResponse ends. */
  datatype WaitEnd =
    | StillWaiting      // no response yet: the caller stays blocked
    | WaitInterrupted   // InterruptedException: propagated before any clean-up
    | ResponseArrived   // the loop saw a response and the waiter is removed

  /** How relayRequest ends once its request is queued. */
  datatype RelayOutcome =
    | Pending
    | Interrupted
    | Delivered(response: ResponseData)

  class RequestManager {
    var requestCounter: Int32
    var requestQueue: seq<RequestData>
    var responses: map<Int32, ResponseData>
    /** The ids present in responseLocks and responseConditions. */
    var waiters: set<Int32>

    ghost predicate Valid()
      reads this
    {
      requestCounter >= 0
    }

    constructor ()
      ensures Valid()
      ensures requestCounter == 0 && requestQueue == [] && responses == map[] && waiters == {}
    {
      requestCounter := 0;
      requestQueue := [];
      responses := map[];
      waiters := {};
    }

    /** newRequestId */
    method NewRequestId() returns (id: Int32)
      requires Valid()
      modifies this`requestCounter
      ensures Valid()
      ensures requestCounter == Counter.NextRequestId(old(requestCounter))
      ensures id == requestCounter && id >= 0
      ensures old(requestCounter) < MaxInt32 ==> id == old(requestCounter) + 1
      ensures old(requestCounter) == MaxInt32 ==> id == 0
    {
      requestCounter := Counter.NextRequestId(requestCounter);
      id := requestCounter;
    }

    /** queueRequest: append the request; nothing else changes. */
    method QueueRequest(request: ServletRequest, requestId: Int32, lineSeparator: string)
      modifies this`requestQueue
      ensures requestQueue == old(requestQueue) + [RequestDataOf(request, requestId, lineSeparator)]
    {
      var data := NewRequestData(request, requestId, lineSeparator);
      requestQueue := requestQueue + [data];
    }

    /** popRequest: never waits; None (null) on an empty queue. */
    method PopRequest() returns (r: Option<RequestData>)
      modifies this`requestQueue
      ensures old(requestQueue) == [] ==> r == None && requestQueue == []
      ensures old(requestQueue) != [] ==>
                r == Some(old(requestQueue)[0]) && requestQueue == old(requestQueue)[1..]
    {
      if requestQueue == [] {
        r := None;
      } else {
        r := Some(requestQueue[0]);
        requestQueue := requestQueue[1..];
      }
    }

    /** waitForResponse up to the wait: register the caller's lock and
        condition. */
    method WaitForResponseBegin(requestId: Int32)
      modifies this`waiters
      ensures waiters == old(waiters) + {requestId}
    {
      waiters := waiters + {requestId};
    }

    /** waitForResponse from the wait on. Once a response is stored the
        waiter is removed and the response is left for relayRequest. The
        removal is not in a finally block, so an interrupted wait leaves the
        waiter registered. */
    method WaitForResponseEnd(requestId: Int32, interrupted: bool) returns (outcome: WaitEnd)
      modifies this`waiters
      ensures requestId in responses ==> outcome == ResponseArrived && waiters == old(waiters) - {requestId}
      ensures requestId !in responses ==>
                outcome == (if interrupted then WaitInterrupted else StillWaiting) && waiters == old(waiters)
    {
      if requestId in responses {
        waiters := waiters - {requestId};
        outcome := ResponseArrived;
      } else if interrupted {
        outcome := WaitInterrupted;
      } else {
        outcome := StillWaiting;
      }
    }

    /** relayRequest up to the wait: allocate an id, queue the request under
        it, and register the caller as its waiter. */
    method RelayRequestBegin(request: ServletRequest, lineSeparator: string) returns (requestId: Int32)
      requires Valid()
      modifies this`requestCounter, this`requestQueue, this`waiters
      ensures Valid()
      ensures requestId == requestCounter == Counter.NextRequestId(old(requestCounter))
      ensures requestQueue == old(requestQueue) + [RequestDataOf(request, requestId, lineSeparator)]
      ensures waiters == old(waiters) + {requestId}
    {
      requestId := NewRequestId();
      QueueRequest(request, requestId, lineSeparator);
      WaitForResponseBegin(requestId);
    }

    /** relayRequest after queueing: wait, then take the response out of
        `responses`, leaving no entry for the id. */
    method RelayRequestEnd(requestId: Int32, interrupted: bool) returns (outcome: RelayOutcome)
      modifies this`waiters, this`responses
      ensures requestId in old(responses) ==>
                && outcome == Delivered(old(responses)[requestId])
                && responses == old(responses) - {requestId}
                && waiters == old(waiters) - {requestId}
      ensures requestId !in old(responses) ==>
                && outcome == (if interrupted then Interrupted else Pending)
                && responses == old(responses) && waiters == old(waiters)
    {
      var ended := WaitForResponseEnd(requestId, interrupted);
      if ended == ResponseArrived {
        var response := responses[requestId];
        responses := responses - {requestId};
        outcome := Delivered(response);
      } else if ended == WaitInterrupted {
        outcome := Interrupted;
      } else {
        outcome := Pending;
      }
    }

    /** registerResponse: with a waiter for the id the response is stored;
        without one, `responseLock.lock()` dereferences null and the call
        fails (registered == false) before anything changes. */
    method RegisterResponse(response: ResponseData) returns (registered: bool)
      modifies this`responses
      ensures registered == (response.requestId in waiters)
      ensures registered ==> responses == old(responses)[response.requestId := response]
      ensures !registered ==> responses == old(responses)
    {
      var requestId := response.requestId;
      if requestId !in waiters {
        return false;
      }
      responses := responses[requestId := response];
      registered := true;
    }
  }
}
