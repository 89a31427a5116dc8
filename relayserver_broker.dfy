/** The request broker of the first relay server (relayserver's
    RequestManager): a counter and a queue, with relaying stopping after the
    request is stored. The Java class keeps its state in static fields and
    serialises every method; here it is one object and each method is one
    atomic step. */
module RelayServerBroker {
  import opened Wrappers
  import opened JavaInt
  import opened Servlet
  import opened RelayServerRecords
  import Counter

  /** The queued ids increase strictly from head to tail and none exceeds
      the counter, so every fresh id is larger than all queued ones. */
  ghost predicate IdsAscending(queue: seq<RequestData>, counter: Int32)
  {
    && (forall i, j :: 0 <= i < j < |queue| ==> queue[i].requestId < queue[j].requestId)
    && (forall i :: 0 <= i < |queue| ==> queue[i].requestId <= counter)
  }

  /** Appending a request under the next id keeps the ids ascending, as long
      as the counter does not overflow. */
  lemma AppendKeepsIdsAscending(queue: seq<RequestData>, counter: Int32, d: RequestData)
    requires IdsAscending(queue, counter) && counter < MaxInt32
    requires d.requestId == Counter.NextRequestId(counter)
    ensures IdsAscending(queue + [d], Counter.NextRequestId(counter))
  {
  }

  class RequestManager {
    var requestCounter: Int32
    var requestQueue: seq<RequestData>

    constructor ()
      ensures requestCounter == 0 && requestQueue == []
      ensures IdsAscending(requestQueue, requestCounter)
    {
      requestCounter := 0;
      requestQueue := [];
    }

    /** newRequestId */
    method NewRequestId() returns (id: Int32)
      modifies this`requestCounter
      ensures requestCounter == Counter.NextRequestId(old(requestCounter))
      ensures id == requestCounter && id >= 0
      ensures old(requestCounter) == MaxInt32 ==> id == 0
    {
      requestCounter := Counter.NextRequestId(requestCounter);
      id := requestCounter;
    }

    /** storeRequest: append the request under a freshly allocated id. */
    method StoreRequest(request: ServletRequest, lineSeparator: string)
      modifies this
      ensures requestCounter == Counter.NextRequestId(old(requestCounter))
      ensures requestQueue == old(requestQueue) + [RequestDataOf(request, requestCounter, lineSeparator)]
      ensures old(IdsAscending(requestQueue, requestCounter)) && old(requestCounter) < MaxInt32 ==>
                IdsAscending(requestQueue, requestCounter)
    {
      ghost var queue, counter := requestQueue, requestCounter;
      var id := NewRequestId();
      var data := NewRequestData(request, id, lineSeparator);
      requestQueue := requestQueue + [data];
      if IdsAscending(queue, counter) && counter < MaxInt32 {
        AppendKeepsIdsAscending(queue, counter, data);
      }
    }

    /** relayRequest: only stores the request; waiting for and writing the
        answer are not implemented in this package. */
    method RelayRequest(request: ServletRequest, lineSeparator: string)
      modifies this
      ensures requestCounter == Counter.NextRequestId(old(requestCounter))
      ensures requestQueue == old(requestQueue) + [RequestDataOf(request, requestCounter, lineSeparator)]
    {
      StoreRequest(request, lineSeparator);
    }

    /** popRequest: None (null) on an empty queue, otherwise the head. */
    method PopRequest() returns (r: Option<RequestData>)
      modifies this`requestQueue
      ensures old(requestQueue) == [] ==> r == None && requestQueue == []
      ensures old(requestQueue) != [] ==>
                r == Some(old(requestQueue)[0]) && requestQueue == old(requestQueue)[1..]
      ensures old(IdsAscending(requestQueue, requestCounter)) ==> IdsAscending(requestQueue, requestCounter)
    {
      if requestQueue == [] {
        r := None;
      } else {
        r := Some(requestQueue[0]);
        requestQueue := requestQueue[1..];
      }
    }

    /** registerAnswer: an empty body; it reads nothing and changes nothing. */
    method RegisterAnswer(request: ServletRequest)
      ensures requestQueue == old(requestQueue) && requestCounter == old(requestCounter)
    {
    }
  }
}
