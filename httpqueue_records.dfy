/** The request and response records of the polling queue server
    (package httpqueueserver). */
module HttpQueueRecords {
  import opened Wrappers
  import opened JavaInt
  import opened Servlet

  /** Header names a generic HTTP client may not set; they are dropped when a
      request is recorded. The match is exact and case-sensitive. */
  const RestrictedHeaders: set<string> := {"connection", "content-length", "expect", "host", "upgrade"}

  /** Methods whose body is read; every other method relays an empty body. */
  const BodyMethods: set<string> := {"POST", "PUT"}

  /** An immutable relay request: the id it is queued under and what the
      polling module needs to replay it. */
  datatype RequestData = RequestData(
    requestId: Int32,
    httpMethod: string,
    uri: string,
    headers: map<string, seq<string>>,
    body: string)

  /** extractHeaders: the multimap of non-restricted headers. */
  method ExtractHeaders(req: ServletRequest) returns (headers: map<string, seq<string>>)
    ensures headers == HeaderMultimap(req.headerNames, req.header, RestrictedHeaders)
    ensures forall name :: name in headers ==> name !in RestrictedHeaders
    ensures req.headerNames == None ==> headers == map[]
    ensures req.headerNames.Some? ==>
              forall name :: name in headers <==> name in req.headerNames.value && name !in RestrictedHeaders
    ensures req.headerNames.Some? ==>
              forall name :: name in req.headerNames.value && name !in RestrictedHeaders ==>
                name in headers && |headers[name]| == Occurrences(req.headerNames.value, name)
  {
    headers := GroupHeaders(req.headerNames, req.header, RestrictedHeaders);
  }

  /** extractBody: the joined body lines for POST and PUT, "" otherwise. */
  function ExtractBody(req: ServletRequest, lineSeparator: string): (body: string)
    ensures req.httpMethod != "POST" && req.httpMethod != "PUT" ==> body == ""
    ensures req.httpMethod == "POST" || req.httpMethod == "PUT" ==> body == JoinLines(req.bodyLines, lineSeparator)
  {
    if req.httpMethod in BodyMethods then JoinLines(req.bodyLines, lineSeparator) else ""
  }

  /** The record the constructor builds, stated as a value. */
  function RequestDataOf(req: ServletRequest, requestId: Int32, lineSeparator: string): (d: RequestData)
    ensures d.requestId == requestId && d.httpMethod == req.httpMethod
    ensures forall name :: name in d.headers ==> name !in RestrictedHeaders
    ensures req.headerNames == None ==> d.headers == map[]
    ensures req.headerNames.Some? ==>
              forall name :: name in d.headers <==> name in req.headerNames.value && name !in RestrictedHeaders
    ensures req.headerNames.Some? ==>
              forall name | name in req.headerNames.value && name !in RestrictedHeaders ::
                && name in d.headers
                && |d.headers[name]| == Occurrences(req.headerNames.value, name)
                && forall i :: 0 <= i < |d.headers[name]| ==> d.headers[name][i] == req.header(name)
    ensures req.httpMethod !in BodyMethods ==> d.body == ""
  {
    RequestData(requestId, req.httpMethod, ExtractUri(req),
                HeaderMultimap(req.headerNames, req.header, RestrictedHeaders),
                ExtractBody(req, lineSeparator))
  }

  /** The constructor RequestData(request, requestId). */
  method NewRequestData(req: ServletRequest, requestId: Int32, lineSeparator: string) returns (d: RequestData)
    ensures d == RequestDataOf(req, requestId, lineSeparator)
    ensures d.requestId == requestId && d.httpMethod == req.httpMethod
    ensures forall name :: name in d.headers ==> name !in RestrictedHeaders
    ensures req.headerNames == None ==> d.headers == map[]
    ensures req.headerNames.Some? ==>
              forall name :: name in d.headers <==> name in req.headerNames.value && name !in RestrictedHeaders
  {
    var uri := ExtractUri(req);
    var headers := ExtractHeaders(req);
    var body := ExtractBody(req, lineSeparator);
    d := RequestData(requestId, req.httpMethod, uri, headers, body);
  }

  /** The synthesized timeout response: 504 (Gateway Timeout), one
      Content-Type header with one value, and a fixed plain-text body. */
  const TimeoutStatus: Int32 := 504
  const TimeoutBody: string := "Timeout while processing request via polling."
  const TimeoutHeaders: map<string, seq<string>> := map["Content-Type" := ["text/plain; charset=UTF-8"]]

  /** A response to relay back to the original caller. Its fields are
      set one by one after construction, as the Java bean's are. */
  class ResponseData {
    var requestId: Int32
    var statusCode: Int32
    var headers: map<string, seq<string>>
    var body: string

    /** `new ResponseData()`: Java's zero values, with null modelled as empty. */
    constructor Empty()
      ensures requestId == 0 && statusCode == 0 && headers == map[] && body == ""
    {
      requestId, statusCode, headers, body := 0, 0, map[], "";
    }

    /** createTimeoutResponse: the 504 record the clean-up task delivers to a
        caller whose request was picked up but never answered. */
    static method CreateTimeoutResponse(requestId: Int32) returns (r: ResponseData)
      ensures fresh(r)
      ensures IsTimeoutResponse(r, requestId)
    {
      r := new ResponseData.Empty();
      r.requestId := requestId;
      r.statusCode := TimeoutStatus;
      r.headers := map[];
      r.SetBody(TimeoutBody);
      r.headers := r.headers["Content-Type" := TimeoutHeaders["Content-Type"]];
    }

    // The getters of the Java bean are the fields themselves.

    method SetRequestId(id: Int32)
      modifies this
      ensures requestId == id
      ensures statusCode == old(statusCode) && headers == old(headers) && body == old(body)
    {
      requestId := id;
    }

    method SetStatusCode(code: Int32)
      modifies this
      ensures statusCode == code
      ensures requestId == old(requestId) && headers == old(headers) && body == old(body)
    {
      statusCode := code;
    }

    method SetHeaders(h: map<string, seq<string>>)
      modifies this
      ensures headers == h
      ensures requestId == old(requestId) && statusCode == old(statusCode) && body == old(body)
    {
      headers := h;
    }

    method SetBody(b: string)
      modifies this
      ensures body == b
      ensures requestId == old(requestId) && statusCode == old(statusCode) && headers == old(headers)
    {
      body := b;
    }
  }

  /** `r` is the synthesized timeout response for `requestId`: that id,
      status 504, one Content-Type header with one value, the fixed text. */
  ghost predicate IsTimeoutResponse(r: ResponseData, requestId: Int32)
    reads r
  {
    && r.requestId == requestId
    && r.statusCode == TimeoutStatus
    && r.headers == TimeoutHeaders
    && r.body == TimeoutBody
  }
}
