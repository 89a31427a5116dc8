/** The request and response records of the relay server that preceded the
    queue server (package httprelayserver). */
module HttpRelayRecords {
  import opened Wrappers
  import opened JavaInt
  import opened Servlet

  /** An immutable relay request. */
  datatype RequestData = RequestData(
    requestId: Int32,
    httpMethod: string,
    uri: string,
    headers: map<string, seq<string>>,
    body: string)

  /** This package's ResponseData is a plain holder without behaviour. */
  datatype ResponseData = ResponseData(
    requestId: Int32,
    statusCode: Int32,
    headers: map<string, seq<string>>,
    body: string)

  /** extractHeaders: every enumerated name is kept, nothing is filtered. */
  method ExtractHeaders(req: ServletRequest) returns (headers: map<string, seq<string>>)
    ensures headers == HeaderMultimap(req.headerNames, req.header, {})
    ensures req.headerNames == None ==> headers == map[]
    ensures req.headerNames.Some? ==>
              && headers.Keys == set name | name in req.headerNames.value
              && forall name :: name in headers ==> |headers[name]| == Occurrences(req.headerNames.value, name)
  {
    headers := GroupHeaders(req.headerNames, req.header, {});
  }

  /** extractBody: only a POST has its lines read; PUT is not included. */
  function ExtractBody(req: ServletRequest, lineSeparator: string): (body: string)
    ensures req.httpMethod != "POST" ==> body == ""
    ensures req.httpMethod == "POST" ==> body == JoinLines(req.bodyLines, lineSeparator)
  {
    if req.httpMethod == "POST" then JoinLines(req.bodyLines, lineSeparator) else ""
  }

  /** The record the constructor builds, stated as a value. */
  function RequestDataOf(req: ServletRequest, requestId: Int32, lineSeparator: string): (d: RequestData)
    ensures d.requestId == requestId && d.httpMethod == req.httpMethod
    ensures req.headerNames == None ==> d.headers == map[]
    ensures req.headerNames.Some? ==>
              forall name :: name in d.headers <==> name in req.headerNames.value
    ensures forall name | name in d.headers ::
              forall i :: 0 <= i < |d.headers[name]| ==> d.headers[name][i] == req.header(name)
    ensures req.httpMethod != "POST" ==> d.body == ""
  {
    RequestData(requestId, req.httpMethod, ExtractUri(req),
                HeaderMultimap(req.headerNames, req.header, {}),
                ExtractBody(req, lineSeparator))
  }

  /** The constructor RequestData(request, requestId). */
  method NewRequestData(req: ServletRequest, requestId: Int32, lineSeparator: string) returns (d: RequestData)
    ensures d == RequestDataOf(req, requestId, lineSeparator)
    ensures d.requestId == requestId && d.httpMethod == req.httpMethod
  {
    var httpMethod := req.httpMethod;
    var uri := ExtractUri(req);
    var headers := ExtractHeaders(req);
    var body := ExtractBody(req, lineSeparator);
    d := RequestData(requestId, httpMethod, uri, headers, body);
  }
}
