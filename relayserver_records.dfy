/** The request record of the first relay server (package relayserver). */
module RelayServerRecords {
  import opened Wrappers
  import opened JavaInt
  import opened Servlet

  /** An immutable relay request. The URI is the servlet's path info, which
      may be null. */
  datatype RequestData = RequestData(
    requestId: Int32,
    httpMethod: string,
    uri: Option<string>,
    headers: map<string, seq<string>>,
    body: string)

  /** The record the constructor builds, stated as a value. */
  function RequestDataOf(req: ServletRequest, requestId: Int32, lineSeparator: string): (d: RequestData)
    ensures d.requestId == requestId && d.httpMethod == req.httpMethod && d.uri == req.pathInfo
    ensures req.headerNames == None ==> d.headers == map[]
    ensures req.headerNames.Some? ==>
              forall name :: name in d.headers <==> name in req.headerNames.value
    ensures forall name | name in d.headers ::
              forall i :: 0 <= i < |d.headers[name]| ==> d.headers[name][i] == req.header(name)
    ensures req.httpMethod != "POST" ==> d.body == ""
  {
    RequestData(requestId, req.httpMethod, req.pathInfo,
                HeaderMultimap(req.headerNames, req.header, {}),
                if req.httpMethod == "POST" then JoinLines(req.bodyLines, lineSeparator) else "")
  }

  /** The constructor RequestData(request, requestId): method and path info
      are stored unchanged, every enumerated header is grouped by name, and
      only a POST has its body read. */
  method NewRequestData(req: ServletRequest, requestId: Int32, lineSeparator: string) returns (d: RequestData)
    ensures d == RequestDataOf(req, requestId, lineSeparator)
    ensures d.requestId == requestId && d.httpMethod == req.httpMethod && d.uri == req.pathInfo
    ensures req.headerNames == None ==> d.headers == map[]
    ensures req.headerNames.Some? ==>
              forall name :: name in d.headers <==> name in req.headerNames.value
    ensures req.headerNames.Some? ==>
              forall name :: name in d.headers ==> |d.headers[name]| == Occurrences(req.headerNames.value, name)
    ensures req.httpMethod != "POST" ==> d.body == ""
  {
    var headers := GroupHeaders(req.headerNames, req.header, {});
    var body := "";
    if req.httpMethod == "POST" {
      body := JoinLines(req.bodyLines, lineSeparator);
    }
    d := RequestData(requestId, req.httpMethod, req.pathInfo, headers, body);
  }
}
