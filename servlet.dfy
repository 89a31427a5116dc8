/** The servlet request as the three RequestData classes see it, and the
    extraction steps they share: the relayed URI, the header multimap and the
    joined body lines. */
module Servlet {
  import opened Wrappers

  /** The parts of an HttpServletRequest that the request records read.
      Java's null becomes None. `header` is getHeader(name); `bodyLines` are
      the lines of getReader(). */
  datatype ServletRequest = ServletRequest(
    httpMethod: string,
    contextPath: string,
    servletPath: string,
    requestUri: string,
    queryString: Option<string>,
    pathInfo: Option<string>,
    headerNames: Option<seq<string>>,
    header: string -> string,
    bodyLines: seq<string>)

  // ---------------------------------------------------------------------------
  // URI extraction (extractUri in httpqueueserver and httprelayserver)
  // ---------------------------------------------------------------------------

  /** Characters of the request URI that belong to the serving prefix:
      context path, servlet path and the slash after them. */
  function PrefixLength(req: ServletRequest): nat
  {
    |req.contextPath| + |req.servletPath| + 1
  }

  /** "?" followed by the query string, or nothing when there is none. */
  function QuerySuffix(query: Option<string>): string
  {
    match query
    case None => ""
    case Some(q) => "?" + q
  }

  /** The part of the URI relayed to the polling module, e.g. "abc/xyz?v=2"
      for a request to "/relay/abc/xyz?v=2". A URI shorter than the prefix
      (a request to "/relay" without a trailing slash) gives an empty path. */
  function ExtractUri(req: ServletRequest): (uri: string)
    ensures |req.requestUri| < PrefixLength(req) ==> uri == QuerySuffix(req.queryString)
    ensures |req.requestUri| >= PrefixLength(req) ==>
              req.requestUri[..PrefixLength(req)] + uri == req.requestUri + QuerySuffix(req.queryString)
  {
    var n := PrefixLength(req);
    var path := if |req.requestUri| < n then "" else req.requestUri[n..];
    path + QuerySuffix(req.queryString)
  }

  /** A URI made of the serving prefix, one separator character and a path
      is relayed as exactly that path plus the query. */
  lemma ExtractUriOfPrefixedPath(req: ServletRequest, slash: char, path: string)
    requires req.requestUri == req.contextPath + req.servletPath + [slash] + path
    ensures ExtractUri(req) == path + QuerySuffix(req.queryString)
  {
    assert req.requestUri[PrefixLength(req)..] == path;
  }

  // ---------------------------------------------------------------------------
  // Body: request.getReader().lines().collect(Collectors.joining(separator))
  // ---------------------------------------------------------------------------

  function JoinLines(lines: seq<string>, separator: string): (joined: string)
    ensures lines == [] ==> joined == ""
    ensures |lines| == 1 ==> joined == lines[0]
  {
    if lines == [] then ""
    else if |lines| == 1 then lines[0]
    else lines[0] + separator + JoinLines(lines[1..], separator)
  }

  /** Joining two non-empty blocks of lines puts exactly one separator
      between them. */
  lemma {:induction false} JoinLinesAppend(a: seq<string>, b: seq<string>, separator: string)
    requires a != [] && b != []
    ensures JoinLines(a + b, separator) == JoinLines(a, separator) + separator + JoinLines(b, separator)
  {
    if |a| == 1 {
      assert (a + b)[1..] == b;
    } else {
      assert (a + b)[1..] == a[1..] + b;
      JoinLinesAppend(a[1..], b, separator);
    }
  }

  // ---------------------------------------------------------------------------
  // Header multimap (extractHeaders, and the relayserver constructor)
  // ---------------------------------------------------------------------------

  /** How many times `name` occurs in the header-name enumeration. */
  function Occurrences(names: seq<string>, name: string): (n: nat)
    ensures n <= |names|
    ensures n > 0 <==> name in names
  {
    if names == [] then 0
    else Occurrences(names[..|names| - 1], name) + (if names[|names| - 1] == name then 1 else 0)
  }

  /** A list holding `count` copies of `value`. */
  function Repeat(value: string, count: nat): (r: seq<string>)
    ensures |r| == count
    ensures forall i :: 0 <= i < count ==> r[i] == value
  {
    if count == 0 then [] else Repeat(value, count - 1) + [value]
  }

  /** The multimap the Java loop builds, stated without the loop: every
      enumerated name outside `restricted` is a key, and its list holds one
      getHeader(name) per occurrence of the name. A null enumeration gives
      the empty map. */
  function HeaderMultimap(names: Option<seq<string>>, header: string -> string, restricted: set<string>)
    : (headers: map<string, seq<string>>)
    ensures names == None ==> headers == map[]
    ensures names.Some? ==>
              forall name :: name in headers <==> name in names.value && name !in restricted
    ensures names.Some? ==>
              forall name | name in headers ::
                && |headers[name]| == Occurrences(names.value, name)
                && forall i :: 0 <= i < |headers[name]| ==> headers[name][i] == header(name)
  {
    match names
    case None => map[]
    case Some(ns) => map name | name in ns && name !in restricted :: Repeat(header(name), Occurrences(ns, name))
  }

  /** One more enumerated name either is skipped (restricted) or appends one
      value to its list, creating the list on first sight. */
  lemma HeaderMultimapStep(ns: seq<string>, name: string, header: string -> string, restricted: set<string>)
    ensures var before := HeaderMultimap(Some(ns), header, restricted);
            HeaderMultimap(Some(ns + [name]), header, restricted) ==
              if name in restricted then before
              else before[name := (if name in before then before[name] else []) + [header(name)]]
  {
    var before := HeaderMultimap(Some(ns), header, restricted);
    var after := HeaderMultimap(Some(ns + [name]), header, restricted);
    assert (ns + [name])[..|ns + [name]| - 1] == ns;
    if name in restricted {
      forall k ensures k in after <==> k in before {
        assert k in ns + [name] <==> k in ns || k == name;
      }
      assert after == before;
    } else {
      var expected := before[name := (if name in before then before[name] else []) + [header(name)]];
      forall k ensures k in after <==> k in expected {
        assert k in ns + [name] <==> k in ns || k == name;
      }
      forall k | k in after ensures after[k] == expected[k] {
        if k == name && name !in ns {
          assert Occurrences(ns, name) == 0;
        }
      }
      assert after == expected;
    }
  }

  /** The header-collecting while loop: walk the enumeration and append
      getHeader(name) to the list of each name that is not restricted. */
  method GroupHeaders(names: Option<seq<string>>, header: string -> string, restricted: set<string>)
    returns (headers: map<string, seq<string>>)
    ensures headers == HeaderMultimap(names, header, restricted)
  {
    headers := map[];
    if names.Some? {
      var ns := names.value;
      var i := 0;
      assert ns[..0] == [];
      while i < |ns|
        invariant 0 <= i <= |ns|
        invariant headers == HeaderMultimap(Some(ns[..i]), header, restricted)
      {
        var name := ns[i];
        HeaderMultimapStep(ns[..i], name, header, restricted);
        assert ns[..i + 1] == ns[..i] + [name];
        ghost var after := HeaderMultimap(Some(ns[..i + 1]), header, restricted);
        if name !in restricted {
          if name !in headers {
            assert [] + [header(name)] == [header(name)];
            headers := headers[name := [header(name)]];
          } else {
            headers := headers[name := headers[name] + [header(name)]];
          }
        }
        assert headers == after;
        i := i + 1;
      }
      assert ns[..|ns|] == ns;
    }
  }
}
