/**
 * The Service Now client (snsync/snow.py): how `SNClient` turns its calls
 * into HTTP requests against the JSONv2 web service.
 *
 * The HTTP session is not modelled.  A request is a value, and the server
 * is a `transport` parameter giving the reply to each request; only the
 * `records` entry of a JSON reply is kept.
 */
module Snow {
  import opened Wrappers
  import opened Dicts
  import opened Text
  import Config
  import Cache

  datatype Verb = GET | POST

  /** A query-string parameter value. */
  datatype Param = PBool(b: bool) | PInt(i: int) | PStr(s: string)

  /** What the session sends: the verb, the URL, the query parameters, the
      basic-auth credentials, the headers and the JSON body. */
  datatype Request = Request(
    verb: Verb,
    url: string,
    params: Dict<string, Param>,
    auth: Option<(string, string)>,
    headers: Dict<string, string>,
    body: Option<Dict<string, string>>)

  /** The server's answer: a status and the `records` of its JSON document,
      or no answer at all (a connection error or similar). */
  datatype Response = Reply(status: int, records: Option<seq<Cache.RemoteRecord>>) | NoReply

  /** `resp.raise_for_status()`, with the exceptions of `requests`. */
  function RaiseForStatus(resp: Response): (r: Result<Response>)
    ensures r.Ok? <==> resp.Reply? && !(400 <= resp.status < 600)
    ensures r.Ok? ==> r.value == resp
    ensures resp.NoReply? ==> r == Err(RequestFailed)
    ensures resp.Reply? && 400 <= resp.status < 600 ==> r == Err(HTTPError(resp.status))
  {
    match resp
    case NoReply => Err(RequestFailed)
    case Reply(status, _) => if 400 <= status < 600 then Err(HTTPError(status)) else Ok(resp)
  }

  /** The web-service URL of a table. */
  function Endpoint(host: string, table: string): (url: string)
    ensures |url| == |host| + 1 + |table| + 10
    ensures url[..|host| + 1] == host + "/"
    ensures url[|host| + 1..|host| + 1 + |table|] == table
    ensures url[|host| + 1 + |table|..] == ".do?JSONv2"
  {
    host + "/" + table + ".do?JSONv2"
  }

  /** Different tables of one host have different URLs. */
  lemma EndpointInjective(host: string, t1: string, t2: string)
    requires Endpoint(host, t1) == Endpoint(host, t2)
    ensures t1 == t2
  {
    assert |t1| == |t2|;
  }

  // ---------------------------------------------------------------------
  // format_query

  /** One `key=value` term of a query. */
  function Term(key: string, value: string): string {
    key + "=" + value
  }

  function Terms(queryDict: Dict<string, string>): (ts: seq<string>)
    ensures |ts| == |queryDict|
    ensures forall i :: 0 <= i < |queryDict| ==> ts[i] == Term(queryDict[i].0, queryDict[i].1)
  {
    seq(|queryDict|, i requires 0 <= i < |queryDict| => Term(queryDict[i].0, queryDict[i].1))
  }

  /** The encoded query: the terms in dictionary order, joined by `^`. */
  function QueryString(queryDict: Dict<string, string>): string {
    Join(Terms(queryDict), '^')
  }

  /** `format_query` */
  method FormatQuery(queryDict: Dict<string, string>) returns (query: string)
    ensures query == QueryString(queryDict)
  {
    var terms: seq<string> := [];
    for i := 0 to |queryDict|
      invariant terms == Terms(queryDict[..i])
    {
      var (key, value) := queryDict[i];
      terms := terms + [Term(key, value)];
    }
    assert queryDict[..|queryDict|] == queryDict;
    query := Join(terms, '^');
  }

  /** A join of parts that are not all empty is not empty. */
  lemma {:induction false} JoinEmpty(parts: seq<string>, sep: char)
    requires parts != [] && parts[0] != ""
    ensures Join(parts, sep) != ""
  {
  }

  /** The query is empty exactly when the dictionary is. */
  lemma QueryStringEmpty(queryDict: Dict<string, string>)
    ensures QueryString(queryDict) == "" <==> queryDict == []
  {
    if queryDict != [] {
      assert Terms(queryDict)[0][|queryDict[0].0|] == '=';
      JoinEmpty(Terms(queryDict), '^');
    }
  }

  /** When no key or value holds `^`, splitting the query at `^` gives one
      term per entry, in order, and the text before the first `=` of each
      term is its key when keys hold no `=`. */
  lemma QueryStringTerms(queryDict: Dict<string, string>)
    requires queryDict != []
    requires forall i :: 0 <= i < |queryDict| ==> '^' !in queryDict[i].0 && '^' !in queryDict[i].1
    ensures Split(QueryString(queryDict), '^') == Terms(queryDict)
    ensures forall i :: 0 <= i < |queryDict| && '=' !in queryDict[i].0 ==>
      Split(Split(QueryString(queryDict), '^')[i], '=')[0] == queryDict[i].0
  {
    var ts := Terms(queryDict);
    forall i | 0 <= i < |ts| ensures '^' !in ts[i] {
      assert ts[i] == queryDict[i].0 + "=" + queryDict[i].1;
    }
    SplitJoin(ts, '^');
    forall i | 0 <= i < |queryDict| && '=' !in queryDict[i].0
      ensures Split(ts[i], '=')[0] == queryDict[i].0
    {
      SplitPrefix(queryDict[i].0, queryDict[i].1, '=');
      assert ts[i] == queryDict[i].0 + ['='] + queryDict[i].1;
    }
  }

  // ---------------------------------------------------------------------
  // Request parameters

  /** Whether the `query` argument of `get` is truthy. */
  predicate HasQuery(query: Option<Dict<string, string>>) {
    query.Some? && query.value != []
  }

  /** Whether the `limit` argument of `get` is truthy. */
  predicate HasLimit(limit: Option<int>) {
    limit.Some? && limit.value != 0
  }

  /** The parameters of `get`: `displayvalue` first, then the encoded query
      when there is one, then the limit when it is truthy. */
  function GetParams(query: Option<Dict<string, string>>, display: bool, limit: Option<int>): (params: Dict<string, Param>)
    ensures Get(params, "displayvalue") == Some(PBool(display))
    ensures "sysparm_query" in KeySet(params) <==> HasQuery(query)
    ensures HasQuery(query) ==> Get(params, "sysparm_query") == Some(PStr(QueryString(query.value)))
    ensures "sysparm_limit" in KeySet(params) <==> HasLimit(limit)
    ensures HasLimit(limit) ==> Get(params, "sysparm_limit") == Some(PInt(limit.value))
    ensures KeySet(params) <= {"displayvalue", "sysparm_query", "sysparm_limit"}
    ensures KeysDistinct(params)
  {
    var withQuery := if HasQuery(query) then [("sysparm_query", PStr(QueryString(query.value)))] else [];
    var withLimit := if HasLimit(limit) then [("sysparm_limit", PInt(limit.value))] else [];
    var params := [("displayvalue", PBool(display))] + withQuery + withLimit;
    assert HasQuery(query) ==> params[1].0 == "sysparm_query";
    assert HasLimit(limit) ==> params[|params| - 1].0 == "sysparm_limit";
    params
  }

  /** `get` builds its parameters by conditional insertion. */
  method BuildGetParams(query: Option<Dict<string, string>>, display: bool, limit: Option<int>)
    returns (params: Dict<string, Param>)
    ensures params == GetParams(query, display, limit)
  {
    params := [("displayvalue", PBool(display))];
    assert KeySet(params) == {"displayvalue"} by { assert params[0].0 == "displayvalue"; }
    if query.Some? && query.value != [] {
      var q := FormatQuery(query.value);
      params := Put(params, "sysparm_query", PStr(q));
    }
    assert KeySet(params) <= {"displayvalue", "sysparm_query"};
    if limit.Some? && limit.value != 0 {
      params := Put(params, "sysparm_limit", PInt(limit.value));
    }
  }

  /** The parameters of `update`: select the record by its sys_id. */
  function UpdateParams(sysId: string): (params: Dict<string, Param>)
    ensures KeysDistinct(params)
    ensures Get(params, "sysparm_query") == Some(PStr(QueryString([("sys_id", sysId)])))
    ensures Get(params, "sysparm_action") == Some(PStr("update"))
    ensures Get(params, "displayvalue") == Some(PBool(true))
    ensures KeySet(params) == {"displayvalue", "sysparm_query", "sysparm_action"}
  {
    var params := [("displayvalue", PBool(true)), ("sysparm_query", PStr("sys_id=" + sysId)), ("sysparm_action", PStr("update"))];
    assert Terms([("sys_id", sysId)]) == [Term("sys_id", sysId)];
    assert Term("sys_id", sysId) == "sys_id=" + sysId;
    GetAt(params, 0);
    GetAt(params, 1);
    GetAt(params, 2);
    params
  }

  /** The headers every session starts with. */
  const DefaultHeaders: Dict<string, string> := [("Content-Type", "application/json"), ("Accept", "application/json")]

  /** Basic authentication is set up only when both credentials are given. */
  function Auth(username: Option<string>, password: Option<string>): (auth: Option<(string, string)>)
    ensures auth.Some? <==> username.Some? && password.Some?
    ensures auth.Some? ==> auth.value == (username.value, password.value)
  {
    if username.Some? && password.Some? then Some((username.value, password.value)) else None
  }

  /** A very simple Service Now client: the host and the session set up
      by `__init__`. */
  class SNClient {
    const host: string
    const verify: Config.Value
    const auth: Option<(string, string)>
    const headers: Dict<string, string>

    /** `SNClient(host, username, password, headers, verify, read_only)`;
        `read_only` is accepted and ignored, and extra headers (none when
        empty) are merged over the defaults. */
    constructor (host: string, username: Option<string>, password: Option<string>,
                 extraHeaders: Dict<string, string>, verify: Config.Value, readOnly: Config.Value)
      ensures this.host == host && this.verify == verify
      ensures auth == Auth(username, password)
      ensures headers == PutAll(DefaultHeaders, extraHeaders)
    {
      this.host := host;
      this.verify := verify;
      auth := if username != None && password != None then Some((username.value, password.value)) else None;
      var hs := DefaultHeaders;
      if extraHeaders != [] {
        hs := PutAll(hs, extraHeaders);
      }
      headers := hs;
    }

    /** The request `get` sends. */
    function GetRequest(table: string, query: Option<Dict<string, string>>, display: bool, limit: Option<int>): (req: Request)
      ensures req.verb == GET && req.url == Endpoint(host, table) && req.body == None
      ensures req.params == GetParams(query, display, limit)
      ensures req.auth == auth && req.headers == headers
    {
      Request(GET, Endpoint(host, table), GetParams(query, display, limit), auth, headers, None)
    }

    /** The request `update` sends. */
    function UpdateRequest(table: string, sysId: string, values: Dict<string, string>): (req: Request)
      ensures req.verb == POST && req.url == Endpoint(host, table) && req.body == Some(values)
      ensures req.params == UpdateParams(sysId)
      ensures req.auth == auth && req.headers == headers
    {
      Request(POST, Endpoint(host, table), UpdateParams(sysId), auth, headers, Some(values))
    }

    /** `get`: build the parameters by conditional insertion, send, and
        raise on an error status. */
    method Get(table: string, query: Option<Dict<string, string>>, display: bool, limit: Option<int>,
               transport: Request -> Response)
      returns (r: Result<Response>)
      ensures r == RaiseForStatus(transport(GetRequest(table, query, display, limit)))
    {
      var params := BuildGetParams(query, display, limit);
      var resp := transport(Request(GET, Endpoint(host, table), params, auth, headers, None));
      r := RaiseForStatus(resp);
    }

    /** `update`: post new field values for the record with `sysId`. */
    method Update(table: string, sysId: string, values: Dict<string, string>, transport: Request -> Response)
      returns (r: Result<Response>)
      ensures r == RaiseForStatus(transport(UpdateRequest(table, sysId, values)))
    {
      var params := [("displayvalue", PBool(true)), ("sysparm_query", PStr("sys_id=" + sysId)), ("sysparm_action", PStr("update"))];
      var resp := transport(Request(POST, Endpoint(host, table), params, auth, headers, Some(values)));
      r := RaiseForStatus(resp);
    }
  }
}
