/**
 * The browser-console interceptor that records École Directe traffic: how
 * request bodies are parsed, how a URL is reduced to an endpoint pattern,
 * the schema inferred from a response, the bookkeeping of the capture
 * object, the cookie snapshot, and `ED_CLEAR`.
 *
 * `JSON.parse` is a parameter (`None` where it throws), and so are the
 * URL parser's `pathname`, the clock and the network's answer.
 */
module EdApiInterceptor {
  import opened Wrappers
  import opened Text
  import opened Collections
  import WebEncoding

  /** A JavaScript value as the capture sees it; numbers are integers, objects are their entries in order. */
  datatype Value =
    | Undefined
    | Null
    | Bool(b: bool)
    | Num(n: int)
    | Str(s: string)
    | Arr(items: seq<Value>)
    | Obj(entries: seq<Entry>)

  datatype Entry = Entry(key: string, value: Value)

  /** The values JavaScript treats as false. */
  predicate Falsy(v: Value)
  {
    v == Undefined || v == Null || v == Bool(false) || v == Num(0) || v == Str("")
  }

  /**
   * `parseBody`: nothing for an empty body; a string is decoded as
   * `data=<percent-encoded JSON>` when it has that prefix and as JSON
   * otherwise, and stays the raw string when either step throws; any other
   * body is returned as it is.
   */
  function ParseBody(body: Value, parse: string -> Option<Value>): (r: Value)
    ensures Falsy(body) ==> r == Null
    ensures !Falsy(body) && !body.Str? ==> r == body
  {
    if Falsy(body) then Null
    else if !body.Str? then body
    else if StartsWith(body.s, "data=") then
      match WebEncoding.DecodeUriComponent(body.s[5..])
        case None => body
        case Some(decoded) =>
          match parse(decoded)
            case None => body
            case Some(v) => v
    else
      match parse(body.s)
        case None => body
        case Some(v) => v
  }

  /** A non-empty string body is kept as it is or replaced by what the JSON parser made of its text, decoded when it has the form prefix. */
  lemma ParseBodyOfString(s: string, parse: string -> Option<Value>)
    requires s != ""
    ensures var r := ParseBody(Str(s), parse);
      r == Str(s) || (StartsWith(s, "data=") && exists t :: parse(t) == Some(r))
      || (!StartsWith(s, "data=") && parse(s) == Some(r))
  {
  }

  /**
   * A body sent the way École Directe's client sends it,
   * `data=` followed by the percent-encoded JSON text, parses back to
   * what that text parses to, and to the raw string when it does not parse.
   */
  lemma ParseBodyRoundTrip(json: string, parse: string -> Option<Value>)
    ensures var r := ParseBody(Str("data=" + WebEncoding.EncodeUriComponent(json)), parse);
      (parse(json).Some? ==> r == parse(json).value)
      && (parse(json).None? ==> r == Str("data=" + WebEncoding.EncodeUriComponent(json)))
  {
    var body := "data=" + WebEncoding.EncodeUriComponent(json);
    assert body[..5] == "data=";
    assert body[5..] == WebEncoding.EncodeUriComponent(json);
    WebEncoding.UriRoundTrip(json);
  }

  /** The type names a schema's leaves hold. */
  const TYPE_NAMES := {"...", "null", "undefined", "[]", "boolean", "number", "string"}

  /**
   * `getSchema(obj, depth)`: past depth 5 the value is elided; an array is
   * described by its first element, an object key by key; a primitive by
   * its `typeof`.
   */
  function Schema(v: Value, depth: nat): Value
    decreases v
  {
    if depth > 5 then Str("...")
    else match v
      case Undefined => Str("undefined")
      case Null => Str("null")
      case Bool(_) => Str("boolean")
      case Num(_) => Str("number")
      case Str(_) => Str("string")
      case Arr(items) => if |items| == 0 then Str("[]") else Arr([Schema(items[0], depth + 1)])
      case Obj(entries) =>
        Obj(seq(|entries|, i requires 0 <= i < |entries| => Entry(entries[i].key, Schema(entries[i].value, depth + 1))))
  }

  /** `v` holds arrays and objects nested at most `n` deep. */
  predicate NestedAtMost(v: Value, n: nat)
  {
    match v
      case Arr(items) => n > 0 && forall i :: 0 <= i < |items| ==> NestedAtMost(items[i], n - 1)
      case Obj(entries) => n > 0 && forall i :: 0 <= i < |entries| ==> NestedAtMost(entries[i].value, n - 1)
      case _ => true
  }

  /** What a schema looks like: type names at the leaves, one-element arrays, objects. */
  predicate SchemaShaped(v: Value)
  {
    match v
      case Str(s) => s in TYPE_NAMES
      case Arr(items) => |items| == 1 && SchemaShaped(items[0])
      case Obj(entries) => forall i :: 0 <= i < |entries| ==> SchemaShaped(entries[i].value)
      case _ => false
  }

  /**
   * A schema is made of type names, one-element arrays and objects with the
   * value's keys in the value's order, and it is never nested deeper than
   * the six levels from depth 0 to depth 5.
   */
  lemma {:induction false} SchemaBounded(v: Value, depth: nat)
    ensures SchemaShaped(Schema(v, depth))
    ensures NestedAtMost(Schema(v, depth), if depth > 5 then 0 else 6 - depth)
    ensures depth <= 5 && v.Obj? ==>
      Schema(v, depth).Obj? && |Schema(v, depth).entries| == |v.entries|
      && forall i :: 0 <= i < |v.entries| ==> Schema(v, depth).entries[i].key == v.entries[i].key
    decreases v
  {
    if depth <= 5 {
      match v
      case Arr(items) =>
        if |items| > 0 {
          SchemaBounded(items[0], depth + 1);
        }
      case Obj(entries) =>
        var r := Schema(v, depth);
        forall i | 0 <= i < |entries|
          ensures SchemaShaped(r.entries[i].value) && NestedAtMost(r.entries[i].value, 5 - depth)
        {
          SchemaBounded(entries[i].value, depth + 1);
        }
      case _ =>
    }
  }

  /** The first index from `from` on where `sub` occurs in `s`, or `|s|` when there is none. */
  function IndexFrom(s: string, sub: string, from: nat): (k: nat)
    requires from <= |s|
    ensures from <= k <= |s|
    ensures k < |s| ==> OccursAt(s, sub, k)
    ensures forall j :: from <= j < k ==> !OccursAt(s, sub, j)
    decreases |s| - from
  {
    if from == |s| then |s|
    else if OccursAt(s, sub, from) then from
    else IndexFrom(s, sub, from + 1)
  }

  /** `pathname.replace(/\/v3\/?/, '')`: the first `/v3`, with the slash after it if there is one, is removed. */
  function DropV3(p: string): (r: string)
    ensures (forall j :: 0 <= j < |p| ==> !OccursAt(p, "/v3", j)) ==> r == p
  {
    var k := IndexFrom(p, "/v3", 0);
    if k == |p| then p
    else
      var end := if k + 3 < |p| && p[k + 3] == '/' then k + 4 else k + 3;
      p[..k] + p[end..]
  }

  /** A path under `/v3/` loses exactly that prefix, even when `/v3` occurs again later. */
  lemma DropV3Leading(rest: string)
    ensures DropV3("/v3/" + rest) == rest
  {
    var p := "/v3/" + rest;
    assert OccursAt(p, "/v3", 0);
    assert p[..0] + p[4..] == rest;
  }

  /** The leading digits of `s` removed. */
  function DropDigits(s: string): (r: string)
    ensures |r| <= |s| && r == s[|s| - |r|..]
    ensures forall i :: 0 <= i < |s| - |r| ==> IsDigit(s[i])
    ensures |r| > 0 ==> !IsDigit(r[0])
    decreases |s|
  {
    if |s| > 0 && IsDigit(s[0]) then
      var r := DropDigits(s[1..]);
      assert forall i :: 1 <= i < |s| - |r| ==> s[i] == s[1..][i - 1];
      r
    else s
  }

  /** `.replace(/\d+/g, '{id}')`: every maximal run of digits becomes `{id}`. */
  function ReplaceDigits(s: string): string
    decreases |s|
  {
    if |s| == 0 then ""
    else if IsDigit(s[0]) then
      var rest := DropDigits(s);
      "{id}" + ReplaceDigits(rest)
    else
      [s[0]] + ReplaceDigits(s[1..])
  }

  /** No digit is left, and a text without digits is its own pattern. */
  lemma {:induction false} ReplaceDigitsClean(s: string)
    ensures NoDigits(ReplaceDigits(s))
    ensures NoDigits(s) ==> ReplaceDigits(s) == s
    decreases |s|
  {
    if |s| == 0 {
    } else if IsDigit(s[0]) {
      ReplaceDigitsClean(DropDigits(s));
    } else {
      ReplaceDigitsClean(s[1..]);
      var r := ReplaceDigits(s[1..]);
      assert forall i :: 1 <= i < |r| + 1 ==> ([s[0]] + r)[i] == r[i - 1];
      if NoDigits(s) {
        assert NoDigits(s[1..]) by {
          assert forall i :: 0 <= i < |s| - 1 ==> s[1..][i] == s[i + 1];
        }
      }
    }
  }

  /** A run of digits followed by text that does not start with one is dropped whole. */
  lemma {:induction false} DropDigitsRun(d: string, b: string)
    requires forall i :: 0 <= i < |d| ==> IsDigit(d[i])
    requires |b| > 0 ==> !IsDigit(b[0])
    ensures DropDigits(d + b) == b
    decreases |d|
  {
    if |d| == 0 {
      assert d + b == b;
    } else {
      assert (d + b)[0] == d[0];
      assert (d + b)[1..] == d[1..] + b;
      DropDigitsRun(d[1..], b);
    }
  }

  /** Leading digits that stop inside `a` are removed from `a` alone. */
  lemma DropDigitsPrefix(a: string, rest: string)
    requires |a| > 0 && !IsDigit(a[|a| - 1])
    ensures DropDigits(a + rest) == DropDigits(a) + rest
    decreases |a|
  {
    if IsDigit(a[0]) {
      assert (a + rest)[1..] == a[1..] + rest;
      DropDigitsPrefix(a[1..], rest);
    }
  }

  /** Text that ends without a digit leaves the pattern of what follows it alone, when that starts with one. */
  lemma {:induction false} PrefixKeepsCollapse(a: string, r1: string, r2: string)
    requires |r1| > 0 && IsDigit(r1[0]) && |r2| > 0 && IsDigit(r2[0])
    requires |a| > 0 ==> !IsDigit(a[|a| - 1])
    requires ReplaceDigits(r1) == ReplaceDigits(r2)
    ensures ReplaceDigits(a + r1) == ReplaceDigits(a + r2)
    decreases |a|
  {
    if |a| == 0 {
      assert a + r1 == r1 && a + r2 == r2;
    } else if IsDigit(a[0]) {
      DropDigitsPrefix(a, r1);
      DropDigitsPrefix(a, r2);
      var a' := DropDigits(a);
      assert |a'| > 0 && a'[|a'| - 1] == a[|a| - 1];
      PrefixKeepsCollapse(a', r1, r2);
    } else {
      assert (a + r1)[1..] == a[1..] + r1;
      assert (a + r2)[1..] == a[1..] + r2;
      PrefixKeepsCollapse(a[1..], r1, r2);
    }
  }

  /**
   * Two paths that differ only in one id collapse to the same endpoint:
   * changing a run of digits (not adjacent to other digits) changes
   * nothing in the pattern.
   */
  lemma {:induction false} IdsCollapse(a: string, d1: string, d2: string, b: string)
    requires |d1| > 0 && |d2| > 0
    requires forall i :: 0 <= i < |d1| ==> IsDigit(d1[i])
    requires forall i :: 0 <= i < |d2| ==> IsDigit(d2[i])
    requires |a| > 0 ==> !IsDigit(a[|a| - 1])
    requires |b| > 0 ==> !IsDigit(b[0])
    ensures ReplaceDigits(a + d1 + b) == ReplaceDigits(a + d2 + b)
  {
    DropDigitsRun(d1, b);
    DropDigitsRun(d2, b);
    assert (d1 + b)[0] == d1[0] && (d2 + b)[0] == d2[0];
    PrefixKeepsCollapse(a, d1 + b, d2 + b);
    Regroup(a, d1, b);
    Regroup(a, d2, b);
  }

  lemma Regroup(a: string, d: string, b: string)
    ensures a + d + b == a + (d + b)
  {
  }

  /** `extractEndpoint(url)`: the pathname's pattern, or the URL itself when it does not parse (`pathname` is `None`). */
  function Endpoint(url: string, pathname: Option<string>): string
  {
    match pathname
      case None => url
      case Some(p) => ReplaceDigits(DropV3(p))
  }

  /** The pattern of a URL that parses holds no digit: every id has become `{id}`. */
  lemma EndpointHasNoIds(url: string, p: string)
    ensures NoDigits(Endpoint(url, Some(p)))
  {
    ReplaceDigitsClean(DropV3(p));
  }

  /** A text without digits. */
  predicate NoDigits(s: string)
  {
    forall i :: 0 <= i < |s| ==> !IsDigit(s[i])
  }

  /** An id inside a path under `/v3/` is replaced, the rest kept. */
  lemma {:induction false} EndpointOfId(url: string, a: string, d: string, b: string)
    requires NoDigits(a) && NoDigits(b) && |d| > 0
    requires forall i :: 0 <= i < |d| ==> IsDigit(d[i])
    ensures Endpoint(url, Some("/v3/" + a + d + b)) == a + "{id}" + b
    decreases |a|
  {
    assert "/v3/" + a + d + b == "/v3/" + (a + d + b);
    DropV3Leading(a + d + b);
    ReplaceDigitsRun(a, d, b);
  }

  /** Text without digits passes through unchanged in front of whatever follows. */
  lemma {:induction false} PlainPassesThrough(a: string, r: string)
    requires NoDigits(a)
    ensures ReplaceDigits(a + r) == a + ReplaceDigits(r)
    decreases |a|
  {
    if |a| == 0 {
      assert a + r == r;
    } else {
      assert (a + r)[0] == a[0];
      assert (a + r)[1..] == a[1..] + r;
      PlainPassesThrough(a[1..], r);
      assert [a[0]] + (a[1..] + ReplaceDigits(r)) == a + ReplaceDigits(r);
    }
  }

  /** One id between two digit-free texts becomes `{id}`. */
  lemma ReplaceDigitsRun(a: string, d: string, b: string)
    requires NoDigits(a) && NoDigits(b) && |d| > 0
    requires forall i :: 0 <= i < |d| ==> IsDigit(d[i])
    ensures ReplaceDigits(a + d + b) == a + "{id}" + b
  {
    DropDigitsRun(d, b);
    assert (d + b)[0] == d[0];
    ReplaceDigitsClean(b);
    PlainPassesThrough(a, d + b);
    Regroup(a, d, b);
    Regroup(a, "{id}", b);
  }

  /** The URLs the interceptor records: those naming École Directe or the local `/api/ed` proxy. */
  predicate Intercepted(url: string)
  {
    Contains(url, "ecoledirecte.com") || Contains(url, "/api/ed")
  }

  /** `init.method || 'GET'`. */
  function VerbOf(verb: Option<string>): (r: string)
    ensures verb.Some? && verb.value != "" ==> r == verb.value
    ensures verb.None? || verb.value == "" ==> r == "GET"
  {
    if verb.Some? && verb.value != "" then verb.value else "GET"
  }

  /** The response body as recorded: its JSON value, or the text itself when it is not JSON. */
  function ParseResponse(body: string, parse: string -> Option<Value>): (r: Value)
    ensures parse(body).Some? ==> r == parse(body).value
    ensures parse(body).None? ==> r == Str(body)
  {
    match parse(body)
      case Some(v) => v
      case None => Str(body)
  }

  /** A header that `headers.get(name)` returns as a non-empty string. */
  predicate Present(headers: map<string, string>, name: string)
  {
    name in headers && headers[name] != ""
  }

  /** The capture's token names and the response headers they are read from. */
  const TOKEN_HEADERS: map<string, string> := map["X-Token" := "x-token", "GTK" := "x-gtk", "2FA-Token" := "2fa-token"]

  /**
   * The tokens after a response: each of `X-Token`, `GTK` and `2FA-Token`
   * takes the value of its response header when that is non-empty, and
   * keeps its earlier value otherwise; no other token changes.
   */
  function TokensAfter(tokens: map<string, string>, headers: map<string, string>): map<string, string>
  {
    var withToken := if Present(headers, "x-token") then tokens["X-Token" := headers["x-token"]] else tokens;
    var withGtk := if Present(headers, "x-gtk") then withToken["GTK" := headers["x-gtk"]] else withToken;
    if Present(headers, "2fa-token") then withGtk["2FA-Token" := headers["2fa-token"]] else withGtk
  }

  /** A token is set from its header when that is non-empty, and otherwise keeps its earlier value; no other token changes. */
  lemma TokenAfter(tokens: map<string, string>, headers: map<string, string>, name: string)
    ensures var r := TokensAfter(tokens, headers);
      var fromHeader := name in TOKEN_HEADERS && Present(headers, TOKEN_HEADERS[name]);
      (name in r <==> name in tokens || fromHeader)
      && (fromHeader ==> r[name] == headers[TOKEN_HEADERS[name]])
      && (name in tokens && !fromHeader ==> r[name] == tokens[name])
  {
  }

  /** One call of an endpoint, as its group lists it. */
  datatype Call = Call(timestamp: string, status: int, duration: int)

  /** A recorded exchange; `duration` is in milliseconds and `size` counts the response's UTF-16 code units. */
  datatype Record = Record(
    id: nat, timestamp: string, endpoint: string, url: string, verb: string, duration: int,
    requestHeaders: map<string, string>, requestBody: Value,
    status: int, responseHeaders: map<string, string>, responseBody: Value, size: nat)

  /** The calls of one endpoint with the samples and the schema taken from its first call. */
  datatype EndpointGroup = EndpointGroup(
    path: string, verb: string, sampleRequest: Value, sampleResponse: Value, responseSchema: Value, calls: seq<Call>)

  /** A request whose fetch failed. */
  datatype ErrorRecord = ErrorRecord(timestamp: string, url: string, verb: string, error: string)

  /** A response as the network delivered it. */
  datatype Response = Response(status: int, headers: map<string, string>, body: string)

  function CallOf(r: Record): Call
  {
    Call(r.timestamp, r.status, r.duration)
  }

  /** The calls of endpoint `e` among `requests`, in order. */
  function CallsTo(requests: seq<Record>, e: string): seq<Call>
  {
    if |requests| == 0 then []
    else
      var last := requests[|requests| - 1];
      CallsTo(requests[..|requests| - 1], e) + if last.endpoint == e then [CallOf(last)] else []
  }

  lemma CallsToSnoc(requests: seq<Record>, r: Record, e: string)
    ensures CallsTo(requests + [r], e) == CallsTo(requests, e) + if r.endpoint == e then [CallOf(r)] else []
  {
    assert (requests + [r])[..|requests|] == requests;
  }

  /** The sum of the recorded response sizes. */
  function TotalSize(requests: seq<Record>): nat
  {
    if |requests| == 0 then 0 else TotalSize(requests[..|requests| - 1]) + requests[|requests| - 1].size
  }

  lemma TotalSizeSnoc(requests: seq<Record>, r: Record)
    ensures TotalSize(requests + [r]) == TotalSize(requests) + r.size
  {
    assert (requests + [r])[..|requests|] == requests;
  }

  /** Every request belongs to its endpoint's group, and each group lists exactly its endpoint's calls. */
  predicate Grouping(endpoints: map<string, EndpointGroup>, requests: seq<Record>)
  {
    (forall i :: 0 <= i < |requests| ==> requests[i].endpoint in endpoints)
    && forall e :: e in endpoints ==> endpoints[e].path == e && endpoints[e].calls == CallsTo(requests, e)
  }

  /**
   * Filing a call: an endpoint seen for the first time gets a group with
   * this call's samples and the schema of its response; a known one keeps
   * its samples and gets the call appended.
   */
  function Grouped(endpoints: map<string, EndpointGroup>, e: string, verb: string, request: Value, response: Value, call: Call): map<string, EndpointGroup>
  {
    if e in endpoints then endpoints[e := endpoints[e].(calls := endpoints[e].calls + [call])]
    else endpoints[e := EndpointGroup(e, verb, request, response, Schema(response, 0), [call])]
  }

  /** Filing a new record keeps the grouping; the samples of a known endpoint stay those of its first call. */
  lemma GroupedKeepsGrouping(endpoints: map<string, EndpointGroup>, requests: seq<Record>, r: Record)
    requires Grouping(endpoints, requests)
    ensures var g := Grouped(endpoints, r.endpoint, r.verb, r.requestBody, r.responseBody, CallOf(r));
      Grouping(g, requests + [r])
      && g.Keys == endpoints.Keys + {r.endpoint}
      && (r.endpoint in endpoints ==> g[r.endpoint].sampleResponse == endpoints[r.endpoint].sampleResponse)
      && (r.endpoint !in endpoints ==> g[r.endpoint].responseSchema == Schema(r.responseBody, 0))
  {
    var g := Grouped(endpoints, r.endpoint, r.verb, r.requestBody, r.responseBody, CallOf(r));
    var s := requests + [r];
    forall e | e in g
      ensures g[e].path == e && g[e].calls == CallsTo(s, e)
    {
      CallsToSnoc(requests, r, e);
      if e != r.endpoint {
        assert g[e] == endpoints[e];
      } else if e !in endpoints {
        assert CallsTo(requests, e) == [] by {
          NoCallsOfUnknown(requests, e);
        }
      }
    }
    forall i | 0 <= i < |s|
      ensures s[i].endpoint in g
    {
      if i < |requests| {
        assert s[i] == requests[i];
      }
    }
  }

  lemma {:induction false} NoCallsOfUnknown(requests: seq<Record>, e: string)
    requires forall i :: 0 <= i < |requests| ==> requests[i].endpoint != e
    ensures CallsTo(requests, e) == []
    decreases |requests|
  {
    if |requests| > 0 {
      NoCallsOfUnknown(requests[..|requests| - 1], e);
    }
  }

  /** Ids number the requests from 0, the counters agree with the lists, and every request is in its endpoint's group. */
  predicate Consistent(endpoints: map<string, EndpointGroup>, requests: seq<Record>, totalRequests: nat, totalBytes: nat, uniqueEndpoints: nat)
  {
    totalRequests == |requests|
    && (forall i :: 0 <= i < |requests| ==> requests[i].id == i)
    && uniqueEndpoints == |endpoints.Keys|
    && totalBytes == TotalSize(requests)
    && Grouping(endpoints, requests)
  }

  /** Recording the next request keeps the store consistent, the distinct-endpoint count growing exactly for a new endpoint. */
  lemma RecordKeepsConsistent(endpoints: map<string, EndpointGroup>, requests: seq<Record>, totalRequests: nat, totalBytes: nat, uniqueEndpoints: nat, r: Record)
    requires Consistent(endpoints, requests, totalRequests, totalBytes, uniqueEndpoints)
    requires r.id == totalRequests
    ensures Consistent(Grouped(endpoints, r.endpoint, r.verb, r.requestBody, r.responseBody, CallOf(r)), requests + [r],
      totalRequests + 1, totalBytes + r.size, uniqueEndpoints + if r.endpoint in endpoints then 0 else 1)
  {
    GroupedKeepsGrouping(endpoints, requests, r);
    TotalSizeSnoc(requests, r);
    var g := Grouped(endpoints, r.endpoint, r.verb, r.requestBody, r.responseBody, CallOf(r));
    if r.endpoint in endpoints {
      assert g.Keys == endpoints.Keys;
    } else {
      assert g.Keys == endpoints.Keys + {r.endpoint};
    }
    var s := requests + [r];
    assert forall i :: 0 <= i < |requests| ==> s[i] == requests[i];
  }

  /** The record `captureRequest` builds for an exchange. */
  function RecordOf(
    id: nat, url: string, verb: string, requestHeaders: map<string, string>, requestBody: Value,
    response: Response, duration: int, timestamp: string,
    pathname: Option<string>, parse: string -> Option<Value>): (r: Record)
    ensures r.id == id && r.url == url && r.verb == verb && r.status == response.status && r.duration == duration
    ensures r.endpoint == Endpoint(url, pathname)
    ensures r.requestBody == ParseBody(requestBody, parse) && r.responseBody == ParseResponse(response.body, parse)
    ensures r.responseHeaders == response.headers && r.size == |CodeUnits(response.body)|
  {
    Record(id, timestamp, Endpoint(url, pathname), url, verb, duration,
      requestHeaders, ParseBody(requestBody, parse), response.status, response.headers,
      ParseResponse(response.body, parse), |CodeUnits(response.body)|)
  }

  /** The two entry syntaxes gathered into maps: `document.cookie` entries and XMLHttpRequest response header lines. */
  datatype Syntax = CookieSyntax | HeaderSyntax

  /** The name and value an entry of the given syntax holds. */
  function EntryOf(syntax: Syntax, part: string): (string, string)
  {
    match syntax
      case CookieSyntax => CookieEntry(part)
      case HeaderSyntax => HeaderLineEntry(part)
  }

  /** The name and value of each entry, in order. */
  function Entries(parts: seq<string>, syntax: Syntax): (r: seq<(string, string)>)
    ensures |r| == |parts|
  {
    seq(|parts|, i requires 0 <= i < |parts| => EntryOf(syntax, parts[i]))
  }

  /**
   * Name/value pairs gathered into a map, a later pair overwriting an
   * earlier one of the same name; pairs with an empty name are skipped.
   */
  function Gather(m: map<string, string>, entries: seq<(string, string)>): (r: map<string, string>)
    ensures "" in r ==> "" in m
  {
    if |entries| == 0 then m
    else Put(Gather(m, entries[..|entries| - 1]), entries[|entries| - 1])
  }

  /** One pair filed: set under its name unless the name is empty. */
  function Put(m: map<string, string>, entry: (string, string)): map<string, string>
  {
    if entry.0 != "" then m[entry.0 := entry.1] else m
  }

  /** The value gathered under a name is the one of the last pair with that name, or the earlier one if none has it. */
  lemma {:induction false} GatherLastWins(m: map<string, string>, entries: seq<(string, string)>, k: string)
    requires k != ""
    ensures var i := LastWhere(entries, (e: (string, string)) => e.0 == k);
      var g := Gather(m, entries);
      (i >= 0 ==> k in g && g[k] == entries[i].1)
      && (i < 0 ==> (k in g <==> k in m) && (k in m ==> g[k] == m[k]))
    decreases |entries|
  {
    if |entries| > 0 {
      GatherLastWins(m, entries[..|entries| - 1], k);
    }
  }

  lemma GatherNext(m: map<string, string>, entries: seq<(string, string)>, i: nat)
    requires i < |entries|
    ensures Gather(m, entries[..i + 1]) == Put(Gather(m, entries[..i]), entries[i])
  {
    assert entries[..i + 1][..i] == entries[..i];
  }

  /** `parts.forEach(...)`: each entry parsed and filed in turn. */
  method GatherEach(start: map<string, string>, parts: seq<string>, syntax: Syntax) returns (m: map<string, string>)
    ensures m == Gather(start, Entries(parts, syntax))
  {
    var entries := Entries(parts, syntax);
    m := start;
    var i := 0;
    while i < |entries|
      invariant i <= |entries|
      invariant m == Gather(start, entries[..i])
    {
      GatherNext(start, entries, i);
      m := Put(m, entries[i]);
      i := i + 1;
    }
    assert entries[..i] == entries;
  }

  /** A `document.cookie` entry: trimmed, the name before its first `=`, the value after it (empty when there is none). */
  function CookieEntry(part: string): (string, string)
  {
    var t := Trim(part);
    var i := IndexOfChar(t, '=');
    (t[..i], if i < |t| then t[i + 1..] else "")
  }

  /** The first index of `c` is `k` when `c` is at `k` and not before. */
  lemma IndexOfCharIs(s: string, c: char, k: nat)
    requires k < |s| && s[k] == c
    requires forall j :: 0 <= j < k ==> s[j] != c
    ensures IndexOfChar(s, c) == k
  {
  }

  /** A cookie written `name=value` after the separator's space reads back as that name and value, `=` signs in the value included. */
  lemma CookieEntryRoundTrip(name: string, value: string)
    requires |name| > 0 && !IsSpace(name[0]) && '=' !in name
    requires |value| > 0 && !IsSpace(value[|value| - 1])
    ensures CookieEntry(" " + name + "=" + value) == (name, value)
  {
    var s := name + "=" + value;
    SpacedTrim(name, value);
    assert forall j :: 0 <= j < |name| ==> s[j] == name[j];
    assert s[|name|] == '=';
    IndexOfCharIs(s, '=', |name|);
    assert s[..|name|] == name && s[|name| + 1..] == value;
  }

  lemma SpacedTrim(name: string, value: string)
    requires |name| > 0 && !IsSpace(name[0])
    requires |value| > 0 && !IsSpace(value[|value| - 1])
    ensures Trim(" " + name + "=" + value) == name + "=" + value
  {
    var s := name + "=" + value;
    assert s[0] == name[0] && s[|s| - 1] == value[|value| - 1];
    TrimKeeps(s);
    var spaced := " " + name + "=" + value;
    assert spaced[1..] == s;
    assert TrimStart(spaced) == TrimStart(s);
  }

  /** An XMLHttpRequest response header line: the key before the first `: `, the piece up to the next one as value. */
  function HeaderLineEntry(line: string): (string, string)
  {
    var k := IndexFrom(line, ": ", 0);
    if k == |line| then (Lower(line), "undefined")
    else
      var rest := line[k + 2..];
      (Lower(line[..k]), rest[..IndexFrom(rest, ": ", 0)])
  }

  /**
   * A header line without `: ` yields the string `undefined`, which the
   * `Headers` object then holds as the header's value; a value that holds
   * `: ` itself is cut there.
   */
  lemma HeaderLineQuirks()
    ensures HeaderLineEntry("x-token") == ("x-token", "undefined")
    ensures HeaderLineEntry("x-gtk: a: b") == ("x-gtk", "a")
  {
    HeaderWithoutSeparator();
    HeaderValueCut();
  }

  lemma HeaderWithoutSeparator()
    ensures HeaderLineEntry("x-token") == ("x-token", "undefined")
  {
    var l1 := "x-token";
    NoColonNoSeparator(l1, 0);
    assert Lower(l1) == l1;
  }

  lemma HeaderValueCut()
    ensures HeaderLineEntry("x-gtk: a: b") == ("x-gtk", "a")
  {
    CutLine();
    ValueCutAtSeparator("x-gtk", "a", "b");
    assert Lower("x-gtk") == "x-gtk";
  }

  lemma CutLine()
    ensures "x-gtk: a: b" == "x-gtk" + ": " + "a" + ": " + "b"
    ensures ':' !in "x-gtk" && ':' !in "a"
  {
  }

  /** A value is read up to the next `: `. */
  lemma ValueCutAtSeparator(key: string, v: string, tail: string)
    requires ':' !in key && ':' !in v
    ensures HeaderLineEntry(key + ": " + v + ": " + tail) == (Lower(key), v)
  {
    var line := key + ": " + v + ": " + tail;
    var rest := v + ": " + tail;
    assert line == key + (": " + rest);
    assert line[..|key|] == key && line[|key|..|key| + 2] == ": ";
    SeparatorAt(line, |key|);
    assert line[|key| + 2..] == rest;
    assert rest[..|v|] == v && rest[|v|..|v| + 2] == ": ";
    SeparatorAt(rest, |v|);
  }

  /** Text without a colon holds no `: `. */
  lemma NoColonNoSeparator(s: string, from: nat)
    requires from <= |s| && ':' !in s
    ensures IndexFrom(s, ": ", from) == |s|
    decreases |s| - from
  {
    if from < |s| {
      if from + 2 <= |s| {
        assert s[from..from + 2][0] == s[from];
      }
      NoColonNoSeparator(s, from + 1);
    }
  }

  /** A `: ` at `k` after text without a colon is the first one. */
  lemma SeparatorAt(s: string, k: nat)
    requires k + 2 <= |s| && s[k..k + 2] == ": " && ':' !in s[..k]
    ensures IndexFrom(s, ": ", 0) == k
  {
    forall j | 0 <= j < k
      ensures !OccursAt(s, ": ", j)
    {
      assert s[j] == s[..k][j];
      if j + 2 <= |s| {
        assert s[j..j + 2][0] == s[j];
      }
    }
    IndexFromIs(s, ": ", 0, k);
  }

  lemma {:induction false} IndexFromIs(s: string, sub: string, from: nat, k: nat)
    requires from <= k < |s| && OccursAt(s, sub, k)
    requires forall j :: from <= j < k ==> !OccursAt(s, sub, j)
    ensures IndexFrom(s, sub, from) == k
    decreases k - from
  {
    if from < k {
      IndexFromIs(s, sub, from + 1, k);
    }
  }

  /**
   * The interceptor's store, `ED_CAPTURE`: requests in arrival order, their
   * grouping by endpoint, cookies, tokens, failed fetches and the counters.
   */
  class Capture {
    var endpoints: map<string, EndpointGroup>
    var requests: seq<Record>
    var cookies: map<string, string>
    var tokens: map<string, string>
    var errors: seq<ErrorRecord>
    var totalRequests: nat
    var totalBytes: nat
    var uniqueEndpoints: nat

    /** Ids number the requests from 0, the counters agree with the lists, and every request is in its endpoint's group. */
    predicate Valid()
      reads this
    {
      Consistent(endpoints, requests, totalRequests, totalBytes, uniqueEndpoints)
    }

    constructor ()
      ensures Valid()
      ensures endpoints == map[] && requests == [] && cookies == map[] && tokens == map[] && errors == []
    {
      endpoints, requests, cookies, tokens, errors := map[], [], map[], map[], [];
      totalRequests, totalBytes, uniqueEndpoints := 0, 0, 0;
    }

    /**
     * `captureRequest`: the exchange is recorded with the next id, filed in
     * its endpoint's group, its size added to the byte count, and the
     * response's tokens kept.
     */
    method CaptureRequest(
      url: string, verb: string, requestHeaders: map<string, string>, requestBody: Value,
      response: Response, duration: int, timestamp: string,
      pathname: Option<string>, parse: string -> Option<Value>) returns (record: Record)
      requires Valid()
      modifies this
      ensures Valid()
      ensures record == RecordOf(old(totalRequests), url, verb, requestHeaders, requestBody, response, duration, timestamp, pathname, parse)
      ensures requests == old(requests) + [record]
      ensures endpoints == Grouped(old(endpoints), record.endpoint, verb, record.requestBody, record.responseBody, CallOf(record))
      ensures tokens == TokensAfter(old(tokens), response.headers)
      ensures totalBytes == old(totalBytes) + record.size
      ensures uniqueEndpoints == old(uniqueEndpoints) + if record.endpoint in old(endpoints) then 0 else 1
      ensures unchanged(this`cookies, this`errors)
    {
      record := RecordOf(totalRequests, url, verb, requestHeaders, requestBody, response, duration, timestamp, pathname, parse);
      Append(record);
      tokens := TokensAfter(tokens, response.headers);
    }

    /** The record goes at the end of the list and into its endpoint's group, and the counters follow. */
    method Append(record: Record)
      requires Valid() && record.id == totalRequests
      modifies this
      ensures Valid()
      ensures requests == old(requests) + [record]
      ensures endpoints == Grouped(old(endpoints), record.endpoint, record.verb, record.requestBody, record.responseBody, CallOf(record))
      ensures totalBytes == old(totalBytes) + record.size
      ensures uniqueEndpoints == old(uniqueEndpoints) + if record.endpoint in old(endpoints) then 0 else 1
      ensures unchanged(this`cookies, this`errors, this`tokens)
    {
      RecordKeepsConsistent(endpoints, requests, totalRequests, totalBytes, uniqueEndpoints, record);
      var grouped := Grouped(endpoints, record.endpoint, record.verb, record.requestBody, record.responseBody, CallOf(record));
      var unique := uniqueEndpoints + if record.endpoint in endpoints then 0 else 1;
      endpoints, requests := grouped, requests + [record];
      totalRequests, totalBytes, uniqueEndpoints := totalRequests + 1, totalBytes + record.size, unique;
    }

    /**
     * The `fetch` wrapper: a URL that is not intercepted is passed through
     * untouched; otherwise a response is recorded and a failure is logged
     * as an error (and rethrown to the caller).
     */
    method OnFetch(
      url: string, verb: Option<string>, requestHeaders: map<string, string>, requestBody: Value,
      outcome: Result<Response, string>, duration: int, timestamp: string,
      pathname: Option<string>, parse: string -> Option<Value>)
      requires Valid()
      modifies this
      ensures Valid()
      ensures !Intercepted(url) ==>
        requests == old(requests) && endpoints == old(endpoints) && tokens == old(tokens) && errors == old(errors)
        && totalBytes == old(totalBytes)
      ensures Intercepted(url) && outcome.Failure? ==>
        errors == old(errors) + [ErrorRecord(timestamp, url, VerbOf(verb), outcome.error)]
        && requests == old(requests) && endpoints == old(endpoints) && tokens == old(tokens)
      ensures Intercepted(url) && outcome.Success? ==>
        |requests| == |old(requests)| + 1 && requests[..|old(requests)|] == old(requests)
        && requests[|old(requests)|].verb == VerbOf(verb) && requests[|old(requests)|].url == url
        && errors == old(errors)
      ensures unchanged(this`cookies)
    {
      if !Intercepted(url) {
        return;
      }
      var method_ := VerbOf(verb);
      match outcome
      case Success(response) =>
        var record := CaptureRequest(url, method_, requestHeaders, requestBody, response, duration, timestamp, pathname, parse);
        assert requests[..|old(requests)|] == old(requests);
      case Failure(error) =>
        errors := errors + [ErrorRecord(timestamp, url, method_, error)];
    }

    /**
     * The `load` handler that `XMLHttpRequest.send` installs for an
     * intercepted URL: the response header lines are gathered into a map
     * and the exchange is recorded like a fetch.
     */
    method OnXhrLoad(
      url: Option<string>, verb: string, requestHeaders: map<string, string>, requestBody: Value,
      status: int, headerLines: seq<string>, responseText: string, duration: int, timestamp: string,
      pathname: Option<string>, parse: string -> Option<Value>)
      requires Valid()
      modifies this
      ensures Valid()
      ensures !(url.Some? && Intercepted(url.value)) ==>
        requests == old(requests) && endpoints == old(endpoints) && tokens == old(tokens)
      ensures url.Some? && Intercepted(url.value) ==>
        |requests| == |old(requests)| + 1
        && requests[|old(requests)|].responseHeaders == Gather(map[], Entries(headerLines, HeaderSyntax))
        && tokens == TokensAfter(old(tokens), Gather(map[], Entries(headerLines, HeaderSyntax)))
      ensures unchanged(this`cookies, this`errors)
    {
      if url.Some? && Intercepted(url.value) {
        var headers := GatherEach(map[], headerLines, HeaderSyntax);
        var record := CaptureRequest(url.value, verb, requestHeaders, requestBody, Response(status, headers, responseText),
          duration, timestamp, pathname, parse);
      }
    }

    /** `captureCookies`: each `;`-separated entry of `document.cookie` with a name sets that cookie. */
    method CaptureCookies(documentCookie: string)
      requires Valid()
      modifies this
      ensures Valid()
      ensures cookies == Gather(old(cookies), Entries(Split(documentCookie, ';'), CookieSyntax))
      ensures unchanged(this`requests, this`endpoints, this`tokens, this`errors)
    {
      var jar := GatherEach(cookies, Split(documentCookie, ';'), CookieSyntax);
      cookies := jar;
    }

    /** `ED_CLEAR`: requests, groups, errors and counters are reset; cookies and tokens are kept. */
    method Clear()
      modifies this
      ensures Valid()
      ensures requests == [] && endpoints == map[] && errors == []
      ensures totalRequests == 0 && totalBytes == 0 && uniqueEndpoints == 0
      ensures unchanged(this`cookies, this`tokens)
    {
      requests, endpoints, errors := [], map[], [];
      totalRequests, totalBytes, uniqueEndpoints := 0, 0, 0;
    }
  }
}
