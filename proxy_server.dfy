/**
 * The Express back end that proxies the `/api/ed/` routes to École Directe: one
 * cookie jar and GTK token per session, the session named by the
 * `X-Session-Id` header, the headers École Directe expects on the way out,
 * and the token headers forwarded on the way back.
 *
 * The upstream answer is a parameter (`fetch` and `response.text()`), and
 * so is the identifier `generateSessionId` draws at random.
 */
module ProxyServer {
  import opened Wrappers
  import opened Text
  import opened Collections
  import opened CookieJar

  const ROUTE := "/api/ed/"
  const UPSTREAM := "https://api.ecoledirecte.com/v3/"
  const FORM := "application/x-www-form-urlencoded"
  const ORIGIN := "https://www.ecoledirecte.com"
  const REFERER := "https://www.ecoledirecte.com/"
  const USER_AGENT := "Mozilla/5.0 (Windows NT 10.0; Win64; x64) AppleWebKit/537.36"
  /** What Node says when `.substring` is called on `undefined`. */
  const NO_GTK_VALUE := "Cannot read properties of undefined (reading 'substring')"

  /** A session is a cookie jar and the GTK token taken from it. */
  type SessionState = Jar

  const EMPTY_SESSION := Jar([], None)

  /** An incoming request; Express gives header names in lower case, `query` is the URL's search part. */
  datatype Request = Request(verb: string, path: string, query: string, headers: map<string, string>, body: string)

  /** The request sent to École Directe. */
  datatype Outgoing = Outgoing(url: string, verb: string, headers: map<string, string>, body: Option<string>)

  /** École Directe's answer: status, `Set-Cookie` lines, the two token headers and the text of the body. */
  datatype Upstream = Upstream(status: int, setCookies: seq<string>, xToken: Option<string>, token2fa: Option<string>, body: string)

  datatype ReplyBody = Data(text: string) | ErrorJson(message: string)

  /** The answer to the client. */
  datatype Reply = Reply(status: int, headers: map<string, string>, body: ReplyBody)

  /** Every header name the proxy may send upstream. */
  const HEADER_NAMES := {"Content-Type", "Origin", "Referer", "User-Agent", "Cookie", "X-GTK", "X-Token", "2FA-Token"}

  /** A header that is present and not empty, as JavaScript tests it. */
  predicate Truthy(headers: map<string, string>, name: string)
  {
    name in headers && headers[name] != ""
  }

  predicate Set(v: Option<string>)
  {
    v.Some? && v.value != ""
  }

  /** `req.path.replace('/api/ed/', '')`: the route guarantees the prefix, which is the first occurrence. */
  function ApiPath(path: string): (apiPath: string)
    requires StartsWith(path, ROUTE)
    ensures ROUTE + apiPath == path
  {
    path[|ROUTE|..]
  }

  /** The École Directe URL a request is forwarded to. */
  function TargetUrl(path: string, query: string): string
    requires StartsWith(path, ROUTE)
  {
    UPSTREAM + ApiPath(path) + query
  }

  /** The forwarded URL swaps the proxy's prefix for École Directe's and keeps the rest of the path and the query. */
  lemma TargetUrlSwapsPrefix(path: string, query: string)
    requires StartsWith(path, ROUTE)
    ensures var url := TargetUrl(path, query);
      StartsWith(url, UPSTREAM) && ROUTE + url[|UPSTREAM|..|url| - |query|] == path
      && url[|url| - |query|..] == query
  {
    var url := TargetUrl(path, query);
    assert url == UPSTREAM + (ApiPath(path) + query);
    assert url[|UPSTREAM|..|url| - |query|] == ApiPath(path);
  }

  /**
   * The headers sent to École Directe: always the form content type and the
   * site's origin, referer and user agent; the session's cookies and GTK
   * token when it has them; the client's `x-token` and `2fa-token` when
   * given.
   */
  function RequestHeaders(session: SessionState, incoming: map<string, string>): (h: map<string, string>)
    ensures "Content-Type" in h && h["Content-Type"] == FORM
    ensures "Origin" in h && h["Origin"] == ORIGIN && "Referer" in h && h["Referer"] == REFERER
    ensures "User-Agent" in h && h["User-Agent"] == USER_AGENT
    ensures forall k :: k in h ==> k in HEADER_NAMES
  {
    var base := map["Content-Type" := FORM, "Origin" := ORIGIN, "Referer" := REFERER, "User-Agent" := USER_AGENT];
    var withCookie := if |session.cookies| > 0 then base["Cookie" := Join(session.cookies, "; ")] else base;
    var withGtk := if Set(session.gtk) then withCookie["X-GTK" := session.gtk.value] else withCookie;
    var withToken := if Truthy(incoming, "x-token") then withGtk["X-Token" := incoming["x-token"]] else withGtk;
    if Truthy(incoming, "2fa-token") then withToken["2FA-Token" := incoming["2fa-token"]] else withToken
  }

  /** The session's jar goes out as `Cookie` when it is not empty, and its token as `X-GTK` when it is set. */
  lemma RequestHeadersFromSession(session: SessionState, incoming: map<string, string>)
    ensures var h := RequestHeaders(session, incoming);
      ("Cookie" in h <==> |session.cookies| > 0)
      && ("Cookie" in h ==> h["Cookie"] == Join(session.cookies, "; "))
      && ("X-GTK" in h <==> Set(session.gtk))
      && ("X-GTK" in h ==> h["X-GTK"] == session.gtk.value)
  {
  }

  /** The client's `x-token` and `2fa-token` are forwarded when given, and only then. */
  lemma RequestHeadersForwarded(session: SessionState, incoming: map<string, string>)
    ensures var h := RequestHeaders(session, incoming);
      ("X-Token" in h <==> Truthy(incoming, "x-token"))
      && ("X-Token" in h ==> h["X-Token"] == incoming["x-token"])
      && ("2FA-Token" in h <==> Truthy(incoming, "2fa-token"))
      && ("2FA-Token" in h ==> h["2FA-Token"] == incoming["2fa-token"])
  {
  }

  /** The request sent upstream for `req` on behalf of `session`; only a POST carries the body. */
  function Forwarded(req: Request, session: SessionState): (out: Outgoing)
    requires StartsWith(req.path, ROUTE)
    ensures out.body.Some? <==> req.verb == "POST"
    ensures out.body.Some? ==> out.body.value == req.body
  {
    Outgoing(TargetUrl(req.path, req.query), req.verb, RequestHeaders(session, req.headers),
             if req.verb == "POST" then Some(req.body) else None)
  }

  /** The headers of a successful answer: the session id, JSON, and the tokens École Directe sent. */
  function ReplyHeaders(sessionId: string, up: Upstream): (h: map<string, string>)
    ensures "X-Session-Id" in h && h["X-Session-Id"] == sessionId
    ensures "Content-Type" in h && h["Content-Type"] == "application/json"
    ensures "X-Token" in h <==> Set(up.xToken)
    ensures "X-Token" in h ==> h["X-Token"] == up.xToken.value
    ensures "2FA-Token" in h <==> Set(up.token2fa)
    ensures "2FA-Token" in h ==> h["2FA-Token"] == up.token2fa.value
  {
    var base := map["X-Session-Id" := sessionId, "Content-Type" := "application/json"];
    var withToken := if Set(up.xToken) then base["X-Token" := up.xToken.value] else base;
    if Set(up.token2fa) then withToken["2FA-Token" := up.token2fa.value] else withToken
  }

  /** A `GTK` pair without `=`: reading its value yields `undefined`, and logging it throws. */
  predicate BareGtk(cookie: string)
  {
    var pair := PairOf(cookie);
    NameOf(pair) == "GTK" && ValueOf(pair).None?
  }

  /** Some `Set-Cookie` line holds a bare GTK pair. */
  predicate HasBareGtk(setCookies: seq<string>)
  {
    exists j :: 0 <= j < |setCookies| && BareGtk(setCookies[j])
  }

  /** The `Set-Cookie` lines the loop reaches: all of them, or those up to the first bare GTK pair included. */
  function Reached(setCookies: seq<string>): (r: seq<string>)
    ensures r <= setCookies
    ensures forall j :: 0 <= j < |r| - 1 ==> !BareGtk(r[j])
    ensures r == setCookies || (|r| > 0 && BareGtk(r[|r| - 1]))
  {
    var stop := FirstWhere(setCookies, BareGtk);
    if stop < |setCookies| then
      assert forall j :: 0 <= j < stop ==> setCookies[..stop + 1][j] == setCookies[j];
      setCookies[..stop + 1]
    else setCookies
  }

  /** The session after the `Set-Cookie` lines: every pair reached is filed, including those without a value. */
  function Captured(session: SessionState, setCookies: seq<string>): SessionState
  {
    AfterLines(session, Reached(setCookies), false, false)
  }

  /** A bare GTK pair at `i`, the first one: the session keeps what the lines up to it filed. */
  lemma CapturedStops(session: SessionState, setCookies: seq<string>, i: nat)
    requires i < |setCookies| && BareGtk(setCookies[i])
    requires i <= FirstWhere(setCookies, BareGtk)
    ensures HasBareGtk(setCookies)
    ensures Captured(session, setCookies) == AfterLines(session, setCookies[..i + 1], false, false)
  {
    assert FirstWhere(setCookies, BareGtk) == i;
    assert Reached(setCookies) == setCookies[..i + 1];
  }

  /** No bare GTK pair: every line is filed. */
  lemma CapturedAll(session: SessionState, setCookies: seq<string>)
    requires FirstWhere(setCookies, BareGtk) == |setCookies|
    ensures !HasBareGtk(setCookies)
    ensures Captured(session, setCookies) == AfterLines(session, setCookies[..|setCookies|], false, false)
  {
    assert setCookies[..|setCookies|] == setCookies;
  }

  /**
   * One pair filed into a session, as the loop body does it in place: it
   * replaces the entry of its name or is appended, and a pair named
   * exactly `GTK` sets the token to its value.
   */
  method File(s: SessionState, pair: string) returns (t: SessionState)
    ensures t == AfterPair(s, pair, false, false)
  {
    var name := NameOf(pair);
    var k := FindIndex(s.cookies, name);
    if k < |s.cookies| {
      t := s.(cookies := s.cookies[k := pair]);
    } else {
      t := s.(cookies := s.cookies + [pair]);
    }
    if name == "GTK" {
      t := t.(gtk := ValueOf(pair));
    }
  }

  /** The stored session the `x-session-id` header names, if any. */
  function KnownId(sessions: map<string, SessionState>, headers: map<string, string>): (id: Option<string>)
    ensures id.Some? ==> id.value in sessions && Truthy(headers, "x-session-id") && id.value == headers["x-session-id"]
    ensures id.None? && Truthy(headers, "x-session-id") ==> headers["x-session-id"] !in sessions
  {
    if Truthy(headers, "x-session-id") && headers["x-session-id"] in sessions then Some(headers["x-session-id"]) else None
  }

  /**
   * When every `Set-Cookie` line holds a `=`, nothing throws and every line
   * is filed: the jar keeps one entry per name, and the token is the value
   * of the last pair named exactly `GTK`, or stays as it was.
   */
  lemma CapturedWellFormed(session: SessionState, setCookies: seq<string>)
    requires UniqueNames(session.cookies)
    requires forall i :: 0 <= i < |setCookies| ==> '=' in PairOf(setCookies[i])
    ensures !HasBareGtk(setCookies)
    ensures UniqueNames(Captured(session, setCookies).cookies)
    ensures var i := LastCapture(setCookies, false, false);
      Captured(session, setCookies).gtk == if i < 0 then session.gtk else ValueOf(PairOf(setCookies[i]))
  {
    assert forall j :: 0 <= j < |setCookies| ==> !BareGtk(setCookies[j]);
    assert Reached(setCookies) == setCookies;
    AbsorbAllKeepsNamesUnique(session.cookies, setCookies);
    GtkFromLastLine(session.gtk, setCookies, false, false);
  }

  /**
   * A bare `GTK` line: it is filed as it is, the token is lost, and the
   * lines after it are never filed, since the loop throws there.
   */
  lemma BareGtkStopsFiling()
    ensures HasBareGtk(["GTK; Path=/", "sid=1"])
    ensures Captured(Jar([], Some("t")), ["GTK; Path=/", "sid=1"]) == Jar(["GTK"], None)
  {
    var lines := ["GTK; Path=/", "sid=1"];
    assert lines[0][3] == ';' && lines[0][0] != ';' && lines[0][1] != ';' && lines[0][2] != ';';
    assert IndexOfChar(lines[0], ';') == 3;
    assert PairOf(lines[0]) == "GTK";
    assert IndexOfChar("GTK", '=') == 3;
    assert BareGtk(lines[0]);
    CapturedStops(Jar([], Some("t")), lines, 0);
    var first := lines[..1];
    assert first[..0] == [];
    assert Absorb([], first, false) == Upsert([], "GTK") == ["GTK"];
    assert GtkAfter(Some("t"), first, false, false) == ValueOf("GTK") == None;
  }

  /** The id the request ends up with: the one its header names when stored, or the fresh one. */
  function ChosenId(sessions: map<string, SessionState>, headers: map<string, string>, freshId: string): string
  {
    var known := KnownId(sessions, headers);
    if known.Some? then known.value else freshId
  }

  /** The session the request works on before the answer: the stored one, or a new empty one. */
  function Opened(sessions: map<string, SessionState>, headers: map<string, string>): SessionState
  {
    var known := KnownId(sessions, headers);
    if known.Some? then sessions[known.value] else EMPTY_SESSION
  }

  class Server {
    var sessions: map<string, SessionState>

    constructor ()
      ensures sessions == map[]
    {
      sessions := map[];
    }

    /**
     * `getSession`: a header naming a stored session selects it; otherwise
     * the freshly drawn id gets an empty session.
     */
    method GetSession(headers: map<string, string>, freshId: string) returns (id: string)
      modifies this
      ensures id in sessions
      ensures KnownId(old(sessions), headers).Some? ==> id == KnownId(old(sessions), headers).value && sessions == old(sessions)
      ensures KnownId(old(sessions), headers).None? ==> id == freshId && sessions == old(sessions)[freshId := EMPTY_SESSION]
      ensures id == ChosenId(old(sessions), headers, freshId) && sessions[id] == Opened(old(sessions), headers)
    {
      if Truthy(headers, "x-session-id") && headers["x-session-id"] in sessions {
        id := headers["x-session-id"];
      } else {
        id := freshId;
        sessions := sessions[id := EMPTY_SESSION];
      }
    }

    /**
     * The loop over the `Set-Cookie` lines: each pair replaces the entry of
     * its name or is appended, and a pair named exactly `GTK` sets the token.
     * A bare `GTK` pair throws once it has been filed, leaving the session
     * as it is at that point; `failed` tells whether that happened.
     */
    method CaptureCookies(id: string, setCookies: seq<string>) returns (failed: bool)
      requires id in sessions
      modifies this
      ensures sessions == old(sessions)[id := Captured(old(sessions)[id], setCookies)]
      ensures failed <==> HasBareGtk(setCookies)
    {
      var s := sessions[id];
      ghost var s0 := s;
      var i := 0;
      while i < |setCookies|
        invariant 0 <= i <= |setCookies|
        invariant s == AfterLines(s0, setCookies[..i], false, false)
        invariant i <= FirstWhere(setCookies, BareGtk)
        invariant sessions == old(sessions)[id := s]
      {
        AfterLinesStep(s0, setCookies, i, false, false);
        var pair := PairOf(setCookies[i]);
        s := File(s, pair);
        sessions := sessions[id := s];
        var bare := NameOf(pair) == "GTK" && ValueOf(pair).None?;
        assert bare == BareGtk(setCookies[i]);
        if bare {
          CapturedStops(s0, setCookies, i);
          return true;
        }
        i := i + 1;
      }
      CapturedAll(s0, setCookies);
      failed := false;
    }

    /**
     * A request on the `/api/ed/` routes: the session is chosen or created, the
     * request is forwarded with the session's cookies and token, the answer's
     * cookies are filed into the session, and the answer goes back with the
     * session id.  A failed fetch or a bare GTK pair answers 500 with the
     * error's message and no session id.
     */
    method Handle(req: Request, freshId: string, upstream: Result<Upstream, string>) returns (sent: Outgoing, reply: Reply)
      requires StartsWith(req.path, ROUTE)
      modifies this
      ensures var id := ChosenId(old(sessions), req.headers, freshId);
        var session := Opened(old(sessions), req.headers);
        sent == Forwarded(req, session)
      ensures upstream.Failure? ==> reply == Reply(500, map[], ErrorJson(upstream.error))
      ensures upstream.Failure? ==> sessions == old(sessions)[ChosenId(old(sessions), req.headers, freshId) := Opened(old(sessions), req.headers)]
      ensures upstream.Success? ==> var id := ChosenId(old(sessions), req.headers, freshId);
        sessions == old(sessions)[id := Captured(Opened(old(sessions), req.headers), upstream.value.setCookies)]
      ensures upstream.Success? && HasBareGtk(upstream.value.setCookies) ==> reply == Reply(500, map[], ErrorJson(NO_GTK_VALUE))
      ensures upstream.Success? && !HasBareGtk(upstream.value.setCookies) ==> var up := upstream.value;
        reply == Reply(up.status, ReplyHeaders(ChosenId(old(sessions), req.headers, freshId), up), Data(up.body))
    {
      var id := GetSession(req.headers, freshId);
      var session := sessions[id];
      sent := Forwarded(req, session);
      if upstream.Failure? {
        reply := Reply(500, map[], ErrorJson(upstream.error));
        return;
      }
      var up := upstream.value;
      var failed := CaptureCookies(id, up.setCookies);
      if failed {
        reply := Reply(500, map[], ErrorJson(NO_GTK_VALUE));
      } else {
        reply := Reply(up.status, ReplyHeaders(id, up), Data(up.body));
      }
    }
  }
}
