/**
 * The development server's proxy for the `/api/ed` routes: the prefix is
 * stripped, the browser-like headers and the stored cookies go out, and the
 * `Set-Cookie` lines that come back are filed into one shared jar, the GTK
 * token and the 2FA token being exposed to the page as response headers.
 */
module ViteProxy {
  import opened Wrappers
  import opened Text
  import opened CookieJar

  const PREFIX := "/api/ed"
  const ORIGIN := "https://www.ecoledirecte.com"
  const REFERER := "https://www.ecoledirecte.com/"
  const USER_AGENT := "Mozilla/5.0 (Windows NT 10.0; Win64; x64) AppleWebKit/537.36 (KHTML, like Gecko) Chrome/131.0.0.0 Safari/537.36"

  /** `path.replace(/^\/api\/ed/, '')`: a leading `/api/ed` is removed, any other path kept. */
  function Rewrite(path: string): (r: string)
    ensures StartsWith(path, PREFIX) ==> PREFIX + r == path
    ensures !StartsWith(path, PREFIX) ==> r == path
  {
    if StartsWith(path, PREFIX) then path[|PREFIX|..] else path
  }

  /** Only the leading prefix goes: a second `/api/ed` is left in place. */
  lemma RewriteOnce()
    ensures Rewrite("/api/ed/api/ed/login.awp") == "/api/ed/login.awp"
    ensures Rewrite("/v3/login.awp") == "/v3/login.awp"
  {
    assert StartsWith("/api/ed/api/ed/login.awp", PREFIX);
    assert !StartsWith("/v3/login.awp", PREFIX) by {
      assert "/v3/login.awp"[1] != PREFIX[1];
    }
  }

  /** The response headers with the captured GTK value exposed, when there is one. */
  function ExposeGtk(headers: map<string, string>, gtk: Option<string>): map<string, string>
  {
    if gtk.Some? then headers["X-GTK-Token" := gtk.value] else headers
  }

  /** Exposing a second token overwrites the first. */
  lemma ExposeAgain(headers: map<string, string>, gtk: Option<string>, v: string)
    ensures ExposeGtk(headers, gtk)["X-GTK-Token" := v] == ExposeGtk(headers, Some(v))
  {
  }

  class Session {
    /** Declared by the proxy but never assigned: the token is written to `gtkValue`. */
    var gtkCookie: Option<string>
    var gtkValue: Option<string>
    var allCookies: seq<string>

    predicate Valid()
      reads this
    {
      UniqueNames(allCookies)
    }

    constructor ()
      ensures Valid()
      ensures gtkCookie.None? && gtkValue.None? && allCookies == []
    {
      gtkCookie := None;
      gtkValue := None;
      allCookies := [];
    }

    /**
     * `proxyReq`: the École Directe origin, referer and user agent are set,
     * and, when the jar is not empty, `Cookie` lists the stored pairs
     * followed by the request's own cookies.
     */
    method ProxyReq(headers: map<string, string>) returns (out: map<string, string>)
      ensures "Origin" in out && out["Origin"] == ORIGIN
      ensures "Referer" in out && out["Referer"] == REFERER
      ensures "User-Agent" in out && out["User-Agent"] == USER_AGENT
      ensures |allCookies| > 0 ==> "Cookie" in out
      ensures |allCookies| > 0 ==> out["Cookie"] == CookieHeader(allCookies, if "Cookie" in headers then headers["Cookie"] else "")
      ensures |allCookies| == 0 ==> ("Cookie" in out <==> "Cookie" in headers)
      ensures |allCookies| == 0 && "Cookie" in headers ==> out["Cookie"] == headers["Cookie"]
      ensures forall k :: k in headers && k !in {"Origin", "Referer", "User-Agent", "Cookie"} ==> k in out && out[k] == headers[k]
    {
      out := headers["Origin" := ORIGIN]["Referer" := REFERER]["User-Agent" := USER_AGENT];
      if |allCookies| > 0 {
        var existing := if "Cookie" in out then out["Cookie"] else "";
        out := out["Cookie" := CookieHeader(allCookies, existing)];
      }
    }

    /** One pair with a value filed into the jar; a pair named exactly `GTK` sets the token. */
    method Store(pair: string) returns (captured: Option<string>)
      requires Valid() && !EmptyValue(pair)
      modifies this
      ensures Valid()
      ensures Jar(allCookies, gtkValue) == AfterPair(old(Jar(allCookies, gtkValue)), pair, true, false)
      ensures gtkCookie == old(gtkCookie)
      ensures captured == if IsGtkName(NameOf(pair), false) then ValueOf(pair) else None
      ensures captured.Some? ==> gtkValue == captured
    {
      captured := None;
      var name := NameOf(pair);
      UpsertKeepsNamesUnique(allCookies, pair);
      var k := FindIndex(allCookies, name);
      if k < |allCookies| {
        allCookies := allCookies[k := pair];
      } else {
        allCookies := allCookies + [pair];
      }
      if name == "GTK" {
        gtkValue := ValueOf(pair);
        captured := gtkValue;
      }
    }

    /**
     * `proxyRes`: every `Set-Cookie` line with a non-blank value is filed,
     * each `GTK` pair sets the token and exposes it as `X-GTK-Token` (the
     * last one wins), and a non-empty `2fa-token` is exposed as
     * `X-2FA-Token`.
     */
    method ProxyRes(setCookies: seq<string>, token2fa: Option<string>, resHeaders: map<string, string>) returns (out: map<string, string>)
      requires Valid()
      modifies this
      ensures Valid()
      ensures allCookies == Absorb(old(allCookies), setCookies, true)
      ensures gtkValue == GtkAfter(old(gtkValue), setCookies, true, false)
      ensures gtkCookie == old(gtkCookie)
      ensures var exposed := ExposeGtk(resHeaders, GtkAfter(None, setCookies, true, false));
        out == if token2fa.Some? && token2fa.value != "" then exposed["X-2FA-Token" := token2fa.value] else exposed
    {
      ghost var jar0 := Jar(allCookies, gtkValue);
      ghost var seen: Option<string> := None;
      out := resHeaders;
      var i := 0;
      while i < |setCookies|
        invariant 0 <= i <= |setCookies|
        invariant Valid()
        invariant Jar(allCookies, gtkValue) == AfterLines(jar0, setCookies[..i], true, false)
        invariant seen == GtkAfter(None, setCookies[..i], true, false)
        invariant out == ExposeGtk(resHeaders, seen)
        invariant gtkCookie == old(gtkCookie)
      {
        AfterLinesStep(jar0, setCookies, i, true, false);
        GtkStep(None, setCookies, i, true, false);
        var pair := PairOf(setCookies[i]);
        if !EmptyValue(pair) {
          var captured := Store(pair);
          if captured.Some? {
            ExposeAgain(resHeaders, seen, captured.value);
            seen := captured;
            out := out["X-GTK-Token" := captured.value];
          }
        }
        i := i + 1;
      }
      assert setCookies[..i] == setCookies;
      assert Jar(allCookies, gtkValue) == AfterLines(jar0, setCookies, true, false);
      if token2fa.Some? && token2fa.value != "" {
        out := out["X-2FA-Token" := token2fa.value];
      }
    }
  }

  /**
   * The exposed `X-GTK-Token` is the value of the last `Set-Cookie` line
   * whose pair is named exactly `GTK` and has a non-blank value; a `gtk`
   * cookie in another case is filed but never exposed.
   */
  lemma ExposedTokenIsLast(resHeaders: map<string, string>, setCookies: seq<string>)
    ensures var i := LastCapture(setCookies, true, false);
      var out := ExposeGtk(resHeaders, GtkAfter(None, setCookies, true, false));
      (i >= 0 ==> "X-GTK-Token" in out && out["X-GTK-Token"] == ValueOf(PairOf(setCookies[i])).value)
      && (i < 0 ==> out == resHeaders)
  {
    GtkFromLastLine(None, setCookies, true, false);
  }
}
