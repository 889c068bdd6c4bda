/**
 * The desktop shell's cookie store: the `Set-Cookie` lines of École
 * Directe's responses are kept, the GTK token is picked out, and both are
 * injected into the next requests; the renderer can clear the store.
 */
module ElectronMain {
  import opened Wrappers
  import opened Text
  import opened CookieJar

  const ORIGIN := "https://www.ecoledirecte.com"
  const REFERER := "https://www.ecoledirecte.com/"
  const USER_AGENT := "Mozilla/5.0 (Windows NT 10.0; Win64; x64) AppleWebKit/537.36 (KHTML, like Gecko) Chrome/122.0.0.0 Safari/537.36"

  class CookieStore {
    var gtk: Option<string>
    var allCookies: seq<string>
    var sessionId: Option<string>

    /** The jar holds one `name=value` entry per cookie name. */
    predicate Valid()
      reads this
    {
      UniqueNames(allCookies)
    }

    constructor ()
      ensures Valid()
      ensures gtk.None? && allCookies == [] && sessionId.None?
    {
      gtk := None;
      allCookies := [];
      sessionId := None;
    }

    /**
     * `onHeadersReceived`: every `Set-Cookie` line with a non-blank value
     * replaces the stored entry of its name or is appended, and a pair
     * named `gtk` in any case sets the token.
     */
    method OnHeadersReceived(setCookies: seq<string>)
      requires Valid()
      modifies this
      ensures Valid()
      ensures allCookies == Absorb(old(allCookies), setCookies, true)
      ensures gtk == GtkAfter(old(gtk), setCookies, true, true)
      ensures sessionId == old(sessionId)
    {
      ghost var jar0, gtk0 := allCookies, gtk;
      var i := 0;
      while i < |setCookies|
        invariant 0 <= i <= |setCookies|
        invariant allCookies == Absorb(jar0, setCookies[..i], true)
        invariant gtk == GtkAfter(gtk0, setCookies[..i], true, true)
        invariant UniqueNames(allCookies)
        invariant sessionId == old(sessionId)
      {
        AbsorbStep(jar0, gtk0, setCookies, i, true, true);
        var pair := PairOf(setCookies[i]);
        if !EmptyValue(pair) {
          Store(pair);
        }
        i := i + 1;
      }
      assert setCookies[..i] == setCookies;
    }

    /**
     * One pair with a value: it replaces the stored entry of its name or is
     * appended, and a pair named `gtk` in any case sets the token.
     */
    method Store(pair: string)
      requires Valid() && !EmptyValue(pair)
      modifies this
      ensures Valid()
      ensures allCookies == Upsert(old(allCookies), pair)
      ensures gtk == if IsGtkName(NameOf(pair), true) then ValueOf(pair) else old(gtk)
      ensures sessionId == old(sessionId)
      ensures pair in allCookies
    {
      var name := NameOf(pair);
      UpsertKeepsNamesUnique(allCookies, pair);
      var k := FindIndex(allCookies, name);
      if k < |allCookies| {
        allCookies := allCookies[k := pair];
      } else {
        allCookies := allCookies + [pair];
      }
      if Lower(name) == "gtk" {
        gtk := ValueOf(pair);
      }
    }

    /**
     * `onBeforeSendHeaders`: the request always gets the École Directe
     * origin, referer and user agent; `X-GTK` when a token is held; and,
     * when the jar is not empty, a `Cookie` header listing the stored
     * pairs followed by the request's own cookies.
     */
    method OnBeforeSendHeaders(headers: map<string, string>) returns (out: map<string, string>)
      ensures "Origin" in out && out["Origin"] == ORIGIN
      ensures "Referer" in out && out["Referer"] == REFERER
      ensures "User-Agent" in out && out["User-Agent"] == USER_AGENT
      ensures gtk.Some? && gtk.value != "" ==> "X-GTK" in out && out["X-GTK"] == gtk.value
      ensures !(gtk.Some? && gtk.value != "") ==> ("X-GTK" in out <==> "X-GTK" in headers)
      ensures !(gtk.Some? && gtk.value != "") && "X-GTK" in headers ==> out["X-GTK"] == headers["X-GTK"]
      ensures |allCookies| > 0 ==> "Cookie" in out
      ensures |allCookies| > 0 ==> out["Cookie"] == CookieHeader(allCookies, if "Cookie" in headers then headers["Cookie"] else "")
      ensures |allCookies| == 0 ==> ("Cookie" in out <==> "Cookie" in headers)
      ensures |allCookies| == 0 && "Cookie" in headers ==> out["Cookie"] == headers["Cookie"]
      ensures forall k :: k in headers && k !in {"Origin", "Referer", "User-Agent", "X-GTK", "Cookie"} ==> k in out && out[k] == headers[k]
    {
      out := headers["Origin" := ORIGIN]["Referer" := REFERER]["User-Agent" := USER_AGENT];
      if gtk.Some? && gtk.value != "" {
        out := out["X-GTK" := gtk.value];
      }
      if |allCookies| > 0 {
        var existing := if "Cookie" in out then out["Cookie"] else "";
        out := out["Cookie" := CookieHeader(allCookies, existing)];
      }
    }

    /** `clear-cookies`: the token, the jar and the session id are forgotten. */
    method ClearCookies() returns (ok: bool)
      modifies this
      ensures Valid()
      ensures gtk.None? && allCookies == [] && sessionId.None? && ok
    {
      gtk := None;
      allCookies := [];
      sessionId := None;
      ok := true;
    }
  }

  /** The stored pairs come first in the `Cookie` header, and the request's own cookies last. */
  lemma CookieHeaderOrder(jar: seq<string>, existing: string)
    requires |jar| > 0
    ensures StartsWith(CookieHeader(jar, existing), jar[0])
    ensures existing != "" ==> var h := CookieHeader(jar, existing);
      |existing| <= |h| && h[|h| - |existing|..] == existing
  {
    var parts := jar + (if existing != "" then [existing] else []);
    JoinStartsWith(parts, "; ");
    if existing != "" {
      JoinEndsWith(parts, "; ");
    }
  }

  lemma JoinStartsWith(parts: seq<string>, sep: string)
    requires |parts| > 0
    ensures StartsWith(Join(parts, sep), parts[0])
  {
    if |parts| > 1 {
      assert Join(parts, sep) == parts[0] + (sep + Join(parts[1..], sep));
      assert Join(parts, sep)[..|parts[0]|] == parts[0];
    }
  }

  lemma {:induction false} JoinEndsWith(parts: seq<string>, sep: string)
    requires |parts| > 0
    ensures var j := Join(parts, sep); var last := parts[|parts| - 1];
      |last| <= |j| && j[|j| - |last|..] == last
    decreases |parts|
  {
    if |parts| > 1 {
      JoinEndsWith(parts[1..], sep);
      var rest := Join(parts[1..], sep);
      var last := parts[|parts| - 1];
      assert parts[1..][|parts[1..]| - 1] == last;
      var j := parts[0] + sep + rest;
      assert j[|j| - |last|..] == rest[|rest| - |last|..];
    }
  }
}
