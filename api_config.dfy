/**
 * Which École Directe client the front end uses and where its requests go.
 * The build environment (`import.meta.env`) and the browser's user agent
 * are parameters; an unset variable is the empty string.
 */
module ApiConfig {
  import opened Wrappers
  import opened Text

  const ELECTRON_BASE := "https://api.ecoledirecte.com/v3"
  const PRODUCTION_BASE := "https://charge-scolaire-production.up.railway.app/api/ed"
  const PROXY_BASE := "/api/ed"

  /** The build variables the configuration reads. */
  datatype Env = Env(apiMode: string, useRealApi: string, prod: bool, apiUrl: string)

  /** `API_MODE`: the variable, or `mock` when it is unset. */
  function ApiModeSetting(env: Env): string
  {
    if env.apiMode == "" then "mock" else env.apiMode
  }

  /** `USE_REAL_API`: only the exact text `true` switches it on. */
  predicate UseRealApi(env: Env)
  {
    env.useRealApi == "true"
  }

  /** `isElectron`: a navigator exists and its lower-cased user agent contains `electron`. */
  predicate IsElectron(userAgent: Option<string>)
  {
    userAgent.Some? && Contains(Lower(userAgent.value), "electron")
  }

  /** `getApiMode()`. */
  function ApiMode(env: Env): (mode: string)
    ensures mode == "real" || mode == "mock"
  {
    if ApiModeSetting(env) == "real" || UseRealApi(env) then "real"
    else if ApiModeSetting(env) == "auto" then (if env.prod then "real" else "mock")
    else "mock"
  }

  /**
   * The real client is chosen when asked for explicitly, or in `auto` mode
   * in a production build; in every other case, an unset or unknown mode
   * included, the mock client is.
   */
  lemma ApiModeChoice(env: Env)
    ensures ApiModeSetting(env) == "real" ==> ApiMode(env) == "real"
    ensures UseRealApi(env) ==> ApiMode(env) == "real"
    ensures ApiModeSetting(env) == "auto" && !UseRealApi(env) ==> (ApiMode(env) == "real" <==> env.prod)
    ensures ApiMode(env) == "real" <==> env.apiMode == "real" || env.useRealApi == "true" || (env.apiMode == "auto" && env.prod)
    ensures env.apiMode == "" && env.useRealApi != "true" ==> ApiMode(env) == "mock"
  {
  }

  /** `ED_API_BASE`. */
  function ApiBase(userAgent: Option<string>, env: Env): (base: string)
    ensures IsElectron(userAgent) ==> base == ELECTRON_BASE
    ensures !IsElectron(userAgent) && env.prod ==> base == PRODUCTION_BASE
    ensures !IsElectron(userAgent) && !env.prod ==> base == (if env.apiUrl != "" then env.apiUrl else PROXY_BASE)
  {
    if IsElectron(userAgent) then ELECTRON_BASE
    else if env.prod then PRODUCTION_BASE
    else if env.apiUrl != "" then env.apiUrl
    else PROXY_BASE
  }

  /** The base is never empty, whatever the environment. */
  lemma ApiBaseNonEmpty(userAgent: Option<string>, env: Env)
    ensures ApiBase(userAgent, env) != ""
  {
  }

  /** The École Directe site the Electron requests claim to come from. */
  const ED_ORIGIN := "https://www.ecoledirecte.com"
  const ED_REFERER := ED_ORIGIN + "/"
  const BROWSER_AGENT := "Mozilla/5.0 (Windows NT 10.0; Win64; x64) AppleWebKit/537.36 (KHTML, like Gecko) Chrome/122.0.0.0 Safari/537.36"

  /** `getElectronHeaders()`. */
  function ElectronHeaders(userAgent: Option<string>): (headers: map<string, string>)
    ensures !IsElectron(userAgent) ==> headers == map[]
    ensures IsElectron(userAgent) ==> headers.Keys == {"Origin", "Referer", "User-Agent"}
    ensures IsElectron(userAgent) ==> headers["Origin"] == ED_ORIGIN && headers["Referer"] == ED_REFERER
    ensures IsElectron(userAgent) ==> headers["User-Agent"] == BROWSER_AGENT
  {
    if !IsElectron(userAgent) then map[]
    else map["Origin" := ED_ORIGIN, "Referer" := ED_REFERER, "User-Agent" := BROWSER_AGENT]
  }

  /** Outside Electron no header is added; inside it, the headers make requests look as if they came from the École Directe site. */
  lemma HeadersOnlyInElectron(userAgent: Option<string>)
    ensures ElectronHeaders(userAgent) != map[] <==> IsElectron(userAgent)
    ensures IsElectron(userAgent) ==> StartsWith(ElectronHeaders(userAgent)["Referer"], ElectronHeaders(userAgent)["Origin"])
  {
    if IsElectron(userAgent) {
      assert "Origin" in ElectronHeaders(userAgent);
      assert ED_REFERER[..|ED_ORIGIN|] == ED_ORIGIN;
    }
  }
}
