/**
 * The session of the real École Directe client: the fields that login, the
 * security questionnaire (QCM) and logout update, the keys it keeps in local
 * storage, the obfuscated credentials it keeps there for 24 hours, and the
 * teacher's groups and students it assembles.
 *
 * Each operation is specified by a function on a `Session` value, which the
 * lemmas reason about, and implemented by a method of `EcoleDirecteClient`
 * that updates the object's fields step by step.  The network replies, the
 * clock (`now`, in milliseconds) and a fresh device identifier are
 * parameters.
 */
module RealEcoleDirecteClient {
  import opened Wrappers
  import opened Collections
  import opened RealEcoleDirecte
  import Dates

  // ---------------------------------------------------------------------------
  // Session state
  // ---------------------------------------------------------------------------

  datatype Credentials = Credentials(username: string, password: string, rememberMe: bool)

  /** The `cn`/`cv` pair the server hands out once a QCM is answered. */
  datatype CnCv = CnCv(cn: string, cv: string)

  /** A pending questionnaire: decoded question and answers, and the answers as received. */
  datatype Qcm = Qcm(question: string, propositions: seq<string>, rawPropositions: seq<string>)

  /** A student of a teacher's group, with the fields the merge reads. */
  datatype GroupStudent = GroupStudent(id: int, lastName: string, firstName: string, classId: int, className: string,
                                       email: Option<string>)

  /** The `group` of a group's students: `None` when the response has no `entity`. */
  datatype GroupInfo = GroupInfo(id: int, code: string, name: string, kind: string)

  /** A student of the teacher, with one entry of `groups` per group it was listed in. */
  datatype TeacherStudent = TeacherStudent(student: GroupStudent, groups: seq<Option<GroupInfo>>)

  /**
   * A value of local storage, by what the client writes under its keys (JSON
   * modelled structurally); `Plain` under a key the client reads as JSON is a
   * text that is not JSON.
   */
  datatype Stored =
    | Plain(text: string)
    | CredsRecord(u: string, p: string, t: int)
    | CnCvRecord(cn: string, cv: string)
    | StudentsCache(timestamp: int, data: seq<TeacherStudent>)

  /**
   * The messages the client puts in its errors, by what they report;
   * `MessageText` gives their wording.
   */
  datatype Message =
    | RequestCancelled
    | NoServerReply
    | NetworkFailure
    | QcmFetchFailed(reason: string)
    | NoPendingQcm
    | WrongQcmAnswer
    | TeachersOnly
    | LoginRefused(code: int, serverMessage: string)

  /** What the client throws: its two error classes, the QCM request, or a platform error. */
  datatype EdError =
    | EcoleDirecteError(message: Message, code: int)
    | AuthenticationError(message: Message, code: int)
    | QcmRequiredError(token: Option<string>, question: string, propositions: seq<string>)
    | PlatformError

  /** The fields of the client object, and local storage. */
  datatype Session = Session(
    token: Option<string>,
    token2fa: Option<string>,
    gtkToken: Option<string>,
    account: Option<Account>,
    modules: seq<ModuleInfo>,
    pendingQcm: Option<Qcm>,
    qcmCredentials: Option<Credentials>,
    savedCnCv: Option<CnCv>,
    accessToken: Option<string>,
    username: Option<string>,
    deviceUuid: string,
    storage: map<string, Stored>)

  /** A state and what the operation returns or throws. */
  datatype Outcome<T> = Outcome(session: Session, result: Result<T, EdError>)

  /** A header or field that JavaScript treats as true: present and not empty. */
  predicate Truthy(h: Option<string>)
  {
    h.Some? && h.value != ""
  }

  /** `isAuthenticated`. */
  predicate IsAuthenticated(s: Session)
  {
    Truthy(s.token) && s.account.Some?
  }

  const CREDS_KEY := "ed_creds"
  const ACCESS_TOKEN_KEY := "ed_access_token"
  const USERNAME_KEY := "ed_username"
  const CN_CV_KEY := "ed_cn_cv"
  const EDP_CN_CV_KEY := "A2FInfo"
  const DEVICE_KEY := "ed_device_uuid"
  const STUDENTS_CACHE_KEY := "ed_teacher_students_cache"

  /** 24 hours in milliseconds: the lifetime of stored credentials and of the students cache. */
  const DAY_MS := 24 * 60 * 60 * 1000

  /** A text stored under `key`, or `None` (`localStorage.getItem(key) || null`). */
  function StoredText(storage: map<string, Stored>, key: string): Option<string>
  {
    if key in storage && storage[key].Plain? && storage[key].text != "" then Some(storage[key].text) else None
  }

  /** A non-empty text under `key` that `JSON.parse` rejects. */
  predicate Unparsable(storage: map<string, Stored>, key: string)
  {
    key in storage && storage[key].Plain? && storage[key].text != ""
  }

  /**
   * `loadCnCv`: the editor-compatible record when it has both halves, else the
   * client's own; a stored text that is not JSON makes `JSON.parse` throw, and
   * the catch returns null.
   */
  function LoadCnCv(storage: map<string, Stored>): (r: Option<CnCv>)
    ensures Unparsable(storage, EDP_CN_CV_KEY) ==> r.None?
    ensures EDP_CN_CV_KEY in storage && storage[EDP_CN_CV_KEY].CnCvRecord?
      && storage[EDP_CN_CV_KEY].cn != "" && storage[EDP_CN_CV_KEY].cv != ""
      ==> r == Some(CnCv(storage[EDP_CN_CV_KEY].cn, storage[EDP_CN_CV_KEY].cv))
    ensures r.Some? ==> (exists key :: key in {EDP_CN_CV_KEY, CN_CV_KEY} && key in storage && storage[key] == CnCvRecord(r.value.cn, r.value.cv))
    ensures r.Some? && !(EDP_CN_CV_KEY in storage && storage[EDP_CN_CV_KEY].CnCvRecord?) ==> storage[CN_CV_KEY] == CnCvRecord(r.value.cn, r.value.cv)
  {
    if Unparsable(storage, EDP_CN_CV_KEY) then None
    else if EDP_CN_CV_KEY in storage && storage[EDP_CN_CV_KEY].CnCvRecord?
       && storage[EDP_CN_CV_KEY].cn != "" && storage[EDP_CN_CV_KEY].cv != ""
    then Some(CnCv(storage[EDP_CN_CV_KEY].cn, storage[EDP_CN_CV_KEY].cv))
    else if CN_CV_KEY in storage && storage[CN_CV_KEY].CnCvRecord?
    then Some(CnCv(storage[CN_CV_KEY].cn, storage[CN_CV_KEY].cv))
    else None
  }

  /** The state the constructor builds; `freshId` is the identifier `generateUUID` would make. */
  function InitialSession(storage: map<string, Stored>, freshId: string): (s: Session)
    ensures !IsAuthenticated(s) && s.pendingQcm.None? && s.qcmCredentials.None?
    ensures DEVICE_KEY in s.storage && s.storage[DEVICE_KEY] == Plain(s.deviceUuid)
    ensures forall k :: k in storage && k != DEVICE_KEY ==> k in s.storage && s.storage[k] == storage[k]
    ensures s.savedCnCv == LoadCnCv(storage)
    ensures s.accessToken == StoredText(storage, ACCESS_TOKEN_KEY) && s.username == StoredText(storage, USERNAME_KEY)
    ensures s.deviceUuid == if StoredText(storage, DEVICE_KEY).Some? then storage[DEVICE_KEY].text else freshId
  {
    var stored := StoredText(storage, DEVICE_KEY);
    var uuid := if stored.Some? then stored.value else freshId;
    var storage' := if stored.Some? then storage else storage[DEVICE_KEY := Plain(freshId)];
    Session(None, None, None, None, [], None, None, LoadCnCv(storage), StoredText(storage, ACCESS_TOKEN_KEY),
            StoredText(storage, USERNAME_KEY), uuid, storage')
  }

  // ---------------------------------------------------------------------------
  // Login and the security questionnaire
  // ---------------------------------------------------------------------------

  /** What the login request brought back. */
  datatype LoginReply =
    | Aborted
    | Unreachable
    | EmptyBody
    | LoginResponse(code: int, bodyToken: string, headerToken: Option<string>, header2fa: Option<string>,
                    accounts: seq<RawAccount>, message: string)

  /** What the request for the questionnaire brought back (`QcmUnreadable`: the request or its JSON failed). */
  datatype QcmReply =
    | QcmUnreadable
    | QcmResponse(code: int, headerToken: Option<string>, header2fa: Option<string>,
                  question: string, propositions: seq<string>, message: string)

  /** What the answer to the questionnaire brought back. */
  datatype AnswerReply =
    | AnswerUnreadable
    | AnswerResponse(code: int, headerToken: Option<string>, header2fa: Option<string>, cn: string, cv: string)

  /** What a successful login returns. */
  datatype LoginResult = LoginResult(token: Option<string>, account: Account, accounts: seq<Account>, modules: seq<string>)

  const ED_ERROR_CODES: map<int, string> := map[
    200 := "success",
    250 := "QCM de sécurité requis",
    505 := "Identifiant et/ou mot de passe invalide",
    517 := "Version API invalide",
    520 := "Token invalide",
    522 := "Identifiant et/ou mot de passe invalide",
    525 := "Session expirée",
    535 := "Établissement non disponible",
    202 := "Compte non créé",
    40129 := "Format JSON invalide",
    74000 := "Connexion au serveur échouée"]

  /** `ED_ERROR_CODES[code] || message || 'Erreur inconnue'`. */
  function ErrorMessage(code: int, message: string): (r: string)
    ensures r != ""
  {
    if code in ED_ERROR_CODES then ED_ERROR_CODES[code] else if message != "" then message else "Erreur inconnue"
  }

  /** The wording of each message. */
  function MessageText(m: Message): string
  {
    match m
    case RequestCancelled => "Requête annulée"
    case NoServerReply => "Aucune réponse du serveur. Vérifiez votre connexion ou utilisez un proxy."
    case NetworkFailure => "Erreur réseau. Vérifiez votre connexion ou configurez le proxy."
    case QcmFetchFailed(reason) => "Erreur lors de la récupération du QCM: " + reason
    case NoPendingQcm => "Aucun QCM en attente"
    case WrongQcmAnswer => "Réponse incorrecte au QCM"
    case TeachersOnly => "Cette méthode est réservée aux professeurs"
    case LoginRefused(code, serverMessage) => ErrorMessage(code, serverMessage)
  }

  const NETWORK_ERROR := EcoleDirecteError(NetworkFailure, 0)

  function ModuleCode(m: ModuleInfo): string
  {
    m.code
  }

  /** A new header value replaces the field only when it is truthy. */
  function Refresh(field: Option<string>, header: Option<string>): Option<string>
  {
    if Truthy(header) then header else field
  }

  /** `saveAccessToken`: the fields always, local storage when the token is not empty. */
  function WithAccessToken(s: Session, accessToken: string, username: string): Session
  {
    s.(accessToken := Some(accessToken), username := Some(username),
       storage := if accessToken != "" then s.storage[ACCESS_TOKEN_KEY := Plain(accessToken)][USERNAME_KEY := Plain(username)]
                  else s.storage)
  }

  /** `fetchQCM`: refreshes the tokens from the headers, then decodes and keeps the questionnaire. */
  function FetchQcmOutcome(s: Session, reply: QcmReply): Outcome<Qcm>
  {
    match reply
    case QcmUnreadable => Outcome(s, Failure(PlatformError))
    case QcmResponse(code, headerToken, header2fa, question, propositions, message) =>
      var s1 := s.(token := Refresh(s.token, headerToken), token2fa := Refresh(s.token2fa, header2fa));
      if code != 200 then
        var reason := if message != "" then message else "code " + Dates.IntToString(code);
        Outcome(s1, Failure(EcoleDirecteError(QcmFetchFailed(reason), code)))
      else
        var qcm := Qcm(DecodeBase64(question), Map(propositions, DecodeBase64), propositions);
        Outcome(s1.(pendingQcm := Some(qcm)), Success(qcm))
  }

  /**
   * `login`: keeps the credentials for a questionnaire, runs the GTK
   * handshake (`gtk` is the token it obtained, if any), then acts on the
   * reply: code 200 logs in with the first account, code 250 fetches the
   * questionnaire and asks for it, any other code is an authentication error.
   * An error that is not the client's own becomes the network error.
   */
  function LoginOutcome(s: Session, username: string, password: string, rememberMe: bool, gtk: Option<string>,
                        reply: LoginReply, qcmReply: QcmReply): Outcome<LoginResult>
  {
    var s0 := s.(qcmCredentials := Some(Credentials(username, password, rememberMe)), gtkToken := Refresh(s.gtkToken, gtk));
    LoginReplied(s0, username, rememberMe, reply, qcmReply)
  }

  /** What `login` does with the reply to its request. */
  function LoginReplied(s: Session, username: string, rememberMe: bool, reply: LoginReply, qcmReply: QcmReply): Outcome<LoginResult>
  {
    match reply
    case Aborted => Outcome(s, Failure(EcoleDirecteError(RequestCancelled, 0)))
    case Unreachable => Outcome(s, Failure(NETWORK_ERROR))
    case EmptyBody =>
      Outcome(s, Failure(EcoleDirecteError(NoServerReply, 0)))
    case LoginResponse(code, bodyToken, headerToken, header2fa, accounts, message) =>
      var newToken := if bodyToken != "" then Some(bodyToken) else headerToken;
      if code == 200 then LoginAccepted(s, username, rememberMe, newToken, header2fa, accounts)
      else if code == 250 then QcmAsked(s, newToken, header2fa, qcmReply)
      else Outcome(s, Failure(AuthenticationError(LoginRefused(code, message), code)))
  }

  /** Code 200: keeps the token and the first account, and saves its access token with `remember me`. */
  function LoginAccepted(s: Session, username: string, rememberMe: bool, newToken: Option<string>,
                         header2fa: Option<string>, accounts: seq<RawAccount>): Outcome<LoginResult>
  {
    var s1 := s.(token := newToken, token2fa := Refresh(s.token2fa, header2fa));
    if |accounts| == 0 then Outcome(s1, Failure(NETWORK_ERROR))
    else
      var account := ParseAccount(accounts[0]);
      var s2 := s1.(account := Some(account), modules := account.modules);
      var s3 := if rememberMe && accounts[0].accessToken != "" then WithAccessToken(s2, accounts[0].accessToken, username) else s2;
      var codes := Map(account.modules, ModuleCode);
      Outcome(s3.(pendingQcm := None, qcmCredentials := None),
              Success(LoginResult(newToken, account, Map(accounts, ParseAccount), codes)))
  }

  /** Code 250: keeps both tokens as received and fetches the questionnaire to ask it. */
  function QcmAsked(s: Session, newToken: Option<string>, header2fa: Option<string>, qcmReply: QcmReply): Outcome<LoginResult>
  {
    var q := FetchQcmOutcome(s.(token := newToken, token2fa := header2fa), qcmReply);
    match q.result
    case Failure(e) => Outcome(q.session, Failure(if e.PlatformError? then NETWORK_ERROR else e))
    case Success(qcm) => Outcome(q.session, Failure(QcmRequiredError(newToken, qcm.question, qcm.propositions)))
  }

  /**
   * `answerQCM`: refuses when nothing is pending; otherwise refreshes the
   * tokens, and on success keeps the `cn`/`cv` pair and logs in again with
   * the kept credentials.  A failed request is thrown as is.
   */
  function AnswerQcmOutcome(s: Session, reply: AnswerReply, gtk: Option<string>,
                            loginReply: LoginReply, qcmReply: QcmReply): Outcome<LoginResult>
  {
    if s.pendingQcm.None? || s.qcmCredentials.None? then
      Outcome(s, Failure(EcoleDirecteError(NoPendingQcm, 0)))
    else
      match reply
      case AnswerUnreadable => Outcome(s, Failure(PlatformError))
      case AnswerResponse(code, headerToken, header2fa, cn, cv) =>
        var s1 := s.(token := Refresh(s.token, headerToken), token2fa := Refresh(s.token2fa, header2fa));
        if code != 200 then Outcome(s1, Failure(EcoleDirecteError(WrongQcmAnswer, code)))
        else
          var c := s.qcmCredentials.value;
          LoginOutcome(WithCnCv(s1, cn, cv), c.username, c.password, c.rememberMe, gtk, loginReply, qcmReply)
  }

  /** `saveCnCv`. */
  function WithCnCv(s: Session, cn: string, cv: string): Session
  {
    s.(savedCnCv := Some(CnCv(cn, cv)), storage := s.storage[CN_CV_KEY := CnCvRecord(cn, cv)])
  }

  /** The keys `logout` removes from local storage. */
  const LOGOUT_KEYS: set<string> := {CREDS_KEY, ACCESS_TOKEN_KEY, USERNAME_KEY, CN_CV_KEY, EDP_CN_CV_KEY, DEVICE_KEY}

  /** `clearAccessToken`. */
  function WithoutAccessToken(s: Session): Session
  {
    s.(accessToken := None, username := None, storage := s.storage - {ACCESS_TOKEN_KEY, USERNAME_KEY})
  }

  /**
   * `logout` (its second definition, the one in effect): resets the fields,
   * clears the stored credentials and the access token, then removes the
   * `cn`/`cv` records and the device identifier from local storage.
   */
  function LoggedOut(s: Session): Session
  {
    var s1 := s.(token := None, token2fa := None, gtkToken := None, account := None, modules := [],
                 pendingQcm := None, qcmCredentials := None, savedCnCv := None);
    var s2 := WithoutAccessToken(WithoutCredentials(s1));
    s2.(storage := s2.storage - {CN_CV_KEY, EDP_CN_CV_KEY, DEVICE_KEY})
  }

  // ---------------------------------------------------------------------------
  // Stored credentials
  // ---------------------------------------------------------------------------

  /** `storeCredentials` at time `now`. */
  function WithCredentials(s: Session, username: string, password: string, now: int): Session
  {
    s.(storage := s.storage[CREDS_KEY := CredsRecord(Obfuscate(username), Obfuscate(password), now)])
  }

  /** `clearStoredCredentials`. */
  function WithoutCredentials(s: Session): Session
  {
    s.(storage := s.storage - {CREDS_KEY})
  }

  /**
   * `getStoredCredentials` at time `now`: nothing when no record is stored;
   * a record older than 24 hours is removed; the names must deobfuscate to
   * non-empty strings.
   */
  function StoredCredentials(s: Session, now: int): (Session, Option<(string, string)>)
  {
    if CREDS_KEY !in s.storage || !s.storage[CREDS_KEY].CredsRecord? then (s, None)
    else
      var record := s.storage[CREDS_KEY];
      if now - record.t > DAY_MS then (WithoutCredentials(s), None)
      else
        var username := Deobfuscate(record.u);
        var password := Deobfuscate(record.p);
        if username.None? || password.None? || username.value == "" || password.value == "" then (s, None)
        else (s, Some((username.value, password.value)))
  }

  // ---------------------------------------------------------------------------
  // Properties of the session
  // ---------------------------------------------------------------------------

  /** Credentials stored at `t` are given back unchanged for 24 hours, and the state is left as it is. */
  lemma CredentialsRoundTrip(s: Session, username: string, password: string, t: int, now: int)
    requires username != "" && password != ""
    requires now - t <= DAY_MS
    ensures StoredCredentials(WithCredentials(s, username, password, t), now)
         == (WithCredentials(s, username, password, t), Some((username, password)))
  {
    ObfuscationRoundTrip(username);
    ObfuscationRoundTrip(password);
  }

  /** After 24 hours the credentials are gone, and stay gone. */
  lemma CredentialsExpire(s: Session, username: string, password: string, t: int, now: int)
    requires now - t > DAY_MS
    ensures StoredCredentials(WithCredentials(s, username, password, t), now).1.None?
    ensures CREDS_KEY !in StoredCredentials(WithCredentials(s, username, password, t), now).0.storage
    ensures StoredCredentials(StoredCredentials(WithCredentials(s, username, password, t), now).0, now).1.None?
  {
  }

  /**
   * Logout ends the session: the client is no longer authenticated, nothing
   * is pending, no credentials can be read back, and the other keys of local
   * storage are kept, as is the device identifier in memory.
   */
  lemma LogoutEndsSession(s: Session, now: int)
    ensures !IsAuthenticated(LoggedOut(s))
    ensures LoggedOut(s).pendingQcm.None? && LoggedOut(s).qcmCredentials.None? && LoggedOut(s).savedCnCv.None?
    ensures StoredCredentials(LoggedOut(s), now).1.None?
    ensures forall k :: k in LOGOUT_KEYS ==> k !in LoggedOut(s).storage
    ensures forall k :: k in s.storage && k !in LOGOUT_KEYS ==> k in LoggedOut(s).storage && LoggedOut(s).storage[k] == s.storage[k]
    ensures LoggedOut(s).deviceUuid == s.deviceUuid
  {
  }

  /**
   * The login succeeds exactly on code 200 with at least one account; it
   * then holds the parsed first account and its modules and clears the
   * questionnaire state, and the client is authenticated exactly when the
   * reply carried a token.  A failed login never changes the account.
   */
  lemma LoginSucceeds(s: Session, username: string, password: string, rememberMe: bool, gtk: Option<string>,
                      reply: LoginReply, qcmReply: QcmReply)
    ensures var o := LoginOutcome(s, username, password, rememberMe, gtk, reply, qcmReply);
      o.result.Success? <==> reply.LoginResponse? && reply.code == 200 && |reply.accounts| > 0
    ensures var o := LoginOutcome(s, username, password, rememberMe, gtk, reply, qcmReply);
      o.result.Success? ==>
        && o.session.account == Some(ParseAccount(reply.accounts[0]))
        && o.session.modules == ParseAccount(reply.accounts[0]).modules
        && o.session.pendingQcm.None? && o.session.qcmCredentials.None?
        && (IsAuthenticated(o.session) <==> reply.bodyToken != "" || Truthy(reply.headerToken))
    ensures var o := LoginOutcome(s, username, password, rememberMe, gtk, reply, qcmReply);
      o.result.Failure? ==> o.session.account == s.account && o.session.qcmCredentials == Some(Credentials(username, password, rememberMe))
  {
    var s0 := s.(qcmCredentials := Some(Credentials(username, password, rememberMe)), gtkToken := Refresh(s.gtkToken, gtk));
    if reply.LoginResponse? {
      var newToken := if reply.bodyToken != "" then Some(reply.bodyToken) else reply.headerToken;
      if reply.code == 200 {
        AcceptedOutcome(s0, username, rememberMe, newToken, reply.header2fa, reply.accounts);
      } else if reply.code == 250 {
        QcmAskedFails(s0, newToken, reply.header2fa, qcmReply);
      }
    }
  }

  /** The code-200 branch succeeds exactly when there is an account, and then logs in with the first one. */
  lemma AcceptedOutcome(s: Session, username: string, rememberMe: bool, newToken: Option<string>,
                        header2fa: Option<string>, accounts: seq<RawAccount>)
    ensures var o := LoginAccepted(s, username, rememberMe, newToken, header2fa, accounts);
      o.result.Success? <==> |accounts| > 0
    ensures var o := LoginAccepted(s, username, rememberMe, newToken, header2fa, accounts);
      o.result.Success? ==>
        && o.session.account == Some(ParseAccount(accounts[0]))
        && o.session.modules == ParseAccount(accounts[0]).modules
        && o.session.pendingQcm.None? && o.session.qcmCredentials.None?
        && o.session.token == newToken
    ensures var o := LoginAccepted(s, username, rememberMe, newToken, header2fa, accounts);
      o.result.Failure? ==> o.session.account == s.account && o.session.qcmCredentials == s.qcmCredentials
  {
  }

  /** The code-250 branch always fails, and keeps the account and the credentials. */
  lemma QcmAskedFails(s: Session, newToken: Option<string>, header2fa: Option<string>, qcmReply: QcmReply)
    ensures var o := QcmAsked(s, newToken, header2fa, qcmReply);
      o.result.Failure? && o.session.account == s.account && o.session.qcmCredentials == s.qcmCredentials
  {
  }

  /** With `remember me`, a login whose account has an access token keeps it for silent relogin. */
  lemma LoginRemembers(s: Session, username: string, password: string, gtk: Option<string>, reply: LoginReply, qcmReply: QcmReply)
    requires reply.LoginResponse? && reply.code == 200 && |reply.accounts| > 0 && reply.accounts[0].accessToken != ""
    ensures var o := LoginOutcome(s, username, password, true, gtk, reply, qcmReply);
      && o.session.accessToken == Some(reply.accounts[0].accessToken) && o.session.username == Some(username)
      && o.session.storage[ACCESS_TOKEN_KEY] == Plain(reply.accounts[0].accessToken)
      && o.session.storage[USERNAME_KEY] == Plain(username)
  {
  }

  /**
   * Code 250 asks for the questionnaire: the login fails with code 250 and
   * the decoded question once the questionnaire could be fetched, and the
   * questionnaire is then pending with the credentials kept to answer it.
   */
  lemma LoginAsksQcm(s: Session, username: string, password: string, rememberMe: bool, gtk: Option<string>,
                     reply: LoginReply, qcmReply: QcmReply)
    requires reply.LoginResponse? && reply.code == 250
    requires qcmReply.QcmResponse? && qcmReply.code == 200
    ensures var o := LoginOutcome(s, username, password, rememberMe, gtk, reply, qcmReply);
      && o.result == Failure(QcmRequiredError(if reply.bodyToken != "" then Some(reply.bodyToken) else reply.headerToken,
                                              DecodeBase64(qcmReply.question), Map(qcmReply.propositions, DecodeBase64)))
      && o.session.pendingQcm == Some(Qcm(DecodeBase64(qcmReply.question), Map(qcmReply.propositions, DecodeBase64), qcmReply.propositions))
      && o.session.qcmCredentials == Some(Credentials(username, password, rememberMe))
      && o.session.account == s.account
  {
  }

  /** Any other code is an authentication error with that code and a message that is never empty. */
  lemma LoginRejected(s: Session, username: string, password: string, rememberMe: bool, gtk: Option<string>,
                      reply: LoginReply, qcmReply: QcmReply)
    requires reply.LoginResponse? && reply.code != 200 && reply.code != 250
    ensures var o := LoginOutcome(s, username, password, rememberMe, gtk, reply, qcmReply);
      && o.result.Failure? && o.result.error.AuthenticationError? && o.result.error.code == reply.code
      && o.result.error.message == LoginRefused(reply.code, reply.message) && MessageText(o.result.error.message) != ""
      && o.session.account == s.account && o.session.token == s.token
  {
  }

  /** Answering with nothing pending throws code 0 and changes nothing. */
  lemma AnswerWithoutQcm(s: Session, reply: AnswerReply, gtk: Option<string>, loginReply: LoginReply, qcmReply: QcmReply)
    requires s.pendingQcm.None? || s.qcmCredentials.None?
    ensures AnswerQcmOutcome(s, reply, gtk, loginReply, qcmReply) == Outcome(s, Failure(EcoleDirecteError(NoPendingQcm, 0)))
  {
  }

  /**
   * The questionnaire flow: after a login answered by code 250, the answer
   * is accepted for sending; a correct answer keeps the `cn`/`cv` pair in
   * the client and in local storage, and a second login answered by 200
   * then succeeds with the credentials of the first.
   */
  lemma QcmFlow(s: Session, username: string, password: string, rememberMe: bool, gtk: Option<string>,
                first: LoginReply, qcmReply: QcmReply, answer: AnswerReply, second: LoginReply)
    requires first.LoginResponse? && first.code == 250 && qcmReply.QcmResponse? && qcmReply.code == 200
    requires answer.AnswerResponse? && answer.code == 200
    requires second.LoginResponse? && second.code == 200 && |second.accounts| > 0
    ensures var s1 := LoginOutcome(s, username, password, rememberMe, gtk, first, qcmReply).session;
      var o := AnswerQcmOutcome(s1, answer, gtk, second, qcmReply);
      && o.result.Success?
      && o.session.account == Some(ParseAccount(second.accounts[0]))
      && o.session.savedCnCv == Some(CnCv(answer.cn, answer.cv))
      && o.session.storage[CN_CV_KEY] == CnCvRecord(answer.cn, answer.cv)
      && o.session.pendingQcm.None?
  {
    var s1 := LoginOutcome(s, username, password, rememberMe, gtk, first, qcmReply).session;
    LoginAsksQcm(s, username, password, rememberMe, gtk, first, qcmReply);
    assert s1.qcmCredentials == Some(Credentials(username, password, rememberMe));
    var s2 := s1.(token := Refresh(s1.token, answer.headerToken), token2fa := Refresh(s1.token2fa, answer.header2fa));
    var s3 := s2.(savedCnCv := Some(CnCv(answer.cn, answer.cv)), storage := s2.storage[CN_CV_KEY := CnCvRecord(answer.cn, answer.cv)]);
    assert AnswerQcmOutcome(s1, answer, gtk, second, qcmReply) == LoginOutcome(s3, username, password, rememberMe, gtk, second, qcmReply);
    LoginSucceeds(s3, username, password, rememberMe, gtk, second, qcmReply);
    LoginKeepsCnCv(s3, username, password, rememberMe, gtk, second, qcmReply);
  }

  /** A login never touches the kept `cn`/`cv` pair. */
  lemma LoginKeepsCnCv(s: Session, username: string, password: string, rememberMe: bool, gtk: Option<string>,
                       reply: LoginReply, qcmReply: QcmReply)
    requires CN_CV_KEY in s.storage
    ensures var o := LoginOutcome(s, username, password, rememberMe, gtk, reply, qcmReply);
      o.session.savedCnCv == s.savedCnCv && CN_CV_KEY in o.session.storage && o.session.storage[CN_CV_KEY] == s.storage[CN_CV_KEY]
  {
    var s0 := s.(qcmCredentials := Some(Credentials(username, password, rememberMe)), gtkToken := Refresh(s.gtkToken, gtk));
    RepliedKeepsCnCv(s0, username, rememberMe, reply, qcmReply);
  }

  lemma RepliedKeepsCnCv(s: Session, username: string, rememberMe: bool, reply: LoginReply, qcmReply: QcmReply)
    requires CN_CV_KEY in s.storage
    ensures var o := LoginReplied(s, username, rememberMe, reply, qcmReply);
      o.session.savedCnCv == s.savedCnCv && CN_CV_KEY in o.session.storage && o.session.storage[CN_CV_KEY] == s.storage[CN_CV_KEY]
  {
    if reply.LoginResponse? {
      var newToken := if reply.bodyToken != "" then Some(reply.bodyToken) else reply.headerToken;
      if reply.code == 200 {
        AcceptedKeepsCnCv(s, username, rememberMe, newToken, reply.header2fa, reply.accounts);
      } else if reply.code == 250 {
        QcmAskedKeeps(s, newToken, reply.header2fa, qcmReply);
      }
    }
  }

  /** Asking for the questionnaire leaves local storage and the kept `cn`/`cv` pair alone. */
  lemma QcmAskedKeeps(s: Session, newToken: Option<string>, header2fa: Option<string>, qcmReply: QcmReply)
    ensures QcmAsked(s, newToken, header2fa, qcmReply).session.storage == s.storage
    ensures QcmAsked(s, newToken, header2fa, qcmReply).session.savedCnCv == s.savedCnCv
  {
  }

  /** The code-200 branch only adds the access token and the username to local storage. */
  lemma AcceptedKeepsCnCv(s: Session, username: string, rememberMe: bool, newToken: Option<string>,
                          header2fa: Option<string>, accounts: seq<RawAccount>)
    requires CN_CV_KEY in s.storage
    ensures var o := LoginAccepted(s, username, rememberMe, newToken, header2fa, accounts);
      o.session.savedCnCv == s.savedCnCv && CN_CV_KEY in o.session.storage && o.session.storage[CN_CV_KEY] == s.storage[CN_CV_KEY]
  {
    assert CN_CV_KEY != ACCESS_TOKEN_KEY && CN_CV_KEY != USERNAME_KEY;
  }

  // ---------------------------------------------------------------------------
  // The teacher's groups (getTeacherGroupsFromAccount)
  // ---------------------------------------------------------------------------

  datatype GroupClass = GroupClass(id: int, code: string, name: string)

  datatype Group = Group(id: int, classes: seq<GroupClass>)

  const TEACHERS_ONLY := EcoleDirecteError(TeachersOnly, 403)

  /** `this.account && this.account.type === 'P'`. */
  predicate IsTeacherAccount(a: Option<Account>)
  {
    a.Some? && TypeOf(a.value) == "P"
  }

  /** `this.account.classes || []`. */
  function ClassesOf(a: Account): seq<TeacherClass>
  {
    if a.Teacher? then a.classes else []
  }

  function ToGroupClass(c: TeacherClass): GroupClass
  {
    GroupClass(c.id, c.code, c.libelle)
  }

  /** The group identifiers of the classes, without 0 and without repetition, in order of first appearance. */
  function GroupIds(classes: seq<TeacherClass>): (ids: seq<int>)
    ensures NoDuplicates(ids)
    ensures forall k :: 0 <= k < |ids| ==> ids[k] != 0
  {
    if |classes| == 0 then []
    else
      var ids := GroupIds(classes[..|classes| - 1]);
      var g := classes[|classes| - 1].idGroupe;
      if g != 0 && g !in ids then ids + [g] else ids
  }

  /** The classes of group `g`, in the order of the account. */
  function ClassesInGroup(classes: seq<TeacherClass>, g: int): seq<GroupClass>
  {
    if |classes| == 0 then []
    else
      var c := classes[|classes| - 1];
      ClassesInGroup(classes[..|classes| - 1], g) + if c.idGroupe == g then [ToGroupClass(c)] else []
  }

  /** One group per identifier, holding its classes. */
  function TeacherGroups(classes: seq<TeacherClass>): seq<Group>
  {
    var ids := GroupIds(classes);
    seq(|ids|, k requires 0 <= k < |ids| => Group(ids[k], ClassesInGroup(classes, ids[k])))
  }

  lemma {:induction false} GroupIdsMembers(classes: seq<TeacherClass>)
    ensures forall g :: g in GroupIds(classes) <==> g != 0 && exists i :: 0 <= i < |classes| && classes[i].idGroupe == g
  {
    if |classes| > 0 {
      var prefix := classes[..|classes| - 1];
      GroupIdsMembers(prefix);
      assert forall i :: 0 <= i < |prefix| ==> prefix[i] == classes[i];
    }
  }

  lemma {:induction false} ClassesInGroupMembers(classes: seq<TeacherClass>, g: int)
    ensures forall x :: x in ClassesInGroup(classes, g) <==> exists i :: 0 <= i < |classes| && classes[i].idGroupe == g && ToGroupClass(classes[i]) == x
  {
    if |classes| > 0 {
      var prefix := classes[..|classes| - 1];
      ClassesInGroupMembers(prefix, g);
      assert forall i :: 0 <= i < |prefix| ==> prefix[i] == classes[i];
    }
  }

  /**
   * There is one group per identifier of `GroupIds`, which are distinct and
   * are exactly the non-zero `idGroupe` of the classes; a group holds the
   * classes with its identifier, and only those.
   */
  lemma TeacherGroupsMeaning(classes: seq<TeacherClass>)
    ensures |TeacherGroups(classes)| == |GroupIds(classes)|
    ensures forall k :: 0 <= k < |TeacherGroups(classes)| ==> TeacherGroups(classes)[k].id == GroupIds(classes)[k]
    ensures forall g :: g in GroupIds(classes) <==> g != 0 && exists i :: 0 <= i < |classes| && classes[i].idGroupe == g
    ensures forall k, i :: 0 <= k < |TeacherGroups(classes)| && 0 <= i < |classes| && classes[i].idGroupe == TeacherGroups(classes)[k].id
                           ==> ToGroupClass(classes[i]) in TeacherGroups(classes)[k].classes
    ensures forall k, x :: 0 <= k < |TeacherGroups(classes)| && x in TeacherGroups(classes)[k].classes
                           ==> exists i :: 0 <= i < |classes| && classes[i].idGroupe == TeacherGroups(classes)[k].id && ToGroupClass(classes[i]) == x
  {
    var groups := TeacherGroups(classes);
    var ids := GroupIds(classes);
    GroupIdsMembers(classes);
    forall k | 0 <= k < |groups| {
      ClassesInGroupMembers(classes, ids[k]);
    }
  }

  /** The groups built from the classes seen so far. */
  ghost predicate GroupsSoFar(prefix: seq<TeacherClass>, order: seq<int>, groups: map<int, seq<GroupClass>>)
  {
    && order == GroupIds(prefix)
    && (forall g :: g in groups <==> g in order)
    && (forall g :: g in groups ==> groups[g] == ClassesInGroup(prefix, g))
  }

  /** One turn of the loop of `getTeacherGroupsFromAccount`. */
  method AddClass(order: seq<int>, groups: map<int, seq<GroupClass>>, ghost prefix: seq<TeacherClass>, c: TeacherClass)
    returns (order': seq<int>, groups': map<int, seq<GroupClass>>)
    requires GroupsSoFar(prefix, order, groups)
    ensures GroupsSoFar(prefix + [c], order', groups')
  {
    assert (prefix + [c])[..|prefix|] == prefix;
    order', groups' := order, groups;
    if c.idGroupe != 0 && c.idGroupe !in groups {
      groups' := groups'[c.idGroupe := []];
      order' := order' + [c.idGroupe];
    }
    if c.idGroupe != 0 {
      groups' := groups'[c.idGroupe := groups'[c.idGroupe] + [ToGroupClass(c)]];
    }
    forall g | g in groups'
      ensures groups'[g] == ClassesInGroup(prefix + [c], g)
    {
      if g == c.idGroupe && g !in groups {
        NoClassesInGroup(prefix, g);
      }
    }
  }

  /** A non-zero identifier that is not among the group identifiers has no classes. */
  lemma NoClassesInGroup(classes: seq<TeacherClass>, g: int)
    requires g != 0 && g !in GroupIds(classes)
    ensures ClassesInGroup(classes, g) == []
  {
    GroupIdsMembers(classes);
    ClassesInGroupMembers(classes, g);
    if ClassesInGroup(classes, g) != [] {
      assert ClassesInGroup(classes, g)[0] in ClassesInGroup(classes, g);
    }
  }

  // ---------------------------------------------------------------------------
  // The teacher's students (getAllTeacherStudents)
  // ---------------------------------------------------------------------------

  /** What `getGroupStudents` gives for a group, or `GroupFailed` when it throws. */
  datatype GroupReply = GroupReply(students: seq<GroupStudent>, group: Option<GroupInfo>) | GroupFailed

  /** A student listed in a group. */
  datatype Placement = Placement(student: GroupStudent, group: Option<GroupInfo>)

  function PlacementsOf(reply: GroupReply): (ps: seq<Placement>)
    ensures reply.GroupReply? ==> |ps| == |reply.students|
  {
    match reply
    case GroupFailed => []
    case GroupReply(students, group) => seq(|students|, k requires 0 <= k < |students| => Placement(students[k], group))
  }

  /** The students listed by the replies, in the order the loops visit them. */
  function Placements(replies: seq<GroupReply>): seq<Placement>
  {
    if |replies| == 0 then [] else Placements(replies[..|replies| - 1]) + PlacementsOf(replies[|replies| - 1])
  }

  /** The student identifiers, without repetition, in order of first appearance. */
  function StudentIds(ps: seq<Placement>): (ids: seq<int>)
    ensures NoDuplicates(ids)
  {
    if |ps| == 0 then []
    else
      var ids := StudentIds(ps[..|ps| - 1]);
      var id := ps[|ps| - 1].student.id;
      if id !in ids then ids + [id] else ids
  }

  /** The record of the first placement of student `id`. */
  function FirstRecord(ps: seq<Placement>, id: int): GroupStudent
  {
    if |ps| == 0 then GroupStudent(id, "", "", 0, "", None)
    else if id in StudentIds(ps[..|ps| - 1]) then FirstRecord(ps[..|ps| - 1], id)
    else ps[|ps| - 1].student
  }

  /** The groups student `id` was listed in, one entry per listing. */
  function GroupsOf(ps: seq<Placement>, id: int): seq<Option<GroupInfo>>
  {
    if |ps| == 0 then []
    else GroupsOf(ps[..|ps| - 1], id) + if ps[|ps| - 1].student.id == id then [ps[|ps| - 1].group] else []
  }

  /** The merged students: one per identifier, with its first record and all its groups. */
  function Merged(ps: seq<Placement>): seq<TeacherStudent>
  {
    var ids := StudentIds(ps);
    seq(|ids|, k requires 0 <= k < |ids| => TeacherStudent(FirstRecord(ps, ids[k]), GroupsOf(ps, ids[k])))
  }

  /** The number of placements of student `id`. */
  function Listings(ps: seq<Placement>, id: int): nat
  {
    if |ps| == 0 then 0 else Listings(ps[..|ps| - 1], id) + if ps[|ps| - 1].student.id == id then 1 else 0
  }

  lemma {:induction false} StudentIdsMembers(ps: seq<Placement>)
    ensures forall id :: id in StudentIds(ps) <==> exists i :: 0 <= i < |ps| && ps[i].student.id == id
  {
    if |ps| > 0 {
      var prefix := ps[..|ps| - 1];
      StudentIdsMembers(prefix);
      assert forall i :: 0 <= i < |prefix| ==> prefix[i] == ps[i];
    }
  }

  /** The first record of a student is that of its first placement, and it has one group per placement. */
  lemma {:induction false} MergedEntry(ps: seq<Placement>, id: int, i: nat)
    requires i < |ps| && ps[i].student.id == id
    requires forall j :: 0 <= j < i ==> ps[j].student.id != id
    ensures FirstRecord(ps, id) == ps[i].student
    ensures |GroupsOf(ps, id)| == Listings(ps, id) > 0
    ensures GroupsOf(ps, id)[0] == ps[i].group
  {
    var prefix := ps[..|ps| - 1];
    StudentIdsMembers(prefix);
    assert forall j :: 0 <= j < |prefix| ==> prefix[j] == ps[j];
    if i < |ps| - 1 {
      MergedEntry(prefix, id, i);
      assert id in StudentIds(prefix) by { assert prefix[i].student.id == id; }
    } else {
      NoEarlierListing(prefix, id);
    }
  }

  lemma {:induction false} NoEarlierListing(ps: seq<Placement>, id: int)
    requires forall j :: 0 <= j < |ps| ==> ps[j].student.id != id
    ensures GroupsOf(ps, id) == [] && Listings(ps, id) == 0
  {
    if |ps| > 0 {
      var prefix := ps[..|ps| - 1];
      assert forall j :: 0 <= j < |prefix| ==> prefix[j] == ps[j];
      NoEarlierListing(prefix, id);
    }
  }

  /**
   * The merge keeps each student once: there is one merged student per
   * identifier of `StudentIds`, which are distinct and are exactly those
   * listed; each carries the record of its first listing and one group per
   * listing, the first being that listing's group.
   */
  lemma MergedMeaning(ps: seq<Placement>)
    ensures |Merged(ps)| == |StudentIds(ps)|
    ensures forall id :: id in StudentIds(ps) <==> exists i :: 0 <= i < |ps| && ps[i].student.id == id
    ensures forall k :: 0 <= k < |Merged(ps)| ==> Merged(ps)[k].student.id == StudentIds(ps)[k]
    ensures forall k :: 0 <= k < |Merged(ps)| ==> |Merged(ps)[k].groups| == Listings(ps, StudentIds(ps)[k]) > 0
    ensures forall k, i :: 0 <= k < |Merged(ps)| && FirstListingAt(ps, StudentIds(ps)[k], i) ==>
      Merged(ps)[k].student == ps[i].student && Merged(ps)[k].groups[0] == ps[i].group
  {
    var m := Merged(ps);
    var ids := StudentIds(ps);
    StudentIdsMembers(ps);
    forall k | 0 <= k < |ids|
      ensures m[k].student.id == ids[k] && |m[k].groups| == Listings(ps, ids[k]) > 0
    {
      assert ids[k] in ids;
      var i := FirstListing(ps, ids[k]);
      MergedEntry(ps, ids[k], i);
    }
    forall k, i | 0 <= k < |m| && FirstListingAt(ps, ids[k], i)
      ensures m[k].student == ps[i].student && m[k].groups[0] == ps[i].group
    {
      MergedEntry(ps, ids[k], i);
    }
  }

  /** `ps[i]` is the first listing of student `id`. */
  predicate FirstListingAt(ps: seq<Placement>, id: int, i: int)
  {
    0 <= i < |ps| && ps[i].student.id == id && forall j :: 0 <= j < i ==> ps[j].student.id != id
  }

  /** The index of the first listing of a listed student. */
  lemma FirstListing(ps: seq<Placement>, id: int) returns (i: nat)
    requires exists j :: 0 <= j < |ps| && ps[j].student.id == id
    ensures i < |ps| && ps[i].student.id == id
    ensures forall j :: 0 <= j < i ==> ps[j].student.id != id
  {
    i := 0;
    while ps[i].student.id != id
      invariant i < |ps|
      invariant forall j :: 0 <= j < i ==> ps[j].student.id != id
      invariant exists j :: i <= j < |ps| && ps[j].student.id == id
      decreases |ps| - i
    {
      i := i + 1;
    }
  }

  /** The merged students built from the placements seen so far. */
  ghost predicate StudentsSoFar(ps: seq<Placement>, order: seq<int>, byId: map<int, TeacherStudent>)
  {
    && order == StudentIds(ps)
    && (forall id :: id in byId <==> id in order)
    && (forall id :: id in byId ==> byId[id] == TeacherStudent(FirstRecord(ps, id), GroupsOf(ps, id)))
  }

  /** One turn of the inner loop of `getAllTeacherStudents`. */
  method AddPlacement(order: seq<int>, byId: map<int, TeacherStudent>, ghost ps: seq<Placement>, p: Placement)
    returns (order': seq<int>, byId': map<int, TeacherStudent>)
    requires StudentsSoFar(ps, order, byId)
    ensures StudentsSoFar(ps + [p], order', byId')
  {
    var id := p.student.id;
    if id !in byId {
      byId' := byId[id := TeacherStudent(p.student, [p.group])];
      order' := order + [id];
    } else {
      byId' := byId[id := byId[id].(groups := byId[id].groups + [p.group])];
      order' := order;
    }
    var ps' := ps + [p];
    assert ps'[..|ps|] == ps;
    forall other | other in byId' && other != id
      ensures byId'[other] == TeacherStudent(FirstRecord(ps', other), GroupsOf(ps', other))
    {
    }
    if id !in byId {
      NoEarlierListing(ps, id) by { StudentIdsMembers(ps); }
    }
  }

  /** A cached list younger than 24 hours that is not empty. */
  function CachedStudents(storage: map<string, Stored>, now: int): Option<seq<TeacherStudent>>
  {
    if STUDENTS_CACHE_KEY in storage && storage[STUDENTS_CACHE_KEY].StudentsCache?
       && now - storage[STUDENTS_CACHE_KEY].timestamp < DAY_MS && |storage[STUDENTS_CACHE_KEY].data| > 0
    then Some(storage[STUDENTS_CACHE_KEY].data)
    else None
  }

  /**
   * `getAllTeacherStudents`: teachers only; a recent cache is used unless a
   * refresh is forced; otherwise the students of every group of the account
   * are merged (`fetch` gives what each group's request returns), and a
   * non-empty result is cached with the time.
   */
  function TeacherStudentsOutcome(s: Session, forceRefresh: bool, now: int, fetch: int -> GroupReply): Outcome<seq<TeacherStudent>>
  {
    if !IsTeacherAccount(s.account) then Outcome(s, Failure(TEACHERS_ONLY))
    else if !forceRefresh && CachedStudents(s.storage, now).Some? then Outcome(s, Success(CachedStudents(s.storage, now).value))
    else
      var result := Merged(Placements(Map(GroupIds(ClassesOf(s.account.value)), fetch)));
      var storage := if |result| > 0 then s.storage[STUDENTS_CACHE_KEY := StudentsCache(now, result)] else s.storage;
      Outcome(s.(storage := storage), Success(result))
  }

  /**
   * Within 24 hours of a fetch that found students, a call that does not
   * force a refresh gives the same students whatever the network would
   * answer, and changes nothing.
   */
  lemma CacheReused(s: Session, forceRefresh: bool, t: int, now: int, fetch: int -> GroupReply, later: int -> GroupReply)
    requires IsTeacherAccount(s.account)
    requires forceRefresh || CachedStudents(s.storage, t).None?
    requires 0 <= now - t < DAY_MS
    requires TeacherStudentsOutcome(s, forceRefresh, t, fetch).result.Success?
    requires |TeacherStudentsOutcome(s, forceRefresh, t, fetch).result.value| > 0
    ensures var o := TeacherStudentsOutcome(s, forceRefresh, t, fetch);
      TeacherStudentsOutcome(o.session, false, now, later) == Outcome(o.session, o.result)
  {
  }

  /** The placements of the first `i` groups, then the first `j` students of the next reply. */
  lemma PlacementsStep(replies: seq<GroupReply>, i: nat)
    requires i < |replies|
    ensures Placements(replies[..i + 1]) == Placements(replies[..i]) + PlacementsOf(replies[i])
  {
    assert replies[..i + 1][..i] == replies[..i];
  }

  // ---------------------------------------------------------------------------
  // The client object
  // ---------------------------------------------------------------------------

  /** `RealEcoleDirecteClient`: the session fields, and the local storage it writes. */
  class EcoleDirecteClient {
    var token: Option<string>
    var token2fa: Option<string>
    var gtkToken: Option<string>
    var account: Option<Account>
    var modules: seq<ModuleInfo>
    var pendingQcm: Option<Qcm>
    var qcmCredentials: Option<Credentials>
    var savedCnCv: Option<CnCv>
    var accessToken: Option<string>
    var username: Option<string>
    const deviceUuid: string
    var storage: map<string, Stored>

    function State(): Session
      reads this
    {
      Session(token, token2fa, gtkToken, account, modules, pendingQcm, qcmCredentials, savedCnCv,
              accessToken, username, deviceUuid, storage)
    }

    /** `isAuthenticated()`. */
    predicate Authenticated()
      reads this
    {
      IsAuthenticated(State())
    }

    /** The constructor, over the local storage it finds and the identifier `generateUUID` would make. */
    constructor(initialStorage: map<string, Stored>, freshId: string)
      ensures State() == InitialSession(initialStorage, freshId)
    {
      token := None;
      token2fa := None;
      gtkToken := None;
      account := None;
      modules := [];
      pendingQcm := None;
      qcmCredentials := None;
      var stored := StoredText(initialStorage, DEVICE_KEY);
      if stored.Some? {
        deviceUuid := stored.value;
        storage := initialStorage;
      } else {
        deviceUuid := freshId;
        storage := initialStorage[DEVICE_KEY := Plain(freshId)];
      }
      savedCnCv := LoadCnCv(initialStorage);
      accessToken := StoredText(initialStorage, ACCESS_TOKEN_KEY);
      username := StoredText(initialStorage, USERNAME_KEY);
    }

    method SaveAccessToken(newAccessToken: string, newUsername: string)
      modifies this
      ensures State() == WithAccessToken(old(State()), newAccessToken, newUsername)
    {
      accessToken := Some(newAccessToken);
      username := Some(newUsername);
      if newAccessToken != "" {
        storage := storage[ACCESS_TOKEN_KEY := Plain(newAccessToken)];
        storage := storage[USERNAME_KEY := Plain(newUsername)];
      }
    }

    method FetchQcm(reply: QcmReply) returns (r: Result<Qcm, EdError>)
      modifies this
      ensures State() == FetchQcmOutcome(old(State()), reply).session
      ensures r == FetchQcmOutcome(old(State()), reply).result
    {
      if reply.QcmUnreadable? {
        return Failure(PlatformError);
      }
      token := Refresh(token, reply.headerToken);
      token2fa := Refresh(token2fa, reply.header2fa);
      if reply.code != 200 {
        var reason := if reply.message != "" then reply.message else "code " + Dates.IntToString(reply.code);
        return Failure(EcoleDirecteError(QcmFetchFailed(reason), reply.code));
      }
      var qcm := Qcm(DecodeBase64(reply.question), Map(reply.propositions, DecodeBase64), reply.propositions);
      pendingQcm := Some(qcm);
      r := Success(qcm);
    }

    method Login(name: string, password: string, rememberMe: bool, gtk: Option<string>, reply: LoginReply, qcmReply: QcmReply)
      returns (r: Result<LoginResult, EdError>)
      modifies this
      ensures State() == LoginOutcome(old(State()), name, password, rememberMe, gtk, reply, qcmReply).session
      ensures r == LoginOutcome(old(State()), name, password, rememberMe, gtk, reply, qcmReply).result
    {
      qcmCredentials := Some(Credentials(name, password, rememberMe));
      gtkToken := Refresh(gtkToken, gtk);
      assert State() == old(State()).(qcmCredentials := Some(Credentials(name, password, rememberMe)), gtkToken := Refresh(old(gtkToken), gtk));
      r := Reply(name, rememberMe, reply, qcmReply);
    }

    /** The handling of the login reply. */
    method Reply(name: string, rememberMe: bool, reply: LoginReply, qcmReply: QcmReply) returns (r: Result<LoginResult, EdError>)
      modifies this
      ensures State() == LoginReplied(old(State()), name, rememberMe, reply, qcmReply).session
      ensures r == LoginReplied(old(State()), name, rememberMe, reply, qcmReply).result
    {
      match reply
      case Aborted =>
        r := Failure(EcoleDirecteError(RequestCancelled, 0));
      case Unreachable =>
        r := Failure(NETWORK_ERROR);
      case EmptyBody =>
        r := Failure(EcoleDirecteError(NoServerReply, 0));
      case LoginResponse(code, bodyToken, headerToken, header2fa, accounts, message) =>
        var newToken := if bodyToken != "" then Some(bodyToken) else headerToken;
        if code == 200 {
          r := Accept(name, rememberMe, newToken, header2fa, accounts);
        } else if code == 250 {
          r := AskQcm(newToken, header2fa, qcmReply);
        } else {
          r := Failure(AuthenticationError(LoginRefused(code, message), code));
        }
    }

    /** The code-200 branch of `login`. */
    method Accept(name: string, rememberMe: bool, newToken: Option<string>, header2fa: Option<string>, accounts: seq<RawAccount>)
      returns (r: Result<LoginResult, EdError>)
      modifies this
      ensures State() == LoginAccepted(old(State()), name, rememberMe, newToken, header2fa, accounts).session
      ensures r == LoginAccepted(old(State()), name, rememberMe, newToken, header2fa, accounts).result
    {
      token := newToken;
      token2fa := Refresh(token2fa, header2fa);
      if |accounts| == 0 {
        return Failure(NETWORK_ERROR);
      }
      var primary := ParseAccount(accounts[0]);
      account := Some(primary);
      modules := primary.modules;
      ghost var s2 := old(State()).(token := newToken, token2fa := Refresh(old(token2fa), header2fa), account := Some(primary), modules := primary.modules);
      assert State() == s2;
      if rememberMe && accounts[0].accessToken != "" {
        SaveAccessToken(accounts[0].accessToken, name);
      }
      ClearQcm();
      r := Success(LoginResult(newToken, primary, Map(accounts, ParseAccount), Map(modules, ModuleCode)));
    }

    /** The end of a successful login: no questionnaire state any more. */
    method ClearQcm()
      modifies this
      ensures State() == old(State()).(pendingQcm := None, qcmCredentials := None)
    {
      pendingQcm := None;
      qcmCredentials := None;
    }

    /** The code-250 branch of `login`. */
    method AskQcm(newToken: Option<string>, header2fa: Option<string>, qcmReply: QcmReply) returns (r: Result<LoginResult, EdError>)
      modifies this
      ensures State() == QcmAsked(old(State()), newToken, header2fa, qcmReply).session
      ensures r == QcmAsked(old(State()), newToken, header2fa, qcmReply).result
    {
      token := newToken;
      token2fa := header2fa;
      var q := FetchQcm(qcmReply);
      match q
      case Failure(e) =>
        r := Failure(if e.PlatformError? then NETWORK_ERROR else e);
      case Success(qcm) =>
        r := Failure(QcmRequiredError(newToken, qcm.question, qcm.propositions));
    }

    method AnswerQcm(reply: AnswerReply, gtk: Option<string>, loginReply: LoginReply, qcmReply: QcmReply)
      returns (r: Result<LoginResult, EdError>)
      modifies this
      ensures State() == AnswerQcmOutcome(old(State()), reply, gtk, loginReply, qcmReply).session
      ensures r == AnswerQcmOutcome(old(State()), reply, gtk, loginReply, qcmReply).result
    {
      if pendingQcm.None? || qcmCredentials.None? {
        return Failure(EcoleDirecteError(NoPendingQcm, 0));
      }
      if reply.AnswerUnreadable? {
        return Failure(PlatformError);
      }
      token := Refresh(token, reply.headerToken);
      token2fa := Refresh(token2fa, reply.header2fa);
      ghost var s1 := old(State()).(token := Refresh(old(token), reply.headerToken), token2fa := Refresh(old(token2fa), reply.header2fa));
      assert State() == s1;
      if reply.code != 200 {
        return Failure(EcoleDirecteError(WrongQcmAnswer, reply.code));
      }
      var c := qcmCredentials.value;
      SaveCnCv(reply.cn, reply.cv);
      assert State() == WithCnCv(s1, reply.cn, reply.cv);
      r := Login(c.username, c.password, c.rememberMe, gtk, loginReply, qcmReply);
    }

    method SaveCnCv(cn: string, cv: string)
      modifies this
      ensures State() == WithCnCv(old(State()), cn, cv)
    {
      savedCnCv := Some(CnCv(cn, cv));
      storage := storage[CN_CV_KEY := CnCvRecord(cn, cv)];
    }

    method Logout()
      modifies this
      ensures State() == LoggedOut(old(State()))
    {
      ForgetTokens();
      ForgetAccount();
      ForgetQcm();
      ClearStoredCredentials();
      ClearAccessToken();
      RemoveStored({CN_CV_KEY, EDP_CN_CV_KEY, DEVICE_KEY});
    }

    /** The first assignments of `logout`: no token any more. */
    method ForgetTokens()
      modifies this
      ensures State() == old(State()).(token := None, token2fa := None, gtkToken := None)
    {
      token, token2fa, gtkToken := None, None, None;
    }

    /** `logout`: no account any more. */
    method ForgetAccount()
      modifies this
      ensures State() == old(State()).(account := None, modules := [])
    {
      account, modules := None, [];
    }

    /** `logout`: no questionnaire state and no cn/cv any more. */
    method ForgetQcm()
      modifies this
      ensures State() == old(State()).(pendingQcm := None, qcmCredentials := None, savedCnCv := None)
    {
      pendingQcm, qcmCredentials, savedCnCv := None, None, None;
    }

    /** `localStorage.removeItem` for each of `keys`. */
    method RemoveStored(keys: set<string>)
      modifies this
      ensures State() == old(State()).(storage := old(storage) - keys)
    {
      storage := storage - keys;
    }

    method ClearAccessToken()
      modifies this
      ensures State() == WithoutAccessToken(old(State()))
    {
      accessToken := None;
      username := None;
      storage := storage - {ACCESS_TOKEN_KEY, USERNAME_KEY};
    }

    method StoreCredentials(name: string, password: string, now: int)
      modifies this
      ensures State() == WithCredentials(old(State()), name, password, now)
    {
      storage := storage[CREDS_KEY := CredsRecord(Obfuscate(name), Obfuscate(password), now)];
    }

    method ClearStoredCredentials()
      modifies this
      ensures State() == WithoutCredentials(old(State()))
    {
      storage := storage - {CREDS_KEY};
    }

    method GetStoredCredentials(now: int) returns (r: Option<(string, string)>)
      modifies this
      ensures State() == StoredCredentials(old(State()), now).0
      ensures r == StoredCredentials(old(State()), now).1
    {
      if CREDS_KEY !in storage || !storage[CREDS_KEY].CredsRecord? {
        return None;
      }
      var record := storage[CREDS_KEY];
      if now - record.t > DAY_MS {
        ClearStoredCredentials();
        return None;
      }
      var storedName := Deobfuscate(record.u);
      var storedPassword := Deobfuscate(record.p);
      if storedName.None? || storedPassword.None? || storedName.value == "" || storedPassword.value == "" {
        return None;
      }
      r := Some((storedName.value, storedPassword.value));
    }

    /** `getTeacherGroupsFromAccount`. */
    method TeacherGroupsFromAccount() returns (r: Result<seq<Group>, EdError>)
      ensures !IsTeacherAccount(account) ==> r == Failure(TEACHERS_ONLY)
      ensures IsTeacherAccount(account) ==> r == Success(TeacherGroups(ClassesOf(account.value)))
    {
      if !IsTeacherAccount(account) {
        return Failure(TEACHERS_ONLY);
      }
      var classes := ClassesOf(account.value);
      var order: seq<int> := [];
      var groups: map<int, seq<GroupClass>> := map[];
      for i := 0 to |classes|
        invariant GroupsSoFar(classes[..i], order, groups)
      {
        assert classes[..i + 1] == classes[..i] + [classes[i]];
        order, groups := AddClass(order, groups, classes[..i], classes[i]);
      }
      assert classes[..|classes|] == classes;
      assert forall k :: 0 <= k < |order| ==> order[k] in order;
      var result := seq(|order|, k requires 0 <= k < |order| => Group(order[k], groups[order[k]]));
      assert result == TeacherGroups(classes);
      r := Success(result);
    }

    /** `getAllTeacherStudents`; `fetch` gives what `getGroupStudents` returns for a group. */
    method AllTeacherStudents(forceRefresh: bool, now: int, fetch: int -> GroupReply) returns (r: Result<seq<TeacherStudent>, EdError>)
      modifies this
      ensures State() == TeacherStudentsOutcome(old(State()), forceRefresh, now, fetch).session
      ensures r == TeacherStudentsOutcome(old(State()), forceRefresh, now, fetch).result
    {
      if !IsTeacherAccount(account) {
        return Failure(TEACHERS_ONLY);
      }
      if !forceRefresh {
        var cached := CachedStudents(storage, now);
        if cached.Some? {
          return Success(cached.value);
        }
      }
      var result := MergeStudents(GroupIds(ClassesOf(account.value)), fetch);
      if |result| > 0 {
        storage := storage[STUDENTS_CACHE_KEY := StudentsCache(now, result)];
      }
      r := Success(result);
    }
  }

  /** The loops of `getAllTeacherStudents`: the students of every group, merged by identifier. */
  method MergeStudents(groupIds: seq<int>, fetch: int -> GroupReply) returns (result: seq<TeacherStudent>)
    ensures result == Merged(Placements(Map(groupIds, fetch)))
  {
    ghost var replies := Map(groupIds, fetch);
    var order: seq<int> := [];
    var byId: map<int, TeacherStudent> := map[];
    for i := 0 to |groupIds|
      invariant StudentsSoFar(Placements(replies[..i]), order, byId)
    {
      PlacementsStep(replies, i);
      order, byId := AddReply(order, byId, Placements(replies[..i]), fetch(groupIds[i]));
    }
    assert replies[..|groupIds|] == replies;
    MergedSoFar(Placements(replies), order, byId);
    result := seq(|order|, k requires 0 <= k < |order| => byId[order[k]]);
  }

  /** Once every placement is seen, the map holds each merged student under its identifier. */
  lemma MergedSoFar(ps: seq<Placement>, order: seq<int>, byId: map<int, TeacherStudent>)
    requires StudentsSoFar(ps, order, byId)
    ensures forall k :: 0 <= k < |order| ==> order[k] in byId
    ensures Merged(ps) == seq(|order|, k requires 0 <= k < |order| && order[k] in byId => byId[order[k]])
  {
    forall k | 0 <= k < |order|
      ensures order[k] in byId
    {
      assert order[k] in order;
      assert forall id :: id in byId <==> id in order;
      assert order[k] in byId <==> order[k] in order;
    }
  }

  /** The inner loop of `getAllTeacherStudents`, over the students of one reply. */
  method AddReply(order: seq<int>, byId: map<int, TeacherStudent>, ghost ps: seq<Placement>, reply: GroupReply)
    returns (order': seq<int>, byId': map<int, TeacherStudent>)
    requires StudentsSoFar(ps, order, byId)
    ensures StudentsSoFar(ps + PlacementsOf(reply), order', byId')
  {
    order', byId' := order, byId;
    if reply.GroupFailed? {
      assert ps + PlacementsOf(reply) == ps;
      return;
    }
    var placements := PlacementsOf(reply);
    assert ps + placements[..0] == ps;
    for j := 0 to |reply.students|
      invariant StudentsSoFar(ps + placements[..j], order', byId')
    {
      assert ps + placements[..j + 1] == (ps + placements[..j]) + [Placement(reply.students[j], reply.group)];
      order', byId' := AddPlacement(order', byId', ps + placements[..j], Placement(reply.students[j], reply.group));
    }
    assert placements[..|reply.students|] == placements;
  }
}
