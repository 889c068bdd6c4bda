/**
 * The authentication context: who is logged in, the QCM security step of
 * the school-platform login, the demo teacher accounts, and the session
 * kept in the browser's `localStorage` or `sessionStorage`.
 */
module AuthContext {
  import opened Wrappers
  import opened Text
  import opened Dates

  const TOKEN_KEY := "cs_token"
  const ACCOUNT_KEY := "cs_account"
  const USER_TYPE_KEY := "cs_user_type"
  const KEEP_LOGGED_IN_KEY := "cs_keep_logged_in"

  const STUDENT := "student"
  const TEACHER := "teacher"
  const ADMIN := "admin"

  const DEMO_PASSWORD := "demo"
  const TEACHER_TOKEN_PREFIX := "teacher-token-"
  const BAD_CREDENTIALS := "Identifiants incorrects"
  const LOGIN_FAILED := "Échec de la connexion"
  const WRONG_ANSWER := "Réponse incorrecte"
  const QCM_NEEDED := "Vérification de sécurité requise"
  const QCM_CODE := 250

  /** A browser storage area: key to stored text. */
  type Storage = map<string, string>

  /** A logged-in account: the school platform's account object, or a demo teacher. */
  datatype Account =
    | StudentAccount(data: string)
    | TeacherAccount(id: string, firstName: string, lastName: string, email: string,
                     subjects: seq<string>, classes: seq<string>, school: string)

  const DEMO_TEACHERS: map<string, Account> := map[
    "demo@prof.fr" := TeacherAccount("T001", "Marie", "Martin", "demo@prof.fr", ["Mathématiques"],
                                     ["TS1", "TES2", "1S3"], "Lycée Demo"),
    "prof@test.fr" := TeacherAccount("T002", "Pierre", "Dubois", "prof@test.fr", ["Français", "Littérature"],
                                     ["TS1", "TL2"], "Lycée Demo")]

  /** The question of a QCM security step and its answers, as the failed login carried them. */
  datatype Qcm = Qcm(question: Option<string>, propositions: Option<seq<string>>)

  /** What a failed call to the school platform threw. */
  datatype LoginError = LoginError(message: Option<string>, code: Option<int>, isQcmError: bool, qcm: Qcm)

  /** What the school platform's `login` or `answerQCM` call gave. */
  datatype LoginOutcome = LoggedIn(token: string, account: Account) | Threw(err: LoginError)

  /** The object a login function resolves to. */
  datatype LoginResult = LoginResult(success: bool, account: Option<Account>, qcmRequired: bool, error: Option<string>)

  /** What restoring the session found. */
  datatype Restore = Authenticated(account: Account, userType: string) | Anonymous | Corrupt

  // ---------------------------------------------------------------------
  // The storage round trip

  /** A stored item counts only when present and non-empty. */
  predicate Truthy(v: Option<string>)
  {
    v.Some? && v.value != ""
  }

  function Get(s: Storage, key: string): (v: Option<string>)
    ensures v.Some? <==> key in s
    ensures v.Some? ==> v.value == s[key]
  {
    if key in s then Some(s[key]) else None
  }

  /** `saveToStorage(token, account, type, keepLoggedIn)` on the pair (localStorage, sessionStorage). */
  function Saved(local: Storage, session: Storage, token: string, accountJson: string, userType: string, keep: bool):
    (r: (Storage, Storage))
    ensures Get(r.0, KEEP_LOGGED_IN_KEY) == Some(if keep then "true" else "false")
    ensures var target := if keep then r.0 else r.1;
      Get(target, TOKEN_KEY) == Some(token) && Get(target, ACCOUNT_KEY) == Some(accountJson) &&
      Get(target, USER_TYPE_KEY) == Some(userType)
    ensures !keep ==> r.0 == local[KEEP_LOGGED_IN_KEY := "false"]
    ensures keep ==> r.1 == session
  {
    var local' := local[KEEP_LOGGED_IN_KEY := if keep then "true" else "false"];
    if keep then (local'[TOKEN_KEY := token][ACCOUNT_KEY := accountJson][USER_TYPE_KEY := userType], session)
    else (local', session[TOKEN_KEY := token][ACCOUNT_KEY := accountJson][USER_TYPE_KEY := userType])
  }

  /** `clearStorage()`: the three session keys leave both areas, and the preference leaves localStorage. */
  function Cleared(local: Storage, session: Storage): (r: (Storage, Storage))
    ensures TOKEN_KEY !in r.0 && ACCOUNT_KEY !in r.0 && USER_TYPE_KEY !in r.0 && KEEP_LOGGED_IN_KEY !in r.0
    ensures TOKEN_KEY !in r.1 && ACCOUNT_KEY !in r.1 && USER_TYPE_KEY !in r.1
    ensures forall k :: k in local && k !in {TOKEN_KEY, ACCOUNT_KEY, USER_TYPE_KEY, KEEP_LOGGED_IN_KEY} ==>
      k in r.0 && r.0[k] == local[k]
    ensures forall k :: k in session && k !in {TOKEN_KEY, ACCOUNT_KEY, USER_TYPE_KEY} ==>
      k in r.1 && r.1[k] == session[k]
  {
    (local - {TOKEN_KEY, ACCOUNT_KEY, USER_TYPE_KEY, KEEP_LOGGED_IN_KEY}, session - {TOKEN_KEY, ACCOUNT_KEY, USER_TYPE_KEY})
  }

  /**
   * `restoreSession()`: the preference in localStorage picks the area; a
   * token and an account there log the user back in, with the student type
   * when none is stored; an account that does not parse clears the storage.
   */
  function Restored(local: Storage, session: Storage, parse: string -> Option<Account>): (r: Restore)
    ensures r.Authenticated? || r.Corrupt? <==>
      var s := if Get(local, KEEP_LOGGED_IN_KEY) == Some("true") then local else session;
      Truthy(Get(s, TOKEN_KEY)) && Truthy(Get(s, ACCOUNT_KEY))
    ensures r.Authenticated? ==> r.userType != ""
  {
    var s := if Get(local, KEEP_LOGGED_IN_KEY) == Some("true") then local else session;
    var token, account, userType := Get(s, TOKEN_KEY), Get(s, ACCOUNT_KEY), Get(s, USER_TYPE_KEY);
    if !(Truthy(token) && Truthy(account)) then Anonymous
    else
      match parse(account.value)
      case None => Corrupt
      case Some(a) => Authenticated(a, if Truthy(userType) then userType.value else STUDENT)
  }

  /** Whatever was in the storage before, a save then a restore gives back the saved account and type. */
  lemma SaveRestoreRoundTrip(local: Storage, session: Storage, token: string, account: Account, userType: string,
                             keep: bool, parse: string -> Option<Account>, stringify: Account -> string)
    requires token != "" && stringify(account) != ""
    requires parse(stringify(account)) == Some(account)
    ensures var (l, s) := Saved(local, session, token, stringify(account), userType, keep);
      Restored(l, s, parse) == Authenticated(account, if userType == "" then STUDENT else userType)
  {
  }

  /** After the storage is cleared, a restore finds nobody. */
  lemma ClearedRestoresNobody(local: Storage, session: Storage, parse: string -> Option<Account>)
    ensures var (l, s) := Cleared(local, session);
      Restored(l, s, parse) == Anonymous
  {
  }

  // ---------------------------------------------------------------------
  // Demo teachers

  /** The check `loginAsTeacher` makes: a demo address in any letter case, and the demo password. */
  function DemoTeacher(email: string, password: string): (r: Option<Account>)
    ensures r.Some? <==> Lower(email) in DEMO_TEACHERS && password == DEMO_PASSWORD
    ensures r.Some? ==> r.value == DEMO_TEACHERS[Lower(email)] && r.value.TeacherAccount?
  {
    if Lower(email) in DEMO_TEACHERS && password == DEMO_PASSWORD then Some(DEMO_TEACHERS[Lower(email)]) else None
  }

  /** The two demo addresses log in whatever their case, and only with the demo password. */
  lemma DemoLogins()
    ensures DemoTeacher("demo@prof.fr", "demo").Some?
    ensures DemoTeacher("prof@test.fr", "demo").Some?
    ensures DemoTeacher("demo@prof.fr", "Demo").None?
  {
    assert Lower("demo@prof.fr") == "demo@prof.fr";
    assert Lower("prof@test.fr") == "prof@test.fr";
  }

  /** The address is lower-cased before the lookup, so upper-case letters never stop a demo login. */
  lemma DemoLoginIgnoresCase(email: string)
    ensures DemoTeacher(Upper(email), DEMO_PASSWORD) == DemoTeacher(email, DEMO_PASSWORD)
  {
    LowerOfUpper(email);
  }

  /** `err instanceof QCMRequiredError || err.code === 250`. */
  predicate AsksQcm(err: LoginError)
  {
    err.isQcmError || err.code == Some(QCM_CODE)
  }

  // ---------------------------------------------------------------------
  // The context's state

  class Auth {
    var local: Storage
    var session: Storage
    var isLoading: bool
    var isAuthenticated: bool
    var user: Option<Account>
    var userType: Option<string>
    var error: Option<string>
    var qcmRequired: bool
    var qcmData: Option<Qcm>
    var showReloginModal: bool

    /** The provider mounts loading and logged out, over whatever the browser kept. */
    constructor(local: Storage, session: Storage)
      ensures this.local == local && this.session == session
      ensures isLoading && !isAuthenticated && user.None? && userType.None? && error.None?
      ensures !qcmRequired && qcmData.None? && !showReloginModal
    {
      this.local := local;
      this.session := session;
      isLoading := true;
      isAuthenticated := false;
      user := None;
      userType := None;
      error := None;
      qcmRequired := false;
      qcmData := None;
      showReloginModal := false;
    }

    /** `saveToStorage(token, account, type, keepLoggedIn)`. */
    method SaveToStorage(token: string, accountJson: string, userType: string, keep: bool)
      modifies this
      ensures (local, session) == Saved(old(local), old(session), token, accountJson, userType, keep)
      ensures unchanged(this`isLoading, this`isAuthenticated, this`user, this`userType, this`error)
      ensures unchanged(this`qcmRequired, this`qcmData, this`showReloginModal)
    {
      local, session := Saved(local, session, token, accountJson, userType, keep).0,
        Saved(local, session, token, accountJson, userType, keep).1;
    }

    /** `clearStorage()`. */
    method ClearStorage()
      modifies this
      ensures (local, session) == Cleared(old(local), old(session))
      ensures unchanged(this`isLoading, this`isAuthenticated, this`user, this`userType, this`error)
      ensures unchanged(this`qcmRequired, this`qcmData, this`showReloginModal)
    {
      local, session := Cleared(local, session).0, Cleared(local, session).1;
    }

    /** The mount effect `restoreSession()`; `parse` is `JSON.parse` on the stored account. */
    method RestoreSession(parse: string -> Option<Account>)
      modifies this
      ensures !isLoading
      ensures var r := Restored(old(local), old(session), parse);
        (r.Authenticated? ==> isAuthenticated && user == Some(r.account) && userType == Some(r.userType))
        && (r.Corrupt? ==> (local, session) == Cleared(old(local), old(session)))
        && (!r.Corrupt? ==> local == old(local) && session == old(session))
        && (!r.Authenticated? ==> isAuthenticated == old(isAuthenticated) && user == old(user) &&
                                  userType == old(userType))
      ensures unchanged(this`error, this`qcmRequired, this`qcmData, this`showReloginModal)
    {
      var r := Restored(local, session, parse);
      if r.Authenticated? {
        user, userType, isAuthenticated := Some(r.account), Some(r.userType), true;
      } else if r.Corrupt? {
        ClearStorage();
      }
      isLoading := false;
    }

    /** The steps every successful login shares: the user, the type and the flag are set, and the session saved. */
    method SignIn(token: string, account: Account, userType: string, keep: bool, stringify: Account -> string)
      returns (result: LoginResult)
      modifies this
      ensures result == LoginResult(true, Some(account), false, None)
      ensures isAuthenticated && user == Some(account) && this.userType == Some(userType)
      ensures (local, session) == Saved(old(local), old(session), token, stringify(account), userType, keep)
      ensures unchanged(this`isLoading, this`error, this`qcmRequired, this`qcmData, this`showReloginModal)
    {
      user, this.userType, isAuthenticated := Some(account), Some(userType), true;
      SaveToStorage(token, stringify(account), userType, keep);
      result := LoginResult(true, Some(account), false, None);
    }

    /** A failed login: the error shows the message, or `fallback` when the error had none. */
    method Fail(message: Option<string>, fallback: string) returns (result: LoginResult)
      modifies this
      ensures result == LoginResult(false, None, false, message)
      ensures error == Some(if Truthy(message) then message.value else fallback)
      ensures unchanged(this`local, this`session, this`isLoading, this`isAuthenticated, this`user, this`userType)
      ensures unchanged(this`qcmRequired, this`qcmData, this`showReloginModal)
    {
      error := Some(if Truthy(message) then message.value else fallback);
      result := LoginResult(false, None, false, message);
    }

    /**
     * `loginAsStudent(username, password, keepLoggedIn)` once the school
     * platform answered with `outcome`; `stringify` is `JSON.stringify`.
     */
    method LoginAsStudent(keep: bool, outcome: LoginOutcome, stringify: Account -> string) returns (result: LoginResult)
      modifies this
      ensures !isLoading
      ensures outcome.LoggedIn? ==>
        result == LoginResult(true, Some(outcome.account), false, None) &&
        isAuthenticated && user == Some(outcome.account) && userType == Some(STUDENT) &&
        (local, session) == Saved(old(local), old(session), outcome.token, stringify(outcome.account), STUDENT, keep)
      ensures outcome.LoggedIn? ==> !qcmRequired && qcmData.None? && error.None?
      ensures outcome.Threw? && AsksQcm(outcome.err) ==>
        result == LoginResult(false, None, true, Some(QCM_NEEDED)) &&
        qcmRequired && qcmData == Some(outcome.err.qcm) && error.None?
      ensures outcome.Threw? && !AsksQcm(outcome.err) ==>
        result == LoginResult(false, None, false, outcome.err.message) && !qcmRequired && qcmData.None? &&
        error == Some(if Truthy(outcome.err.message) then outcome.err.message.value else LOGIN_FAILED)
      ensures outcome.Threw? ==> unchanged(this`isAuthenticated, this`user, this`userType, this`local, this`session)
      ensures unchanged(this`showReloginModal)
    {
      isLoading, error, qcmRequired, qcmData := true, None, false, None;
      if outcome.LoggedIn? {
        result := SignIn(outcome.token, outcome.account, STUDENT, keep, stringify);
      } else if AsksQcm(outcome.err) {
        qcmRequired, qcmData := true, Some(outcome.err.qcm);
        result := LoginResult(false, None, true, Some(QCM_NEEDED));
      } else {
        result := Fail(outcome.err.message, LOGIN_FAILED);
      }
      isLoading := false;
    }

    /** `answerQCM(answerIndex)` once the school platform answered with `outcome`. */
    method AnswerQcm(outcome: LoginOutcome, stringify: Account -> string) returns (result: LoginResult)
      modifies this
      ensures outcome.LoggedIn? ==>
        result == LoginResult(true, Some(outcome.account), false, None) &&
        isAuthenticated && user == Some(outcome.account) && userType == Some(STUDENT) &&
        (local, session) == Saved(old(local), old(session), outcome.token, stringify(outcome.account), STUDENT,
                                  Get(old(local), KEEP_LOGGED_IN_KEY) == Some("true"))
      ensures outcome.LoggedIn? ==> !qcmRequired && qcmData.None? && error.None?
      ensures outcome.Threw? ==>
        result == LoginResult(false, None, false, outcome.err.message) &&
        error == Some(if Truthy(outcome.err.message) then outcome.err.message.value else WRONG_ANSWER)
      ensures outcome.Threw? ==>
        unchanged(this`isAuthenticated, this`user, this`userType, this`qcmRequired, this`qcmData, this`local, this`session)
      ensures unchanged(this`isLoading, this`showReloginModal)
    {
      error := None;
      if outcome.LoggedIn? {
        qcmRequired, qcmData := false, None;
        var keep := Get(local, KEEP_LOGGED_IN_KEY) == Some("true");
        result := SignIn(outcome.token, outcome.account, STUDENT, keep, stringify);
      } else {
        result := Fail(outcome.err.message, WRONG_ANSWER);
      }
    }

    /** `cancelQCM()`. */
    method CancelQcm()
      modifies this
      ensures !qcmRequired && qcmData.None? && error.None?
      ensures unchanged(this`local, this`session, this`isLoading, this`isAuthenticated, this`user, this`userType)
      ensures unchanged(this`showReloginModal)
    {
      qcmRequired, qcmData, error := false, None, None;
    }

    /** `loginAsTeacher(email, password, keepLoggedIn)`; `now` is `Date.now()`. */
    method LoginAsTeacher(email: string, password: string, keep: bool, now: nat, stringify: Account -> string)
      returns (result: LoginResult)
      modifies this
      ensures !isLoading
      ensures result.success <==> DemoTeacher(email, password).Some?
      ensures result.success ==>
        var teacher := DemoTeacher(email, password).value;
        result == LoginResult(true, Some(teacher), false, None) &&
        isAuthenticated && user == Some(teacher) && userType == Some(TEACHER) && error.None? &&
        (local, session) == Saved(old(local), old(session), TEACHER_TOKEN_PREFIX + NatToString(now),
                                  stringify(teacher), TEACHER, keep)
      ensures !result.success ==>
        result == LoginResult(false, None, false, Some(BAD_CREDENTIALS)) && error == Some(BAD_CREDENTIALS)
      ensures !result.success ==> unchanged(this`isAuthenticated, this`user, this`userType, this`local, this`session)
      ensures unchanged(this`qcmRequired, this`qcmData, this`showReloginModal)
    {
      isLoading, error := true, None;
      var teacher := DemoTeacher(email, password);
      if teacher.None? {
        result := Fail(Some(BAD_CREDENTIALS), LOGIN_FAILED);
      } else {
        result := SignIn(TEACHER_TOKEN_PREFIX + NatToString(now), teacher.value, TEACHER, keep, stringify);
      }
      isLoading := false;
    }

    /** `logout()`. */
    method Logout()
      modifies this
      ensures !isAuthenticated && user.None? && userType.None? && error.None? && !showReloginModal
      ensures (local, session) == Cleared(old(local), old(session))
      ensures unchanged(this`isLoading, this`qcmRequired, this`qcmData)
    {
      user, userType, isAuthenticated, error, showReloginModal := None, None, false, None, false;
      ClearStorage();
    }
  }
}
