/**
 * The first École Directe client and its development double: how a response
 * code becomes a value or an error, the Base64 guess applied to contents,
 * the homework weight estimate, the mapping of timetable, homework and test
 * responses, the session fields login and logout set, and the mock client's
 * login. Responses, the clock and the current weekday are parameters.
 */
module EcoleDirecte {
  import opened Wrappers
  import opened Text
  import opened WebEncoding
  import Dates
  import RealEcoleDirecte

  const SUCCESS := 200
  const INVALID_CREDENTIALS := 505
  const ACCOUNT_BLOCKED := 510
  const MAINTENANCE := 520
  const NOT_AUTHENTICATED := 401

  const BAD_CREDENTIALS_MESSAGE := "Identifiants incorrects"
  const BLOCKED_MESSAGE := "Compte bloqué"
  const MAINTENANCE_MESSAGE := "Service en maintenance"
  const UNKNOWN_MESSAGE := "Erreur inconnue"
  const NOT_AUTHENTICATED_MESSAGE := "Non authentifié. Veuillez vous connecter."

  const HEAVY := "HEAVY"
  const LIGHT := "LIGHT"
  const MEDIUM := "MEDIUM"
  const CONTROL := "CONTROL"
  const HOMEWORK_TYPE := "homework"
  const TEST_TYPE := "test"
  const TEST_MARKER := "contrôle"

  /** An `EcoleDirecteError` (an `AuthenticationError` is one with code 505). */
  datatype EdError = EdError(message: string, code: int)

  // ---------------------------------------------------------------------
  // Responses

  /** `parseResponse`: the payload of a 200, an error carrying the code otherwise; an empty message counts as absent. */
  function ParseResponse<T>(code: int, message: string, data: T): (r: Result<T, EdError>)
    ensures r.Success? <==> code == SUCCESS
    ensures r.Success? ==> r.value == data
    ensures r.Failure? ==> r.error.code == code
    ensures code == INVALID_CREDENTIALS ==> r == Failure(EdError(BAD_CREDENTIALS_MESSAGE, INVALID_CREDENTIALS))
    ensures code == ACCOUNT_BLOCKED ==> r == Failure(EdError(BLOCKED_MESSAGE, code))
    ensures code == MAINTENANCE ==> r == Failure(EdError(MAINTENANCE_MESSAGE, code))
    ensures code !in {SUCCESS, INVALID_CREDENTIALS, ACCOUNT_BLOCKED, MAINTENANCE} ==>
      r == Failure(EdError(if message != "" then message else UNKNOWN_MESSAGE, code))
  {
    if code == SUCCESS then Success(data)
    else if code == INVALID_CREDENTIALS then Failure(EdError(BAD_CREDENTIALS_MESSAGE, INVALID_CREDENTIALS))
    else if code == ACCOUNT_BLOCKED then Failure(EdError(BLOCKED_MESSAGE, code))
    else if code == MAINTENANCE then Failure(EdError(MAINTENANCE_MESSAGE, code))
    else Failure(EdError(if message != "" then message else UNKNOWN_MESSAGE, code))
  }

  // ---------------------------------------------------------------------
  // Contents

  /** `/^[A-Za-z0-9+/=]+$/.test(content)`. */
  predicate LooksBase64(s: string)
  {
    |s| > 0 && forall i :: 0 <= i < |s| ==> Base64Value(s[i]).Some? || s[i] == '='
  }

  /**
   * `decodeContent`: a text of more than 20 characters drawn from the
   * Base64 alphabet is taken for Base64 and replaced by what `atob` gives;
   * anything else, and anything `atob` rejects, is kept.
   */
  function DecodeContent(content: string): (r: string)
    ensures !(LooksBase64(content) && |content| > 20) ==> r == content
    ensures r != content ==> LooksBase64(content) && |content| > 20 && Atob(content) == Some(r)
  {
    if LooksBase64(content) && |content| > 20 then
      match Atob(content)
      case Some(t) => t
      case None => content
    else content
  }

  /** What `btoa` makes of a Latin-1 text comes back whole, once it is longer than 20 digits. */
  lemma DecodeContentOfBtoa(s: string)
    requires IsLatin1(s) && |EncodeLatin1(s)| > 20
    ensures DecodeContent(EncodeLatin1(s)) == s
  {
    var e := EncodeLatin1(s);
    var u := Unpadded(s);
    assert e == u + Padding(|s|);
    forall i | 0 <= i < |e|
      ensures Base64Value(e[i]).Some? || e[i] == '='
    {
      if i >= |u| {
        assert e[i] == Padding(|s|)[i - |u|];
      }
    }
    BtoaAtob(s);
  }

  /** A text with a space, or no longer than 20 characters, is never decoded. */
  lemma PlainTextKept(s: string, i: int)
    requires 0 <= i < |s| && s[i] == ' '
    ensures DecodeContent(s) == s
  {
  }

  // ---------------------------------------------------------------------
  // Homework weight

  /** A homework entry as the textbook response lists it; absent texts are empty. */
  datatype RawItem = RawItem(id: int, matiere: string, codeMatiere: string, nomProf: string, pourLe: string,
                             aFaire: string, effectue: bool, interrogation: bool, contenuDeSeance: string)

  /** `estimateHomeworkWeight(item)`: on the lower-cased, undecoded `aFaire.contenu`. */
  function EstimateHomeworkWeight(item: RawItem): (w: string)
    ensures w == HEAVY || w == LIGHT || w == MEDIUM
    ensures w == HEAVY <==> ContainsAny(Lower(item.aFaire), RealEcoleDirecte.HEAVY_KEYWORDS)
    ensures w == LIGHT <==> !ContainsAny(Lower(item.aFaire), RealEcoleDirecte.HEAVY_KEYWORDS) &&
                            RealEcoleDirecte.LightContent(Lower(item.aFaire))
  {
    var content := Lower(item.aFaire);
    if ContainsAny(content, RealEcoleDirecte.HEAVY_KEYWORDS) then HEAVY
    else if RealEcoleDirecte.LightContent(content) then LIGHT
    else MEDIUM
  }

  /**
   * Without a DST keyword, this estimate agrees with the real client's
   * estimate of a content that is not Base64.
   */
  lemma SameWeightAsRealClient(item: RawItem)
    requires !ContainsAny(Lower(item.aFaire), RealEcoleDirecte.DST_KEYWORDS)
    ensures EstimateHomeworkWeight(item) == RealEcoleDirecte.ContentWeight(Lower(item.aFaire))
  {
  }

  /** Upper-case keywords count: the estimate looks at the lower-cased text. */
  lemma WeightIgnoresCase(item: RawItem)
    ensures EstimateHomeworkWeight(item.(aFaire := Upper(item.aFaire))) == EstimateHomeworkWeight(item)
  {
    LowerOfUpper(item.aFaire);
  }

  // ---------------------------------------------------------------------
  // Timetable

  /** A timetable entry of the response; absent flags are false. */
  datatype RawCourse = RawCourse(id: int, matiere: string, codeMatiere: string, prof: string, salle: string,
                                 startDate: string, endDate: string, isAnnule: bool, isModifie: bool, couleur: string)

  datatype Course = Course(id: int, subject: string, subjectCode: string, teacher: string, room: string,
                           start: string, end: string, canceled: bool, modified: bool, color: string)

  function CourseOf(e: RawCourse): Course
  {
    Course(e.id, e.matiere, e.codeMatiere, e.prof, e.salle, e.startDate, e.endDate, e.isAnnule, e.isModifie, e.couleur)
  }

  /** `parseSchedule(data)`; `None` stands for a response that is not an array. */
  function ParseSchedule(data: Option<seq<RawCourse>>): (r: seq<Course>)
    ensures data.None? ==> r == []
    ensures data.Some? ==> |r| == |data.value|
    ensures data.Some? ==> forall i :: 0 <= i < |r| ==>
      (r[i].id == data.value[i].id && r[i].start == data.value[i].startDate &&
       r[i].end == data.value[i].endDate && r[i].canceled == data.value[i].isAnnule)
  {
    match data
    case None => []
    case Some(entries) => seq(|entries|, i requires 0 <= i < |entries| => CourseOf(entries[i]))
  }

  // ---------------------------------------------------------------------
  // Homework and tests

  /** The items given on one date; `None` when the value under the date is not an array. */
  datatype DateGroup = DateGroup(date: string, items: Option<seq<RawItem>>)

  /** The textbook response: `null` (on which `Object.entries` throws), another non-object, or the date groups in order. */
  datatype Payload = Null | NotObject | Groups(groups: seq<DateGroup>)

  /** The items of one group that `keep` selects, made into results in order. */
  function GroupResults<T>(date: string, items: seq<RawItem>, keep: RawItem -> bool, make: (string, RawItem) -> T): (r: seq<T>)
    ensures |r| <= |items|
  {
    if |items| == 0 then []
    else
      var init := GroupResults(date, items[..|items| - 1], keep, make);
      var last := items[|items| - 1];
      if keep(last) then init + [make(date, last)] else init
  }

  /** Every result of a group comes from one of its selected items. */
  lemma {:induction false} GroupResultsSound<T>(date: string, items: seq<RawItem>, keep: RawItem -> bool,
                                                make: (string, RawItem) -> T, k: int)
    requires 0 <= k < |GroupResults(date, items, keep, make)|
    ensures exists i :: 0 <= i < |items| && keep(items[i]) && GroupResults(date, items, keep, make)[k] == make(date, items[i])
    decreases |items|
  {
    var init := items[..|items| - 1];
    var before := GroupResults(date, init, keep, make);
    if k < |before| {
      GroupResultsSound(date, init, keep, make, k);
      var i :| 0 <= i < |init| && keep(init[i]) && before[k] == make(date, init[i]);
      assert init[i] == items[i];
    } else {
      assert keep(items[|items| - 1]);
    }
  }

  /** Every selected item gives its result. */
  lemma {:induction false} GroupResultsComplete<T>(date: string, items: seq<RawItem>, keep: RawItem -> bool,
                                                   make: (string, RawItem) -> T, i: int)
    requires 0 <= i < |items| && keep(items[i])
    ensures make(date, items[i]) in GroupResults(date, items, keep, make)
    decreases |items|
  {
    if i < |items| - 1 {
      assert items[..|items| - 1][i] == items[i];
      GroupResultsComplete(date, items[..|items| - 1], keep, make, i);
    }
  }

  /** The results of all groups, in order of the groups. */
  function Collected<T>(groups: seq<DateGroup>, keep: RawItem -> bool, make: (string, RawItem) -> T): seq<T>
  {
    if |groups| == 0 then []
    else
      var last := groups[|groups| - 1];
      Collected(groups[..|groups| - 1], keep, make) +
      (if last.items.Some? then GroupResults(last.date, last.items.value, keep, make) else [])
  }

  /** The item `i` of the array group `g` exists and is selected. */
  predicate Selected(groups: seq<DateGroup>, keep: RawItem -> bool, g: int, i: int)
  {
    0 <= g < |groups| && groups[g].items.Some? && 0 <= i < |groups[g].items.value| && keep(groups[g].items.value[i])
  }

  /** Every result comes from a selected item of an array group. */
  lemma {:induction false} CollectedSound<T>(groups: seq<DateGroup>, keep: RawItem -> bool, make: (string, RawItem) -> T,
                                             k: int)
    requires 0 <= k < |Collected(groups, keep, make)|
    ensures exists g, i :: (Selected(groups, keep, g, i) &&
                            Collected(groups, keep, make)[k] == make(groups[g].date, groups[g].items.value[i]))
    decreases |groups|
  {
    var init := groups[..|groups| - 1];
    var last := groups[|groups| - 1];
    var before := Collected(init, keep, make);
    if k < |before| {
      CollectedSound(init, keep, make, k);
      var g, i :| Selected(init, keep, g, i) && before[k] == make(init[g].date, init[g].items.value[i]);
      assert init[g] == groups[g];
      assert Selected(groups, keep, g, i);
    } else {
      GroupResultsSound(last.date, last.items.value, keep, make, k - |before|);
      var i :| 0 <= i < |last.items.value| && keep(last.items.value[i]) &&
        GroupResults(last.date, last.items.value, keep, make)[k - |before|] == make(last.date, last.items.value[i]);
      assert Selected(groups, keep, |groups| - 1, i);
    }
  }

  /** Every selected item of an array group gives its result. */
  lemma {:induction false} CollectedComplete<T>(groups: seq<DateGroup>, keep: RawItem -> bool, make: (string, RawItem) -> T,
                                                g: int, i: int)
    requires Selected(groups, keep, g, i)
    ensures make(groups[g].date, groups[g].items.value[i]) in Collected(groups, keep, make)
    decreases |groups|
  {
    var init := groups[..|groups| - 1];
    var last := groups[|groups| - 1];
    if g < |groups| - 1 {
      assert init[g] == groups[g];
      CollectedComplete(init, keep, make, g, i);
    } else {
      GroupResultsComplete(last.date, last.items.value, keep, make, i);
    }
  }

  /** The loops of `parseHomework` and `parseTests`: every group, every item, in order. */
  method Collect<T>(groups: seq<DateGroup>, keep: RawItem -> bool, make: (string, RawItem) -> T) returns (r: seq<T>)
    ensures r == Collected(groups, keep, make)
  {
    r := [];
    var g := 0;
    while g < |groups|
      invariant 0 <= g <= |groups|
      invariant r == Collected(groups[..g], keep, make)
    {
      assert groups[..g + 1][..g] == groups[..g];
      var group := groups[g];
      if group.items.Some? {
        var items := group.items.value;
        var found := [];
        var i := 0;
        while i < |items|
          invariant 0 <= i <= |items|
          invariant found == GroupResults(group.date, items[..i], keep, make)
        {
          assert items[..i + 1][..i] == items[..i];
          if keep(items[i]) {
            found := found + [make(group.date, items[i])];
          }
          i := i + 1;
        }
        assert items[..|items|] == items;
        r := r + found;
      }
      g := g + 1;
    }
    assert groups[..|groups|] == groups;
  }

  /** A homework as the pages use it. */
  datatype Homework = Homework(id: int, subject: string, subjectCode: string, teacher: string, dueDate: string,
                               givenDate: string, content: string, done: bool, kind: string, weight: string)

  /** `if (item.pourLe)`. */
  predicate HasDueDate(item: RawItem)
  {
    item.pourLe != ""
  }

  function HomeworkOf(date: string, item: RawItem): Homework
  {
    Homework(item.id, item.matiere, item.codeMatiere, item.nomProf, item.pourLe, date, DecodeContent(item.aFaire),
             item.effectue, HOMEWORK_TYPE, EstimateHomeworkWeight(item))
  }

  /** `parseHomework(data)`; `None` where `Object.entries(null)` throws. */
  method ParseHomework(data: Payload) returns (r: Option<seq<Homework>>)
    ensures data.Null? <==> r.None?
    ensures data.NotObject? ==> r == Some([])
    ensures data.Groups? ==> r == Some(Collected(data.groups, HasDueDate, HomeworkOf))
  {
    match data
    case Null => r := None;
    case NotObject => r := Some([]);
    case Groups(groups) =>
      var found := Collect(groups, HasDueDate, HomeworkOf);
      r := Some(found);
  }

  /**
   * The homework parsed from the date groups: exactly the items with a due
   * date, each due on it, given on its group's date and typed `homework`.
   */
  lemma HomeworkParsed(groups: seq<DateGroup>)
    ensures var r := Collected(groups, HasDueDate, HomeworkOf);
      forall k :: 0 <= k < |r| ==>
        (r[k].dueDate != "" && r[k].kind == HOMEWORK_TYPE && exists g :: 0 <= g < |groups| && r[k].givenDate == groups[g].date)
    ensures forall g, i :: Selected(groups, HasDueDate, g, i) ==>
      HomeworkOf(groups[g].date, groups[g].items.value[i]) in Collected(groups, HasDueDate, HomeworkOf)
  {
    var r := Collected(groups, HasDueDate, HomeworkOf);
    forall k | 0 <= k < |r|
      ensures r[k].dueDate != "" && r[k].kind == HOMEWORK_TYPE && exists g :: 0 <= g < |groups| && r[k].givenDate == groups[g].date
    {
      CollectedSound(groups, HasDueDate, HomeworkOf, k);
    }
    forall g, i | Selected(groups, HasDueDate, g, i)
      ensures HomeworkOf(groups[g].date, groups[g].items.value[i]) in r
    {
      CollectedComplete(groups, HasDueDate, HomeworkOf, g, i);
    }
  }

  /** A test as the pages use it. */
  datatype Test = Test(id: int, subject: string, subjectCode: string, teacher: string, date: string, content: string,
                       kind: string, weight: string)

  /** `item.interrogation || item.contenuDeSeance?.toLowerCase().includes('contrôle')`. */
  predicate IsTest(item: RawItem)
  {
    item.interrogation || Contains(Lower(item.contenuDeSeance), TEST_MARKER)
  }

  function TestOf(date: string, item: RawItem): Test
  {
    Test(item.id, item.matiere, item.codeMatiere, item.nomProf, if item.pourLe != "" then item.pourLe else date,
         DecodeContent(item.contenuDeSeance), TEST_TYPE, CONTROL)
  }

  /** `parseTests(data)`; `None` where `Object.entries(null)` throws. */
  method ParseTests(data: Payload) returns (r: Option<seq<Test>>)
    ensures data.Null? <==> r.None?
    ensures data.NotObject? ==> r == Some([])
    ensures data.Groups? ==> r == Some(Collected(data.groups, IsTest, TestOf))
  {
    match data
    case Null => r := None;
    case NotObject => r := Some([]);
    case Groups(groups) =>
      var found := Collect(groups, IsTest, TestOf);
      r := Some(found);
  }

  /**
   * The tests parsed from the date groups: exactly the items flagged as a
   * test or mentioning a `contrôle`, each typed `test` and weighted CONTROL.
   */
  lemma TestsParsed(groups: seq<DateGroup>)
    ensures var r := Collected(groups, IsTest, TestOf);
      forall k :: 0 <= k < |r| ==>
        (r[k].weight == CONTROL && r[k].kind == TEST_TYPE &&
         exists g, i :: Selected(groups, IsTest, g, i) && r[k] == TestOf(groups[g].date, groups[g].items.value[i]))
    ensures forall g, i :: Selected(groups, IsTest, g, i) ==>
      TestOf(groups[g].date, groups[g].items.value[i]) in Collected(groups, IsTest, TestOf)
  {
    var r := Collected(groups, IsTest, TestOf);
    forall k | 0 <= k < |r|
      ensures r[k].weight == CONTROL && r[k].kind == TEST_TYPE &&
        exists g, i :: Selected(groups, IsTest, g, i) && r[k] == TestOf(groups[g].date, groups[g].items.value[i])
    {
      CollectedSound(groups, IsTest, TestOf, k);
    }
    forall g, i | Selected(groups, IsTest, g, i)
      ensures TestOf(groups[g].date, groups[g].items.value[i]) in r
    {
      CollectedComplete(groups, IsTest, TestOf, g, i);
    }
  }

  /** The marker is found whatever its case. */
  lemma MarkerIgnoresCase(item: RawItem)
    requires Contains(item.contenuDeSeance, "CONTRÔLE")
    ensures IsTest(item)
  {
    var i :| 0 <= i <= |item.contenuDeSeance| && OccursAt(item.contenuDeSeance, "CONTRÔLE", i);
    var low := Lower(item.contenuDeSeance);
    assert low[i..i + 8] == Lower(item.contenuDeSeance[i..i + 8]);
    MarkerLowered();
    assert OccursAt(low, TEST_MARKER, i);
  }

  lemma MarkerLowered()
    ensures Lower("CONTRÔLE") == TEST_MARKER
  {
  }

  // ---------------------------------------------------------------------
  // The client session

  datatype Profile = Profile(classe: string, classeId: int)

  /** An account of the login response; absent texts are empty. */
  datatype RawAccount = RawAccount(id: int, typeCompte: string, prenom: string, nom: string, email: string, photo: string,
                                   profile: Option<Profile>, nomEtablissement: string, idEtablissement: int,
                                   modules: seq<string>)

  /** The account without what should not be stored. */
  datatype Account = Account(id: int, kind: string, firstName: string, lastName: string, email: string, photo: string,
                             classe: Option<string>, classeId: Option<int>, school: string, schoolId: int)

  /** `sanitizeAccount(account)`: a falsy class or class id becomes `null`. */
  function SanitizeAccount(a: RawAccount): (r: Account)
    ensures r.id == a.id && r.kind == a.typeCompte && r.school == a.nomEtablissement
    ensures r.classe.Some? <==> a.profile.Some? && a.profile.value.classe != ""
    ensures r.classe.Some? ==> r.classe.value == a.profile.value.classe
    ensures r.classeId.Some? <==> a.profile.Some? && a.profile.value.classeId != 0
  {
    Account(a.id, a.typeCompte, a.prenom, a.nom, a.email, a.photo,
            if a.profile.Some? && a.profile.value.classe != "" then Some(a.profile.value.classe) else None,
            if a.profile.Some? && a.profile.value.classeId != 0 then Some(a.profile.value.classeId) else None,
            a.nomEtablissement, a.idEtablissement)
  }

  /** The payload of a login response. */
  datatype LoginData = LoginData(token: string, accounts: seq<RawAccount>)

  /** What login returns. */
  datatype LoginReply = LoginReply(token: string, account: Account, modules: seq<string>)

  /** What a call throws: an API error, or a `TypeError` from reading a missing account. */
  datatype Thrown = ApiError(error: EdError) | TypeError

  /** `EcoleDirecteClient`: the session of the first client. */
  class Client {
    var token: Option<string>
    var account: Option<RawAccount>
    var modules: seq<string>

    constructor()
      ensures token == None && account == None && modules == []
    {
      token := None;
      account := None;
      modules := [];
    }

    /** `isAuthenticated()`: a non-empty token and an account. */
    function IsAuthenticated(): bool
      reads this
    {
      token.Some? && token.value != "" && account.Some?
    }

    /**
     * `login(username, password)` given the response's code, message and
     * payload. A refused response changes nothing; an accepted one stores
     * the token, then the first account, whose absence throws after the
     * token is stored.
     */
    method Login(code: int, message: string, data: LoginData) returns (r: Result<LoginReply, Thrown>)
      modifies this
      ensures code != SUCCESS ==> (r == Failure(ApiError(ParseResponse(code, message, data).error)) &&
                                   token == old(token) && account == old(account) && modules == old(modules))
      ensures code == SUCCESS && |data.accounts| == 0 ==> (r == Failure(TypeError) &&
                                                           token == Some(data.token) && account == None &&
                                                           modules == old(modules))
      ensures code == SUCCESS && |data.accounts| > 0 ==>
        (token == Some(data.token) && account == Some(data.accounts[0]) && modules == data.accounts[0].modules &&
         r == Success(LoginReply(data.token, SanitizeAccount(data.accounts[0]), data.accounts[0].modules)))
      ensures r.Success? ==> (IsAuthenticated() <==> data.token != "")
    {
      var parsed := ParseResponse(code, message, data);
      if parsed.Failure? {
        return Failure(ApiError(parsed.error));
      }
      token := Some(data.token);
      if |data.accounts| == 0 {
        account := None;
        return Failure(TypeError);
      }
      account := Some(data.accounts[0]);
      modules := data.accounts[0].modules;
      r := Success(LoginReply(data.token, SanitizeAccount(data.accounts[0]), modules));
    }

    /** `logout()`: the session is cleared. */
    method Logout()
      modifies this
      ensures token == None && account == None && modules == []
      ensures !IsAuthenticated()
    {
      token := None;
      account := None;
      modules := [];
    }

    /** `ensureAuthenticated()`: the error every call makes without a session. */
    function EnsureAuthenticated(): (r: Option<EdError>)
      reads this
      ensures r.None? <==> IsAuthenticated()
      ensures r.Some? ==> r.value.code == NOT_AUTHENTICATED
    {
      if IsAuthenticated() then None else Some(EdError(NOT_AUTHENTICATED_MESSAGE, NOT_AUTHENTICATED))
    }
  }

  // ---------------------------------------------------------------------
  // The mock client

  const GUEST_USERNAME := "guest"
  const GUEST_PASSWORD := "secret"
  const MOCK_TOKEN_PREFIX := "mock-token-"
  const MOCK_MODULES: seq<string> := ["EDT", "NOTES", "CAHIER_DE_TEXTES"]

  datatype MockAccount = MockAccount(id: int, kind: string, firstName: string, lastName: string, email: string,
                                     classe: string, classeId: string, school: string, schoolId: int)

  const GUEST_ACCOUNT := MockAccount(1, "E", "Invité", "", "guest@charge-scolaire.fr", "Mode Démo", "DEMO",
                                     "Lycée de Démonstration", 0)
  const DEMO_ACCOUNT := MockAccount(12345, "E", "Jean", "Dupont", "jean.dupont@email.com", "Terminale S1", "TS1",
                                    "Lycée Demo", 1)

  datatype MockLogin = MockLogin(token: string, account: MockAccount, modules: seq<string>)

  /** The account the mock login picks. */
  function MockAccountFor(username: string, password: string): (a: MockAccount)
    ensures a.id == 1 <==> username == GUEST_USERNAME && password == GUEST_PASSWORD
    ensures a.id == 1 || a.id == 12345
  {
    if username == GUEST_USERNAME && password == GUEST_PASSWORD then GUEST_ACCOUNT else DEMO_ACCOUNT
  }

  /** `MockEcoleDirecteClient`: accepts any non-empty credentials. */
  class MockClient {
    var token: Option<string>
    var account: Option<MockAccount>

    constructor()
      ensures token == None && account == None
    {
      token := None;
      account := None;
    }

    /** `isAuthenticated()`: the token alone decides. */
    function IsAuthenticated(): bool
      reads this
    {
      token.Some?
    }

    /** `login(username, password)` at time `now` (milliseconds). */
    method Login(username: string, password: string, now: nat) returns (r: Result<MockLogin, EdError>)
      modifies this
      ensures username == "" || password == "" ==>
        r == Failure(EdError(BAD_CREDENTIALS_MESSAGE, INVALID_CREDENTIALS)) && token == old(token) && account == old(account)
      ensures username != "" && password != "" ==>
        token == Some(MOCK_TOKEN_PREFIX + Dates.NatToString(now)) && account == Some(MockAccountFor(username, password)) &&
        r == Success(MockLogin(token.value, account.value, MOCK_MODULES)) && IsAuthenticated()
    {
      if username == "" || password == "" {
        return Failure(EdError(BAD_CREDENTIALS_MESSAGE, INVALID_CREDENTIALS));
      }
      token := Some(MOCK_TOKEN_PREFIX + Dates.NatToString(now));
      account := Some(MockAccountFor(username, password));
      r := Success(MockLogin(token.value, account.value, MOCK_MODULES));
    }

    /** `logout()`. */
    method Logout()
      modifies this
      ensures token == None && account == None && !IsAuthenticated()
    {
      token := None;
      account := None;
    }
  }

  /** `(6 - today.getDay() + 7) % 7`: the days from `weekday` (0 for Sunday) to the next Saturday, today included. */
  function DaysToSaturday(weekday: int): (d: int)
    requires 0 <= weekday < 7
    ensures 0 <= d < 7 && (weekday + d) % 7 == 6
  {
    (6 - weekday + 7) % 7
  }
}
