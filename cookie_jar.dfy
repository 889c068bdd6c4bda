/**
 * The cookie jars kept by the desktop shell, the web proxy server and the
 * development proxy: each keeps the `name=value` pairs of the `Set-Cookie`
 * lines it has seen, one per name, and sends them back in a `Cookie`
 * header (sections 4.1 and 4.2 of RFC 6265).
 */
module CookieJar {
  import opened Wrappers
  import opened Text
  import opened Collections

  /** `cookie.split(';')[0]`: the `name=value` pair before the attributes. */
  function PairOf(cookie: string): string
  {
    cookie[..IndexOfChar(cookie, ';')]
  }

  /** `pair.split('=')[0]`: the cookie's name. */
  function NameOf(pair: string): (name: string)
    ensures '=' !in name
    ensures |name| <= |pair| && name == pair[..|name|]
  {
    var i := IndexOfChar(pair, '=');
    assert forall j :: 0 <= j < i ==> pair[..i][j] != '=';
    pair[..i]
  }

  /** `pair.split('=')[1]`: the text between the first and the second `=`, absent without a `=`. */
  function ValueOf(pair: string): (v: Option<string>)
    ensures v.None? <==> '=' !in pair
    ensures v.Some? ==> '=' !in v.value
  {
    var i := IndexOfChar(pair, '=');
    if i == |pair| then None
    else
      var rest := pair[i + 1..];
      var j := IndexOfChar(rest, '=');
      assert forall k :: 0 <= k < j ==> rest[..j][k] != '=';
      Some(rest[..j])
  }

  /** An entry is filed under `name` when it starts with `name=`. */
  predicate Filed(entry: string, name: string)
  {
    StartsWith(entry, name + "=")
  }

  /** `jar.findIndex(c => c.startsWith(name + '='))`, with `|jar|` for -1. */
  function FindIndex(jar: seq<string>, name: string): (k: nat)
    ensures k <= |jar|
    ensures k < |jar| ==> Filed(jar[k], name)
    ensures forall j :: 0 <= j < k ==> !Filed(jar[j], name)
  {
    if |jar| == 0 then 0
    else if Filed(jar[0], name) then 0
    else
      var k := FindIndex(jar[1..], name);
      assert forall j :: 1 <= j < 1 + k ==> jar[j] == jar[1..][j - 1];
      1 + k
  }

  /** Replace the entry filed under the pair's name, or append the pair. */
  function Upsert(jar: seq<string>, pair: string): (r: seq<string>)
    ensures |r| == |jar| || |r| == |jar| + 1
  {
    var k := FindIndex(jar, NameOf(pair));
    if k < |jar| then jar[k := pair] else jar + [pair]
  }

  /** For an entry holding a `=`, being filed under a name means having that name. */
  lemma FiledIffNamed(entry: string, name: string)
    requires '=' !in name && '=' in entry
    ensures Filed(entry, name) <==> NameOf(entry) == name
  {
    var i := IndexOfChar(entry, '=');
    if Filed(entry, name) {
      assert entry[..|name| + 1] == name + "=";
      assert entry[|name|] == '=';
      forall j | 0 <= j < |name|
        ensures entry[j] != '='
      {
        assert entry[j] == name[j];
      }
      assert i == |name|;
    }
    if NameOf(entry) == name {
      assert entry[..|name| + 1] == name + "=";
    }
  }

  /** Every entry is a `name=value` pair and no two share a name. */
  predicate UniqueNames(jar: seq<string>)
  {
    (forall i :: 0 <= i < |jar| ==> '=' in jar[i])
    && (forall i, j :: 0 <= i < j < |jar| ==> NameOf(jar[i]) != NameOf(jar[j]))
  }

  /**
   * Storing a pair keeps one entry per name: the pair replaces the entry of
   * the same name, or is appended when there is none, and every entry of
   * another name stays where it was.
   */
  lemma UpsertKeepsNamesUnique(jar: seq<string>, pair: string)
    requires UniqueNames(jar) && '=' in pair
    ensures var r := Upsert(jar, pair);
      UniqueNames(r)
      && pair in r
      && (forall i :: 0 <= i < |jar| && NameOf(jar[i]) != NameOf(pair) ==> r[i] == jar[i])
      && (forall i :: 0 <= i < |r| ==> r[i] == pair || r[i] in jar)
      && (|r| == |jar| <==> exists i :: 0 <= i < |jar| && NameOf(jar[i]) == NameOf(pair))
  {
    var name := NameOf(pair);
    var k := FindIndex(jar, name);
    FiledIffNamedAll(jar, name);
    if k < |jar| {
      ReplaceKeepsNamesUnique(jar, pair, k);
    } else {
      AppendKeepsNamesUnique(jar, pair);
    }
  }

  lemma FiledIffNamedAll(jar: seq<string>, name: string)
    requires UniqueNames(jar) && '=' !in name
    ensures forall i :: 0 <= i < |jar| ==> (Filed(jar[i], name) <==> NameOf(jar[i]) == name)
  {
    forall i | 0 <= i < |jar|
      ensures Filed(jar[i], name) <==> NameOf(jar[i]) == name
    {
      FiledIffNamed(jar[i], name);
    }
  }

  lemma ReplaceKeepsNamesUnique(jar: seq<string>, pair: string, k: nat)
    requires UniqueNames(jar) && '=' in pair
    requires k < |jar| && NameOf(jar[k]) == NameOf(pair)
    ensures UniqueNames(jar[k := pair])
  {
  }

  lemma AppendKeepsNamesUnique(jar: seq<string>, pair: string)
    requires UniqueNames(jar) && '=' in pair
    requires forall i :: 0 <= i < |jar| ==> NameOf(jar[i]) != NameOf(pair)
    ensures UniqueNames(jar + [pair])
  {
    var r := jar + [pair];
    assert forall i :: 0 <= i < |jar| ==> r[i] == jar[i];
  }

  /** `[...jar, existing].join('; ')`, leaving out an empty existing header. */
  function CookieHeader(jar: seq<string>, existing: string): string
  {
    Join(jar + (if existing != "" then [existing] else []), "; ")
  }

  /** A pair the jars skip: one without a value, or whose value is blank. */
  predicate EmptyValue(pair: string)
  {
    ValueOf(pair).None? || Trim(ValueOf(pair).value) == ""
  }

  /** The jar after the `Set-Cookie` lines, in order; `skipEmpty` skips the pairs without a value. */
  function Absorb(jar: seq<string>, cookies: seq<string>, skipEmpty: bool): seq<string>
  {
    if |cookies| == 0 then jar
    else
      var prior := Absorb(jar, cookies[..|cookies| - 1], skipEmpty);
      var pair := PairOf(cookies[|cookies| - 1]);
      if skipEmpty && EmptyValue(pair) then prior else Upsert(prior, pair)
  }

  /** Skipping the pairs without a value keeps one entry per name, however many lines arrive. */
  lemma {:induction false} AbsorbKeepsNamesUnique(jar: seq<string>, cookies: seq<string>)
    requires UniqueNames(jar)
    ensures UniqueNames(Absorb(jar, cookies, true))
  {
    if |cookies| > 0 {
      AbsorbKeepsNamesUnique(jar, cookies[..|cookies| - 1]);
      var pair := PairOf(cookies[|cookies| - 1]);
      if !EmptyValue(pair) {
        UpsertKeepsNamesUnique(Absorb(jar, cookies[..|cookies| - 1], true), pair);
      }
    }
  }

  /** Without the skip the same holds as long as every pair carries a `=`. */
  lemma {:induction false} AbsorbAllKeepsNamesUnique(jar: seq<string>, cookies: seq<string>)
    requires UniqueNames(jar)
    requires forall i :: 0 <= i < |cookies| ==> '=' in PairOf(cookies[i])
    ensures UniqueNames(Absorb(jar, cookies, false))
  {
    if |cookies| > 0 {
      AbsorbAllKeepsNamesUnique(jar, cookies[..|cookies| - 1]);
      UpsertKeepsNamesUnique(Absorb(jar, cookies[..|cookies| - 1], false), PairOf(cookies[|cookies| - 1]));
    }
  }

  /** The name the GTK cookie goes under: `gtk` in any case, or exactly `GTK`. */
  predicate IsGtkName(name: string, anyCase: bool)
  {
    if anyCase then Lower(name) == "gtk" else name == "GTK"
  }

  /** The GTK token after the `Set-Cookie` lines: the value of the last GTK pair the jar did not skip. */
  function GtkAfter(gtk: Option<string>, cookies: seq<string>, skipEmpty: bool, anyCase: bool): Option<string>
  {
    if |cookies| == 0 then gtk
    else
      var prior := GtkAfter(gtk, cookies[..|cookies| - 1], skipEmpty, anyCase);
      var pair := PairOf(cookies[|cookies| - 1]);
      if skipEmpty && EmptyValue(pair) then prior
      else if IsGtkName(NameOf(pair), anyCase) then ValueOf(pair)
      else prior
  }

  /** One more `Set-Cookie` line: the jar and the token after it follow from those before it. */
  lemma AbsorbStep(jar: seq<string>, gtk: Option<string>, cookies: seq<string>, i: nat, skipEmpty: bool, anyCase: bool)
    requires i < |cookies|
    ensures var pair := PairOf(cookies[i]);
      var prior := Absorb(jar, cookies[..i], skipEmpty);
      Absorb(jar, cookies[..i + 1], skipEmpty) == (if skipEmpty && EmptyValue(pair) then prior else Upsert(prior, pair))
    ensures var pair := PairOf(cookies[i]);
      var prior := GtkAfter(gtk, cookies[..i], skipEmpty, anyCase);
      GtkAfter(gtk, cookies[..i + 1], skipEmpty, anyCase)
        == (if skipEmpty && EmptyValue(pair) then prior else if IsGtkName(NameOf(pair), anyCase) then ValueOf(pair) else prior)
  {
    assert cookies[..i + 1][..i] == cookies[..i];
  }

  /** A jar together with the GTK token taken from it. */
  datatype Jar = Jar(cookies: seq<string>, gtk: Option<string>)

  /** The jar and token after every one of `lines`. */
  function AfterLines(j: Jar, lines: seq<string>, skipEmpty: bool, anyCase: bool): Jar
  {
    Jar(Absorb(j.cookies, lines, skipEmpty), GtkAfter(j.gtk, lines, skipEmpty, anyCase))
  }

  /** The jar and token after one pair: skipped, or filed with a GTK pair setting the token. */
  function AfterPair(j: Jar, pair: string, skipEmpty: bool, anyCase: bool): Jar
  {
    if skipEmpty && EmptyValue(pair) then j
    else Jar(Upsert(j.cookies, pair), if IsGtkName(NameOf(pair), anyCase) then ValueOf(pair) else j.gtk)
  }

  /** One more line files its pair into the jar the earlier lines left. */
  lemma AfterLinesStep(j: Jar, lines: seq<string>, i: nat, skipEmpty: bool, anyCase: bool)
    requires i < |lines|
    ensures AfterLines(j, lines[..i + 1], skipEmpty, anyCase) == AfterPair(AfterLines(j, lines[..i], skipEmpty, anyCase), PairOf(lines[i]), skipEmpty, anyCase)
  {
    AbsorbStep(j.cookies, j.gtk, lines, i, skipEmpty, anyCase);
  }

  /** One more `Set-Cookie` line, for the token alone. */
  lemma GtkStep(gtk: Option<string>, cookies: seq<string>, i: nat, skipEmpty: bool, anyCase: bool)
    requires i < |cookies|
    ensures var pair := PairOf(cookies[i]);
      var prior := GtkAfter(gtk, cookies[..i], skipEmpty, anyCase);
      GtkAfter(gtk, cookies[..i + 1], skipEmpty, anyCase)
        == (if skipEmpty && EmptyValue(pair) then prior else if IsGtkName(NameOf(pair), anyCase) then ValueOf(pair) else prior)
  {
    assert cookies[..i + 1][..i] == cookies[..i];
  }

  /** The index of the last line carrying a GTK pair the jar takes, or -1. */
  function LastCapture(cookies: seq<string>, skipEmpty: bool, anyCase: bool): (i: int)
    ensures -1 <= i < |cookies|
    ensures i >= 0 ==> Captures(cookies[i], skipEmpty, anyCase)
    ensures forall j :: i < j < |cookies| ==> !Captures(cookies[j], skipEmpty, anyCase)
  {
    LastWhere(cookies, (c: string) => Captures(c, skipEmpty, anyCase))
  }

  /**
   * The token either stays what it was, when no line brings a GTK pair,
   * or is the value of the last line that does.
   */
  lemma {:induction false} GtkFromLastLine(gtk: Option<string>, cookies: seq<string>, skipEmpty: bool, anyCase: bool)
    ensures var i := LastCapture(cookies, skipEmpty, anyCase);
      GtkAfter(gtk, cookies, skipEmpty, anyCase) == if i < 0 then gtk else ValueOf(PairOf(cookies[i]))
  {
    if |cookies| > 0 {
      var n := |cookies| - 1;
      GtkFromLastLine(gtk, cookies[..n], skipEmpty, anyCase);
      var i := LastCapture(cookies[..n], skipEmpty, anyCase);
      assert LastCapture(cookies, skipEmpty, anyCase) == if Captures(cookies[n], skipEmpty, anyCase) then n else i;
      if i >= 0 {
        assert cookies[..n][i] == cookies[i];
      }
    }
  }

  /** The line carries a GTK pair the jar takes. */
  predicate Captures(cookie: string, skipEmpty: bool, anyCase: bool)
  {
    !(skipEmpty && EmptyValue(PairOf(cookie))) && IsGtkName(NameOf(PairOf(cookie)), anyCase)
  }

  /** A line without any `=` is appended again every time it arrives, since no entry starts with `sid=`. */
  lemma BareCookieRepeats()
    ensures Absorb([], ["sid", "sid"], false) == ["sid", "sid"]
  {
    assert ["sid", "sid"][..1] == ["sid"];
    assert ["sid"][..0] == [];
    assert PairOf("sid") == "sid" by {
      assert IndexOfChar("sid", ';') == 3;
    }
    assert NameOf("sid") == "sid" by {
      assert IndexOfChar("sid", '=') == 3;
    }
    assert !Filed("sid", "sid");
  }
}
