/**
 * The neon palette: the colour a subject takes from its École Directe
 * subject code.  An absent code or colour is the empty string.
 */
module EdTypes {
  import opened Text

  const CYAN := "#00f2ff"
  const RED := "#ff0055"
  const YELLOW := "#ffea00"
  const GREEN := "#00ff9d"
  const PURPLE := "#bd93f9"
  const ORANGE := "#ff9100"
  const MAGENTA := "#ff00ff"
  const WHITE := "#ffffff"

  /** A rule: the colour given to a code that contains any of its fragments. */
  datatype Rule = Rule(fragments: seq<string>, color: string)

  /** The rules in the order they are tried. */
  const RULES: seq<Rule> := [
    Rule(["FRA", "LIT", "PHI"], CYAN),
    Rule(["MAT", "SNT"], RED),
    Rule(["AGL", "ANG"], YELLOW),
    Rule(["HIS", "GEO", "SES"], GREEN),
    Rule(["PHY", "CHI", "SVT"], PURPLE),
    Rule(["ESP", "ALL", "ITA"], ORANGE),
    Rule(["EPS", "SPO"], MAGENTA)
  ]

  predicate Hits(code: string, rule: Rule)
  {
    ContainsAny(code, rule.fragments)
  }

  /** The index of the first rule the code hits, or `|rules|` when it hits none. */
  function FirstHit(code: string, rules: seq<Rule>): (i: nat)
    ensures i <= |rules|
    ensures i < |rules| ==> Hits(code, rules[i])
    ensures forall j :: 0 <= j < i ==> !Hits(code, rules[j])
  {
    if |rules| == 0 then 0
    else if Hits(code, rules[0]) then 0
    else
      var k := FirstHit(code, rules[1..]);
      assert forall j :: 1 <= j < 1 + k ==> rules[j] == rules[1..][j - 1];
      1 + k
  }

  /** `getNeonColorForSubject(codeMatiere, originalColor)`. */
  function NeonColor(code: string, original: string): string
  {
    if code == "" then (if original != "" then original else PURPLE)
    else
      var i := FirstHit(Upper(code), RULES);
      if i < |RULES| then RULES[i].color
      else if original != "" then original
      else WHITE
  }

  /**
   * Without a code the original colour is kept, purple by default.  With
   * one, the upper-cased code is matched against the rules in order: the
   * first rule hit gives the colour, and when none is hit the original
   * colour is kept, white by default.
   */
  lemma NeonColorChoice(code: string, original: string)
    ensures code == "" ==> NeonColor(code, original) == (if original != "" then original else PURPLE)
    ensures code != "" && (exists j :: 0 <= j < |RULES| && Hits(Upper(code), RULES[j])) ==>
      exists i :: 0 <= i < |RULES| && Hits(Upper(code), RULES[i])
        && (forall j :: 0 <= j < i ==> !Hits(Upper(code), RULES[j]))
        && NeonColor(code, original) == RULES[i].color
    ensures code != "" && (forall j :: 0 <= j < |RULES| ==> !Hits(Upper(code), RULES[j])) ==>
      NeonColor(code, original) == (if original != "" then original else WHITE)
  {
    if code != "" {
      var i := FirstHit(Upper(code), RULES);
      if i < |RULES| {
        assert Hits(Upper(code), RULES[i]);
      }
    }
  }

  /** The case of the code does not matter. */
  lemma NeonColorIgnoresCase(code: string, original: string)
    ensures NeonColor(Upper(code), original) == NeonColor(code, original)
  {
    UpperIdempotent(code);
  }

  /** A code that reads as French and as maths takes the French colour, the earlier rule. */
  lemma NeonColorFirstRuleWins(original: string)
    ensures NeonColor("framat", original) == CYAN
  {
    var code := Upper("framat");
    assert code == "FRAMAT";
    assert OccursAt(code, "FRA", 0);
    assert Hits(code, RULES[0]);
  }
}
