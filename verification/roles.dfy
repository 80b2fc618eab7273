/** `classify_role` of the dashboard: an ordered, first-match-wins table of substring
    rules over the lower-cased job title. */
module RoleClassifier {
  import opened Text

  datatype RoleCategory = Leadership | SeniorIC | IndividualContributor

  /** The text the dashboard stores in its `Role_Category` column. */
  function Label(c: RoleCategory): string
  {
    match c
    case Leadership => "Leadership / Manager"
    case SeniorIC => "Senior IC"
    case IndividualContributor => "Individual Contributor"
  }

  lemma LabelInjective(a: RoleCategory, b: RoleCategory)
    ensures Label(a) == Label(b) <==> a == b
  {
  }

  /** Some word of `words` occurs in `text` (Python's `any(x in text for x in words)`). */
  predicate ContainsAny(text: string, words: seq<string>)
  {
    exists w :: w in words && Contains(text, w)
  }

  /** A rule fires when the text contains any of its keywords. */
  datatype Rule = Rule(keywords: seq<string>, category: RoleCategory)

  const LeadershipKeywords: seq<string> := ["lead", "manager", "principal", "head", "director"]

  /** The rules in the order they are tried. */
  const RoleRules: seq<Rule> := [Rule(LeadershipKeywords, Leadership), Rule(["senior"], SeniorIC)]

  /** The category of the first rule that fires, or `fallback` when none does. */
  function FirstMatch(rules: seq<Rule>, text: string, fallback: RoleCategory): RoleCategory
    decreases |rules|
  {
    if |rules| == 0 then fallback
    else if ContainsAny(text, rules[0].keywords) then rules[0].category
    else FirstMatch(rules[1..], text, fallback)
  }

  /** First match wins: the result is the category of the earliest rule that fires,
      whatever later rules say. */
  lemma {:induction false} FirstMatchWins(rules: seq<Rule>, text: string, fallback: RoleCategory, i: nat)
    requires i < |rules|
    requires ContainsAny(text, rules[i].keywords)
    requires forall j :: 0 <= j < i ==> !ContainsAny(text, rules[j].keywords)
    ensures FirstMatch(rules, text, fallback) == rules[i].category
    decreases i
  {
    if i > 0 {
      assert !ContainsAny(text, rules[0].keywords);
      FirstMatchWins(rules[1..], text, fallback, i - 1);
    }
  }

  /** When no rule fires the fallback is returned. */
  lemma {:induction false} FirstMatchFallback(rules: seq<Rule>, text: string, fallback: RoleCategory)
    requires forall j :: 0 <= j < |rules| ==> !ContainsAny(text, rules[j].keywords)
    ensures FirstMatch(rules, text, fallback) == fallback
    decreases |rules|
  {
    if |rules| > 0 {
      assert !ContainsAny(text, rules[0].keywords);
      FirstMatchFallback(rules[1..], text, fallback);
    }
  }

  /** The role category of a job title. Leadership keywords take precedence over
      "senior"; everything else is an individual contributor. */
  function ClassifyRole(title: string): (c: RoleCategory)
    ensures c == Leadership <==> ContainsAny(Lower(title), LeadershipKeywords)
    ensures c == SeniorIC <==>
      !ContainsAny(Lower(title), LeadershipKeywords) && Contains(Lower(title), "senior")
    ensures c == IndividualContributor <==>
      !ContainsAny(Lower(title), LeadershipKeywords) && !Contains(Lower(title), "senior")
  {
    var text := Lower(title);
    assert ContainsAny(text, ["senior"]) <==> Contains(text, "senior") by {
      assert "senior" in ["senior"];
    }
    if ContainsAny(text, LeadershipKeywords) then
      FirstMatchWins(RoleRules, text, IndividualContributor, 0);
      FirstMatch(RoleRules, text, IndividualContributor)
    else if Contains(text, "senior") then
      FirstMatchWins(RoleRules, text, IndividualContributor, 1);
      FirstMatch(RoleRules, text, IndividualContributor)
    else
      FirstMatchFallback(RoleRules, text, IndividualContributor);
      FirstMatch(RoleRules, text, IndividualContributor)
  }

  /** `classify_role` as the dashboard calls it: always one of the three labels. */
  function ClassifyRoleLabel(title: string): (text: string)
    ensures text == "Leadership / Manager" || text == "Senior IC" || text == "Individual Contributor"
    ensures text == "Senior IC" <==>
      !ContainsAny(Lower(title), LeadershipKeywords) && Contains(Lower(title), "senior")
  {
    LabelInjective(ClassifyRole(title), SeniorIC);
    Label(ClassifyRole(title))
  }

  /** Matching is case-insensitive: titles that agree after lower-casing get the same
      category; in particular lower-casing a title first changes nothing. */
  lemma ClassifyIgnoresCase(a: string, b: string)
    requires Lower(a) == Lower(b)
    ensures ClassifyRole(a) == ClassifyRole(b)
    ensures ClassifyRole(Lower(a)) == ClassifyRole(a)
  {
    LowerIdempotent(a);
  }

  /** A leadership keyword next to "senior" still makes the title Leadership. */
  lemma SeniorManagerIsLeadership()
    ensures ClassifyRole("Senior Engineering Manager") == Leadership
  {
    var title := "Senior Engineering Manager";
    var text := Lower(title);
    assert title[19..26] == "Manager";
    assert text[19..26] == "manager" by {
      forall i | 19 <= i < 26 ensures text[i] == "manager"[i - 19] {
        assert text[i] == LowerChar(title[i]);
      }
    }
    ContainsAt(text, "manager", 19);
    assert "manager" in LeadershipKeywords;
  }

  /** Keywords match inside longer words: "Leader" contains "lead". */
  lemma TeamLeaderIsLeadership()
    ensures ClassifyRole("Team Leader") == Leadership
  {
    var text := Lower("Team Leader");
    assert text[5..9] == "lead";
    ContainsAt(text, "lead", 5);
    assert "lead" in LeadershipKeywords;
  }

  /** Without any leadership keyword and without "senior" a title is an individual
      contributor. */
  lemma IndividualWithoutKeywords(title: string)
    requires forall w :: w in LeadershipKeywords ==> !Contains(Lower(title), w)
    requires !Contains(Lower(title), "senior")
    ensures ClassifyRole(title) == IndividualContributor
  {
  }

  lemma DataScientistIsIndividualContributor()
    ensures ClassifyRole("Data Scientist") == IndividualContributor
  {
    var title := "Data Scientist";
    var text := Lower(title);
    assert forall i :: 0 <= i < |text| ==> text[i] == LowerChar(title[i]);
    assert forall c :: c in "lmphro" ==> c !in text;
    assert "lead"[0] in "lmphro" && "manager"[0] in "lmphro" && "principal"[0] in "lmphro";
    assert "head"[0] in "lmphro" && "director"[2] in "lmphro" && "senior"[4] in "lmphro";
    NotContainedWithoutChar(text, "lead", 0);
    NotContainedWithoutChar(text, "manager", 0);
    NotContainedWithoutChar(text, "principal", 0);
    NotContainedWithoutChar(text, "head", 0);
    NotContainedWithoutChar(text, "director", 2);
    NotContainedWithoutChar(text, "senior", 4);
    IndividualWithoutKeywords(title);
  }
}
