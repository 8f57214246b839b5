/**
 * The keyword classifier of the chat backend (`detect_category`): the
 * message is lower-cased and the rules are tried in a fixed order; the
 * first rule with a keyword occurring in the message names the category,
 * and a message no rule matches is "Other". A keyword matches wherever it
 * occurs as a substring, also inside a longer word.
 */
module RuleClassifier {
  import opened Text

  /** One rule: the category it names and the keywords that trigger it. */
  datatype Rule = Rule(category: string, keywords: seq<string>)

  const OTHER: string := "Other"

  /** The rules, in the order they are tried. */
  const RULES: seq<Rule> := [
    Rule("Family Law", ["divorce", "marriage", "custody", "wife", "husband"]),
    Rule("Property / Rent Law", ["tenant", "landlord", "rent", "rented", "property", "flat", "house"]),
    Rule("Criminal Law", ["fir", "police", "ipc", "nyaya sanhita", "theft", "assault", "murder"]),
    Rule("Labour / Employment Law", ["job", "salary", "company", "employer", "terminated", "fired"]),
    Rule("Cyber Law", ["online", "social media", "instagram", "facebook", "hacking", "cyber"]),
    Rule("Motor Vehicle Law", ["accident", "driving licence", "dl", "vehicle", "bike", "car", "traffic"]),
    Rule("Women's Rights", ["harassment", "dowry", "domestic violence", "stalking"]),
    Rule("Mental Health Law", ["mental health", "depression", "psychiatric", "mental hospital"])
  ]

  /** `any(word in text for word in keywords)`. */
  predicate MentionsAny(text: string, keywords: seq<string>)
    decreases |keywords|
  {
    keywords != [] && (Contains(text, keywords[0]) || MentionsAny(text, keywords[1..]))
  }

  /** Some keyword of the list occurs in the text. */
  lemma {:induction false} MentionsAnyIff(text: string, keywords: seq<string>)
    ensures MentionsAny(text, keywords) <==> exists k :: 0 <= k < |keywords| && Contains(text, keywords[k])
    decreases |keywords|
  {
    if keywords != [] {
      MentionsAnyIff(text, keywords[1..]);
      if exists k :: 0 <= k < |keywords| && Contains(text, keywords[k]) {
        var k :| 0 <= k < |keywords| && Contains(text, keywords[k]);
        if k > 0 {
          assert keywords[1..][k - 1] == keywords[k];
        }
      }
      if exists k :: 0 <= k < |keywords[1..]| && Contains(text, keywords[1..][k]) {
        var k :| 0 <= k < |keywords[1..]| && Contains(text, keywords[1..][k]);
        assert keywords[k + 1] == keywords[1..][k];
      }
    }
  }

  /** The category of the first rule that matches, or "Other". */
  function FirstMatch(text: string, rules: seq<Rule>): (category: string)
    ensures category == OTHER || exists k :: 0 <= k < |rules| && rules[k].category == category
    decreases |rules|
  {
    if rules == [] then OTHER
    else if MentionsAny(text, rules[0].keywords) then rules[0].category
    else FirstMatch(text, rules[1..])
  }

  /** `detect_category`. */
  function DetectCategory(message: string): string {
    FirstMatch(Lower(message), RULES)
  }

  /** Rule `k` decides when it matches and no earlier rule does. */
  lemma {:induction false} FirstMatchAt(text: string, rules: seq<Rule>, k: nat)
    requires k < |rules| && MentionsAny(text, rules[k].keywords)
    requires forall j :: 0 <= j < k ==> !MentionsAny(text, rules[j].keywords)
    ensures FirstMatch(text, rules) == rules[k].category
    decreases k
  {
    if k > 0 {
      assert !MentionsAny(text, rules[0].keywords);
      FirstMatchAt(text, rules[1..], k - 1);
    }
  }

  /** With no rule matching, the category is "Other". */
  lemma {:induction false} FirstMatchNone(text: string, rules: seq<Rule>)
    requires forall j :: 0 <= j < |rules| ==> !MentionsAny(text, rules[j].keywords)
    ensures FirstMatch(text, rules) == OTHER
    decreases |rules|
  {
    if rules != [] {
      assert !MentionsAny(text, rules[0].keywords);
      FirstMatchNone(text, rules[1..]);
    }
  }

  /** Conversely, a rule's category comes out only when that rule is the
      first to match, provided the categories are distinct and none is
      "Other". */
  lemma {:induction false} FirstMatchDecided(text: string, rules: seq<Rule>, k: nat)
    requires k < |rules|
    requires forall i, j :: 0 <= i < j < |rules| ==> rules[i].category != rules[j].category
    requires forall j :: 0 <= j < |rules| ==> rules[j].category != OTHER
    requires FirstMatch(text, rules) == rules[k].category
    ensures MentionsAny(text, rules[k].keywords)
    ensures forall j :: 0 <= j < k ==> !MentionsAny(text, rules[j].keywords)
    decreases k
  {
    if !MentionsAny(text, rules[0].keywords) {
      assert k > 0;
      var tail := rules[1..];
      assert tail[k - 1] == rules[k];
      FirstMatchDecided(text, tail, k - 1);
      forall j | 0 <= j < k
        ensures !MentionsAny(text, rules[j].keywords)
      {
        if j > 0 {
          assert tail[j - 1] == rules[j];
        }
      }
    }
  }

  /** The rules name distinct categories, none of them "Other". */
  lemma RulesDistinct()
    ensures forall i, j :: 0 <= i < j < |RULES| ==> RULES[i].category != RULES[j].category
    ensures forall j :: 0 <= j < |RULES| ==> RULES[j].category != OTHER
  {
  }

  /** A message gets the category of rule `k` exactly when one of that
      rule's keywords occurs in the lower-cased message and no keyword of
      an earlier rule does. */
  lemma DetectCategoryIff(message: string, k: nat)
    requires k < |RULES|
    ensures DetectCategory(message) == RULES[k].category <==>
      && MentionsAny(Lower(message), RULES[k].keywords)
      && forall j :: 0 <= j < k ==> !MentionsAny(Lower(message), RULES[j].keywords)
  {
    RulesDistinct();
    if DetectCategory(message) == RULES[k].category {
      FirstMatchDecided(Lower(message), RULES, k);
    }
    if MentionsAny(Lower(message), RULES[k].keywords)
       && forall j :: 0 <= j < k ==> !MentionsAny(Lower(message), RULES[j].keywords) {
      FirstMatchAt(Lower(message), RULES, k);
    }
  }

  /** "Other" exactly when no keyword of any rule occurs in the message. */
  lemma DetectOtherIff(message: string)
    ensures DetectCategory(message) == OTHER <==>
      forall j :: 0 <= j < |RULES| ==> !MentionsAny(Lower(message), RULES[j].keywords)
  {
    RulesDistinct();
    if exists j :: 0 <= j < |RULES| && MentionsAny(Lower(message), RULES[j].keywords) {
      var m :| 0 <= m < |RULES| && MentionsAny(Lower(message), RULES[m].keywords);
      var k := FirstMentioned(Lower(message), RULES, 0, m);
      FirstMatchAt(Lower(message), RULES, k);
    } else {
      FirstMatchNone(Lower(message), RULES);
    }
  }

  /** The first rule that matches, when rule `m` does: scanning up from
      `i`, past rules known not to match, finds it at or before `m`. */
  lemma {:induction false} FirstMentioned(text: string, rules: seq<Rule>, i: nat, m: nat) returns (k: nat)
    requires i <= m < |rules| && MentionsAny(text, rules[m].keywords)
    requires forall j :: 0 <= j < i ==> !MentionsAny(text, rules[j].keywords)
    ensures i <= k <= m && MentionsAny(text, rules[k].keywords)
    ensures forall j :: 0 <= j < k ==> !MentionsAny(text, rules[j].keywords)
    decreases m - i
  {
    if MentionsAny(text, rules[i].keywords) {
      k := i;
    } else {
      k := FirstMentioned(text, rules, i + 1, m);
    }
  }

  /** The classifier ignores letter case. */
  lemma DetectIgnoresCase(message: string)
    ensures DetectCategory(Lower(message)) == DetectCategory(message)
  {
    LowerIdempotent(message);
  }

  /** A family keyword decides the category whatever else the message says:
      the family rule is tried first. */
  lemma FamilyFirst(message: string, k: nat)
    requires k < |RULES[0].keywords| && Contains(Lower(message), RULES[0].keywords[k])
    ensures DetectCategory(message) == "Family Law"
  {
    MentionsAnyIff(Lower(message), RULES[0].keywords);
    FirstMatchAt(Lower(message), RULES, 0);
  }

  /** A keyword matches inside a longer word: a message whose lower-cased
      text contains "parent" mentions "rent", so unless a family keyword
      occurs it is filed under property and rent. */
  lemma RentInsideParent(message: string, i: nat)
    requires OccursAt(Lower(message), "parent", i)
    requires !MentionsAny(Lower(message), RULES[0].keywords)
    ensures DetectCategory(message) == "Property / Rent Law"
  {
    var text := Lower(message);
    assert "parent" == "pa" + "rent";
    OccursSplit(text, "pa", "rent", i);
    ContainsAt(text, "rent", i + 2);
    assert RULES[1].keywords[2] == "rent";
    MentionsAnyIff(text, RULES[1].keywords);
    FirstMatchAt(text, RULES, 1);
  }
}
