/**
 * Reading the category tag out of the model's answer
 * (`_extract_detected_category`): the search for
 * `Detected Legal Category:\s*([A-Za-z /'&-]+)` with IGNORECASE, the clean-up
 * of the captured text, and its normalisation through the alias table.
 *
 * Python's regular-expression engine is modelled for this one pattern: the
 * leftmost position where the literal matches and the rest of the pattern
 * can follow, with greedy `\s*` and greedy class repetition.
 */
module CategoryTag {
  import opened Wrappers
  import opened Text

  /** The literal part of the pattern. */
  const TAG: string := "Detected Legal Category:"

  /** The characters `strip("*_")` removes. */
  const MARKS: set<char> := {'*', '_'}

  /** The fallback category. */
  const OTHER: string := "Other"

  /** The literal matches at `i`: with IGNORECASE its letters match either
      ASCII case (no other character folds to one of them), `:` and ` `
      match themselves. */
  predicate TagAt(s: string, i: nat) {
    i + |TAG| <= |s| && forall k :: 0 <= k < |TAG| ==> LowerChar(s[i + k]) == LowerChar(TAG[k])
  }

  /** `[A-Za-z /'&-]` under IGNORECASE: the ASCII letters, the four marks and
      the space, and the four non-ASCII letters whose case folds into an
      ASCII letter (dotted capital I, dotless small i, long s, Kelvin sign). */
  predicate InClass(c: char) {
    || 'A' <= c <= 'Z' || 'a' <= c <= 'z'
    || c == ' ' || c == '/' || c == '\'' || c == '&' || c == '-'
    || c == '\U{130}' || c == '\U{131}' || c == '\U{17F}' || c == '\U{212A}'
  }

  /** The only whitespace character the class admits is the space. */
  lemma ClassSpace(c: char)
    requires InClass(c)
    ensures IsSpace(c) <==> c == ' '
  {
  }

  /** End of the run of whitespace starting at `j`: what greedy `\s*` takes. */
  function SpaceRunEnd(s: string, j: nat): (e: nat)
    requires j <= |s|
    ensures j <= e <= |s|
    decreases |s| - j
  {
    if j < |s| && IsSpace(s[j]) then SpaceRunEnd(s, j + 1) else j
  }

  /** End of the run of class characters starting at `j`: what greedy
      repetition of the class takes. */
  function ClassRunEnd(s: string, j: nat): (e: nat)
    requires j <= |s|
    ensures j <= e <= |s|
    decreases |s| - j
  {
    if j < |s| && InClass(s[j]) then ClassRunEnd(s, j + 1) else j
  }

  /** The whitespace run is maximal. */
  lemma {:induction false} SpaceRunShape(s: string, j: nat)
    requires j <= |s|
    ensures forall k :: j <= k < SpaceRunEnd(s, j) ==> IsSpace(s[k])
    ensures SpaceRunEnd(s, j) == |s| || !IsSpace(s[SpaceRunEnd(s, j)])
    decreases |s| - j
  {
    if j < |s| && IsSpace(s[j]) {
      SpaceRunShape(s, j + 1);
    }
  }

  /** The class run is maximal. */
  lemma {:induction false} ClassRunShape(s: string, j: nat)
    requires j <= |s|
    ensures forall k :: j <= k < ClassRunEnd(s, j) ==> InClass(s[k])
    ensures ClassRunEnd(s, j) == |s| || !InClass(s[ClassRunEnd(s, j)])
    decreases |s| - j
  {
    if j < |s| && InClass(s[j]) {
      ClassRunShape(s, j + 1);
    }
  }

  /** The group the pattern captures when matched at `i`, or `None` when it
      cannot match there. After the literal, `\s*` first takes the whole
      whitespace run; if a class character follows, the group is the maximal
      class run from there. Otherwise the engine gives back whitespace until
      a space is left for the class: the last space of the run, which is
      followed by a character outside the class, so the group is `" "`. With
      no space in the run there is no match at `i`. */
  function CaptureAt(s: string, i: nat): Option<string> {
    if !TagAt(s, i) then None
    else
      var j := i + |TAG|;
      var e := SpaceRunEnd(s, j);
      if e < |s| && InClass(s[e]) then Some(s[e..ClassRunEnd(s, e)])
      else if ' ' in s[j..e] then Some(" ")
      else None
  }

  /** The pattern matches at `i`. */
  predicate MatchesAt(s: string, i: nat) {
    CaptureAt(s, i).Some?
  }

  /** The leftmost position from `i` on where the pattern matches. */
  function LeftmostMatch(s: string, i: nat): (r: Option<nat>)
    ensures r.Some? ==> i <= r.value && MatchesAt(s, r.value)
    decreases |s| - i
  {
    if i + |TAG| > |s| then None
    else if MatchesAt(s, i) then Some(i)
    else LeftmostMatch(s, i + 1)
  }

  /** `pattern.search(s)` from position `i` on: the group captured at the
      leftmost position where the pattern matches. */
  function FindCapture(s: string, i: nat): Option<string> {
    match LeftmostMatch(s, i)
    case None => None
    case Some(p) => CaptureAt(s, p)
  }

  /** A captured group is a non-empty run of class characters found in the
      searched text. */
  ghost predicate CaptureShape(s: string, group: string) {
    && group != []
    && (forall k :: 0 <= k < |group| ==> InClass(group[k]))
    && exists p :: OccursAt(s, group, p)
  }

  lemma CaptureAtShape(s: string, i: nat)
    requires CaptureAt(s, i).Some?
    ensures CaptureShape(s, CaptureAt(s, i).value)
  {
    var j := i + |TAG|;
    var e := SpaceRunEnd(s, j);
    if e < |s| && InClass(s[e]) {
      ClassRunShape(s, e);
      assert OccursAt(s, s[e..ClassRunEnd(s, e)], e);
    } else {
      var p :| 0 <= p < e - j && s[j..e][p] == ' ';
      assert s[j + p..j + p + 1] == " ";
      assert OccursAt(s, " ", j + p);
    }
  }

  /** The search answers with the capture at the leftmost position where the
      pattern matches. */
  lemma {:induction false} FindLeftmost(s: string, i: nat, p: nat)
    requires i <= p && p + |TAG| <= |s| && MatchesAt(s, p)
    requires forall q :: i <= q < p ==> !MatchesAt(s, q)
    ensures LeftmostMatch(s, i) == Some(p)
    decreases p - i
  {
    if i < p {
      FindLeftmost(s, i + 1, p);
    }
  }

  /** Every group the search returns has the shape of a capture. */
  lemma FindShape(s: string, i: nat)
    requires FindCapture(s, i).Some?
    ensures CaptureShape(s, FindCapture(s, i).value)
  {
    CaptureAtShape(s, LeftmostMatch(s, i).value);
  }

  /** `str.casefold()` on a character a capture can hold, other than the
      dotted capital I: ASCII capitals, the long s and the Kelvin sign fold
      to ASCII small letters, the dotless small i to itself. */
  function FoldChar(c: char): char {
    if 'A' <= c <= 'Z' then (c as int + 32) as char
    else if c == '\U{17F}' then 's'
    else if c == '\U{212A}' then 'k'
    else c
  }

  /** `str.casefold()` on the text a capture can hold. The dotted capital I
      folds to two characters, `i` and a combining dot above; every other
      character folds to one, so text without it folds character by
      character. */
  function CaseFold(s: string): (r: string)
    ensures '\U{130}' !in s ==> |r| == |s|
    decreases |s|
  {
    if '\U{130}' !in s then seq(|s|, k requires 0 <= k < |s| => FoldChar(s[k]))
    else if s[0] == '\U{130}' then "i\U{307}" + CaseFold(s[1..])
    else [FoldChar(s[0])] + CaseFold(s[1..])
  }

  /** Without the three letters whose folding is special, case folding is
      ASCII lower-casing. */
  lemma CaseFoldPlain(s: string)
    requires forall k :: 0 <= k < |s| ==> s[k] != '\U{130}' && s[k] != '\U{17F}' && s[k] != '\U{212A}'
    ensures CaseFold(s) == Lower(s)
  {
    assert '\U{130}' !in s;
  }

  /** The table that maps a case-folded category to its canonical label. */
  const ALIASES: map<string, string> := map[
    "family law" := "Family Law",
    "criminal law" := "Criminal Law",
    "property / rent law" := "Property / Rent Law",
    "property law" := "Property / Rent Law",
    "labour / employment law" := "Labour / Employment Law",
    "employment law" := "Labour / Employment Law",
    "cyber law" := "Cyber Law",
    "motor vehicle law" := "Motor Vehicle Law",
    "women's rights" := "Women's Rights",
    "mental health law" := "Mental Health Law",
    "other" := "Other"
  ]

  /** The canonical labels. */
  const LABELS: set<string> := {
    "Family Law", "Criminal Law", "Property / Rent Law", "Labour / Employment Law",
    "Cyber Law", "Motor Vehicle Law", "Women's Rights", "Mental Health Law", "Other"
  }

  /** `table.get(key, fallback)`. */
  function Lookup(table: map<string, string>, key: string, fallback: string): string {
    if key in table then table[key] else fallback
  }

  /** The clean-up of a captured group: trimmed of whitespace and of `*`
      and `_`, then looked up case-folded in the table; a blank remainder
      becomes "Other" and an unknown one is kept as written. */
  function Normalise(table: map<string, string>, group: string): string {
    var raw := StripChars(Strip(group), MARKS);
    Lookup(table, CaseFold(raw), if Strip(raw) == [] then OTHER else Strip(raw))
  }

  /** The extraction for a given alias table: "Other" when the pattern does
      not match, the cleaned-up capture otherwise. */
  function ExtractWith(table: map<string, string>, answer: string): string {
    match FindCapture(answer, 0)
    case None => OTHER
    case Some(group) => Normalise(table, group)
  }

  /** `_extract_detected_category`, with its own alias table. */
  function ExtractCategory(answer: string): string {
    ExtractWith(ALIASES, answer)
  }

  /** A label read back through the table is unchanged. */
  lemma LabelFixpoint(table: map<string, string>, l: string, key: string)
    requires key in table && table[key] == l && Lower(l) == key
    requires forall k :: 0 <= k < |l| ==> l[k] != '\U{130}' && l[k] != '\U{17F}' && l[k] != '\U{212A}'
    ensures Lookup(table, CaseFold(l), l) == l
  {
    CaseFoldPlain(l);
  }

  /** Every alias names a canonical label. */
  lemma AliasesCanonical()
    ensures forall k :: k in ALIASES ==> ALIASES[k] in LABELS
  {
  }

  /** A category kept as written: a non-empty run of class characters,
      trimmed of spaces, that the table does not know. */
  predicate Verbatim(table: map<string, string>, category: string) {
    && category != []
    && category[0] != ' ' && category[|category| - 1] != ' '
    && (forall k :: 0 <= k < |category| ==> InClass(category[k]))
    && CaseFold(category) !in table
  }

  /** Cleaning up a group of class characters gives a value of the table,
      "Other", or the group trimmed of whitespace, kept verbatim, which
      occurs inside the group. */
  lemma NormaliseShape(table: map<string, string>, group: string)
    requires forall k :: 0 <= k < |group| ==> InClass(group[k])
    ensures var category := Normalise(table, group);
      || category == OTHER
      || (exists k :: k in table && table[k] == category)
      || (Verbatim(table, category) && category == Strip(group) && exists i :: OccursAt(group, category, i))
  {
    var raw := Strip(group);
    var i := StripOffset(group);
    assert forall k :: 0 <= k < |raw| ==> raw[k] == group[i + k];
    NoMarks(raw);
    StripIdempotent(group);
    if raw != [] && CaseFold(raw) !in table {
      assert OccursAt(group, raw, i);
    }
  }

  /** The clean-up of a group captured from `s` gives "Other", a value of
      the table, or the trimmed group kept verbatim, which occurs in `s`. */
  lemma NormaliseCaptured(table: map<string, string>, s: string, group: string)
    requires CaptureShape(s, group)
    ensures var category := Normalise(table, group);
      || category == OTHER
      || (exists k :: k in table && table[k] == category)
      || (Verbatim(table, category) && category == Strip(group) && Contains(s, category))
  {
    var p :| OccursAt(s, group, p);
    NormaliseShape(table, group);
    var category := Normalise(table, group);
    if exists i :: OccursAt(group, category, i) {
      var i :| OccursAt(group, category, i);
      OccursWithin(s, group, category, p, i);
      ContainsAt(s, category, p + i);
    }
  }

  /** For any table, the category is "Other", a value of the table, or else a
      verbatim category that occurs in the answer. */
  lemma ExtractedShapeWith(table: map<string, string>, answer: string)
    ensures var category := ExtractWith(table, answer);
      || category == OTHER
      || (exists k :: k in table && table[k] == category)
      || (Verbatim(table, category) && Contains(answer, category))
  {
    if FindCapture(answer, 0).Some? {
      FindShape(answer, 0);
      NormaliseCaptured(table, answer, FindCapture(answer, 0).value);
    }
  }

  /** The category is a canonical label, or else a verbatim category that
      occurs in the answer. */
  lemma ExtractedShape(answer: string)
    ensures var category := ExtractCategory(answer);
      category in LABELS || (Verbatim(ALIASES, category) && Contains(answer, category))
  {
    ExtractedShapeWith(ALIASES, answer);
    AliasesCanonical();
  }

  /** An answer without the literal is filed under "Other". */
  lemma NoTagGivesOther(answer: string)
    requires forall i :: 0 <= i ==> !TagAt(answer, i)
    ensures ExtractCategory(answer) == OTHER
  {
  }

  /** A run of class characters has nothing for `strip("*_")` to remove. */
  lemma NoMarks(v: string)
    requires forall k :: 0 <= k < |v| ==> InClass(v[k])
    ensures StripChars(v, MARKS) == v
  {
    forall k | 0 <= k < |v| ensures v[k] !in MARKS { }
  }

  /** After a space, a run `v` of class characters that starts with a
      non-space and ends where the class does is what the pattern captures
      after its literal. */
  lemma RunsAfterSpace(s: string, j: nat, v: string)
    requires j < |s| && s[j] == ' ' && OccursAt(s, v, j + 1)
    requires v != [] && v[0] != ' '
    requires forall k :: 0 <= k < |v| ==> InClass(v[k])
    requires var f := j + 1 + |v|; f == |s| || !InClass(s[f])
    ensures SpaceRunEnd(s, j) == j + 1
    ensures ClassRunEnd(s, j + 1) == j + 1 + |v|
  {
    assert s[j + 1] == v[0];
    ClassSpace(v[0]);
    assert SpaceRunEnd(s, j + 1) == j + 1;
    forall k | j + 1 <= k < j + 1 + |v| ensures InClass(s[k]) {
      assert s[k] == v[k - j - 1];
    }
    ClassRunFrom(s, j + 1, j + 1 + |v|);
  }

  /** The capture at a position holding the literal, a space and a class
      run `v`. */
  lemma CaptureAtTagged(s: string, i: nat, v: string)
    requires TagAt(s, i)
    requires var j := i + |TAG|; j < |s| && s[j] == ' ' && OccursAt(s, v, j + 1)
    requires v != [] && v[0] != ' '
    requires forall k :: 0 <= k < |v| ==> InClass(v[k])
    requires var f := i + |TAG| + 1 + |v|; f == |s| || !InClass(s[f])
    ensures CaptureAt(s, i) == Some(v)
  {
    var j := i + |TAG|;
    RunsAfterSpace(s, j, v);
    assert s[j + 1..j + 1 + |v|] == v;
  }

  /** The tag written as the guidelines ask, `Detected Legal Category: v`
      followed by a character outside the class (or nothing), is captured as
      `v`. */
  lemma CaptureTagged(answer: string, i: nat, v: string)
    requires OccursAt(answer, TAG + " " + v, i)
    requires forall q :: 0 <= q < i ==> !TagAt(answer, q)
    requires v != [] && v[0] != ' '
    requires forall k :: 0 <= k < |v| ==> InClass(v[k])
    requires var e := i + |TAG| + 1 + |v|; e == |answer| || !InClass(answer[e])
    ensures FindCapture(answer, 0) == Some(v)
  {
    OccursSplit(answer, TAG + " ", v, i);
    OccursSplit(answer, TAG, " ", i);
    assert answer[i + |TAG|] == answer[i + |TAG|..i + |TAG| + 1][0];
    CaptureAtTagged(answer, i, v);
    FindLeftmost(answer, 0, i);
  }

  /** A value already trimmed is looked up as it stands. */
  lemma NormaliseTrimmed(table: map<string, string>, v: string)
    requires v != [] && v[0] != ' ' && v[|v| - 1] != ' '
    requires forall k :: 0 <= k < |v| ==> InClass(v[k])
    ensures Normalise(table, v) == Lookup(table, CaseFold(v), v)
  {
    ClassSpace(v[0]);
    ClassSpace(v[|v| - 1]);
    StripTrimmed(v);
    NoMarks(v);
  }

  /** The tag written as the guidelines ask is read as the table's entry
      for its value, or as the value itself when the table has none. */
  lemma TaggedValue(table: map<string, string>, answer: string, i: nat, v: string)
    requires OccursAt(answer, TAG + " " + v, i)
    requires forall q :: 0 <= q < i ==> !TagAt(answer, q)
    requires v != [] && v[0] != ' ' && v[|v| - 1] != ' '
    requires forall k :: 0 <= k < |v| ==> InClass(v[k])
    requires var e := i + |TAG| + 1 + |v|; e == |answer| || !InClass(answer[e])
    ensures ExtractWith(table, answer) == Lookup(table, CaseFold(v), v)
  {
    CaptureTagged(answer, i, v);
    NormaliseTrimmed(table, v);
  }

  /** The class run from `j` ends at `f` when `[j, f)` holds class
      characters and `f` does not. */
  lemma {:induction false} ClassRunFrom(s: string, j: nat, f: nat)
    requires j <= f <= |s|
    requires forall k :: j <= k < f ==> InClass(s[k])
    requires f == |s| || !InClass(s[f])
    ensures ClassRunEnd(s, j) == f
    decreases f - j
  {
    if j < f {
      ClassRunFrom(s, j + 1, f);
    }
  }

  /** The label the guidelines spell with a typographic apostrophe (U+2019)
      is cut short before it: the class stops there, so for any table
      without an entry for "women" the category comes out as "Women". */
  lemma CurlyApostropheWith(table: map<string, string>, answer: string, i: nat)
    requires "women" !in table
    requires OccursAt(answer, TAG + " Women\U{2019}s Rights", i)
    requires forall q :: 0 <= q < i ==> !TagAt(answer, q)
    ensures ExtractWith(table, answer) == "Women"
  {
    var tagged := TAG + " " + "Women";
    assert TAG + " Women\U{2019}s Rights" == tagged + "\U{2019}s Rights";
    OccursSplit(answer, tagged, "\U{2019}s Rights", i);
    assert answer[i + |tagged|] == '\U{2019}';
    WomenInClass();
    TaggedValue(table, answer, i, "Women");
  }

  lemma WomenInClass()
    ensures var v := "Women";
      && v != [] && v[0] != ' ' && v[|v| - 1] != ' '
      && (forall k :: 0 <= k < |v| ==> InClass(v[k]))
      && CaseFold(v) == "women"
  {
  }

  /** The extractor of the source turns the prescribed tag line into
      "Women", which is not a category. */
  lemma CurlyApostropheTruncates(answer: string, i: nat)
    requires OccursAt(answer, TAG + " Women\U{2019}s Rights", i)
    requires forall q :: 0 <= q < i ==> !TagAt(answer, q)
    ensures ExtractCategory(answer) == "Women"
    ensures ExtractCategory(answer) !in LABELS
  {
    WomenUnknown();
    CurlyApostropheWith(ALIASES, answer, i);
  }

  /** "women" is no key of the table and "Women" no label. */
  lemma WomenUnknown()
    ensures "women" !in ALIASES && "Women" !in LABELS
  {
    assert "women"[0] == 'w' && "Women"[0] == 'W';
  }

  /** The extractor with the typographic apostrophe read as `'`, so that the
      label the guidelines prescribe is recognised. */
  function ExtractCategoryFixed(answer: string): string {
    ExtractCategory(ReplaceChar(answer, '\U{2019}', '\''))
  }

  /** On answers without a typographic apostrophe the corrected extractor
      agrees with the original. */
  lemma FixedAgrees(answer: string)
    requires '\U{2019}' !in answer
    ensures ExtractCategoryFixed(answer) == ExtractCategory(answer)
  {
    assert ReplaceChar(answer, '\U{2019}', '\'') == answer;
  }

  /** The literal has no apostrophe of either kind, so reading one for the
      other creates or removes no match of it. */
  lemma TagAtReplaced(s: string, q: nat)
    requires TagAt(ReplaceChar(s, '\U{2019}', '\''), q)
    ensures TagAt(s, q)
  {
    var t := ReplaceChar(s, '\U{2019}', '\'');
    forall k | 0 <= k < |TAG| ensures LowerChar(s[q + k]) == LowerChar(TAG[k]) {
      assert TAG[k] != '\'';
    }
  }

  /** The tag line as the guidelines spell it, with the apostrophe read as
      `'`. */
  lemma TagLineReplaced()
    ensures ReplaceChar(TAG + " Women\U{2019}s Rights", '\U{2019}', '\'') == TAG + " " + "Women's Rights"
  {
    ReplaceCharAppend(TAG, " Women\U{2019}s Rights", '\U{2019}', '\'');
    assert ReplaceChar(TAG, '\U{2019}', '\'') == TAG;
  }

  /** The canonical label is a trimmed run of class characters, none of
      them the dotted capital I. */
  lemma WomensRightsInClass()
    ensures var v := "Women's Rights";
      && v != [] && v[0] != ' ' && v[|v| - 1] != ' '
      && (forall k :: 0 <= k < |v| ==> InClass(v[k]) && v[k] != '\U{130}')
  {
    var v := "Women's Rights";
    forall k | 0 <= k < |v| ensures InClass(v[k]) && v[k] != '\U{130}' {
    }
  }

  /** The canonical label folds to its key. */
  lemma WomensRightsFolds()
    ensures CaseFold("Women's Rights") == "women's rights"
  {
    WomensRightsInClass();
    var folded := CaseFold("Women's Rights");
    forall k | 0 <= k < 14 ensures folded[k] == "women's rights"[k] {
    }
  }

  /** Reading the apostrophe as `'` introduces no earlier match. */
  lemma NoTagBeforeReplaced(answer: string, i: nat)
    requires forall q :: 0 <= q < i ==> !TagAt(answer, q)
    ensures forall q :: 0 <= q < i ==> !TagAt(ReplaceChar(answer, '\U{2019}', '\''), q)
  {
    forall q | 0 <= q < i ensures !TagAt(ReplaceChar(answer, '\U{2019}', '\''), q) {
      if TagAt(ReplaceChar(answer, '\U{2019}', '\''), q) {
        TagAtReplaced(answer, q);
      }
    }
  }

  /** The tag line with the typographic apostrophe becomes the tag line with
      the canonical label, and what follows it keeps out of the class. */
  lemma TagLineFixed(answer: string, i: nat)
    requires OccursAt(answer, TAG + " Women\U{2019}s Rights", i)
    requires var e := i + |TAG| + 15; e == |answer| || (!InClass(answer[e]) && answer[e] != '\U{2019}')
    ensures var fixed := ReplaceChar(answer, '\U{2019}', '\'');
      && OccursAt(fixed, TAG + " " + "Women's Rights", i)
      && var e := i + |TAG| + 15; e == |fixed| || !InClass(fixed[e])
  {
    ReplaceCharOccurs(answer, TAG + " Women\U{2019}s Rights", i, '\U{2019}', '\'');
    TagLineReplaced();
  }

  /** For any table that files "women's rights" under its label, the
      corrected reading of the tag line yields that label. */
  lemma FixedReadsWith(table: map<string, string>, answer: string, i: nat)
    requires "women's rights" in table && table["women's rights"] == "Women's Rights"
    requires OccursAt(answer, TAG + " Women\U{2019}s Rights", i)
    requires forall q :: 0 <= q < i ==> !TagAt(answer, q)
    requires var e := i + |TAG| + 15; e == |answer| || (!InClass(answer[e]) && answer[e] != '\U{2019}')
    ensures ExtractWith(table, ReplaceChar(answer, '\U{2019}', '\'')) == "Women's Rights"
  {
    var fixed := ReplaceChar(answer, '\U{2019}', '\'');
    TagLineFixed(answer, i);
    NoTagBeforeReplaced(answer, i);
    WomensRightsInClass();
    WomensRightsFolds();
    TaggedValue(table, fixed, i, "Women's Rights");
  }

  /** The corrected extractor reads the label as the guidelines spell it. */
  lemma FixedReadsCurlyApostrophe(answer: string, i: nat)
    requires OccursAt(answer, TAG + " Women\U{2019}s Rights", i)
    requires forall q :: 0 <= q < i ==> !TagAt(answer, q)
    requires var e := i + |TAG| + 15; e == |answer| || (!InClass(answer[e]) && answer[e] != '\U{2019}')
    ensures ExtractCategoryFixed(answer) == "Women's Rights"
  {
    FixedReadsWith(ALIASES, answer, i);
  }
}
