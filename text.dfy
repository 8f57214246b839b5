/**
 * The pieces of Python's `str` behaviour the backend relies on: `isspace`,
 * `strip`, `lower`, `split()`, slicing with `[:n]`, and the substring test
 * `needle in haystack`.
 */
module Text {

  lemma AppendAssoc<T>(a: seq<T>, b: seq<T>, c: seq<T>)
    ensures (a + b) + c == a + (b + c)
  {
  }

  /** Python's `str.isspace()` for one character: the complete set of Unicode
      whitespace characters that `strip()`, `split()` and the regex class `\s`
      treat as whitespace. */
  predicate IsSpace(c: char) {
    || c == ' '
    || '\t' <= c <= '\r'
    || '\U{1c}' <= c <= '\U{1f}'
    || c == '\U{85}' || c == '\U{a0}' || c == '\U{1680}'
    || '\U{2000}' <= c <= '\U{200a}'
    || c == '\U{2028}' || c == '\U{2029}' || c == '\U{202f}'
    || c == '\U{205f}' || c == '\U{3000}'
  }

  /** `not s.strip()`: the string is empty or consists of whitespace only. */
  predicate Blank(s: string) {
    forall i :: 0 <= i < |s| ==> IsSpace(s[i])
  }

  /** Python's `s.strip()`: leading and trailing whitespace removed. */
  function Strip(s: string): string
    decreases |s|
  {
    if s != [] && IsSpace(s[0]) then Strip(s[1..])
    else if s != [] && IsSpace(s[|s| - 1]) then Strip(s[..|s| - 1])
    else s
  }

  /** `r` is `s` with exactly its surrounding whitespace removed, `r` being
      found at offset `i` of `s`. */
  predicate StrippedAt(s: string, r: string, i: int) {
    && OccursAt(s, r, i)
    && (forall j :: 0 <= j < i ==> IsSpace(s[j]))
    && (forall j :: i + |r| <= j < |s| ==> IsSpace(s[j]))
    && (r != [] ==> !IsSpace(r[0]) && !IsSpace(r[|r| - 1]))
  }

  lemma SliceOfDrop<T>(s: seq<T>, a: nat, b: nat)
    requires a <= b < |s|
    ensures s[1..][a..b] == s[a + 1..b + 1]
  {
  }

  /** `strip()` removes exactly the surrounding whitespace: the result is the
      slice of `s` at offset `i`, everything outside it is whitespace, and it
      neither starts nor ends with whitespace. */
  lemma {:induction false} StripOffset(s: string) returns (i: int)
    ensures StrippedAt(s, Strip(s), i)
    decreases |s|
  {
    var r := Strip(s);
    if s != [] && IsSpace(s[0]) {
      assert r == Strip(s[1..]);
      var k := StripOffset(s[1..]);
      assert OccursAt(s[1..], r, k);
      SliceOfDrop(s, k, k + |r|);
      forall j | 0 < j < k + 1 ensures IsSpace(s[j]) {
        assert s[j] == s[1..][j - 1];
      }
      forall j | k + 1 + |r| <= j < |s| ensures IsSpace(s[j]) {
        assert s[j] == s[1..][j - 1];
      }
      i := k + 1;
    } else if s != [] && IsSpace(s[|s| - 1]) {
      var p := s[..|s| - 1];
      assert r == Strip(p);
      i := StripOffset(p);
      assert OccursAt(p, r, i);
      assert s[i..i + |r|] == p[i..i + |r|];
      forall j | i + |r| <= j < |s| - 1 ensures IsSpace(s[j]) {
        assert s[j] == p[j];
      }
    } else {
      i := 0;
    }
  }

  /** The stripped text is no longer than `s`, and it is empty exactly when
      `s` is blank. */
  lemma StripBlank(s: string)
    ensures |Strip(s)| <= |s|
    ensures Strip(s) == [] <==> Blank(s)
  {
    var i := StripOffset(s);
    var r := Strip(s);
    if r != [] {
      assert r[0] == s[i];
    }
  }

  /** A string with no surrounding whitespace is its own strip. */
  lemma StripTrimmed(s: string)
    requires s != [] ==> !IsSpace(s[0]) && !IsSpace(s[|s| - 1])
    ensures Strip(s) == s
  {
  }

  lemma StripIdempotent(s: string)
    ensures Strip(Strip(s)) == Strip(s)
  {
    var i := StripOffset(s);
  }

  /** Python's `s.strip(chars)` for an explicit character set. */
  function StripChars(s: string, chars: set<char>): (r: string)
    ensures |r| <= |s|
    ensures (forall i :: 0 <= i < |s| ==> s[i] !in chars) ==> r == s
    decreases |s|
  {
    if s != [] && s[0] in chars then StripChars(s[1..], chars)
    else if s != [] && s[|s| - 1] in chars then StripChars(s[..|s| - 1], chars)
    else s
  }

  /** `str.lower()` on one character; only ASCII letters are case-mapped. */
  function LowerChar(c: char): char {
    if 'A' <= c <= 'Z' then (c as int + 32) as char else c
  }

  /** Python's `s.lower()`, restricted to ASCII case mapping. */
  function Lower(s: string): (r: string)
    ensures |r| == |s|
    ensures forall i :: 0 <= i < |s| ==> r[i] == LowerChar(s[i])
  {
    seq(|s|, i requires 0 <= i < |s| => LowerChar(s[i]))
  }

  lemma LowerAppend(a: string, b: string)
    ensures Lower(a + b) == Lower(a) + Lower(b)
  {
  }

  /** Lower-casing changes nothing exactly when there is no ASCII capital. */
  lemma LowerFixes(s: string)
    ensures Lower(s) == s <==> forall i :: 0 <= i < |s| ==> !('A' <= s[i] <= 'Z')
  {
    if Lower(s) == s {
      forall i | 0 <= i < |s| ensures !('A' <= s[i] <= 'Z') {
        assert Lower(s)[i] == s[i];
      }
    }
  }

  lemma LowerIdempotent(s: string)
    ensures Lower(Lower(s)) == Lower(s)
  {
  }

  /** `s.replace(from, to)` for single characters. */
  function ReplaceChar(s: string, from: char, to: char): (r: string)
    ensures |r| == |s|
    ensures forall i :: 0 <= i < |s| ==> r[i] == (if s[i] == from then to else s[i])
  {
    seq(|s|, i requires 0 <= i < |s| => if s[i] == from then to else s[i])
  }

  /** After the replacement `from` no longer occurs, and nothing changed
      exactly when it did not occur before. */
  lemma ReplaceCharRemoves(s: string, from: char, to: char)
    requires from != to
    ensures from !in ReplaceChar(s, from, to)
    ensures ReplaceChar(s, from, to) == s <==> from !in s
  {
    var r := ReplaceChar(s, from, to);
    if from in s {
      var i :| 0 <= i < |s| && s[i] == from;
      assert r[i] != s[i];
    }
  }

  lemma ReplaceCharAppend(a: string, b: string, from: char, to: char)
    ensures ReplaceChar(a + b, from, to) == ReplaceChar(a, from, to) + ReplaceChar(b, from, to)
  {
  }

  lemma ReplaceCharOccurs(s: string, a: string, i: int, from: char, to: char)
    requires OccursAt(s, a, i)
    ensures OccursAt(ReplaceChar(s, from, to), ReplaceChar(a, from, to), i)
  {
    assert ReplaceChar(s, from, to)[i..i + |a|] == ReplaceChar(s[i..i + |a|], from, to);
  }

  /** Python's `s[:n]` for `n >= 0`. */
  function Take(s: string, n: nat): (r: string)
    ensures |r| == if |s| <= n then |s| else n
    ensures r == s[..|r|]
  {
    if |s| <= n then s else s[..n]
  }

  predicate StartsWith(s: string, prefix: string) {
    |prefix| <= |s| && s[..|prefix|] == prefix
  }

  /** `needle` occurs in `s` at position `i`. */
  predicate OccursAt(s: string, needle: string, i: int) {
    0 <= i && i + |needle| <= |s| && s[i..i + |needle|] == needle
  }

  /** Python's `needle in s`: the empty needle occurs in every string. */
  predicate Contains(s: string, needle: string)
    decreases |s|
  {
    StartsWith(s, needle) || (s != [] && Contains(s[1..], needle))
  }

  /** Where the recursive test succeeds, the needle occurs at some position. */
  lemma {:induction false} ContainsWitness(s: string, needle: string) returns (i: int)
    requires Contains(s, needle)
    ensures OccursAt(s, needle, i)
    decreases |s|
  {
    if StartsWith(s, needle) {
      i := 0;
    } else {
      var j := ContainsWitness(s[1..], needle);
      assert s[1..][j..j + |needle|] == s[j + 1..j + 1 + |needle|];
      i := j + 1;
    }
  }

  /** An occurrence at any position makes the recursive test succeed. */
  lemma {:induction false} ContainsAt(s: string, needle: string, i: int)
    requires OccursAt(s, needle, i)
    ensures Contains(s, needle)
    decreases i
  {
    if i > 0 {
      assert s[1..][i - 1..i - 1 + |needle|] == s[i..i + |needle|];
      ContainsAt(s[1..], needle, i - 1);
    }
  }

  /** The recursive test agrees with the positional definition of a substring. */
  lemma ContainsIff(s: string, needle: string)
    ensures Contains(s, needle) <==> exists i :: OccursAt(s, needle, i)
  {
    if Contains(s, needle) {
      var i := ContainsWitness(s, needle);
    }
    forall i | OccursAt(s, needle, i) ensures Contains(s, needle) {
      ContainsAt(s, needle, i);
    }
  }

  lemma OccursPrefix(a: string, b: string)
    ensures OccursAt(a + b, a, 0)
  {
    assert (a + b)[..|a|] == a;
  }

  /** An occurrence inside an occurrence is an occurrence. */
  lemma OccursWithin(s: string, a: string, b: string, p: int, i: int)
    requires OccursAt(s, a, p) && OccursAt(a, b, i)
    ensures OccursAt(s, b, p + i)
  {
    forall k | 0 <= k < |b|
      ensures s[p + i + k] == b[k]
    {
      assert s[p + i + k] == s[p..p + |a|][i + k];
      assert a[i + k] == a[i..i + |b|][k];
    }
  }

  /** The parts of a concatenation occur side by side. */
  lemma OccursSplit(s: string, a: string, b: string, i: int)
    requires OccursAt(s, a + b, i)
    ensures OccursAt(s, a, i) && OccursAt(s, b, i + |a|)
  {
    assert s[i..i + |a|] == (a + b)[..|a|];
    assert s[i + |a|..i + |a| + |b|] == (a + b)[|a|..];
  }

  /** An occurrence survives text added on either side. */
  lemma ContainsInAppend(a: string, b: string, needle: string)
    ensures Contains(a, needle) ==> Contains(a + b, needle)
    ensures Contains(b, needle) ==> Contains(a + b, needle)
  {
    ContainsIff(a, needle);
    ContainsIff(b, needle);
    if Contains(a, needle) {
      var p :| OccursAt(a, needle, p);
      assert (a + b)[p..p + |needle|] == a[p..p + |needle|];
      ContainsAt(a + b, needle, p);
    }
    if Contains(b, needle) {
      var p :| OccursAt(b, needle, p);
      assert (a + b)[|a| + p..|a| + p + |needle|] == b[p..p + |needle|];
      ContainsAt(a + b, needle, |a| + p);
    }
  }

  /** A needle with a character that `s` lacks does not occur in `s`. */
  lemma NotContainsMissingChar(s: string, needle: string, c: char)
    requires c in needle && c !in s
    ensures !Contains(s, needle)
  {
    ContainsIff(s, needle);
  }

  /** The word list `cur` is holding, if any. */
  function Flush(word: string): seq<string> {
    if word == [] then [] else [word]
  }

  /** Python's `s.split()` with no separator, scanning `s` while the current
      word is accumulated in `word`. */
  function SplitFrom(s: string, word: string): seq<string>
    decreases |s|
  {
    if s == [] then Flush(word)
    else if IsSpace(s[0]) then Flush(word) + SplitFrom(s[1..], [])
    else SplitFrom(s[1..], word + [s[0]])
  }

  /** Python's `s.split()`: the maximal runs of non-whitespace characters. */
  function Split(s: string): seq<string> {
    SplitFrom(s, [])
  }

  predicate IsWord(w: string) {
    w != [] && forall i :: 0 <= i < |w| ==> !IsSpace(w[i])
  }

  /** Every word `split()` yields is non-empty, free of whitespace, and occurs
      in the split string. */
  lemma {:induction false} SplitFromWords(s: string, word: string, pre: string)
    requires forall i :: 0 <= i < |word| ==> !IsSpace(word[i])
    requires |word| <= |pre| && pre[|pre| - |word|..] == word
    ensures forall w :: w in SplitFrom(s, word) ==> IsWord(w) && Contains(pre + s, w)
    decreases |s|
  {
    var full := pre + s;
    assert OccursAt(full, word, |pre| - |word|);
    if word != [] {
      ContainsAt(full, word, |pre| - |word|);
    }
    if s == [] {
    } else if IsSpace(s[0]) {
      SplitFromWords(s[1..], [], pre + [s[0]]);
      assert pre + [s[0]] + s[1..] == full;
    } else {
      var pre' := pre + [s[0]];
      var word' := word + [s[0]];
      assert pre'[|pre'| - |word'|..] == word';
      SplitFromWords(s[1..], word', pre');
      assert pre' + s[1..] == full;
    }
  }

  lemma SplitWords(s: string)
    ensures forall w :: w in Split(s) ==> IsWord(w) && Contains(s, w)
  {
    SplitFromWords(s, [], []);
    assert [] + s == s;
  }

  /** Splitting at a whitespace separator splits each side independently. */
  lemma {:induction false} SplitFromAppend(a: string, sep: char, b: string, word: string)
    requires IsSpace(sep)
    ensures SplitFrom(a + [sep] + b, word) == SplitFrom(a, word) + SplitFrom(b, [])
    decreases |a|
  {
    var s := a + [sep] + b;
    if a == [] {
      assert s[1..] == b;
    } else {
      assert s[0] == a[0] && s[1..] == a[1..] + [sep] + b;
      if IsSpace(a[0]) {
        SplitFromAppend(a[1..], sep, b, []);
      } else {
        SplitFromAppend(a[1..], sep, b, word + [a[0]]);
      }
    }
  }

  lemma SplitAppend(a: string, sep: char, b: string)
    requires IsSpace(sep)
    ensures Split(a + [sep] + b) == Split(a) + Split(b)
  {
    SplitFromAppend(a, sep, b, []);
  }
}
