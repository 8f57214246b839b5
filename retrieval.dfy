/**
 * Retrieval in the RAG chatbot: the lexical keyword scorer
 * (`simple_keyword_score`) and `_search`, which turns the vector-index hits
 * into candidates and re-ranks them by keyword score, then by similarity.
 *
 * The vector search itself is outside the model: its result arrives as the
 * list of hits, each a metadata position and a similarity that is used only
 * as an ordering key.
 */
module Retrieval {
  import opened Text
  import opened IndexBuilder

  /** The small stopword list of the keyword scorer. */
  const STOPWORDS: set<string> := {
    "the", "is", "are", "a", "an", "of", "and", "to", "in", "under",
    "for", "on", "with", "this", "that", "it", "as", "by", "or", "be",
    "from", "at", "about", "into", "than", "then", "so", "such"
  }

  /** The tokens kept for scoring: the non-empty ones that are not stopwords. */
  function KeepTokens(ts: seq<string>): (kept: seq<string>)
    ensures |kept| <= |ts|
    ensures forall t :: t in kept ==> t in ts && t != [] && t !in STOPWORDS
  {
    if ts == [] then []
    else (if ts[0] != [] && ts[0] !in STOPWORDS then [ts[0]] else []) + KeepTokens(ts[1..])
  }

  /** The query lower-cased, with `,` and `.` turned into spaces. */
  function QueryText(query: string): string {
    ReplaceChar(ReplaceChar(Lower(query), ',', ' '), '.', ' ')
  }

  /** The scoring tokens of a query. */
  function QueryTokens(query: string): seq<string> {
    KeepTokens(Split(QueryText(query)))
  }

  /** How many of the tokens occur in `hay`, repeats counted. */
  function MatchCount(tokens: seq<string>, hay: string): (count: nat)
    ensures count <= |tokens|
    decreases |tokens|
  {
    if tokens == [] then 0
    else
      MatchCount(tokens[..|tokens| - 1], hay) +
      (if Contains(hay, tokens[|tokens| - 1]) then 1 else 0)
  }

  /** The value `simple_keyword_score(text, query)` returns. */
  function KeywordScore(text: string, query: string): nat {
    MatchCount(QueryTokens(query), Lower(text))
  }

  /** The loop of `simple_keyword_score`. */
  method SimpleKeywordScore(text: string, query: string) returns (score: nat)
    ensures score == KeywordScore(text, query)
  {
    var textL := Lower(text);
    var tokens := QueryTokens(query);
    score := 0;
    for k := 0 to |tokens|
      invariant score == MatchCount(tokens[..k], textL)
    {
      MatchCountSnoc(tokens, k, textL);
      if Contains(textL, tokens[k]) {
        score := score + 1;
      }
    }
    assert tokens[..|tokens|] == tokens;
  }

  /** Counting one more token of the list adds one exactly when it occurs. */
  lemma MatchCountSnoc(tokens: seq<string>, k: nat, hay: string)
    requires k < |tokens|
    ensures MatchCount(tokens[..k + 1], hay) ==
      MatchCount(tokens[..k], hay) + (if Contains(hay, tokens[k]) then 1 else 0)
  {
    assert tokens[..k + 1][..k] == tokens[..k];
  }

  /** The score lies between 0 and the number of scoring query tokens. */
  lemma ScoreBounds(text: string, query: string)
    ensures 0 <= KeywordScore(text, query) <= |QueryTokens(query)|
  {
  }

  /** Every scoring token is a non-empty word of the lower-cased query, free of
      whitespace, commas, full stops and upper-case ASCII letters, and not a
      stopword. */
  lemma QueryTokensShape(query: string)
    ensures forall t :: t in QueryTokens(query) ==>
      IsWord(t) && t !in STOPWORDS && Contains(QueryText(query), t) &&
      forall i :: 0 <= i < |t| ==> t[i] != ',' && t[i] != '.' && !('A' <= t[i] <= 'Z')
  {
    var qt := QueryText(query);
    SplitWords(qt);
    forall t | t in QueryTokens(query)
      ensures forall i :: 0 <= i < |t| ==> t[i] != ',' && t[i] != '.' && !('A' <= t[i] <= 'Z')
    {
      ContainsIff(qt, t);
      var p :| OccursAt(qt, t, p);
      forall i | 0 <= i < |t| ensures t[i] != ',' && t[i] != '.' && !('A' <= t[i] <= 'Z') {
        assert t[i] == qt[p + i];
      }
    }
  }

  lemma {:induction false} KeepTokensAppend(a: seq<string>, b: seq<string>)
    ensures KeepTokens(a + b) == KeepTokens(a) + KeepTokens(b)
    decreases |a|
  {
    if a == [] {
      assert a + b == b;
    } else {
      assert (a + b)[1..] == a[1..] + b;
      KeepTokensAppend(a[1..], b);
      var head := if a[0] != [] && a[0] !in STOPWORDS then [a[0]] else [];
      AppendAssoc(head, KeepTokens(a[1..]), KeepTokens(b));
    }
  }

  lemma {:induction false} MatchCountAppend(a: seq<string>, b: seq<string>, hay: string)
    ensures MatchCount(a + b, hay) == MatchCount(a, hay) + MatchCount(b, hay)
    decreases |b|
  {
    if b != [] {
      assert (a + b)[..|a + b| - 1] == a + b[..|b| - 1];
      MatchCountAppend(a, b[..|b| - 1], hay);
    } else {
      assert a + b == a;
    }
  }

  /** Repeating the query repeats its normalised text. */
  lemma QueryTextTwice(query: string)
    ensures QueryText(query + " " + query) == QueryText(query) + " " + QueryText(query)
  {
    var lq := Lower(query);
    LowerAppend(query + " ", query);
    LowerAppend(query, " ");
    ReplaceCharAppend(lq + [' '], lq, ',', ' ');
    ReplaceCharAppend(lq, [' '], ',', ' ');
    var r1 := ReplaceChar(lq, ',', ' ');
    ReplaceCharAppend(r1 + [' '], r1, '.', ' ');
    ReplaceCharAppend(r1, [' '], '.', ' ');
  }

  /** A query token is counted each time it occurs: there is no
      de-duplication, so repeating the query doubles the score. */
  lemma RepeatedQueryCountsTwice(text: string, query: string)
    ensures KeywordScore(text, query + " " + query) == 2 * KeywordScore(text, query)
  {
    var qt := QueryText(query);
    QueryTextTwice(query);
    SplitAppend(qt, ' ', qt);
    KeepTokensAppend(Split(qt), Split(qt));
    MatchCountAppend(QueryTokens(query), QueryTokens(query), Lower(text));
  }

  lemma {:induction false} MatchCountAll(tokens: seq<string>, hay: string)
    requires forall t :: t in tokens ==> Contains(hay, t)
    ensures MatchCount(tokens, hay) == |tokens|
    decreases |tokens|
  {
    if tokens != [] {
      MatchCountAll(tokens[..|tokens| - 1], hay);
    }
  }

  /** A query word occurs at the same place in the
      lower-cased text: only `,` and `.` were replaced, and only by spaces. */
  lemma QueryWordInText(text: string, t: string, p: int)
    requires OccursAt(QueryText(text), t, p)
    requires IsWord(t)
    ensures Contains(Lower(text), t)
  {
    var lt := Lower(text);
    var qt := QueryText(text);
    forall i | 0 <= i < |t| ensures lt[p + i] == t[i] {
      assert qt[p + i] == t[i];
    }
    assert lt[p..p + |t|] == t;
    ContainsAt(lt, t, p);
  }

  /** A text scored against itself as the query matches every one of its
      scoring tokens: replacing `,` and `.` by spaces never joins two words. */
  lemma SelfScoreIsFull(text: string)
    ensures KeywordScore(text, text) == |QueryTokens(text)|
  {
    var lt := Lower(text);
    var qt := QueryText(text);
    QueryTokensShape(text);
    forall t | t in QueryTokens(text) ensures Contains(lt, t) {
      ContainsIff(qt, t);
      var p :| OccursAt(qt, t, p);
      QueryWordInText(text, t, p);
    }
    MatchCountAll(QueryTokens(text), lt);
  }

  /** A position and similarity returned by the vector search. */
  datatype Hit = Hit(position: int, similarity: real)

  /** A copy of a metadata entry with its keyword score and similarity. */
  datatype Candidate = Candidate(entry: Entry, kwScore: nat, similarity: real)

  /** `c` is the candidate made from hit `h`. */
  predicate FromHit(c: Candidate, h: Hit, metadata: seq<Entry>, query: string) {
    && 0 <= h.position < |metadata|
    && c.entry == metadata[h.position]
    && c.kwScore == KeywordScore(c.entry.text, query)
    && c.similarity == h.similarity
  }

  /** The candidates `_search` collects, in hit order, before sorting. */
  function CandidatesOf(hits: seq<Hit>, metadata: seq<Entry>, query: string): (cs: seq<Candidate>)
    ensures |cs| <= |hits|
    decreases |hits|
  {
    if hits == [] then []
    else
      var h := hits[|hits| - 1];
      CandidatesOf(hits[..|hits| - 1], metadata, query) +
      (if 0 <= h.position < |metadata|
       then [Candidate(metadata[h.position], KeywordScore(metadata[h.position].text, query), h.similarity)]
       else [])
  }

  /** Taking one more hit adds its candidate when its position is in range. */
  lemma CandidatesOfSnoc(hits: seq<Hit>, metadata: seq<Entry>, query: string, k: nat)
    requires k < |hits|
    ensures CandidatesOf(hits[..k + 1], metadata, query) ==
      CandidatesOf(hits[..k], metadata, query) +
      (if 0 <= hits[k].position < |metadata|
       then [Candidate(metadata[hits[k].position], KeywordScore(metadata[hits[k].position].text, query), hits[k].similarity)]
       else [])
  {
    assert hits[..k + 1][..k] == hits[..k];
  }

  /** Every candidate comes from an in-range hit, and every in-range hit
      yields a candidate. */
  lemma {:induction false} CandidatesFromHits(hits: seq<Hit>, metadata: seq<Entry>, query: string)
    ensures forall c :: c in CandidatesOf(hits, metadata, query) ==>
      exists k :: 0 <= k < |hits| && FromHit(c, hits[k], metadata, query)
    ensures forall k :: 0 <= k < |hits| && 0 <= hits[k].position < |metadata| ==>
      exists c :: c in CandidatesOf(hits, metadata, query) && FromHit(c, hits[k], metadata, query)
    decreases |hits|
  {
    if hits != [] {
      var prefix := hits[..|hits| - 1];
      CandidatesFromHits(prefix, metadata, query);
      var cs := CandidatesOf(hits, metadata, query);
      var h := hits[|hits| - 1];
      forall c | c in cs ensures exists k :: 0 <= k < |hits| && FromHit(c, hits[k], metadata, query) {
        if c in CandidatesOf(prefix, metadata, query) {
          var k :| 0 <= k < |prefix| && FromHit(c, prefix[k], metadata, query);
          assert hits[k] == prefix[k];
        } else {
          assert FromHit(c, hits[|hits| - 1], metadata, query);
        }
      }
      forall k | 0 <= k < |hits| && 0 <= hits[k].position < |metadata|
        ensures exists c :: c in cs && FromHit(c, hits[k], metadata, query)
      {
        if k < |prefix| {
          assert hits[k] == prefix[k];
          var c :| c in CandidatesOf(prefix, metadata, query) && FromHit(c, prefix[k], metadata, query);
          assert c in cs;
        } else {
          var c := Candidate(metadata[h.position], KeywordScore(metadata[h.position].text, query), h.similarity);
          assert c in cs && FromHit(c, hits[k], metadata, query);
        }
      }
    }
  }

  /** The sort key `(kw_score, faiss_sim)` of `a` is strictly larger than `b`'s. */
  predicate Outranks(a: Candidate, b: Candidate) {
    a.kwScore > b.kwScore || (a.kwScore == b.kwScore && a.similarity > b.similarity)
  }

  /** Ordered by keyword score, then similarity, both descending. */
  predicate Ranked(s: seq<Candidate>) {
    forall i, j :: 0 <= i < j < |s| ==> !Outranks(s[j], s[i])
  }

  /** Inserts `c` behind every element it does not outrank. */
  function Insert(c: Candidate, s: seq<Candidate>): seq<Candidate>
    decreases |s|
  {
    if s == [] then [c]
    else if Outranks(c, s[|s| - 1]) then Insert(c, s[..|s| - 1]) + [s[|s| - 1]]
    else s + [c]
  }

  /** `candidates.sort(key=..., reverse=True)`: a stable sort, descending. */
  function Rank(cs: seq<Candidate>): seq<Candidate>
    decreases |cs|
  {
    if cs == [] then [] else Insert(cs[|cs| - 1], Rank(cs[..|cs| - 1]))
  }

  /** Inserting adds `c` and keeps every other element. */
  lemma {:induction false} InsertPermutes(c: Candidate, s: seq<Candidate>)
    ensures multiset(Insert(c, s)) == multiset(s) + multiset{c}
    decreases |s|
  {
    if s != [] {
      var last := s[|s| - 1];
      var init := s[..|s| - 1];
      assert s == init + [last];
      if Outranks(c, last) {
        InsertPermutes(c, init);
      }
    }
  }

  /** Inserting into a ranked sequence keeps it ranked. */
  lemma {:induction false} InsertRanked(c: Candidate, s: seq<Candidate>)
    requires Ranked(s)
    ensures Ranked(Insert(c, s))
    decreases |s|
  {
    if s != [] {
      var last := s[|s| - 1];
      var init := s[..|s| - 1];
      assert s == init + [last];
      if Outranks(c, last) {
        InsertRanked(c, init);
        InsertPermutes(c, init);
        var r := Insert(c, init);
        forall i, j | 0 <= i < j < |r| + 1 ensures !Outranks((r + [last])[j], (r + [last])[i]) {
          if j == |r| {
            var x := r[i];
            assert x in multiset(r);
            if x in init {
              var m :| 0 <= m < |init| && init[m] == x;
              assert s[m] == x && s[|s| - 1] == last;
            }
          }
        }
      }
    }
  }

  lemma {:induction false} RankSortsAndPermutes(cs: seq<Candidate>)
    ensures Ranked(Rank(cs))
    ensures multiset(Rank(cs)) == multiset(cs)
    decreases |cs|
  {
    if cs != [] {
      var init := cs[..|cs| - 1];
      RankSortsAndPermutes(init);
      InsertRanked(cs[|cs| - 1], Rank(init));
      InsertPermutes(cs[|cs| - 1], Rank(init));
      assert cs == init + [cs[|cs| - 1]];
    }
  }

  /** The elements of `s` whose sort key is `(kw, sim)`, in order. */
  function WithKey(s: seq<Candidate>, kw: nat, sim: real): seq<Candidate>
    decreases |s|
  {
    if s == [] then []
    else
      WithKey(s[..|s| - 1], kw, sim) +
      (if s[|s| - 1].kwScore == kw && s[|s| - 1].similarity == sim then [s[|s| - 1]] else [])
  }

  lemma {:induction false} WithKeyInsert(c: Candidate, s: seq<Candidate>, kw: nat, sim: real)
    ensures WithKey(Insert(c, s), kw, sim) ==
      WithKey(s, kw, sim) + (if c.kwScore == kw && c.similarity == sim then [c] else [])
    decreases |s|
  {
    if s != [] {
      var last := s[|s| - 1];
      var init := s[..|s| - 1];
      if Outranks(c, last) {
        WithKeyInsert(c, init, kw, sim);
        var r := Insert(c, init);
        assert (r + [last])[..|r + [last]| - 1] == r;
      } else {
        assert (s + [c])[..|s + [c]| - 1] == s;
      }
    }
  }

  /** The sort is stable: candidates with equal keys keep their hit order. */
  lemma {:induction false} RankIsStable(cs: seq<Candidate>, kw: nat, sim: real)
    ensures WithKey(Rank(cs), kw, sim) == WithKey(cs, kw, sim)
    decreases |cs|
  {
    if cs != [] {
      var init := cs[..|cs| - 1];
      RankIsStable(init, kw, sim);
      WithKeyInsert(cs[|cs| - 1], Rank(init), kw, sim);
    }
  }

  /** `_search` once the vector search has returned `hits`: the in-range hits
      become scored copies of their metadata entries, which are then sorted. */
  method Search(query: string, hits: seq<Hit>, metadata: seq<Entry>) returns (ranked: seq<Candidate>)
    ensures ranked == Rank(CandidatesOf(hits, metadata, query))
  {
    var candidates: seq<Candidate> := [];
    for rank := 0 to |hits|
      invariant candidates == CandidatesOf(hits[..rank], metadata, query)
    {
      CandidatesOfSnoc(hits, metadata, query, rank);
      var idx := hits[rank].position;
      if idx < 0 {
        continue;
      }
      if idx >= |metadata| {
        continue;
      }
      var meta := metadata[idx];
      var kwScore := SimpleKeywordScore(meta.text, query);
      candidates := candidates + [Candidate(meta, kwScore, hits[rank].similarity)];
    }
    assert hits[..|hits|] == hits;
    ranked := Rank(candidates);
  }

  /** What `_search` returns: at most one candidate per hit, each a scored copy
      of an in-range metadata entry, ordered by keyword score then similarity,
      a permutation of the collected candidates. */
  lemma SearchResult(query: string, hits: seq<Hit>, metadata: seq<Entry>)
    ensures var ranked := Rank(CandidatesOf(hits, metadata, query));
      && |ranked| <= |hits|
      && Ranked(ranked)
      && multiset(ranked) == multiset(CandidatesOf(hits, metadata, query))
      && forall c :: c in ranked ==> exists k :: 0 <= k < |hits| && FromHit(c, hits[k], metadata, query)
  {
    var cs := CandidatesOf(hits, metadata, query);
    RankSortsAndPermutes(cs);
    CandidatesFromHits(hits, metadata, query);
    assert |Rank(cs)| == |multiset(Rank(cs))| == |multiset(cs)| == |cs|;
    forall c | c in Rank(cs) ensures c in cs {
      assert c in multiset(Rank(cs));
    }
  }
}
