/**
 * The chat endpoint of the backend (`POST /chat`) and its helpers: the
 * keyword category inference used when the model names no category, the
 * keywords that select suggested lawyers, the session title derived from
 * the first message, the stand-in responder used when the retrieval stack
 * cannot load, the shaping of returned source chunks, and the validation
 * and persistence rules of the endpoint itself.
 *
 * The database is an in-memory object holding the chat sessions and the
 * stored messages; the lawyer search, the responder and the clock are
 * parameters.
 */
module ChatRoute {
  import opened Wrappers
  import opened Text
  import opened RuleClassifier

  /** The keyword lists of the chat route, in dictionary order. They differ
      from the lists of the stand-alone classifier. */
  const CATEGORY_KEYWORDS: seq<Rule> := [
    Rule("Family Law", ["divorce", "family", "marriage", "custody", "alimony"]),
    Rule("Criminal Law", ["criminal", "bail", "fir", "ipc", "crime"]),
    Rule("Property / Rent Law", ["property", "rent", "real estate", "tenant", "lease"]),
    Rule("Labour / Employment Law", ["labour", "employment", "termination", "wages", "pf"]),
    Rule("Cyber Law", ["cyber", "online", "digital", "it act", "phishing"]),
    Rule("Motor Vehicle Law", ["motor", "vehicle", "accident", "mv act", "traffic"]),
    Rule("Women's Rights", ["women", "sexual", "harassment", "dowry"]),
    Rule("Mental Health Law", ["mental", "health", "disability"])
  ]

  // ---------- Category inference ----------

  /** What `_infer_category` computes: the first category, in dictionary
      order, with a keyword occurring in the lower-cased message. */
  function InferredCategory(message: string): string {
    FirstMatch(Lower(message), CATEGORY_KEYWORDS)
  }

  /** The loop of `_infer_category` over any list of rules. */
  method InferWith(text: string, rules: seq<Rule>) returns (category: string)
    ensures category == FirstMatch(text, rules)
  {
    var k := 0;
    while k < |rules|
      invariant 0 <= k <= |rules|
      invariant FirstMatch(text, rules[k..]) == FirstMatch(text, rules)
    {
      assert rules[k..][1..] == rules[k + 1..];
      if MentionsAny(text, rules[k].keywords) {
        return rules[k].category;
      }
      k := k + 1;
    }
    return OTHER;
  }

  /** `_infer_category`. */
  method InferCategory(message: string) returns (category: string)
    ensures category == InferredCategory(message)
  {
    category := InferWith(Lower(message), CATEGORY_KEYWORDS);
  }

  /** The categories of the dictionary are distinct, none is "Other", and
      each has keywords. */
  lemma CategoryKeywordsWellFormed()
    ensures forall i, j :: 0 <= i < j < |CATEGORY_KEYWORDS| ==>
      CATEGORY_KEYWORDS[i].category != CATEGORY_KEYWORDS[j].category
    ensures forall j :: 0 <= j < |CATEGORY_KEYWORDS| ==>
      CATEGORY_KEYWORDS[j].category != OTHER && CATEGORY_KEYWORDS[j].category != []
      && CATEGORY_KEYWORDS[j].keywords != []
  {
  }

  /** The inferred category is the key at position `k` exactly when a
      keyword of that key occurs in the lower-cased message and none of an
      earlier key does; it is "Other" exactly when no keyword occurs. */
  lemma InferredCategoryIff(message: string, k: nat)
    requires k < |CATEGORY_KEYWORDS|
    ensures InferredCategory(message) == CATEGORY_KEYWORDS[k].category <==>
      && MentionsAny(Lower(message), CATEGORY_KEYWORDS[k].keywords)
      && forall j :: 0 <= j < k ==> !MentionsAny(Lower(message), CATEGORY_KEYWORDS[j].keywords)
  {
    CategoryKeywordsWellFormed();
    var text := Lower(message);
    if InferredCategory(message) == CATEGORY_KEYWORDS[k].category {
      FirstMatchDecided(text, CATEGORY_KEYWORDS, k);
    }
    if MentionsAny(text, CATEGORY_KEYWORDS[k].keywords)
       && forall j :: 0 <= j < k ==> !MentionsAny(text, CATEGORY_KEYWORDS[j].keywords) {
      FirstMatchAt(text, CATEGORY_KEYWORDS, k);
    }
  }

  /** "Other" exactly when no keyword of any category occurs. */
  lemma InferredOtherIff(message: string)
    ensures InferredCategory(message) == OTHER <==>
      forall j :: 0 <= j < |CATEGORY_KEYWORDS| ==> !MentionsAny(Lower(message), CATEGORY_KEYWORDS[j].keywords)
  {
    CategoryKeywordsWellFormed();
    var text := Lower(message);
    if exists j :: 0 <= j < |CATEGORY_KEYWORDS| && MentionsAny(text, CATEGORY_KEYWORDS[j].keywords) {
      var m :| 0 <= m < |CATEGORY_KEYWORDS| && MentionsAny(text, CATEGORY_KEYWORDS[m].keywords);
      var k := FirstMentioned(text, CATEGORY_KEYWORDS, 0, m);
      FirstMatchAt(text, CATEGORY_KEYWORDS, k);
    } else {
      FirstMatchNone(text, CATEGORY_KEYWORDS);
    }
  }

  // ---------- Suggested lawyers ----------

  /** `CATEGORY_KEYWORDS.get(category, [])` over a list of rules. */
  function KeywordsFor(rules: seq<Rule>, category: string): (keywords: seq<string>)
    ensures (forall j :: 0 <= j < |rules| ==> rules[j].category != category) ==> keywords == []
    ensures keywords == [] || exists j :: 0 <= j < |rules| && rules[j].category == category && rules[j].keywords == keywords
    decreases |rules|
  {
    if rules == [] then []
    else if rules[0].category == category then rules[0].keywords
    else KeywordsFor(rules[1..], category)
  }

  /** `_map_category_to_keywords`. */
  function MapCategoryToKeywords(category: string): seq<string> {
    KeywordsFor(CATEGORY_KEYWORDS, category)
  }

  /** A key of the list maps to its own keywords. */
  lemma {:induction false} KeywordsForKey(rules: seq<Rule>, k: nat)
    requires k < |rules|
    requires forall i, j :: 0 <= i < j < |rules| ==> rules[i].category != rules[j].category
    ensures KeywordsFor(rules, rules[k].category) == rules[k].keywords
    decreases k
  {
    if k > 0 {
      assert rules[0].category != rules[k].category;
      assert rules[1..][k - 1] == rules[k];
      KeywordsForKey(rules[1..], k - 1);
    }
  }

  /** A category has keywords exactly when it is a key of the dictionary;
      in particular "Other" has none. */
  lemma MapCategoryIff(category: string)
    ensures MapCategoryToKeywords(category) != [] <==>
      exists j :: 0 <= j < |CATEGORY_KEYWORDS| && CATEGORY_KEYWORDS[j].category == category
    ensures MapCategoryToKeywords(OTHER) == []
  {
    CategoryKeywordsWellFormed();
    if exists j :: 0 <= j < |CATEGORY_KEYWORDS| && CATEGORY_KEYWORDS[j].category == category {
      var j :| 0 <= j < |CATEGORY_KEYWORDS| && CATEGORY_KEYWORDS[j].category == category;
      KeywordsForKey(CATEGORY_KEYWORDS, j);
    }
  }

  /** A lawyer row as the suggestions list returns it. */
  datatype Lawyer = Lawyer(lawyerId: int, fullName: string, city: string, specialization: string)

  const SUGGESTION_LIMIT: nat := 5

  /** `get_suggested_lawyers`: `search` stands for the database query over
      specialisations matching any of the keywords, best rated first; the
      query is made only when the category has keywords, and at most five
      rows are kept. */
  function SuggestedLawyers(category: string, search: seq<string> -> seq<Lawyer>): (lawyers: seq<Lawyer>)
    ensures |lawyers| <= SUGGESTION_LIMIT
    ensures MapCategoryToKeywords(category) == [] ==> lawyers == []
    ensures MapCategoryToKeywords(category) != [] ==>
      var rows := search(MapCategoryToKeywords(category));
      |lawyers| == (if |rows| <= SUGGESTION_LIMIT then |rows| else SUGGESTION_LIMIT) &&
      lawyers == rows[..|lawyers|]
  {
    var keywords := MapCategoryToKeywords(category);
    if keywords == [] then []
    else if |search(keywords)| <= SUGGESTION_LIMIT then search(keywords)
    else search(keywords)[..SUGGESTION_LIMIT]
  }

  /** A category without keywords, "Other" included, gets no suggestions and
      the database is not consulted: the answer is the same whatever the
      search would return. */
  lemma NoKeywordsNoSearch(category: string, search: seq<string> -> seq<Lawyer>, search': seq<string> -> seq<Lawyer>)
    requires forall j :: 0 <= j < |CATEGORY_KEYWORDS| ==> CATEGORY_KEYWORDS[j].category != category
    ensures SuggestedLawyers(category, search) == []
    ensures SuggestedLawyers(category, search) == SuggestedLawyers(category, search')
  {
  }

  // ---------- Session title ----------

  const UNTITLED: string := "Conversation"
  const TITLE_LIMIT: nat := 60
  const ELLIPSIS: string := "..."

  /** The line boundaries of `str.splitlines()`. */
  predicate LineBreak(c: char) {
    || '\n' <= c <= '\r'
    || '\U{1c}' <= c <= '\U{1e}'
    || c == '\U{85}' || c == '\U{2028}' || c == '\U{2029}'
  }

  /** `s.splitlines()[0]` for a non-empty `s`: the longest prefix with no line
      boundary. */
  function FirstLine(s: string): (line: string)
    ensures |line| <= |s| && line == s[..|line|]
    ensures forall k :: 0 <= k < |line| ==> !LineBreak(line[k])
    ensures |line| < |s| ==> LineBreak(s[|line|])
    decreases |s|
  {
    if s == [] || LineBreak(s[0]) then [] else [s[0]] + FirstLine(s[1..])
  }

  /** `_generate_session_title`. */
  function SessionTitle(message: string): string {
    var preview := Strip(message);
    if preview == [] then UNTITLED
    else
      var line := FirstLine(preview);
      if |line| > TITLE_LIMIT then line[..TITLE_LIMIT] + ELLIPSIS else line
  }

  /** Every line boundary is whitespace, so a stripped text starts its first
      line with a visible character. */
  lemma LineBreakIsSpace(c: char)
    ensures LineBreak(c) ==> IsSpace(c)
  {
  }

  /** A blank message is titled "Conversation". Otherwise the title is the
      first line of the stripped message when that line has at most 60
      characters, and else its first 60 characters followed by "...". The
      title is never empty, never longer than 63 characters, and never
      spans a line boundary. */
  lemma SessionTitleShape(message: string)
    ensures var title := SessionTitle(message);
      && title != [] && |title| <= TITLE_LIMIT + |ELLIPSIS|
      && (Blank(message) ==> title == UNTITLED)
      && (!Blank(message) ==>
            var preview := Strip(message);
            || (&& |title| <= TITLE_LIMIT && StartsWith(preview, title)
                && (forall k :: 0 <= k < |title| ==> !LineBreak(title[k]))
                && (|title| == |preview| || LineBreak(preview[|title|])))
            || (&& |title| == TITLE_LIMIT + |ELLIPSIS| && title[TITLE_LIMIT..] == ELLIPSIS
                && StartsWith(preview, title[..TITLE_LIMIT])
                && (forall k :: 0 <= k < TITLE_LIMIT ==> !LineBreak(title[k]))))
  {
    StripBlank(message);
    var preview := Strip(message);
    if preview != [] {
      var i := StripOffset(message);
      LineBreakIsSpace(preview[0]);
      var line := FirstLine(preview);
      assert line != [];
    }
  }

  // ---------- Category resolution ----------

  /** `detected_category or "Other"`, then re-inferred from the question when
      it is "Other". */
  function ResolveCategory(botCategory: string, question: string): string {
    var category := if botCategory == [] then OTHER else botCategory;
    if category == OTHER then InferredCategory(question) else category
  }

  /** A category the responder names, other than "Other", is kept; an empty
      one or "Other" is replaced by the keyword inference, so the result is
      "Other" only when the responder gave none and no keyword occurs. The
      result is never empty. */
  lemma ResolveCategoryShape(botCategory: string, question: string)
    ensures var category := ResolveCategory(botCategory, question);
      && category != []
      && (botCategory != [] && botCategory != OTHER ==> category == botCategory)
      && (category == OTHER <==>
            (botCategory == [] || botCategory == OTHER) && InferredCategory(question) == OTHER)
  {
    CategoryKeywordsWellFormed();
  }

  // ---------- Stand-in responder ----------

  /** What a responder yields for a question: an answer with its source
      chunks and category, or a failure (a `RuntimeError`, reported as 503,
      or any other exception, reported as 500). */
  datatype BotOutcome =
    | Replied(answer: string, chunks: seq<RawChunk>, category: string)
    | RuntimeFailure(message: string)
    | OtherFailure

  const OFFLINE_SUMMARY: string := "Our legal research assistant is temporarily offline, " +
    "so this answer is generated from a lightweight rule-based helper."
  const RELATED_TO: string := " Based on your message, this appears related to "
  const CONSULT: string := " Consider booking a consultation with a specialised " + "lawyer for tailored advice."
  const MORE_DETAIL: string := " Please share more specifics so we can route you " + "to the right expert."

  /** The reply text of the stand-in responder for a category. */
  function FallbackText(category: string): string {
    OFFLINE_SUMMARY + RELATED_TO + category + "." + (if category != OTHER then CONSULT else MORE_DETAIL)
  }

  /** `_FallbackBot.answer`: the message is lower-cased and classified by the
      keyword inference; no source chunks are returned. */
  method FallbackAnswer(message: string) returns (outcome: BotOutcome)
    ensures outcome == Replied(FallbackText(InferredCategory(message)), [], InferredCategory(message))
  {
    var lowered := Lower(message);
    var category := InferCategory(lowered);
    LowerIdempotent(message);
    outcome := Replied(FallbackText(category), [], category);
  }

  /** The stand-in reply names the category, and it ends by suggesting a
      consultation for a recognised category and by asking for details for
      "Other". */
  lemma FallbackTextShape(category: string)
    ensures var text := FallbackText(category);
      var suffix := if category != OTHER then CONSULT else MORE_DETAIL;
      && Contains(text, category)
      && |suffix| <= |text| && text[|text| - |suffix|..] == suffix
  {
    var pre := OFFLINE_SUMMARY + RELATED_TO;
    var text := FallbackText(category);
    assert text == pre + category + ("." + (if category != OTHER then CONSULT else MORE_DETAIL));
    assert OccursAt(text, category, |pre|);
    ContainsAt(text, category, |pre|);
  }

  // ---------- Source chunks ----------

  /** The `chunk_id` value of a chunk: an integer, absent (or None), or a
      value `int()` rejects. */
  datatype RawId = IntValue(n: int) | NoValue | NotANumber

  /** A chunk as the responder returns it: a dictionary with the values the
      route reads (`None` for a key that is absent or holds None) and the
      number of keys it has, those holding None included. */
  datatype RawChunk = RawChunk(pdfPath: Option<string>, chunkId: RawId, text: Option<string>, keys: nat)

  /** A dictionary without keys, which `not chunk` skips. A dictionary whose
      keys all hold None is not empty, and is kept. */
  predicate Falsy(c: RawChunk) {
    c.keys == 0 && c.pdfPath.None? && c.chunkId.NoValue? && c.text.None?
  }

  datatype SourceChunk = SourceChunk(pdfPath: string, chunkId: int, text: string)

  const SOURCE_TEXT_LIMIT: nat := 400

  function OrEmpty(s: Option<string>): string {
    if s.Some? then s.value else []
  }

  /** The source record made from one chunk: the identifier converted with a
      fallback of 0, and the text cut to its first 400 characters. */
  function ShapeChunk(c: RawChunk): (s: SourceChunk)
    ensures |s.text| <= SOURCE_TEXT_LIMIT && StartsWith(OrEmpty(c.text), s.text)
    ensures |OrEmpty(c.text)| <= SOURCE_TEXT_LIMIT ==> s.text == OrEmpty(c.text)
    ensures c.chunkId.IntValue? ==> s.chunkId == c.chunkId.n
    ensures !c.chunkId.IntValue? ==> s.chunkId == 0
    ensures c.pdfPath.Some? ==> s.pdfPath == c.pdfPath.value
    ensures c.pdfPath.None? ==> s.pdfPath == []
  {
    SourceChunk(OrEmpty(c.pdfPath),
                if c.chunkId.IntValue? then c.chunkId.n else 0,
                Take(OrEmpty(c.text), SOURCE_TEXT_LIMIT))
  }

  /** A dictionary holding only `"chunk_id": None` is kept, and shaped with
      the defaults: an empty path, identifier 0 and empty text. */
  lemma NoneValuedKeyKept()
    ensures Sources([RawChunk(None, NoValue, None, 1)]) == [SourceChunk("", 0, "")]
  {
    assert [RawChunk(None, NoValue, None, 1)][..0] == [];
  }

  /** The sources of a list of chunks: the non-empty ones, shaped, in order. */
  function Sources(chunks: seq<RawChunk>): (sources: seq<SourceChunk>)
    ensures |sources| <= |chunks|
    decreases |chunks|
  {
    if chunks == [] then []
    else
      var last := chunks[|chunks| - 1];
      Sources(chunks[..|chunks| - 1]) + (if Falsy(last) then [] else [ShapeChunk(last)])
  }

  /** The loop of `chat` that builds `sources`. */
  method ShapeSources(chunks: seq<RawChunk>) returns (sources: seq<SourceChunk>)
    ensures sources == Sources(chunks)
  {
    sources := [];
    for k := 0 to |chunks|
      invariant sources == Sources(chunks[..k])
    {
      assert chunks[..k + 1][..k] == chunks[..k];
      if Falsy(chunks[k]) {
        continue;
      }
      sources := sources + [ShapeChunk(chunks[k])];
    }
    assert chunks[..|chunks|] == chunks;
  }

  /** Shaping keeps the order of the chunks. */
  lemma {:induction false} SourcesAppend(a: seq<RawChunk>, b: seq<RawChunk>)
    ensures Sources(a + b) == Sources(a) + Sources(b)
    decreases |b|
  {
    if b != [] {
      var init := b[..|b| - 1];
      assert (a + b)[..|a + b| - 1] == a + init;
      SourcesAppend(a, init);
    } else {
      assert a + b == a;
    }
  }

  /** Every non-empty chunk gives a source, every source comes from a
      non-empty chunk, and no source text exceeds 400 characters. */
  lemma {:induction false} SourcesProvenance(chunks: seq<RawChunk>)
    ensures forall k :: 0 <= k < |chunks| && !Falsy(chunks[k]) ==> ShapeChunk(chunks[k]) in Sources(chunks)
    ensures forall s :: s in Sources(chunks) ==>
      |s.text| <= SOURCE_TEXT_LIMIT && exists k :: 0 <= k < |chunks| && !Falsy(chunks[k]) && s == ShapeChunk(chunks[k])
    decreases |chunks|
  {
    if chunks != [] {
      var init := chunks[..|chunks| - 1];
      SourcesProvenance(init);
      forall s | s in Sources(chunks)
        ensures exists k :: 0 <= k < |chunks| && !Falsy(chunks[k]) && s == ShapeChunk(chunks[k])
      {
        if s in Sources(init) {
          var k :| 0 <= k < |init| && !Falsy(init[k]) && s == ShapeChunk(init[k]);
          assert chunks[k] == init[k];
        }
      }
      forall k | 0 <= k < |chunks| && !Falsy(chunks[k])
        ensures ShapeChunk(chunks[k]) in Sources(chunks)
      {
        if k < |init| {
          assert init[k] == chunks[k];
        }
      }
    }
  }

  /** The category step of `chat`. */
  method Resolve(botCategory: string, question: string) returns (category: string)
    ensures category == ResolveCategory(botCategory, question)
  {
    category := if botCategory == [] then OTHER else botCategory;
    if category == OTHER {
      category := InferCategory(question);
    }
  }

  // ---------- The chat endpoint ----------

  datatype ChatRequest = ChatRequest(userId: Option<int>, sessionId: Option<int>,
                                     sessionTitle: Option<string>, message: string)

  /** A stored chat session. An empty title stands for a missing one: the
      route only tests the title for truth. */
  datatype ChatSession = ChatSession(userId: int, title: string, lastActivity: int)

  datatype ChatMessage = ChatMessage(userId: int, role: string, text: string, sessionId: Option<int>)

  datatype ChatResponse = ChatResponse(answer: string, sources: seq<SourceChunk>, category: string,
                                       sessionId: Option<int>, lawyers: seq<Lawyer>)

  const EMPTY_MESSAGE: string := "Message cannot be empty."
  const RESPONDER_FAILED: string := "Failed to generate a chat response."
  const SESSION_NEEDS_USER: string := "session_id requires user_id."
  const SESSION_NOT_FOUND: string := "Chat session not found."
  const NOT_OWNER: string := "Session does not belong to this user."

  /** A value Python treats as true: present and non-empty. */
  predicate Truthy(s: Option<string>) {
    s.Some? && s.value != []
  }

  /** The responder's outcome for the cleaned question: the retrieval
      chatbot when it is available, the stand-in responder otherwise. */
  function Consult(bot: Option<string -> BotOutcome>, question: string): BotOutcome {
    if bot.None? then Replied(FallbackText(InferredCategory(question)), [], InferredCategory(question))
    else bot.value(question)
  }

  /** The responder step of `chat`. */
  method Respond(bot: Option<string -> BotOutcome>, question: string) returns (outcome: BotOutcome)
    ensures outcome == Consult(bot, question)
  {
    if bot.None? {
      outcome := FallbackAnswer(question);
    } else {
      outcome := bot.value(question);
    }
  }

  /** The checks on the session fields of the request. */
  function SessionError(sessions: map<int, ChatSession>, req: ChatRequest): Option<HttpError> {
    if req.sessionId.None? then None
    else if req.userId.None? then Some(HttpError(400, SESSION_NEEDS_USER))
    else if req.sessionId.value !in sessions then Some(HttpError(404, SESSION_NOT_FOUND))
    else if sessions[req.sessionId.value].userId != req.userId.value then Some(HttpError(403, NOT_OWNER))
    else None
  }

  /** The error `chat` raises, if any, in the order the route checks: the
      blank message first, then the responder, then the session. */
  function ChatError(sessions: map<int, ChatSession>, req: ChatRequest,
                     bot: Option<string -> BotOutcome>): Option<HttpError>
  {
    var clean := Strip(req.message);
    if clean == [] then Some(HttpError(400, EMPTY_MESSAGE))
    else match Consult(bot, clean)
      case RuntimeFailure(message) => Some(HttpError(503, message))
      case OtherFailure => Some(HttpError(500, RESPONDER_FAILED))
      case Replied(_, _, _) => SessionError(sessions, req)
  }

  /** The session a successful request writes to: the one named, else a new
      one for a known user, else none. */
  function SessionUsed(nextId: int, req: ChatRequest): Option<int> {
    if req.sessionId.Some? then req.sessionId
    else if req.userId.Some? then Some(nextId)
    else None
  }

  /** The sessions after a successful request. A named session gets the
      requested title only when it has none, and its activity time; a new
      session is created for a user who names none; an anonymous request
      changes nothing. */
  function SessionsAfter(sessions: map<int, ChatSession>, nextId: int, req: ChatRequest,
                         clean: string, now: int): map<int, ChatSession>
    requires SessionError(sessions, req).None?
  {
    if req.sessionId.Some? then
      var s := sessions[req.sessionId.value];
      var title := if Truthy(req.sessionTitle) && s.title == [] then req.sessionTitle.value else s.title;
      sessions[req.sessionId.value := ChatSession(s.userId, title, now)]
    else if req.userId.Some? then
      var title := if Truthy(req.sessionTitle) then req.sessionTitle.value else SessionTitle(clean);
      sessions[nextId := ChatSession(req.userId.value, title, now)]
    else sessions
  }

  /** The messages a successful request stores: none for an anonymous user,
      else the question and then the answer. */
  function Logged(req: ChatRequest, clean: string, answer: string, session: Option<int>): seq<ChatMessage> {
    if req.userId.None? then []
    else [ChatMessage(req.userId.value, "user", clean, session),
          ChatMessage(req.userId.value, "assistant", answer, session)]
  }

  /** The database of the chat route: sessions by id and the stored
      messages in insertion order. */
  class ChatDb {
    var sessions: map<int, ChatSession>
    var messages: seq<ChatMessage>
    var nextSessionId: int

    /** Session ids are positive and below the next one to be handed out,
        and every stored message that names a session names an existing
        session of the message's own user. */
    predicate Valid()
      reads this
    {
      && 0 < nextSessionId
      && (forall id :: id in sessions ==> 0 < id < nextSessionId)
      && (forall k :: 0 <= k < |messages| && messages[k].sessionId.Some? ==>
            messages[k].sessionId.value in sessions
            && sessions[messages[k].sessionId.value].userId == messages[k].userId)
    }

    constructor()
      ensures Valid()
      ensures sessions == map[] && messages == [] && nextSessionId == 1
    {
      sessions := map[];
      messages := [];
      nextSessionId := 1;
    }

    /** The session part of `chat` once the checks have passed: the named
        session, or a new one for a user who names none. The activity time
        the route sets after adding the messages is set here. */
    method OpenSession(req: ChatRequest, clean: string, now: int) returns (session: Option<int>)
      requires Valid() && SessionError(sessions, req).None?
      modifies this
      ensures Valid()
      ensures session == SessionUsed(old(nextSessionId), req)
      ensures sessions == SessionsAfter(old(sessions), old(nextSessionId), req, clean, now)
      ensures messages == old(messages)
      ensures nextSessionId == old(nextSessionId) + (if req.sessionId.None? && req.userId.Some? then 1 else 0)
      ensures session.Some? ==> session.value in sessions && sessions[session.value].userId == req.userId.value
    {
      session := None;
      if req.sessionId.Some? {
        var id := req.sessionId.value;
        var s := sessions[id];
        if Truthy(req.sessionTitle) && s.title == [] {
          s := s.(title := req.sessionTitle.value);
        }
        sessions := sessions[id := s.(lastActivity := now)];
        session := Some(id);
      } else if req.userId.Some? {
        var title := if Truthy(req.sessionTitle) then req.sessionTitle.value else SessionTitle(clean);
        session := Some(nextSessionId);
        sessions := sessions[nextSessionId := ChatSession(req.userId.value, title, now)];
        nextSessionId := nextSessionId + 1;
      }
    }

    /** The messages `chat` stores: for a known user, the question and then
        the answer, both in the session used. */
    method Log(req: ChatRequest, clean: string, answer: string, session: Option<int>)
      requires Valid()
      requires session.Some? ==> req.userId.Some? && session.value in sessions
                                 && sessions[session.value].userId == req.userId.value
      modifies this
      ensures Valid()
      ensures messages == old(messages) + Logged(req, clean, answer, session)
      ensures sessions == old(sessions) && nextSessionId == old(nextSessionId)
    {
      if req.userId.Some? {
        var user := req.userId.value;
        messages := messages + [ChatMessage(user, "user", clean, session),
                                ChatMessage(user, "assistant", answer, session)];
      }
    }

    /** `chat`: answers the question, records the exchange for a known user,
        and returns the sources and suggested lawyers. */
    method Chat(req: ChatRequest, bot: Option<string -> BotOutcome>, now: int,
                search: seq<string> -> seq<Lawyer>) returns (r: Result<ChatResponse, HttpError>)
      requires Valid()
      modifies this
      ensures Valid()
      ensures r.Err? <==> ChatError(old(sessions), req, bot).Some?
      ensures r.Err? ==> r.error == ChatError(old(sessions), req, bot).value && unchanged(this)
      ensures r.Ok? ==>
        var clean := Strip(req.message);
        var outcome := Consult(bot, clean);
        var session := SessionUsed(old(nextSessionId), req);
        var category := ResolveCategory(outcome.category, clean);
        && r.value == ChatResponse(outcome.answer, Sources(outcome.chunks), category, session,
                                   SuggestedLawyers(category, search))
        && sessions == SessionsAfter(old(sessions), old(nextSessionId), req, clean, now)
        && messages == old(messages) + Logged(req, clean, outcome.answer, session)
        && nextSessionId == old(nextSessionId) + (if req.sessionId.None? && req.userId.Some? then 1 else 0)
    {
      var clean := Strip(req.message);
      if clean == [] {
        return Err(HttpError(400, EMPTY_MESSAGE));
      }
      var outcome := Respond(bot, clean);
      match outcome {
        case RuntimeFailure(message) => return Err(HttpError(503, message));
        case OtherFailure => return Err(HttpError(500, RESPONDER_FAILED));
        case Replied(_, _, _) =>
      }
      var category := Resolve(outcome.category, clean);

      if req.sessionId.Some? {
        if req.userId.None? {
          return Err(HttpError(400, SESSION_NEEDS_USER));
        }
        if req.sessionId.value !in sessions {
          return Err(HttpError(404, SESSION_NOT_FOUND));
        }
        if sessions[req.sessionId.value].userId != req.userId.value {
          return Err(HttpError(403, NOT_OWNER));
        }
      }
      var session := OpenSession(req, clean, now);
      Log(req, clean, outcome.answer, session);

      var sources := ShapeSources(outcome.chunks);
      r := Ok(ChatResponse(outcome.answer, sources, category, session, SuggestedLawyers(category, search)));
    }
  }

  /** A blank question is refused before the responder is consulted: the
      error is the same whatever the responder would do. */
  lemma BlankNeverConsults(sessions: map<int, ChatSession>, req: ChatRequest,
                           bot: Option<string -> BotOutcome>, bot': Option<string -> BotOutcome>)
    requires Blank(req.message)
    ensures ChatError(sessions, req, bot) == ChatError(sessions, req, bot') == Some(HttpError(400, EMPTY_MESSAGE))
  {
    StripBlank(req.message);
  }

  /** A successful request touches at most the session it uses: every other
      session is unchanged, no session changes owner, and a title that is
      set is never replaced. */
  lemma SessionsAfterFrame(sessions: map<int, ChatSession>, nextId: int, req: ChatRequest,
                           clean: string, now: int)
    requires SessionError(sessions, req).None?
    requires forall id :: id in sessions ==> id < nextId
    ensures var after := SessionsAfter(sessions, nextId, req, clean, now);
      var used := SessionUsed(nextId, req);
      && after.Keys == sessions.Keys + (if used.Some? then {used.value} else {})
      && (forall id :: id in sessions && (used.None? || id != used.value) ==> after[id] == sessions[id])
      && (forall id :: id in sessions ==> after[id].userId == sessions[id].userId)
      && (forall id :: id in sessions && sessions[id].title != [] ==> after[id].title == sessions[id].title)
      && (used.Some? ==> req.userId.Some? && after[used.value].userId == req.userId.value)
      && (req.sessionId.None? && used.Some? ==> after[used.value].title != [])
  {
    if req.sessionId.None? && req.userId.Some? && !Truthy(req.sessionTitle) {
      SessionTitleShape(clean);
    }
  }
}
