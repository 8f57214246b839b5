# LawBot core, modelled in Dafny

This project models the core of a legal-help platform called LawBot. The core has three parts.

1. **The retrieval chatbot.**
   - `build_index.py` cuts the text of each PDF into overlapping windows of 500 characters with an overlap of 100. It numbers the chunks and records one metadata row per chunk beside its embedding.
   - `RAGChatbot` (`backend/app/chat/rag.py`) re-ranks the vector-search hits for a question. The ranking is by keyword overlap, then by similarity.
   - It then builds the language-model prompt from the ranked chunks.
   - Finally it reads the `Detected Legal Category:` line back out of the reply.
2. **The chat endpoint** (`backend/api/route/chat.py`), which:
   - rejects blank messages;
   - consults the bot, or the offline fallback bot when no bot can be loaded;
   - opens or checks the chat session;
   - logs the user's and the assistant's messages;
   - shapes the source chunks;
   - resolves the category with the keyword inference;
   - suggests lawyers.

   The standalone keyword classifier `detect_category` (`backend/app/chat/category.py`) belongs to this part too.
3. **The booking endpoints** (`backend/api/route/booking_requests.py` and `backend/api/route/bookings.py`):
   - creating booking requests and bookings;
   - changing their status;
   - the one-booking-per-request link that accepting a request creates or updates.

## Modules

| Module | File | Contents |
|---|---|---|
| `Wrappers` | `wrappers.dfy` | `Option`, `Result`, and the HTTP error value |
| `Text` | `text.dfy` | The Python string operations the core relies on: `strip`, ASCII `lower`, `replace` of one character, substring `in`, `split()` |
| `Chunker` | `chunker.dfy` | `split_into_chunks`, as a method with a loop, proved against a window function |
| `IndexBuilder` | `index_builder.dfy` | The PDF and batch loops of `build_index`, proved against the `Build` specification |
| `Retrieval` | `retrieval.dfy` | `simple_keyword_score` and `_search`. The stable descending sort is a stable insertion sort proved sorted, a permutation and stable. |
| `Generation` | `generation.dfy` | `_call_groq`: the missing-key answer, the context text, the prompt layout and the error text. The HTTP exchange is a parameter. |
| `CategoryTag` | `category_tag.dfy` | `_extract_detected_category`, including the regular expression's backtracking, case-folding and the alias table |
| `RagBot` | `rag_bot.dfy` | `RAGChatbot.answer` |
| `RuleClassifier` | `rule_classifier.dfy` | `detect_category` |
| `ChatRoute` | `chat_route.dfy` | The chat endpoint with its helpers. The database is a class `ChatDb` whose sessions and message log the endpoint updates. |
| `Bookings` | `bookings.dfy` | The two booking routers over one class `BookingDb`. It holds users, lawyer profiles, requests and bookings, with the invariants of the schema in `backend/db/models.py`. |

## Model

| member | source | states |
|---|---|---|
| Text.StripOffset | backend/api/route/chat.py:207 | `str.strip()`: the result is the text with its leading and trailing whitespace removed, and it starts and ends with a non-space character |
| Text.StripBlank | backend/api/route/chat.py:207-209 | The stripped text is empty exactly when the message is all whitespace |
| Text.StripIdempotent | backend/api/route/chat.py:207 | Stripping twice is stripping once |
| Text.LowerFixes | backend/app/chat/rag.py:55-56 | `lower()` leaves the text unchanged exactly when it holds no ASCII capital |
| Text.LowerAppend | backend/app/chat/rag.py:55-56 | Lower-casing a concatenation lower-cases each part |
| Text.LowerIdempotent | backend/app/chat/category.py:4 | Lower-casing twice is lower-casing once |
| Text.ReplaceCharRemoves | backend/app/chat/rag.py:57 | After `replace(c, d)` with `c` different from `d`, no `c` is left, and the text is unchanged exactly when it held no `c` |
| Text.ReplaceCharAppend | backend/app/chat/rag.py:57 | Replacing in a concatenation replaces in each part |
| Text.ReplaceCharOccurs | backend/app/chat/rag.py:57 | A substring occurring at a position occurs there, replaced, after the replacement |
| Text.ContainsIff | backend/app/chat/rag.py:61 | Substring `in` holds exactly when the needle occurs at some position |
| Text.SplitWords | backend/app/chat/rag.py:57 | Every word `split()` yields is non-empty, holds no whitespace and occurs in the text |
| Text.SplitAppend | backend/app/chat/rag.py:57 | Splitting text joined at a whitespace character splits each side |
| Chunker.WindowEnd | build_index.py:34 | `min(start + chunk_size, n)` lies in the text, moves past `start`, and spans at most the chunk size |
| Chunker.WindowsFromBounds | build_index.py:33-40 | Every window the loop visits lies within the text, starts before it ends, and spans at most the chunk size |
| Chunker.SplitIntoChunks | build_index.py:25-42 | The loop returns exactly the stripped, non-empty texts of the windows in order |
| Chunker.CollectFromWindows | build_index.py:33-40 | The loop, run from any start, collects exactly what the windows from that start give |
| Chunker.CollectOfChunks | build_index.py:35-37 | Collecting over the windows appends their non-empty stripped texts to what was found before |
| Chunker.ChunksFromWindows | build_index.py:33-40 | The chunks of the loop are the stripped non-blank windows |
| Chunker.ChunkShape | build_index.py:35-37 | Every chunk is non-empty, already stripped, at most `chunk_size` long, and the stripped text of one window |
| Chunker.WindowsShape | build_index.py:33-40 | The first window starts at 0, each next one starts `chunk_size - overlap` later, every window but the last is full, and the last ends at the end of the text; no windows exactly for empty text |
| Chunker.WindowsCover | build_index.py:33-40 | Every character lies in some window, and neighbouring windows overlap by exactly `overlap` characters |
| Chunker.PieceEmptyIff | build_index.py:35-36 | A window yields no chunk exactly when it is all whitespace |
| Chunker.ChunksOfEmptyIff | build_index.py:35-37 | No chunks exactly when every window is blank |
| Chunker.BlankTextNoChunks | build_index.py:77-79 | Blank text gives no chunks |
| Chunker.TextYieldsChunk | build_index.py:77-81 | Text that is not blank gives at least one chunk |
| IndexBuilder.ChunkEntries | build_index.py:97-106 | One metadata row per chunk of a PDF |
| IndexBuilder.Encode | build_index.py:87-88 | One embedding per chunk of a batch |
| IndexBuilder.EmbedChunks | build_index.py:85-106 | The batch loop appends one row per chunk, and the index holds exactly the embeddings of all rows so far; it is created with the first batch |
| IndexBuilder.RecordBatch | build_index.py:97-106 | The rows of one batch are appended with consecutive `global_id`s and `chunk_id`s, matching the vectors already added |
| IndexBuilder.BuildIndex | build_index.py:56-112 | The whole build reaches the outcome `Build`: no PDFs, no chunks, or the index written with all rows |
| IndexBuilder.GlobalIdIsPosition | build_index.py:97-106 | `global_id` of each row is its position in the metadata, the index row of its vector |
| IndexBuilder.ChunkIdsConsecutive | build_index.py:86-106 | `chunk_id` counts up from 0 within each PDF across batches |
| IndexBuilder.EntriesProvenance | build_index.py:74-106 | Every row names a PDF, its text is that PDF's chunk number `chunk_id` |
| IndexBuilder.EntriesHoldAllChunks | build_index.py:74-106 | The rows' texts are all chunks of all PDFs, in sorted PDF order |
| IndexBuilder.NoChunksIffAllBlank | build_index.py:69-112 | With PDFs present, the build ends without an index exactly when every PDF's text is blank |
| IndexBuilder.AllChunksEmptyIff | build_index.py:77-81 | No chunks at all exactly when every PDF is blank |
| Retrieval.KeepTokens | backend/app/chat/rag.py:56-59 | Kept query tokens are non-empty, not stopwords, and come from the split query |
| Retrieval.MatchCount | backend/app/chat/rag.py:60-63 | The count of tokens found is at most the number of tokens |
| Retrieval.SimpleKeywordScore | backend/app/chat/rag.py:48-64 | The loop returns the number of query tokens, repeats counted, found in the lower-cased text |
| Retrieval.ScoreBounds | backend/app/chat/rag.py:48-64 | The score lies between 0 and the number of query tokens |
| Retrieval.QueryTokensShape | backend/app/chat/rag.py:55-59 | Every scoring token is a word without upper-case ASCII, commas or full stops, is not a stopword, and occurs in the normalised query |
| Retrieval.MatchCountAppend | backend/app/chat/rag.py:60-63 | Counts of concatenated token lists add up |
| Retrieval.RepeatedQueryCountsTwice | backend/app/chat/rag.py:48-64 | Repeated tokens count each time: a query written twice scores twice |
| Retrieval.QueryWordInText | backend/app/chat/rag.py:55-61 | A word of the normalised query occurs at the same place in the lower-cased text |
| Retrieval.SelfScoreIsFull | backend/app/chat/rag.py:48-64 | A text scored against itself matches every token |
| Retrieval.CandidatesOf | backend/app/chat/rag.py:118-131 | There are no more candidates than hits |
| Retrieval.CandidatesFromHits | backend/app/chat/rag.py:118-131 | Every candidate is the metadata row of a hit with its keyword score and similarity, and every in-range hit gives a candidate |
| Retrieval.InsertPermutes | backend/app/chat/rag.py:134 | Inserting adds exactly that element and keeps the others |
| Retrieval.InsertRanked | backend/app/chat/rag.py:134 | Inserting into a ranked list keeps it ranked |
| Retrieval.RankSortsAndPermutes | backend/app/chat/rag.py:134 | The re-rank orders by (keyword score, similarity) descending and is a permutation |
| Retrieval.RankIsStable | backend/app/chat/rag.py:134 | Candidates with equal keys keep their search order, as the stable sort does |
| Retrieval.Search | backend/app/chat/rag.py:109-143 | `_search` returns the ranked in-range candidates |
| Retrieval.SearchResult | backend/app/chat/rag.py:109-143 | At most `top_k` results; ranked; a permutation of the candidates; each from a hit |
| Generation.LastPathComponent | backend/app/chat/rag.py:161 | `split(os.sep)[-1]` is the suffix after the last separator and holds none |
| Generation.Decimal | backend/app/chat/rag.py:161 | The chunk id is written as a non-empty string of digits |
| Generation.DecimalRoundTrip | backend/app/chat/rag.py:161 | Reading the digits back gives the chunk id |
| Generation.BuildContextText | backend/app/chat/rag.py:157-165 | The loop builds the context block, or the no-context note for no chunks |
| Generation.ContextBlockEmptyIff | backend/app/chat/rag.py:157-165 | The no-context note appears exactly when no chunk was retrieved |
| Generation.ContextEntriesStart | backend/app/chat/rag.py:160-163 | A non-empty context starts with a newline and a header bracket |
| Generation.FramedHolds | backend/app/chat/rag.py:160-163 | Each framed chunk holds its header and its text |
| Generation.ContextEntriesHold | backend/app/chat/rag.py:157-163 | The context holds every chunk's header and text |
| Generation.PromptLayout | backend/app/chat/rag.py:265-272 | The user message starts with the guidelines, carries the context after the context header, and ends with the question |
| Generation.CallGroq | backend/app/chat/rag.py:145-306 | `_call_groq` returns the missing-key text, the model's reply, or the error text |
| Generation.MissingKeyNeverSends | backend/app/chat/rag.py:153-154 | Without a key the answer is the fixed message and no request is sent |
| Generation.FailureIsReported | backend/app/chat/rag.py:300-306 | A failed request gives "Error calling Groq API: " followed by the failure |
| Generation.PromptCarriesChunks | backend/app/chat/rag.py:157-272 | The prompt holds the question and every chunk's header and text |
| CategoryTag.SpaceRunEnd | backend/app/chat/rag.py:310 | The `\s*` run ends within the text |
| CategoryTag.ClassRunEnd | backend/app/chat/rag.py:310 | The class run ends within the text |
| CategoryTag.SpaceRunShape | backend/app/chat/rag.py:310 | `\s*` takes the longest run of whitespace |
| CategoryTag.ClassRunShape | backend/app/chat/rag.py:310 | `[A-Za-z /'&-]+` takes the longest run of class characters |
| CategoryTag.LeftmostMatch | backend/app/chat/rag.py:311 | `search` reports a position where the pattern matches |
| CategoryTag.FindLeftmost | backend/app/chat/rag.py:311 | The reported match is the leftmost one |
| CategoryTag.CaptureAtShape | backend/app/chat/rag.py:310-311 | A captured group is a non-empty run of class characters found in the answer |
| CategoryTag.FindShape | backend/app/chat/rag.py:311-315 | Same, for the group `search` returns |
| CategoryTag.CaseFold | backend/app/chat/rag.py:316 | `casefold` keeps the length of text without the dotted capital I |
| CategoryTag.CaseFoldPlain | backend/app/chat/rag.py:316 | On ASCII text `casefold` is `lower` |
| Text.StripChars | backend/app/chat/rag.py:315 | `strip(chars)` never lengthens the text and removes nothing from text without those characters |
| CategoryTag.AliasesCanonical | backend/app/chat/rag.py:317-329 | Every alias maps to one of the nine labels |
| CategoryTag.LabelFixpoint | backend/app/chat/rag.py:317-330 | A label read back through the table is itself |
| CategoryTag.NormaliseShape | backend/app/chat/rag.py:315-330 | Cleaning a group gives "Other", a label, or exactly the group trimmed of whitespace, kept verbatim |
| CategoryTag.NormaliseCaptured | backend/app/chat/rag.py:315-330 | Same, with the verbatim text, the trimmed group, found in the answer |
| CategoryTag.ExtractedShapeWith | backend/app/chat/rag.py:308-330 | For any alias table, the category is "Other", a table value, or verbatim text found in the answer |
| CategoryTag.ExtractedShape | backend/app/chat/rag.py:308-330 | The category is one of the nine labels, or unknown text found verbatim in the answer |
| CategoryTag.NoTagGivesOther | backend/app/chat/rag.py:312-313 | An answer without the tag gives "Other" |
| CategoryTag.RunsAfterSpace | backend/app/chat/rag.py:310 | After one space, the runs stop exactly around a trimmed value |
| CategoryTag.CaptureAtTagged | backend/app/chat/rag.py:310 | The tag followed by one space and a trimmed value captures that value |
| CategoryTag.CaptureTagged | backend/app/chat/rag.py:310-311 | Same at the first tag of the answer |
| CategoryTag.NormaliseTrimmed | backend/app/chat/rag.py:315-330 | A trimmed value is looked up as written |
| CategoryTag.TaggedValue | backend/app/chat/rag.py:308-330 | A tag line "Detected Legal Category: V" gives V's label, or V itself when V is not an alias |
| CategoryTag.ClassRunFrom | backend/app/chat/rag.py:310 | The class run ends at the first non-class character |
| CategoryTag.WomenInClass | backend/app/chat/rag.py:310 | "Women" is all class characters and folds to "women" |
| CategoryTag.CurlyApostropheWith | backend/app/chat/rag.py:238 | A "Women’s Rights" tag line with the typographic apostrophe is read as "Women" |
| CategoryTag.WomenUnknown | backend/app/chat/rag.py:316-330 | "women" is no alias and "Women" no label |
| CategoryTag.CurlyApostropheTruncates | backend/app/chat/rag.py:225-330 | With the real table, that line gives "Women", which is not a label |
| CategoryTag.FixedAgrees | backend/app/chat/rag.py:308-330 | Without a typographic apostrophe, the corrected extractor agrees with the original |
| CategoryTag.TagAtReplaced | backend/app/chat/rag.py:310 | Substituting the apostrophe creates no new tag |
| CategoryTag.NoTagBeforeReplaced | backend/app/chat/rag.py:310-311 | Substituting the apostrophe moves no tag earlier |
| CategoryTag.TagLineReplaced | backend/app/chat/rag.py:238 | The tag line with the typographic apostrophe becomes the plain one |
| CategoryTag.WomensRightsInClass | backend/app/chat/rag.py:310 | "Women's Rights" is a trimmed run of class characters |
| CategoryTag.WomensRightsFolds | backend/app/chat/rag.py:316-326 | "Women's Rights" case-folds to the table key "women's rights" |
| CategoryTag.TagLineFixed | backend/app/chat/rag.py:238 | The substituted answer holds the plain tag line, and the value ends where the original ended |
| CategoryTag.FixedReadsWith | backend/app/chat/rag.py:308-330 | With a table holding the label, the corrected extractor reads "Women's Rights" |
| CategoryTag.FixedReadsCurlyApostrophe | backend/app/chat/rag.py:238-330 | The corrected extractor reads "Women’s Rights" as the label "Women's Rights" |
| RagBot.Answer | backend/app/chat/rag.py:332-342 | `answer` returns the ranked chunks, the model's reply to the prompt built from them, and the category `_extract_detected_category` reads from that reply as written |
| RagBot.AnswerShape | backend/app/chat/rag.py:109-342 | At most `top_k` chunks, ranked; the prompt carries every chunk; the category is a label or verbatim reply text |
| RuleClassifier.MentionsAnyIff | backend/app/chat/category.py:7-29 | `any(word in text …)` holds exactly when some keyword occurs |
| RuleClassifier.FirstMatch | backend/app/chat/category.py:3-31 | The result is "Other" or the category of some rule |
| RuleClassifier.FirstMatchAt | backend/app/chat/category.py:7-29 | The first rule that matches decides |
| RuleClassifier.FirstMatchNone | backend/app/chat/category.py:31 | No matching rule gives "Other" |
| RuleClassifier.FirstMatchDecided | backend/app/chat/category.py:7-31 | With distinct categories, a category is returned only when its rule is the first to match |
| RuleClassifier.RulesDistinct | backend/app/chat/category.py:7-29 | The eight rules name distinct categories, none "Other" |
| RuleClassifier.DetectCategoryIff | backend/app/chat/category.py:3-31 | Rule k's category comes out exactly when rule k matches and no earlier rule does |
| RuleClassifier.DetectOtherIff | backend/app/chat/category.py:31 | "Other" exactly when no keyword of any rule occurs |
| RuleClassifier.FirstMentioned | backend/app/chat/category.py:7-29 | When some rule matches, the first matching rule is found at or before it |
| RuleClassifier.DetectIgnoresCase | backend/app/chat/category.py:4 | The classification ignores letter case |
| RuleClassifier.FamilyFirst | backend/app/chat/category.py:7-8 | A family keyword gives "Family Law" whatever else the message says |
| RuleClassifier.RentInsideParent | backend/app/chat/category.py:10-11 | Keywords match inside words: "parent" gives "Property / Rent Law" unless a family keyword occurs |
| ChatRoute.InferWith | backend/api/route/chat.py:139-144 | The loop returns the first rule's category that matches, or "Other" |
| ChatRoute.InferCategory | backend/api/route/chat.py:139-144 | `_infer_category` over `CATEGORY_KEYWORDS` |
| ChatRoute.CategoryKeywordsWellFormed | backend/api/route/chat.py:60-69 | The eight entries have distinct categories, none "Other", and none without keywords |
| ChatRoute.InferredCategoryIff | backend/api/route/chat.py:139-144 | Category k exactly when one of its keywords occurs in the lower-cased message and no earlier entry's does |
| ChatRoute.InferredOtherIff | backend/api/route/chat.py:144 | "Other" exactly when no keyword occurs |
| ChatRoute.KeywordsFor | backend/api/route/chat.py:135-136 | `dict.get(category, [])`: [] for an unknown category, otherwise some entry's keywords |
| ChatRoute.KeywordsForKey | backend/api/route/chat.py:135-136 | A key maps to its own keywords |
| ChatRoute.MapCategoryIff | backend/api/route/chat.py:135-136 | The keyword list is non-empty exactly for the eight categories; "Other" gives none |
| ChatRoute.SuggestedLawyers | backend/api/route/chat.py:156-199 | No lawyers when the category has no keywords; otherwise exactly the first min(5, n) of the n rows the specialization search returns for its keywords |
| ChatRoute.NoKeywordsNoSearch | backend/api/route/chat.py:162-164 | An unknown category suggests nobody and does not search |
| ChatRoute.FirstLine | backend/api/route/chat.py:151 | `splitlines()[0]` is the prefix up to the first line boundary |
| ChatRoute.LineBreakIsSpace | backend/api/route/chat.py:148-151 | Every line boundary is whitespace |
| ChatRoute.SessionTitleShape | backend/api/route/chat.py:147-153 | The title is "Conversation" for a blank message; otherwise the first line of the stripped message, cut to 60 characters plus "..."; never empty, at most 63 characters |
| ChatRoute.ResolveCategoryShape | backend/api/route/chat.py:216-218 | The bot's category is kept unless it is empty or "Other", then the keyword inference is used; "Other" only when both give none; never empty |
| ChatRoute.Resolve | backend/api/route/chat.py:216-218 | The category step of `chat` |
| ChatRoute.FallbackAnswer | backend/api/route/chat.py:98-113 | The offline bot replies with the fallback text for the inferred category, no chunks, and that category |
| ChatRoute.FallbackTextShape | backend/api/route/chat.py:98-113 | The fallback text names the category and ends with the consultation advice, or the request for detail under "Other" |
| ChatRoute.ShapeChunk | backend/api/route/chat.py:270-282 | A source keeps at most the first 400 characters of the chunk text, and all of it when it is shorter; `chunk_id` is the integer when `int()` accepts it and 0 otherwise; `pdf_path` defaults to "" |
| ChatRoute.NoneValuedKeyKept | backend/api/route/chat.py:268-282 | A chunk whose only key holds None is not skipped, and becomes a source with an empty path, identifier 0 and empty text |
| ChatRoute.Sources | backend/api/route/chat.py:268-283 | No more sources than chunks |
| ChatRoute.ShapeSources | backend/api/route/chat.py:268-283 | The loop builds exactly the sources of the chunks |
| ChatRoute.SourcesAppend | backend/api/route/chat.py:268-283 | Sources of joined chunk lists are joined |
| ChatRoute.SourcesProvenance | backend/api/route/chat.py:268-283 | Every non-empty chunk gives a source, every source comes from one, and no source text exceeds 400 characters |
| ChatRoute.Respond | backend/api/route/chat.py:211-215 | The bot, or the fallback bot when none is loaded, is consulted |
| ChatRoute.ChatDb.constructor | backend/db/models.py:117-142 | The database starts empty and consistent |
| ChatRoute.ChatDb.OpenSession | backend/api/route/chat.py:225-244 | An existing session is touched, or a new one is created for a signed-in user; the session is owned by the requester |
| ChatRoute.ChatDb.Log | backend/api/route/chat.py:246-266 | The user's and the assistant's messages are appended, under the session |
| ChatRoute.ChatDb.Chat | backend/api/route/chat.py:204-299 | Error exactly on a blank message, a failing bot or a bad session, in that order, with nothing changed; otherwise the response, the sessions, the log and the id counter are as specified |
| ChatRoute.BlankNeverConsults | backend/api/route/chat.py:207-209 | A blank message is refused with 400 before any bot is consulted |
| ChatRoute.SessionsAfterFrame | backend/api/route/chat.py:225-244 | Only the used session changes; owners and set titles are kept; a new session belongs to the requester and has a title |
| Bookings.LinkedTo | backend/api/route/booking_requests.py:138-141 | The booking found for a request links to it; none found means none links to it |
| Bookings.LinkedToUnique | backend/db/models.py:61-66 | With unique links, the booking that links to a request is the one found |
| Bookings.StatusKeepsSound | backend/api/route/booking_requests.py:136-161 | A status change keeps every reference and link valid; a booking is added only when accepting an unlinked request; other bookings are unchanged |
| Bookings.AcceptNewKeepsLinks | backend/api/route/booking_requests.py:140-153 | The booking created on accept keeps links valid |
| Bookings.LinkedStatusKeepsLinks | backend/api/route/booking_requests.py:154-161 | Updating the linked booking keeps links valid |
| Bookings.AcceptLinksOneBooking | backend/api/route/booking_requests.py:138-161 | After accept exactly one accepted booking links to the request. A new one copies user, lawyer and notes, with the preferred date or today and the preferred time or 09:00. An existing one fills only a missing date or time. |
| Bookings.OtherStatusCopies | backend/api/route/booking_requests.py:156-161 | Another status is copied onto the linked booking and nothing else changes |
| Bookings.FindLinkIn | backend/api/route/booking_requests.py:138-141 | The lookup finds the booking linked to the request |
| Bookings.StatusBookings | backend/api/route/booking_requests.py:138-161 | The bookings after a status change, and whether one was created |
| Bookings.BookingDb.constructor | backend/db/models.py:55-98 | No requests or bookings, and the given users and lawyers |
| Bookings.BookingDb.PartiesError | backend/api/route/booking_requests.py:22-40 | No error exactly when the user exists with the role "user" and the lawyer profile exists |
| Bookings.BookingDb.CreateBookingRequest | backend/api/route/booking_requests.py:43-74 | Party errors leave everything unchanged; otherwise one new pending request with a fresh id |
| Bookings.BookingDb.FindLinked | backend/api/route/booking_requests.py:138-141 | The lookup on the stored bookings |
| Bookings.BookingDb.UpdateRequestStatus | backend/api/route/booking_requests.py:113-166 | 404 for an unknown request, 400 for an unknown status, both with nothing changed; otherwise the request takes the lower-cased status, and the bookings and the view are as specified |
| Bookings.BookingDb.CreateBooking | backend/api/route/bookings.py:16-69 | Errors for bad parties, an unknown or mismatched request, or a request already booked, with nothing changed; otherwise one new pending booking |
| Bookings.BookingDb.UpdateBookingStatus | backend/api/route/bookings.py:88-110 | 404 for an unknown booking, 400 for an unknown status, with nothing changed; otherwise only that booking's status changes |

## Left out

- Reading PDFs (`read_pdf_text`), the sentence-transformer embedder and FAISS are foreign code.
  - A PDF is given as its path and extracted text, sorted by path.
  - The embedder is a function parameter.
  - A FAISS search is given as its result: a list of hits with a position and a similarity.
- Floating point is not modelled.
  - The similarity `1 / (1 + distance)` is a `real` taken as given.
  - `top_k` bounds the number of hits, so the number of results is bounded by the number of hits.
- The HTTP request to the language model is a function parameter `send`.
  - The reply or the exception text is what it returns.
  - The model name, temperature and system message are not part of the result and are left out.
  - The guidelines text is a parameter, apart from the tag line it asks for, which the findings use.
- `lower()` and `casefold()` use the ASCII case mapping.
  - The exception is the four non-ASCII characters that the regular expression's class admits under IGNORECASE, which `CaseFold` maps as Python does.
  - Non-ASCII upper-case letters elsewhere are not lower-cased.
- `os.sep` is taken to be `/`.
- Dates and times are not read from the clock.
  - `today` (accept without a preferred date) and `now` (session activity) are parameters.
- SQL is not modelled.
  - The specialization search of `get_suggested_lawyers` is a parameter returning already-shaped rows in database order.
  - Its conversion of rows, including floats, is left out.
- Only the chat endpoint is modelled from the chat router. Left out:
  - the voice, text-to-speech and upload endpoints;
  - the session listing and history endpoints;
  - the Whisper model loader.
- `_resolve_bot` becomes an optional bot function. Loading the bot and its exceptions are not modelled.
  - A bot failure is an outcome: a runtime error (503 with its message) or any other error (500).
- ChatRoute.ShapeChunk: `chunk_id` is modelled as an integer, a missing value or a non-number (which gives 0). `int()` of numeric strings and floats is not distinguished.
- ChatRoute.ShapeChunk: a `pdf_path` key holding None is not distinguished from an absent key and gets the default "". The source passes None to the `SourceChunk` schema, which rejects it with an unhandled error. A `chunk_id` or `text` key holding None is modelled: the chunk is kept and shaped with the defaults.
- ChatRoute.ChatDb.Chat: a request title of `""` is treated as no title, as the source's `or` does. Commit failures and their 500 response are not modelled.
- Bookings: the schema declares a booking's date and time NOT NULL, but the code tests them for `None`. The model keeps them optional so that the code's branches are modelled.
  - Database commit failures are not modelled.
  - The listing endpoints of both booking routers are left out, as read-only queries.

## Findings

| source | as written | input that shows it | evidently intended | confidence | as-written member | corrected member |
|---|---|---|---|---|---|---|
| backend/app/chat/rag.py:310 | The category pattern's class `[A-Za-z /'&-]` has only the ASCII apostrophe. The guidelines (backend/app/chat/rag.py:238) show the tag line with the typographic apostrophe U+2019, so the capture stops before it. | An answer containing `Detected Legal Category: Women’s Rights`, tagged nowhere earlier, yields "Women", which is not one of the labels | "Women's Rights" | not executed | CategoryTag.CurlyApostropheTruncates | CategoryTag.FixedReadsCurlyApostrophe |
