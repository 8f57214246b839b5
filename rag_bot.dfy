/**
 * The main flow of the retrieval chatbot (`RAGChatbot.answer`): retrieve and
 * rank chunks for the question, ask the language model with those chunks
 * as context, and read the detected category out of the reply.
 *
 * The vector search is represented by its result `hits`, the endpoint by
 * `send`, and the configuration by `apiKey` and `guidelines`.
 */
module RagBot {
  import opened Wrappers
  import opened Text
  import opened IndexBuilder
  import opened Retrieval
  import opened Generation
  import opened CategoryTag

  /** `answer`: the ranked chunks, the model's reply built from them, and
      the category that reply names. */
  method Answer(question: string, hits: seq<Hit>, metadata: seq<Entry>, apiKey: Option<string>,
                guidelines: string, send: string -> Reply)
    returns (answer: string, chunks: seq<Candidate>, category: string)
    ensures chunks == Rank(CandidatesOf(hits, metadata, question))
    ensures answer == GroqAnswer(apiKey, guidelines, question, chunks, send)
    ensures category == ExtractCategory(answer)
  {
    chunks := Search(question, hits, metadata);
    answer := CallGroq(apiKey, guidelines, question, chunks, send);
    category := ExtractCategory(answer);
  }

  /** The reply of the model is asked with every retrieved chunk and the
      question in the user message; the chunks are the ranked in-range hits;
      and the category is a known label or text found verbatim in the reply. */
  lemma AnswerShape(question: string, hits: seq<Hit>, metadata: seq<Entry>, apiKey: Option<string>,
                    guidelines: string, send: string -> Reply)
    ensures var chunks := Rank(CandidatesOf(hits, metadata, question));
      var answer := GroqAnswer(apiKey, guidelines, question, chunks, send);
      var category := ExtractCategory(answer);
      var prompt := Prompt(guidelines, ContextBlock(chunks), question);
      && |chunks| <= |hits| && Ranked(chunks)
      && (forall c :: c in chunks ==> Contains(prompt, Header(c)) && Contains(prompt, c.entry.text))
      && (category in LABELS
          || (Verbatim(ALIASES, category) && Contains(answer, category)))
  {
    SearchResult(question, hits, metadata);
    PromptCarriesChunks(guidelines, question, Rank(CandidatesOf(hits, metadata, question)));
    ExtractedShape(GroqAnswer(apiKey, guidelines, question, Rank(CandidatesOf(hits, metadata, question)), send));
  }
}
