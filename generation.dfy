/**
 * Answer generation in the RAG chatbot (`_call_groq`): the context block built
 * from the retrieved chunks, the user message sent to the language model, and
 * the policy of returning an explanatory string instead of raising when the
 * API key is missing or the request fails.
 *
 * The HTTP exchange is outside the model: `send` maps the user message to
 * the endpoint's reply, either the completion text or the failure's message.
 * The instruction block is prose and arrives as the `guidelines` string.
 */
module Generation {
  import opened Wrappers
  import opened Text
  import opened IndexBuilder
  import opened Retrieval

  const MISSING_KEY: string := "Groq API key is missing. Please set GROQ_API_KEY in your .env file."
  // Written in two parts so that the verifier can see its first characters.
  const NO_CONTEXT: string := "\n(" + "No relevant legal context was retrieved from the documents.)\n"
  const SEPARATOR: string := "\n\n--------------------\n\n"
  const CONTEXT_HEADER: string := "\U{1F4DA} LEGAL CONTEXT FROM DOCUMENTS (Indian laws & official guides):\n"
  const QUESTION_HEADER: string := "\n\n\U{1F4AC} USER QUESTION:\n"
  const ERROR_PREFIX: string := "Error calling Groq API: "

  /** `path.split(os.sep)[-1]` with `/` as the separator: what follows the
      last separator, or the whole path when it has none. */
  function LastPathComponent(path: string): (name: string)
    ensures |name| <= |path| && name == path[|path| - |name|..]
    ensures '/' !in name
    ensures |name| < |path| ==> path[|path| - |name| - 1] == '/'
    decreases |path|
  {
    if path == [] || path[|path| - 1] == '/' then []
    else LastPathComponent(path[..|path| - 1]) + [path[|path| - 1]]
  }

  function DigitChar(d: nat): char
    requires d < 10
  {
    ('0' as int + d) as char
  }

  /** The decimal numeral of `n`, as an f-string prints an `int`. */
  function Decimal(n: nat): (s: string)
    ensures s != []
    ensures forall i :: 0 <= i < |s| ==> '0' <= s[i] <= '9'
  {
    if n < 10 then [DigitChar(n)] else Decimal(n / 10) + [DigitChar(n % 10)]
  }

  /** Reads a string of decimal digits back as a number. */
  function DecimalValue(s: string): nat
    requires forall i :: 0 <= i < |s| ==> '0' <= s[i] <= '9'
    decreases |s|
  {
    if s == [] then 0 else 10 * DecimalValue(s[..|s| - 1]) + (s[|s| - 1] as int - '0' as int)
  }

  /** The chunk number in a context header reads back as the chunk id. */
  lemma {:induction false} DecimalRoundTrip(n: nat)
    ensures DecimalValue(Decimal(n)) == n
  {
    if n >= 10 {
      DecimalRoundTrip(n / 10);
      var s := Decimal(n);
      assert s[..|s| - 1] == Decimal(n / 10);
    }
  }

  /** The header line of one retrieved chunk. */
  function Header(c: Candidate): string {
    "[From " + LastPathComponent(c.entry.pdfPath) + ", chunk " + Decimal(c.entry.chunkId) + "]"
  }

  /** A header line followed by a chunk's text, each on its own line. */
  function Framed(header: string, text: string): string {
    "\n" + header + "\n" + text + "\n"
  }

  /** The context text one chunk contributes: its header, then its text. */
  function ContextEntry(c: Candidate): string {
    Framed(Header(c), c.entry.text)
  }

  /** The entries of the chunks, concatenated in order. */
  function ContextEntries(cs: seq<Candidate>): string
    decreases |cs|
  {
    if cs == [] then [] else ContextEntries(cs[..|cs| - 1]) + ContextEntry(cs[|cs| - 1])
  }

  /** The context block: the chunks' entries, or the "no context" line. */
  function ContextBlock(cs: seq<Candidate>): string {
    if cs == [] then NO_CONTEXT else ContextEntries(cs)
  }

  /** The loop of `_call_groq` that builds `context_text`. */
  method BuildContextText(cs: seq<Candidate>) returns (context: string)
    ensures context == ContextBlock(cs)
  {
    if |cs| > 0 {
      context := "";
      for k := 0 to |cs|
        invariant context == ContextEntries(cs[..k])
      {
        assert cs[..k + 1][..k] == cs[..k];
        context := context + ContextEntry(cs[k]);
      }
      assert cs[..|cs|] == cs;
    } else {
      context := NO_CONTEXT;
    }
  }

  /** A non-empty list of chunks yields a block opening with a chunk header,
      which the "no context" line does not. */
  lemma {:induction false} ContextEntriesStart(cs: seq<Candidate>)
    requires cs != []
    ensures |ContextEntries(cs)| >= 2 && ContextEntries(cs)[1] == '['
    decreases |cs|
  {
    var init := cs[..|cs| - 1];
    if init != [] {
      ContextEntriesStart(init);
    }
  }

  /** The "no context" line appears exactly when nothing was retrieved. */
  lemma ContextBlockEmptyIff(cs: seq<Candidate>)
    ensures ContextBlock(cs) == NO_CONTEXT <==> cs == []
  {
    if cs != [] {
      ContextEntriesStart(cs);
      assert NO_CONTEXT[1] == '(';
    }
  }

  lemma FramedHolds(header: string, text: string)
    ensures Contains(Framed(header, text), header) && Contains(Framed(header, text), text)
  {
    var e := Framed(header, text);
    assert e[1..1 + |header|] == header;
    ContainsAt(e, header, 1);
    var t := 1 + |header| + 1;
    assert e[t..t + |text|] == text;
    ContainsAt(e, text, t);
  }

  /** Every chunk's header and text occur in the block. */
  lemma {:induction false} ContextEntriesHold(cs: seq<Candidate>)
    ensures forall c :: c in cs ==>
      Contains(ContextEntries(cs), Header(c)) && Contains(ContextEntries(cs), c.entry.text)
    decreases |cs|
  {
    if cs != [] {
      var init := cs[..|cs| - 1];
      var last := cs[|cs| - 1];
      ContextEntriesHold(init);
      FramedHolds(Header(last), last.entry.text);
      var before := ContextEntries(init);
      forall c | c in cs
        ensures Contains(ContextEntries(cs), Header(c)) && Contains(ContextEntries(cs), c.entry.text)
      {
        ContainsInAppend(before, ContextEntry(last), Header(c));
        ContainsInAppend(before, ContextEntry(last), c.entry.text);
      }
    }
  }

  /** The user message sent to the model. */
  function Prompt(guidelines: string, context: string, question: string): string {
    guidelines + SEPARATOR + CONTEXT_HEADER + context + QUESTION_HEADER + question
  }

  /** The user message opens with the guidelines, carries the context right
      after the context header, and ends with the question verbatim. */
  lemma PromptLayout(guidelines: string, context: string, question: string)
    ensures var p := Prompt(guidelines, context, question);
      var at := |guidelines| + |SEPARATOR| + |CONTEXT_HEADER|;
      && StartsWith(p, guidelines)
      && at + |context| + |QUESTION_HEADER| + |question| == |p|
      && p[at..at + |context|] == context
      && p[|p| - |question|..] == question
  {
  }

  /** What the endpoint answers: the completion text, or a failure (any
      exception while posting, checking the status or reading the JSON). */
  datatype Reply = Completion(content: string) | RequestFailed(message: string)

  /** `not GROQ_API_KEY`: unset or empty. */
  predicate KeyMissing(apiKey: Option<string>) {
    apiKey == None || apiKey == Some([])
  }

  /** The string `_call_groq` returns. */
  function GroqAnswer(apiKey: Option<string>, guidelines: string, question: string,
                      cs: seq<Candidate>, send: string -> Reply): string
  {
    if KeyMissing(apiKey) then MISSING_KEY
    else match send(Prompt(guidelines, ContextBlock(cs), question))
      case Completion(content) => content
      case RequestFailed(message) => ERROR_PREFIX + message
  }

  /** `_call_groq`: it always returns a string; a missing key and a failed
      request are reported in that string rather than raised. */
  method CallGroq(apiKey: Option<string>, guidelines: string, question: string,
                  cs: seq<Candidate>, send: string -> Reply) returns (answer: string)
    ensures answer == GroqAnswer(apiKey, guidelines, question, cs, send)
  {
    if KeyMissing(apiKey) {
      return MISSING_KEY;
    }
    var context := BuildContextText(cs);
    var userMessage := Prompt(guidelines, context, question);
    var reply := send(userMessage);
    match reply {
      case Completion(content) => answer := content;
      case RequestFailed(message) => answer := ERROR_PREFIX + message;
    }
  }

  /** Without a key the endpoint is never consulted: the answer is the same
      whatever the endpoint would have said. */
  lemma MissingKeyNeverSends(apiKey: Option<string>, guidelines: string, question: string,
                             cs: seq<Candidate>, send: string -> Reply, send': string -> Reply)
    requires KeyMissing(apiKey)
    ensures GroqAnswer(apiKey, guidelines, question, cs, send) == GroqAnswer(apiKey, guidelines, question, cs, send')
    ensures GroqAnswer(apiKey, guidelines, question, cs, send) == MISSING_KEY
  {
  }

  /** A failed request is reported by a message that names the failure. */
  lemma FailureIsReported(apiKey: Option<string>, guidelines: string, question: string,
                          cs: seq<Candidate>, send: string -> Reply)
    requires !KeyMissing(apiKey)
    requires send(Prompt(guidelines, ContextBlock(cs), question)).RequestFailed?
    ensures var answer := GroqAnswer(apiKey, guidelines, question, cs, send);
      StartsWith(answer, ERROR_PREFIX)
      && answer[|ERROR_PREFIX|..] == send(Prompt(guidelines, ContextBlock(cs), question)).message
  {
  }

  /** The user message carries the header and text of every retrieved chunk,
      and the question. */
  lemma PromptCarriesChunks(guidelines: string, question: string, cs: seq<Candidate>)
    ensures var p := Prompt(guidelines, ContextBlock(cs), question);
      && Contains(p, question)
      && forall c :: c in cs ==> Contains(p, Header(c)) && Contains(p, c.entry.text)
  {
    var ctx := ContextBlock(cs);
    var pre := guidelines + SEPARATOR + CONTEXT_HEADER;
    var p := Prompt(guidelines, ctx, question);
    assert OccursAt(question, question, 0);
    ContainsAt(question, question, 0);
    ContainsInAppend(pre + ctx + QUESTION_HEADER, question, question);
    ContextEntriesHold(cs);
    forall c | c in cs
      ensures Contains(p, Header(c)) && Contains(p, c.entry.text)
    {
      assert ctx == ContextEntries(cs);
      ContainsInAppend(pre, ctx, Header(c));
      ContainsInAppend(pre + ctx, QUESTION_HEADER, Header(c));
      ContainsInAppend(pre + ctx + QUESTION_HEADER, question, Header(c));
      ContainsInAppend(pre, ctx, c.entry.text);
      ContainsInAppend(pre + ctx, QUESTION_HEADER, c.entry.text);
      ContainsInAppend(pre + ctx + QUESTION_HEADER, question, c.entry.text);
    }
  }
}
