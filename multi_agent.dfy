/**
 * The multi-agent question-answering script: a retrieval agent fetches the
 * page contents closest to the question, an answer agent asks the language
 * model to answer from that context, and a verifier agent asks it to check
 * the answer against the same context. The run records one trace per agent.
 *
 * The vector store's similarity search and the language model are oracles
 * passed in as functions; every request made to them is returned, in order,
 * so that the number, order and contents of the calls can be stated.
 */
module MultiAgent {
  import opened Wrappers
  import opened Text
  import opened Documents

  /** How many documents the retrieval agent asks for. */
  const MAX_CONTEXT_DOCS: nat := 4

  /** What separates two page contents in the context. */
  const CONTEXT_SEPARATOR: string := "\n\n"

  /** The answer given, without asking the model, when retrieval found nothing. */
  const NO_CONTEXT_ANSWER: string := "I don't have any relevant context to answer that question."

  /** The retrieval trace's output when the context is empty. */
  const NO_CONTEXT_TRACE: string := "[no relevant context retrieved]"

  /** Environment variables the script reads. */
  const COLLECTION_NAME: string := "COLLECTION_NAME"
  const OPENAI_API_KEY: string := "OPENAI_API_KEY"

  /** `vectorStore.similaritySearch(query, k)`: the documents found, or the error it rejects with. */
  type Search = (string, nat) -> Result<seq<Document>, string>

  /** `llm.call(prompt)`: the model's completion, or the error it rejects with. */
  type Llm = string -> Result<string, string>

  /** A request made to one of the two services. */
  datatype Request = SimilaritySearch(query: string, k: nat) | LlmCall(prompt: string)

  /** What one agent returns (or rejects with) and the requests it made, in order. */
  datatype Stage = Stage(output: Result<string, string>, requests: seq<Request>)

  /** The three agents. */
  datatype Agent = Retrieval | Answer | Verifier

  /** One record of the run's trace. */
  datatype AgentTrace = AgentTrace(agent: Agent, output: string)

  /** The traces of a run (or the error that ended it) and every request it made, in order. */
  datatype Outcome = Outcome(traces: Result<seq<AgentTrace>, string>, requests: seq<Request>)

  // ---------------------------------------------------------------------
  // The agents
  // ---------------------------------------------------------------------

  /** `docs.map((doc) => doc.pageContent)`. */
  function PageContents(docs: seq<Document>): (pages: seq<string>)
    ensures |pages| == |docs|
    ensures forall i :: 0 <= i < |docs| ==> pages[i] == docs[i].pageContent
  {
    seq(|docs|, i requires 0 <= i < |docs| => docs[i].pageContent)
  }

  /** `retrievalAgent`: one similarity search for the question, its page contents joined by blank lines. */
  function RetrievalAgent(search: Search, question: string): Stage
  {
    var request := SimilaritySearch(question, MAX_CONTEXT_DOCS);
    match search(question, MAX_CONTEXT_DOCS)
    case Err(e) => Stage(Err(e), [request])
    case Ok(docs) => Stage(Ok(Join(PageContents(docs), CONTEXT_SEPARATOR)), [request])
  }

  /** The fixed opening of the answer agent's prompt. */
  const ANSWER_INSTRUCTIONS: string := "You are an AI assistant. Use the context below to answer the question.\n\nContext:\n"

  /** What introduces the question in both prompts. */
  const QUESTION_LABEL: string := "\n\nQuestion: "

  /** What ends the answer agent's prompt. */
  const ANSWER_LABEL: string := "\nAnswer:"

  /** The answer agent's prompt. */
  function AnswerPrompt(question: string, context: string): string
  {
    ANSWER_INSTRUCTIONS + context + QUESTION_LABEL + question + ANSWER_LABEL
  }

  /** `answerAgent`: the fixed reply on an empty context, otherwise the model's trimmed answer. */
  function AnswerAgent(llm: Llm, question: string, context: string): Stage
  {
    if context == "" then Stage(Ok(NO_CONTEXT_ANSWER), [])
    else
      var prompt := AnswerPrompt(question, context);
      match llm(prompt)
      case Err(e) => Stage(Err(e), [LlmCall(prompt)])
      case Ok(response) => Stage(Ok(Trim(response)), [LlmCall(prompt)])
  }

  /** The fixed opening of the verifier agent's prompt. */
  const VERIFY_INSTRUCTIONS: string :=
    "Verify that the proposed answer is fully supported by the context. If it is, return the answer unchanged. "
    + "Otherwise, respond with 'I don't know'.\n\nContext:\n"

  /** What introduces the answer under review in the verifier's prompt. */
  const PROPOSED_LABEL: string := "\nProposed Answer: "

  /** What ends the verifier agent's prompt. */
  const VERIFIED_LABEL: string := "\nVerified Answer:"

  /** The verifier agent's prompt. */
  function VerifyPrompt(question: string, context: string, answer: string): string
  {
    VERIFY_INSTRUCTIONS + context + QUESTION_LABEL + question + PROPOSED_LABEL + answer + VERIFIED_LABEL
  }

  /** `verifierAgent`: the model's trimmed verdict on the answer. */
  function VerifierAgent(llm: Llm, question: string, context: string, answer: string): Stage
  {
    var prompt := VerifyPrompt(question, context, answer);
    match llm(prompt)
    case Err(e) => Stage(Err(e), [LlmCall(prompt)])
    case Ok(response) => Stage(Ok(Trim(response)), [LlmCall(prompt)])
  }

  /** The retrieval trace's output: `context || '[no relevant context retrieved]'`. */
  function RetrievalTrace(context: string): string
  {
    if context != "" then context else NO_CONTEXT_TRACE
  }

  // ---------------------------------------------------------------------
  // Properties of the agents
  // ---------------------------------------------------------------------

  /** Retrieval makes exactly one request, a search for the question asking for at most four documents. */
  lemma RetrievalRequest(search: Search, question: string)
    ensures RetrievalAgent(search, question).requests == [SimilaritySearch(question, MAX_CONTEXT_DOCS)]
    ensures RetrievalAgent(search, question).output.Ok? <==> search(question, MAX_CONTEXT_DOCS).Ok?
  {
  }

  /** The context is empty exactly when the search found nothing, or a single document with no text. */
  lemma RetrievalEmptyContext(search: Search, question: string)
    requires search(question, MAX_CONTEXT_DOCS).Ok?
    ensures var docs := search(question, MAX_CONTEXT_DOCS).value;
            (RetrievalAgent(search, question).output == Ok(""))
            <==> (docs == [] || (|docs| == 1 && docs[0].pageContent == ""))
  {
    JoinEmptyIff(PageContents(search(question, MAX_CONTEXT_DOCS).value), CONTEXT_SEPARATOR);
  }

  /** Every page found occurs in the context. */
  lemma RetrievalKeepsPages(search: Search, question: string, i: nat)
    requires search(question, MAX_CONTEXT_DOCS).Ok? && i < |search(question, MAX_CONTEXT_DOCS).value|
    ensures RetrievalAgent(search, question).output.Ok?
    ensures Occurs(search(question, MAX_CONTEXT_DOCS).value[i].pageContent,
                   RetrievalAgent(search, question).output.value)
  {
    JoinContainsParts(PageContents(search(question, MAX_CONTEXT_DOCS).value), CONTEXT_SEPARATOR, i);
  }

  /** The pages appear in search order: the first `k` pages, a blank line, then the rest. */
  lemma RetrievalKeepsOrder(search: Search, question: string, k: nat)
    requires search(question, MAX_CONTEXT_DOCS).Ok? && 0 < k < |search(question, MAX_CONTEXT_DOCS).value|
    ensures var pages := PageContents(search(question, MAX_CONTEXT_DOCS).value);
            RetrievalAgent(search, question).output
            == Ok(Join(pages[..k], CONTEXT_SEPARATOR) + CONTEXT_SEPARATOR + Join(pages[k..], CONTEXT_SEPARATOR))
  {
    JoinSplit(PageContents(search(question, MAX_CONTEXT_DOCS).value), CONTEXT_SEPARATOR, k);
  }

  /** The answer prompt holds the whole context and the whole question. */
  lemma AnswerPromptHolds(question: string, context: string)
    ensures Occurs(context, AnswerPrompt(question, context))
    ensures Occurs(question, AnswerPrompt(question, context))
  {
    OccursInTemplate2(ANSWER_INSTRUCTIONS, context, QUESTION_LABEL, question, ANSWER_LABEL);
  }

  /** The verification prompt holds the context, the question and the proposed answer. */
  lemma VerifyPromptHolds(question: string, context: string, answer: string)
    ensures Occurs(context, VerifyPrompt(question, context, answer))
    ensures Occurs(question, VerifyPrompt(question, context, answer))
    ensures Occurs(answer, VerifyPrompt(question, context, answer))
  {
    OccursInTemplate3(VERIFY_INSTRUCTIONS, context, QUESTION_LABEL, question, PROPOSED_LABEL, answer, VERIFIED_LABEL);
  }

  /** On an empty context the answer agent replies with the fixed sentence and does not call the model. */
  lemma AnswerShortCircuits(llm: Llm, question: string)
    ensures AnswerAgent(llm, question, "").requests == []
    ensures AnswerAgent(llm, question, "").output == Ok(NO_CONTEXT_ANSWER)
  {
  }

  /**
   * On a non-empty context the answer agent calls the model exactly once,
   * on a prompt holding the context and the question, and answers with the
   * trimmed response (or fails with the model's error).
   */
  lemma AnswerCallsOnce(llm: Llm, question: string, context: string)
    requires context != ""
    ensures var s := AnswerAgent(llm, question, context);
            && |s.requests| == 1 && s.requests[0].LlmCall?
            && Occurs(context, s.requests[0].prompt) && Occurs(question, s.requests[0].prompt)
            && (s.output.Ok? <==> llm(s.requests[0].prompt).Ok?)
            && (s.output.Ok? ==> s.output.value == Trim(llm(s.requests[0].prompt).value) && IsTrimmed(s.output.value))
  {
    AnswerPromptHolds(question, context);
  }

  /**
   * The verifier calls the model exactly once, whatever the answer (the
   * no-context sentence included), on a prompt holding the context, the
   * question and the answer, and returns the trimmed response.
   */
  lemma VerifierCallsOnce(llm: Llm, question: string, context: string, answer: string)
    ensures var s := VerifierAgent(llm, question, context, answer);
            && |s.requests| == 1 && s.requests[0].LlmCall?
            && Occurs(context, s.requests[0].prompt) && Occurs(question, s.requests[0].prompt)
            && Occurs(answer, s.requests[0].prompt)
            && (s.output.Ok? <==> llm(s.requests[0].prompt).Ok?)
            && (s.output.Ok? ==> s.output.value == Trim(llm(s.requests[0].prompt).value) && IsTrimmed(s.output.value))
  {
    VerifyPromptHolds(question, context, answer);
  }

  // ---------------------------------------------------------------------
  // The run
  // ---------------------------------------------------------------------

  /** What `run(question)` does: retrieval, then answer, then verification, stopping at the first rejection. */
  function Pipeline(search: Search, llm: Llm, question: string): Outcome
  {
    var retrieval := RetrievalAgent(search, question);
    match retrieval.output
    case Err(e) => Outcome(Err(e), retrieval.requests)
    case Ok(context) =>
      var answer := AnswerAgent(llm, question, context);
      var soFar := retrieval.requests + answer.requests;
      match answer.output
      case Err(e) => Outcome(Err(e), soFar)
      case Ok(a) =>
        var verifier := VerifierAgent(llm, question, context, a);
        match verifier.output
        case Err(e) => Outcome(Err(e), soFar + verifier.requests)
        case Ok(v) =>
          Outcome(Ok([AgentTrace(Retrieval, RetrievalTrace(context)), AgentTrace(Answer, a), AgentTrace(Verifier, v)]),
                  soFar + verifier.requests)
  }

  /**
   * `run(question)`: awaits each agent in turn and pushes its trace. A
   * rejection ends the run with that error; the traces are only logged
   * once all three agents have answered.
   */
  method Run(search: Search, llm: Llm, question: string) returns (o: Outcome)
    ensures o == Pipeline(search, llm, question)
  {
    var traces: seq<AgentTrace> := [];
    var requests: seq<Request> := [];

    var retrieval := RetrievalAgent(search, question);
    requests := requests + retrieval.requests;
    assert requests == retrieval.requests;
    if retrieval.output.Err? {
      return Outcome(Err(retrieval.output.error), requests);
    }
    var context := retrieval.output.value;
    traces := traces + [AgentTrace(Retrieval, if context != "" then context else NO_CONTEXT_TRACE)];

    var answer := AnswerAgent(llm, question, context);
    requests := requests + answer.requests;
    if answer.output.Err? {
      return Outcome(Err(answer.output.error), requests);
    }
    traces := traces + [AgentTrace(Answer, answer.output.value)];

    var verified := VerifierAgent(llm, question, context, answer.output.value);
    requests := requests + verified.requests;
    if verified.output.Err? {
      return Outcome(Err(verified.output.error), requests);
    }
    traces := traces + [AgentTrace(Verifier, verified.output.value)];
    assert traces == [AgentTrace(Retrieval, RetrievalTrace(context)), AgentTrace(Answer, answer.output.value),
                      AgentTrace(Verifier, verified.output.value)];
    o := Outcome(Ok(traces), requests);
  }

  /**
   * A completed run records exactly three traces, retrieval, answer and
   * verifier in that order; the retrieval trace shows the context or, when
   * it is empty, the placeholder; and the answer and verifier agents were
   * given the context retrieval produced.
   */
  lemma PipelineTraces(search: Search, llm: Llm, question: string)
    requires Pipeline(search, llm, question).traces.Ok?
    ensures var ts := Pipeline(search, llm, question).traces.value;
            var context := RetrievalAgent(search, question).output.value;
            && RetrievalAgent(search, question).output.Ok?
            && |ts| == 3
            && ts[0].agent == Retrieval && ts[1].agent == Answer && ts[2].agent == Verifier
            && (context != "" ==> ts[0].output == context)
            && (context == "" ==> ts[0].output == NO_CONTEXT_TRACE)
            && AnswerAgent(llm, question, context).output == Ok(ts[1].output)
            && VerifierAgent(llm, question, context, ts[1].output).output == Ok(ts[2].output)
  {
  }

  /** The model calls the answer agent makes: none on an empty context, otherwise one on the answer prompt. */
  function AnswerRequests(question: string, context: string): seq<Request>
  {
    if context == "" then [] else [LlmCall(AnswerPrompt(question, context))]
  }

  /**
   * Once retrieval and the answer agent have succeeded, the requests are the
   * search, the answer agent's calls and one verifier call on the answer it
   * gave, whatever the verifier then returns.
   */
  lemma PipelineRequestList(search: Search, llm: Llm, question: string)
    requires RetrievalAgent(search, question).output.Ok?
    requires AnswerAgent(llm, question, RetrievalAgent(search, question).output.value).output.Ok?
    ensures var context := RetrievalAgent(search, question).output.value;
            var answer := AnswerAgent(llm, question, context).output.value;
            Pipeline(search, llm, question).requests
            == [SimilaritySearch(question, MAX_CONTEXT_DOCS)] + AnswerRequests(question, context)
               + [LlmCall(VerifyPrompt(question, context, answer))]
  {
    var retrieval := RetrievalAgent(search, question);
    var context := retrieval.output.value;
    var answer := AnswerAgent(llm, question, context);
    var verifier := VerifierAgent(llm, question, context, answer.output.value);
    assert Pipeline(search, llm, question).requests == retrieval.requests + answer.requests + verifier.requests;
    assert answer.requests == AnswerRequests(question, context);
  }

  /** The search, the answer agent's calls and the verifier call: the shape, order and prompt contents of that list. */
  lemma RequestListFacts(question: string, context: string, answer: string)
    ensures var rs := [SimilaritySearch(question, MAX_CONTEXT_DOCS)] + AnswerRequests(question, context)
                      + [LlmCall(VerifyPrompt(question, context, answer))];
            && |rs| == (if context == "" then 2 else 3)
            && rs[0] == SimilaritySearch(question, MAX_CONTEXT_DOCS)
            && (forall i :: 1 <= i < |rs| ==> rs[i].LlmCall? && Occurs(context, rs[i].prompt) && Occurs(question, rs[i].prompt))
            && (context != "" ==> rs[1] == LlmCall(AnswerPrompt(question, context)))
            && rs[|rs| - 1] == LlmCall(VerifyPrompt(question, context, answer))
  {
    var s, v := SimilaritySearch(question, MAX_CONTEXT_DOCS), LlmCall(VerifyPrompt(question, context, answer));
    VerifyPromptHolds(question, context, answer);
    if context == "" {
      assert [s] + AnswerRequests(question, context) + [v] == [s, v];
    } else {
      AnswerPromptHolds(question, context);
      assert [s] + AnswerRequests(question, context) + [v] == [s, LlmCall(AnswerPrompt(question, context)), v];
    }
  }

  /**
   * The search comes first. A completed run then calls the model once more
   * for the verifier, and once before it for the answer unless the context
   * is empty; every model prompt holds the retrieved context and the question.
   */
  lemma PipelineRequests(search: Search, llm: Llm, question: string)
    requires Pipeline(search, llm, question).traces.Ok?
    ensures var rs := Pipeline(search, llm, question).requests;
            var context := RetrievalAgent(search, question).output.value;
            && RetrievalAgent(search, question).output.Ok?
            && |rs| == (if context == "" then 2 else 3)
            && rs[0] == SimilaritySearch(question, MAX_CONTEXT_DOCS)
            && (forall i :: 1 <= i < |rs| ==> rs[i].LlmCall? && Occurs(context, rs[i].prompt) && Occurs(question, rs[i].prompt))
            && (context != "" ==> rs[1] == LlmCall(AnswerPrompt(question, context)))
            && rs[|rs| - 1] == LlmCall(VerifyPrompt(question, context, Pipeline(search, llm, question).traces.value[1].output))
  {
    PipelineTraces(search, llm, question);
    PipelineRequestList(search, llm, question);
    var context := RetrievalAgent(search, question).output.value;
    RequestListFacts(question, context, AnswerAgent(llm, question, context).output.value);
  }

  /** With nothing retrieved, the model is still asked once: to verify the fixed no-context sentence. */
  lemma PipelineEmptyContext(search: Search, llm: Llm, question: string)
    requires RetrievalAgent(search, question).output == Ok("")
    ensures Pipeline(search, llm, question).requests
            == [SimilaritySearch(question, MAX_CONTEXT_DOCS), LlmCall(VerifyPrompt(question, "", NO_CONTEXT_ANSWER))]
  {
  }

  /** A rejected answer-model call ends the run with its error; the verifier is never asked. */
  lemma PipelineAnswerFails(search: Search, llm: Llm, question: string)
    requires RetrievalAgent(search, question).output.Ok?
    requires AnswerAgent(llm, question, RetrievalAgent(search, question).output.value).output.Err?
    ensures var context := RetrievalAgent(search, question).output.value;
            && Pipeline(search, llm, question).traces == Err(AnswerAgent(llm, question, context).output.error)
            && Pipeline(search, llm, question).requests
               == [SimilaritySearch(question, MAX_CONTEXT_DOCS), LlmCall(AnswerPrompt(question, context))]
  {
  }

  /** A rejected verifier call ends the run with its error, after all three requests. */
  lemma PipelineVerifierFails(search: Search, llm: Llm, question: string)
    requires RetrievalAgent(search, question).output.Ok?
    requires AnswerAgent(llm, question, RetrievalAgent(search, question).output.value).output.Ok?
    requires var context := RetrievalAgent(search, question).output.value;
             var answer := AnswerAgent(llm, question, context).output.value;
             VerifierAgent(llm, question, context, answer).output.Err?
    ensures var context := RetrievalAgent(search, question).output.value;
            var answer := AnswerAgent(llm, question, context).output.value;
            && Pipeline(search, llm, question).traces == Err(VerifierAgent(llm, question, context, answer).output.error)
            && Pipeline(search, llm, question).requests
               == [SimilaritySearch(question, MAX_CONTEXT_DOCS)] + AnswerRequests(question, context)
                  + [LlmCall(VerifyPrompt(question, context, answer))]
  {
    PipelineRequestList(search, llm, question);
  }

  /** A failed search ends the run before the model is called. */
  lemma PipelineSearchFails(search: Search, llm: Llm, question: string)
    requires search(question, MAX_CONTEXT_DOCS).Err?
    ensures Pipeline(search, llm, question).traces == Err(search(question, MAX_CONTEXT_DOCS).error)
    ensures Pipeline(search, llm, question).requests == [SimilaritySearch(question, MAX_CONTEXT_DOCS)]
  {
  }

  // ---------------------------------------------------------------------
  // The command line
  // ---------------------------------------------------------------------

  /** `process.env[key]` is truthy: present and not empty. */
  predicate EnvSet(env: map<string, string>, key: string)
  {
    key in env && env[key] != ""
  }

  /** `process.argv.slice(2).join(' ')`. */
  function QuestionOf(argv: seq<string>): string
  {
    Join(if |argv| <= 2 then [] else argv[2..], " ")
  }

  /** The question is empty exactly when no argument was given, or a single empty one. */
  lemma QuestionEmptyIff(argv: seq<string>)
    ensures QuestionOf(argv) == "" <==> |argv| <= 2 || (|argv| == 3 && argv[2] == "")
  {
    JoinEmptyIff(if |argv| <= 2 then [] else argv[2..], " ");
  }

  /**
   * The script: importing the configuration throws when `COLLECTION_NAME`
   * is unset; then an empty question, or a missing `OPENAI_API_KEY`, exits
   * with status 1 before any agent runs. Otherwise the run's traces are
   * logged and the status is 0, or its error is reported with status 1.
   */
  method Cli(argv: seq<string>, env: map<string, string>, search: Search, llm: Llm)
    returns (exitCode: int, requests: seq<Request>, logged: seq<AgentTrace>)
    ensures !(EnvSet(env, COLLECTION_NAME) && QuestionOf(argv) != "" && EnvSet(env, OPENAI_API_KEY))
            ==> exitCode == 1 && requests == [] && logged == []
    ensures EnvSet(env, COLLECTION_NAME) && QuestionOf(argv) != "" && EnvSet(env, OPENAI_API_KEY)
            ==> var o := Pipeline(search, llm, QuestionOf(argv));
                && requests == o.requests
                && (exitCode == 0 <==> o.traces.Ok?) && (exitCode == 0 || exitCode == 1)
                && logged == (if o.traces.Ok? then o.traces.value else [])
  {
    requests, logged := [], [];
    if !EnvSet(env, COLLECTION_NAME) {
      return 1, requests, logged;
    }
    var question := QuestionOf(argv);
    if question == "" {
      return 1, requests, logged;
    }
    if !EnvSet(env, OPENAI_API_KEY) {
      return 1, requests, logged;
    }
    var o := Run(search, llm, question);
    requests := o.requests;
    if o.traces.Err? {
      return 1, requests, logged;
    }
    logged := o.traces.value;
    exitCode := 0;
  }
}
