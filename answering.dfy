/**
 * module_04/utils.py: reading the uploaded file, indexing it, retrieving the
 * context, and answering a question through one of four backend adapters chosen
 * by the model table.
 *
 * Every foreign service (the vector store, the hosted inference API, the chat
 * clients, the UTF-8 decoder) is a function parameter: an oracle that either
 * replies or raises. What the model keeps is the request each adapter builds,
 * the routing, and the uniform `(answer, score, error)` triple.
 */
module Answering {
  import opened Wrappers
  import opened Text
  import C = Constants

  /** The exceptions the source catches as `ex`. */
  datatype Exception =
    | IndexError                        // `.values[0]` or `[0][0]` on an empty selection
    | NameError(name: string)           // a name that is defined nowhere
    | UnboundLocalError(name: string)   // a local variable read before it is bound
    | UnicodeDecodeError                // `bytes.decode("utf-8")` on malformed input
    | ClientError(detail: string)       // raised by a foreign client or by parsing its reply

  /** The third component of every triple: `""` on success, the caught exception otherwise. */
  datatype ErrorSlot = NoError | Raised(ex: Exception)

  /** The `(answer, score, error)` triple. */
  datatype Answer = Answer(text: string, score: real, error: ErrorSlot)

  const NoAnswerMessage: string := "Apologies but I could not find any relevant answer"
  const NoIngestMessage: string := "Apologies but I could not ingest document"
  const NoQueryMessage: string := "Apologies but I could not process your query"

  /** The triple of every `except` clause: a fixed message, score 0.0, the exception. */
  function Fallback(message: string, ex: Exception): Answer {
    Answer(message, 0.0, Raised(ex))
  }

  /** `{"question": question, "context": context}` */
  datatype Payload = Payload(question: string, context: string)

  // ---------------------------------------------------------------- get_lines

  /**
   * `get_lines(uploaded_file)`: decode every line of the upload as UTF-8, in order.
   * A line that does not decode raises, and the exception leaves the function.
   */
  method GetLines(uploadedFile: seq<seq<bv8>>, decodeUtf8: seq<bv8> -> Option<string>)
    returns (r: Result<seq<string>, Exception>)
    ensures r.Ok? <==> forall k :: 0 <= k < |uploadedFile| ==> decodeUtf8(uploadedFile[k]).Some?
    ensures r.Ok? ==> |r.value| == |uploadedFile|
    ensures r.Ok? ==> forall k :: 0 <= k < |uploadedFile| ==> r.value[k] == decodeUtf8(uploadedFile[k]).value
    ensures r.Err? ==> r.error == UnicodeDecodeError
  {
    var rawData: seq<string> := [];
    var i := 0;
    while i < |uploadedFile|
      invariant 0 <= i <= |uploadedFile|
      invariant |rawData| == i
      invariant forall k :: 0 <= k < i ==> decodeUtf8(uploadedFile[k]).Some?
      invariant forall k :: 0 <= k < i ==> rawData[k] == decodeUtf8(uploadedFile[k]).value
    {
      match decodeUtf8(uploadedFile[i]) {
        case None =>
          return Err(UnicodeDecodeError);
        case Some(line) =>
          rawData := rawData + [line];
      }
      i := i + 1;
    }
    return Ok(rawData);
  }

  // ---------------------------------------------------------------- load_data

  /** `[str(i) for i in range(n)]` */
  function DocumentIds(n: nat): seq<string> {
    seq(n, i requires 0 <= i < n => NatToString(i))
  }

  /** The ids give every document its own key, and each id reads back as its position. */
  lemma DocumentIdsNumberInOrder(n: nat)
    ensures |DocumentIds(n)| == n
    ensures forall i :: 0 <= i < n ==> ParseNat(DocumentIds(n)[i]) == i
    ensures forall i, j :: 0 <= i < j < n ==> DocumentIds(n)[i] != DocumentIds(n)[j]
  {
    forall i | 0 <= i < n ensures ParseNat(DocumentIds(n)[i]) == i {
      ParseNatToString(i);
    }
  }

  /** The arguments of `db.add(documents=..., ids=...)`. */
  datatype AddRequest = AddRequest(documents: seq<string>, ids: seq<string>)

  /**
   * `load_data(db, documents)`: index the documents under ids "0", "1", ...
   * `add` is the vector store: `None` when it accepts, `Some(ex)` when it raises.
   * The source returns nothing (`None`) on success and a fallback triple on failure.
   */
  function LoadData(documents: seq<string>, add: AddRequest -> Option<Exception>): (r: Option<Answer>)
    ensures r.None? <==> add(AddRequest(documents, DocumentIds(|documents|))).None?
    ensures r.Some? ==>
      r.value == Fallback(NoIngestMessage, add(AddRequest(documents, DocumentIds(|documents|))).value)
  {
    match add(AddRequest(documents, DocumentIds(|documents|)))
    case None => None
    case Some(ex) => Some(Fallback(NoIngestMessage, ex))
  }

  // ---------------------------------------------------------------- get_relevant_documents

  /** The arguments of `db.query(query_texts=..., n_results=...)`. */
  datatype QueryRequest = QueryRequest(queryTexts: seq<string>, nResults: nat)

  /** What `get_relevant_documents` returns: a bare document, or a fallback triple. */
  datatype Retrieved = Document(text: string) | Apology(answer: Answer)

  /**
   * `get_relevant_documents(query, db)`: the first document of the first result
   * list of a one-result query. `dbQuery` gives the `'documents'` lists or raises.
   */
  function GetRelevantDocuments(query: string, dbQuery: QueryRequest -> Result<seq<seq<string>>, Exception>)
    : (r: Retrieved)
    ensures r.Document? <==>
      var res := dbQuery(QueryRequest([query], 1));
      res.Ok? && |res.value| > 0 && |res.value[0]| > 0
    ensures r.Document? ==> r.text == dbQuery(QueryRequest([query], 1)).value[0][0]
    ensures dbQuery(QueryRequest([query], 1)).Err? ==>
      r == Apology(Fallback(NoQueryMessage, dbQuery(QueryRequest([query], 1)).error))
    ensures dbQuery(QueryRequest([query], 1)).Ok? && r.Apology? ==> r.answer == Fallback(NoQueryMessage, IndexError)
  {
    match dbQuery(QueryRequest([query], 1))
    case Err(ex) => Apology(Fallback(NoQueryMessage, ex))
    case Ok(documents) =>
      if |documents| > 0 && |documents[0]| > 0 then Document(documents[0][0])
      else Apology(Fallback(NoQueryMessage, IndexError))
  }

  // ---------------------------------------------------------------- backends and adapters

  /** What a backend call yields once its reply is parsed: an answer and a score, or an exception. */
  datatype BackendReply = Replied(answer: string, score: real) | Failed(ex: Exception)

  /** `requests.request(verb, url, headers=..., data=json.dumps(body))` */
  datatype HttpRequest = HttpRequest(verb: string, url: string, headers: map<string, string>, body: Payload)

  /** What the single user turn of a chat prompt asks the model to do. */
  datatype PromptTask =
    | AnswerFromContext          // answer the question from the context
    | AnswerAsCheckedJson        // answer briefly, check the answer against the context, score 0..1, JSON only
    | AnswerAsJson               // answer briefly, give a relevance score, JSON output

  /** One chat completion call: the client's model and key, and one user message. */
  datatype ChatRequest = ChatRequest(
    model: string, apiKey: Option<string>, maxTokens: Option<nat>,
    role: string, task: PromptTask, context: string, question: string)

  /** The four services, each a black box. */
  datatype Backends = Backends(
    hfInference: HttpRequest -> BackendReply,
    hfChat: ChatRequest -> BackendReply,
    ollama: ChatRequest -> BackendReply,
    openAi: ChatRequest -> BackendReply)

  const QaApiPrefix: string := "https://api-inference.huggingface.co/models/"

  /** The request of `get_hf_qa_answer`: POST the payload to the model's inference URL. */
  function QaRequest(payload: Payload, lmModel: string): HttpRequest {
    HttpRequest("POST", QaApiPrefix + lmModel, C.Headers, payload)
  }

  /** The request of `get_hf_llm_answer`: a fixed gemma model, 500 tokens at most. */
  function GemmaRequest(payload: Payload): ChatRequest {
    ChatRequest("google/gemma-2-2b-it", Some(C.HfToken), Some(500),
                "user", AnswerFromContext, payload.context, payload.question)
  }

  /** The request of `get_local_llama_answer`: the local llama3.1:8b model. */
  function LlamaRequest(payload: Payload): ChatRequest {
    ChatRequest("llama3.1:8b", None, None, "user", AnswerAsCheckedJson, payload.context, payload.question)
  }

  /** The request of `get_opeai_answer`: gpt-4o-mini with the OpenAI key. */
  function OpenAiRequest(payload: Payload): ChatRequest {
    ChatRequest("gpt-4o-mini", Some(C.OpenAiToken), None, "user", AnswerAsJson, payload.context, payload.question)
  }

  /** The `try`/`except` shape shared by three adapters: the reply, or the fallback. */
  function FromReply(reply: BackendReply): Answer {
    match reply
    case Replied(answer, score) => Answer(answer, score, NoError)
    case Failed(ex) => Fallback(NoAnswerMessage, ex)
  }

  /** `get_hf_qa_answer(payload, lm_model)` */
  function HfQaAnswer(payload: Payload, lmModel: string, post: HttpRequest -> BackendReply): Answer {
    FromReply(post(QaRequest(payload, lmModel)))
  }

  /**
   * `get_hf_llm_answer(payload, lm_model)`: when the chat call returns, the next
   * statement reads the undefined name `message`, so this adapter always falls back.
   */
  function HfLlmAnswer(payload: Payload, lmModel: string, chat: ChatRequest -> BackendReply): Answer {
    match chat(GemmaRequest(payload))
    case Failed(ex) => Fallback(NoAnswerMessage, ex)
    case Replied(_, _) => Fallback(NoAnswerMessage, NameError("message"))
  }

  /** `get_local_llama_answer(payload, lm_model)` */
  function LocalLlamaAnswer(payload: Payload, lmModel: string, chat: ChatRequest -> BackendReply): Answer {
    FromReply(chat(LlamaRequest(payload)))
  }

  /** `get_opeai_answer(payload, lm_model)` */
  function OpenAiAnswer(payload: Payload, lmModel: string, chat: ChatRequest -> BackendReply): Answer {
    FromReply(chat(OpenAiRequest(payload)))
  }

  /** The four adapters. */
  datatype Adapter = HfQa | HfLm | OpenAi | LocalOllama

  /** The endpoint tag each adapter answers for. */
  function Tag(a: Adapter): string {
    match a
    case HfQa => C.HfQaEndpoint
    case HfLm => C.HfLmEndpoint
    case OpenAi => C.OpenAiEndpoint
    case LocalOllama => C.LocalOllamaEndpoint
  }

  /** The if/elif chain of `get_answer` on the endpoint tag; `None` is its `else`. */
  function Route(tag: string): (r: Option<Adapter>)
    ensures r.Some? ==> Tag(r.value) == tag
    ensures r.None? ==> forall a :: Tag(a) != tag
  {
    if tag == C.HfQaEndpoint then Some(HfQa)
    else if tag == C.HfLmEndpoint then Some(HfLm)
    else if tag == C.OpenAiEndpoint then Some(OpenAi)
    else if tag == C.LocalOllamaEndpoint then Some(LocalOllama)
    else None
  }

  /** Routing inverts `Tag`: every adapter is reached through its own tag and no other. */
  lemma RouteInvertsTag(a: Adapter)
    ensures Route(Tag(a)) == Some(a)
  {
  }

  /** The reply the adapter's backend gives for this question. */
  function BackendReplyFor(a: Adapter, payload: Payload, lmModel: string, b: Backends): BackendReply {
    match a
    case HfQa => b.hfInference(QaRequest(payload, lmModel))
    case HfLm => b.hfChat(GemmaRequest(payload))
    case OpenAi => b.openAi(OpenAiRequest(payload))
    case LocalOllama => b.ollama(LlamaRequest(payload))
  }

  /** Call the adapter `a`. */
  function CallAdapter(a: Adapter, payload: Payload, lmModel: string, b: Backends): Answer {
    match a
    case HfQa => HfQaAnswer(payload, lmModel, b.hfInference)
    case HfLm => HfLlmAnswer(payload, lmModel, b.hfChat)
    case OpenAi => OpenAiAnswer(payload, lmModel, b.openAi)
    case LocalOllama => LocalLlamaAnswer(payload, lmModel, b.ollama)
  }

  /**
   * The adapter contract: the error slot is empty exactly when the backend replied
   * (and the adapter is not HF-LM), and then the triple is the reply; otherwise the
   * triple is the fixed fallback message with score 0.0.
   */
  lemma AdapterContract(a: Adapter, payload: Payload, lmModel: string, b: Backends)
    ensures var r := CallAdapter(a, payload, lmModel, b);
      var reply := BackendReplyFor(a, payload, lmModel, b);
      (r.error == NoError <==> a != HfLm && reply.Replied?)
      && (r.error == NoError ==> r.text == reply.answer && r.score == reply.score)
      && (r.error.Raised? ==> r.text == NoAnswerMessage && r.score == 0.0)
      && (reply.Failed? ==> r.error == Raised(reply.ex))
  {
  }

  /** The HF-LM adapter never produces an answer, whatever its backend does. */
  lemma HfLlmAlwaysFallsBack(payload: Payload, lmModel: string, chat: ChatRequest -> BackendReply)
    ensures HfLlmAnswer(payload, lmModel, chat).error.Raised?
    ensures HfLlmAnswer(payload, lmModel, chat).text == NoAnswerMessage
    ensures chat(GemmaRequest(payload)).Replied? ==>
      HfLlmAnswer(payload, lmModel, chat).error == Raised(NameError("message"))
  {
  }

  /** Each backend sees exactly the question and the context; the QA URL ends with the model name. */
  lemma RequestsCarryPayload(payload: Payload, lmModel: string)
    ensures QaRequest(payload, lmModel).body == payload
    ensures QaRequest(payload, lmModel).url[..|QaApiPrefix|] == QaApiPrefix
    ensures QaRequest(payload, lmModel).url[|QaApiPrefix|..] == lmModel
    ensures forall req :: req in {GemmaRequest(payload), LlamaRequest(payload), OpenAiRequest(payload)} ==>
      req.context == payload.context && req.question == payload.question
  {
  }

  // ---------------------------------------------------------------- get_answer

  /** `lm_df`: the two columns of the model table; row i pairs `models[i]` with `endpoints[i]`. */
  datatype Registry = Registry(models: seq<string>, endpoints: seq<string>) {
    /** Building the DataFrame from two columns needs them to be equally long. */
    predicate Valid() {
      |models| == |endpoints|
    }
  }

  /** The table `lm_df` is built from. */
  const LmTable: Registry := Registry(C.Models, C.Endpoints)

  /** The first position of `x` in `s`: `lm_df[lm_df['models'] == x].index[0]`. */
  function FirstIndexOf(s: seq<string>, x: string): (r: Option<nat>)
    ensures r.None? <==> x !in s
    ensures r.Some? ==> r.value < |s| && s[r.value] == x
    ensures r.Some? ==> forall j :: 0 <= j < r.value ==> s[j] != x
  {
    if |s| == 0 then None
    else if s[0] == x then Some(0)
    else match FirstIndexOf(s[1..], x)
      case None => None
      case Some(i) => Some(i + 1)
  }

  /**
   * `get_answer(question, context, lm_model)` against the table `table`. The tag
   * lookup raises IndexError for an unknown model; a tag outside the four reaches
   * the `else` branch, whose expression reads the not yet bound `ex`. Both are
   * caught and turned into the fallback triple.
   */
  function GetAnswerIn(table: Registry, question: string, context: string, lmModel: string, b: Backends)
    : (r: Answer)
    requires table.Valid()
    ensures r.error.Raised? ==> r.text == NoAnswerMessage && r.score == 0.0
    ensures lmModel !in table.models ==> r == Fallback(NoAnswerMessage, IndexError)
  {
    var payload := Payload(question, context);
    match FirstIndexOf(table.models, lmModel)
    case None => Fallback(NoAnswerMessage, IndexError)
    case Some(i) =>
      match Route(table.endpoints[i])
      case None => Fallback(NoAnswerMessage, UnboundLocalError("ex"))
      case Some(a) => CallAdapter(a, payload, lmModel, b)
  }

  /** `get_answer` with the shipped table. */
  function GetAnswer(question: string, context: string, lmModel: string, b: Backends): Answer {
    GetAnswerIn(LmTable, question, context, lmModel, b)
  }

  /**
   * Routing: the first row naming the model decides, and its tag selects exactly
   * one adapter; a tag outside the four gives the fallback for the unbound `ex`,
   * never "This is not implemented yet".
   */
  lemma {:induction false} GetAnswerUsesFirstMatchingRow(
    table: Registry, question: string, context: string, lmModel: string, b: Backends, i: nat)
    requires table.Valid()
    requires i < |table.models| && table.models[i] == lmModel
    requires forall j :: 0 <= j < i ==> table.models[j] != lmModel
    ensures var r := GetAnswerIn(table, question, context, lmModel, b);
      match Route(table.endpoints[i])
      case Some(a) => r == CallAdapter(a, Payload(question, context), lmModel, b)
      case None => r == Fallback(NoAnswerMessage, UnboundLocalError("ex"))
  {
  }

  /** With the shipped table, every listed model reaches an adapter, and never HF-LM. */
  lemma ShippedTableRoutesEveryModel()
    ensures forall i :: 0 <= i < |LmTable.endpoints| ==>
      Route(LmTable.endpoints[i]).Some? && Route(LmTable.endpoints[i]) != Some(HfLm)
  {
  }

  /** The shipped `get_answer` never consults the HF-LM backend: replacing it changes nothing. */
  lemma ShippedGetAnswerIgnoresHfChat(
    question: string, context: string, lmModel: string, b: Backends, chat: ChatRequest -> BackendReply)
    ensures GetAnswer(question, context, lmModel, b) == GetAnswer(question, context, lmModel, b.(hfChat := chat))
  {
  }

  /**
   * With the shipped table the error slot is empty exactly when the model is listed
   * and its backend replied; the answer is then that reply.
   */
  lemma ShippedGetAnswerSucceedsIff(question: string, context: string, lmModel: string, b: Backends)
    ensures var r := GetAnswer(question, context, lmModel, b);
      r.error == NoError <==>
        exists i :: 0 <= i < |C.Models| && C.Models[i] == lmModel
          && BackendReplyFor(Route(C.Endpoints[i]).value, Payload(question, context), lmModel, b).Replied?
  {
    ShippedTableRoutesEveryModel();
    C.ModelNamesDistinct();
    var payload := Payload(question, context);
    var k := FirstIndexOf(C.Models, lmModel);
    if k.Some? {
      var i := k.value;
      AdapterContract(Route(C.Endpoints[i]).value, payload, lmModel, b);
      forall j | 0 <= j < |C.Models| && C.Models[j] == lmModel ensures j == i {
      }
    }
  }
}
