/**
 * DeepSeekService: how an answer is resolved for a question.
 *
 * The answer cache (`@Cacheable("answerCache", key = "#question")`) is a map from the
 * verbatim question to the Answer first computed for it. Only calls that go through the
 * Spring proxy read and fill it; the two self-calls of getAnswerWithHistory run the plain
 * method body. The knowledge lookup, the completion endpoint, the streaming endpoint and
 * the availability of the cache store are the `World` a call runs against; every call the
 * service makes to the first two is recorded in a trace.
 */
module DeepSeek {
  import opened Wrappers
  import opened JavaLang
  import opened Json
  import opened ChatPrompts
  import opened ContextClassifier

  /** The Answer entity: the text, the question it answers and the asker's id (a Long,
      which may be null when `ask` receives no user id). */
  datatype Answer = Answer(answer: string, question: string, userId: Option<int>)

  /** What `knowledgeServiceClient.findByQuestion` gives back. */
  datatype KnowledgeReply =
    | LookupFailed                    // the remote call threw
    | NoData                          // a null ApiResponse, or one whose data is null
    | Entry(answer: Option<string>)   // a Knowledge record; its answer may be null

  const MAX_TOKENS: int := 1000
  const TEMPERATURE: real := 0.7

  /** The request body posted to `/chat/completions`. */
  datatype ChatRequest = ChatRequest(
    model: string,
    messages: seq<ChatMessage>,
    maxTokens: int,
    temperature: Option<real>,
    stream: bool)

  /** Why a blocking completion call ended in an exception. */
  datatype CompletionFailure =
    | ErrorStatus(status: string, body: string)  // an error status, turned into a RuntimeException by onStatus
    | ResponseException                          // a WebClientResponseException, rethrown with a fixed message
    | Failure(message: string)                   // any other exception (timeout, decoding, connection), rethrown as is

  /** The outcome of `block()` on the completion call: the response map (possibly null) or
      the exception. */
  datatype CompletionReply = Responded(body: Option<map<string, Json>>) | Failed(failure: CompletionFailure)

  /** What the streaming endpoint delivers: the chunks that arrived, and whether the flux
      then ended in an error. */
  datatype StreamReply = StreamReply(chunks: seq<string>, failed: bool)

  /** Everything outside the service that a call depends on. */
  datatype World = World(
    knowledge: string -> KnowledgeReply,
    completion: ChatRequest -> CompletionReply,
    stream: ChatRequest -> StreamReply,
    cacheAvailable: bool)

  /** An outbound call of the service. */
  datatype Call = KnowledgeLookup(question: string) | Completion(request: ChatRequest)

  /** An answer together with the calls made to obtain it, in order. */
  datatype Resolution = Resolution(answer: Answer, trace: seq<Call>)

  /** Message of the exception the cache store raises when it cannot be reached. */
  const CACHE_FAILURE: string := "answerCache unavailable"

  // ---------------------------------------------------------------------------------------
  // Pieces of the decision chain
  // ---------------------------------------------------------------------------------------

  /** getAnswerFromKnowledge: a record whose answer is present and not blank becomes the
      Answer, with the knowledge text as stored; everything else, a failed call included,
      is "no match". */
  function FromKnowledge(reply: KnowledgeReply, question: string, userId: Option<int>): Option<Answer>
  {
    if reply.Entry? && reply.answer.Some? && !IsBlank(reply.answer.value)
    then Some(Answer(reply.answer.value, question, userId))
    else None
  }

  /** The exception message the caller of getAnswerFromDeepSeek sees. */
  function FailureMessage(f: CompletionFailure): string
  {
    match f
    case ErrorStatus(status, body) => "API调用失败: " + status + " - " + body
    case ResponseException => "DeepSeek API调用失败"
    case Failure(message) => message
  }

  const FALLBACK_HEAD: string := "抱歉，服务暂时不可用。您的问题是：\""
  const FALLBACK_MID: string := "\"。\n\n错误信息："
  const FALLBACK_TAIL: string := "\n\n请稍后再试或联系技术支持。"

  /** createFallbackAnswer: the question and the error message spliced into a fixed text. */
  function Fallback(question: string, userId: Option<int>, error: string): Answer
  {
    Answer(FALLBACK_HEAD + question + FALLBACK_MID + error + FALLBACK_TAIL, question, userId)
  }

  /** The blocking request: 1000 tokens at temperature 0.7. */
  function Request(model: string, messages: seq<ChatMessage>): ChatRequest
  {
    ChatRequest(model, messages, MAX_TOKENS, Some(TEMPERATURE), false)
  }

  /** The streaming request: 1000 tokens, `stream` set and no temperature. */
  function StreamRequest(model: string, messages: seq<ChatMessage>): ChatRequest
  {
    ChatRequest(model, messages, MAX_TOKENS, None, true)
  }

  /** One completion call and what getAnswer makes of it: the extracted text, or the
      fallback carrying the exception message. */
  function ModelAnswer(w: World, request: ChatRequest, question: string, userId: Option<int>): Resolution
  {
    match w.completion(request)
    case Responded(body) => Resolution(Answer(ExtractAnswer(body), question, userId), [Completion(request)])
    case Failed(f) => Resolution(Fallback(question, userId, FailureMessage(f)), [Completion(request)])
  }

  /** The body of getAnswer (what runs on a cache miss, and on every self-call): the
      knowledge match first, otherwise the model with the context as system information. */
  function Compute(w: World, model: string, question: string, userId: Option<int>, context: seq<string>): Resolution
  {
    var hit := FromKnowledge(w.knowledge(question), question, userId);
    if hit.Some? then Resolution(hit.value, [KnowledgeLookup(question)])
    else
      var m := ModelAnswer(w, Request(model, Messages(question, context)), question, userId);
      Resolution(m.answer, [KnowledgeLookup(question)] + m.trace)
  }

  /** The outcome of a call through the caching proxy. */
  datatype CacheOutcome = CacheOutcome(result: Result<Answer, string>, cache: map<string, Answer>, trace: seq<Call>)

  /** getAnswer as callers outside the class see it: an unreachable cache store raises; a
      stored answer for the verbatim question is returned as stored; otherwise the body runs
      and whatever it returns, fallbacks included, is stored under the question. */
  function ProxiedGetAnswer(w: World, model: string, cache: map<string, Answer>, question: string,
                            userId: Option<int>, context: seq<string>): CacheOutcome
  {
    if !w.cacheAvailable then CacheOutcome(Err(CACHE_FAILURE), cache, [])
    else if question in cache then CacheOutcome(Ok(cache[question]), cache, [])
    else
      var c := Compute(w, model, question, userId, context);
      CacheOutcome(Ok(c.answer), cache[question := c.answer], c.trace)
  }

  /** tryGetCachedAnswer: a direct read of the same cache; a failing store is a miss. */
  function Probe(w: World, cache: map<string, Answer>, question: string): Option<Answer>
  {
    if w.cacheAvailable && question in cache then Some(cache[question]) else None
  }

  /** getAnswerFromDeepSeekWithHistory as getAnswerWithHistory sees it: the conversation
      messages, one completion call, and the fallback when the build or the call raises. */
  function ConversationAnswer(w: World, model: string, question: string, userId: Option<int>,
                              history: seq<Json>): Resolution
  {
    match MessagesWithHistory(question, history)
    case Err(e) => Resolution(Fallback(question, userId, e), [])
    case Ok(messages) => ModelAnswer(w, Request(model, messages), question, userId)
  }

  /** getAnswerWithHistory. The two calls of getAnswer are self-calls: they run the body
      without the cache, so a question without context pays for a second knowledge lookup. */
  function WithHistory(w: World, model: string, cache: map<string, Answer>, question: string,
                       userId: Option<int>, history: seq<Json>): Resolution
  {
    if history == [] then Compute(w, model, question, userId, [])
    else
      var cached := Probe(w, cache, question);
      if cached.Some? then Resolution(cached.value, [])
      else
        var hit := FromKnowledge(w.knowledge(question), question, userId);
        if hit.Some? then Resolution(hit.value, [KnowledgeLookup(question)])
        else
          var e := Escalate(w, model, question, userId, history);
          Resolution(e.answer, [KnowledgeLookup(question)] + e.trace)
  }

  /** The last step of getAnswerWithHistory, once cache and knowledge have missed: a
      question that needs the conversation goes to the model with the history, any other
      to the body of getAnswer. */
  function Escalate(w: World, model: string, question: string, userId: Option<int>, history: seq<Json>): Resolution
  {
    if NeedsContext(question, history) then ConversationAnswer(w, model, question, userId, history)
    else Compute(w, model, question, userId, [])
  }

  /** The frames of getAnswerStream, with the calls made. */
  datatype StreamOutcome = StreamOutcome(frames: seq<string>, trace: seq<Call>)

  /** getAnswerStream: a knowledge hit is sent as one content event and the end marker;
      otherwise the endpoint's chunks are passed on, and an error in the flux is replaced
      by the error event. */
  function Stream(w: World, model: string, question: string, userId: Option<int>, context: seq<string>): StreamOutcome
  {
    var hit := FromKnowledge(w.knowledge(question), question, userId);
    if hit.Some? then StreamOutcome(KnowledgeFrames(hit.value.answer), [KnowledgeLookup(question)])
    else
      var request := StreamRequest(model, Messages(question, context));
      var reply := w.stream(request);
      StreamOutcome(reply.chunks + (if reply.failed then [ERROR_FRAME] else []),
                    [KnowledgeLookup(question), Completion(request)])
  }

  /** What every entry of the answer cache satisfies: it answers the question it is stored
      under, and its text is not blank. */
  predicate CacheValid(cache: map<string, Answer>)
  {
    forall q :: q in cache ==> cache[q].question == q && !IsBlank(cache[q].answer)
  }

  // ---------------------------------------------------------------------------------------
  // The service
  // ---------------------------------------------------------------------------------------

  class DeepSeekService {
    /** The configured model id (`deepseek.model`). */
    const model: string
    /** The answer cache, keyed by the verbatim question. */
    var cache: map<string, Answer>
    /** Every outbound knowledge lookup and completion call, in order. */
    ghost var calls: seq<Call>

    ghost predicate Valid()
      reads this
    {
      CacheValid(cache)
    }

    constructor (model: string)
      ensures this.model == model && cache == map[] && calls == []
      ensures Valid()
    {
      this.model := model;
      cache := map[];
      calls := [];
    }

    /** getAnswerFromKnowledge. */
    method KnowledgeAnswer(w: World, question: string, userId: Option<int>) returns (a: Option<Answer>)
      modifies this
      ensures a == FromKnowledge(w.knowledge(question), question, userId)
      ensures cache == old(cache) && calls == old(calls) + [KnowledgeLookup(question)]
    {
      calls := calls + [KnowledgeLookup(question)];
      var reply := w.knowledge(question);
      if reply.Entry? && reply.answer.Some? && !IsBlank(reply.answer.value) {
        a := Some(Answer(reply.answer.value, question, userId));
      } else {
        a := None;
      }
    }

    /** The blocking completion call of getAnswerFromDeepSeek and its history variant:
        the extracted answer, or the message of the exception they let escape. */
    method Complete(w: World, request: ChatRequest, question: string, userId: Option<int>)
      returns (r: Result<Answer, string>)
      modifies this
      ensures var m := ModelAnswer(w, request, question, userId);
        && (w.completion(request).Responded? ==> r == Ok(m.answer))
        && (w.completion(request).Failed? ==> r == Err(FailureMessage(w.completion(request).failure)))
      ensures cache == old(cache) && calls == old(calls) + [Completion(request)]
    {
      calls := calls + [Completion(request)];
      var reply := w.completion(request);
      if reply.Failed? {
        r := Err(FailureMessage(reply.failure));
      } else {
        r := Ok(Answer(ExtractAnswer(reply.body), question, userId));
      }
    }

    /** The body of getAnswer, run without the cache. */
    method ComputeAnswer(w: World, question: string, userId: Option<int>, context: seq<string>)
      returns (a: Answer)
      modifies this
      ensures var c := Compute(w, model, question, userId, context);
        a == c.answer && calls == old(calls) + c.trace
      ensures cache == old(cache)
    {
      var hit := KnowledgeAnswer(w, question, userId);
      if hit.Some? {
        return hit.value;
      }
      var messages := BuildMessages(question, context);
      var r := Complete(w, Request(model, messages), question, userId);
      if r.Err? {
        a := Fallback(question, userId, r.error);
      } else {
        a := r.value;
      }
    }

    /** getAnswerFromDeepSeekWithHistory, with the caller's catch turning an exception into
        the fallback. */
    method ConverseAnswer(w: World, question: string, userId: Option<int>, history: seq<Json>)
      returns (a: Answer)
      modifies this
      ensures var c := ConversationAnswer(w, model, question, userId, history);
        a == c.answer && calls == old(calls) + c.trace
      ensures cache == old(cache)
    {
      var messages := BuildMessagesWithHistory(question, history);
      if messages.Err? {
        return Fallback(question, userId, messages.error);
      }
      var r := Complete(w, Request(model, messages.value), question, userId);
      if r.Err? {
        a := Fallback(question, userId, r.error);
      } else {
        a := r.value;
      }
    }

    /** getAnswer called through the caching proxy. `Err` is the exception the cache store
        raises when it cannot be reached. */
    method GetAnswer(w: World, question: string, userId: Option<int>, context: seq<string>)
      returns (r: Result<Answer, string>)
      requires Valid()
      modifies this
      ensures Valid()
      ensures var p := ProxiedGetAnswer(w, model, old(cache), question, userId, context);
        r == p.result && cache == p.cache && calls == old(calls) + p.trace
    {
      if !w.cacheAvailable {
        return Err(CACHE_FAILURE);
      }
      if question in cache {
        return Ok(cache[question]);
      }
      ComputeSpec(w, model, question, userId, context);
      var a := ComputeAnswer(w, question, userId, context);
      cache := cache[question := a];
      r := Ok(a);
    }

    /** tryGetCachedAnswer. */
    method TryGetCachedAnswer(w: World, question: string) returns (a: Option<Answer>)
      ensures a == Probe(w, cache, question)
      ensures a.Some? ==> question in cache && a.value == cache[question]
    {
      if w.cacheAvailable && question in cache {
        a := Some(cache[question]);
      } else {
        a := None;
      }
    }

    /** getAnswerWithHistory. It reads the cache but never writes it. */
    method GetAnswerWithHistory(w: World, question: string, userId: Option<int>, history: seq<Json>)
      returns (a: Answer)
      modifies this
      ensures var h := WithHistory(w, model, old(cache), question, userId, history);
        a == h.answer && calls == old(calls) + h.trace
      ensures cache == old(cache)
    {
      if history == [] {
        a := ComputeAnswer(w, question, userId, []);
        return;
      }
      var cached := TryGetCachedAnswer(w, question);
      if cached.Some? {
        return cached.value;
      }
      var hit := KnowledgeAnswer(w, question, userId);
      if hit.Some? {
        return hit.value;
      }
      ghost var before := calls;
      a := EscalateAnswer(w, question, userId, history);
      ghost var rest := Escalate(w, model, question, userId, history).trace;
      TraceAssoc(old(calls), [KnowledgeLookup(question)], rest);
    }

    method EscalateAnswer(w: World, question: string, userId: Option<int>, history: seq<Json>)
      returns (a: Answer)
      modifies this
      ensures var e := Escalate(w, model, question, userId, history);
        a == e.answer && calls == old(calls) + e.trace
      ensures cache == old(cache)
    {
      if NeedsContext(question, history) {
        a := ConverseAnswer(w, question, userId, history);
      } else {
        a := ComputeAnswer(w, question, userId, []);
      }
    }

    /** getAnswerStream. */
    method GetAnswerStream(w: World, question: string, userId: Option<int>, context: seq<string>)
      returns (frames: seq<string>)
      modifies this
      ensures var s := Stream(w, model, question, userId, context);
        frames == s.frames && calls == old(calls) + s.trace
      ensures cache == old(cache)
    {
      var hit := KnowledgeAnswer(w, question, userId);
      if hit.Some? {
        frames := [ContentFrame(hit.value.answer), DONE_FRAME];
        return;
      }
      var messages := BuildMessages(question, context);
      var request := StreamRequest(model, messages);
      calls := calls + [Completion(request)];
      var reply := w.stream(request);
      frames := reply.chunks;
      if reply.failed {
        frames := frames + [ERROR_FRAME];
      }
    }
  }

  lemma TraceAssoc(a: seq<Call>, b: seq<Call>, c: seq<Call>)
    ensures (a + b) + c == a + (b + c)
  {
  }

  // ---------------------------------------------------------------------------------------
  // Properties
  // ---------------------------------------------------------------------------------------

  /** The fallback answers the question it was given, quotes that question and the error
      message, and is never blank. */
  lemma FallbackSpec(question: string, userId: Option<int>, error: string)
    ensures var f := Fallback(question, userId, error);
      && f.question == question && f.userId == userId
      && Contains(f.answer, question) && Contains(f.answer, error)
      && !IsBlank(f.answer)
  {
    var text := Fallback(question, userId, error).answer;
    var i := |FALLBACK_HEAD|;
    var j := |FALLBACK_HEAD| + |question| + |FALLBACK_MID|;
    assert text[i..i + |question|] == question;
    assert text[j..j + |error|] == error;
    ContainsAt(text, question, i);
    ContainsAt(text, error, j);
    assert text[0] == FALLBACK_HEAD[0];
    FirstCharNotBlank(text);
  }

  /** A knowledge match is taken exactly when the record has a non-blank answer, and it is
      taken verbatim (untrimmed). */
  lemma FromKnowledgeSpec(reply: KnowledgeReply, question: string, userId: Option<int>)
    ensures var r := FromKnowledge(reply, question, userId);
      && (r.Some? <==> reply.Entry? && reply.answer.Some? && !IsBlank(reply.answer.value))
      && (r.Some? ==> r.value.answer == reply.answer.value && r.value.question == question && r.value.userId == userId)
  {
  }

  /** The model's answer: the trimmed reply when the response carries one, an apology when
      it does not, the fallback naming the exception when the call fails; never blank, and
      always for the question asked. */
  lemma ModelAnswerSpec(w: World, request: ChatRequest, question: string, userId: Option<int>)
    ensures var m := ModelAnswer(w, request, question, userId); var reply := w.completion(request);
      && m.trace == [Completion(request)]
      && m.answer.question == question && m.answer.userId == userId && !IsBlank(m.answer.answer)
      && (reply.Responded? ==> m.answer.answer == ExtractAnswer(reply.body))
      && (reply.Failed? ==> m.answer == Fallback(question, userId, FailureMessage(reply.failure)))
  {
    var reply := w.completion(request);
    if reply.Responded? {
      ExtractAnswerSpec(reply.body);
    } else {
      FallbackSpec(question, userId, FailureMessage(reply.failure));
    }
  }

  /** getAnswer's body: one knowledge lookup for the verbatim question; a match ends the
      chain with no model call; otherwise exactly one completion call, with the question as
      the user message and the context in the system message. The answer is for the question
      asked and is never blank. */
  lemma ComputeSpec(w: World, model: string, question: string, userId: Option<int>, context: seq<string>)
    ensures var c := Compute(w, model, question, userId, context);
      var hit := FromKnowledge(w.knowledge(question), question, userId);
      && c.answer.question == question && c.answer.userId == userId && !IsBlank(c.answer.answer)
      && (hit.Some? ==> c.answer == hit.value && c.trace == [KnowledgeLookup(question)])
      && (hit.None? ==> c.trace == [KnowledgeLookup(question), Completion(Request(model, Messages(question, context)))])
  {
    var hit := FromKnowledge(w.knowledge(question), question, userId);
    if hit.None? {
      ModelAnswerSpec(w, Request(model, Messages(question, context)), question, userId);
    }
  }

  /** The conversation path: a history the casts reject gives the fallback naming the
      exception and no call; otherwise one completion call carrying the conversation
      messages. The answer is for the question asked and is never blank. */
  lemma ConversationSpec(w: World, model: string, question: string, userId: Option<int>, history: seq<Json>)
    ensures var c := ConversationAnswer(w, model, question, userId, history);
      var built := MessagesWithHistory(question, history);
      && c.answer.question == question && c.answer.userId == userId && !IsBlank(c.answer.answer)
      && (built.Err? ==> c.answer == Fallback(question, userId, built.error) && c.trace == [])
      && (built.Ok? ==> c.trace == [Completion(Request(model, built.value))])
  {
    match MessagesWithHistory(question, history)
    case Err(e) => FallbackSpec(question, userId, e);
    case Ok(messages) => ModelAnswerSpec(w, Request(model, messages), question, userId);
  }

  /** The proxy: an unreachable store raises and nothing is called; a stored answer is
      returned unchanged (with the first asker's user id) and nothing is called; otherwise
      the computed answer, fallback or not, is returned and stored under exactly the
      question string, and no other entry changes. */
  lemma ProxiedSpec(w: World, model: string, cache: map<string, Answer>, question: string,
                    userId: Option<int>, context: seq<string>)
    ensures var p := ProxiedGetAnswer(w, model, cache, question, userId, context);
      && (!w.cacheAvailable ==> p.result.Err? && p.cache == cache && p.trace == [])
      && (w.cacheAvailable && question in cache ==> p.result == Ok(cache[question]) && p.cache == cache && p.trace == [])
      && (w.cacheAvailable && question !in cache ==>
            var c := Compute(w, model, question, userId, context);
            p.result == Ok(c.answer) && p.trace == c.trace
            && question in p.cache && p.cache[question] == c.answer)
      && p.cache.Keys <= cache.Keys + {question}
      && (forall k :: k in cache && k != question ==> k in p.cache && p.cache[k] == cache[k])
  {
  }

  /** Asking the same question string again is answered from the cache: same answer, same
      user id as the first asker, no call at all, whoever asks, with whatever context, and
      whatever the knowledge base and the model would now say. */
  lemma RepeatQuestionHitsCache(w1: World, w2: World, model: string, cache: map<string, Answer>,
                                question: string, user1: Option<int>, user2: Option<int>,
                                context1: seq<string>, context2: seq<string>)
    requires w1.cacheAvailable && w2.cacheAvailable
    ensures var first := ProxiedGetAnswer(w1, model, cache, question, user1, context1);
      var second := ProxiedGetAnswer(w2, model, first.cache, question, user2, context2);
      second.result == first.result && second.cache == first.cache && second.trace == []
  {
  }

  /** A failed completion is not retried later: its fallback is what gets stored. */
  lemma FailureIsCached(w: World, model: string, cache: map<string, Answer>, question: string,
                        userId: Option<int>, context: seq<string>)
    requires w.cacheAvailable && question !in cache
    requires FromKnowledge(w.knowledge(question), question, userId).None?
    requires w.completion(Request(model, Messages(question, context))).Failed?
    ensures var f := w.completion(Request(model, Messages(question, context))).failure;
      ProxiedGetAnswer(w, model, cache, question, userId, context).cache[question]
        == Fallback(question, userId, FailureMessage(f))
  {
    ModelAnswerSpec(w, Request(model, Messages(question, context)), question, userId);
  }

  /** The cache key is not normalised: a question that differs from a stored one only by
      surrounding blanks is a miss and is computed afresh. */
  lemma PaddedQuestionMisses(w: World, model: string, cache: map<string, Answer>, question: string,
                             userId: Option<int>, context: seq<string>)
    requires w.cacheAvailable && question in cache && " " + question !in cache
    ensures var p := ProxiedGetAnswer(w, model, cache, " " + question, userId, context);
      |p.trace| >= 1 && p.trace[0] == KnowledgeLookup(" " + question)
      && p.cache[" " + question].question == " " + question
  {
    ComputeSpec(w, model, " " + question, userId, context);
  }

  /** The proxy keeps the cache well formed, and every answer it returns is for the
      question asked and is not blank. */
  lemma ProxiedKeepsCacheValid(w: World, model: string, cache: map<string, Answer>, question: string,
                               userId: Option<int>, context: seq<string>)
    requires CacheValid(cache)
    ensures var p := ProxiedGetAnswer(w, model, cache, question, userId, context);
      && CacheValid(p.cache)
      && (p.result.Ok? ==> p.result.value.question == question && !IsBlank(p.result.value.answer))
  {
    ComputeSpec(w, model, question, userId, context);
  }

  /** Without history, getAnswerWithHistory is the body of getAnswer with an empty
      context: the cache is neither read nor filled. */
  lemma NoHistoryBypassesCache(w: World, model: string, cache1: map<string, Answer>,
                               cache2: map<string, Answer>, question: string, userId: Option<int>)
    ensures WithHistory(w, model, cache1, question, userId, []) == Compute(w, model, question, userId, [])
    ensures WithHistory(w, model, cache1, question, userId, []) == WithHistory(w, model, cache2, question, userId, [])
  {
  }

  /** With history, the steps run in order and the first success wins: the cache probe
      (no call at all), then the knowledge match (one lookup), then either the model with
      the conversation or the body of getAnswer, which looks the question up a second
      time. */
  lemma WithHistoryOrder(w: World, model: string, cache: map<string, Answer>, question: string,
                         userId: Option<int>, history: seq<Json>)
    requires history != []
    ensures var h := WithHistory(w, model, cache, question, userId, history);
      var cached := Probe(w, cache, question);
      var hit := FromKnowledge(w.knowledge(question), question, userId);
      && (cached.Some? ==> h.answer == cached.value && h.trace == [])
      && (cached.None? && hit.Some? ==> h.answer == hit.value && h.trace == [KnowledgeLookup(question)])
      && (cached.None? && hit.None? && NeedsContext(question, history) && MessagesWithHistory(question, history).Ok? ==>
            h.trace == [KnowledgeLookup(question), Completion(Request(model, MessagesWithHistory(question, history).value))])
      && (cached.None? && hit.None? && !NeedsContext(question, history) ==>
            |h.trace| >= 2 && h.trace[0] == KnowledgeLookup(question) && h.trace[1] == KnowledgeLookup(question)
            && h.answer == Compute(w, model, question, userId, []).answer)
  {
    if Probe(w, cache, question).None? && FromKnowledge(w.knowledge(question), question, userId).None? {
      if NeedsContext(question, history) {
        ConversationSpec(w, model, question, userId, history);
      } else {
        ComputeSpec(w, model, question, userId, []);
      }
    }
  }

  /** A history item that fails its cast, inside the window of a question that needs
      context, yields the fallback naming the ClassCastException, and the model is not
      called. */
  lemma BadHistoryFallsBack(w: World, model: string, cache: map<string, Answer>, question: string,
                            userId: Option<int>, history: seq<Json>, k: nat)
    requires Probe(w, cache, question).None? && FromKnowledge(w.knowledge(question), question, userId).None?
    requires NeedsContext(question, history)
    requires |history| - |Window(history)| <= k < |history| && !Castable(history[k])
    ensures var h := WithHistory(w, model, cache, question, userId, history);
      h.answer == Fallback(question, userId, CLASS_CAST) && h.trace == [KnowledgeLookup(question)]
  {
    HistoryFailIff(question, history);
    TurnsFailMessage(Window(history));
    ConversationSpec(w, model, question, userId, history);
  }

  /** With a well-formed cache, getAnswerWithHistory never returns a blank answer, and the
      answer is for the question asked. */
  lemma WithHistoryAnswers(w: World, model: string, cache: map<string, Answer>, question: string,
                           userId: Option<int>, history: seq<Json>)
    requires CacheValid(cache)
    ensures var h := WithHistory(w, model, cache, question, userId, history);
      h.answer.question == question && !IsBlank(h.answer.answer)
  {
    if history == [] || Probe(w, cache, question).Some? {
      ComputeSpec(w, model, question, userId, []);
    } else if FromKnowledge(w.knowledge(question), question, userId).None? {
      if NeedsContext(question, history) {
        ConversationSpec(w, model, question, userId, history);
      } else {
        ComputeSpec(w, model, question, userId, []);
      }
    }
  }

  /** On a knowledge hit the stream is the content event and the end marker, and the
      escaped answer reads back as the knowledge text; the model is not called. Otherwise
      one streaming request is made, and the error event comes last exactly when the flux
      failed. */
  lemma StreamSpec(w: World, model: string, question: string, userId: Option<int>, context: seq<string>)
    ensures var s := Stream(w, model, question, userId, context);
      var hit := FromKnowledge(w.knowledge(question), question, userId);
      && (hit.Some? ==>
            && s.frames == [ContentFrame(hit.value.answer), DONE_FRAME]
            && DecodeContentFrame(s.frames[0]) == Some(hit.value.answer) && s.trace == [KnowledgeLookup(question)])
      && (hit.None? ==>
            var request := StreamRequest(model, Messages(question, context));
            && s.trace == [KnowledgeLookup(question), Completion(request)]
            && request.stream && request.temperature.None?
            && s.frames[..|w.stream(request).chunks|] == w.stream(request).chunks
            && (w.stream(request).failed <==> |s.frames| > |w.stream(request).chunks|)
            && (w.stream(request).failed ==> s.frames[|s.frames| - 1] == ERROR_FRAME))
  {
  }
}
