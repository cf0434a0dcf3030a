/**
 * QaController: the `/qa/message` and `/qa/ask` endpoints. They normalise the request,
 * call DeepSeekService through its caching proxy (or getAnswerWithHistory), finish the
 * answer and hand a copy to the history service, whose outcome never reaches the caller.
 */
module QaApi {
  import opened Wrappers
  import opened JavaLang
  import opened Json
  import opened ChatPrompts
  import opened DeepSeek

  const DEFAULT_QUESTION: string := "你好"
  const DEFAULT_USER_ID: int := 1
  const UNAVAILABLE: string := "抱歉，服务暂时不可用，请稍后重试。"
  const ASK_FALLBACK: string := "抱歉，服务暂时不可用。请稍后再试。"
  const NO_ANSWER: string := "抱歉，暂时无法提供回答。"

  // ---------------------------------------------------------------------------------------
  // chatMessage
  // ---------------------------------------------------------------------------------------

  /** What chatMessage extracts from the request body. */
  datatype ChatInput = ChatInput(question: string, userId: int, history: seq<Json>)

  /** The response map: "message", "success" and, on the outer failure path, "error". */
  datatype ChatResponse = ChatResponse(message: string, success: bool, error: Option<string>)

  /** A null or blank question becomes the greeting. */
  function QuestionOf(question: Option<string>): string
  {
    if question.None? || IsBlank(question.value) then DEFAULT_QUESTION else question.value
  }

  /** `Long.valueOf(userIdObj.toString())`, with 1 for a missing id and for text that does
      not parse. Jackson hands an integral number over as Integer, Long or BigInteger, whose
      toString is its decimal text; a real number, a boolean, a list or a map prints as text
      that never parses as a Long. */
  function UserIdOf(v: Json): int
  {
    match v
    case JInt(i) => (match ParseLong(DecimalText(i)) case Some(n) => n case None => DEFAULT_USER_ID)
    case JString(s) => (match ParseLong(s) case Some(n) => n case None => DEFAULT_USER_ID)
    case _ => DEFAULT_USER_ID
  }

  /** The casts and defaults of chatMessage before any service call. A question that is not
      a string, or a history that is not a list, fails its cast. A missing or null history
      is no history. */
  function ParseChat(request: map<string, Json>): Result<ChatInput, string>
  {
    match AsNullableString(Get(request, "question"))
    case Err(e) => Err(e)
    case Ok(question) =>
      var history := Get(request, "history");
      if !(history.JNull? || history.JList?) then Err(CLASS_CAST)
      else
        Ok(ChatInput(QuestionOf(question), UserIdOf(Get(request, "userId")),
                     if history.JList? then history.items else []))
  }

  /** The service answer when it is not blank, otherwise the canned test reply. */
  function FinalMessage(answer: Answer, question: string): string
  {
    if !IsBlank(answer.answer) then answer.answer else "感谢您的提问：" + question + "。这是一个测试回答。"
  }

  /** The reply when the service call itself raised. */
  function BusyMessage(question: string): string
  {
    "您好！感谢您的提问：" + question + "。由于服务暂时繁忙，这是一个临时回答。请稍后再试。"
  }

  /** The outcome of one chatMessage call: the response, the record sent to the history
      service (none when nothing is saved), the cache afterwards and the calls made. */
  datatype ChatOutcome = ChatOutcome(response: ChatResponse, saved: Option<Answer>,
                                     cache: map<string, Answer>, trace: seq<Call>)

  /** The success path once an Answer is in hand: the final message goes into the
      response, and the Answer, with its question and text overwritten by the setters, is
      sent to the history service. */
  function Reply(answer: Answer, question: string, cache: map<string, Answer>, trace: seq<Call>): ChatOutcome
  {
    var message := FinalMessage(answer, question);
    ChatOutcome(ChatResponse(message, true, None), Some(answer.(question := question, answer := message)), cache, trace)
  }

  /** chatMessage. No history goes through the caching proxy; a history goes to
      getAnswerWithHistory. */
  function Chat(w: World, model: string, cache: map<string, Answer>, request: map<string, Json>): ChatOutcome
  {
    match ParseChat(request)
    case Err(e) => ChatOutcome(ChatResponse(UNAVAILABLE, false, Some(e)), None, cache, [])
    case Ok(input) =>
      if input.history == [] then
        var p := ProxiedGetAnswer(w, model, cache, input.question, Some(input.userId), []);
        match p.result
        case Err(_) => ChatOutcome(ChatResponse(BusyMessage(input.question), true, None), None, p.cache, p.trace)
        case Ok(answer) => Reply(answer, input.question, p.cache, p.trace)
      else
        var h := WithHistory(w, model, cache, input.question, Some(input.userId), input.history);
        Reply(h.answer, input.question, cache, h.trace)
  }

  // ---------------------------------------------------------------------------------------
  // ask
  // ---------------------------------------------------------------------------------------

  /** What `knowledgeServiceClient.searchKnowledge` gives back. */
  datatype SearchReply = SearchFailed | Searched(data: Option<seq<string>>)

  /** ApiResponse<Answer>. */
  datatype AskResponse = AskResponse(code: int, message: string, data: Answer)

  /** ApiResponse.success. */
  function Success(answer: Answer): AskResponse
  {
    AskResponse(200, "Success", answer)
  }

  /** The context for the model: the search result when there is one, otherwise nothing. */
  function SearchContext(reply: SearchReply): seq<string>
  {
    if reply.Searched? && reply.data.Some? then reply.data.value else []
  }

  /** The two patches of ask: a blank question is replaced by the content, a blank answer
      by the apology. */
  function Patch(answer: Answer, content: string): Answer
  {
    var a := if IsBlank(answer.question) then answer.(question := content) else answer;
    if IsBlank(a.answer) then a.(answer := NO_ANSWER) else a
  }

  /** The outcome of one ask call. */
  datatype AskOutcome = AskOutcome(response: AskResponse, saved: Option<Answer>,
                                   cache: map<string, Answer>, trace: seq<Call>)

  /** ask: the search result as context, getAnswer through the proxy, the patches; if the
      service call raises, a fixed apology answer, still reported as a success. */
  function AskSpec(w: World, model: string, cache: map<string, Answer>, search: SearchReply,
                   content: string, userId: Option<int>): AskOutcome
  {
    var p := ProxiedGetAnswer(w, model, cache, content, userId, SearchContext(search));
    match p.result
    case Err(_) => AskOutcome(Success(Answer(ASK_FALLBACK, content, userId)), None, p.cache, p.trace)
    case Ok(answer) =>
      var patched := Patch(answer, content);
      AskOutcome(Success(patched), Some(patched), p.cache, p.trace)
  }

  // ---------------------------------------------------------------------------------------
  // The controller
  // ---------------------------------------------------------------------------------------

  class QaController {
    const service: DeepSeekService

    constructor (service: DeepSeekService)
      ensures this.service == service
    {
      this.service := service;
    }

    /** chatMessage: returns the response and the record handed to the history service. */
    method ChatMessage(w: World, request: map<string, Json>) returns (response: ChatResponse, saved: Option<Answer>)
      requires service.Valid()
      modifies service
      ensures service.Valid()
      ensures var c := Chat(w, service.model, old(service.cache), request);
        && response == c.response && saved == c.saved
        && service.cache == c.cache && service.calls == old(service.calls) + c.trace
    {
      var input := ParseChat(request);
      if input.Err? {
        return ChatResponse(UNAVAILABLE, false, Some(input.error)), None;
      }
      var question := input.value.question;
      var userId := input.value.userId;
      var history := input.value.history;
      var answer: Answer;
      if history == [] {
        var r := service.GetAnswer(w, question, Some(userId), []);
        if r.Err? {
          return ChatResponse(BusyMessage(question), true, None), None;
        }
        answer := r.value;
      } else {
        answer := service.GetAnswerWithHistory(w, question, Some(userId), history);
      }
      var finalAnswer := FinalMessage(answer, question);
      response := ChatResponse(finalAnswer, true, None);
      answer := answer.(question := question);
      answer := answer.(answer := finalAnswer);
      saved := Some(answer);
    }

    /** ask: returns the response and the record handed to the history service. */
    method Ask(w: World, search: SearchReply, content: string, userId: Option<int>)
      returns (response: AskResponse, saved: Option<Answer>)
      requires service.Valid()
      modifies service
      ensures service.Valid()
      ensures var a := AskSpec(w, service.model, old(service.cache), search, content, userId);
        && response == a.response && saved == a.saved
        && service.cache == a.cache && service.calls == old(service.calls) + a.trace
    {
      var context: seq<string> := [];
      if search.Searched? && search.data.Some? {
        context := search.data.value;
      }
      var r := service.GetAnswer(w, content, userId, context);
      if r.Err? {
        return Success(Answer(ASK_FALLBACK, content, userId)), None;
      }
      var answer := r.value;
      if IsBlank(answer.question) {
        answer := answer.(question := content);
      }
      if IsBlank(answer.answer) {
        answer := answer.(answer := NO_ANSWER);
      }
      response := Success(answer);
      saved := Some(answer);
    }
  }

  // ---------------------------------------------------------------------------------------
  // Properties
  // ---------------------------------------------------------------------------------------

  /** A question that parses is never blank: a null or blank one is the greeting, any
      other is kept verbatim (untrimmed). */
  lemma QuestionOfSpec(question: Option<string>)
    ensures !IsBlank(QuestionOf(question))
    ensures question.Some? && !IsBlank(question.value) ==> QuestionOf(question) == question.value
    ensures question.None? || IsBlank(question.value) ==> QuestionOf(question) == DEFAULT_QUESTION
  {
    assert DEFAULT_QUESTION[0] == '你';
    BlankIff(DEFAULT_QUESTION);
  }

  /** The user id is the number sent (as a number or as its text) when it fits in a Long,
      and 1 in every other case. */
  lemma UserIdSpec(v: Json)
    ensures v.JInt? ==> UserIdOf(v) == if InLongRange(v.i) then v.i else DEFAULT_USER_ID
    ensures v.JString? ==> UserIdOf(v) == if ParseLong(v.s).Some? then ParseLong(v.s).value else DEFAULT_USER_ID
    ensures !v.JInt? && !v.JString? ==> UserIdOf(v) == DEFAULT_USER_ID
    ensures InLongRange(UserIdOf(v))
  {
    if v.JInt? {
      ParseLongRoundTrip(v.i);
    }
  }

  /** A user id sent as text round-trips: the decimal text of a Long is that Long. */
  lemma UserIdTextRoundTrip(n: int)
    requires InLongRange(n)
    ensures UserIdOf(JString(DecimalText(n))) == n && UserIdOf(JInt(n)) == n
  {
    ParseLongRoundTrip(n);
  }

  /** The request fails only on its casts: the question must be a string or null and the
      history a list or null; otherwise the greeting default and the id rule apply. */
  lemma ParseChatSpec(request: map<string, Json>)
    ensures var q := Get(request, "question"); var h := Get(request, "history");
      ParseChat(request).Err? <==> !(q.JNull? || q.JString?) || !(h.JNull? || h.JList?)
    ensures ParseChat(request).Err? ==> ParseChat(request).error == CLASS_CAST
    ensures ParseChat(request).Ok? ==>
      var input := ParseChat(request).value; var q := Get(request, "question");
      && !IsBlank(input.question)
      && input.question == QuestionOf(if q.JString? then Some(q.s) else None)
      && input.userId == UserIdOf(Get(request, "userId"))
      && (input.history == [] <==> !Get(request, "history").JList? || Get(request, "history").items == [])
  {
    var q := Get(request, "question");
    QuestionOfSpec(if q.JString? then Some(q.s) else None);
  }

  /** The outer failure path is taken exactly when the request fails its casts; it is the
      only response with `success == false`, and it alone carries an error. */
  lemma ChatFailureSpec(w: World, model: string, cache: map<string, Answer>, request: map<string, Json>)
    ensures var c := Chat(w, model, cache, request);
      && (!c.response.success <==> ParseChat(request).Err?)
      && (c.response.error.Some? <==> ParseChat(request).Err?)
      && (ParseChat(request).Err? ==> c.response.message == UNAVAILABLE && c.cache == cache && c.trace == [] && c.saved.None?)
  {
  }

  /** Dispatch: an empty history goes through the caching proxy with no context; any other
      history goes to getAnswerWithHistory, which leaves the cache as it was. */
  lemma ChatDispatch(w: World, model: string, cache: map<string, Answer>, request: map<string, Json>)
    requires ParseChat(request).Ok?
    ensures var input := ParseChat(request).value; var c := Chat(w, model, cache, request);
      && (input.history == [] ==>
            var p := ProxiedGetAnswer(w, model, cache, input.question, Some(input.userId), []);
            c.cache == p.cache && c.trace == p.trace)
      && (input.history != [] ==>
            c.cache == cache
            && c.trace == WithHistory(w, model, cache, input.question, Some(input.userId), input.history).trace)
  {
  }

  /** With a well-formed cache the service never hands back a blank answer, so the canned
      test reply is never used: the message is the service's answer, and the setters write
      back the question and text the Answer already holds. Only an unreachable cache store
      on the no-history path gives the busy reply, which quotes the question. */
  lemma ChatAnswers(w: World, model: string, cache: map<string, Answer>, request: map<string, Json>)
    requires CacheValid(cache) && ParseChat(request).Ok?
    ensures var input := ParseChat(request).value; var c := Chat(w, model, cache, request);
      && c.response.success && c.response.error.None?
      && CacheValid(c.cache)
      && (input.history == [] && !w.cacheAvailable ==>
            c.response.message == BusyMessage(input.question) && c.saved.None?
            && Contains(c.response.message, input.question))
      && (input.history != [] || w.cacheAvailable ==>
            && c.saved.Some? && c.saved.value.question == input.question
            && c.response.message == c.saved.value.answer && !IsBlank(c.response.message)
            && c.saved.value == (if input.history == []
                                 then ProxiedGetAnswer(w, model, cache, input.question, Some(input.userId), []).result.value
                                 else WithHistory(w, model, cache, input.question, Some(input.userId), input.history).answer))
  {
    var input := ParseChat(request).value;
    ProxiedKeepsCacheValid(w, model, cache, input.question, Some(input.userId), []);
    if input.history == [] {
      if !w.cacheAvailable {
        BusyQuotesQuestion(input.question);
      }
    } else {
      WithHistoryAnswers(w, model, cache, input.question, Some(input.userId), input.history);
    }
  }

  lemma BusyQuotesQuestion(question: string)
    ensures Contains(BusyMessage(question), question)
  {
    var m := BusyMessage(question);
    var i := |"您好！感谢您的提问："|;
    assert m[i..i + |question|] == question;
    ContainsAt(m, question, i);
  }

  /** ask always reports success with code 200. With a well-formed cache its Answer is for
      the content asked and is never blank: the patches change nothing, so the Answer is the
      one the service returned (or stored earlier); if the service call raises, it is the
      fixed apology for the content. */
  lemma AskAnswers(w: World, model: string, cache: map<string, Answer>, search: SearchReply,
                   content: string, userId: Option<int>)
    requires CacheValid(cache)
    ensures var a := AskSpec(w, model, cache, search, content, userId);
      var p := ProxiedGetAnswer(w, model, cache, content, userId, SearchContext(search));
      && a.response.code == 200 && a.response.message == "Success"
      && a.response.data.question == content && !IsBlank(a.response.data.answer)
      && CacheValid(a.cache)
      && (p.result.Ok? ==> a.response.data == p.result.value && a.saved == Some(p.result.value))
      && (p.result.Err? ==> a.response.data == Answer(ASK_FALLBACK, content, userId) && a.saved.None?)
  {
    ProxiedKeepsCacheValid(w, model, cache, content, userId, SearchContext(search));
    assert ASK_FALLBACK[0] == '抱';
    BlankIff(ASK_FALLBACK);
  }

  /** A failed or empty knowledge search leaves the model without context: on a miss the
      completion request carries the bare persona. */
  lemma AskWithoutSearchResult(w: World, model: string, cache: map<string, Answer>, search: SearchReply,
                               content: string, userId: Option<int>)
    requires search.SearchFailed? || search.data.None?
    requires w.cacheAvailable && content !in cache
    requires FromKnowledge(w.knowledge(content), content, userId).None?
    ensures AskSpec(w, model, cache, search, content, userId).trace
      == [KnowledgeLookup(content), Completion(Request(model, Messages(content, [])))]
  {
    ComputeSpec(w, model, content, userId, []);
  }
}
