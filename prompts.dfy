/**
 * The text DeepSeekService exchanges with the chat-completion endpoint: the request
 * messages built by `buildMessages` and `buildMessagesWithHistory`, the answer read back by
 * `extractAnswerFromResponse`, and the server-sent-event frames of `getAnswerStream`.
 */
module ChatPrompts {
  import opened Wrappers
  import opened JavaLang
  import opened Json

  /** One entry of the request's `messages` list: a map with "role" and "content". */
  datatype ChatMessage = ChatMessage(role: string, content: string)

  const PERSONA: string := "You are a helpful AI customer service assistant."
  const CONTEXT_HEADER: string := " Use the following information to answer the question: \n"
  const HISTORY_PERSONA: string :=
    PERSONA + " Please provide helpful and accurate responses based on the conversation"
    + " history and the current question."

  /** At most this many of the latest history items are considered. */
  const MAX_HISTORY: nat := 10

  // ---------------------------------------------------------------------------------------
  // buildMessages
  // ---------------------------------------------------------------------------------------

  /** The context block: every line followed by a newline, in order. */
  function JoinLines(lines: seq<string>): string
  {
    if lines == [] then "" else lines[0] + "\n" + JoinLines(lines[1..])
  }

  /** Appending one more context string appends that string and a newline. */
  lemma {:induction false} JoinLinesSnoc(lines: seq<string>, line: string)
    ensures JoinLines(lines + [line]) == JoinLines(lines) + line + "\n"
  {
    if lines == [] {
      assert [line][1..] == [];
    } else {
      assert (lines + [line])[1..] == lines[1..] + [line];
      JoinLinesSnoc(lines[1..], line);
    }
  }

  /** The system prompt for a context list: the persona alone when there is no context. */
  function SystemPrompt(context: seq<string>): string
  {
    if context == [] then PERSONA else PERSONA + CONTEXT_HEADER + JoinLines(context)
  }

  /** The two messages `buildMessages` returns. */
  function Messages(question: string, context: seq<string>): (r: seq<ChatMessage>)
    ensures |r| == 2 && r[0].role == "system" && r[1] == ChatMessage("user", question)
  {
    [ChatMessage("system", SystemPrompt(context)), ChatMessage("user", question)]
  }

  /** buildMessages: a StringBuilder grows the system prompt one context string at a time. */
  method BuildMessages(question: string, context: seq<string>) returns (messages: seq<ChatMessage>)
    ensures messages == Messages(question, context)
  {
    var prompt := PERSONA;
    if context != [] {
      prompt := prompt + CONTEXT_HEADER;
      var i := 0;
      while i < |context|
        invariant 0 <= i <= |context|
        invariant prompt == PERSONA + CONTEXT_HEADER + JoinLines(context[..i])
      {
        JoinLinesSnoc(context[..i], context[i]);
        assert context[..i + 1] == context[..i] + [context[i]];
        prompt := prompt + context[i] + "\n";
        i := i + 1;
      }
      assert context[..i] == context;
    }
    messages := [ChatMessage("system", prompt), ChatMessage("user", question)];
  }

  /** Index of the first newline, or the length when there is none. */
  function LineEnd(s: string): (i: nat)
    ensures i <= |s| && '\n' !in s[..i]
    ensures i < |s| ==> s[i] == '\n'
  {
    if s == [] || s[0] == '\n' then 0
    else
      var j := LineEnd(s[1..]);
      assert s[..j + 1] == [s[0]] + s[1..][..j];
      j + 1
  }

  /** Reads a context block back: the newline-terminated lines of a text. */
  function SplitLines(s: string): seq<string>
    decreases |s|
  {
    var i := LineEnd(s);
    if i == |s| then [] else [s[..i]] + SplitLines(s[i + 1..])
  }

  /** The context block loses nothing: each context string without a newline of its own
      is read back, in order. */
  lemma {:induction false} SplitJoinLines(lines: seq<string>)
    requires forall k :: 0 <= k < |lines| ==> '\n' !in lines[k]
    ensures SplitLines(JoinLines(lines)) == lines
  {
    if lines != [] {
      var s := JoinLines(lines);
      var l := lines[0];
      assert s == l + ("\n" + JoinLines(lines[1..]));
      LineEndAfter(l, JoinLines(lines[1..]));
      assert s[..|l|] == l;
      assert s[|l| + 1..] == JoinLines(lines[1..]);
      SplitJoinLines(lines[1..]);
    }
  }

  lemma LineEndAfter(l: string, rest: string)
    requires '\n' !in l
    ensures LineEnd(l + "\n" + rest) == |l|
  {
    var s := l + "\n" + rest;
    assert s[|l|] == '\n';
    assert s[..|l|] == l;
  }

  /** What the model is told: no context leaves the bare persona; otherwise the context
      strings can be read back in order after the header. */
  lemma SystemPromptSpec(context: seq<string>)
    requires forall k :: 0 <= k < |context| ==> '\n' !in context[k]
    ensures context == [] ==> SystemPrompt(context) == PERSONA
    ensures context != [] ==>
      var p := SystemPrompt(context);
      var n := |PERSONA + CONTEXT_HEADER|;
      n <= |p| && p[..n] == PERSONA + CONTEXT_HEADER && SplitLines(p[n..]) == context
  {
    if context != [] {
      var p := SystemPrompt(context);
      var n := |PERSONA + CONTEXT_HEADER|;
      assert p[n..] == JoinLines(context);
      SplitJoinLines(context);
    }
  }

  // ---------------------------------------------------------------------------------------
  // buildMessagesWithHistory
  // ---------------------------------------------------------------------------------------

  /** The last MAX_HISTORY items, chosen before any item is inspected. */
  function Window(history: seq<Json>): (w: seq<Json>)
    ensures |w| == if |history| <= MAX_HISTORY then |history| else MAX_HISTORY
    ensures w == history[|history| - |w|..]
  {
    history[if |history| <= MAX_HISTORY then 0 else |history| - MAX_HISTORY..]
  }

  /** One history item as the loop body treats it: a null item is skipped; an item that is
      not a map, or whose role or content is not a string, fails the cast (ClassCastException);
      an item with a role and non-blank content becomes a message with trimmed content. */
  function Turn(item: Json): Result<Option<ChatMessage>, string>
  {
    match item
    case JNull => Ok(None)
    case JObject(fields) =>
      (match AsNullableString(Get(fields, "role"))
       case Err(e) => Err(e)
       case Ok(role) =>
         match AsNullableString(Get(fields, "content"))
         case Err(e) => Err(e)
         case Ok(content) =>
           if role.Some? && content.Some? && !IsBlank(content.value) then
             Ok(Some(ChatMessage(role.value, Trim(content.value))))
           else Ok(None))
    case _ => Err(CLASS_CAST)
  }

  /** One loop iteration: a failure so far stays; otherwise the item's message, if any,
      is appended. */
  function Step(acc: Result<seq<ChatMessage>, string>, item: Json): Result<seq<ChatMessage>, string>
  {
    if acc.Err? then acc
    else
      match Turn(item)
      case Err(e) => Err(e)
      case Ok(None) => acc
      case Ok(Some(m)) => Ok(acc.value + [m])
  }

  /** The history messages of a window, in order; the first failing item ends the build. */
  function Turns(window: seq<Json>): (r: Result<seq<ChatMessage>, string>)
    ensures r.Ok? ==> |r.value| <= |window|
  {
    if window == [] then Ok([]) else Step(Turns(window[..|window| - 1]), window[|window| - 1])
  }

  lemma TurnsSnoc(window: seq<Json>, item: Json)
    ensures Turns(window + [item]) == Step(Turns(window), item)
  {
    assert (window + [item])[..|window|] == window;
  }

  /** The messages `buildMessagesWithHistory` returns, or the exception it raises. */
  function MessagesWithHistory(question: string, history: seq<Json>): Result<seq<ChatMessage>, string>
  {
    match Turns(Window(history))
    case Err(e) => Err(e)
    case Ok(turns) =>
      Ok([ChatMessage("system", HISTORY_PERSONA)] + turns + [ChatMessage("user", question)])
  }

  /** buildMessagesWithHistory: an index loop over the window appending to a list. */
  method BuildMessagesWithHistory(question: string, history: seq<Json>)
    returns (r: Result<seq<ChatMessage>, string>)
    ensures r == MessagesWithHistory(question, history)
  {
    var start := if |history| <= MAX_HISTORY then 0 else |history| - MAX_HISTORY;
    var turns: seq<ChatMessage> := [];
    var i := start;
    while i < |history|
      invariant start <= i <= |history|
      invariant Turns(history[start..i]) == Ok(turns)
    {
      var t := Turn(history[i]);
      if t.Err? {
        WindowFails(question, history, start, i);
        return Err(t.error);
      }
      TurnsGrow(history, start, i, turns);
      if t.value.Some? {
        turns := turns + [t.value.value];
      }
      i := i + 1;
    }
    assert history[start..i] == Window(history);
    r := Ok([ChatMessage("system", HISTORY_PERSONA)] + turns + [ChatMessage("user", question)]);
  }

  /** One more accepted item extends the turns built so far by its message, if any. */
  lemma TurnsGrow(history: seq<Json>, start: nat, i: nat, turns: seq<ChatMessage>)
    requires start <= i < |history| && Turns(history[start..i]) == Ok(turns) && Turn(history[i]).Ok?
    ensures Turns(history[start..i + 1]) ==
      Ok(if Turn(history[i]).value.Some? then turns + [Turn(history[i]).value.value] else turns)
  {
    assert history[start..i + 1] == history[start..i] + [history[i]];
    TurnsSnoc(history[start..i], history[i]);
  }

  /** A failing item fails the whole build with its exception. */
  lemma WindowFails(question: string, history: seq<Json>, start: nat, i: nat)
    requires start == |history| - |Window(history)| && start <= i < |history|
    requires Turns(history[start..i]).Ok? && Turn(history[i]).Err?
    ensures MessagesWithHistory(question, history) == Err(Turn(history[i]).error)
  {
    assert history[start..i + 1] == history[start..i] + [history[i]];
    TurnsSnoc(history[start..i], history[i]);
    TurnsErrPrefix(Window(history), i + 1 - start);
    assert Window(history)[..i + 1 - start] == history[start..i + 1];
  }

  /** Once a prefix fails, the whole window fails with the same exception. */
  lemma {:induction false} TurnsErrPrefix(window: seq<Json>, n: nat)
    requires n <= |window| && Turns(window[..n]).Err?
    ensures Turns(window) == Turns(window[..n])
    decreases |window|
  {
    if n < |window| {
      var init := window[..|window| - 1];
      assert init[..n] == window[..n];
      TurnsErrPrefix(init, n);
    } else {
      assert window[..n] == window;
    }
  }

  /** A history item the loop keeps: a map with a string role and non-blank string content. */
  predicate WellFormedTurn(item: Json)
  {
    && item.JObject?
    && Get(item.fields, "role").JString?
    && Get(item.fields, "content").JString?
    && !IsBlank(Get(item.fields, "content").s)
  }

  /** The message a well-formed item becomes. */
  function Kept(item: Json): ChatMessage
    requires WellFormedTurn(item)
  {
    ChatMessage(Get(item.fields, "role").s, Trim(Get(item.fields, "content").s))
  }

  /** An item yields a message exactly when it is well formed; that message keeps the role
      and carries the trimmed content, which is not blank. */
  lemma TurnSpec(item: Json)
    ensures (Turn(item).Ok? && Turn(item).value.Some?) <==> WellFormedTurn(item)
    ensures WellFormedTurn(item) ==>
      && Turn(item) == Ok(Some(Kept(item)))
      && !IsBlank(Kept(item).content) && Trim(Kept(item).content) == Kept(item).content
  {
    if WellFormedTurn(item) {
      var c := Get(item.fields, "content").s;
      TrimNotBlank(c);
      TrimIdempotent(c);
    }
  }

  /** Each kept turn is the message of a well-formed window item. */
  lemma {:induction false} TurnsKept(window: seq<Json>)
    requires Turns(window).Ok?
    ensures forall j :: 0 <= j < |Turns(window).value| ==>
      exists k :: 0 <= k < |window| && WellFormedTurn(window[k]) && Turns(window).value[j] == Kept(window[k])
  {
    if window != [] {
      var init := window[..|window| - 1];
      var last := window[|window| - 1];
      assert Turns(window) == Step(Turns(init), last);
      assert Turns(init).Ok?;
      TurnsKept(init);
      TurnSpec(last);
      var ts := Turns(window).value;
      var ps := Turns(init).value;
      forall j | 0 <= j < |ts|
        ensures exists k :: 0 <= k < |window| && WellFormedTurn(window[k]) && ts[j] == Kept(window[k])
      {
        if j < |ps| {
          assert ts[j] == ps[j];
          var k :| 0 <= k < |init| && WellFormedTurn(init[k]) && ps[j] == Kept(init[k]);
          assert window[k] == init[k];
          assert 0 <= k < |window| && WellFormedTurn(window[k]) && ts[j] == Kept(window[k]);
        } else {
          assert Turn(last).Ok? && Turn(last).value.Some?;
          var k := |window| - 1;
          assert window[k] == last && WellFormedTurn(last);
          assert ts[j] == Kept(window[k]);
        }
      }
    }
  }

  /** The message is the kept form of a well-formed history item inside the window. */
  ghost predicate KeptFromWindow(m: ChatMessage, history: seq<Json>)
  {
    exists k :: |history| - |Window(history)| <= k < |history| && WellFormedTurn(history[k]) && m == Kept(history[k])
  }

  /** Every message count from 2 (nothing kept) to 12 (ten turns kept): system prompt first,
      the question last, and between them only trimmed non-blank turns of window items. */
  lemma MessagesWithHistoryShape(question: string, history: seq<Json>)
    requires MessagesWithHistory(question, history).Ok?
    ensures var ms := MessagesWithHistory(question, history).value;
      && 2 <= |ms| <= MAX_HISTORY + 2
      && ms[0] == ChatMessage("system", HISTORY_PERSONA)
      && ms[|ms| - 1] == ChatMessage("user", question)
      && forall j :: 1 <= j < |ms| - 1 ==> KeptFromWindow(ms[j], history)
  {
    var w := Window(history);
    var turns := Turns(w).value;
    var ms := MessagesWithHistory(question, history).value;
    assert ms == [ChatMessage("system", HISTORY_PERSONA)] + turns + [ChatMessage("user", question)];
    assert |ms| == |turns| + 2 && |turns| <= |w| <= MAX_HISTORY;
    forall j | 1 <= j < |ms| - 1
      ensures KeptFromWindow(ms[j], history)
    {
      assert ms[j] == turns[j - 1];
      WindowTurnKept(history, turns, j - 1);
    }
  }

  /** A kept turn of the window is the message of a well-formed history item at or after
      the window's start. */
  lemma WindowTurnKept(history: seq<Json>, turns: seq<ChatMessage>, j: nat)
    requires Turns(Window(history)) == Ok(turns) && j < |turns|
    ensures KeptFromWindow(turns[j], history)
  {
    var w := Window(history);
    var off := |history| - |w|;
    TurnsKept(w);
    var k :| 0 <= k < |w| && WellFormedTurn(w[k]) && turns[j] == Kept(w[k]);
    WindowShift(history);
    assert w[k] == history[off + k];
    assert off <= off + k < |history| && WellFormedTurn(history[off + k]) && turns[j] == Kept(history[off + k]);
  }

  /** An item the casts accept: null, or a map whose role and content are strings or null. */
  predicate Castable(item: Json)
  {
    || item.JNull?
    || (&& item.JObject?
        && (Get(item.fields, "role").JNull? || Get(item.fields, "role").JString?)
        && (Get(item.fields, "content").JNull? || Get(item.fields, "content").JString?))
  }

  lemma TurnFailIff(item: Json)
    ensures Turn(item).Err? <==> !Castable(item)
  {
  }

  lemma StepFailIff(acc: Result<seq<ChatMessage>, string>, item: Json)
    ensures Step(acc, item).Err? <==> acc.Err? || !Castable(item)
  {
    TurnFailIff(item);
  }

  /** The build fails (ClassCastException) exactly when some item of the window fails a cast. */
  lemma {:induction false} TurnsFailIff(window: seq<Json>)
    ensures Turns(window).Err? <==> exists k :: 0 <= k < |window| && !Castable(window[k])
  {
    if window != [] {
      var init := window[..|window| - 1];
      var last := window[|window| - 1];
      TurnsFailIff(init);
      StepFailIff(Turns(init), last);
      assert Turns(window).Err? <==> Turns(init).Err? || !Castable(last);
      if exists k :: 0 <= k < |init| && !Castable(init[k]) {
        var k :| 0 <= k < |init| && !Castable(init[k]);
        assert window[k] == init[k];
      }
      if exists k :: 0 <= k < |window| && !Castable(window[k]) {
        var k :| 0 <= k < |window| && !Castable(window[k]);
        if k < |init| {
          assert init[k] == window[k];
        }
      }
    }
  }

  /** The only exception the build raises is the ClassCastException. */
  lemma {:induction false} TurnsFailMessage(window: seq<Json>)
    ensures Turns(window).Err? ==> Turns(window).error == CLASS_CAST
  {
    if window != [] {
      TurnsFailMessage(window[..|window| - 1]);
    }
  }

  /** The window is the tail of the history from its start offset. */
  lemma WindowShift(history: seq<Json>)
    ensures forall k :: 0 <= k < |Window(history)| ==>
      Window(history)[k] == history[|history| - |Window(history)| + k]
  {
  }

  /** The build of a whole history fails exactly when an item of its window fails a cast. */
  lemma HistoryFailIff(question: string, history: seq<Json>)
    ensures MessagesWithHistory(question, history).Err? <==>
      exists k :: |history| - |Window(history)| <= k < |history| && !Castable(history[k])
  {
    var w := Window(history);
    var off := |history| - |w|;
    TurnsFailIff(w);
    WindowShift(history);
    assert MessagesWithHistory(question, history).Err? <==> Turns(w).Err?;
    if Turns(w).Err? {
      var k :| 0 <= k < |w| && !Castable(w[k]);
      assert !Castable(history[off + k]);
    } else {
      forall k | off <= k < |history|
        ensures Castable(history[k])
      {
        assert history[k] == w[k - off];
      }
    }
  }

  /** With only well-formed items every window item is kept, in order. */
  lemma {:induction false} TurnsAllKept(window: seq<Json>)
    requires forall k :: 0 <= k < |window| ==> WellFormedTurn(window[k])
    ensures Turns(window).Ok? && |Turns(window).value| == |window|
    ensures forall k :: 0 <= k < |window| ==> Turns(window).value[k] == Kept(window[k])
  {
    if window != [] {
      var init := window[..|window| - 1];
      var last := window[|window| - 1];
      TurnsAllKept(init);
      TurnSpec(last);
      assert Turns(window) == Step(Turns(init), last);
      var ts := Turns(window).value;
      assert ts == Turns(init).value + [Kept(last)];
      assert |ts| == |window|;
      forall k | 0 <= k < |window|
        ensures ts[k] == Kept(window[k])
      {
        if k < |init| {
          assert window[k] == init[k];
        }
      }
    }
  }

  /** The count the size of the window dictates when every item is well formed. */
  lemma HistoryMessageCount(question: string, history: seq<Json>)
    requires forall k :: 0 <= k < |history| ==> WellFormedTurn(history[k])
    ensures MessagesWithHistory(question, history).Ok?
    ensures |MessagesWithHistory(question, history).value|
      == (if |history| <= MAX_HISTORY then |history| else MAX_HISTORY) + 2
  {
    var w := Window(history);
    assert forall k :: 0 <= k < |w| ==> w[k] == history[|history| - |w| + k];
    TurnsAllKept(w);
  }

  /** Turns older than the last ten never reach the model, whatever they hold. */
  lemma OlderTurnsIgnored(question: string, older: seq<Json>, recent: seq<Json>)
    requires |recent| >= MAX_HISTORY
    ensures MessagesWithHistory(question, older + recent) == MessagesWithHistory(question, recent)
  {
    assert Window(older + recent) == Window(recent);
  }

  // ---------------------------------------------------------------------------------------
  // extractAnswerFromResponse
  // ---------------------------------------------------------------------------------------

  const NO_RESPONSE: string := "抱歉，未收到有效响应"
  const NO_VALID_REPLY: string := "抱歉，未能获取到有效回复"
  const PARSE_ERROR: string := "抱歉，解析回复时发生错误"

  /** The answer read from a completion response: the trimmed content of the first choice's
      message, or an apology. A null response, and a response with no usable content, have
      their own apology; a cast failure or a null first choice (NullPointerException) is
      caught and gives the third. */
  function ExtractAnswer(response: Option<map<string, Json>>): string
  {
    match response
    case None => NO_RESPONSE
    case Some(body) =>
      match Get(body, "choices")
      case JNull => NO_VALID_REPLY
      case JList(choices) =>
        if choices == [] then NO_VALID_REPLY
        else
          (match choices[0]
           case JObject(choice) =>
             (match Get(choice, "message")
              case JNull => NO_VALID_REPLY
              case JObject(message) =>
                (match Get(message, "content")
                 case JNull => NO_VALID_REPLY
                 case JString(content) => if IsBlank(content) then NO_VALID_REPLY else Trim(content)
                 case _ => PARSE_ERROR)
              case _ => PARSE_ERROR)
           case _ => PARSE_ERROR)
      case _ => PARSE_ERROR
  }

  lemma ApologiesNotBlank()
    ensures !IsBlank(NO_RESPONSE) && !IsBlank(NO_VALID_REPLY) && !IsBlank(PARSE_ERROR)
  {
    assert !IsTrimmable(NO_RESPONSE[0]);
    assert !IsTrimmable(NO_VALID_REPLY[0]);
    assert !IsTrimmable(PARSE_ERROR[0]);
    FirstCharNotBlank(NO_RESPONSE);
    FirstCharNotBlank(NO_VALID_REPLY);
    FirstCharNotBlank(PARSE_ERROR);
  }

  lemma FirstCharNotBlank(s: string)
    requires s != [] && !IsTrimmable(s[0])
    ensures !IsBlank(s)
  {
    BlankIff(s);
  }

  predicate IsApology(s: string)
  {
    s == NO_RESPONSE || s == NO_VALID_REPLY || s == PARSE_ERROR
  }

  /** The content of the first choice's message, when the response holds a string there. */
  function FirstContent(response: Option<map<string, Json>>): Option<string>
  {
    if response.None? then None
    else
      var choices := Get(response.value, "choices");
      if !choices.JList? || choices.items == [] || !choices.items[0].JObject? then None
      else
        var message := Get(choices.items[0].fields, "message");
        if !message.JObject? || !Get(message.fields, "content").JString? then None
        else Some(Get(message.fields, "content").s)
  }

  /** Extraction never yields blank text: it is the trimmed first content exactly when that
      content is present and not blank, and one of the three apologies otherwise. */
  lemma ExtractAnswerSpec(response: Option<map<string, Json>>)
    ensures var r := ExtractAnswer(response); var c := FirstContent(response);
      && !IsBlank(r)
      && (c.Some? && !IsBlank(c.value) ==> r == Trim(c.value))
      && (!(c.Some? && !IsBlank(c.value)) ==> IsApology(r))
  {
    ApologiesNotBlank();
    var c := FirstContent(response);
    if c.Some? && !IsBlank(c.value) {
      TrimNotBlank(c.value);
      ExtractPresent(response);
    } else {
      ExtractApology(response);
    }
  }

  lemma ExtractPresent(response: Option<map<string, Json>>)
    requires var c := FirstContent(response); c.Some? && !IsBlank(c.value)
    ensures ExtractAnswer(response) == Trim(FirstContent(response).value)
  {
    var choices := Get(response.value, "choices");
    var message := Get(choices.items[0].fields, "message");
    var content := Get(message.fields, "content");
    assert content == JString(FirstContent(response).value);
  }

  lemma ExtractApology(response: Option<map<string, Json>>)
    requires var c := FirstContent(response); !(c.Some? && !IsBlank(c.value))
    ensures IsApology(ExtractAnswer(response))
  {
    if response.Some? {
      var choices := Get(response.value, "choices");
      if choices.JList? && choices.items != [] && choices.items[0].JObject? {
        var message := Get(choices.items[0].fields, "message");
        if message.JObject? {
          var content := Get(message.fields, "content");
          if content.JString? {
            assert IsBlank(content.s);
            assert ExtractAnswer(response) == NO_VALID_REPLY;
          }
        }
      }
    }
  }

  /** The body the endpoint sends for a single reply with the given text. */
  function CompletionBody(text: string): map<string, Json>
  {
    var message := map["role" := JString("assistant"), "content" := JString(text)];
    map["choices" := JList([JObject(map["index" := JInt(0), "message" := JObject(message)])])]
  }

  /** Round trip with the endpoint's reply format: a non-blank reply comes back trimmed. */
  lemma ExtractCompletionBody(text: string)
    requires !IsBlank(text)
    ensures ExtractAnswer(Some(CompletionBody(text))) == Trim(text)
  {
    ExtractAnswerSpec(Some(CompletionBody(text)));
  }

  // ---------------------------------------------------------------------------------------
  // Server-sent-event frames of getAnswerStream
  // ---------------------------------------------------------------------------------------

  const FRAME_PREFIX: string := "data: {\"content\": \""
  const FRAME_SUFFIX: string := "\"}\n\n"
  const DONE_FRAME: string := "data: [DONE]\n\n"
  const ERROR_FRAME: string := "data: {\"error\": \"AI服务暂时不可用，请稍后再试\"}\n\n"

  /** `replace("\"", "\\\"")`: every double quote gets a backslash in front. */
  function EscapeQuotes(s: string): (r: string)
    ensures |r| >= |s|
  {
    if s == [] then []
    else (if s[0] == '"' then "\\\"" else [s[0]]) + EscapeQuotes(s[1..])
  }

  /** The inverse of the quote escaping: backslash-quote stands for a quote, and every other
      character, a lone backslash or a line break included, stands for itself. A JSON or
      event-stream reader does not read the frame this way when the answer holds a
      backslash or a control character. */
  function UnescapeQuotes(s: string): string
  {
    if s == [] then []
    else if |s| >= 2 && s[0] == '\\' && s[1] == '"' then "\"" + UnescapeQuotes(s[2..])
    else [s[0]] + UnescapeQuotes(s[1..])
  }

  /** Escaping loses nothing: the answer is recovered from its escaped form. */
  lemma {:induction false} UnescapeEscape(s: string)
    ensures UnescapeQuotes(EscapeQuotes(s)) == s
  {
    if s != [] {
      var e := EscapeQuotes(s);
      UnescapeEscape(s[1..]);
      if s[0] == '"' {
        assert e == "\\\"" + EscapeQuotes(s[1..]);
        assert e[2..] == EscapeQuotes(s[1..]);
      } else {
        assert e == [s[0]] + EscapeQuotes(s[1..]);
        assert e[1..] == EscapeQuotes(s[1..]);
        if s[0] == '\\' {
          assert |e| < 2 || e[1] != '"';
        }
      }
    }
  }

  /** Every quote of the escaped text is preceded by a backslash. */
  lemma {:induction false} EscapedQuotesGuarded(s: string)
    ensures var e := EscapeQuotes(s); forall i :: 0 <= i < |e| && e[i] == '"' ==> 0 < i && e[i - 1] == '\\'
  {
    if s != [] {
      EscapedQuotesGuarded(s[1..]);
      var e := EscapeQuotes(s);
      var head := if s[0] == '"' then "\\\"" else [s[0]];
      assert e == head + EscapeQuotes(s[1..]);
      forall i | 0 <= i < |e| && e[i] == '"'
        ensures 0 < i && e[i - 1] == '\\'
      {
        if i >= |head| {
          var j := i - |head|;
          assert EscapeQuotes(s[1..])[j] == '"';
          if j > 0 {
            assert e[i - 1] == EscapeQuotes(s[1..])[j - 1];
          }
        }
      }
    }
  }

  /** The event carrying a knowledge answer. */
  function ContentFrame(answer: string): string
  {
    FRAME_PREFIX + EscapeQuotes(answer) + FRAME_SUFFIX
  }

  /** Reads the answer back from a content event: strip the frame, undo the escaping. */
  function DecodeContentFrame(frame: string): Option<string>
  {
    if |frame| >= |FRAME_PREFIX| + |FRAME_SUFFIX|
       && frame[..|FRAME_PREFIX|] == FRAME_PREFIX
       && frame[|frame| - |FRAME_SUFFIX|..] == FRAME_SUFFIX
    then Some(UnescapeQuotes(frame[|FRAME_PREFIX|..|frame| - |FRAME_SUFFIX|]))
    else None
  }

  /** Round trip of the knowledge-answer event. */
  lemma ContentFrameRoundTrip(answer: string)
    ensures DecodeContentFrame(ContentFrame(answer)) == Some(answer)
  {
    var e := EscapeQuotes(answer);
    var f := ContentFrame(answer);
    assert f[..|FRAME_PREFIX|] == FRAME_PREFIX;
    assert f[|f| - |FRAME_SUFFIX|..] == FRAME_SUFFIX;
    assert f[|FRAME_PREFIX|..|f| - |FRAME_SUFFIX|] == e;
    UnescapeEscape(answer);
  }

  /** Distinct answers give distinct content events. */
  lemma ContentFrameInjective(a: string, b: string)
    requires ContentFrame(a) == ContentFrame(b)
    ensures a == b
  {
    ContentFrameRoundTrip(a);
    ContentFrameRoundTrip(b);
  }

  /** An answer without double quotes is sent as it is. */
  lemma {:induction false} EscapeQuoteFree(s: string)
    requires '"' !in s
    ensures EscapeQuotes(s) == s
  {
    if s != [] {
      assert '"' !in s[1..] by {
        forall i | 0 <= i < |s[1..]|
          ensures s[1..][i] != '"'
        {
          assert s[1..][i] == s[i + 1];
        }
      }
      EscapeQuoteFree(s[1..]);
      assert s == [s[0]] + s[1..];
    }
  }

  /** The events a knowledge hit produces: the content event, then the end marker. */
  function KnowledgeFrames(answer: string): (frames: seq<string>)
    ensures |frames| == 2 && frames[0] == ContentFrame(answer) && frames[1] == DONE_FRAME
    ensures DecodeContentFrame(frames[0]) == Some(answer)
  {
    ContentFrameRoundTrip(answer);
    [ContentFrame(answer), DONE_FRAME]
  }
}
