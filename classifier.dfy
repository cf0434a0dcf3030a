/**
 * The context classifier of DeepSeekService (`needsContextualUnderstanding`): a heuristic
 * that decides whether a question with prior turns should be sent to the model together
 * with those turns.
 */
module ContextClassifier {
  import opened JavaLang
  import opened Json

  /** Pronouns and deictic words; any of them anywhere in the question asks for context. */
  const CONTEXTUAL_WORDS: seq<string> := [
    "它", "这个", "那个", "他", "她", "这", "那", "上面", "前面", "刚才", "之前",
    "this", "that", "it", "above", "previous", "earlier", "what", "which"
  ]

  /** Interrogatives that make a question ending in a question mark ask for context. */
  const SIMPLE_QUESTION_WORDS: seq<string> := ["什么", "怎么", "如何", "为什么", "when", "how", "why", "what"]

  /** The `for (String word : words) if (s.contains(word)) return true;` loops. */
  function ContainsAny(s: string, words: seq<string>): bool
  {
    if words == [] then false else Contains(s, words[0]) || ContainsAny(s, words[1..])
  }

  lemma {:induction false} ContainsAnyIff(s: string, words: seq<string>)
    ensures ContainsAny(s, words) <==> exists k :: 0 <= k < |words| && Contains(s, words[k])
  {
    if words != [] {
      ContainsAnyIff(s, words[1..]);
      if exists k :: 0 <= k < |words| && Contains(s, words[k]) {
        var k :| 0 <= k < |words| && Contains(s, words[k]);
        if k > 0 {
          assert words[1..][k - 1] == words[k];
        }
      }
      if exists k :: 0 <= k < |words[1..]| && Contains(s, words[1..][k]) {
        var k :| 0 <= k < |words[1..]| && Contains(s, words[1..][k]);
        assert words[1..][k] == words[k + 1];
      }
    }
  }

  /** `question.toLowerCase().trim()`. */
  function Normalized(question: string): string
  {
    Trim(ToLowerAscii(question))
  }

  /** needsContextualUnderstanding(question, history); an absent (null) history is the
      empty sequence here. */
  function NeedsContext(question: string, history: seq<Json>): bool
  {
    if history == [] then false
    else
      var q := Normalized(question);
      if ContainsAny(q, CONTEXTUAL_WORDS) then true
      else if Utf16Length(q) < 10 then true
      else if EndsWith(q, "?") || EndsWith(q, "？") then ContainsAny(q, SIMPLE_QUESTION_WORDS)
      else false
  }

  /** The classifier's decision, rule by rule: never without history; otherwise a listed
      word occurring anywhere (as a substring, not a whole word), or fewer than 10 UTF-16
      units, or a trailing question mark together with an interrogative. */
  lemma NeedsContextSpec(question: string, history: seq<Json>)
    ensures var q := Normalized(question);
      NeedsContext(question, history) <==>
        && history != []
        && ( || (exists k :: 0 <= k < |CONTEXTUAL_WORDS| && OccursIn(CONTEXTUAL_WORDS[k], q))
             || Utf16Length(q) < 10
             || ((EndsWith(q, "?") || EndsWith(q, "？"))
                 && exists k :: 0 <= k < |SIMPLE_QUESTION_WORDS| && OccursIn(SIMPLE_QUESTION_WORDS[k], q)))
  {
    var q := Normalized(question);
    ContainsAnyIff(q, CONTEXTUAL_WORDS);
    ContainsAnyIff(q, SIMPLE_QUESTION_WORDS);
    forall k | 0 <= k < |CONTEXTUAL_WORDS|
      ensures Contains(q, CONTEXTUAL_WORDS[k]) <==> OccursIn(CONTEXTUAL_WORDS[k], q)
    {
      ContainsIff(q, CONTEXTUAL_WORDS[k]);
    }
    forall k | 0 <= k < |SIMPLE_QUESTION_WORDS|
      ensures Contains(q, SIMPLE_QUESTION_WORDS[k]) <==> OccursIn(SIMPLE_QUESTION_WORDS[k], q)
    {
      ContainsIff(q, SIMPLE_QUESTION_WORDS[k]);
    }
  }

  /** Without history the answer is no, whatever the question. */
  lemma NoHistoryNoContext(question: string)
    ensures !NeedsContext(question, [])
  {
  }

  lemma ListedWordsPlain()
    ensures forall k :: 0 <= k < |CONTEXTUAL_WORDS| ==> PlainWord(CONTEXTUAL_WORDS[k])
  {
  }

  /** Any listed word anywhere in the question, even inside a longer word ("it" in
      "architecture", "that" in "thatched"), sends a question with history down the
      context path. */
  lemma ListedWordNeedsContext(question: string, history: seq<Json>, k: nat)
    requires history != [] && k < |CONTEXTUAL_WORDS| && Contains(question, CONTEXTUAL_WORDS[k])
    ensures NeedsContext(question, history)
  {
    ListedWordsPlain();
    PlainWordSurvives(question, CONTEXTUAL_WORDS[k]);
    assert Contains(Normalized(question), CONTEXTUAL_WORDS[k]);
    ContainsAnyIff(Normalized(question), CONTEXTUAL_WORDS);
  }
}
