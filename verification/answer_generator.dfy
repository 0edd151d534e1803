/**
 * `generate_flexible_answer` (flask_app/utils.py): builds the model input with
 * the context injector, runs the history-aware chat chain for the session, and
 * turns any failure into one fixed apology.
 */
module AnswerGenerator {
  import opened Wrappers
  import opened ContextInjector
  import opened Sessions

  /** What one invocation of the chat chain yields: an exception, or a reply with its text content. */
  datatype LlmReply = Raised | Replied(content: string)

  /**
   * The prompt-template-plus-model chain, opaque: given the new input and the
   * session's prior messages, it replies or raises.
   */
  type ChatModel = (string, seq<Message>) -> LlmReply

  /**
   * What the history-aware chain does to a session's messages after a reply,
   * opaque: given the prior messages, the input it was invoked with and the
   * reply's content, the messages afterwards.
   */
  type Recorder = (seq<Message>, string, string) -> seq<Message>

  /** The answer returned whenever generation raises. */
  const FallbackAnswer: string := "Sorry, I encountered an error while generating the response."

  /** The answer for one request, given the session's prior messages. */
  function FlexibleAnswer(query: string, content: Option<string>, history: seq<Message>, model: ChatModel): (r: string)
    ensures model(BuildInput(query, content), history).Raised? ==> r == FallbackAnswer
    ensures model(BuildInput(query, content), history).Replied? ==> r == model(BuildInput(query, content), history).content
  {
    match model(BuildInput(query, content), history)
    case Raised => FallbackAnswer
    case Replied(text) => text
  }

  /** Without usable content the model sees the bare query, so the answer is what the model says to it. */
  lemma AnswerWithoutContent(query: string, content: Option<string>, history: seq<Message>, model: ChatModel)
    requires !HasContent(content)
    ensures FlexibleAnswer(query, content, history, model)
      == if model(query, history).Raised? then FallbackAnswer else model(query, history).content
  {
    BuildInputPassesQuery(query, content);
  }

  /** For a meta-question the retrieved content makes no difference to the answer. */
  lemma MetaQuestionAnswerIgnoresContent(query: string, c1: Option<string>, c2: Option<string>,
                                         history: seq<Message>, model: ChatModel)
    requires IsMetaQuestion(query)
    ensures FlexibleAnswer(query, c1, history, model) == FlexibleAnswer(query, c2, history, model)
  {
    BuildInputPassesQuery(query, c1);
    BuildInputPassesQuery(query, c2);
  }

  /**
   * With content and an ordinary question, the model is asked a prompt that
   * reads back as the first min(|content|, 3000) characters and the query.
   */
  lemma AnswerWithContent(query: string, content: Option<string>, history: seq<Message>, model: ChatModel)
    requires HasContent(content) && !IsMetaQuestion(query)
    ensures var n := Min(|content.value|, MaxChars);
      exists prompt :: ParsePrompt(prompt, n) == Some((content.value[..n], query))
        && FlexibleAnswer(query, content, history, model)
           == (if model(prompt, history).Raised? then FallbackAnswer else model(prompt, history).content)
  {
    BuildInputEmbedsPrefix(query, content);
    var prompt := BuildInput(query, content);
    var n := Min(|content.value|, MaxChars);
    assert ParsePrompt(prompt, n) == Some((content.value[..n], query));
  }

  /**
   * One request: the input is built first, then the session's history is
   * fetched or created, then the model is invoked with that history; a
   * raised exception yields exactly `FallbackAnswer` and leaves the history as
   * it was, a reply yields its content and the chain records the exchange in
   * that session's history. No other session's history changes.
   */
  method GenerateFlexibleAnswer(store: SessionStore, model: ChatModel, record: Recorder, query: string,
                                sessionId: string, content: Option<string>) returns (answer: string)
    requires store.Valid()
    modifies store, if sessionId in store.histories then {store.histories[sessionId]} else {}
    ensures store.Valid()
    ensures sessionId in store.histories
    ensures (store.histories, store.histories[sessionId])
      == SetDefault(old(store.histories), sessionId, store.histories[sessionId])
    ensures sessionId !in old(store.histories) ==> fresh(store.histories[sessionId])
    ensures var prior := if sessionId in old(store.histories) then old(store.histories[sessionId].messages) else [];
      var reply := model(BuildInput(query, content), prior);
      && answer == FlexibleAnswer(query, content, prior, model)
      && store.histories[sessionId].messages
         == (if reply.Raised? then prior else record(prior, BuildInput(query, content), reply.content))
    ensures forall s :: s in old(store.histories) && s != sessionId ==>
      s in store.histories && store.histories[s].messages == old(store.histories[s].messages)
  {
    var input := BuildInput(query, content);
    var history := store.GetOrCreate(sessionId);
    var reply := model(input, history.messages);
    match reply {
      case Raised =>
        answer := FallbackAnswer;
      case Replied(text) =>
        history.messages := record(history.messages, input, text);
        answer := text;
    }
  }
}
