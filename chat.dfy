/** The conversation log sent to the language model and the model call
    itself, which is an external collaborator. */
module Chat {
  import opened Text
  import opened GameData

  datatype Role = System | User | Assistant

  /** What a message says. The f-strings of the handlers are kept as
      constructors over the values they interpolate. */
  datatype Content =
    | SystemPrompt(tier: Tier)       // EASY_PROMPT, MEDIUM_PROMPT or HARD_PROMPT
    | WordIntro(word: string)        // "Word: {word}"
    | AnswerHint(hint: HintPrompt)   // "Answer this hint indirectly: {hint_prompt}"
    | AnotherClue                    // "Give another indirect clue. Do not repeat previous clues."
    | Reply(text: string)            // what the model answered

  datatype Message = Message(role: Role, content: Content)

  /** The reply `call_model` gives when no API client is configured. */
  const NoClientReply: string := "ERROR: Groq API Key not configured."

  /** The configured API client: either absent, or a completion function whose
      behaviour is not modelled beyond being a function of the messages. */
  datatype Client = NoClient | Client(complete: seq<Message> -> string)

  /** `call_model(messages)`: the sentinel without a client, otherwise the
      completion's text with surrounding whitespace removed. */
  function CallModel(client: Client, messages: seq<Message>): string {
    match client
    case NoClient => NoClientReply
    case Client(complete) => Strip(complete(messages))
  }

  /** Whatever the model answers, the reply the game stores and returns never
      starts or ends with whitespace, and with no client it is the sentinel. */
  lemma CallModelTrimmed(client: Client, messages: seq<Message>)
    ensures Trimmed(CallModel(client, messages))
    ensures client.NoClient? ==> CallModel(client, messages) == NoClientReply
  {
    if client.Client? {
      StripTrimmed(client.complete(messages));
    }
  }
}
