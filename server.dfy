/** The server's global `GAME` dictionary as an object whose fields the
    handlers update in place. Each handler is proved to produce exactly the
    new state and reply that the `Round` functions describe, and to keep the
    round invariant. */
module Server {
  import opened Text
  import opened GameData
  import opened Chat
  import opened Round

  class GameServer {
    var word: Option<string>
    var hints: seq<HintPrompt>
    var hintIndex: nat
    var questionIndex: nat
    var messages: seq<Message>
    var finished: bool

    /** The fields as one `Game` value. */
    function Value(): Game
      reads this
    {
      Game(word, hints, hintIndex, questionIndex, messages, finished)
    }

    /** `GAME` as declared at module load. */
    constructor ()
      ensures Value() == Initial
    {
      word := None;
      hints := [];
      hintIndex := 0;
      questionIndex := 0;
      messages := [];
      finished := false;
    }

    /** `POST /start`. The random outcomes arrive in `draw`. */
    method StartGame(client: Client, draw: Draw) returns (reply: StartReply)
      requires Possible(draw)
      modifies this
      ensures (Value(), reply) == Start(client, draw)
      ensures Valid(Value())
    {
      var w := Words[draw.choice];
      var allHints := Catalog[w];
      var selected := Sample(allHints, draw.picks);

      word := Some(w);
      hints := selected;
      hintIndex := 0;
      questionIndex := 1;
      finished := false;

      var systemPrompt := PromptForQuestion(1);
      messages := [Message(System, SystemPrompt(systemPrompt)), Message(User, WordIntro(w))];

      var clue := CallModel(client, messages);
      messages := messages + [Message(Assistant, Reply(clue))];

      reply := StartReply(1, "easy", clue);
      StartResetsRound(client, draw);
    }

    /** `POST /next`. */
    method NextHint(client: Client) returns (reply: NextReply)
      modifies this
      ensures (Value(), reply) == Round.NextHint(old(Value()), client)
      ensures old(Valid(Value())) ==> Valid(Value())
      ensures old(finished) ==> Value() == old(Value())
      ensures !old(finished) ==> questionIndex == old(questionIndex) + 1
    {
      ghost var before := Value();
      if Valid(before) {
        NextHintKeepsValid(before, client);
      }
      if finished {
        return GameOver;
      }

      questionIndex := questionIndex + 1;

      if questionIndex > 10 {
        finished := true;
        return NoMoreHints;
      }

      var systemPrompt := PromptForQuestion(questionIndex);
      if messages == [] {
        return MessagesIndexError;
      }
      messages := messages[0 := Message(System, SystemPrompt(systemPrompt))];

      var userMsg;
      if hintIndex < |hints| {
        var hintPrompt := hints[hintIndex];
        hintIndex := hintIndex + 1;
        userMsg := AnswerHint(hintPrompt);
      } else {
        userMsg := AnotherClue;
      }

      messages := messages + [Message(User, userMsg)];
      assert messages == ClueRequest(before, questionIndex);

      var text := CallModel(client, messages);
      messages := messages + [Message(Assistant, Reply(text))];

      var difficulty := if questionIndex <= 4 then "easy"
                        else if questionIndex <= 8 then "medium"
                        else "hard";

      reply := Clue(questionIndex, difficulty, text);
    }

    /** `POST /guess`. */
    method Guess(guess: string) returns (reply: GuessReply)
      modifies this
      ensures (Value(), reply) == Round.Guess(old(Value()), guess)
      ensures old(Valid(Value())) ==> Valid(Value())
      ensures unchanged(this`word, this`hints, this`hintIndex, this`questionIndex, this`messages)
    {
      ghost var before := Value();
      if Valid(before) {
        GuessKeepsValid(before, guess);
      }

      if word.None? {
        return NotStarted;
      }

      var userGuess := Lower(Strip(guess));
      var answer := Lower(word.value);

      if userGuess == answer {
        finished := true;
        return Correct(word.value);
      }

      return Wrong;
    }

    /** `GET /state`: reads the counter and the flag, changes nothing. */
    method GetState() returns (question: nat, isFinished: bool)
      ensures question == questionIndex && isFinished == finished
    {
      question := questionIndex;
      isFinished := finished;
    }
  }
}
