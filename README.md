# Word-guessing game server: the round state machine

The server (`api/index.py`) runs one guessing round at a time. `start_game`
picks a secret word from a small catalog, samples two or three of its hint
prompts, and asks a language model for a first riddle-like clue. `next_hint`
moves the question counter. It switches the system prompt to the tier of the
new question (easy for 1–4, medium for 5–8, hard from 9 on) and asks the model
for the next clue, built on the next unused sampled hint or, once those are
used up, on a generic request. The call that passes question 10 ends the
round instead. `guess` compares a guess with the word, ignoring surrounding
whitespace and letter case. A match finishes the round. All of this state
lives in one global dictionary, `GAME`.

The project models that dictionary and its three handlers twice:

- `Round` (round.dfy) holds `GAME` as a value (`Game`) and each handler as a
  function from the old value to the new value and the reply. It also holds
  the round invariant `Valid` and the lemmas that state what the handlers
  promise, one call at a time and over whole runs of calls.
- `Server` (server.dfy) holds the class `GameServer`, whose fields are the
  keys of `GAME`. Its methods update those fields step by step, in the order
  the handlers do. Each method is proved to give exactly the new state and
  reply of the matching `Round` function, and to keep `Valid`.

Supporting modules:

- `Text` (text.dfy) models `str.lower()` and `str.strip()` on ASCII, with the
  lemmas the guess comparison needs.
- `GameData` (game_data.dfy) holds the word catalog, the three prompt tiers,
  `prompt_for_question` and the difficulty label.
- `Chat` (chat.dfy) holds the conversation messages and `call_model`.

Things that are opaque in the model:

- The language model is a `Client`. It is either absent, which gives the
  sentinel reply, or an arbitrary function from the message list to a string.
- The random choices of `start_game` arrive as a `Draw`: the index that
  `random.choice` picks, the count that `random.randint(2, 3)` returns, and
  the distinct positions that `random.sample` returns, in its order. A
  `Draw` is constrained to the outcomes those calls can produce.
- The prompt texts are the three tiers `Easy`, `Medium` and `Hard`. A hint
  prompt is `HintPrompt(word, position)`, its place in the catalog.

Some of what the code does is easy to misread; the model follows it:

- Every round starts with the easy prompt, from `prompt_for_question(1)`
  (api/index.py:149).
- The sampled hints come in the order `random.sample` returns them, which is
  not necessarily catalog order. `Round.StartHintOrderIsTheDraws` shows a
  draw that reverses two hints.
- `guess` does not check `finished`. A correct guess on a finished round is
  still reported correct.
- `next_hint` before any `start_game` does not report "not started". It
  increments `question_index` and then fails on `messages[0]` of the empty
  list. The model keeps that incremented counter and returns
  `MessagesIndexError`.

## Model

| member | source | states |
|---|---|---|
| `Round.Initial` | api/index.py:103-110 | the definition of `GAME` as declared, with no contract; `Round.NextHintBeforeStart`, `Round.EveryRunBounded` and `Server.GameServer.constructor` state what follows from it |
| `Round.Start` | api/index.py:137-163 | the definition of `start_game`, with no contract; `Round.StartSamplesHints`, `Round.StartResetsRound` and `Round.StartHintOrderIsTheDraws` carry its properties |
| `Round.ClueRequest` | api/index.py:176-186 | the definition of the log `next_hint` sends to the model, with no contract; `Round.NextHintAsksNextClue` carries its properties |
| `Round.AfterClue` | api/index.py:176-189 | the definition of `GAME` after a clue request, with no contract; `Round.AfterClueKeepsValid` and `Round.NextHintAsksNextClue` carry its properties |
| `Round.NextHint` | api/index.py:165-201 | the definition of `next_hint`, with no contract; `Round.NextHintWhenFinished`, `Round.NextHintEndsRound`, `Round.NextHintBeforeStart`, `Round.NextHintAsksNextClue`, `Round.NextHintKeepsValid` and `Round.NextHintReports` carry its properties |
| `Round.Guess` | api/index.py:203-221 | the definition of `guess`, with no contract; `Round.GuessBeforeStart`, `Round.GuessVerdict`, `Round.GuessRepeatable`, `Round.GuessSeesNormalForm` and `Round.GuessKeepsValid` carry its properties |
| `GameData.DifficultyLabel` | api/index.py:191-195 | the definition of the label expression, with no contract; `GameData.LabelNamesTier` carries its property |
| `Chat.CallModel` | api/index.py:112-125 | the definition of `call_model`, with no contract; `Chat.CallModelTrimmed` carries its properties |
| `Text.Strip` | api/index.py:208 | the definition of `str.strip()` on ASCII, with no contract; `Text.StripTrimmed`, `Text.StripSplit`, `Text.StripOfPadded`, `Text.StripIdempotent` and `Text.StripIgnoresPadding` carry its properties |
| `Text.Lower` | api/index.py:208-209 | the definition of `str.lower()` on ASCII, with no contract; `Text.LowerIdempotent` and `Text.StripLowerCommute` carry its properties |
| `GameData.CatalogWellFormed` | api/index.py:34-63 | every catalog word has five hint prompts and none of them repeats |
| `GameData.PromptForQuestion` | api/index.py:93-99 | questions up to 4 get the easy prompt, 5 to 8 the medium prompt and 9 on the hard prompt, each case both ways |
| `GameData.PromptNeverEases` | api/index.py:93-99 | the prompt tier never gets easier as the question number grows |
| `GameData.LabelNamesTier` | api/index.py:191-195 | the label `next_hint` computes separately always names the tier `prompt_for_question` picks for the same question |
| `Chat.CallModelTrimmed` | api/index.py:112-125 | whatever the model answers, the reply never starts or ends with whitespace; without a client it is the fixed error sentinel |
| `Text.TrimStartSplit` | api/index.py:208 | the left strip keeps a suffix of the string, removes only whitespace and leaves no whitespace in front |
| `Text.TrimEndSplit` | api/index.py:208 | the right strip keeps a prefix of the string, removes only whitespace and leaves no whitespace at the back |
| `Text.StripTrimmed` | api/index.py:208 | stripping never lengthens a string and leaves no whitespace at either end |
| `Text.StripSplit` | api/index.py:208 | what stripping removes is a whitespace prefix and a whitespace suffix around the result |
| `Text.StripOfPadded` | api/index.py:208 | a string with no whitespace at its ends, padded with any whitespace, strips back to itself |
| `Text.StripIdempotent` | api/index.py:208 | stripping twice gives the same result as stripping once |
| `Text.StripIgnoresPadding` | api/index.py:208 | extra whitespace around a string does not change its stripped form |
| `Text.LowerIdempotent` | api/index.py:208-209 | lower-casing twice gives the same result as lower-casing once |
| `Text.StripLowerCommute` | api/index.py:208-209 | stripping and lower-casing commute, so the guess may be normalised in either order |
| `Text.NormalizeIgnoresCase` | api/index.py:208-209 | normalising an already lower-cased guess gives the same form as normalising the guess itself |
| `Round.StartSamplesHints` | api/index.py:139-144 | after `start_game` the word is a catalog key, and the hints are 2 or 3 distinct prompts of that word, as many as the random count |
| `Round.StartResetsRound` | api/index.py:143-163 | after `start_game`: hint index 0, question 1, not finished; the log is exactly the easy system prompt, the word and the first clue; the model saw the first two messages; the reply is question 1, "easy"; the round invariant holds |
| `Round.StartHintOrderIsTheDraws` | api/index.py:141 | the sampled hints follow the order of the draw, so two catalog hints can come back reversed |
| `Round.NextHintWhenFinished` | api/index.py:167-168 | on a finished round `next_hint` answers "Game over" and changes no field |
| `Round.NextHintEndsRound` | api/index.py:170-174 | when the incremented counter passes 10, the round is finished, no model call is made, and nothing but the counter and the flag changes |
| `Round.NextHintBeforeStart` | api/index.py:170-177 | before any start, `next_hint` moves the counter to 1 and then fails on the empty message list |
| `Round.NextHintAsksNextClue` | api/index.py:176-201 | in a started round below question 10: the counter grows by 1; `messages[0]` becomes the new question's system prompt; the log grows by exactly a user request and an assistant reply, with every other entry kept; the request uses hint number question-1 of the list while one is left and the generic request after that; the model sees exactly the new log; the reported label names the new prompt's tier |
| `Round.AfterClueKeepsValid` | api/index.py:176-189 | a clue request below question 10 keeps the round invariant whatever the model answers: the new system prompt, the request for the next hint in list order and the reply extend the log, and the hint index follows the question |
| `Round.NextHintKeepsValid` | api/index.py:165-201 | `next_hint` keeps the round invariant, in which the hint index equals min(question-1, number of hints), the question index is at most 11, and each request in the log asks for the hints in list order |
| `Round.NextHintNeverFailsOnValid` | api/index.py:177 | in a started round the write to `messages[0]` never fails |
| `Round.NextHintReports` | api/index.py:170-201 | one `next_hint` on an unfinished round with a log reports the next question with its label, or "No more hints" once it passes 10 |
| `Round.AdvanceCounts` | api/index.py:170-174 | consecutive `next_hint` calls on an unfinished round move the counter by one each, and exactly the call that passes 10 finishes the round |
| `Round.AdvanceReportsQuestions` | api/index.py:165-201 | consecutive `next_hint` calls report consecutive questions with their labels, and the call that passes 10 reports "No more hints" |
| `Round.RoundReplies` | api/index.py:191-201 | ten replies that report questions 2 to 11 in turn are clues for questions 2 to 10, labelled easy for 2 to 4, medium for 5 to 8 and hard for 9 and 10, followed by "No more hints" |
| `Round.FullRound` | api/index.py:137-201 | after a start, nine `next_hint` calls report questions 2 to 10, each with the label of its tier (easy for 2 to 4, medium for 5 to 8, hard for 9 and 10); the tenth ends the round at question 11, and the next answers "Game over" |
| `Round.GuessBeforeStart` | api/index.py:205-206 | with no word set, `guess` reports "not started" and changes nothing |
| `Round.GuessVerdict` | api/index.py:208-221 | a guess is correct exactly when strip(lower(guess)) equals lower(word); a correct guess sets `finished` and changes nothing else, and a wrong one changes nothing |
| `Round.GuessRepeatable` | api/index.py:203-221 | `guess` ignores `finished`, so repeating a guess gives the same reply and the same state |
| `Round.GuessSeesNormalForm` | api/index.py:208-211 | two guesses with the same stripped, lower-cased form get the same reply and leave the same state |
| `Round.GuessIgnoresPadding` | api/index.py:208 | whitespace around a guess never changes the verdict |
| `Round.GuessIgnoresCase` | api/index.py:208-209 | lower-casing a guess never changes the verdict |
| `Round.GuessMothExample` | api/index.py:208-211 | with the word "Moth", "  MOTH " matches and "Mothy" does not |
| `Round.GuessKeepsValid` | api/index.py:203-221 | `guess` keeps the round invariant |
| `Round.ApplyKeepsSound` | api/index.py:137-221 | for calls whose model request returns, every handler keeps `GAME` either valid or in its not-yet-started shape, and a started round stays valid |
| `Round.RunKeepsSound` | api/index.py:137-221 | for calls whose model request returns, any sequence of handler calls keeps `GAME` valid or not yet started |
| `Round.EveryRunBounded` | api/index.py:103-221 | from the initial `GAME`, after any sequence of calls whose model requests return, the question index is at most 11, the hint index never passes the hint list, and once a word is set the round invariant holds |
| `Server.GameServer.constructor` | api/index.py:103-110 | the fields start as `GAME` is declared: no word, no hints, both indices 0, no messages, not finished |
| `Server.GameServer.StartGame` | api/index.py:137-163 | the fields and the reply after `start_game` are those of `Round.Start`; the round invariant holds |
| `Server.GameServer.NextHint` | api/index.py:165-201 | the fields and the reply after `next_hint` are those of `Round.NextHint`; a finished round is left unchanged, otherwise the counter grows by 1; the round invariant is kept |
| `Server.GameServer.Guess` | api/index.py:203-221 | the fields and the reply after `guess` are those of `Round.Guess`; only `finished` can change; the round invariant is kept |
| `Server.GameServer.GetState` | api/index.py:223-228 | returns the question index and the finished flag and modifies nothing |

## Left out

- The FastAPI app, CORS middleware, the static UI route, `uvicorn` start-up and async plumbing (api/index.py:21-30, 129-132, 230-232). These are HTTP and I/O.
- Environment and dotenv loading and the Groq client construction (api/index.py:10-19). These are configuration and a foreign library. Whether a client exists is the `Client` argument.
- The request to the language model (api/index.py:118-124). It is a network call, so a configured client is an arbitrary function of the messages. The model, temperature, top-p and token limit are not represented.
- A model request that fails. `client.chat.completions.create` can raise, and a `None` reply content makes `.strip()` raise (api/index.py:118-125). The handler then stops with `GAME` partly updated. `start_game` leaves a two-message log at question 1 (api/index.py:143-156). `next_hint` leaves the counter moved, the hint used, `messages[0]` replaced and the request appended with no reply (api/index.py:170-188). In the model every request returns. So the log-shape part of `Round.Valid`, and with it `Round.ApplyKeepsSound`, `Round.RunKeepsSound`, `Round.EveryRunBounded` and the invariant clauses of the `Server.GameServer` methods, holds only for runs in which every request returns. The counter relation, `question_index <= 11` and `hint_index <= len(hints)` would still hold in the source after such a failure, but the model does not prove it.
- Randomness (api/index.py:139-141). The outcomes are parameters constrained to what the calls can return. No distribution is modelled.
- The wording of the three system prompts and of the catalog's hint prompts (api/index.py:34-91). They are represented by their tier and by their catalog position.
- The reply texts and HTTP details. Replies are constructors. The "Game over" body is returned with status 200 despite its `status_code` field, and the `IndexError` of `next_hint` before a start becomes a server error. Neither status code is modelled.
- Unicode behaviour of `str.lower()` and `str.strip()`. Only ASCII letters are lower-cased, and only the ASCII characters that `str.isspace()` accepts count as whitespace. Non-ASCII whitespace such as U+00A0 is not stripped.
- Concurrent requests against the shared `GAME`. Each handler is treated as atomic.
