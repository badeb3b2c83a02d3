/** The round state machine of the game server: the `GAME` dictionary as a
    value, the three handlers that change it (`start_game`, `next_hint`,
    `guess`) as functions from the old value to the new value and the reply,
    and the properties those handlers keep. */
module Round {
  import opened Text
  import opened GameData
  import opened Chat

  datatype Option<T> = None | Some(value: T)

  /** The `GAME` dictionary. */
  datatype Game = Game(
    word: Option<string>,
    hints: seq<HintPrompt>,
    hintIndex: nat,
    questionIndex: nat,
    messages: seq<Message>,
    finished: bool)

  /** `GAME` as the process starts: no word, nothing asked yet. */
  const Initial: Game := Game(None, [], 0, 0, [], false)

  /** The JSON bodies the handlers return. */
  datatype StartReply = StartReply(question: nat, difficulty: string, text: string)

  datatype NextReply =
    | GameOver                                               // {"error": "Game over", "status_code": 400}
    | NoMoreHints                                            // {"message": "No more hints", "finished": True}
    | Clue(question: nat, difficulty: string, text: string)
    | MessagesIndexError                                     // `messages[0] = ...` on an empty list raises

  datatype GuessReply =
    | NotStarted                                             // "Game not started yet."
    | Correct(word: string)                                  // "Correct! The word was {word}!"
    | Wrong                                                  // "Wrong guess. Try again or ask for another hint!"

  function Min(a: int, b: int): int {
    if a <= b then a else b
  }

  // ------------------ start_game ------------------

  /** The outcomes of the random calls in `start_game`: the index `choice`
      that `random.choice` takes in the word list, the `count` that
      `random.randint(2, 3)` returns, and the catalog positions `picks` that
      `random.sample` selects, in the order it returns them. */
  datatype Draw = Draw(choice: nat, count: int, picks: seq<nat>)

  /** `picks` is what `random.sample` can return for a population of `n`
      elements and a sample size `k`: `k` distinct positions, in any order. */
  predicate IsSample(picks: seq<nat>, n: nat, k: int) {
    && |picks| == k
    && (forall i :: 0 <= i < |picks| ==> picks[i] < n)
    && (forall i, j :: 0 <= i < j < |picks| ==> picks[i] != picks[j])
  }

  /** The draws the random calls can produce. */
  predicate Possible(d: Draw) {
    && d.choice < |Words|
    && 2 <= d.count <= 3
    && Words[d.choice] in Catalog
    && IsSample(d.picks, |Catalog[Words[d.choice]]|, Min(|Catalog[Words[d.choice]]|, d.count))
  }

  /** The elements of `pool` at the positions `picks`, in that order. */
  function Sample(pool: seq<HintPrompt>, picks: seq<nat>): (s: seq<HintPrompt>)
    requires forall i :: 0 <= i < |picks| ==> picks[i] < |pool|
    ensures |s| == |picks|
    ensures forall i :: 0 <= i < |s| ==> s[i] == pool[picks[i]]
  {
    seq(|picks|, i requires 0 <= i < |picks| => pool[picks[i]])
  }

  /** The system message for question `q`. */
  function SystemMessage(q: int): Message {
    Message(System, SystemPrompt(PromptForQuestion(q)))
  }

  /** `start_game()`: choose a word, sample its hints, reset the counters and
      open the conversation with the first clue. */
  function Start(client: Client, d: Draw): (Game, StartReply)
    requires Possible(d)
  {
    var word := Words[d.choice];
    var hints := Sample(Catalog[word], d.picks);
    var opening := [SystemMessage(1), Message(User, WordIntro(word))];
    var clue := CallModel(client, opening);
    (Game(Some(word), hints, 0, 1, opening + [Message(Assistant, Reply(clue))], false),
     StartReply(1, "easy", clue))
  }

  // ------------------ next_hint ------------------

  /** What the user message of a clue request asks for when `j` hints have
      been used before it: the next sampled hint, or a generic clue once the
      sample is used up. */
  function Request(hints: seq<HintPrompt>, j: nat): Content {
    if j < |hints| then AnswerHint(hints[j]) else AnotherClue
  }

  /** The log `next_hint` sends to the model: `messages[0]` switched to the
      system prompt of question `q` and the clue request appended. */
  function ClueRequest(g: Game, q: int): seq<Message>
    requires g.messages != []
  {
    g.messages[0 := SystemMessage(q)] + [Message(User, Request(g.hints, g.hintIndex))]
  }

  /** `GAME` after a clue request for question `q` that the model answered
      with `reply`. */
  function AfterClue(g: Game, q: nat, reply: string): Game
    requires g.messages != []
  {
    g.(questionIndex := q,
       hintIndex := if g.hintIndex < |g.hints| then g.hintIndex + 1 else g.hintIndex,
       messages := ClueRequest(g, q) + [Message(Assistant, Reply(reply))])
  }

  /** `next_hint()`. */
  function NextHint(g: Game, client: Client): (Game, NextReply) {
    if g.finished then (g, GameOver)
    else
      var q := g.questionIndex + 1;
      if q > 10 then (g.(questionIndex := q, finished := true), NoMoreHints)
      else if g.messages == [] then (g.(questionIndex := q), MessagesIndexError)
      else
        var reply := CallModel(client, ClueRequest(g, q));
        (AfterClue(g, q, reply), Clue(q, DifficultyLabel(q), reply))
  }

  // ------------------ guess ------------------

  /** The comparison `guess`'s handler makes: the stripped, lower-cased
      guess against the lower-cased word. */
  predicate GuessMatches(guess: string, word: string) {
    Lower(Strip(guess)) == Lower(word)
  }

  /** `guess(request)`: a guess that matches the word finishes the round. */
  function Guess(g: Game, guess: string): (Game, GuessReply) {
    match g.word
    case None => (g, NotStarted)
    case Some(w) =>
      if GuessMatches(guess, w) then (g.(finished := true), Correct(w))
      else (g, Wrong)
  }

  // ------------------ the round invariant ------------------

  /** The `j`-th clue request of the log (the opening pair comes first). */
  function RequestAt(m: seq<Message>, j: nat): Message
    requires 2 * j + 3 < |m|
  {
    m[2 * j + 3]
  }

  /** The `j`-th model reply of the log; reply 0 is the opening clue. */
  function ReplyAt(m: seq<Message>, j: nat): Message
    requires 2 * j + 2 < |m|
  {
    m[2 * j + 2]
  }

  predicate IsReply(m: Message) {
    m.role == Assistant && m.content.Reply?
  }

  /** `hints` is a sample of the catalog entry of `word`: 2 or 3 distinct
      hint prompts of that word. */
  predicate SampledFrom(word: string, hints: seq<HintPrompt>) {
    && word in Catalog
    && 2 <= |hints| <= 3
    && (forall i :: 0 <= i < |hints| ==> hints[i] in Catalog[word])
    && (forall i, j :: 0 <= i < j < |hints| ==> hints[i] != hints[j])
  }

  /** The counters of a started round: question `q` is between 1 and 11, 11
      only once the round is over, and one hint was used per question after
      the first until the sample ran out. */
  predicate CountersAgree(q: int, hintIndex: int, hintCount: int, finished: bool) {
    && 1 <= q <= 11
    && (q == 11 ==> finished)
    && hintIndex == Min(q - 1, hintCount)
  }

  /** The log of a started round at question `q`: the system prompt of
      question `q`, the word, then one reply per question and, before each
      reply after the first, the request for the next hint in list order. */
  predicate LogMatches(m: seq<Message>, q: int, word: string, hints: seq<HintPrompt>) {
    && 1 <= q
    && |m| == 2 * Min(q, 10) + 1
    && m[0] == SystemMessage(q)
    && m[1] == Message(User, WordIntro(word))
    && (forall j: nat :: j < Min(q, 10) ==> IsReply(ReplyAt(m, j)))
    && (forall j: nat :: j < Min(q, 10) - 1 ==> RequestAt(m, j) == Message(User, Request(hints, j)))
  }

  /** What holds of `GAME` from the first `start_game` on, whatever
      `next_hint` and `guess` calls follow. */
  predicate Valid(g: Game) {
    && g.word.Some?
    && SampledFrom(g.word.value, g.hints)
    && CountersAgree(g.questionIndex, g.hintIndex, |g.hints|, g.finished)
    && LogMatches(g.messages, g.questionIndex, g.word.value, g.hints)
  }

  /** A clue request turns the log of question `q` into the log of question
      `q + 1`. */
  lemma LogAfterClue(m: seq<Message>, q: int, word: string, hints: seq<HintPrompt>, reply: string)
    requires LogMatches(m, q, word, hints) && q + 1 <= 10
    ensures LogMatches(m[0 := SystemMessage(q + 1)] + [Message(User, Request(hints, q - 1)), Message(Assistant, Reply(reply))],
                       q + 1, word, hints)
  {
    var m' := m[0 := SystemMessage(q + 1)] + [Message(User, Request(hints, q - 1)), Message(Assistant, Reply(reply))];
    var n := |m|;
    forall j: nat | j < q + 1 ensures IsReply(ReplyAt(m', j)) {
      if j < q {
        assert ReplyAt(m', j) == ReplyAt(m, j);
      } else {
        assert ReplyAt(m', j) == m'[n + 1];
      }
    }
    forall j: nat | j < q ensures RequestAt(m', j) == Message(User, Request(hints, j)) {
      if j < q - 1 {
        assert RequestAt(m', j) == RequestAt(m, j);
      } else {
        assert RequestAt(m', j) == m'[n];
      }
    }
  }

  // ------------------ properties of start_game ------------------

  /** `start_game` picks a catalog word and 2 or 3 distinct hint prompts of
      that word, and leaves `GAME` in a valid state. */
  lemma StartSamplesHints(client: Client, d: Draw)
    requires Possible(d)
    ensures var g := Start(client, d).0;
      && g.word == Some(Words[d.choice]) && g.word.value in Catalog
      && 2 <= |g.hints| <= 3 && |g.hints| == d.count
      && (forall i :: 0 <= i < |g.hints| ==> g.hints[i] in Catalog[g.word.value])
      && (forall i, j :: 0 <= i < j < |g.hints| ==> g.hints[i] != g.hints[j])
  {
    var w := Words[d.choice];
    CatalogWellFormed(w);
    var g := Start(client, d).0;
    forall i, j | 0 <= i < j < |g.hints| ensures g.hints[i] != g.hints[j] {
      assert g.hints[i] == Catalog[w][d.picks[i]];
      assert g.hints[j] == Catalog[w][d.picks[j]];
      assert d.picks[i] != d.picks[j];
    }
  }

  /** After `start_game` the counters are reset, the log is exactly the easy
      system prompt, the word and the first clue, and the reply reports
      question 1 as "easy". */
  lemma StartResetsRound(client: Client, d: Draw)
    requires Possible(d)
    ensures var (g, r) := Start(client, d);
      && Valid(g)
      && g.hintIndex == 0 && g.questionIndex == 1 && !g.finished
      && g.messages == [Message(System, SystemPrompt(Easy)),
                        Message(User, WordIntro(Words[d.choice])),
                        Message(Assistant, Reply(r.text))]
      && r.text == CallModel(client, g.messages[..2])
      && r.question == 1 && r.difficulty == DifficultyLabel(1) == "easy"
  {
    StartSamplesHints(client, d);
    var (g, r) := Start(client, d);
    assert g.messages[..2] == [SystemMessage(1), Message(User, WordIntro(Words[d.choice]))];
    assert ReplyAt(g.messages, 0) == g.messages[2];
  }

  /** `random.sample` does not keep catalog order: the first two hints of a
      word can come back reversed. */
  lemma StartHintOrderIsTheDraws(client: Client)
    ensures Possible(Draw(0, 2, [1, 0]))
    ensures Start(client, Draw(0, 2, [1, 0])).0.hints == [Catalog["Moth"][1], Catalog["Moth"][0]]
  {
    assert Words[0] == "Moth";
    assert "Moth" in Catalog;
    CatalogWellFormed("Moth");
  }

  // ------------------ properties of next_hint ------------------

  /** On a finished round `next_hint` reports "Game over" and changes nothing. */
  lemma NextHintWhenFinished(g: Game, client: Client)
    requires g.finished
    ensures NextHint(g, client) == (g, GameOver)
  {
  }

  /** Past question 10 `next_hint` ends the round without calling the model:
      only the counter and the flag change. */
  lemma NextHintEndsRound(g: Game, client: Client)
    requires !g.finished && g.questionIndex + 1 > 10
    ensures var (g', r) := NextHint(g, client);
      && r == NoMoreHints
      && g' == g.(questionIndex := g.questionIndex + 1, finished := true)
  {
  }

  /** Before any `start_game` the log is empty, so `next_hint` raises on
      `messages[0]` after it has already moved the question counter. */
  lemma NextHintBeforeStart(client: Client)
    ensures NextHint(Initial, client) == (Initial.(questionIndex := 1), MessagesIndexError)
  {
  }

  /** A clue request in a started round: the counter moves by one, the system
      prompt becomes that of the new question, the log grows by exactly the
      request and the reply with every other entry kept, the request asks for
      the hints in list order, the model sees exactly the new log, and the
      reported label names the new prompt's tier. */
  lemma NextHintAsksNextClue(g: Game, client: Client)
    requires Valid(g) && !g.finished && g.questionIndex + 1 <= 10
    ensures var (g', r) := NextHint(g, client);
      var n := |g.messages|;
      && g'.questionIndex == g.questionIndex + 1
      && g'.word == g.word && g'.hints == g.hints && !g'.finished
      && |g'.messages| == n + 2
      && g'.messages[0] == SystemMessage(g'.questionIndex)
      && (forall i :: 1 <= i < n ==> g'.messages[i] == g.messages[i])
      && g'.messages[n] == Message(User, Request(g.hints, g.questionIndex - 1))
      && g'.messages[n + 1] == Message(Assistant, Reply(r.text))
      && g'.hintIndex == Min(g.questionIndex, |g.hints|)
      && r == Clue(g'.questionIndex, r.difficulty, CallModel(client, g'.messages[..n + 1]))
      && r.difficulty == g'.messages[0].content.tier.Label()
  {
    var (g', r) := NextHint(g, client);
    var n := |g.messages|;
    LabelNamesTier(g'.questionIndex);
    assert g'.messages[..n + 1] == g.messages[0 := SystemMessage(g'.questionIndex)]
      + [Message(User, Request(g.hints, g.hintIndex))];
  }

  /** A clue request below question 10 keeps the round invariant, whatever
      the model answers. */
  lemma AfterClueKeepsValid(g: Game, reply: string)
    requires Valid(g) && !g.finished && g.questionIndex + 1 <= 10
    ensures Valid(AfterClue(g, g.questionIndex + 1, reply))
  {
    var q := g.questionIndex;
    var g' := AfterClue(g, q + 1, reply);
    assert Request(g.hints, g.hintIndex) == Request(g.hints, q - 1);
    assert g'.messages == g.messages[0 := SystemMessage(q + 1)]
      + [Message(User, Request(g.hints, q - 1)), Message(Assistant, Reply(reply))];
    LogAfterClue(g.messages, q, g.word.value, g.hints, reply);
    assert CountersAgree(q + 1, g'.hintIndex, |g.hints|, false);
  }

  /** `next_hint` keeps the round invariant. */
  lemma NextHintKeepsValid(g: Game, client: Client)
    requires Valid(g)
    ensures Valid(NextHint(g, client).0)
  {
    var q := g.questionIndex;
    if !g.finished && q + 1 <= 10 {
      AfterClueKeepsValid(g, CallModel(client, ClueRequest(g, q + 1)));
    } else if !g.finished {
      assert PromptForQuestion(q) == PromptForQuestion(q + 1) == Hard;
    }
  }

  /** In a started round `next_hint` never hits the empty-log error. */
  lemma NextHintNeverFailsOnValid(g: Game, client: Client)
    requires Valid(g)
    ensures NextHint(g, client).1 != MessagesIndexError
  {
  }

  // ------------------ properties of guess ------------------

  /** Before any `start_game`, `guess` reports "not started" and changes nothing. */
  lemma GuessBeforeStart(g: Game, guess: string)
    requires g.word.None?
    ensures Guess(g, guess) == (g, NotStarted)
  {
  }

  /** A guess is correct exactly when it equals the word up to surrounding
      whitespace and ASCII case; a correct guess sets `finished` and changes
      nothing else, a wrong one changes nothing. */
  lemma GuessVerdict(g: Game, guess: string)
    requires g.word.Some?
    ensures var (g', r) := Guess(g, guess);
      && (r.Correct? <==> Strip(Lower(guess)) == Lower(g.word.value))
      && (r.Correct? || r == Wrong)
      && (r.Correct? ==> r.word == g.word.value && g' == g.(finished := true))
      && (!r.Correct? ==> g' == g)
  {
    StripLowerCommute(guess);
  }

  /** `guess` does not look at `finished`: asking again gives the same answer
      and the same state. */
  lemma GuessRepeatable(g: Game, guess: string)
    ensures Guess(Guess(g, guess).0, guess) == Guess(g, guess)
  {
  }

  /** `guess` looks at the guess only through its stripped, lower-cased form:
      two guesses with the same form get the same reply and the same state. */
  lemma GuessSeesNormalForm(g: Game, a: string, b: string)
    requires Lower(Strip(a)) == Lower(Strip(b))
    ensures Guess(g, a) == Guess(g, b)
  {
  }

  /** Whitespace around the guess never changes the verdict. */
  lemma GuessIgnoresPadding(g: Game, p: string, guess: string, q: string)
    requires AllSpace(p) && AllSpace(q)
    ensures Guess(g, p + guess + q) == Guess(g, guess)
  {
    StripIgnoresPadding(p, guess, q);
    GuessSeesNormalForm(g, p + guess + q, guess);
  }

  /** The case of the guess's letters never changes the verdict. */
  lemma GuessIgnoresCase(g: Game, guess: string)
    ensures Guess(g, Lower(guess)) == Guess(g, guess)
  {
    NormalizeIgnoresCase(guess);
    GuessSeesNormalForm(g, Lower(guess), guess);
  }

  /** With the word "Moth", "  MOTH " is a correct guess and "Mothy" is not. */
  lemma GuessMothExample()
    ensures GuessMatches("  MOTH ", "Moth")
    ensures !GuessMatches("Mothy", "Moth")
  {
    StripPaddedMoth();
    LowerMoth();
    StripMothy();
  }

  lemma StripPaddedMoth()
    ensures Strip("  MOTH ") == "MOTH"
  {
    StripOfPadded("  ", "MOTH", " ");
    assert "  " + "MOTH" + " " == "  MOTH ";
  }

  lemma LowerMoth()
    ensures Lower("MOTH") == "moth" == Lower("Moth")
  {
    assert LowerChar('M') == 'm';
  }

  lemma StripMothy()
    ensures |Strip("Mothy")| == 5
  {
    StripOfPadded([], "Mothy", []);
    assert [] + "Mothy" + [] == "Mothy";
  }

  /** `guess` keeps the round invariant. */
  lemma GuessKeepsValid(g: Game, guess: string)
    requires Valid(g)
    ensures Valid(Guess(g, guess).0)
  {
    var g' := Guess(g, guess).0;
    if g' != g {
      assert g' == g.(finished := true);
      assert CountersAgree(g'.questionIndex, g'.hintIndex, |g'.hints|, g'.finished);
    }
  }

  // ------------------ whole runs ------------------

  /** One handler call, with the random outcomes and the model as arguments. */
  datatype Op = StartOp(client: Client, draw: Draw) | NextOp(client: Client) | GuessOp(guess: string)

  predicate Allowed(ops: seq<Op>) {
    forall i :: 0 <= i < |ops| ==> (ops[i].StartOp? ==> Possible(ops[i].draw))
  }

  function Apply(g: Game, op: Op): Game
    requires op.StartOp? ==> Possible(op.draw)
  {
    match op
    case StartOp(client, d) => Start(client, d).0
    case NextOp(client) => NextHint(g, client).0
    case GuessOp(s) => Guess(g, s).0
  }

  /** The state after the calls `ops`, one after another. */
  function Run(g: Game, ops: seq<Op>): Game
    requires Allowed(ops)
    decreases |ops|
  {
    if ops == [] then g else Run(Apply(g, ops[0]), ops[1..])
  }

  /** `GAME` before the first `start_game`: only the counter and the flag can
      have moved, through `next_hint`. */
  predicate Unstarted(g: Game) {
    && g.word.None? && g.hints == [] && g.hintIndex == 0 && g.messages == []
    && g.questionIndex <= 11
    && (g.questionIndex == 11 ==> g.finished)
  }

  lemma ApplyKeepsSound(g: Game, op: Op)
    requires Valid(g) || Unstarted(g)
    requires op.StartOp? ==> Possible(op.draw)
    ensures Valid(Apply(g, op)) || Unstarted(Apply(g, op))
    ensures g.word.Some? ==> Valid(Apply(g, op))
  {
    match op
    case StartOp(client, d) => StartResetsRound(client, d);
    case NextOp(client) => if Valid(g) { NextHintKeepsValid(g, client); }
    case GuessOp(s) => if Valid(g) { GuessKeepsValid(g, s); }
  }

  lemma {:induction false} RunKeepsSound(g: Game, ops: seq<Op>)
    requires Valid(g) || Unstarted(g)
    requires Allowed(ops)
    ensures Valid(Run(g, ops)) || Unstarted(Run(g, ops))
    decreases |ops|
  {
    if ops != [] {
      ApplyKeepsSound(g, ops[0]);
      assert Allowed(ops[1..]) by {
        forall i | 0 <= i < |ops[1..]| ensures ops[1..][i].StartOp? ==> Possible(ops[1..][i].draw) {
          assert ops[1..][i] == ops[i + 1];
        }
      }
      RunKeepsSound(Apply(g, ops[0]), ops[1..]);
    }
  }

  /** Whatever calls arrive, in whatever order, from the initial `GAME` on:
      the question counter never passes 11, the hint cursor never passes the
      sample, and once a word is set the round invariant holds. */
  lemma EveryRunBounded(ops: seq<Op>)
    requires Allowed(ops)
    ensures var g := Run(Initial, ops);
      && g.questionIndex <= 11
      && g.hintIndex <= |g.hints|
      && (g.word.Some? ==> Valid(g))
  {
    RunKeepsSound(Initial, ops);
  }

  /** `k` calls of `next_hint` in a row and their replies. */
  function Advance(g: Game, client: Client, k: nat): (Game, seq<NextReply>)
    decreases k
  {
    if k == 0 then (g, [])
    else
      var step := NextHint(g, client);
      var rest := Advance(step.0, client, k - 1);
      (rest.0, [step.1] + rest.1)
  }

  /** What `next_hint` reports when it moves the counter to `q`. */
  predicate ReportsQuestion(r: NextReply, q: int) {
    if q <= 10 then r.Clue? && r.question == q && r.difficulty == DifficultyLabel(q)
    else r == NoMoreHints
  }

  /** One `next_hint` call in an unfinished round whose log is open reports
      the question it moves to. */
  lemma NextHintReports(g: Game, client: Client)
    requires g.messages != [] && !g.finished
    ensures NextHint(g, client).0.messages != []
    ensures NextHint(g, client).0.questionIndex == g.questionIndex + 1
    ensures NextHint(g, client).0.finished == (g.questionIndex + 1 > 10)
    ensures ReportsQuestion(NextHint(g, client).1, g.questionIndex + 1)
  {
  }

  /** Reply `i` of `rs` reports question `q + i + 1`. */
  predicate ReportsFrom(rs: seq<NextReply>, q: int) {
    forall i :: 0 <= i < |rs| ==> ReportsQuestion(rs[i], q + i + 1)
  }

  lemma ReportsFromCons(r: NextReply, rest: seq<NextReply>, q: int)
    requires ReportsQuestion(r, q + 1) && ReportsFrom(rest, q + 1)
    ensures ReportsFrom([r] + rest, q)
  {
    var rs := [r] + rest;
    forall i | 0 <= i < |rs| ensures ReportsQuestion(rs[i], q + i + 1) {
      if i > 0 {
        assert rs[i] == rest[i - 1];
      }
    }
  }

  /** `k` calls are one call followed by `k - 1` more. */
  lemma AdvanceFirst(g: Game, client: Client, k: nat)
    requires k > 0
    ensures var step := NextHint(g, client);
      var rest := Advance(step.0, client, k - 1);
      Advance(g, client, k) == (rest.0, [step.1] + rest.1)
  {
  }

  /** Repeated `next_hint` calls in an unfinished round move the counter one
      question per call, and the one that passes 10 ends the round. */
  lemma {:induction false} AdvanceCounts(g: Game, client: Client, k: nat)
    requires g.messages != [] && !g.finished && g.questionIndex <= 10 && g.questionIndex + k <= 11
    ensures Advance(g, client, k).0.messages != []
    ensures Advance(g, client, k).0.questionIndex == g.questionIndex + k
    ensures Advance(g, client, k).0.finished == (g.questionIndex + k == 11)
    decreases k
  {
    if k > 0 {
      NextHintReports(g, client);
      AdvanceFirst(g, client, k);
      if k > 1 {
        AdvanceCounts(NextHint(g, client).0, client, k - 1);
      }
    }
  }

  /** Repeated `next_hint` calls in an unfinished round report questions
      one by one with their labels, and the one that passes 10 reports
      "No more hints". */
  lemma {:induction false} AdvanceReportsQuestions(g: Game, client: Client, k: nat)
    requires g.messages != [] && !g.finished && g.questionIndex <= 10 && g.questionIndex + k <= 11
    ensures |Advance(g, client, k).1| == k
    ensures ReportsFrom(Advance(g, client, k).1, g.questionIndex)
    decreases k
  {
    if k > 0 {
      NextHintReports(g, client);
      AdvanceFirst(g, client, k);
      var step := NextHint(g, client);
      var rest := Advance(step.0, client, k - 1).1;
      if k > 1 {
        AdvanceReportsQuestions(step.0, client, k - 1);
        assert ReportsFrom(rest, g.questionIndex + 1);
      } else {
        assert rest == [];
      }
      ReportsFromCons(step.1, rest, g.questionIndex);
    }
  }

  /** The ten replies of a round started at question 1, reply by reply. */
  lemma RoundReplies(rs: seq<NextReply>)
    requires |rs| == 10 && ReportsFrom(rs, 1)
    ensures forall i :: 0 <= i < 9 ==> rs[i].Clue? && rs[i].question == i + 2
    ensures forall i :: 0 <= i < 3 ==> rs[i].difficulty == "easy"
    ensures forall i :: 3 <= i < 7 ==> rs[i].difficulty == "medium"
    ensures forall i :: 7 <= i < 9 ==> rs[i].difficulty == "hard"
    ensures rs[9] == NoMoreHints
  {
    forall i | 0 <= i < 9 ensures rs[i].Clue? && rs[i].question == i + 2
      && rs[i].difficulty == DifficultyLabel(i + 2)
    {
      assert ReportsQuestion(rs[i], i + 2);
    }
    assert ReportsQuestion(rs[9], 11);
  }

  /** A whole round left to run out: the start reports question 1, nine
      `next_hint` calls report questions 2 to 10, labelled easy for 2 to 4,
      medium for 5 to 8 and hard for 9 and 10, the tenth ends the round, and any further call
      answers "Game over". */
  lemma FullRound(client: Client, d: Draw)
    requires Possible(d)
    ensures var (g, r0) := Start(client, d);
      var (g', rs) := Advance(g, client, 10);
      && r0.question == 1 && r0.difficulty == "easy"
      && |rs| == 10
      && ReportsFrom(rs, 1)
      && (forall i :: 0 <= i < 9 ==> rs[i].Clue? && rs[i].question == i + 2)
      && (forall i :: 0 <= i < 3 ==> rs[i].difficulty == "easy")
      && (forall i :: 3 <= i < 7 ==> rs[i].difficulty == "medium")
      && (forall i :: 7 <= i < 9 ==> rs[i].difficulty == "hard")
      && rs[9] == NoMoreHints
      && g'.finished && g'.questionIndex == 11
      && NextHint(g', client) == (g', GameOver)
  {
    StartResetsRound(client, d);
    var (g, r0) := Start(client, d);
    AdvanceCounts(g, client, 10);
    AdvanceReportsQuestions(g, client, 10);
    var (g', rs) := Advance(g, client, 10);
    RoundReplies(rs);
  }
}
