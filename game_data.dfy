/** The static game data: the word catalog and the three difficulty tiers of
    the system prompt. The wording of the hint prompts and of the three system
    prompts is left abstract; only their identity matters to the game. */
module GameData {

  /** The keys of the catalog, in the order `list(WORDS.keys())` yields them. */
  const Words: seq<string> := ["Moth", "Penguin", "Parabola", "Afghanistan"]

  /** Number of hint prompts each catalog word carries. */
  const HintsPerWord: nat := 5

  /** Stands for the text of the hint prompt at `position` in the catalog
      list of `word`. */
  datatype HintPrompt = HintPrompt(word: string, position: nat)

  /** The hint prompts of one catalog word, in catalog order. */
  function HintsOf(word: string): (hs: seq<HintPrompt>)
    ensures |hs| == HintsPerWord
    ensures forall i :: 0 <= i < |hs| ==> hs[i].word == word && hs[i].position == i
  {
    seq(HintsPerWord, (i: nat) => HintPrompt(word, i))
  }

  /** The `WORDS` table: every catalog word with its hint prompts. */
  const Catalog: map<string, seq<HintPrompt>> := map w | w in Words :: HintsOf(w)

  /** No hint prompt appears twice in a word's list, and every word has five. */
  lemma CatalogWellFormed(w: string)
    requires w in Catalog
    ensures w in Words
    ensures |Catalog[w]| == HintsPerWord
    ensures forall i, j :: 0 <= i < j < |Catalog[w]| ==> Catalog[w][i] != Catalog[w][j]
  {
  }

  /** The three system prompts (easy, medium, hard). */
  datatype Tier = Easy | Medium | Hard {
    /** Position of the tier on the difficulty scale. */
    function Rank(): nat {
      match this
      case Easy => 0
      case Medium => 1
      case Hard => 2
    }

    /** The name the client sees for this tier. */
    function Label(): string {
      match this
      case Easy => "easy"
      case Medium => "medium"
      case Hard => "hard"
    }
  }

  /** `prompt_for_question(n)`: the system prompt that governs question `n`. */
  function PromptForQuestion(n: int): (t: Tier)
    ensures t == Easy <==> n <= 4
    ensures t == Medium <==> 5 <= n <= 8
    ensures t == Hard <==> 9 <= n
  {
    if n <= 4 then Easy
    else if n <= 8 then Medium
    else Hard
  }

  /** Later questions never get an easier prompt. */
  lemma PromptNeverEases(m: int, n: int)
    requires m <= n
    ensures PromptForQuestion(m).Rank() <= PromptForQuestion(n).Rank()
  {
  }

  /** The difficulty label `next_hint` reports for question `q`. */
  function DifficultyLabel(q: int): string {
    if q <= 4 then "easy"
    else if q <= 8 then "medium"
    else "hard"
  }

  /** The label is written out separately in the handler, but it always names
      the tier of the prompt that governs the same question. */
  lemma LabelNamesTier(q: int)
    ensures DifficultyLabel(q) == PromptForQuestion(q).Label()
    ensures DifficultyLabel(q) in {"easy", "medium", "hard"}
  {
  }
}
