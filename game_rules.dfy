/** The small pure rules of lib/game-logic.ts: which description variant a
    position shows, the points for an answer, the two hints of a word, and
    the display name of a category. */
module GameRules {
  import opened Catalog

  /** `getDescriptionDifficulty`: positions 0-9 show the easy description,
      10-19 the medium one, the rest the hard one. */
  function GetDescriptionDifficulty(wordIndex: int): (t: Tier)
    ensures t == Easy <==> wordIndex < 10
    ensures t == Medium <==> 10 <= wordIndex < 20
    ensures t == Hard <==> 20 <= wordIndex
  {
    if wordIndex < 10 then Easy
    else if wordIndex < 20 then Medium
    else Hard
  }

  /** `calculateScore`: nothing for a wrong answer; ten points for a right one,
      three fewer per hint used, never below zero. */
  function CalculateScore(correct: bool, hintsUsed: int): (points: int)
    ensures !correct ==> points == 0
    ensures points >= 0
    ensures hintsUsed >= 0 ==> points <= 10
    ensures correct && hintsUsed <= 3 ==> points == 10 - 3 * hintsUsed
    ensures correct && hintsUsed >= 4 ==> points == 0
  {
    if !correct then 0
    else if 10 - hintsUsed * 3 > 0 then 10 - hintsUsed * 3 else 0
  }

  /** Using more hints never earns more points. */
  lemma ScoreNonIncreasing(h1: int, h2: int)
    requires h1 <= h2
    ensures CalculateScore(true, h2) <= CalculateScore(true, h1)
  {
  }

  /** The prefix of the second hint, "starts with the letter". */
  const StartsWithLetter: string := "מתחיל באות "

  /** `${word[0]}`: the first character, or "undefined" for an empty word. */
  function FirstLetterText(word: string): (r: string)
    ensures |word| > 0 ==> r == [word[0]]
    ensures |word| == 0 ==> r == "undefined"
  {
    if |word| > 0 then [word[0]] else "undefined"
  }

  /** `generateHints`: exactly two hints, the authored hint first, then the
      first-letter hint, which is never empty. */
  function GenerateHints(word: WordEntry): (hints: seq<string>)
    ensures |hints| == 2
    ensures hints[0] == word.hint
    ensures hints[1] == StartsWithLetter + FirstLetterText(word.word)
    ensures |hints[1]| > |StartsWithLetter|
    ensures |word.word| > 0 ==> hints[1][|hints[1]| - 1] == word.word[0]
  {
    [word.hint, StartsWithLetter + FirstLetterText(word.word)]
  }

  /** Index of the first category with the given id (`find`). */
  function FindCategory(categories: seq<Category>, id: string): (r: Option<nat>)
    ensures r.Some? ==> r.value < |categories| && categories[r.value].id == id
    ensures r.Some? ==> forall j :: 0 <= j < r.value ==> categories[j].id != id
    ensures r.None? ==> forall j :: 0 <= j < |categories| ==> categories[j].id != id
  {
    if |categories| == 0 then None
    else if categories[0].id == id then Some(0)
    else match FindCategory(categories[1..], id)
      case None => None
      case Some(k) => Some(k + 1)
  }

  /** `getCategoryName`: the name of the first category with that id, or the
      id itself when there is none or its name is empty. */
  function GetCategoryName(categories: seq<Category>, categoryId: string): (name: string)
    ensures (exists j :: 0 <= j < |categories| && categories[j].id == categoryId
               && categories[j].name != "" && (forall k :: 0 <= k < j ==> categories[k].id != categoryId)
               && name == categories[j].name)
        || name == categoryId
    ensures (forall j :: 0 <= j < |categories| ==> categories[j].id != categoryId) ==> name == categoryId
    ensures forall j :: 0 <= j < |categories| && categories[j].id == categoryId
                 && (forall k :: 0 <= k < j ==> categories[k].id != categoryId)
               ==> name == (if categories[j].name != "" then categories[j].name else categoryId)
  {
    match FindCategory(categories, categoryId)
    case Some(k) => if categories[k].name != "" then categories[k].name else categoryId
    case None => categoryId
  }
}
