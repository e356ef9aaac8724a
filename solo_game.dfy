/** The solo game screen (components/GameBoard.tsx): a countdown, thirty words
    of twenty seconds each, at most two hints per word, and a summary. Each
    event handler is a method on the board's state. The handlers' delays
    (`setTimeout`) are taken as elapsed at once, so the feedback banner that
    shows in between is not part of the state. */
module SoloGame {
  import opened Text
  import opened Catalog
  import opened GameRules
  import opened AnswerMatching

  const TotalWords := 30
  const TimePerWord := 20
  const MaxHints := 2

  datatype Status = Countdown | Playing | Finished

  class GameBoard {
    var currentWordIndex: int
    var score: int
    var hintsUsed: int
    var correctAnswers: int
    var words: seq<Word>
    var gameStatus: Status
    var currentHintIndex: int
    var userInput: string
    var timerResetKey: int
    var revealedHints: seq<string>
    var isLoadingWords: bool

    /** The board's invariant: the index stays within the thirty positions, a
        word shows at most two hints and they are its hints in order, every
        revealed hint was counted, and the score never exceeds ten points per
        right answer, of which there is at most one per word passed. */
    predicate Valid()
      reads this
    {
      && Core()
      && correctAnswers <= currentWordIndex + (if gameStatus == Finished then 1 else 0)
    }

    /** The invariant without its bound on right answers, which a right answer
        breaks until the board moves on. */
    predicate Core()
      reads this
    {
      && 0 <= currentWordIndex <= TotalWords - 1
      && |revealedHints| <= MaxHints
      && (currentWordIndex < |words| ==>
            revealedHints == GenerateHints(words[currentWordIndex].entry)[..|revealedHints|])
      && (currentWordIndex >= |words| ==> revealedHints == [])
      && 0 <= |revealedHints| <= hintsUsed
      && 0 <= score <= 10 * correctAnswers
      && 0 <= correctAnswers
    }

    /** The word on screen, if the list reaches the current index. */
    function CurrentWord(): (w: Option<Word>)
      reads this
      ensures w.Some? <==> 0 <= currentWordIndex < |words|
      ensures w.Some? ==> w.value == words[currentWordIndex]
    {
      if 0 <= currentWordIndex < |words| then Some(words[currentWordIndex]) else None
    }

    /** The initial state, before the words are loaded. */
    constructor()
      ensures Valid()
      ensures gameStatus == Countdown && currentWordIndex == 0 && score == 0 && hintsUsed == 0
      ensures correctAnswers == 0 && currentHintIndex == 0 && words == []
      ensures userInput == "" && revealedHints == [] && timerResetKey == 0 && isLoadingWords
    {
      currentWordIndex, score, hintsUsed, correctAnswers := 0, 0, 0, 0;
      words, gameStatus, currentHintIndex := [], Countdown, 0;
      userInput, timerResetKey, revealedHints, isLoadingWords := "", 0, [], true;
    }

    /** The mount effect: the selected words arrive (`selectWordsForGame(30)`). */
    method LoadWords(selected: seq<Word>)
      requires Valid()
      requires revealedHints == []
      modifies this
      ensures Valid()
      ensures words == selected && !isLoadingWords
      ensures currentWordIndex == old(currentWordIndex) && score == old(score)
      ensures correctAnswers == old(correctAnswers) && hintsUsed == old(hintsUsed)
      ensures gameStatus == old(gameStatus) && revealedHints == old(revealedHints)
      ensures userInput == old(userInput) && timerResetKey == old(timerResetKey)
      ensures currentHintIndex == old(currentHintIndex)
    {
      words := selected;
      isLoadingWords := false;
    }

    /** Typing in the answer field. */
    method SetInput(text: string)
      modifies this
      requires Valid()
      ensures Valid() && userInput == text
      ensures currentWordIndex == old(currentWordIndex) && score == old(score) && words == old(words)
      ensures revealedHints == old(revealedHints) && gameStatus == old(gameStatus)
      ensures hintsUsed == old(hintsUsed) && correctAnswers == old(correctAnswers)
      ensures timerResetKey == old(timerResetKey) && currentHintIndex == old(currentHintIndex)
      ensures isLoadingWords == old(isLoadingWords)
    {
      userInput := text;
    }

    /** `handleCountdownComplete`: start playing; nothing else changes. */
    method CountdownComplete()
      modifies this
      requires Valid() && gameStatus == Countdown
      ensures Valid() && gameStatus == Playing
      ensures currentWordIndex == old(currentWordIndex) && score == old(score) && hintsUsed == old(hintsUsed)
      ensures correctAnswers == old(correctAnswers) && words == old(words) && userInput == old(userInput)
      ensures revealedHints == old(revealedHints) && timerResetKey == old(timerResetKey)
      ensures currentHintIndex == old(currentHintIndex) && isLoadingWords == old(isLoadingWords)
    {
      gameStatus := Playing;
    }

    /** `moveToNextWord`: clear the input and the hints, restart the timer,
        and either finish (from the last position) or advance by one. */
    method MoveToNextWord()
      modifies this
      requires Core() && gameStatus == Playing && correctAnswers <= currentWordIndex + 1
      ensures Valid()
      ensures userInput == "" && revealedHints == [] && timerResetKey == old(timerResetKey) + 1
      ensures old(currentWordIndex) >= TotalWords - 1 ==>
        gameStatus == Finished && currentWordIndex == old(currentWordIndex) && currentHintIndex == old(currentHintIndex)
      ensures old(currentWordIndex) < TotalWords - 1 ==>
        gameStatus == Playing && currentWordIndex == old(currentWordIndex) + 1 && currentHintIndex == 0
      ensures score == old(score) && hintsUsed == old(hintsUsed) && correctAnswers == old(correctAnswers)
      ensures words == old(words) && isLoadingWords == old(isLoadingWords)
    {
      userInput := "";
      revealedHints := [];
      timerResetKey := timerResetKey + 1;
      if currentWordIndex >= TotalWords - 1 {
        gameStatus := Finished;
      } else {
        currentWordIndex := currentWordIndex + 1;
        currentHintIndex := 0;
      }
    }

    /** `handleSubmit`: ignored without a word or with blank input; a right
        answer scores `calculateScore(true, hints shown)`, counts, and moves
        on; a wrong one only clears the input. */
    method Submit()
      modifies this
      requires Valid() && gameStatus == Playing
      ensures Valid()
      ensures old(CurrentWord()).None? || Trim(old(userInput)) == [] ==>
        score == old(score) && correctAnswers == old(correctAnswers) && currentWordIndex == old(currentWordIndex)
        && userInput == old(userInput) && revealedHints == old(revealedHints) && gameStatus == old(gameStatus)
        && timerResetKey == old(timerResetKey) && currentHintIndex == old(currentHintIndex)
      ensures old(CurrentWord()).Some? && Trim(old(userInput)) != [] ==>
        var w := old(CurrentWord()).value;
        if CheckAnswer(old(userInput), w.entry.word, w.entry.synonyms) then
          && score == old(score) + CalculateScore(true, |old(revealedHints)|)
          && correctAnswers == old(correctAnswers) + 1
          && revealedHints == [] && userInput == "" && timerResetKey == old(timerResetKey) + 1
          && (old(currentWordIndex) < TotalWords - 1 ==>
                currentWordIndex == old(currentWordIndex) + 1 && gameStatus == Playing && currentHintIndex == 0)
          && (old(currentWordIndex) >= TotalWords - 1 ==>
                gameStatus == Finished && currentWordIndex == old(currentWordIndex)
                && currentHintIndex == old(currentHintIndex))
        else
          && score == old(score) && correctAnswers == old(correctAnswers)
          && currentWordIndex == old(currentWordIndex) && revealedHints == old(revealedHints)
          && userInput == "" && gameStatus == Playing
          && timerResetKey == old(timerResetKey) && currentHintIndex == old(currentHintIndex)
      ensures hintsUsed == old(hintsUsed) && words == old(words) && isLoadingWords == old(isLoadingWords)
    {
      var current := CurrentWord();
      if current.None? || Trim(userInput) == [] {
        return;
      }
      var word := current.value;
      var isCorrect := CheckAnswer(userInput, word.entry.word, word.entry.synonyms);
      if isCorrect {
        var pointsEarned := CalculateScore(true, |revealedHints|);
        score := score + pointsEarned;
        correctAnswers := correctAnswers + 1;
      } else {
        userInput := "";
        return;
      }
      MoveToNextWord();
    }

    /** `handleTimeUp`: move on when there is a word. */
    method TimeUp()
      modifies this
      requires Valid() && gameStatus == Playing
      ensures Valid()
      ensures old(CurrentWord()).None? ==>
        && currentWordIndex == old(currentWordIndex) && gameStatus == old(gameStatus)
        && userInput == old(userInput) && revealedHints == old(revealedHints)
        && timerResetKey == old(timerResetKey) && currentHintIndex == old(currentHintIndex)
      ensures old(CurrentWord()).Some? ==>
        userInput == "" && revealedHints == [] && timerResetKey == old(timerResetKey) + 1
      ensures old(CurrentWord()).Some? && old(currentWordIndex) < TotalWords - 1 ==>
        currentWordIndex == old(currentWordIndex) + 1 && gameStatus == Playing && currentHintIndex == 0
      ensures old(CurrentWord()).Some? && old(currentWordIndex) >= TotalWords - 1 ==>
        gameStatus == Finished && currentWordIndex == old(currentWordIndex) && currentHintIndex == old(currentHintIndex)
      ensures score == old(score) && correctAnswers == old(correctAnswers) && hintsUsed == old(hintsUsed)
      ensures words == old(words) && isLoadingWords == old(isLoadingWords)
    {
      if CurrentWord().Some? {
        MoveToNextWord();
      }
    }

    /** `handleSkip`: the same move as a time-out, after showing the answer. */
    method Skip()
      modifies this
      requires Valid() && gameStatus == Playing
      ensures Valid()
      ensures old(CurrentWord()).None? ==>
        && currentWordIndex == old(currentWordIndex) && gameStatus == old(gameStatus)
        && userInput == old(userInput) && revealedHints == old(revealedHints)
        && timerResetKey == old(timerResetKey) && currentHintIndex == old(currentHintIndex)
      ensures old(CurrentWord()).Some? ==>
        userInput == "" && revealedHints == [] && timerResetKey == old(timerResetKey) + 1
      ensures old(CurrentWord()).Some? && old(currentWordIndex) < TotalWords - 1 ==>
        currentWordIndex == old(currentWordIndex) + 1 && gameStatus == Playing && currentHintIndex == 0
      ensures old(CurrentWord()).Some? && old(currentWordIndex) >= TotalWords - 1 ==>
        gameStatus == Finished && currentWordIndex == old(currentWordIndex) && currentHintIndex == old(currentHintIndex)
      ensures score == old(score) && correctAnswers == old(correctAnswers) && hintsUsed == old(hintsUsed)
      ensures words == old(words) && isLoadingWords == old(isLoadingWords)
    {
      if CurrentWord().Some? {
        MoveToNextWord();
      }
    }

    /** `handleHint`: with a word and fewer than two hints shown, show the next
        of its two hints and count it, unless that hint is empty. */
    method Hint()
      modifies this
      requires Valid() && gameStatus == Playing
      ensures Valid()
      ensures old(CurrentWord()).None? || |old(revealedHints)| >= MaxHints ==>
        revealedHints == old(revealedHints) && hintsUsed == old(hintsUsed)
      ensures old(CurrentWord()).Some? && |old(revealedHints)| < MaxHints ==>
        var next := GenerateHints(old(CurrentWord()).value.entry)[|old(revealedHints)|];
        && (next != "" ==> revealedHints == old(revealedHints) + [next] && hintsUsed == old(hintsUsed) + 1)
        && (next == "" ==> revealedHints == old(revealedHints) && hintsUsed == old(hintsUsed))
      ensures score == old(score) && correctAnswers == old(correctAnswers)
      ensures currentWordIndex == old(currentWordIndex) && words == old(words) && gameStatus == old(gameStatus)
      ensures userInput == old(userInput) && timerResetKey == old(timerResetKey)
      ensures currentHintIndex == old(currentHintIndex) && isLoadingWords == old(isLoadingWords)
    {
      var current := CurrentWord();
      if current.None? || |revealedHints| >= MaxHints {
        return;
      }
      var hints := GenerateHints(current.value.entry);
      var nextHint := hints[|revealedHints|];
      if nextHint != "" {
        assert hints[..|revealedHints| + 1] == revealedHints + [nextHint];
        revealedHints := revealedHints + [nextHint];
        hintsUsed := hintsUsed + 1;
      }
    }

    /** `handlePlayAgain`: a fresh game over newly selected words. */
    method PlayAgain(selected: seq<Word>)
      modifies this
      ensures Valid()
      ensures gameStatus == Countdown && currentWordIndex == 0 && score == 0 && hintsUsed == 0
      ensures correctAnswers == 0 && currentHintIndex == 0 && words == selected
      ensures userInput == "" && revealedHints == [] && timerResetKey == 0 && !isLoadingWords
    {
      isLoadingWords := true;
      currentWordIndex, score, hintsUsed, correctAnswers := 0, 0, 0, 0;
      words, gameStatus, currentHintIndex := selected, Countdown, 0;
      userInput, revealedHints, timerResetKey := "", [], 0;
      isLoadingWords := false;
    }
  }
}
