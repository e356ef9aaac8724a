# Hebrew word-guessing game: a verified model of its core

This project models the logic of a Hebrew word-guessing game in Dafny. In a
solo game the player sees descriptions of thirty words, easy ones first, then
medium, then hard. There are twenty seconds per word and at most two hints.
A guess is accepted when it matches the word or one of its synonyms, up to
one typo. The model covers:

- the answer matching, the word selection and the small game rules of
  `lib/game-logic.ts`;
- the catalog file `data/words.json` and the admin handlers that edit it;
- the duplicate-removal script;
- the GET handler that builds the catalog from database rows;
- the solo game board's state machine;
- the countdown timer;
- the duel-room create and join guards, the host's "opponent joined"
  notification, and the room-code and player-id helpers.

Module by module:

- `Text` (text.dfy): JavaScript's white-space class, `trim` and ASCII case
  mapping.
- `Catalog` (catalog.dfy): the catalog's data model.
- `GameRules` (game_rules.dfy): the description tier of a position, the
  score, the two hints and the category display name.
- `AnswerMatching`, `AnswerMatchingProperties` (answer_matching.dfy):
  `normalizeHebrew`, the Levenshtein table as an `array2` method proved
  equal to a recursive distance, and `checkAnswer`.
- `WordSelection` (word_selection.dfy): `getAllWords`, `selectFromPool` and
  `selectWordsForGame` as loop methods over sequences and a `usedWords` set.
- `Dedup` (dedup.dfy): `removeDuplicates` as its two loops. The marking walk
  records positions; the descending splice loop removes them. Both are
  proved against a first-occurrence filter `KeepFirst`.
- `CatalogAdmin`, `CatalogAdminProperties` (words_file.dfy): the
  `WordsFile` class, whose `data` field is the file. Its handler methods are
  specified by pure functions from the file before to a status and the file
  after. Lemmas state what each handler guarantees.
- `WordsApi` (words_api.dfy): the row-to-catalog transformation of GET
  `/api/words`.
- `SoloGame` (solo_game.dfy): the `GameBoard` class, one method per event
  handler, keeping the invariant `Valid()`.
- `Countdown` (timer.dfy): the `Timer` class, the colour thresholds and the
  `mm:ss` formatter.
- `PlayerSession` (player_session.dfy): `generateRoomCode`, and
  `getPlayerId` over a `LocalStore` class that holds `localStorage`.
- `Duel` (duel.dfy): the `game_rooms` table as a map from room code to row,
  create and join as pure functions, and the classes of the multiplayer page
  and the notification.

`Math.random` is always an input:

- a shuffled tier is a permutation of the tier, passed in;
- the backfill's index comes from an oracle `pick`;
- a room-code draw is a real in [0, 1);
- the random part of a player id is a string.

Database outcomes are boolean inputs (`insertFailed`, `fetchFailed`,
`updateFailed`), or rows versus an error.

Two behaviours of the code are easy to miss:

- An empty guess is not rejected as such. `checkAnswer("", t, [])` holds
  exactly when the normalised target has at most one character
  (`AnswerMatchingProperties.EmptyGuess`).
- For a one-word game the hard quota is `-1`. The hard draw then takes
  nothing (`WordSelection.QuotaFacts`).

## Model

| member | source | states |
|---|---|---|
| Text.TrimNoSpace | lib/game-logic.ts:59 | a string without white space trims to itself |
| Text.TrimShape | lib/game-logic.ts:59 | `trim` removes only white space, only from the two ends, and leaves none at either end; the result is the infix between the first and last non-space characters |
| Text.TrimEmptyIffAllSpace | components/GameBoard.tsx:66 | a string trims to empty exactly when every character is white space, so blank input is the all-space input |
| Text.ToLower | lib/game-logic.ts:60 | lower-casing keeps the length and maps each upper-case ASCII letter to its lower-case form, leaving every other character alone |
| Text.ToUpper | app/multiplayer/page.tsx:77 | upper-casing keeps the length and maps each lower-case ASCII letter to its upper-case form, leaving every other character alone |
| Catalog.ParseTier | app/api/admin/words/route.ts:53 | a request key finds a tier list exactly when it is one of the three tier names, and then the tier it names |
| GameRules.GetDescriptionDifficulty | lib/game-logic.ts:190-194 | easy exactly below 10, medium exactly from 10 to 19, hard exactly from 20 on |
| GameRules.CalculateScore | lib/game-logic.ts:202-205 | a wrong answer scores 0; a right one scores 10 - 3h for h ≤ 3 hints and 0 from 4 hints on; never negative, never above 10 |
| GameRules.ScoreNonIncreasing | lib/game-logic.ts:202-205 | using more hints never earns more points |
| GameRules.FirstLetterText | lib/game-logic.ts:214 | the interpolated first character, or the text "undefined" for an empty word |
| GameRules.GenerateHints | lib/game-logic.ts:207-217 | exactly two hints: the authored hint, then "starts with the letter" followed by the word's first letter; the second hint is never empty |
| GameRules.FindCategory | lib/game-logic.ts:198 | the index of the first category with the id, or none exactly when no category has it |
| GameRules.GetCategoryName | lib/game-logic.ts:196-200 | for the first category with that id: its name when non-empty, else the id itself; an unknown id always gives the id |
| AnswerMatching.ReplaceQuotes | lib/game-logic.ts:56-57 | same length; every gershayim becomes `"`, every geresh becomes `'`, all else is kept |
| AnswerMatching.CollapseShape | lib/game-logic.ts:58 | after collapsing, the only white space left is single plain spaces |
| AnswerMatching.NormalizeHebrewShape | lib/game-logic.ts:54-61 | a normalised string has no white space at its ends, no two white-space characters in a row, only plain spaces, no gershayim or geresh, no upper-case ASCII letter, and is no longer than the input |
| AnswerMatching.NormalFormFixed | lib/game-logic.ts:54-61 | a string already in that normal form is left unchanged |
| AnswerMatching.NormalizeIdempotent | lib/game-logic.ts:54-61 | normalising twice gives the same as normalising once |
| AnswerMatching.DistanceCell | lib/game-logic.ts:72-81 | each cell of the table is its diagonal neighbour on equal characters, else one plus the least of its three neighbours |
| AnswerMatching.LevenshteinDistance | lib/game-logic.ts:63-85 | the table method returns the edit distance of the two strings |
| AnswerMatching.FillRow | lib/game-logic.ts:71-83 | one pass of the outer loop turns row i into the distances from the first i characters to every prefix, and touches no other row's first column |
| AnswerMatching.DistanceSymmetric | lib/game-logic.ts:63-85 | the distance does not depend on the order of the two strings |
| AnswerMatching.DistanceZeroIffEqual | lib/game-logic.ts:63-85 | the distance is zero exactly between equal strings |
| AnswerMatching.DistanceBounds | lib/game-logic.ts:66-69 | the distance lies between the difference and the larger of the two lengths; against the empty string it is the other length |
| AnswerMatching.InsertionWithinOne | lib/game-logic.ts:71-85 | inserting one character anywhere is within distance one |
| AnswerMatching.DeletionWithinOne | lib/game-logic.ts:71-85 | deleting one character is within distance one |
| AnswerMatching.SubstitutionWithinOne | lib/game-logic.ts:71-85 | replacing one character is within distance one |
| AnswerMatching.AnySynonymMatches | lib/game-logic.ts:103-108 | the synonym loop succeeds exactly when some normalised synonym equals the guess or is within distance one of it |
| AnswerMatching.CheckAnswer | lib/game-logic.ts:88-111 | accepted exactly when the normalised guess equals, or is within distance one of, the normalised target or some normalised synonym |
| AnswerMatchingProperties.EmptyGuess | lib/game-logic.ts:93-99 | an empty guess is accepted exactly when the normalised target has at most one character |
| AnswerMatchingProperties.AcceptsExact | lib/game-logic.ts:93-95 | a guess equal to the target after normalisation is accepted, whatever the synonyms |
| AnswerMatchingProperties.AcceptsSynonym | lib/game-logic.ts:103-107 | a guess equal to any synonym after normalisation is accepted |
| AnswerMatchingProperties.AcceptsOneTypo | lib/game-logic.ts:98-100 | one inserted, deleted or replaced character relative to the normalised target is accepted |
| AnswerMatchingProperties.RejectsFarLengths | lib/game-logic.ts:88-111 | a guess whose normalised length is two or more away from every normalised candidate is rejected |
| AnswerMatchingProperties.SpacedLettersFixed | lib/game-logic.ts:54-61 | Hebrew or lower-case letters with single spaces between them are already normalised |
| AnswerMatchingProperties.TrailingLetterAccepted | lib/game-logic.ts:88-111 | the guess "שלגg" is accepted for "שלג" |
| AnswerMatchingProperties.OtherPhraseRejected | lib/game-logic.ts:88-111 | the guess "משהו אחר" is rejected for "שלג" |
| WordSelection.Tagged | lib/game-logic.ts:122-133 | each entry of a tier list, in order, becomes a word tagged with that tier |
| WordSelection.GetAllWords | lib/game-logic.ts:117-137 | the flattened catalog is easy, then medium, then hard, each tagged, with one word per entry |
| WordSelection.FilterAllWords | lib/game-logic.ts:145-147 | filtering the flattened catalog by a tier gives back exactly that tier's list, in order |
| WordSelection.SelectFromPool | lib/game-logic.ts:149-162 | the picks come from the shuffled pool, repeat no word string and avoid every used one; the used set grows by exactly their strings; their number is the quota (0 if negative) or every unused string of the pool, whichever is smaller |
| WordSelection.CeilThird | lib/game-logic.ts:166 | `Math.ceil(n / 3)`: the least c with 3c ≥ n |
| WordSelection.Quotas | lib/game-logic.ts:166-168 | easy and medium each get min(10, ⌈n/3⌉); the three quotas add up to n |
| WordSelection.QuotaFacts | lib/game-logic.ts:166-168 | thirty words give quotas of 10, 10 and 10; one word gives a hard quota of -1; from two words on the hard quota is not negative |
| WordSelection.Remaining | lib/game-logic.ts:179 | the backfill candidates are exactly the catalog words whose string is unused |
| WordSelection.ShuffledPool | lib/game-logic.ts:150 | a shuffled tier has the same word strings as the tier, and its words are catalog words of that tier |
| WordSelection.DrawTier | lib/game-logic.ts:170-172 | one tier's draw takes only that tier's catalog words, repeats and reuses no string, and takes its quota or every unused string of the tier |
| WordSelection.SelectTierWords | lib/game-logic.ts:164-172 | the three draws, in order easy, medium, hard, repeat no string between them; each takes its quota or every string of its tier the earlier draws left |
| WordSelection.Backfill | lib/game-logic.ts:177-185 | the backfill only appends unused catalog words, repeats no string, and stops with the asked-for number of words or with every catalog string used |
| WordSelection.GameLength | lib/game-logic.ts:178-185 | when the backfill stops, the game holds min(n, distinct strings of the catalog) words |
| WordSelection.SelectWordsForGame | lib/game-logic.ts:139-187 | the game repeats no word string, holds only catalog words, has min(n, distinct catalog strings) words, and is a prefix of the easy picks, then the medium picks, then the hard picks, then the backfill |
| WordSelection.FullQuotas | lib/game-logic.ts:166-172 | with at least ten strings per tier and no string in two tiers, each tier draw of a thirty-word game takes ten words |
| WordSelection.FullGameFollowsTiers | lib/game-logic.ts:174-194 | then the game is the three draws, and the word at each position is of the tier whose description that position shows |
| Dedup.MarkRepeats | remove-duplicates.js:16-23 | the walk records, in increasing order, exactly the positions whose word string was seen before; it ends with every word string of the list seen |
| Dedup.SpliceStep | remove-duplicates.js:27 | splicing out one position, below every position already removed, removes exactly that entry from the survivors |
| Dedup.SpliceOut | remove-duplicates.js:26-28 | removing the recorded positions from the highest down deletes exactly those entries and keeps the rest in order |
| Dedup.RemoveRepeats | remove-duplicates.js:12-31 | the pass keeps the first entry of each word string not seen before, in order; it reports the number removed and every word string now seen |
| Dedup.RemoveDuplicates | remove-duplicates.js:12-31 | `removeDuplicates` keeps the first occurrence of each word string, in order, and returns the old length minus the new |
| Dedup.KeepFirstIsWithout | remove-duplicates.js:16-28 | keeping first occurrences is the same as dropping the marked positions |
| Dedup.KeepFirstDistinct | remove-duplicates.js:12-31 | the survivors repeat no word string; their strings are exactly the list's minus those seen before |
| Dedup.KeepFirstOfDistinct | remove-duplicates.js:12-31 | a list without repeats, which meets nothing seen, is left as it is |
| Dedup.RemoveDuplicatesIdempotent | remove-duplicates.js:12-31 | running the pass twice is the same as running it once |
| Dedup.FirstOccurrenceKept | remove-duplicates.js:16-22 | every entry whose word string is new at its position survives |
| Dedup.RepeatsOnlyRemoved | remove-duplicates.js:12-31 | no word string is lost: apart from strings seen before, the survivors have exactly the list's word strings |
| CatalogAdmin.AdminPassword | app/api/admin/words/route.ts:5 | the environment's password when it is set and not empty, else "admin123" |
| CatalogAdmin.FindWord | app/api/admin/words/route.ts:74 | the index of the first entry with that word string, or none exactly when no entry has it |
| CatalogAdmin.RemoveAt | app/api/admin/words/route.ts:79 | `splice(i, 1)`: one entry shorter, the entries before i kept in place, the ones after shifted down by one |
| CatalogAdmin.Recategorize | app/api/admin/categories/route.ts:81-82 | every entry whose category is the old id now has the new one; all other entries are unchanged |
| CatalogAdmin.WordsFile.PostWord | app/api/admin/words/route.ts:37-61 | without the right password: 401 and the file untouched; otherwise exactly the add-word outcome |
| CatalogAdmin.WordsFile.PutWord | app/api/admin/words/route.ts:64-89 | without the right password: 401 and the file untouched; otherwise exactly the update-word outcome |
| CatalogAdmin.WordsFile.DeleteWordEntry | app/api/admin/words/route.ts:92-114 | without the right password: 401 and the file untouched; otherwise exactly the delete-word outcome |
| CatalogAdmin.WordsFile.PostCategory | app/api/admin/categories/route.ts:37-59 | without the right password: 401 and the file untouched; otherwise exactly the add-category outcome |
| CatalogAdmin.WordsFile.PutCategory | app/api/admin/categories/route.ts:62-95 | without the right password: 401 and the file untouched; otherwise exactly the rename-category outcome |
| CatalogAdmin.WordsFile.DeleteCategoryEntry | app/api/admin/categories/route.ts:98-129 | without the right password: 401 and the file untouched; otherwise exactly the delete-category outcome |
| CatalogAdmin.WordsFile.RunRemoveDuplicates | remove-duplicates.js:33-84 | the file becomes the per-tier passes followed by the cross-tier passes, with the words recounted |
| CatalogAdmin.RecategorizeTier | app/api/admin/categories/route.ts:81-82 | the `forEach` loop renames exactly the entries of the old category |
| CatalogAdminProperties.AddWordRefusesDuplicate | app/api/admin/words/route.ts:47-50 | a word string already in any tier is refused with 400 and nothing changes |
| CatalogAdminProperties.AddWordKeepsUnique | app/api/admin/words/route.ts:47-54 | adding a word never makes a word string occur twice in the catalog |
| CatalogAdminProperties.AddWordAppends | app/api/admin/words/route.ts:53-54 | a successful add appends the word to its tier, leaves the other tiers and the categories alone, and recounts one more word |
| CatalogAdminProperties.UpdateWordOutcome | app/api/admin/words/route.ts:74-82 | 404 exactly when the tier is valid and has no such word; a failure changes nothing; a success removes the first match, appends the new word to the new tier, keeps the number of words, and leaves the metadata unrecounted |
| CatalogAdminProperties.DeleteWordOutcome | app/api/admin/words/route.ts:101-107 | 404 exactly when the tier is valid and has no such word; a success removes only the first match, leaves one word fewer and recounts |
| CatalogAdminProperties.DeleteWordKeepsUnique | app/api/admin/words/route.ts:101-107 | deleting a word never makes a word string occur twice |
| CatalogAdminProperties.WordHandlersKeepConsistent | app/api/admin/words/route.ts:37-114 | every word handler keeps both metadata counts in step with the lists |
| CatalogAdminProperties.CategoryHandlersKeepConsistent | app/api/admin/categories/route.ts:37-129 | every category handler keeps both metadata counts in step with the lists |
| CatalogAdminProperties.AddCategoryOutcome | app/api/admin/categories/route.ts:47-52 | 400 and no change exactly when the id is taken; otherwise the category is appended and counted |
| CatalogAdminProperties.UpdateCategoryOutcome | app/api/admin/categories/route.ts:71-88 | 404 and no change exactly when no category has the id; otherwise exactly that position is replaced, and on an id change exactly the words of the old id get the new one, with nothing else changed |
| CatalogAdminProperties.DeleteCategoryOutcome | app/api/admin/categories/route.ts:108-122 | 400 exactly when some word uses the category, checked before existence; then 404 exactly when it is missing; otherwise the first match is removed and the count follows |
| CatalogAdminProperties.ScriptTiers | remove-duplicates.js:45-81 | after the passes no word string occurs twice within or across tiers, and no word string is lost |
| CatalogAdminProperties.RemoveDuplicatesScriptResult | remove-duplicates.js:33-84 | after the script the catalog repeats no word string, easy is only de-duplicated within itself, no word string is lost, and consistent metadata stays consistent |
| WordsApi.ToEntry | app/api/words/route.ts:37-47 | each row keeps its word, category and hint; its three description columns become the descriptions; null synonyms become the empty list |
| WordsApi.TierRowsAppend | app/api/words/route.ts:35-75 | each tier list follows the row order |
| WordsApi.TierRowsSingle | app/api/words/route.ts:35-75 | a row lands, mapped, in the tier its difficulty names and in no other |
| WordsApi.RowsPartition | app/api/words/route.ts:35-75 | every row is in exactly one tier list or has an unknown difficulty |
| WordsApi.TotalWordsCountsRows | app/api/words/route.ts:79 | `totalWords` is the number of rows fetched; it matches the tier lists exactly when no row has an unknown difficulty |
| WordsApi.CategoriesProjected | app/api/words/route.ts:80-83 | the categories are the rows reduced to id and name, in order, and counted; every word has three description variants |
| WordsApi.GetWordsOutcome | app/api/words/route.ts:19-32 | a catalog comes back exactly when both queries succeed, built from their rows; a failed words query gives its error first |
| SoloGame.GameBoard.CurrentWord | components/GameBoard.tsx:64-66 | the word at the current index, present exactly when the list reaches that index |
| SoloGame.GameBoard.constructor | components/GameBoard.tsx:18-32 | the board starts in the countdown at index 0 with no score, hints, right answers or words, and loading |
| SoloGame.GameBoard.LoadWords | components/GameBoard.tsx:35-45 | the selected words arrive and loading ends; the invariant holds and every other field keeps its value |
| SoloGame.GameBoard.SetInput | components/GameBoard.tsx:28 | typing sets the input; every other field keeps its value |
| SoloGame.GameBoard.CountdownComplete | components/GameBoard.tsx:118-120 | the status becomes playing and nothing else changes |
| SoloGame.GameBoard.MoveToNextWord | components/GameBoard.tsx:47-62 | input and hints are cleared and the timer restarts; from the last position the game finishes in place, otherwise the index goes up by exactly one; the index never passes 29 |
| SoloGame.GameBoard.Submit | components/GameBoard.tsx:64-89 | nothing happens without a word or with blank input; a right answer adds the score for the hints shown, counts one right answer and moves on exactly as MoveToNextWord (input and hints cleared, timer key up by one, still playing at hint 0 below position 29, finished in place at 29); a wrong one only clears the input, leaving the timer and hint index alone |
| SoloGame.GameBoard.TimeUp | components/GameBoard.tsx:91-95 | with a word on screen, moves on exactly as MoveToNextWord, without points; with none, nothing changes |
| SoloGame.GameBoard.Skip | components/GameBoard.tsx:97-102 | with a word on screen, moves on exactly as MoveToNextWord, without points; with none, nothing changes |
| SoloGame.GameBoard.Hint | components/GameBoard.tsx:104-116 | with fewer than two hints shown, the next of the word's hints is shown and counted, unless it is empty; otherwise nothing changes; the input, timer key and hint index never change |
| SoloGame.GameBoard.PlayAgain | components/GameBoard.tsx:122-139 | a fresh game over the newly selected words, back in the countdown with everything reset |
| Countdown.GetTimerColor | components/Timer.tsx:40-44 | red exactly at 5 seconds or less, orange exactly from 6 to 10, blue exactly above 10 |
| Countdown.TickBounds | components/Timer.tsx:28-34 | a tick never goes negative, never raises the time, and takes exactly one second off a positive time |
| Countdown.TicksFrom | components/Timer.tsx:27-35 | from d seconds, n ticks leave max(0, d - n): zero after exactly d seconds, and zero from then on |
| Countdown.Timer.constructor | components/Timer.tsx:13 | the time left starts at the duration |
| Countdown.Timer.Reset | components/Timer.tsx:15-17 | a new reset key or duration sets the time left to the duration |
| Countdown.Timer.Check | components/Timer.tsx:20-25 | time-up is reported exactly when running with no time left |
| Countdown.Timer.RunFor | components/Timer.tsx:15-38 | after a reset to d and n running seconds, time-up is reported exactly when n >= d, and the time left is what n ticks make of d |
| Countdown.Timer.Tick | components/Timer.tsx:19-38 | while running with time left, one second comes off; otherwise nothing changes; the time never goes below zero |
| Countdown.NatToString | components/Timer.tsx:49 | `toString` of a natural number is at least one decimal digit |
| Countdown.PadStart2 | components/Timer.tsx:49 | `padStart(2, '0')`: a shorter string gets leading zeros up to two characters; a longer one is kept |
| Countdown.JsRem | components/Timer.tsx:48 | JavaScript's `%`: the remainder lies in [0, b) for a non-negative dividend and in (-b, 0] for a negative one, and the dividend minus it is a multiple of b |
| Countdown.TwoDigits | components/Timer.tsx:49 | a number below a hundred prints as two digits that read back to it |
| Countdown.FormatTimeRoundTrip | components/Timer.tsx:46-50 | below 100 minutes the display is `mm:ss`, five characters, which reads back to the number of seconds |
| Countdown.FormatTwentySeconds | components/Timer.tsx:46-50 | twenty seconds show as `00:20` |
| PlayerSession.CodeChar | lib/supabase.ts:56 | every draw picks a character of the 32-character alphabet |
| PlayerSession.GenerateRoomCode | lib/supabase.ts:52-59 | the loop builds exactly the code of its five draws, one character per draw |
| PlayerSession.RoomCodeFromShape | lib/supabase.ts:53-58 | the code has five characters, all from the alphabet, the i-th chosen by the i-th draw |
| PlayerSession.CodeCharAt | lib/supabase.ts:56 | the draw k/32 picks the k-th alphabet character |
| PlayerSession.DrawFor | lib/supabase.ts:56 | every alphabet character is picked by some draw |
| PlayerSession.EveryRoomCodeDrawable | lib/supabase.ts:52-59 | every five-character string over the alphabet is some run's code |
| PlayerSession.AlphabetDistinct | lib/supabase.ts:53 | the alphabet has 32 characters, no two alike |
| PlayerSession.AlphabetChars | lib/supabase.ts:53 | every alphabet character is an upper-case letter other than I and O, or a digit from 2 to 9 |
| PlayerSession.AlphabetExcludes | lib/supabase.ts:53 | the alphabet has no white space, no lower-case letter, and none of I, O, 0, 1 |
| PlayerSession.CodeCharCase | lib/supabase.ts:53 | a code character survives trimming and upper-casing, also from its lower-case form |
| PlayerSession.PlayerIdOutcome | lib/supabase.ts:40-49 | outside a browser: the empty id and storage untouched; a stored non-empty id comes back unchanged with storage untouched; otherwise a new `player_` id is stored and returned; other keys are never touched |
| PlayerSession.PlayerIdStable | lib/supabase.ts:43-48 | after the first call the id is fixed: a second call returns the same id and changes nothing |
| PlayerSession.LocalStore.GetPlayerId | lib/supabase.ts:40-49 | the method returns the id and leaves storage as the player-id rule says |
| Duel.Stored | components/DuelNotification.tsx:26-27 | `getItem` gives a value exactly when the key is stored, and then the stored value (empty included); it is truthy exactly when present and not empty |
| Duel.WordsOrder | app/multiplayer/page.tsx:31 | the room's word order is the selected words' strings, in selection order |
| Duel.CreateRoomOutcome | app/multiplayer/page.tsx:17-59 | a create succeeds exactly when the name is not blank and the insert goes through; the new row is waiting, with the host as player 1 under the trimmed name, no player 2 and the selected words in order; no other row changes |
| Duel.JoinCode | app/multiplayer/page.tsx:77 | the looked-up code is the trimmed input, upper-cased character by character |
| Duel.JoinRoomOutcome | app/multiplayer/page.tsx:61-120 | a join succeeds exactly when name and code are given, the room exists, waits and has no player 2, and the update goes through; it then sets only player 2's id and trimmed name; each refusal (name required, code required, room not found, game started, room full, join failed) is given exactly when its check is the first to fail |
| Duel.SecondJoinRefused | app/multiplayer/page.tsx:96-99 | after one guest has joined, every later join to that code is refused as full |
| Duel.JoinCodeOfRoomCode | app/multiplayer/page.tsx:77 | a generated code, typed as shown or in lower case, looks up that very code |
| Duel.CheckPendingRoomOutcome | components/DuelNotification.tsx:18-75 | skipped exactly on a room page; shown exactly for the host of a waiting room whose guest has an id and a name, and carrying that name; the stored code is forgotten exactly when the room is gone, someone else's or started |
| Duel.RoomAt | components/DuelNotification.tsx:34-38 | the lookup finds a row exactly when the query succeeds and the code is a room's |
| Duel.CreateJoinNotify | app/multiplayer/page.tsx:17-120 | after a create, the host's notification stays hidden; a guest can join with the code; the host's next check shows the guest's trimmed name |
| Duel.RoomTable.constructor | app/multiplayer/page.tsx:33-43 | the table holds the given rows |
| Duel.MultiplayerPage.constructor | app/multiplayer/page.tsx:17-59 | the page starts with no error |
| Duel.MultiplayerPage.HandleCreateRoom | app/multiplayer/page.tsx:17-59 | a blank name only sets its error; otherwise the player id is taken and, after a successful insert, the table gains the room, the name and the pending code are stored and the page goes to the room; a failed insert shows its error |
| Duel.MultiplayerPage.HandleJoinRoom | app/multiplayer/page.tsx:61-120 | a blank name or code only sets its error; otherwise the player id is taken and a successful join updates the table, stores the name and goes to the room; a refusal shows its message and leaves the table alone |
| Duel.DuelNotification.constructor | components/DuelNotification.tsx:14-16 | no room and not visible |
| Duel.DuelNotification.Check | components/DuelNotification.tsx:18-75 | on a room page or without a stored code it hides and touches nothing; otherwise it forgets the code, shows the room or hides, as the check decides |
| Duel.DuelNotification.StartDuel | components/DuelNotification.tsx:78-83 | with a room, the stored code is forgotten and the page goes to the room |
| Duel.DuelNotification.Dismiss | components/DuelNotification.tsx:85-88 | the stored code is forgotten and the notification is hidden, so nothing renders |

## Left out

- `fetchWordsData` (lib/game-logic.ts:23-52): its one-minute cache depends on the clock and the network. The catalog is an input to every operation that reads it.
- Network and database access are left out: Supabase queries, `fetch`, and realtime channels. Each query's outcome is an input, rows or a failure.
- The `game_rooms` table is assumed to be keyed by room code. An insert of a code already present counts as a failed insert.
- `console.log` and `console.error` output is left out.
- The case mapping covers ASCII letters only. Hebrew has no case, and other scripts' case rules are not modelled.
- Strings are sequences of characters. JavaScript's UTF-16 code units are not modelled, so a character outside the Basic Multilingual Plane counts as one character rather than two.
- `Math.random` is not modelled. The shuffles, the backfill index, the room-code draws and the player id's random part are inputs. The shuffle comparator `Math.random() - 0.5` is taken to yield some permutation of the tier.
- SoloGame.GameBoard.Submit: the 1.5-second `setTimeout` before moving on is taken as elapsed at once. So the feedback banner and a second submit inside that window are not modelled.
- SoloGame.GameBoard.Skip: the two-second answer reveal before moving on is likewise taken as immediate.
- Countdown.Timer.Tick: the `setInterval` schedule is abstracted to one call per elapsed second.
- Countdown.Timer.Tick: the percentage bar (a floating-point division) is left out.
- CatalogAdmin.WordsFile: reading and parsing the request body and the file (JSON errors answer 500) is left out. Bodies arrive already parsed. The GET handlers of the two admin routes only return the file.
- The duel room page is not part of this model: starting a duel, arbitrating answers, advancing on time-outs. The room rows' score and timestamp columns are left out with it.
- Duel.DuelNotification.Check: the three-second polling interval is abstracted to one call per run. A failed lookup is treated like a missing room, as the component does, so the stored code is forgotten.
- WordsApi.GetWords: a query that reports no error but returns no rows would throw and answer "Internal server error". The model gives every successful query a sequence of rows.
- Rows whose difficulty names no tier are counted in `totalWords` but land in no tier. That is the code's behaviour, stated by `WordsApi.TotalWordsCountsRows`.
- SoloGame.GameBoard.Hint: an empty authored hint is never shown. Because the hint index does not advance past it, the first-letter hint is blocked too. The model follows this.
- PlayerSession.PlayerId: a stored empty id counts as missing and is replaced, as the falsy test in the code does.
- The migration route and scripts, the add-150-words scripts and the admin page are left out. They are I/O loops, hard-coded data, or UI with a locale collation.
- The summary screen's percentage (floating point) and the purely presentational components are left out.
