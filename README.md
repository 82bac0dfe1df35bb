# Falling-letters typing game: a Dafny model of its simulation core

This project models the simulation and scoring core of a browser typing game.
Letters spawn at the top of a 20 × 60 field and fall. Letters that reach the
line `height - 2` are reaped, and each reaped letter that is still active costs
a life. The player types a word; active letters are matched to the typed
characters, oldest letter first, and become *focused*. On Enter, a word that is
new and in the word list scores its length, doubled on a full-board clear of
more than one letter. The focused letters are then deactivated.

Modules, one per part of the program:

- `RandomLetter` (`random_letter.dfy`) covers `src/randomLetter.ts`:
  - the weight table and the loop that flattens it into `letters`;
  - the draw `randomLetter`, with `Math.random()` passed in as `draw`.
- `Animate` (`animate.dfy`) covers the frame clock of `src/animate.ts`, class
  `Loop`. `start` and `animate` are methods that update the clock's fields.
  `Decide` is the step/skip decision they are proved against.
- `ValidateWord` (`validate_word.dfy`) covers `src/word/validateWord.ts`: the
  lower-cased word is looked up in the word list, which is a parameter `words`.
- `Pool` (`pool.dfy`) holds the letter record, the field constants and the
  value-level meaning of spawning, falling, reaping and claiming on the ordered
  list of letters. The filter of `#removeDeactivatedLetters` and the
  `forEach(#deactiveLetter)` of an accepted word are folds, `ReapAll` and
  `ClaimAll`, of one letter's turn, `ReapOne` and `ClaimOne`. The module also
  holds lemmas about these: order, lives and counts.
- `Matcher` (`matcher.dfy`) is the matching rule of `#focusInputLetters` as a
  function, with its guarantees:
  - focused letters are active;
  - no character is used more often than it was typed;
  - matching is greedy, oldest letter first.
- `Game` (`game.dfy`) covers class `Game` of `src/game.ts`. Its fields and
  handlers are a Dafny class whose methods update the fields in place. Each
  method is proved against the `Pool` and `Matcher` functions. The constructor
  establishes the invariant `Valid()` and each handler keeps it; `stop` touches
  only the clock and the input element, and `#deactiveLetter` and `#removeLife` are plain field
  updates used inside handlers that restore it. `Valid()` says:
  - letters in spawn order with distinct ids, inside the field;
  - focused letters active;
  - score and lives in range.
  The page's input element is a separate object whose `disabled` flag
  `stop` sets and `start` and `reset` clear. `Dispatch` delivers frames and
  input events the way the browser does, dropping input events while the
  input is disabled, so after game over no word scores until a restart.

A letter object's identity is its `id`. Ids are handed out in spawn order, so
"ids increase along the list" states both that the list is in spawn order and
that it has no repeats. `#focusedLetters` is a set of ids.

In these places the model follows the code:
- An empty word is not rejected specially. It is accepted exactly when the word
  list holds the empty line.
- Every letter at or below the reap line is reaped, whether active or not.
- The multiplier of a step is strictly greater than 1, because a step needs
  more than one interval to have elapsed.
- `src/game.ts:1` imports `Loop` from `./loop`. That file is not part of this
  model; `src/animate.ts` is taken as the clock.

## Model

| member | source | states |
|---|---|---|
| RandomLetter.Repeat | src/randomLetter.ts:33 | `new Array(weight).fill(letter)` has `weight` elements, all equal to the letter |
| RandomLetter.Flatten | src/randomLetter.ts:30-34 | the flattened table is as long as the total weight, and every element is a key of the table |
| RandomLetter.BuildLetters | src/randomLetter.ts:30-34 | the `forEach` loop that pushes each key's block builds exactly `Flatten(weights)` |
| RandomLetter.FlattenPrefix | src/randomLetter.ts:30-34 | flattening the first i keys gives a prefix of the whole flattened table |
| RandomLetter.FlattenBlock | src/randomLetter.ts:30-34 | the j-th copy of key i sits at the total weight of keys 0..i-1 plus j, so each key's copies form one block in key order |
| RandomLetter.FlattenCount | src/randomLetter.ts:30-34 | with strictly increasing keys, each key occurs in the table exactly as often as its weight |
| RandomLetter.KeysAreAlphabet | src/randomLetter.ts:1-28 | the table has 26 keys, A..Z in that order |
| RandomLetter.HeavyKeysAreVowelsAndY | src/randomLetter.ts:1-28 | weight 2 exactly for A, E, I, O, U, Y; weight 1 for every other key |
| RandomLetter.PrefixWeight | src/randomLetter.ts:1-28 | the running total of the weights after k keys, in closed form |
| RandomLetter.WeightsTable | src/randomLetter.ts:1-34 | total weight and `letters.length` are 32; keys increase; the key set is exactly A..Z |
| RandomLetter.LetterOccurrences | src/randomLetter.ts:30-34 | in `letters` each of A..Z occurs twice if it is a vowel or Y and once otherwise |
| RandomLetter.Stretch | src/randomLetter.ts:41-43 | a draw in [0, 1) times a positive span lies in [0, span) |
| RandomLetter.RandomNumber | src/randomLetter.ts:41-43 | `randomNumber(min, max)` lies in [min, max) |
| RandomLetter.RandomLetter | src/randomLetter.ts:36-39 | the index drawn is inside `letters`, so the result is a key of the table, an upper-case letter A..Z |
| ValidateWord.ValidateWordMatchesLine | src/word/validateWord.ts:5-7 | a word is valid exactly when some line of the word list has its length and, position by position, the word's character lower-cased |
| Animate.Decide | src/animate.ts:47-49 | a step happens iff the elapsed time exceeds the interval |
| Animate.DecideStep | src/animate.ts:49-52 | on a step the previous time advances by a whole positive number of intervals and ends less than one interval behind the current time; the multiplier is elapsed / interval, greater than 1 |
| Animate.IntervalFor | src/animate.ts:33 | `Math.floor(1000 / fps)` is between 1 and 1000 and is the largest interval with interval × fps ≤ 1000 |
| Animate.OneStepPerTimestamp | src/animate.ts:49-50 | after a step, a second frame at the same timestamp is skipped |
| Animate.Loop.constructor | src/animate.ts:4-14 | the field initialisers: inactive, no callback, 60 fps, frame 0, all times 0 |
| Animate.Loop.Start | src/animate.ts:23-39 | nothing changes without a callback or while active; otherwise the loop becomes active, frame 0, interval `floor(1000/fps)`, start and previous time `now`, and `animate` is scheduled |
| Animate.Loop.Stop | src/animate.ts:41-43 | only the active flag changes, and it becomes false |
| Animate.Loop.Animate | src/animate.ts:45-58 | current and delta times are recorded; on a skip frame and previous time stay; on a step the frame goes up by exactly 1, the previous time is `Decide`'s, and the callback gets the new frame and the multiplier |
| Animate.Loop.IsActive | src/animate.ts:65-67 | the result is true exactly when the loop is active |
| Pool.CreateLetter | src/game.ts:271-284 | a new letter carries the given character, is active, sits at x = 0, y = 0 and has speed 0.12 |
| Pool.RandomizeLetterPosition | src/game.ts:286-288 | only x changes, and it lands in [0, width) |
| Pool.Fall | src/game.ts:118 | one letter's fall changes only y; y does not decrease for non-negative speed and multiplier and strictly increases for positive ones |
| Pool.Advance | src/game.ts:117-118 | every letter, active or not, gains `speed × multiplier` in y; nothing else changes; order and length are kept; y does not decrease for non-negative speed and multiplier |
| Pool.AdvanceKeepsIds | src/game.ts:117-118 | falling keeps the ids, the active ids and the spawn order |
| Pool.ActiveCount | src/game.ts:216-221 | the `reduce` count of active letters is at most the number of letters |
| Pool.ActiveIdsCount | src/game.ts:216-221 | with strictly increasing ids, the number of active ids equals the `reduce` count of active letters |
| Pool.FullBoardClear | src/game.ts:216-223 | a set of active ids is as large as the active-letter count exactly when it is all of the active letters |
| Pool.ReapOneEffect | src/game.ts:135-143 | one letter's turn in the filter: a letter above the line is appended to the kept letters and nothing else changes; a letter at or below it is not kept, its count goes down by 1 and it leaves the focused set; lives change exactly when it was active and a life was left, and stay between 0 and before |
| Pool.ReapMembers | src/game.ts:134-145 | the filter keeps exactly the letters above the reap line and drops exactly those at or below it |
| Pool.ReapAllKept | src/game.ts:134-145 | the fold `ReapAll` of the filter keeps exactly the survivors, in list order |
| Pool.ReapAllLives | src/game.ts:136-139 | reaping costs one life per dropped letter that was still active, and nothing for inactive ones, floored at 0; lives never go below 0 or up |
| Pool.ReapAllCounts | src/game.ts:140 | each dropped letter decrements its character's count once and leaves the focused set |
| Pool.ReapPartition | src/game.ts:134-145 | every letter, and every active letter, is either kept or dropped |
| Pool.ReapKeepsOrder | src/game.ts:134-145 | the surviving letters keep their relative order |
| Pool.ReapKeepsFocus | src/game.ts:140 | focused ids that are not dropped remain active ids of the survivors |
| Pool.Bump | src/game.ts:166 | `(letterCounts[c] || 0) + 1`: the count of the character goes up by 1, a missing entry counting as 0, and it gains an entry |
| Pool.Drop | src/game.ts:150 | the count of the character goes down by 1; it is only applied to letters of the pool, which all have an entry (`Placed`), so the missing-key case (NaN in JavaScript) does not arise |
| Pool.BumpDropOthers | src/game.ts:166 | counting one character up or down leaves every other character's count alone |
| Pool.ReleaseCounts | src/game.ts:150 | decrementing for a list of letters keeps every key and lowers each character's count by that character's occurrences in the list |
| Pool.SelectMembers | src/game.ts:231 | the selected letters are exactly the letters of the list whose id is focused |
| Pool.Claim | src/game.ts:149 | claiming keeps length and every field, and clears the active flag exactly of claimed letters |
| Pool.ClaimActiveIds | src/game.ts:231 | after the claim the active ids are the old ones minus the claimed ones; ids and their order are untouched |
| Pool.ClaimOneEffect | src/game.ts:147-152 | one focused letter's turn: every letter with its id becomes inactive, its count goes down by 1 and it leaves the focused set, the list keeps its length; an unfocused letter's turn changes nothing |
| Pool.ClaimStep | src/game.ts:231 | with strictly increasing ids, one more turn of `#deactiveLetter` moves the state from the first i letters to the first i + 1 |
| Pool.ClaimAllUpTo | src/game.ts:231 | the turns over the first i letters, from the untouched state, deactivate exactly the focused ones among them, release their counts and remove them from the focused set |
| Pool.ClaimEnds | src/game.ts:231 | before any turn nothing has changed; after every turn the letters are `Claim` of the list, the counts are released for the focused letters and the focused set loses every id of the list |
| Matcher.RemoveFirst | src/game.ts:178-184 | a working list without the character is left unchanged |
| Matcher.RemoveFirstAt | src/game.ts:178-184 | splicing at the first index holding c is `RemoveFirst` |
| Matcher.RemoveFirstCount | src/game.ts:181 | the splice takes exactly one copy of the character out and leaves every other count alone |
| Matcher.Remaining | src/game.ts:177-184 | after a letter's turn the working list is one shorter if the letter is active and its character is left, and is exactly the old list otherwise |
| Matcher.RemainingCount | src/game.ts:177-184 | a letter's turn uses one copy of its own character, and only when it is active and a copy is left |
| Matcher.Match | src/game.ts:173-188 | every matched letter is an active letter of the list |
| Matcher.MatchWithinWord | src/game.ts:173-188 | for every character, no more focused letters carry it than the typed word holds copies of it |
| Matcher.Focus | src/game.ts:173-188 | the focused ids are active ids of the list |
| Matcher.MatchGreedy | src/game.ts:176-187 | the letter at position i is matched iff it is active and fewer earlier active letters share its character than the word holds copies of it |
| Matcher.FocusGreedy | src/game.ts:176-187 | the same greedy rule for the focused ids |
| Game.Normalize | src/game.ts:204 | the normalised input is no longer than the input and holds only A..Z |
| Game.NormalizeKeepsWords | src/game.ts:204 | an upper-case word is already normal |
| Game.NormalizeIdempotent | src/game.ts:204 | normalising twice is normalising once |
| Game.NormalizeAppend | src/game.ts:204 | normalising works character by character: the normal form of `s + t` is that of `s` followed by that of `t` |
| Game.NormalizeDropsNonLetter | src/game.ts:204 | a character that is not an ASCII letter normalises to nothing |
| Game.NormalizeKeepsLetter | src/game.ts:204 | an ASCII letter normalises to its capital: a lower-case letter moves down by 32, a capital stays |
| Game.NormalizeLetters | src/game.ts:204 | on a word of letters only, normalising keeps the length and upper-cases each letter in place |
| Game.NormalizeThenLower | src/word/validateWord.ts:6 | on a word of letters, lower-casing the normal form gives the lower-cased word: the lookup sees what was typed, in any case |
| Game.NormalizeRoundTrip | src/game.ts:204 | a lower-case word, normalised and lower-cased again for the word-list lookup, is itself |
| Game.TypedWordIsFound | src/game.ts:204-213 | a lower-case line of the word list, typed with any mix of capitals, is valid after normalising |
| Game.Award | src/game.ts:223-228 | the points are the word's length or twice it; for a non-empty word, twice exactly when the focused letters are as many as the active ones and more than one |
| Game.AwardMeansFullBoard | src/game.ts:216-229 | the bonus `2 × length` is paid exactly when the focused letters are all the active letters and more than one; a claim then leaves no active letter |
| Game.Spawned | src/game.ts:162-164 | a spawned letter is active, at y = 0, with speed 0.12, an x in [0, width) and an upper-case character |
| Game.LoopStep | src/game.ts:110-122 | one tick of `#handleLoop` on values: a new id is used exactly on frames with `frame % 80 == 0` |
| Game.LoopStepBounds | src/game.ts:110-122 | after one tick, lives are between 0 and before, and every kept letter is above the reap line and is a fallen letter of the grown list |
| Game.SpliceFirst | src/game.ts:178-185 | the inner loop finds the character iff the working list holds it, and leaves the list with its first copy spliced out |
| Game.FocusedBy | src/game.ts:173-188 | the walk over the letters with the working list yields exactly `Focus(letters, word)` |
| Game.ReapKeepsPool | src/game.ts:134-145 | after reaping, the survivors are in order, placed, above the reap line, have count entries; focused ids are active survivors; lives stay between 0 and before |
| Game.ClaimKeepsPool | src/game.ts:231 | the claim keeps order and placement; every focused id was a letter of the list |
| Game.Game.constructor | src/game.ts:26-46 | the field initialisers: no letters, empty counts, sets and word, score 0, lives 3, a fresh inactive clock; the input element keeps the `disabled` flag the page gave it |
| Game.Game.Start | src/game.ts:55-64 | `start` resets every field, enables the input and starts the clock at 60 fps with interval `floor(1000/60)`, frame 0, start and previous time `now`; current and delta time are kept |
| Game.Game.Stop | src/game.ts:66-72 | the clock stops and the input is disabled; the clock's frame, interval, rate, callback and all four times are kept |
| Game.Game.Reset | src/game.ts:74-92 | the clock stops with every other clock field kept; score 0, lives 3, and letters, counts, focused set, used words and current word empty; the input is enabled |
| Game.Game.AnimationFrame | src/animate.ts:45-63 | current time is the timestamp and delta time is measured from the old previous time; interval, callback, rate and start time are kept. A skipped frame changes nothing in the game and keeps the previous time. A step raises the frame by 1, sets the previous time to `Decide`'s, keeps score, used words and word, and never raises lives; with the callback set it leaves the game in `LoopStep` of the old state with frame old + 1 and `Decide`'s multiplier, and reschedules iff the clock was active and lives remain; without it the game is unchanged. The input ends disabled iff it was, or this step ran the callback and left no life |
| Game.Game.HandleLoop | src/game.ts:110-131 | the game moves to `LoopStep` of the old state; score, used words and word kept; lives never rise; the clock is untouched while lives remain and otherwise stops with every other clock field kept; the input ends disabled iff it was or no life is left |
| Game.Game.Tick | src/game.ts:111-122 | spawn exactly on frames with `frame % 80 == 0`, then refocus, fall and reap: the game moves to `LoopStep` of the old state and no letter is left at or below the reap line |
| Game.Game.AddLetter | src/game.ts:162-171 | one spawned letter is appended at the end and its character's count goes up by 1; nothing else changes |
| Game.Game.FocusInputLetters | src/game.ts:173-188 | the focused set is replaced by `Focus(letters, currentWord)`; letters and word are only read |
| Game.Game.AdvanceLetters | src/game.ts:117-120 | the letter list becomes `Advance(letters, multiplier)`; nothing else changes |
| Game.Game.RemoveDeactivatedLetters | src/game.ts:134-145 | letters, lives, counts and focused set become the filter's `ReapAll`; no letter at or below the reap line remains; lives never rise |
| Game.Game.DeactivateLetter | src/game.ts:147-152 | the letter stops being active, its character's count goes down by 1, and it leaves the focused set |
| Game.Game.RemoveLife | src/game.ts:154-155 | lives become `max(lives - 1, 0)` |
| Game.Game.HandleInputChange | src/game.ts:202-206 | the current word becomes the normalised input |
| Game.Game.CountActiveLetters | src/game.ts:216-221 | the `reduce` returns the number of active letters |
| Game.Game.HandleInputKeyDown | src/game.ts:209-241 | keys other than Enter change nothing. A used or unknown word changes nothing but the cue. An accepted word adds its award, claims the focused letters, decrements their counts, empties the focused set and is remembered. The word is cleared on Enter; score never decreases; lives never change |
| Game.Game.ClaimFocused | src/game.ts:231 | every focused letter is deactivated, in list order: the letters become `Claim`, the counts are released once per focused letter, the focused set is empty |
| Game.Game.Dispatch | src/game.ts:45-46 | a frame runs `animate` and never changes score or used words; an `input` or `keydown` event on a disabled input changes nothing; an `input` event on an enabled input sets the word to the normalised value; a disabled input stays disabled; the clock's interval is kept |
| Game.Game.Replay | src/game.ts:66-72 | over any run of frames and input events without `start` or `reset`, an input that was disabled, as `stop` leaves it at game over, stays disabled, and score and used words do not change |

## Left out

- Rendering and the DOM are not modelled: `#renderLetter`, `#displayGameOver`, `#toggleAnimationClass`, node creation and removal, the input element's focus and value, and the score and lives text. The constructor's element lookups are left out too. None of these is read back by the game. The input element's `disabled` flag does matter, because a disabled input delivers no events; it is modelled as `InputElement.disabled`, and the event wiring as `Dispatch`. The feedback of a key press is returned as a `Feedback` value instead.
- `src/main.ts` is not part of this model; it is page bootstrap.
- `Math.random()`, `requestAnimationFrame` and `performance.now()` are not modelled. The two random draws and the timestamps are parameters. "Schedule the next frame" is the boolean `AnimationFrame` returns.
- Positions, speed and the multiplier are Dafny reals. IEEE floating-point rounding is not modelled. Timestamps are integers.
- The word list file and its `\r\n` split are not modelled. The list is the parameter `words`, the set of its lines.
- `ValidateWord.ToLower` lower-cases ASCII letters only. JavaScript's `toLowerCase` also maps other letters, but the game's words are normalised to A..Z before lookup.
- Animate.Loop.Start: requires 0 < fps ≤ 1000. A larger rate gives interval 0, and `delta % 0` is NaN in JavaScript. The game only ever uses 60.
- Animate.Loop.Animate: requires a positive interval, which holds for every `animate` that `start` scheduled.
- Game.Game.Dispatch: delivers any frame it is given. Whether the browser would still schedule that frame after `stop` is not tracked.
- Host scheduling races are not modelled. After `stop`, an already scheduled frame may still run the callback once. `reset` followed by `start` may leave two frame chains running.
- Game.Game.HandleInputKeyDown: reads the typed word from `currentWord` rather than from the input element's value. `#handleInputChange` sets the two to the same string on every input event, so they differ only if the value is changed without one.
- Game.Game.HandleInputChange: `trim()` is not modelled separately. It removes only whitespace, which the letter filter removes anyway.
- Game.Game.FocusInputLetters: the focused set is assigned once, after the walk. The source clears it and adds to it during the walk, and nothing reads it in between.
- `#letterCounts` is modelled as written and is never read by the game. A letter that is claimed by a word and later reaped is decremented twice, so counts can go negative. No property relates the counts to the active letters.
- Game.Game.ClaimFocused: visits the focused letters in list order. A JavaScript `Set` iterates in insertion order, and `#focusInputLetters` inserts in list order, so the two agree.
