# Wordle game engine in Dafny

This project models the game engine of a single-player word-guessing game.
A hidden five-letter target word is fixed when a `Wordle` game is created.
The player appends guesses. Each guess is scored letter by letter against the target.
The game ends when the latest guess is the target or when every pre-allocated guess slot is used.

The model is stated against the assertions of the engine's Jest suite, `__tests__/wordle.test.js`.
The dictionary module (`src/words.js`) is not part of this model. It is injected:

- the target word that `getWord` would supply is a constructor argument;
- `isWord` is a constant field of type `string -> bool`.

Files:

- `wordle.dfy`, module `WordleGame`:
  - letters, statuses and the scoring function `ScoreGuess`;
  - the game state as a value (`GameState`), its invariant `ValidGame`, and the operations `Append`, `Solved`, `ShouldEnd` and `Play` on it;
  - the class `Wordle`, whose fields are the engine's (`word`, `maxGuesses`, the `guesses` array, `currGuess`) and whose methods are specified by those functions.
- `wordle_suite.dfy`, module `WordleSuite`: client methods that replay the suite's test cases, using only the class contracts. Cases that build the same game and check it after the same calls share one method. Every game is built on "APPLE"; `BuildLetterReturnsRecord` builds none.

Design points:

- A refused guess returns `Fail(GameOver)`, `Fail(InvalidLength)` or `Fail(NotAWord)` instead of throwing. The three checks happen in that order. A refused call leaves the game unchanged.
- Scoring is by containment: a guessed letter that is not at its right place but occurs anywhere in the target is `Present`, however many times it occurs. This is the engine's behaviour and is kept.
- The suite never appends after a win; the only refusal for a finished game it shows is after the slots run out (`__tests__/wordle.test.js:64-68`). The model's choice is to refuse as game over only then, so a solved game with slots left still takes guesses. `SolvedIsNotTerminal` states the consequence: a later wrong guess makes the game unsolved again.

## Model

| member | source | states |
|---|---|---|
| `WordleGame.BuildLetter` | __tests__/wordle.test.js:13-19 | the record holds exactly the character and the status it was given |
| `WordleGame.Wordle.constructor` | __tests__/wordle.test.js:22-43 | `maxGuesses` is the argument, or 6 when none is given; `guesses` has `maxGuesses` empty slots; `currGuess` is 0; `word` is the dictionary's target word; the game invariant holds |
| `WordleGame.ScoreGuess` | __tests__/wordle.test.js:45-61 | one letter per position, never `Building`; `Correct` iff the letter matches the target at that position; `Present` iff it does not match there but occurs in the target; `Absent` iff it does not occur in the target |
| `WordleGame.Wordle.BuildGuessFromWord` | __tests__/wordle.test.js:45-61 | the scoring of the guess against this game's `word`, with the per-position contract of `ScoreGuess` |
| `WordleGame.GuessedWordOfScore` | __tests__/wordle.test.js:45-61 | scoring keeps the guessed letters: the scored guess spells back the word that was scored |
| `WordleGame.Append` | __tests__/wordle.test.js:63-83 | refused as game over when no slot is left, whatever the word; otherwise refused for a length other than 5; otherwise refused when the dictionary rejects the word; success exactly when none of these applies; on success the invariant holds, the scored guess is in slot `currGuess`, `currGuess` grows by exactly one, the other slots, the word and `maxGuesses` are unchanged |
| `WordleGame.Wordle.AppendGuess` | __tests__/wordle.test.js:63-83 | keeps the invariant; a refusal returns the reason `Append` gives and changes neither `currGuess` nor any slot; a success leaves exactly the state `Append` gives |
| `WordleGame.AllCorrectIffMatches` | __tests__/wordle.test.js:85-96 | a guess as long as the target is scored all-`Correct` iff it is the target |
| `WordleGame.Wordle.IsSolved` | __tests__/wordle.test.js:85-96 | true iff a guess was made and the latest guess spells the game's `word` |
| `WordleGame.Solved` | __tests__/wordle.test.js:85-96 | solved iff a guess was made and the latest guess is the target word |
| `WordleGame.ShouldEnd` | __tests__/wordle.test.js:98-118 | true iff the latest guess is the target or every slot is used; false means a slot is left; before any guess it is false unless there are no slots at all |
| `WordleGame.Wordle.ShouldEndGame` | __tests__/wordle.test.js:98-118 | true iff the latest guess spells the game's `word` or `currGuess` has reached `maxGuesses` |
| `WordleGame.Play` | __tests__/wordle.test.js:64-68 | a run of appends that stops at the first refusal; its result keeps the invariant, the word and `maxGuesses`, and counts every word appended |
| `WordleGame.PlayAcceptable` | __tests__/wordle.test.js:78-82 | five-letter dictionary words, no more than the slots left, are all accepted, each scored into the next free slot in order, and the earlier slots are untouched |
| `WordleGame.ExhaustedWithoutMatch` | __tests__/wordle.test.js:104-108 | filling every slot of a fresh game with acceptable words that miss the target ends the game unsolved, and any further guess is refused as game over |
| `WordleGame.SolvedIsNotTerminal` | __tests__/wordle.test.js:63-68 | a solved game with a slot left accepts another acceptable word, and a wrong one makes it unsolved |

## Left out

- `WordleGame.Append` refuses as game over only when no slot is left; a solved game with slots left still takes guesses, since the suite never appends after a win.

- The Jest mocking machinery (module mocks, `jest.fn`, the top-level dynamic import) is test plumbing and has no counterpart.
- The word list and its lookup in `src/words.js` are not part of this model. `getWord` becomes the constructor's `target` argument, which must be five letters long as the dictionary promises. `isWord` becomes an arbitrary total function.
- `isWord` is a pure function. The suite's one-shot mock (`mockReturnValueOnce(false)`) answers differently on later calls; that statefulness is not modelled.
- Error objects and messages are not modelled. A refusal carries only which of the three causes applied.
- Upper-casing the target word when it is stored is not modelled: the suite only checks that `word` equals what the dictionary returned.
- `maxGuesses` is a `nat`. A negative argument, which would make the array allocation throw, is not modelled.
- Strings are sequences of `char`. The UTF-16 code-unit length used by the engine's `length` check is not distinguished from the character count.
- Terminal rendering, command-line input and the game loop are I/O around the engine and are not modelled.
- Scoring that accounts for how many times a letter occurs is not modelled, because the engine does not do it.
