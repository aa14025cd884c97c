/**
  The game engine of a single-player word-guessing game.

  A hidden five-letter target word is fixed when a game is created; the player
  appends guesses, each scored letter by letter against the target, until the
  latest guess is the target or the pre-allocated guess slots are used up.

  The dictionary the engine consults is injected: the target word is a
  constructor argument and the "is this an acceptable word" check is a
  function-valued field.
 */
module WordleGame {

  // ---------------------------------------------------------------------------
  // Small failure-carrying wrappers
  // ---------------------------------------------------------------------------

  datatype Option<+T> = None | Some(value: T)

  datatype Result<+T, +E> = Success(value: T) | Failure(error: E)

  datatype Outcome<+E> = Pass | Fail(error: E)

  // ---------------------------------------------------------------------------
  // Letters and guesses
  // ---------------------------------------------------------------------------

  /** Length of the target word and of every acceptable guess. */
  const WordLength: nat := 5

  /** Number of guess slots when the game is created without an argument. */
  const DefaultMaxGuesses: nat := 6

  /** Building means "not yet scored"; the other three are scoring outcomes. */
  datatype Status = Building | Correct | Present | Absent

  datatype Letter = Letter(letter: char, status: Status)

  /** One scored submission: a sequence of letters. */
  type Guess = seq<Letter>

  /** The three reasons a guess is refused, in the order they are tested. */
  datatype AppendError = GameOver | InvalidLength | NotAWord

  /** Builds a letter record holding exactly the given character and status. */
  function BuildLetter(ch: char, status: Status): (l: Letter)
    ensures l.letter == ch && l.status == status
  {
    Letter(ch, status)
  }

  /** The status of character `ch` guessed at position `i` against `target`. */
  function ScoreLetter(target: string, ch: char, i: nat): (status: Status)
  {
    if i < |target| && target[i] == ch then Correct
    else if ch in target then Present
    else Absent
  }

  /**
    Scores every position of `w` against `target`: the same letter at the same
    position is Correct, a letter occurring anywhere else in the target is
    Present, a letter not in the target is Absent. Containment ignores how
    often a letter occurs.
   */
  function ScoreGuess(target: string, w: string): (g: Guess)
    ensures |g| == |w|
    ensures forall i :: 0 <= i < |w| ==> g[i].letter == w[i] && g[i].status != Building
    ensures forall i :: 0 <= i < |w| ==>
      (g[i].status == Correct <==> i < |target| && w[i] == target[i])
    ensures forall i :: 0 <= i < |w| ==>
      (g[i].status == Present <==> !(i < |target| && w[i] == target[i]) && w[i] in target)
    ensures forall i :: 0 <= i < |w| ==> (g[i].status == Absent <==> w[i] !in target)
  {
    seq(|w|, i requires 0 <= i < |w| => BuildLetter(w[i], ScoreLetter(target, w[i], i)))
  }

  /** The word a guess spells, read back from its letters. */
  function GuessedWord(g: Guess): (w: string)
  {
    seq(|g|, i requires 0 <= i < |g| => g[i].letter)
  }

  /** Every letter of the guess is Correct. */
  predicate AllCorrect(g: Guess)
  {
    forall i :: 0 <= i < |g| ==> g[i].status == Correct
  }

  /** Scoring keeps the letters: reading a scored guess back gives the word scored. */
  lemma {:induction false} GuessedWordOfScore(target: string, w: string)
    ensures GuessedWord(ScoreGuess(target, w)) == w
  {
  }

  /** A guess as long as the target is scored all-Correct exactly when it is the target. */
  lemma AllCorrectIffMatches(target: string, w: string)
    requires |w| == |target|
    ensures AllCorrect(ScoreGuess(target, w)) <==> w == target
  {
  }

  // ---------------------------------------------------------------------------
  // The game state as a value, and the operations on it
  // ---------------------------------------------------------------------------

  /**
    The abstract state of a game: the target word, the number of guess slots,
    the slots themselves (None while unused) and how many guesses were made.
   */
  datatype GameState = GameState(word: string, maxGuesses: nat, slots: seq<Option<Guess>>, currGuess: nat)

  /** A slot holds the scoring, against `target`, of the word its letters spell. */
  predicate IsScoredGuess(target: string, g: Guess)
  {
    |g| == WordLength && g == ScoreGuess(target, GuessedWord(g))
  }

  /**
    The game invariant: a five-letter target, `maxGuesses` slots, at most
    `maxGuesses` guesses made, every slot below `currGuess` holding a scored
    guess and every slot from `currGuess` on still empty.
   */
  predicate ValidGame(s: GameState)
  {
    && |s.word| == WordLength
    && s.currGuess <= s.maxGuesses
    && |s.slots| == s.maxGuesses
    && (forall i :: 0 <= i < s.currGuess ==> s.slots[i].Some? && IsScoredGuess(s.word, s.slots[i].value))
    && (forall i :: s.currGuess <= i < |s.slots| ==> s.slots[i].None?)
  }

  /** The word of the most recent guess, if any guess was made. */
  function LatestWord(s: GameState): (w: Option<string>)
    requires ValidGame(s)
    ensures w.Some? <==> s.currGuess > 0
    ensures w.Some? ==> |w.value| == WordLength
  {
    if s.currGuess == 0 then None else Some(GuessedWord(s.slots[s.currGuess - 1].value))
  }

  /**
    Appending a guess: refused when no slot is left, then when the word is not
    five long, then when the dictionary rejects it; otherwise the scored guess
    goes into slot `currGuess` and `currGuess` moves on by one.
   */
  function Append(s: GameState, isWord: string -> bool, w: string): (r: Result<GameState, AppendError>)
    requires ValidGame(s)
    ensures s.currGuess >= s.maxGuesses ==> r == Failure(GameOver)
    ensures s.currGuess < s.maxGuesses && |w| != WordLength ==> r == Failure(InvalidLength)
    ensures s.currGuess < s.maxGuesses && |w| == WordLength && !isWord(w) ==> r == Failure(NotAWord)
    ensures r.Success? <==> s.currGuess < s.maxGuesses && |w| == WordLength && isWord(w)
    ensures r.Success? ==>
      && ValidGame(r.value)
      && r.value.word == s.word
      && r.value.maxGuesses == s.maxGuesses
      && r.value.currGuess == s.currGuess + 1
      && r.value.slots[s.currGuess] == Some(ScoreGuess(s.word, w))
      && (forall i :: 0 <= i < |s.slots| && i != s.currGuess ==> r.value.slots[i] == s.slots[i])
      && LatestWord(r.value) == Some(w)
  {
    if s.currGuess >= s.maxGuesses then Failure(GameOver)
    else if |w| != WordLength then Failure(InvalidLength)
    else if !isWord(w) then Failure(NotAWord)
    else
      var g := ScoreGuess(s.word, w);
      GuessedWordOfScore(s.word, w);
      Success(s.(slots := s.slots[s.currGuess := Some(g)], currGuess := s.currGuess + 1))
  }

  /**
    The game is solved when a guess was made and every letter of the latest
    one is Correct, which is the same as the latest guess being the target.
   */
  function Solved(s: GameState): (solved: bool)
    requires ValidGame(s)
    ensures solved <==> LatestWord(s) == Some(s.word)
  {
    if s.currGuess == 0 then false
    else
      var g := s.slots[s.currGuess - 1].value;
      GuessedWordOfScore(s.word, GuessedWord(g));
      AllCorrectIffMatches(s.word, GuessedWord(g));
      AllCorrect(g)
  }

  /** The game should end once it is solved or every slot is used. */
  function ShouldEnd(s: GameState): (end: bool)
    requires ValidGame(s)
    ensures end <==> LatestWord(s) == Some(s.word) || s.currGuess == s.maxGuesses
    ensures !end ==> s.currGuess < s.maxGuesses
    ensures s.currGuess == 0 ==> (end <==> s.maxGuesses == 0)
  {
    Solved(s) || s.currGuess == s.maxGuesses
  }

  /** A run of appends, stopping at the first one refused. */
  function Play(s: GameState, isWord: string -> bool, ws: seq<string>): (r: Result<GameState, AppendError>)
    requires ValidGame(s)
    ensures r.Success? ==> ValidGame(r.value) && r.value.word == s.word && r.value.maxGuesses == s.maxGuesses
    ensures r.Success? ==> r.value.currGuess == s.currGuess + |ws|
    decreases |ws|
  {
    if ws == [] then Success(s)
    else
      match Append(s, isWord, ws[0])
      case Failure(e) => Failure(e)
      case Success(next) => Play(next, isWord, ws[1..])
  }

  /** Every word of `ws` is five long and accepted by the dictionary. */
  predicate AllAcceptable(isWord: string -> bool, ws: seq<string>)
  {
    forall k :: 0 <= k < |ws| ==> |ws[k]| == WordLength && isWord(ws[k])
  }

  /**
    Acceptable words, no more than the slots left, are all taken: each lands,
    scored, in the next free slot, and the slots already used are untouched.
   */
  lemma {:induction false} PlayAcceptable(s: GameState, isWord: string -> bool, ws: seq<string>)
    requires ValidGame(s)
    requires AllAcceptable(isWord, ws)
    requires s.currGuess + |ws| <= s.maxGuesses
    ensures Play(s, isWord, ws).Success?
    ensures forall k :: 0 <= k < |ws| ==>
      Play(s, isWord, ws).value.slots[s.currGuess + k] == Some(ScoreGuess(s.word, ws[k]))
    ensures forall i :: 0 <= i < s.currGuess ==> Play(s, isWord, ws).value.slots[i] == s.slots[i]
    decreases |ws|
  {
    if ws != [] {
      var first := Append(s, isWord, ws[0]);
      assert first.Success?;
      var next, rest := first.value, ws[1..];
      assert AllAcceptable(isWord, rest) by {
        forall k | 0 <= k < |rest| ensures |rest[k]| == WordLength && isWord(rest[k]) {
          assert rest[k] == ws[k + 1];
        }
      }
      PlayAcceptable(next, isWord, rest);
      var last := Play(next, isWord, rest).value;
      assert Play(s, isWord, ws) == Play(next, isWord, rest);
      forall i | 0 <= i < s.currGuess ensures last.slots[i] == s.slots[i] {
        assert last.slots[i] == next.slots[i];
      }
      forall k | 0 <= k < |ws|
        ensures last.slots[s.currGuess + k] == Some(ScoreGuess(s.word, ws[k]))
      {
        if k == 0 {
          assert last.slots[s.currGuess] == next.slots[s.currGuess];
        } else {
          assert rest[k - 1] == ws[k];
          assert last.slots[next.currGuess + (k - 1)] == Some(ScoreGuess(next.word, rest[k - 1]));
        }
      }
    }
  }

  /**
    Using every slot of a fresh game on acceptable words that all miss the
    target ends the game unsolved, and any further guess is refused as game over.
   */
  lemma ExhaustedWithoutMatch(s: GameState, isWord: string -> bool, ws: seq<string>, extra: string)
    requires ValidGame(s) && s.currGuess == 0
    requires |ws| == s.maxGuesses
    requires AllAcceptable(isWord, ws)
    requires forall k :: 0 <= k < |ws| ==> ws[k] != s.word
    ensures Play(s, isWord, ws).Success?
    ensures ShouldEnd(Play(s, isWord, ws).value)
    ensures !Solved(Play(s, isWord, ws).value)
    ensures Append(Play(s, isWord, ws).value, isWord, extra) == Failure(GameOver)
  {
    PlayAcceptable(s, isWord, ws);
    if |ws| > 0 {
      FullGameMissed(Play(s, isWord, ws).value, ws[|ws| - 1]);
    }
  }

  /** A game whose every slot is used, the last on a word other than the target, is over and unsolved. */
  lemma FullGameMissed(g: GameState, w: string)
    requires ValidGame(g) && 0 < g.currGuess == g.maxGuesses
    requires g.slots[g.currGuess - 1] == Some(ScoreGuess(g.word, w))
    requires w != g.word
    ensures ShouldEnd(g) && !Solved(g)
  {
    GuessedWordOfScore(g.word, w);
    assert LatestWord(g) == Some(w);
  }

  /**
    A solved game with slots left still takes guesses: a further acceptable
    word that misses the target is stored and the game is no longer solved.
   */
  lemma SolvedIsNotTerminal(s: GameState, isWord: string -> bool, w: string)
    requires ValidGame(s) && Solved(s)
    requires s.currGuess < s.maxGuesses
    requires |w| == WordLength && isWord(w) && w != s.word
    ensures Append(s, isWord, w).Success?
    ensures !Solved(Append(s, isWord, w).value)
  {
  }

  // ---------------------------------------------------------------------------
  // The engine object
  // ---------------------------------------------------------------------------

  /**
    A game in progress. The target word, the slot count and the dictionary
    check are fixed at construction; appending a guess writes one slot of the
    pre-allocated `guesses` array and advances `currGuess`.
   */
  class Wordle {
    const word: string
    const maxGuesses: nat
    const isWord: string -> bool
    const guesses: array<Option<Guess>>
    var currGuess: nat

    /** The fields read as a game-state value. */
    function State(): (s: GameState)
      reads this, guesses
    {
      GameState(word, maxGuesses, guesses[..], currGuess)
    }

    ghost predicate Valid()
      reads this, guesses
    {
      ValidGame(State())
    }

    /**
      A fresh game on `target` (the dictionary's chosen word) with `maxGuesses`
      empty slots and no guess made.
     */
    constructor (target: string, isWord: string -> bool, maxGuesses: nat := DefaultMaxGuesses)
      requires |target| == WordLength
      ensures Valid() && fresh(guesses)
      ensures word == target && this.maxGuesses == maxGuesses && this.isWord == isWord
      ensures guesses.Length == maxGuesses && currGuess == 0
      ensures forall i :: 0 <= i < guesses.Length ==> guesses[i] == None
    {
      word := target;
      this.maxGuesses := maxGuesses;
      this.isWord := isWord;
      guesses := new Option<Guess>[maxGuesses](_ => None);
      currGuess := 0;
    }

    /** Scores `w` against this game's target word. */
    function BuildGuessFromWord(w: string): (g: Guess)
      reads this
      ensures g == ScoreGuess(word, w)
    {
      ScoreGuess(word, w)
    }

    /**
      Appends guess `w`. On refusal nothing changes and the reason is
      returned; otherwise the new state is the one `Append` describes.
     */
    method AppendGuess(w: string) returns (r: Outcome<AppendError>)
      requires Valid()
      modifies this, guesses
      ensures Valid()
      ensures r.Fail? ==> Append(old(State()), isWord, w) == Failure(r.error)
      ensures r.Fail? ==> currGuess == old(currGuess) && guesses[..] == old(guesses[..])
      ensures r.Pass? ==> Append(old(State()), isWord, w) == Success(State())
    {
      if currGuess >= maxGuesses {
        return Fail(GameOver);
      }
      if |w| != WordLength {
        return Fail(InvalidLength);
      }
      if !isWord(w) {
        return Fail(NotAWord);
      }
      ghost var before := State();
      guesses[currGuess] := Some(BuildGuessFromWord(w));
      currGuess := currGuess + 1;
      assert State() == Append(before, isWord, w).value;
      r := Pass;
    }

    /** Whether the latest guess is the target. */
    function IsSolved(): (solved: bool)
      reads this, guesses
      requires Valid()
      ensures solved <==> LatestWord(State()) == Some(word)
    {
      Solved(State())
    }

    /** Whether the game is solved or out of guesses. */
    function ShouldEndGame(): (end: bool)
      reads this, guesses
      requires Valid()
      ensures end <==> LatestWord(State()) == Some(word) || currGuess == maxGuesses
    {
      ShouldEnd(State())
    }
  }
}
