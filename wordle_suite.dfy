/**
  The engine's test suite as clients of the model. The methods replay the
  suite's test cases; cases that build the same game and check it after the
  same calls share one method. Every game is created on the target "APPLE"
  with a dictionary that accepts every word, except where a case says
  otherwise. Each method asserts what its cases expect, using only the
  contracts of the engine.
 */
module WordleSuite {
  import opened WordleGame

  method BuildLetterReturnsRecord()
  {
    var l := BuildLetter('a', Building);
    assert l == Letter('a', Building);
  }

  method ConstructorDefaults()
  {
    var game := new Wordle("APPLE", _ => true);
    assert game.maxGuesses == 6;
    assert game.guesses.Length == 6;
    assert game.currGuess == 0;
    assert game.word == "APPLE";
  }

  method ConstructorTakesMaxGuesses()
  {
    var game := new Wordle("APPLE", _ => true, 10);
    assert game.maxGuesses == 10;
  }

  method ScoringOfFirstLetter()
  {
    var game := new Wordle("APPLE", _ => true);
    var g := game.BuildGuessFromWord("A____");
    assert g[0].status == Correct;
    g := game.BuildGuessFromWord("E____");
    assert "APPLE"[4] == 'E';
    assert g[0].status == Present;
    g := game.BuildGuessFromWord("Z____");
    assert g[0].status == Absent;
  }

  method AppendGuessRefusedWhenNoGuessesLeft()
  {
    var game := new Wordle("APPLE", _ => true, 1);
    var r := game.AppendGuess("GUESS");
    assert r == Pass;
    r := game.AppendGuess("GUESS");
    assert r == Fail(GameOver);
  }

  method AppendGuessRefusesWrongLength()
  {
    var game := new Wordle("APPLE", _ => true);
    var r := game.AppendGuess("AB");
    assert r == Fail(InvalidLength);
  }

  method AppendGuessRefusesNonWord()
  {
    var game := new Wordle("APPLE", w => w != "GUESS");
    var r := game.AppendGuess("GUESS");
    assert r == Fail(NotAWord);
    assert game.currGuess == 0;
  }

  method AppendGuessIncrementsCurrGuess()
  {
    var game := new Wordle("APPLE", _ => true);
    var r := game.AppendGuess("GUESS");
    assert game.currGuess == 1;
  }

  method SolvedAfterCorrectGuess()
  {
    var game := new Wordle("APPLE", _ => true);
    var r := game.AppendGuess("APPLE");
    assert game.IsSolved();
    assert game.ShouldEndGame();
  }

  method NotSolvedAfterWrongGuess()
  {
    var game := new Wordle("APPLE", _ => true);
    var r := game.AppendGuess("GUESS");
    assert !game.IsSolved();
    assert !game.ShouldEndGame();
  }

  method EndsWhenNoGuessesLeft()
  {
    var game := new Wordle("APPLE", _ => true, 1);
    var r := game.AppendGuess("GUESS");
    assert game.ShouldEndGame();
  }

  method DoesNotEndBeforeAnyGuess()
  {
    var game := new Wordle("APPLE", _ => true);
    assert !game.ShouldEndGame();
  }
}
