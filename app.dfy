/** The App component as an object: its state variables are fields, and each
    key handler updates them in place. Every handler is proved to leave the
    object in the state the corresponding function of Game computes. */
module App {
  import opened Game

  class Wordle {
    var guessedWords: seq<string>
    var correctWord: string
    var wordCount: int
    var letterCount: int
    var currentWord: string
    var gameOver: bool

    /** The fields as one value. */
    function State(): GameState
      reads this
    {
      GameState(guessedWords, currentWord, letterCount, wordCount, gameOver, correctWord)
    }

    ghost predicate Valid()
      reads this
    {
      WellFormed(State())
    }

    /** The initial state, with the secret supplied by the caller. */
    constructor (secret: string)
      ensures Valid() && Lettered(State())
      ensures State() == Initial(secret)
    {
      guessedWords := seq(TotalGuesses, _ => BlankRow);
      correctWord := secret;
      wordCount := 0;
      letterCount := 0;
      currentWord := BlankRow;
      gameOver := false;
    }

    method HandleEnter() returns (outcome: Outcome)
      requires Valid()
      modifies this
      ensures Valid()
      ensures State() == Enter(old(State())).state
      ensures outcome == Enter(old(State())).outcome
    {
      if currentWord == correctWord {
        gameOver := true;
        return Won;
      }
      if currentWord != correctWord && wordCount == TotalGuesses - 1 {
        gameOver := true;
        return Lost;
      }
      if letterCount != WordLength {
        return Rejected;
      }
      guessedWords := guessedWords[wordCount := currentWord];
      wordCount := wordCount + 1;
      letterCount := 0;
      currentWord := BlankRow;
      outcome := Advanced;
    }

    method HandleBackspace()
      requires Valid()
      modifies this
      ensures Valid()
      ensures State() == Backspace(old(State()))
    {
      if letterCount == 0 {
        return;
      }
      currentWord := currentWord[letterCount - 1 := ' '];
      letterCount := letterCount - 1;
    }

    method HandleAlphabet(key: char)
      requires Valid()
      modifies this
      ensures Valid()
      ensures State() == Alphabet(old(State()), key)
    {
      if letterCount == WordLength {
        return;
      }
      var row := currentWord[letterCount := key];
      currentWord := Lower(row);
      letterCount := letterCount + 1;
    }

    /** The keydown listener; it is detached while the game is over. */
    method HandleKeydown(key: string)
      requires Valid()
      modifies this
      ensures Valid()
      ensures State() == Keydown(old(State()), key)
      ensures old(Lettered(State())) ==> Lettered(State())
    {
      if gameOver {
        return;
      }
      if key == "Enter" {
        var _ := HandleEnter();
      } else if key == "Backspace" {
        HandleBackspace();
      } else if IsLetterKey(key) {
        HandleAlphabet(key[0]);
      }
    }

    /** The reset button: six blank rows, counters back to 0, the game on
        again, and the new secret in place. */
    method HandleReset(secret: string)
      modifies this
      ensures Valid() && Lettered(State())
      ensures State() == Initial(secret)
    {
      guessedWords := seq(TotalGuesses, _ => BlankRow);
      correctWord := secret;
      currentWord := BlankRow;
      wordCount := 0;
      letterCount := 0;
      gameOver := false;
    }
  }
}
