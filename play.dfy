/** Sequences of key presses delivered one at a time to the dispatcher, and
    what whole rounds of typing and submitting do. */
module Play {
  import opened Feedback
  import opened Game

  /** The state after the keys are delivered in order. A run keeps the
      invariants, never changes the secret, never moves back a row, and does
      nothing at all once the game is over. */
  function Run(s: GameState, keys: seq<string>): (t: GameState)
    requires WellFormed(s)
    ensures WellFormed(t)
    ensures Lettered(s) ==> Lettered(t)
    ensures t.correctWord == s.correctWord
    ensures s.wordCount <= t.wordCount
    ensures s.gameOver ==> t == s
    decreases |keys|
  {
    if keys == [] then s else Run(Keydown(s, keys[0]), keys[1..])
  }

  lemma {:induction false} RunAppend(s: GameState, a: seq<string>, b: seq<string>)
    requires WellFormed(s)
    ensures Run(s, a + b) == Run(Run(s, a), b)
    decreases |a|
  {
    if a == [] {
      assert a + b == b;
    } else {
      assert (a + b)[0] == a[0];
      assert (a + b)[1..] == a[1..] + b;
      RunAppend(Keydown(s, a[0]), a[1..], b);
    }
  }

  /** The key names that type a word, one letter per key. */
  function LetterKeys(w: string): seq<string>
  {
    seq(|w|, i requires 0 <= i < |w| => [w[i]])
  }

  /** Typing a word and pressing Enter. */
  function GuessKeys(w: string): seq<string>
  {
    LetterKeys(w) + ["Enter"]
  }

  /** Typing and submitting each word in turn. */
  function RoundKeys(ws: seq<string>): seq<string>
    decreases |ws|
  {
    if ws == [] then [] else RoundKeys(ws[..|ws| - 1]) + GuessKeys(ws[|ws| - 1])
  }

  /** Typing the rest of a word, from slot `k` on, fills the current row with
      it and changes nothing else. */
  lemma {:induction false} TypeRest(s: GameState, w: string, k: nat)
    requires Lettered(s) && !s.gameOver && IsWord(w)
    requires s.letterCount == k
    requires forall j :: 0 <= j < k ==> s.currentWord[j] == w[j]
    ensures Run(s, LetterKeys(w)[k..]) == s.(currentWord := w, letterCount := WordLength)
    decreases WordLength - k
  {
    if k < WordLength {
      var key := LetterKeys(w)[k];
      assert key == [w[k]] && IsLetterKey(key);
      var s' := Keydown(s, key);
      assert s' == Alphabet(s, w[k]);
      assert LowerChar(w[k]) == w[k];
      assert LetterKeys(w)[k..][1..] == LetterKeys(w)[k + 1..];
      TypeRest(s', w, k + 1);
    } else {
      assert s.currentWord == w;
    }
  }

  /** Typing a word into an empty row and pressing Enter submits exactly that
      word. */
  lemma TypeAndEnter(s: GameState, w: string)
    requires Lettered(s) && !s.gameOver && IsWord(w) && s.letterCount == 0
    ensures Run(s, GuessKeys(w)) == Enter(s.(currentWord := w, letterCount := WordLength)).state
  {
    TypeRest(s, w, 0);
    assert LetterKeys(w)[0..] == LetterKeys(w);
    RunAppend(s, LetterKeys(w), ["Enter"]);
  }

  /** Up to five wrong guesses from a fresh game: each is stored in its row,
      the active row is the next one, and the game goes on. */
  lemma {:induction false} WrongGuessesAdvance(secret: string, ws: seq<string>)
    requires |ws| < TotalGuesses
    requires forall i :: 0 <= i < |ws| ==> IsWord(ws[i]) && ws[i] != secret
    ensures var t := Run(Initial(secret), RoundKeys(ws));
      && !t.gameOver
      && t.wordCount == |ws|
      && t.letterCount == 0
      && t.currentWord == BlankRow
      && forall i :: 0 <= i < |ws| ==> t.guessedWords[i] == ws[i]
    decreases |ws|
  {
    if ws != [] {
      var front := ws[..|ws| - 1];
      var w := ws[|ws| - 1];
      WrongGuessesAdvance(secret, front);
      var s := Run(Initial(secret), RoundKeys(front));
      RunAppend(Initial(secret), RoundKeys(front), GuessKeys(w));
      TypeAndEnter(s, w);
      var typed := s.(currentWord := w, letterCount := WordLength);
      assert Enter(typed).outcome == Advanced;
    }
  }

  /** Six wrong guesses from a fresh game lose it on the sixth submission and
      not before; the sixth word stays in the current row. */
  lemma SixWrongGuessesLose(secret: string, ws: seq<string>)
    requires |ws| == TotalGuesses
    requires forall i :: 0 <= i < |ws| ==> IsWord(ws[i]) && ws[i] != secret
    ensures !Run(Initial(secret), RoundKeys(ws[..TotalGuesses - 1])).gameOver
    ensures var t := Run(Initial(secret), RoundKeys(ws));
      && t.gameOver
      && t.wordCount == TotalGuesses - 1
      && t.currentWord == ws[TotalGuesses - 1]
      && forall i :: 0 <= i < TotalGuesses - 1 ==> t.guessedWords[i] == ws[i]
  {
    var front := ws[..TotalGuesses - 1];
    var w := ws[TotalGuesses - 1];
    WrongGuessesAdvance(secret, front);
    var s := Run(Initial(secret), RoundKeys(front));
    RunAppend(Initial(secret), RoundKeys(front), GuessKeys(w));
    TypeAndEnter(s, w);
    var typed := s.(currentWord := w, letterCount := WordLength);
    assert Enter(typed).outcome == Lost;
  }

  /** Typing the secret into an empty row and pressing Enter wins: the game is
      over, the active row stays where it is, and its boxes all turn green. */
  lemma CorrectGuessWins(s: GameState)
    requires Lettered(s) && !s.gameOver && s.letterCount == 0 && IsWord(s.correctWord)
    ensures var t := Run(s, GuessKeys(s.correctWord));
      && t.gameOver
      && t.wordCount == s.wordCount
      && t.guessedWords == s.guessedWords
      && t.currentWord == s.correctWord
      && Board(t)[t.wordCount] == seq(WordLength, _ => Green)
  {
    TypeAndEnter(s, s.correctWord);
    var t := Run(s, GuessKeys(s.correctWord));
    SecretIsAllGreen(s.correctWord);
    assert Board(t)[t.wordCount] == WordLine(t.currentWord, t.correctWord, true);
  }

  /** Rows before the active one are shown revealed, coloured from the words
      stored in them. */
  lemma StoredRowsShown(t: GameState, ws: seq<string>)
    requires WellFormed(t) && |ws| <= t.wordCount
    requires forall i :: 0 <= i < |ws| ==> t.guessedWords[i] == ws[i]
    ensures forall i :: 0 <= i < |ws| ==> Board(t)[i] == WordLine(ws[i], t.correctWord, true)
  {
  }

  /** Wrong guesses followed by the secret, from a fresh game: the game is
      won on the row after the wrong guesses, which are shown coloured, and
      the winning row turns all green. */
  lemma WinAfterWrongGuesses(secret: string, ws: seq<string>)
    requires |ws| < TotalGuesses && IsWord(secret)
    requires forall i :: 0 <= i < |ws| ==> IsWord(ws[i]) && ws[i] != secret
    ensures var t := Run(Initial(secret), RoundKeys(ws + [secret]));
      && t.gameOver
      && t.wordCount == |ws|
      && (forall i :: 0 <= i < |ws| ==> Board(t)[i] == WordLine(ws[i], secret, true))
      && Board(t)[|ws|] == seq(WordLength, _ => Green)
  {
    var all := ws + [secret];
    assert all[..|all| - 1] == ws && all[|all| - 1] == secret;
    assert RoundKeys(all) == RoundKeys(ws) + GuessKeys(secret);
    WrongGuessesAdvance(secret, ws);
    var s := Run(Initial(secret), RoundKeys(ws));
    RunAppend(Initial(secret), RoundKeys(ws), GuessKeys(secret));
    var t := Run(s, GuessKeys(secret));
    assert Run(Initial(secret), RoundKeys(all)) == t;
    CorrectGuessWins(s);
    StoredRowsShown(t, ws);
  }

  /** The colours of "trace" against the secret "crane": its r, a and e are
      in place, its c is elsewhere in the secret, and there is no t. */
  lemma TraceAgainstCrane(secret: string, guess: string)
    requires secret == "crane" && guess == "trace"
    ensures WordLine(guess, secret, true) == [Plain, Green, Green, Yellow, Green]
  {
  }

  /** With the secret "crane", "trace" is stored in row 0 with the colours
      above, and "crane" then wins in row 1, which turns all green. */
  lemma CraneScenario(secret: string, guess: string)
    requires secret == "crane" && guess == "trace"
    ensures var t := Run(Initial(secret), RoundKeys([guess, secret]));
      && t.gameOver
      && t.wordCount == 1
      && Board(t)[0] == [Plain, Green, Green, Yellow, Green]
      && Board(t)[1] == [Green, Green, Green, Green, Green]
  {
    assert IsWord(guess) && IsWord(secret) && guess != secret;
    assert [guess] + [secret] == [guess, secret];
    WinAfterWrongGuesses(secret, [guess]);
    TraceAgainstCrane(secret, guess);
  }

  /** Pressing a sixth letter key in a full row changes nothing. */
  lemma SixthLetterIgnored(s: GameState, key: string)
    requires WellFormed(s) && s.letterCount == WordLength && IsLetterKey(key)
    ensures Keydown(s, key) == s
  {
  }
}
