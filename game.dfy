/** The game state of the App component and the transitions its key handlers
    make, as functions from the committed state to the next one. */
module Game {
  import opened Feedback

  const WordLength: nat := 5
  const TotalGuesses: nat := 6

  /** An empty row: five spaces stand for five unfilled slots. */
  const BlankRow: string := "     "

  /** The component's state variables:
      `guessedWords` the six rows, `currentWord` the row being typed,
      `letterCount` its filled slots, `wordCount` the active row,
      `gameOver`, and `correctWord` the secret. */
  datatype GameState = GameState(
    guessedWords: seq<string>,
    currentWord: string,
    letterCount: int,
    wordCount: int,
    gameOver: bool,
    correctWord: string)

  /** What a submission did; the won, lost and rejected cases are the ones
      that raise a notification. */
  datatype Outcome = Won | Lost | Rejected | Advanced

  datatype Step = Step(state: GameState, outcome: Outcome)

  predicate IsAsciiLetter(c: char)
  {
    ('a' <= c <= 'z') || ('A' <= c <= 'Z')
  }

  predicate IsLowerLetter(c: char)
  {
    'a' <= c <= 'z'
  }

  /** A fully typed guess: five lower-case letters. */
  predicate IsWord(w: string)
  {
    |w| == WordLength && forall j :: 0 <= j < |w| ==> IsLowerLetter(w[j])
  }

  /** Lower-casing of one character (A-Z only). */
  function LowerChar(c: char): (d: char)
  {
    if 'A' <= c <= 'Z' then (c as int - 'A' as int + 'a' as int) as char else c
  }

  /** Lower-casing of a whole row. */
  function Lower(w: string): string
  {
    seq(|w|, i requires 0 <= i < |w| => LowerChar(w[i]))
  }

  /** Lower-casing twice is lower-casing once, which is why handleAlphabet
      may lower-case the whole row after every key. */
  lemma LowerIdempotent(w: string)
    ensures Lower(Lower(w)) == Lower(w)
  {
  }

  /** The layout every reachable state has, whatever characters were typed:
      six rows of five slots, a five-slot current row whose slots from
      `letterCount` on are spaces, counters in range, and every row from the
      active one on still blank. */
  predicate WellFormed(s: GameState)
  {
    && |s.guessedWords| == TotalGuesses
    && (forall r :: 0 <= r < |s.guessedWords| ==> |s.guessedWords[r]| == WordLength)
    && |s.currentWord| == WordLength
    && 0 <= s.letterCount <= WordLength
    && (forall j :: s.letterCount <= j < |s.currentWord| ==> s.currentWord[j] == ' ')
    && 0 <= s.wordCount < TotalGuesses
    && (forall r :: s.wordCount <= r < |s.guessedWords| ==> s.guessedWords[r] == BlankRow)
  }

  /** WellFormed, and moreover what was typed is letters: the filled slots
      of the current row are lower-case letters and every stored row is a
      complete word. Keys that reach the handlers through the dispatcher
      keep this. */
  predicate Lettered(s: GameState)
  {
    && WellFormed(s)
    && (forall j :: 0 <= j < s.letterCount ==> IsLowerLetter(s.currentWord[j]))
    && (forall r :: 0 <= r < s.wordCount ==> IsWord(s.guessedWords[r]))
  }

  /** The state at mount and after a reset, with the secret supplied. */
  function Initial(secret: string): (s: GameState)
    ensures Lettered(s) && !s.gameOver
    ensures s.wordCount == 0 && s.letterCount == 0 && s.currentWord == BlankRow
    ensures |s.guessedWords| == TotalGuesses
    ensures forall r :: 0 <= r < TotalGuesses ==> s.guessedWords[r] == BlankRow
    ensures s.correctWord == secret
  {
    GameState(seq(TotalGuesses, _ => BlankRow), BlankRow, 0, 0, false, secret)
  }

  /** handleAlphabet: a full row ignores the key; otherwise the key goes into
      slot `letterCount`, the whole row is lower-cased, and the count grows. */
  function Alphabet(s: GameState, key: char): (t: GameState)
    requires WellFormed(s)
    ensures WellFormed(t)
    ensures s.letterCount == WordLength ==> t == s
    ensures s.letterCount < WordLength ==>
      && t.letterCount == s.letterCount + 1
      && t.currentWord[s.letterCount] == LowerChar(key)
      && (forall j :: 0 <= j < WordLength && j != s.letterCount ==>
            t.currentWord[j] == LowerChar(s.currentWord[j]))
      && t == s.(currentWord := t.currentWord, letterCount := t.letterCount)
    ensures Lettered(s) ==>
      forall j :: 0 <= j < WordLength && j != s.letterCount ==> t.currentWord[j] == s.currentWord[j]
    ensures Lettered(s) && IsAsciiLetter(key) ==> Lettered(t)
  {
    if s.letterCount == WordLength then s
    else
      s.(currentWord := Lower(s.currentWord[s.letterCount := key]),
         letterCount := s.letterCount + 1)
  }

  /** handleBackspace: an empty row ignores it; otherwise the last filled slot
      becomes a space and the count shrinks. */
  function Backspace(s: GameState): (t: GameState)
    requires WellFormed(s)
    ensures WellFormed(t)
    ensures s.letterCount == 0 ==> t == s
    ensures s.letterCount > 0 ==>
      && t.letterCount == s.letterCount - 1
      && |t.currentWord| == WordLength
      && t.currentWord[s.letterCount - 1] == ' '
      && (forall j :: 0 <= j < WordLength && j != s.letterCount - 1 ==>
            t.currentWord[j] == s.currentWord[j])
      && t == s.(currentWord := t.currentWord, letterCount := t.letterCount)
    ensures Lettered(s) ==> Lettered(t)
  {
    if s.letterCount == 0 then s
    else
      s.(currentWord := s.currentWord[s.letterCount - 1 := ' '],
         letterCount := s.letterCount - 1)
  }

  /** handleEnter, with its checks in the order handleEnter makes them: a match wins, then
      the last row loses (however few letters it has), then an incomplete row
      is rejected, and only then does the row advance. A won or lost row is
      not copied into `guessedWords`. */
  function Enter(s: GameState): (r: Step)
    requires WellFormed(s)
    ensures WellFormed(r.state)
    ensures r.outcome == Won <==> s.currentWord == s.correctWord
    ensures r.outcome == Lost <==>
      s.currentWord != s.correctWord && s.wordCount == TotalGuesses - 1
    ensures r.outcome == Rejected <==>
      s.currentWord != s.correctWord && s.wordCount != TotalGuesses - 1 && s.letterCount != WordLength
    ensures r.outcome in {Won, Lost} ==> r.state == s.(gameOver := true)
    ensures r.outcome == Rejected ==> r.state == s
    ensures r.outcome == Advanced ==>
      && s.letterCount == WordLength && s.wordCount < TotalGuesses - 1
      && r.state.wordCount == s.wordCount + 1
      && r.state.guessedWords[s.wordCount] == s.currentWord
      && (forall i :: 0 <= i < TotalGuesses && i != s.wordCount ==>
            r.state.guessedWords[i] == s.guessedWords[i])
      && r.state.letterCount == 0
      && r.state.currentWord == BlankRow
      && r.state.gameOver == s.gameOver
      && r.state.correctWord == s.correctWord
    ensures Lettered(s) ==> Lettered(r.state)
  {
    if s.currentWord == s.correctWord then
      Step(s.(gameOver := true), Won)
    else if s.wordCount == TotalGuesses - 1 then
      Step(s.(gameOver := true), Lost)
    else if s.letterCount != WordLength then
      Step(s, Rejected)
    else
      Step(s.(guessedWords := s.guessedWords[s.wordCount := s.currentWord],
              wordCount := s.wordCount + 1,
              letterCount := 0,
              currentWord := BlankRow),
           Advanced)
  }

  /** The test `/^[a-zA-Z]$/` applied to a key name. */
  predicate IsLetterKey(key: string)
  {
    |key| == 1 && IsAsciiLetter(key[0])
  }

  /** handleKeydown: once the game is over the listener is gone and no key
      does anything; otherwise Enter submits, Backspace deletes, a single
      letter is typed and every other key is ignored. */
  function Keydown(s: GameState, key: string): (t: GameState)
    requires WellFormed(s)
    ensures WellFormed(t)
    ensures Lettered(s) ==> Lettered(t)
    ensures s.gameOver ==> t == s
    ensures !s.gameOver && key == "Enter" ==> t == Enter(s).state
    ensures !s.gameOver && key == "Backspace" ==> t == Backspace(s)
    ensures !s.gameOver && IsLetterKey(key) ==> t == Alphabet(s, key[0])
    ensures key != "Enter" && key != "Backspace" && !IsLetterKey(key) ==> t == s
  {
    if s.gameOver then s
    else if key == "Enter" then Enter(s).state
    else if key == "Backspace" then Backspace(s)
    else if IsLetterKey(key) then Alphabet(s, key[0])
    else s
  }

  /** The word and the revealed flag WordLine gets for row `index`: the active
      row shows the current word, revealed only once the game is over; every
      other row shows its stored word, revealed. */
  function RowShown(s: GameState, index: nat): (string, bool)
    requires WellFormed(s) && index < TotalGuesses
  {
    if index == s.wordCount then (s.currentWord, s.gameOver)
    else (s.guessedWords[index], true)
  }

  /** The colours of the whole board. */
  function Board(s: GameState): (b: seq<seq<Mark>>)
    requires WellFormed(s)
    ensures |b| == TotalGuesses
    ensures forall i :: 0 <= i < TotalGuesses ==> |b[i]| == WordLength
    ensures !s.gameOver ==> forall j :: 0 <= j < WordLength ==> b[s.wordCount][j] == Plain
    ensures forall i, j :: 0 <= i < TotalGuesses && i != s.wordCount && 0 <= j < WordLength ==>
      b[i][j] == LetterMark(s.guessedWords[i][j], j, s.correctWord, true)
    ensures s.gameOver ==> forall j :: 0 <= j < WordLength ==>
      b[s.wordCount][j] == LetterMark(s.currentWord[j], j, s.correctWord, true)
  {
    seq(TotalGuesses, i requires 0 <= i < TotalGuesses =>
      WordLine(RowShown(s, i).0, s.correctWord, RowShown(s, i).1))
  }

  /** A secret with an upper-case letter can never be matched: the typed row
      holds only lower-case letters and spaces. */
  lemma UpperCaseSecretNeverWins(s: GameState, i: nat)
    requires Lettered(s)
    requires i < |s.correctWord| && 'A' <= s.correctWord[i] <= 'Z'
    ensures Enter(s).outcome != Won
  {
  }

  /** While the game is on, rows after the active one are blank and, for a
      secret without spaces, uncoloured; rows before it are coloured from
      their stored words. */
  lemma BoardDuringPlay(s: GameState)
    requires Lettered(s) && !s.gameOver && ' ' !in s.correctWord
    ensures forall i, j :: s.wordCount <= i < TotalGuesses && 0 <= j < WordLength ==>
      Board(s)[i][j] == Plain
  {
  }
}
