# Wordle game logic in Dafny

This project models the game logic of a browser Wordle clone whose whole program is
one React component, `src/App.jsx`. The model covers:

- **The game state**: six stored rows `guessedWords` (blank rows are five spaces),
  `currentWord` (the row being typed, padded with spaces), `letterCount` (the slots
  filled), `wordCount` (the active row), `gameOver`, and `correctWord` (the secret).
- **The three key handlers**: typing a letter, deleting the last one, and submitting
  with Enter.
- **The keydown dispatcher and the reset button.**
- **The board**: which row is revealed, and the green/yellow/plain colour of each
  letter box.

Modules:

- `Feedback` (`feedback.dfy`): the colour rule of `WordLine` and `LetterBox`, as pure
  functions with lemmas.
- `Game` (`game.dfy`): the state as a datatype, its two invariants, and each handler
  as a function from the committed state to the next one. `WellFormed` is the layout
  invariant. `Lettered` adds that everything typed is lower-case letters and every
  stored row is a complete word. The module also holds the board the view renders.
- `Play` (`play.dfy`): key sequences delivered one at a time. It holds lemmas about
  whole rounds: typing a word, six wrong guesses losing, the secret winning, and the
  "crane" example.
- `App` (`app.dfy`): the component as a class `Wordle`. The component's state
  variables are its fields, and each handler is a method that updates them in place.
  Each method is proved to produce exactly the state the matching `Game` function
  computes.

The secret word is a parameter of the constructor and of `HandleReset`. In the program
it comes from a network call and a random choice, which are not modelled.

Behaviour of the program that the model reproduces and that is easy to miss:

- **Exact comparison.** Enter compares the typed row with the secret exactly, so the
  comparison is case-sensitive. Typed letters are lower-cased and the secret is not.
  A secret containing an upper-case letter therefore can never be matched
  (`Game.UpperCaseSecretNeverWins`).
- **Check order.** Enter checks for a win first, then for the last row, and only then
  for an incomplete row. So pressing Enter on the sixth row loses the game however
  few letters were typed.
- **Won or lost rows are not stored.** On a win or a loss the row is not copied into
  `guessedWords`. It stays in `currentWord` at index `wordCount`, and it is shown
  revealed because `gameOver` is set.
- **Per-letter colours.** Each letter is judged on its own. The program colours
  "trace" against "crane" plain, green, green, yellow, green, because r, a and e are
  in place and c is elsewhere in the secret (`Play.TraceAgainstCrane`).

## Model

| member | source | states |
|---|---|---|
| Feedback.LetterMark | src/App.jsx:173-182 | a box is green iff the row is revealed and the letter is the secret's letter at that index; yellow iff revealed, not at that index, and somewhere in the secret; plain iff not revealed or the letter is not in the secret |
| Feedback.MarksFrom | src/App.jsx:173-185 | the marks of the row from slot k on: one per letter, in order, each the letter's own mark at its own index |
| Feedback.WordLine | src/App.jsx:170-188 | a row gets exactly one mark per letter, and the mark at i is that of letter i at index i |
| Feedback.HiddenRowIsPlain | src/App.jsx:180-181 | an unrevealed row shows no colour at all |
| Feedback.RepeatedLettersJudgedAlike | src/App.jsx:173-182 | two positions holding the same letter, neither in place, get the same colour (no duplicate-letter accounting) |
| Feedback.SecretIsAllGreen | src/App.jsx:174-180 | the secret itself, revealed, is green in every box |
| Feedback.BlankRowIsPlain | src/App.jsx:173-182 | a blank row shows no colour when the secret has no space |
| Game.Initial | src/App.jsx:9-16 | the initial state has six blank rows, a blank current row, both counters 0 and the game on, and it meets both invariants |
| Game.Alphabet | src/App.jsx:78-89 | a full row ignores the key; otherwise the key, lower-cased, lands in slot letterCount, the count grows by one, the other slots are only lower-cased (unchanged in a lettered state), nothing else changes; the layout invariant is kept, and the letter invariant for ASCII letters |
| Game.LowerIdempotent | src/App.jsx:84 | lower-casing a row twice gives the same row as lower-casing it once, so re-lower-casing the whole row on every key only affects the new key |
| Game.Backspace | src/App.jsx:63-76 | an empty row ignores it; otherwise slot letterCount-1 becomes a space, the count drops by one, every other slot and field is unchanged; both invariants are kept |
| Game.Enter | src/App.jsx:34-61 | won iff the row equals the secret; lost iff not and this is the last row, whatever letterCount is; rejected iff neither and the row is incomplete. Won and lost only set gameOver; rejected changes nothing; advancing stores the row at wordCount, leaves the other rows, moves to the next row and clears the current one; both invariants are kept |
| Game.Keydown | src/App.jsx:92-107 | once the game is over no key changes anything; Enter, Backspace and a single ASCII letter reach their handlers; every other key is ignored; both invariants are kept |
| Game.Board | src/App.jsx:134-153 | six rows of five marks; the active row is uncoloured while the game is on and coloured from the current word once it is over; every other row is coloured from its stored word, revealed |
| Game.UpperCaseSecretNeverWins | src/App.jsx:35 | in a lettered state a secret with an upper-case letter never compares equal to the typed row |
| Game.BoardDuringPlay | src/App.jsx:134-153 | while the game is on, the active row and the blank rows after it show no colour (secret without spaces) |
| Play.Run | src/App.jsx:91-113 | delivering keys one by one keeps both invariants and the secret, never moves back a row, and changes nothing once the game is over |
| Play.TypeRest | src/App.jsx:78-89 | typing the rest of a word from slot k fills the current row with that word and changes nothing else |
| Play.TypeAndEnter | src/App.jsx:34-61 | typing a word into an empty row and pressing Enter submits exactly that word |
| Play.WrongGuessesAdvance | src/App.jsx:52-60 | up to five wrong guesses from a fresh game are stored in rows 0.., the active row is the next one, and the game goes on |
| Play.SixWrongGuessesLose | src/App.jsx:41-45 | six wrong guesses lose on the sixth submission and not before; the sixth word stays as the current row at index 5 |
| Play.CorrectGuessWins | src/App.jsx:35-39 | typing the secret and pressing Enter wins on the active row without storing it or advancing, and that row turns all green |
| Play.StoredRowsShown | src/App.jsx:145-151 | every row before the active one is shown revealed and coloured from the word stored in it |
| Play.WinAfterWrongGuesses | src/App.jsx:34-61 | wrong guesses followed by the secret win on the next row; the wrong guesses are shown coloured and the winning row all green |
| Play.TraceAgainstCrane | src/App.jsx:173-182 | "trace" against "crane" is coloured plain, green, green, yellow, green |
| Play.CraneScenario | src/App.jsx:34-61 | secret "crane": "trace" is stored in row 0 with those colours, then "crane" wins in row 1, all green |
| Play.SixthLetterIgnored | src/App.jsx:79 | a letter key pressed with a full row changes nothing |
| App.Wordle.constructor | src/App.jsx:9-16 | the object starts in the initial state for the given secret |
| App.Wordle.HandleEnter | src/App.jsx:34-61 | the fields end as Game.Enter computes, and the returned outcome is its outcome |
| App.Wordle.HandleBackspace | src/App.jsx:63-76 | the fields end as Game.Backspace computes |
| App.Wordle.HandleAlphabet | src/App.jsx:78-89 | the fields end as Game.Alphabet computes |
| App.Wordle.HandleKeydown | src/App.jsx:92-113 | the fields end as Game.Keydown computes, and the letter invariant is kept |
| App.Wordle.HandleReset | src/App.jsx:119-126 | six blank rows, counters 0, gameOver false, the new secret in place |

## Left out

- Fetching the secret (src/App.jsx:18-27): the HTTP request and the random choice are network I/O and randomness. The secret is a parameter instead. In the program the secret is the empty string until the first request resolves; the model starts with the secret already known.
- Notifications (the win and loss toasts and the "five letters" alert) and console logging are UI output only. The model returns an `Outcome` tag from Enter instead.
- React mechanics: asynchronous and batched state updates, and handlers reading a stale `letterCount` or `wordCount`. Each event is applied atomically to the committed state.
- Removing the keydown listener when the game ends is modelled as every key being ignored while `gameOver` holds.
- HandleReset: the new secret arrives asynchronously in the program. Until it does, keys are accepted and compared against the previous secret. The model installs the new secret together with the other fields.
- Game.Alphabet: the model fixes a locale in which `toLocaleLowerCase` turns A–Z into a–z and leaves other characters alone. In a Turkish or Azeri locale the program turns the key `'I'` into `'ı'` (U+0131), which is not a–z, so the `Lettered` invariant and the lemmas that rest on it (`Game.UpperCaseSecretNeverWins`, the `Play` lemmas) hold only for such a fixed locale. Locale-aware lower-casing of non-ASCII characters, which can change a string's length, is not modelled either. The same holds for App.Wordle.HandleAlphabet.
- JavaScript strings are sequences of UTF-16 code units. The model's strings are sequences of Dafny characters, which is the same thing for the ASCII letters and spaces the game handles.
- Rendering (JSX markup, CSS classes, the reset button's `blur`) is left out, apart from the choice of revealed row and the colour of each box.
