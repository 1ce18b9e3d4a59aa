/** The colour rule of the board: WordLine decides, per letter of a row, whether
    its box is drawn green or yellow, and LetterBox picks the background from
    those two flags. */
module Feedback {

  /** The background a letter box is drawn with. */
  datatype Mark = Green | Yellow | Plain

  /** LetterBox's class choice: green takes precedence over yellow, and a box
      with neither flag keeps the plain background. */
  function BoxColour(green: bool, yellow: bool): Mark
  {
    if green then Green else if yellow then Yellow else Plain
  }

  /** `letter === correctWord[index]`: reading past the end of the secret
      yields `undefined`, which equals no letter. */
  predicate HasCorrectLocation(letter: char, index: nat, secret: string)
  {
    index < |secret| && secret[index] == letter
  }

  /** The colour of the letter at `index` of a row. Each letter is judged on
      its own: there is no accounting for letters that occur more than once. */
  function LetterMark(letter: char, index: nat, secret: string, revealed: bool): (m: Mark)
    ensures m == Green <==> revealed && index < |secret| && secret[index] == letter
    ensures m == Yellow <==> revealed && !(index < |secret| && secret[index] == letter) && letter in secret
    ensures m == Plain <==> !revealed || letter !in secret
  {
    var hasCorrectLocation := HasCorrectLocation(letter, index, secret);
    var hasCorrectLetter := letter in secret;
    BoxColour(hasCorrectLocation && hasCorrectLetter && revealed,
              !hasCorrectLocation && hasCorrectLetter && revealed)
  }

  /** The marks of `word[k..]`, the tail of the `map` over the row's letters. */
  function MarksFrom(word: string, secret: string, revealed: bool, k: nat): (r: seq<Mark>)
    requires k <= |word|
    ensures |r| == |word| - k
    ensures forall j :: 0 <= j < |r| ==> r[j] == LetterMark(word[k + j], k + j, secret, revealed)
    decreases |word| - k
  {
    if k == |word| then []
    else [LetterMark(word[k], k, secret, revealed)] + MarksFrom(word, secret, revealed, k + 1)
  }

  /** The marks of a whole row, one per letter, in order. */
  function WordLine(word: string, secret: string, revealed: bool): (r: seq<Mark>)
    ensures |r| == |word|
    ensures forall i :: 0 <= i < |word| ==> r[i] == LetterMark(word[i], i, secret, revealed)
  {
    MarksFrom(word, secret, revealed, 0)
  }

  /** A row that is not revealed shows no colour at all. */
  lemma HiddenRowIsPlain(word: string, secret: string)
    ensures forall i :: 0 <= i < |word| ==> WordLine(word, secret, false)[i] == Plain
  {
  }

  /** Two positions holding the same letter, neither at its place in the
      secret, get the same colour: a letter repeated in the guess is never
      told apart from its other occurrences. */
  lemma RepeatedLettersJudgedAlike(word: string, secret: string, revealed: bool, i: nat, j: nat)
    requires i < |word| && j < |word| && word[i] == word[j]
    requires !HasCorrectLocation(word[i], i, secret) && !HasCorrectLocation(word[j], j, secret)
    ensures WordLine(word, secret, revealed)[i] == WordLine(word, secret, revealed)[j]
  {
  }

  /** Revealing the secret itself colours every box green. */
  lemma SecretIsAllGreen(secret: string)
    ensures WordLine(secret, secret, true) == seq(|secret|, _ => Green)
  {
  }

  /** A row of blanks shows no colour as long as the secret has no space. */
  lemma BlankRowIsPlain(word: string, secret: string, revealed: bool)
    requires forall i :: 0 <= i < |word| ==> word[i] == ' '
    requires ' ' !in secret
    ensures WordLine(word, secret, revealed) == seq(|word|, _ => Plain)
  {
  }
}
