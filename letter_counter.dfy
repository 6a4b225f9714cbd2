/** `letter_counter` from demo_strands_basic.py: count how often one letter
    occurs in a word, ignoring case. */
module LetterCounter {
  import opened Common
  import opened PyText

  /** A tool argument as it reaches the function: Python does not enforce the
      `str` annotation, so a value of any other type can arrive. */
  datatype Arg = Str(s: string) | NotStr

  const SingleCharacterMessage: string := "The 'letter' parameter must be a single character"

  /** Returns 0 when either argument is not a string (checked first), raises
      ValueError when `letter` is not exactly one character, and otherwise
      counts the positions of the word whose lower-cased character is the
      lower-cased letter. */
  function LetterCounter(word: Arg, letter: Arg): (r: Result<nat>)
    ensures (word.NotStr? || letter.NotStr?) ==> r == Ok(0)
    ensures word.Str? && letter.Str? && |letter.s| != 1 ==>
      r == Raised(ValueError(SingleCharacterMessage))
    ensures word.Str? && letter.Str? && |letter.s| == 1 ==>
      r == Ok(multiset(Lower(word.s))[LowerChar(letter.s[0])])
  {
    if word.NotStr? || letter.NotStr? then Ok(0)
    else if |letter.s| != 1 then Raised(ValueError(SingleCharacterMessage))
    else
      CountSingleChar(Lower(word.s), LowerChar(letter.s[0]));
      assert Lower(letter.s) == [LowerChar(letter.s[0])];
      Ok(Count(Lower(word.s), Lower(letter.s)))
  }

  /** A count never exceeds the length of the word. */
  lemma LetterCounterBounded(word: string, letter: string)
    ensures LetterCounter(Str(word), Str(letter)).Ok? ==>
      LetterCounter(Str(word), Str(letter)).value <= |word|
  {
    if |letter| == 1 {
      var w := Lower(word);
      CountSingleChar(w, LowerChar(letter[0]));
      assert Count(w, Lower(letter)) * 1 <= |w|;
    }
  }

  /** Upper-casing the word or the letter does not change the answer. */
  lemma LetterCounterIgnoresCase(word: string, letter: string)
    ensures LetterCounter(Str(Upper(word)), Str(letter)) == LetterCounter(Str(word), Str(letter))
    ensures LetterCounter(Str(word), Str(Upper(letter))) == LetterCounter(Str(word), Str(letter))
  {
    LowerOfUpper(word);
    LowerOfUpper(letter);
    if |letter| == 1 {
      assert LowerChar(Upper(letter)[0]) == Lower(Upper(letter))[0];
    }
  }
}
