/** The two custom tools of demo_strands_tool_custom.py. */
module CustomTools {
  import opened Common
  import opened PyText
  import LetterCounter

  /** The dictionary `count_letter_in_word` returns. */
  datatype LetterCount = LetterCount(word: string, letter: string, count: nat)

  /** `count_letter_in_word`: no validation of `letter`; the count is that of
      `str.count` on the lower-cased texts, and the record echoes the
      arguments as given. */
  function CountLetterInWord(word: string, letter: string): (r: LetterCount)
    ensures r.word == word && r.letter == letter
    ensures r.count == Count(Lower(word), Lower(letter))
    ensures letter == "" ==> r.count == |word| + 1
    ensures letter != "" ==> r.count * |letter| <= |word|
    ensures letter != "" ==> (r.count > 0 <==> HasSub(Lower(word), Lower(letter)))
  {
    var lw := Lower(word);
    var ll := Lower(letter);
    assert ll != [] ==> (Count(lw, ll) > 0 <==> HasSub(lw, ll)) by {
      if ll != [] { CountFindsSub(lw, ll); }
    }
    LetterCount(word, letter, Count(lw, ll))
  }

  /** For a one-character letter both counting tools agree. */
  lemma CountToolsAgree(word: string, letter: string)
    requires |letter| == 1
    ensures LetterCounter.LetterCounter(LetterCounter.Str(word), LetterCounter.Str(letter))
      == Ok(CountLetterInWord(word, letter).count)
  {
    CountSingleChar(Lower(word), LowerChar(letter[0]));
    assert Lower(letter) == [LowerChar(letter[0])];
  }

  /** A multi-character letter counts the non-overlapping occurrences of the
      substring: "aaaa" holds "aa" twice, not three times. */
  lemma CountIsNonOverlapping()
    ensures CountLetterInWord("aaaa", "AA").count == 2
  {
    assert Lower("AA") == "aa";
    assert Lower("aaaa") == "aaaa";
    var s := "aaaa";
    assert s[..2] == "aa" && s[2..] == "aa";
    assert s[2..][..2] == "aa" && s[2..][2..] == "";
  }

  /** The count ignores case in both arguments. */
  lemma CountLetterIgnoresCase(word: string, letter: string)
    ensures CountLetterInWord(Upper(word), Upper(letter)).count == CountLetterInWord(word, letter).count
  {
    LowerOfUpper(word);
    LowerOfUpper(letter);
  }

  /** `reverse_string`: `text[::-1]`. */
  function ReverseString(text: string): (r: string)
    ensures |r| == |text|
    ensures forall i | 0 <= i < |text| :: r[i] == text[|text| - 1 - i]
    decreases |text|
  {
    if text == [] then [] else [text[|text| - 1]] + ReverseString(text[..|text| - 1])
  }

  /** Reversing twice gives back the text. */
  lemma ReverseTwice(text: string)
    ensures ReverseString(ReverseString(text)) == text
  {
    var r := ReverseString(ReverseString(text));
    assert forall i | 0 <= i < |text| :: r[i] == text[i];
  }
}
