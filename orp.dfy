/**
 * Optimal recognition point: the index of the character a reader fixates on. Leading
 * non-letters are skipped, and the offset into the letters grows with the number of letters
 * in the whole word.
 */
module Orp {
  import opened Chars

  /** Number of leading characters that are not alphabetic (`take_while(..).count()`). */
  function LeadingNonAlphabetic(word: string): (n: nat)
    ensures n <= |word|
    ensures forall i :: 0 <= i < n ==> !IsAlphabetic(word[i])
    ensures n < |word| ==> IsAlphabetic(word[n])
  {
    if word == [] || IsAlphabetic(word[0]) then 0 else 1 + LeadingNonAlphabetic(word[1..])
  }

  /** Number of alphabetic characters anywhere in the word (`filter(..).count()`). */
  function AlphabeticCount(word: string): (n: nat)
    ensures n <= |word|
  {
    if word == [] then 0
    else (if IsAlphabetic(word[0]) then 1 else 0) + AlphabeticCount(word[1..])
  }

  /** Offset into the letters: 0..=3 -> 0, 4..=6 -> 1, 7..=9 -> 2, otherwise 3. */
  function OrpOffset(alphaLen: nat): (r: nat)
    ensures r <= 3
    ensures alphaLen >= 1 ==> r < alphaLen
  {
    if alphaLen <= 3 then 0
    else if alphaLen <= 6 then 1
    else if alphaLen <= 9 then 2
    else 3
  }

  /** `calculate_orp`: the leading non-letters plus the offset; inside the word whenever it has a letter. */
  function CalculateOrp(word: string): (r: nat)
    ensures AlphabeticCount(word) > 0 ==>
      && LeadingNonAlphabetic(word) < |word|
      && IsAlphabetic(word[LeadingNonAlphabetic(word)])
      && r < |word|
    ensures r <= LeadingNonAlphabetic(word) + 3
    ensures r == LeadingNonAlphabetic(word) + OrpOffset(AlphabeticCount(word))
  {
    var lead := LeadingNonAlphabetic(word);
    var alpha := AlphabeticCount(word);
    LettersFollowLeadingRun(word);
    lead + OrpOffset(alpha)
  }

  /** All letters of a word sit after its leading run of non-letters. */
  lemma {:induction false} LettersFollowLeadingRun(word: string)
    ensures AlphabeticCount(word) <= |word| - LeadingNonAlphabetic(word)
    ensures AlphabeticCount(word) > 0 ==> LeadingNonAlphabetic(word) < |word|
  {
    if word != [] && !IsAlphabetic(word[0]) {
      LettersFollowLeadingRun(word[1..]);
    }
  }

  /** The offset never decreases as the number of letters grows. */
  lemma OrpOffsetMonotone(a: nat, b: nat)
    requires a <= b
    ensures OrpOffset(a) <= OrpOffset(b)
  {
  }

  /** The offset moves up by exactly one at the 3/4, 6/7 and 9/10 boundaries. */
  lemma OrpOffsetBoundaries()
    ensures OrpOffset(3) == 0 && OrpOffset(4) == 1
    ensures OrpOffset(6) == 1 && OrpOffset(7) == 2
    ensures OrpOffset(9) == 2 && OrpOffset(10) == 3
  {
  }

  /** Length boundaries from the source's own tests. */
  lemma OrpLengthExamples()
    ensures CalculateOrp("") == 0
    ensures CalculateOrp("abc") == 0
    ensures CalculateOrp("abcd") == 1
    ensures CalculateOrp("abcdef") == 1
    ensures CalculateOrp("abcdefg") == 2
    ensures CalculateOrp("extraordinary") == 3
  {
  }

  /** Leading punctuation is skipped before the offset is applied. */
  lemma OrpPunctuationExamples()
    ensures CalculateOrp("(as") == 1
    ensures CalculateOrp("\"hello") == 2
    ensures CalculateOrp("(test)") == 2
    ensures CalculateOrp("...word") == 4
  {
    assert "(as"[1..] == "as";
    assert "\"hello"[1..] == "hello";
    assert "(test)"[1..] == "test)";
    assert "...word"[1..] == "..word";
    assert "..word"[1..] == ".word";
    assert ".word"[1..] == "word";
  }

  /** Characters, not bytes, are counted: five kana give offset 1. */
  lemma OrpUnicodeExample()
    ensures CalculateOrp("\U{3068}\U{3044}\U{3046}\U{3053}\U{3068}") == 1
  {
  }
}
