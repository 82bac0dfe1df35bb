/** The dictionary lookup of `src/word/validateWord.ts`. The bundled word list
    (one word per line) is not part of this model: it is the parameter `words`,
    the set of its lines. */
module ValidateWord {

  /** `toLowerCase` on one character, for the ASCII letters the game's input holds. */
  function ToLower(c: char): char
  {
    if 'A' <= c <= 'Z' then (c as int + 32) as char else c
  }

  function LowerCase(s: string): string
  {
    seq(|s|, i requires 0 <= i < |s| => ToLower(s[i]))
  }

  /** `validateWord(word)`: the lower-cased word is a line of the word list. */
  predicate ValidateWord(words: set<string>, word: string)
  {
    LowerCase(word) in words
  }

  /** A word is valid exactly when some line of the list spells it, character
      by character, ignoring the case of the word. */
  lemma ValidateWordMatchesLine(words: set<string>, word: string)
    ensures ValidateWord(words, word) <==>
      (exists line :: line in words && |line| == |word| && (forall i :: 0 <= i < |word| ==> line[i] == ToLower(word[i])))
  {
    forall line | line in words && |line| == |word| && (forall i :: 0 <= i < |word| ==> line[i] == ToLower(word[i]))
      ensures line == LowerCase(word)
    {
    }
  }
}
