/** The two constant symbol tables of the braille decoder and the character
    operations the decoder applies to their values.

    The tables are written exactly as the Ruby hash literals are, entry by
    entry and in the same order. A Dafny map display, like a Ruby hash
    literal, keeps only the last occurrence of a repeated key, so the
    repeated nine-character key "(unknown)" ends up mapped to its last
    value in each table, and every earlier "(unknown)" entry is lost. */
module BrailleTables {

  /** TRANSLATE_LETTERS, the table that is active at the start of a
      segment and after the "@" trigger. */
  const TranslateLetters: map<string, string> := map[
    "r" := ".",
    "@" := " ",
    "D" := "'",
    "B" := ",",
    "A" := "a",
    "C" := "b",
    "(unknown)" := "c",
    "Y" := "d",
    "Q" := "e",
    "K" := "f",
    "[" := "g",
    "S" := "h",
    "J" := "i",
    "Z" := "j",
    "E" := "k",
    "G" := "l",
    "M" := "m",
    "]" := "n",
    "U" := "o",
    "O" := "p",
    "(unknown)" := "q",
    "W" := "r",
    "N" := "s",
    "^" := "t",
    "e" := "u",
    "g" := "v",
    "z" := "w",
    "(unknown)" := "x",
    "(unknown)" := "y",
    "u" := "z"
  ]

  /** TRANSLATE_NUMBERS, the table that is active after the "|" trigger. */
  const TranslateNumbers: map<string, string> := map[
    "Z" := "0",
    "(unknown)" := "1",
    "C" := "2",
    "I" := "3",
    "(unknown)" := "4",
    "(unknown)" := "5",
    "(unknown)" := "6",
    "(unknown)" := "7",
    "(unknown)" := "8",
    "J" := "9"
  ]

  /** The key that the source's tables repeat. */
  const UnknownKey: string := "(unknown)"

  /** Every value of either table is a one-character string. */
  predicate SingleCharValues(t: map<string, string>)
  {
    forall k :: k in t ==> |t[k]| == 1
  }

  lemma TablesHaveSingleCharValues()
    ensures SingleCharValues(TranslateLetters)
    ensures SingleCharValues(TranslateNumbers)
  {
  }

  /** The last "(unknown)" entry wins in each table. */
  lemma DuplicateKeysLastWins()
    ensures TranslateLetters[UnknownKey] == "y"
    ensures TranslateNumbers[UnknownKey] == "8"
  {
  }

  /** Ruby's String#upcase restricted to the characters the tables can
      produce: ASCII a-z become A-Z, everything else is left alone. */
  function UpcaseChar(c: char): (u: char)
    ensures 'a' <= c <= 'z' ==> 'A' <= u <= 'Z' && u as int - 'A' as int == c as int - 'a' as int
    ensures !('a' <= c <= 'z') ==> u == c
  {
    if 'a' <= c <= 'z' then (c as int - 'a' as int + 'A' as int) as char else c
  }

  /** String#upcase, character by character. */
  function Upcase(s: string): (r: string)
    ensures |r| == |s|
    ensures forall i :: 0 <= i < |s| ==> r[i] == UpcaseChar(s[i])
  {
    seq(|s|, i requires 0 <= i < |s| => UpcaseChar(s[i]))
  }

  /** The characters that the one-character keys of TRANSLATE_LETTERS map
      to. The entries under the nine-character key "(unknown)" are not
      among them: the decoder looks up single characters only. */
  const LetterChars: set<char> := {'.', ' ', '\'', ',', 'a', 'b', 'd', 'e', 'f', 'g', 'h', 'i', 'j',
    'k', 'l', 'm', 'n', 'o', 'p', 'r', 's', 't', 'u', 'v', 'w', 'z'}

  /** The characters that the one-character keys of TRANSLATE_NUMBERS map to. */
  const NumberChars: set<char> := {'0', '2', '3', '9'}

  /** Every character the decoder can emit: a reachable table value, the
      upper-case form of one, the fallback "?" and the space of the "@"
      trigger. */
  predicate Producible(ch: char)
  {
    ch in LetterChars || ch in NumberChars || ch == '?' || ch == ' ' ||
    ('A' <= ch <= 'Z' && (ch as int - 'A' as int + 'a' as int) as char in LetterChars)
  }

  /** Upper-casing a producible character gives a producible character. */
  lemma UpcaseKeepsProducible(ch: char)
    requires Producible(ch)
    ensures Producible(UpcaseChar(ch))
  {
  }

  /** A one-character key of TRANSLATE_LETTERS maps to one of LetterChars. */
  lemma LetterKeysGiveLetterChars(c: char)
    requires [c] in TranslateLetters
    ensures |TranslateLetters[[c]]| == 1 && TranslateLetters[[c]][0] in LetterChars
  {
  }

  /** A one-character key of TRANSLATE_NUMBERS maps to one of NumberChars. */
  lemma NumberKeysGiveNumberChars(c: char)
    requires [c] in TranslateNumbers
    ensures |TranslateNumbers[[c]]| == 1 && TranslateNumbers[[c]][0] in NumberChars
  {
  }

  /** The characters lost to the duplicate "(unknown)" keys, their
      upper-case forms and the newline are not producible. */
  lemma LostCharactersNotProducible()
    ensures forall c :: c in "cqxy145678\n" ==> !Producible(c)
    ensures forall c :: c in "CQXY" ==> !Producible(c)
  {
  }
}
