# Braille decoder: a verified model in Dafny

This project models `braille-decoder.rb`. That script turns files from an old
braille-reader storage format into plain text. A document is an XML file.
Each `TEXT` child of the root holds a string of one-character tokens, and each
`BR` child stands for a line break. Each token string goes through a small
state machine, `translate_string`, which has:

- an active symbol table: `TRANSLATE_LETTERS` at the start, `TRANSLATE_NUMBERS`
  after the `|` trigger, the letter table again after the `@` trigger;
- a pending-capital flag, set by the `h` trigger and cleared by the next
  table lookup;
- an output string that grows one character per lookup or `@`.

`translate_document` joins the decodes of the `TEXT` elements and adds a
newline for each `BR`.

The project has three files:

- `tables.dfy` (module `BrailleTables`): the two tables, written as in the
  source. A Dafny map display keeps the last of a repeated key, just as a
  Ruby hash literal does. So the nine-character key `"(unknown)"` ends up
  mapped to `"y"` and to `"8"`. Because the decoder only looks up
  one-character keys, that entry can never be reached. The module also has
  the ASCII upper-casing and the set of characters the decoder can produce.
- `decoder.dfy` (module `BrailleDecoder`): `Step` is one pass of the loop
  body. `Run`/`Decode` fold `Step` over a string and serve as the
  specification. `TranslateString` is the source's `while (char =
  chars.shift)` loop, proved equal to `Decode`. `ReferenceDecode` is a second,
  independent description that builds the output position by position from
  the prefix before each position: the last `|`/`@` picks the table, and an
  `h` with no lookup after it means a capital is pending. It is proved equal
  to `Decode` for every input.
- `document.dfy` (module `BrailleDocument`): the root's children as a
  sequence of `Text(payload) | Br | Other`. `DocumentText` is the
  specification and `TranslateDocument` is the source's loop.

Entering number mode with `|` emits nothing; it is `@` (back to letters)
that emits the space (braille-decoder.rb:76-80).

The duplicate `"(unknown)"` entries look like a data-entry slip. Their effect
is that c, q, x, y and the digits 1 and 4-8 can never be decoded. The model
keeps that behaviour, and `NeverEmitsLostCharacters` proves it.

## Model

| member | source | states |
|---|---|---|
| `BrailleTables.DuplicateKeysLastWins` | braille-decoder.rb:21-66 | the repeated `"(unknown)"` key keeps only its last value: `"y"` in the letter table, `"8"` in the number table |
| `BrailleTables.TablesHaveSingleCharValues` | braille-decoder.rb:21-66 | every value of both tables is a one-character string |
| `BrailleTables.LetterKeysGiveLetterChars` | braille-decoder.rb:21-52 | a one-character key of the letter table maps to one of `. ' , a b d-p r-w z` and the space; c, q, x, y are not reachable |
| `BrailleTables.NumberKeysGiveNumberChars` | braille-decoder.rb:55-66 | a one-character key of the number table maps to 0, 2, 3 or 9 |
| `BrailleTables.LostCharactersNotProducible` | braille-decoder.rb:21-66 | newline, c, q, x, y, C, Q, X, Y, 1 and 4-8 are outside the producible alphabet |
| `BrailleTables.UpcaseKeepsProducible` | braille-decoder.rb:84 | upper-casing a producible character gives a producible character |
| `BrailleTables.UpcaseChar` | braille-decoder.rb:84 | `upcase` maps a-z to the matching A-Z and leaves every other character alone |
| `BrailleTables.Upcase` | braille-decoder.rb:84 | `upcase` keeps the length and upper-cases character by character |
| `BrailleDecoder.Lookup` | braille-decoder.rb:82 | `translations[char] \|\| "?"` always gives exactly one character |
| `BrailleDecoder.Step` | braille-decoder.rb:73-89 | one loop pass appends nothing for `h` and `\|` and exactly one character for anything else |
| `BrailleDecoder.Run` | braille-decoder.rb:72-90 | no contract; defines the output of the loop from a given state, as `Step`'s output for the first token followed by `Run` on the rest |
| `BrailleDecoder.FinalState` | braille-decoder.rb:72-90 | no contract; defines the state (table and capital flag) the loop holds after consuming a string |
| `BrailleDecoder.Decode` | braille-decoder.rb:68-92 | no contract; defines `translate_string(str)` as `Run` from the letter table with no capital pending |
| `BrailleDecoder.TranslateString` | braille-decoder.rb:68-92 | the loop returns `Decode(str)`; its length is the input length minus the number of `h` and `\|`; every character is producible |
| `BrailleDecoder.RunConcat` | braille-decoder.rb:72-90 | decoding `a + b` is decoding `a`, then decoding `b` from the state `a` left, and the final states agree |
| `BrailleDecoder.RunSnoc` | braille-decoder.rb:72-90 | appending one token appends exactly that token's step output |
| `BrailleDecoder.OutputLength` | braille-decoder.rb:72-90 | output length = input length minus the count of `h` and `\|`, from any state |
| `BrailleDecoder.StepProducible` | braille-decoder.rb:73-89 | one step emits only table values under one-character keys, their upper-case forms, `?` or a space |
| `BrailleDecoder.OutputProducible` | braille-decoder.rb:68-92 | every emitted character is producible, from any state |
| `BrailleDecoder.NeverEmitsLostCharacters` | braille-decoder.rb:68-92 | no decode ever contains a newline, c, q, x, y (either case), 1, 4, 5, 6, 7 or 8 |
| `BrailleDecoder.FinalStateClosedForm` | braille-decoder.rb:70-85 | after any prefix, the table is the one picked by the last `\|`/`@` (letters if none), and a capital is pending iff an `h` occurs with no lookup after it |
| `BrailleDecoder.DecodeMatchesReference` | braille-decoder.rb:68-92 | the loop's output equals the position-by-position reference description for every input |
| `BrailleDecoder.NumberModeUntilLetterTrigger` | braille-decoder.rb:76-79 | after a `\|` with no later `@`, the number table is in force |
| `BrailleDecoder.LetterModeUntilNumberTrigger` | braille-decoder.rb:76-79 | after an `@` with no later `\|`, the letter table is in force |
| `BrailleDecoder.NumberTriggerStep` | braille-decoder.rb:76-77 | `\|` emits nothing, selects the number table and keeps the capital flag, so a repeated `\|` stays in number mode |
| `BrailleDecoder.LetterTriggerStep` | braille-decoder.rb:78-80 | `@` emits exactly one space in either mode, selects the letter table and keeps the capital flag; the table is not consulted |
| `BrailleDecoder.CapitalAppliesOnce` | braille-decoder.rb:83-88 | a pending capital upper-cases exactly the next lookup's result and is cleared |
| `BrailleDecoder.RepeatedCapitalTrigger` | braille-decoder.rb:74-75 | a second `h` in a row changes nothing |
| `BrailleDecoder.TrailingCapitalTrigger` | braille-decoder.rb:72-91 | an `h` at the end of the input leaves the output unchanged |
| `BrailleDecoder.SingleLetterToken` | braille-decoder.rb:82 | in letter mode, one non-trigger token decodes to its letter-table entry, or `?` without one |
| `BrailleDecoder.NumberToken` | braille-decoder.rb:76-82 | `\|` then a non-trigger token decodes to its number-table entry, or `?` without one |
| `BrailleDecoder.CapitalLetterToken` | braille-decoder.rb:74-88 | `h` then a token decodes to the upper-cased decode of that token alone |
| `BrailleDecoder.LetterExamples` | braille-decoder.rb:68-92 | `""` gives `""`, `"A"` gives `"a"`, `"x"` gives `"?"`, `"Ah"` gives `"a"` |
| `BrailleDecoder.NumberExamples` | braille-decoder.rb:76-82 | `"\|Z"` gives `"0"`, `"\|J"` gives `"9"`, `"\|A"` gives `"?"`, `"\|\|Z"` gives `"0"` |
| `BrailleDecoder.CapitalExamples` | braille-decoder.rb:74-88 | `"hAC"` gives `"Ab"` and `"h@A"` gives `" A"` |
| `BrailleDocument.SegmentText` | braille-decoder.rb:104-109 | no contract; defines one element's contribution: the decode of a `TEXT` payload, a newline for `BR`, nothing otherwise |
| `BrailleDocument.DocumentText` | braille-decoder.rb:101-111 | no contract; defines `translate_document` as the concatenation of the elements' contributions in document order |
| `BrailleDocument.TranslateDocument` | braille-decoder.rb:101-112 | the loop returns `DocumentText(segs)`, and its number of newlines equals the number of `BR` elements |
| `BrailleDocument.DocumentConcat` | braille-decoder.rb:101-111 | the text of `a + b` is the text of `a` followed by the text of `b` |
| `BrailleDocument.NewlinesAreBreaks` | braille-decoder.rb:103-109 | the output holds exactly one newline per `BR` element |
| `BrailleDocument.OtherContributesNothing` | braille-decoder.rb:104-109 | an element that is neither `TEXT` nor `BR` can be removed anywhere without changing the text |
| `BrailleDocument.TextSegmentsDecodeIndependently` | braille-decoder.rb:105-106 | two `TEXT` elements give the concatenation of their separate decodes |
| `BrailleDocument.NoModeAcrossSegments` | braille-decoder.rb:105-106 | `[Text("\|"), Text("Z")]` gives `"j"`, while `[Text("\|Z")]` gives `"0"` |
| `BrailleDocument.BreakBetweenTexts` | braille-decoder.rb:104-108 | a `BR` between two `TEXT` elements adds exactly one newline between their decodes |

## Left out

- File opening, `ARGV` and `puts` (braille-decoder.rb:120-124) are I/O and are not modelled.
- REXML parsing and the walk over the root's elements (braille-decoder.rb:99, 103) are not modelled. The document is given as the sequence of the root's children. `element.get_text.to_s` is the `Text` payload, with `""` when there is no text node.
- `TRANSLATE_TRIGGERS` (braille-decoder.rb:15-19) is never read by the code and is not modelled. The three triggers are constants in `BrailleDecoder`.
- `str.split(//)` on multi-byte encodings is not modelled: input is a `seq<char>`.
- Ruby's Unicode-aware `String#upcase` is modelled only for ASCII a-z, with every other character left unchanged. That covers every value the tables can produce, plus `?`.
- In Ruby, `translations` is a reference to one of the two constant hashes. Here it is a map value equal to one of them. The hashes are never mutated, so nothing is lost.
- No corrected mapping is given for the `"(unknown)"` entries. Only the last-wins, never-matched behaviour of the source is modelled.
