/** translate_string: the per-segment token decoder.

    The decoder walks the characters of one string with two pieces of state,
    the active table (TRANSLATE_LETTERS or TRANSLATE_NUMBERS) and a pending-
    capital flag. "h" sets the flag, "|" selects the number table, "@"
    selects the letter table and emits a space, and every other character is
    looked up in the active table, falling back to "?", and upper-cased if
    the flag is set (which clears it).

    Run is the specification: a fold of Step over the input. TranslateString
    is the loop of the source, proved equal to Run. ReferenceDecode is an
    independent, position-by-position description of the output, proved
    equal to Run as well. */
module BrailleDecoder {
  import opened BrailleTables

  /** Which of the two tables is active. */
  datatype Mode = Letters | Numbers

  function Table(m: Mode): map<string, string>
  {
    match m
    case Letters => TranslateLetters
    case Numbers => TranslateNumbers
  }

  /** The three trigger characters. */
  const CapitalTrigger: char := 'h'
  const NumberTrigger: char := '|'
  const LetterTrigger: char := '@'

  /** A character that appends to the output: anything except "h" and "|". */
  predicate Emits(c: char)
  {
    c != CapitalTrigger && c != NumberTrigger
  }

  /** A character that is looked up in the active table. */
  predicate IsLookup(c: char)
  {
    Emits(c) && c != LetterTrigger
  }

  datatype DecoderState = DecoderState(mode: Mode, capitalNext: bool)

  /** The state at the start of every call: letter table, no capital pending
      (the Ruby flag starts as nil). */
  const Initial: DecoderState := DecoderState(Letters, false)

  /** `translations[char] || "?"`: the input is split into one-character
      strings, so the key looked up is always a single character. */
  function Lookup(t: map<string, string>, c: char): (r: string)
    ensures SingleCharValues(t) ==> |r| == 1
  {
    if [c] in t then t[[c]] else "?"
  }

  /** One pass of the loop body: the next state and what is appended. */
  function Step(st: DecoderState, c: char): (r: (DecoderState, string))
    ensures |r.1| == if Emits(c) then 1 else 0
  {
    TablesHaveSingleCharValues();
    if c == CapitalTrigger then
      (DecoderState(st.mode, true), "")
    else if c == NumberTrigger then
      (DecoderState(Numbers, st.capitalNext), "")
    else if c == LetterTrigger then
      (DecoderState(Letters, st.capitalNext), " ")
    else
      var c2 := Lookup(Table(st.mode), c);
      if st.capitalNext then (DecoderState(st.mode, false), Upcase(c2))
      else (st, c2)
  }

  /** The output of decoding s from state st. */
  function Run(st: DecoderState, s: string): string
    decreases |s|
  {
    if s == [] then "" else Step(st, s[0]).1 + Run(Step(st, s[0]).0, s[1..])
  }

  /** The state after decoding s from state st. */
  function FinalState(st: DecoderState, s: string): DecoderState
    decreases |s|
  {
    if s == [] then st else FinalState(Step(st, s[0]).0, s[1..])
  }

  /** translate_string(str), as a function. */
  function Decode(s: string): string
  {
    Run(Initial, s)
  }

  /** translate_string, as the source writes it: `chars` is consumed from the
      front one character at a time, `translations` holds the active table
      itself and `translated` grows by `+=`. */
  method TranslateString(str: string) returns (translated: string)
    ensures translated == Decode(str)
    ensures |translated| == |str| - multiset(str)['h'] - multiset(str)['|']
    ensures forall i :: 0 <= i < |translated| ==> Producible(translated[i])
  {
    TablesHaveSingleCharValues();
    translated := "";
    var translations := TranslateLetters;
    var nextCharIsCapital := false;
    ghost var mode := Letters;
    var chars := str;
    ghost var k := 0;  // how many characters have been shifted off `chars`
    while chars != []
      invariant 0 <= k <= |str| && chars == str[k..]
      invariant translations == Table(mode)
      invariant DecoderState(mode, nextCharIsCapital) == FinalState(Initial, str[..k])
      invariant translated == Decode(str[..k])
      decreases |chars|
    {
      var token := chars[0];
      RunSnoc(Initial, str[..k], token);
      assert str[..k + 1] == str[..k] + [token];
      chars := chars[1..];
      k := k + 1;
      if token == CapitalTrigger {
        nextCharIsCapital := true;
      } else if token == NumberTrigger {
        translations := TranslateNumbers;
        mode := Numbers;
      } else if token == LetterTrigger {
        translations := TranslateLetters;
        mode := Letters;
        translated := translated + " ";
      } else {
        var c2 := if [token] in translations then translations[[token]] else "?";
        assert c2 == Lookup(Table(mode), token);
        if nextCharIsCapital {
          translated := translated + Upcase(c2);
          nextCharIsCapital := false;
        } else {
          translated := translated + c2;
        }
      }
    }
    assert str[..k] == str;
    OutputLength(Initial, str);
    OutputProducible(Initial, str);
  }

  // ---------------------------------------------------------------------
  // Composition

  /** Decoding a + b is decoding a, then decoding b from where a left off. */
  lemma {:induction false} RunConcat(st: DecoderState, a: string, b: string)
    ensures Run(st, a + b) == Run(st, a) + Run(FinalState(st, a), b)
    ensures FinalState(st, a + b) == FinalState(FinalState(st, a), b)
    decreases |a|
  {
    if a != [] {
      assert (a + b)[0] == a[0] && (a + b)[1..] == a[1..] + b;
      RunConcat(Step(st, a[0]).0, a[1..], b);
    } else {
      assert a + b == b;
    }
  }

  /** Appending one character appends one step's output. */
  lemma RunSnoc(st: DecoderState, p: string, c: char)
    ensures Run(st, p + [c]) == Run(st, p) + Step(FinalState(st, p), c).1
    ensures FinalState(st, p + [c]) == Step(FinalState(st, p), c).0
  {
    RunConcat(st, p, [c]);
    assert Run(FinalState(st, p), [c]) == Step(FinalState(st, p), c).1 + Run(Step(FinalState(st, p), c).0, []);
  }

  // ---------------------------------------------------------------------
  // Output length and alphabet

  /** Every character except "h" and "|" appends exactly one character. */
  lemma {:induction false} OutputLength(st: DecoderState, s: string)
    ensures |Run(st, s)| == |s| - multiset(s)['h'] - multiset(s)['|']
    decreases |s|
  {
    if s != [] {
      assert s == [s[0]] + s[1..];
      assert multiset(s) == multiset([s[0]]) + multiset(s[1..]);
      OutputLength(Step(st, s[0]).0, s[1..]);
    }
  }

  /** One step appends only producible characters. */
  lemma StepProducible(st: DecoderState, c: char)
    ensures forall i :: 0 <= i < |Step(st, c).1| ==> Producible(Step(st, c).1[i])
  {
    TablesHaveSingleCharValues();
    if IsLookup(c) {
      var t := Table(st.mode);
      var c2 := Lookup(t, c);
      if [c] in t {
        if st.mode == Letters {
          LetterKeysGiveLetterChars(c);
        } else {
          NumberKeysGiveNumberChars(c);
        }
      }
      assert Producible(c2[0]);
      if st.capitalNext {
        UpcaseKeepsProducible(c2[0]);
      }
    }
  }

  /** The decoder emits nothing but producible characters. */
  lemma {:induction false} OutputProducible(st: DecoderState, s: string)
    ensures forall i :: 0 <= i < |Run(st, s)| ==> Producible(Run(st, s)[i])
    decreases |s|
  {
    if s != [] {
      StepProducible(st, s[0]);
      OutputProducible(Step(st, s[0]).0, s[1..]);
    }
  }

  /** In particular no newline, none of c, q, x, y (in either case) and none
      of 1, 4, 5, 6, 7, 8 is ever emitted. */
  lemma NeverEmitsLostCharacters(s: string)
    ensures forall c :: c in "\ncqxyCQXY145678" ==> c !in Decode(s)
  {
    OutputProducible(Initial, s);
    LostCharactersNotProducible();
  }

  // ---------------------------------------------------------------------
  // A positional reference description

  /** The table in force after the prefix p: set by the last "|" or "@" in
      p, the letter table if there is none. */
  function ModeAfter(p: string): Mode
    decreases |p|
  {
    if p == [] then Letters
    else if p[|p| - 1] == NumberTrigger then Numbers
    else if p[|p| - 1] == LetterTrigger then Letters
    else ModeAfter(p[..|p| - 1])
  }

  /** A capital is pending after p when an "h" occurs in p with no looked-up
      character after it ("|" and "@" neither consume nor clear it). */
  function CapitalPendingAfter(p: string): bool
    decreases |p|
  {
    if p == [] then false
    else if p[|p| - 1] == CapitalTrigger then true
    else if IsLookup(p[|p| - 1]) then false
    else CapitalPendingAfter(p[..|p| - 1])
  }

  /** What the character at position i contributes, from the prefix before it. */
  function OutputAt(s: string, i: nat): string
    requires i < |s|
  {
    TablesHaveSingleCharValues();
    var c := s[i];
    if !Emits(c) then ""
    else if c == LetterTrigger then " "
    else
      var v := Lookup(Table(ModeAfter(s[..i])), c);
      if CapitalPendingAfter(s[..i]) then Upcase(v) else v
  }

  /** The output as the concatenation of every position's contribution. */
  function ReferenceDecode(s: string): string
    decreases |s|
  {
    if s == [] then "" else ReferenceDecode(s[..|s| - 1]) + OutputAt(s, |s| - 1)
  }

  /** The state the loop reaches after any prefix is given by the positional
      description. */
  lemma {:induction false} FinalStateClosedForm(p: string)
    ensures FinalState(Initial, p) == DecoderState(ModeAfter(p), CapitalPendingAfter(p))
    decreases |p|
  {
    if p != [] {
      var q, c := p[..|p| - 1], p[|p| - 1];
      assert p == q + [c];
      FinalStateClosedForm(q);
      RunSnoc(Initial, q, c);
    }
  }

  /** translate_string agrees with the positional description on every input. */
  lemma {:induction false} DecodeMatchesReference(s: string)
    ensures Decode(s) == ReferenceDecode(s)
    decreases |s|
  {
    if s != [] {
      var q, c := s[..|s| - 1], s[|s| - 1];
      assert s == q + [c];
      assert s[..|s| - 1] == q;
      DecodeMatchesReference(q);
      FinalStateClosedForm(q);
      RunSnoc(Initial, q, c);
    }
  }

  /** After a "|" with no "@" later in the prefix, the number table is in force. */
  lemma {:induction false} NumberModeUntilLetterTrigger(p: string, q: string)
    requires LetterTrigger !in q
    ensures ModeAfter(p + [NumberTrigger] + q) == Numbers
    decreases |q|
  {
    var s := p + [NumberTrigger] + q;
    if q == [] {
    } else {
      assert s[..|s| - 1] == p + [NumberTrigger] + q[..|q| - 1];
      assert s[|s| - 1] == q[|q| - 1];
      NumberModeUntilLetterTrigger(p, q[..|q| - 1]);
    }
  }

  /** After an "@" with no "|" later in the prefix, the letter table is in force. */
  lemma {:induction false} LetterModeUntilNumberTrigger(p: string, q: string)
    requires NumberTrigger !in q
    ensures ModeAfter(p + [LetterTrigger] + q) == Letters
    decreases |q|
  {
    var s := p + [LetterTrigger] + q;
    if q == [] {
    } else {
      assert s[..|s| - 1] == p + [LetterTrigger] + q[..|q| - 1];
      assert s[|s| - 1] == q[|q| - 1];
      LetterModeUntilNumberTrigger(p, q[..|q| - 1]);
    }
  }

  // ---------------------------------------------------------------------
  // Triggers and the capital flag

  /** "|" emits nothing, selects the number table and keeps the flag; so a
      repeated "|" stays in number mode. */
  lemma NumberTriggerStep(st: DecoderState, s: string)
    ensures Run(st, [NumberTrigger] + s) == Run(DecoderState(Numbers, st.capitalNext), s)
  {
    assert ([NumberTrigger] + s)[1..] == s;
  }

  /** "@" emits exactly one space in either mode, selects the letter table
      and keeps the flag; the table entry for "@" is not consulted. */
  lemma LetterTriggerStep(st: DecoderState, s: string)
    ensures Run(st, [LetterTrigger] + s) == " " + Run(DecoderState(Letters, st.capitalNext), s)
  {
    assert ([LetterTrigger] + s)[1..] == s;
  }

  /** A pending capital upper-cases exactly the next looked-up character and
      is then cleared. */
  lemma CapitalAppliesOnce(m: Mode, c: char, s: string)
    requires IsLookup(c)
    ensures Run(DecoderState(m, true), [c] + s)
         == Upcase(Lookup(Table(m), c)) + Run(DecoderState(m, false), s)
  {
    TablesHaveSingleCharValues();
    assert ([c] + s)[1..] == s;
  }

  /** A second "h" adds nothing to the first. */
  lemma RepeatedCapitalTrigger(m: Mode, s: string)
    ensures Run(DecoderState(m, true), [CapitalTrigger] + s) == Run(DecoderState(m, true), s)
  {
    assert ([CapitalTrigger] + s)[1..] == s;
  }

  /** A trailing "h" has no effect on the output. */
  lemma TrailingCapitalTrigger(s: string)
    ensures Decode(s + [CapitalTrigger]) == Decode(s)
  {
    RunSnoc(Initial, s, CapitalTrigger);
  }

  /** In letter mode a single looked-up character decodes to its table
      entry, or to "?" when the table has none. */
  lemma SingleLetterToken(t: char)
    requires IsLookup(t)
    ensures Decode([t]) == if [t] in TranslateLetters then TranslateLetters[[t]] else "?"
  {
    TablesHaveSingleCharValues();
    assert [t][0] == t && [t][1..] == [];
    assert Decode([t]) == Step(Initial, t).1 + Run(Step(Initial, t).0, []);
    assert Step(Initial, t).1 == Lookup(TranslateLetters, t);
  }

  /** After "|", a looked-up character decodes to its number-table entry,
      or to "?". */
  lemma NumberToken(t: char)
    requires IsLookup(t)
    ensures Decode([NumberTrigger, t]) == if [t] in TranslateNumbers then TranslateNumbers[[t]] else "?"
  {
    assert [NumberTrigger, t] == [NumberTrigger] + [t];
    NumberTriggerStep(Initial, [t]);
  }

  /** "h" then a letter token decodes to the upper-cased decode of the token. */
  lemma CapitalLetterToken(t: char)
    requires IsLookup(t)
    ensures Decode([CapitalTrigger, t]) == Upcase(Decode([t]))
  {
    assert [CapitalTrigger, t][1..] == [t];
    CapitalAppliesOnce(Letters, t, []);
    assert [t] + [] == [t];
    SingleLetterToken(t);
  }

  /** Concrete decodes in letter mode: "A" is "a", "x" has no entry. */
  lemma LetterExamples()
    ensures Decode("") == ""
    ensures Decode("A") == "a" && Decode("x") == "?"
    ensures Decode("Ah") == "a"
  {
    SingleLetterToken('A');
    SingleLetterToken('x');
    TrailingCapitalTrigger("A");
    assert "A" + [CapitalTrigger] == "Ah";
  }

  /** Concrete decodes in number mode. */
  lemma NumberExamples()
    ensures Decode("|Z") == "0" && Decode("|J") == "9" && Decode("|A") == "?"
    ensures Decode("||Z") == "0"
  {
    NumberToken('Z');
    NumberToken('J');
    NumberToken('A');
    assert "||Z" == [NumberTrigger] + "|Z";
    NumberTriggerStep(Initial, "|Z");
    assert "|Z" == [NumberTrigger] + "Z";
    NumberTriggerStep(DecoderState(Numbers, false), "Z");
    NumberTriggerStep(Initial, "Z");
  }

  /** Concrete decodes with the capital flag. */
  lemma CapitalExamples()
    ensures Decode("hAC") == "Ab"
    ensures Decode("h@A") == " A"
  {
    assert "hAC" == [CapitalTrigger] + "AC";
    assert "AC" == ['A'] + "C";
    CapitalAppliesOnce(Letters, 'A', "C");
    SingleLetterToken('C');
    assert "h@A" == [CapitalTrigger] + "@A";
    assert "@A" == [LetterTrigger] + "A";
    LetterTriggerStep(DecoderState(Letters, true), "A");
    assert "A" == ['A'] + [];
    CapitalAppliesOnce(Letters, 'A', []);
  }
}
