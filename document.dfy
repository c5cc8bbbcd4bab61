/** translate_document: the assembly of the decoded text from the children
    of the document root.

    The XML tree is abstracted to the sequence of the root's child elements
    in document order: a TEXT element with its text payload (a missing text
    node reads as ""), a BR element, or any other element. Each TEXT payload
    is decoded by translate_string with fresh decoder state, each BR adds a
    newline and everything else is skipped. */
module BrailleDocument {
  import opened BrailleTables
  import opened BrailleDecoder

  datatype Segment = Text(payload: string) | Br | Other

  /** What one child element contributes. */
  function SegmentText(seg: Segment): string
  {
    match seg
    case Text(p) => Decode(p)
    case Br => "\n"
    case Other => ""
  }

  /** The decoded document, segment by segment. */
  function DocumentText(segs: seq<Segment>): string
    decreases |segs|
  {
    if segs == [] then "" else SegmentText(segs[0]) + DocumentText(segs[1..])
  }

  /** The number of BR elements. */
  function BreakCount(segs: seq<Segment>): nat
    decreases |segs|
  {
    if segs == [] then 0 else (if segs[0].Br? then 1 else 0) + BreakCount(segs[1..])
  }

  /** translate_document, as the source writes it: one pass over the
      elements, appending to `translated`. */
  method TranslateDocument(segs: seq<Segment>) returns (translated: string)
    ensures translated == DocumentText(segs)
    ensures multiset(translated)['\n'] == BreakCount(segs)
  {
    translated := "";
    var i := 0;
    while i < |segs|
      invariant 0 <= i <= |segs|
      invariant translated == DocumentText(segs[..i])
    {
      assert segs[..i + 1] == segs[..i] + [segs[i]];
      DocumentConcat(segs[..i], [segs[i]]);
      assert DocumentText([segs[i]]) == SegmentText(segs[i]) + DocumentText([]);
      match segs[i] {
        case Text(p) =>
          var t := TranslateString(p);
          translated := translated + t;
        case Br =>
          translated := translated + "\n";
        case Other =>
      }
      i := i + 1;
    }
    assert segs[..i] == segs;
    NewlinesAreBreaks(segs);
  }

  /** The fold over a + b is the fold over a followed by the fold over b:
      decoder state does not carry from one segment to the next. */
  lemma {:induction false} DocumentConcat(a: seq<Segment>, b: seq<Segment>)
    ensures DocumentText(a + b) == DocumentText(a) + DocumentText(b)
    decreases |a|
  {
    if a == [] {
      assert a + b == b;
    } else {
      assert (a + b)[0] == a[0] && (a + b)[1..] == a[1..] + b;
      DocumentConcat(a[1..], b);
    }
  }

  /** Each BR contributes exactly one newline and nothing else contributes
      any, because the decoder never emits a newline. */
  lemma {:induction false} NewlinesAreBreaks(segs: seq<Segment>)
    ensures multiset(DocumentText(segs))['\n'] == BreakCount(segs)
    decreases |segs|
  {
    if segs != [] {
      NewlinesAreBreaks(segs[1..]);
      var head := SegmentText(segs[0]);
      assert multiset(DocumentText(segs)) == multiset(head) + multiset(DocumentText(segs[1..]));
      if segs[0].Text? {
        NeverEmitsLostCharacters(segs[0].payload);
        assert '\n' in "\ncqxyCQXY145678";
        assert multiset(head)['\n'] == 0;
      }
    }
  }

  /** An Other element can be dropped anywhere without changing the text. */
  lemma OtherContributesNothing(a: seq<Segment>, b: seq<Segment>)
    ensures DocumentText(a + [Other] + b) == DocumentText(a + b)
  {
    assert DocumentText([Other]) == "" by {
      assert DocumentText([Other]) == SegmentText(Other) + DocumentText([]);
    }
    calc {
      DocumentText(a + [Other] + b);
      { DocumentConcat(a + [Other], b); }
      DocumentText(a + [Other]) + DocumentText(b);
      { DocumentConcat(a, [Other]); }
      DocumentText(a) + DocumentText(b);
      { DocumentConcat(a, b); }
      DocumentText(a + b);
    }
  }

  /** Two TEXT elements decode independently: each starts in letter mode
      with no capital pending. */
  lemma TextSegmentsDecodeIndependently(p: string, q: string)
    ensures DocumentText([Text(p), Text(q)]) == Decode(p) + Decode(q)
  {
    assert [Text(p), Text(q)] == [Text(p)] + [Text(q)];
    DocumentConcat([Text(p)], [Text(q)]);
    assert DocumentText([Text(p)]) == Decode(p) + DocumentText([]);
    assert DocumentText([Text(q)]) == Decode(q) + DocumentText([]);
  }

  /** Number mode does not carry over a segment boundary: "|" then "Z" in two
      segments gives "j", while "|Z" in one segment gives "0". */
  lemma NoModeAcrossSegments()
    ensures DocumentText([Text("|"), Text("Z")]) == "j"
    ensures DocumentText([Text("|Z")]) == "0"
  {
    TextSegmentsDecodeIndependently("|", "Z");
    assert "|" == [NumberTrigger] + [];
    NumberTriggerStep(Initial, []);
    SingleLetterToken('Z');
    NumberExamples();
    assert DocumentText([Text("|Z")]) == Decode("|Z") + DocumentText([]);
  }

  /** A BR between two TEXT elements gives exactly the newline between
      their decodes, whatever they hold. */
  lemma BreakBetweenTexts(p: string, q: string)
    ensures DocumentText([Text(p), Br, Text(q)]) == Decode(p) + "\n" + Decode(q)
  {
    assert [Text(p), Br, Text(q)] == [Text(p)] + [Br, Text(q)];
    assert [Br, Text(q)] == [Br] + [Text(q)];
    SingleSegment(Text(p));
    SingleSegment(Br);
    SingleSegment(Text(q));
    calc {
      DocumentText([Text(p), Br, Text(q)]);
      { DocumentConcat([Text(p)], [Br, Text(q)]); }
      Decode(p) + DocumentText([Br, Text(q)]);
      { DocumentConcat([Br], [Text(q)]); }
      Decode(p) + ("\n" + Decode(q));
    }
  }

  /** A one-element document is that element's contribution. */
  lemma SingleSegment(seg: Segment)
    ensures DocumentText([seg]) == SegmentText(seg)
  {
    assert DocumentText([seg]) == SegmentText(seg) + DocumentText([]);
  }
}
