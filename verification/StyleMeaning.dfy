/** No style changes what a transcript says: only spacing, case and the language's marks. */
module StyleMeaning {
  import opened Options
  import opened Spans
  import opened Styles
  import opened StyleTheorems
  import opened SpacingTheorems
  import Scanner
  import Chunks
  import ChunkLaws

  /** A text read character by character. */
  function Read(reading: char -> string, text: string): string {
    if text == "" then "" else reading(text[0]) + Read(reading, text[1..])
  }

  lemma {:induction false} ReadConcat(reading: char -> string, a: string, b: string)
    ensures Read(reading, a + b) == Read(reading, a) + Read(reading, b)
    decreases |a|
  {
    if a == "" {
      assert a + b == b;
    } else {
      assert (a + b)[1..] == a[1..] + b;
      ReadConcat(reading, a[1..], b);
      MovedText(reading(a[0]), Read(reading, a[1..]) + Read(reading, b), Read(reading, a[1..]), Read(reading, b));
    }
  }

  lemma ReadOne(reading: char -> string, c: char)
    ensures Read(reading, [c]) == reading(c)
  {
    assert [c][1..] == "";
  }

  function AllMarks(p: Punctuation): string {
    p.terminators + p.terminator + p.separator + p.exclamation + p.question + p.join
  }

  /** The reading does not hear whitespace, case and the language's marks, and sees placeholders as they are. */
  ghost predicate Deaf(reading: char -> string, p: Punctuation, t: Tables) {
    && (forall c: char :: Scanner.IsSpace(c) || c in AllMarks(p) ==> reading(c) == "")
    && (forall c: char :: IsCore(c) ==> reading(c) == [c])
    && (forall c: char :: !IsSentinel(c) ==> Free(reading(c)))
    && (forall c: char :: t.letter(c) ==> Read(reading, t.upper(c)) == reading(c))
    && (forall s: string :: Read(reading, t.lower(s)) == Read(reading, s))
  }

  lemma {:induction false} NothingIsRead(reading: char -> string, text: string)
    requires forall k :: 0 <= k < |text| ==> reading(text[k]) == ""
    ensures Read(reading, text) == ""
    decreases |text|
  {
    if text != "" {
      NothingIsRead(reading, text[1..]);
    }
  }

  /** The marks of the language, each as a text, are not heard. */
  lemma MarksAreSilent(reading: char -> string, p: Punctuation, t: Tables)
    requires Deaf(reading, p, t)
    ensures Read(reading, p.terminator) == "" && Read(reading, p.separator) == "" && Read(reading, p.exclamation) == ""
    ensures Read(reading, p.question) == "" && Read(reading, p.join) == ""
  {
    NothingIsRead(reading, p.terminator);
    NothingIsRead(reading, p.separator);
    NothingIsRead(reading, p.exclamation);
    NothingIsRead(reading, p.question);
    NothingIsRead(reading, p.join);
  }

  /** What is heard of a text is heard of its ink. */
  lemma {:induction false} InkIsRead(reading: char -> string, text: string)
    requires forall c: char :: Scanner.IsSpace(c) ==> reading(c) == ""
    ensures Read(reading, Ink(text)) == Read(reading, text)
    decreases |text|
  {
    if text != "" {
      InkIsRead(reading, text[1..]);
      if Scanner.IsSpace(text[0]) {
        assert Ink(text) == Ink(text[1..]);
      } else {
        ReadConcat(reading, [text[0]], Ink(text[1..]));
        ReadOne(reading, text[0]);
      }
    }
  }

  lemma SameInkSameReading(reading: char -> string, a: string, b: string)
    requires (forall c: char :: Scanner.IsSpace(c) ==> reading(c) == "") && Ink(a) == Ink(b)
    ensures Read(reading, a) == Read(reading, b)
  {
    InkIsRead(reading, a);
    InkIsRead(reading, b);
  }

  // ---------------------------------------------------------------- the styles

  /** A substitution that is heard as what it replaces. */
  ghost predicate ReadsSame<S(!new)>(reading: char -> string, step: (S, char) -> (S, string)) {
    forall s: S, c: char :: Read(reading, step(s, c).1) == reading(c)
  }

  lemma {:induction false} OutIsRead<S(!new)>(reading: char -> string, step: (S, char) -> (S, string), s: S,
                                              text: string)
    requires ReadsSame(reading, step)
    ensures Read(reading, Out(step, s, text)) == Read(reading, text)
    decreases |text|
  {
    if text != "" {
      var (next, out) := step(s, text[0]);
      OutIsRead(reading, step, next, text[1..]);
      ReadConcat(reading, out, Out(step, next, text[1..]));
    }
  }

  lemma CapitalsAreRead(reading: char -> string, text: string, terminators: string, p: Punctuation, t: Tables)
    requires Deaf(reading, p, t)
    ensures Read(reading, CapitalizedStarts(text, terminators, t)) == Read(reading, text)
  {
    var step := (armed: Armed, c: char) => CapitalStep(terminators, t, armed, c);
    forall armed: Armed, c: char
      ensures Read(reading, step(armed, c).1) == reading(c)
    {
      ReadOne(reading, c);
    }
    OutIsRead(reading, step, AfterBracket, text);
  }

  lemma SilentEnd(reading: char -> string, text: string, suffix: string)
    requires Read(reading, suffix) == ""
    ensures Read(reading, text + suffix) == Read(reading, text)
  {
    ReadConcat(reading, text, suffix);
  }

  lemma EndDropped(reading: char -> string, text: string, n: nat)
    requires n <= |text| && Read(reading, text[|text| - n..]) == ""
    ensures Read(reading, text[..|text| - n]) == Read(reading, text)
  {
    var front, end := text[..|text| - n], text[|text| - n..];
    SilentEnd(reading, front, end);
    Reunited(text, |text| - n);
  }

  lemma Reunited(text: string, at: nat)
    requires at <= |text|
    ensures text[..at] + text[at..] == text
  {
  }

  lemma StrippedIsRead(reading: char -> string, text: string)
    requires forall c: char :: Scanner.IsSpace(c) ==> reading(c) == ""
    ensures Read(reading, Stripped(text)) == Read(reading, text)
  {
    StripStartInk(text);
    StripEndInk(StripStart(text));
    SameInkSameReading(reading, Stripped(text), text);
  }

  lemma NormalizedIsRead(reading: char -> string, text: string, p: Punctuation, t: Tables)
    requires Deaf(reading, p, t)
    ensures Read(reading, NormalizedSpacing(text, p)) == Read(reading, text)
  {
    NormalizingIsTidy(text, p);
    SameInkSameReading(reading, NormalizedSpacing(text, p), text);
  }

  lemma CasualIsRead(reading: char -> string, text: string, p: Punctuation, t: Tables)
    requires Deaf(reading, p, t)
    ensures Read(reading, CasualStyle(text, p, t)) == Read(reading, text)
  {
    var formatted := CapitalizedStarts(text, p.terminators, t);
    CapitalsAreRead(reading, text, p.terminators, p, t);
    MarksAreSilent(reading, p, t);
    StopDropped(reading, formatted, p.terminator);
  }

  lemma StopDropped(reading: char -> string, text: string, stop: string)
    requires Read(reading, stop) == ""
    ensures EndsWith(text, stop) ==> Read(reading, text[..|text| - |stop|]) == Read(reading, text)
  {
    if EndsWith(text, stop) {
      EndDropped(reading, text, |stop|);
    }
  }

  lemma BodyIsRead(reading: char -> string, sentence: string, p: Punctuation, t: Tables)
    requires Deaf(reading, p, t)
    ensures var (body, term) := SplitTerminator(sentence, p);
      Read(reading, body) == Read(reading, sentence) && Read(reading, term) == ""
  {
    var stripped := Stripped(sentence);
    StrippedIsRead(reading, sentence);
    if stripped != "" && stripped[|stripped| - 1] in p.terminators {
      assert stripped[|stripped| - 1..] == [stripped[|stripped| - 1]];
      ReadOne(reading, stripped[|stripped| - 1]);
      EndDropped(reading, stripped, 1);
    }
  }

  lemma CasualSegmentIsRead(reading: char -> string, sentence: string, p: Punctuation, t: Tables, isLast: bool)
    requires Deaf(reading, p, t)
    ensures Read(reading, CasualSegment(sentence, p, isLast)) == Read(reading, sentence)
  {
    var (body, term) := SplitTerminator(sentence, p);
    BodyIsRead(reading, sentence, p, t);
    MarksAreSilent(reading, p, t);
    SilentEnd(reading, body, p.separator);
    SilentEnd(reading, body, term);
  }

  lemma ExcitedSegmentIsRead(reading: char -> string, sentence: string, p: Punctuation, t: Tables)
    requires Deaf(reading, p, t)
    ensures Read(reading, ExcitedSegment(sentence, p, t)) == Read(reading, sentence)
  {
    var (body, term) := SplitTerminator(sentence, p);
    BodyIsRead(reading, sentence, p, t);
    CapitalsAreRead(reading, body, "", p, t);
    MarksAreSilent(reading, p, t);
    SilentEnd(reading, Capitalized(body, t), term);
    SilentEnd(reading, Capitalized(body, t), p.exclamation);
  }

  lemma {:induction false} JoinedIsRead(reading: char -> string, parts: seq<string>, join: string)
    requires Read(reading, join) == ""
    ensures Read(reading, JoinedParts(parts, join)) == Read(reading, Chunks.Joined(parts))
    decreases |parts|
  {
    if parts != [] {
      var head, rest := parts[0], JoinedParts(parts[1..], join);
      JoinedIsRead(reading, parts[1..], join);
      ReadConcat(reading, head, Chunks.Joined(parts[1..]));
      SilentEnd(reading, head, join);
      ReadConcat(reading, head + join, rest);
    }
  }

  lemma {:induction false} CasualPartsAreRead(reading: char -> string, sentences: seq<string>, p: Punctuation,
                                               t: Tables)
    requires Deaf(reading, p, t)
    ensures Read(reading, Chunks.Joined(CasualParts(sentences, p))) == Read(reading, Chunks.Joined(sentences))
    decreases |sentences|
  {
    if sentences != [] {
      var head, rest := CasualSegment(sentences[0], p, |sentences| == 1), CasualParts(sentences[1..], p);
      CasualPartsAreRead(reading, sentences[1..], p, t);
      CasualSegmentIsRead(reading, sentences[0], p, t, |sentences| == 1);
      ChunkLaws.JoinedCons(head, rest);
      ReadConcat(reading, head, Chunks.Joined(rest));
      ReadConcat(reading, sentences[0], Chunks.Joined(sentences[1..]));
    }
  }

  lemma {:induction false} ExcitedPartsAreRead(reading: char -> string, sentences: seq<string>, p: Punctuation,
                                               t: Tables)
    requires Deaf(reading, p, t)
    ensures Read(reading, Chunks.Joined(ExcitedParts(sentences, p, t))) == Read(reading, Chunks.Joined(sentences))
    decreases |sentences|
  {
    if sentences != [] {
      var head, rest := ExcitedSegment(sentences[0], p, t), ExcitedParts(sentences[1..], p, t);
      ExcitedPartsAreRead(reading, sentences[1..], p, t);
      ExcitedSegmentIsRead(reading, sentences[0], p, t);
      ChunkLaws.JoinedCons(head, rest);
      ReadConcat(reading, head, Chunks.Joined(rest));
      ReadConcat(reading, sentences[0], Chunks.Joined(sentences[1..]));
    }
  }

  lemma {:induction false} LoweredIsRead(reading: char -> string, text: string, p: Punctuation, t: Tables)
    requires Deaf(reading, p, t)
    ensures Read(reading, LoweredOutside(text, t.lower)) == Read(reading, text)
    decreases |text|
  {
    var gap := GapEnd(text);
    if gap < |text| {
      var end := FirstEnd(text, gap);
      LoweredIsRead(reading, text[end..], p, t);
      LoweredFirst(text, t.lower);
      LoweredRound(reading, text, gap, end, t.lower(text[..gap]), LoweredOutside(text[end..], t.lower));
    }
  }

  lemma LoweredRound(reading: char -> string, text: string, gap: nat, end: nat, lowered: string, rest: string)
    requires gap <= end <= |text| && Read(reading, lowered) == Read(reading, text[..gap])
    requires Read(reading, rest) == Read(reading, text[end..])
    ensures Read(reading, lowered + text[gap..end] + rest) == Read(reading, text)
  {
    ReadThree(reading, lowered, text[gap..end], rest);
    ReadThree(reading, text[..gap], text[gap..end], text[end..]);
    assert text[..gap] + text[gap..end] + text[end..] == text;
  }

  lemma ReadThree(reading: char -> string, a: string, b: string, c: string)
    ensures Read(reading, a + b + c) == Read(reading, a) + Read(reading, b) + Read(reading, c)
  {
    ReadConcat(reading, a + b, c);
    ReadConcat(reading, a, b);
  }

  /** A masked text, styled, reads as before. */
  lemma StyledIsRead(reading: char -> string, style: Style, text: string, p: Punctuation, t: Tables,
                     hasBreak: bool, library: Option<seq<string>>)
    requires Deaf(reading, p, t)
    ensures Read(reading, Styled(style, text, p, t, hasBreak, library)) == Read(reading, text)
  {
    var normalized := NormalizedSpacing(text, p);
    NormalizedIsRead(reading, text, p, t);
    MarksAreSilent(reading, p, t);
    match style
    case Raw =>
    case Clean => SilentEnd(reading, normalized, p.terminator);
    case Formal =>
      CapitalsAreRead(reading, normalized, p.terminators, p, t);
      SilentEnd(reading, CapitalizedStarts(normalized, p.terminators, t), p.terminator);
    case Casual => CasualIsRead(reading, normalized, p, t);
    case VeryCasual =>
      var sentences := Segmented(normalized, p, hasBreak, library);
      SegmentingIsLossless(normalized, p, hasBreak, library);
      CasualPartsAreRead(reading, sentences, p, t);
      JoinedIsRead(reading, CasualParts(sentences, p), p.join);
      LoweredIsRead(reading, JoinedParts(CasualParts(sentences, p), p.join), p, t);
    case Excited =>
      var sentences := Segmented(normalized, p, hasBreak, library);
      SegmentingIsLossless(normalized, p, hasBreak, library);
      ExcitedPartsAreRead(reading, sentences, p, t);
      JoinedIsRead(reading, ExcitedParts(sentences, p, t), p.join);
  }

  // ---------------------------------------------------------------- through masking and restoring

  function Readings(reading: char -> string, tokens: seq<string>): seq<string> {
    seq(|tokens|, k requires 0 <= k < |tokens| => Read(reading, tokens[k]))
  }

  lemma {:induction false} CoreIsRead(reading: char -> string, text: string)
    requires forall c: char :: IsCore(c) ==> reading(c) == [c]
    requires forall k :: 0 <= k < |text| ==> IsCore(text[k])
    ensures Read(reading, text) == text
    decreases |text|
  {
    if text != "" {
      CoreIsRead(reading, text[1..]);
      assert text == [text[0]] + text[1..];
    }
  }

  lemma {:induction false} FreeIsReadFree(reading: char -> string, text: string)
    requires Free(text) && forall c: char :: !IsSentinel(c) ==> Free(reading(c))
    ensures Free(Read(reading, text))
    decreases |text|
  {
    if text != "" {
      FreeIsReadFree(reading, text[1..]);
    }
  }

  lemma ReadPlaceholder(reading: char -> string, gap: string, n: nat, rest: string)
    requires forall c: char :: IsCore(c) ==> reading(c) == [c]
    ensures Read(reading, gap + Tag(n) + rest) == Read(reading, gap) + Tag(n) + Read(reading, rest)
  {
    TagIsCore(n);
    CoreIsRead(reading, Tag(n));
    ReadThree(reading, gap, Tag(n), rest);
  }

  /** Restoring and then reading is reading and then restoring. */
  lemma {:induction false} RestoringIsRead(reading: char -> string, text: string, ms: seq<nat>, tokens: seq<string>)
    requires Marked(text, ms) && Known(ms, tokens)
    requires forall c: char :: IsCore(c) ==> reading(c) == [c]
    requires forall c: char :: !IsSentinel(c) ==> Free(reading(c))
    ensures RestoredFrom(text, tokens).Some?
    ensures RestoredFrom(Read(reading, text), Readings(reading, tokens))
      == Some(Read(reading, RestoredFrom(text, tokens).value))
    decreases |ms|
  {
    if ms == [] {
      FreeIsReadFree(reading, text);
      RestoringFree(text, tokens);
      RestoringFree(Read(reading, text), Readings(reading, tokens));
    } else {
      var gap: string, rest: string :| Opens(text, gap, ms[0], rest) && Marked(rest, ms[1..]);
      RestoringIsRead(reading, rest, ms[1..], tokens);
      var tail := RestoredFrom(rest, tokens).value;
      FreeIsReadFree(reading, gap);
      ReadPlaceholder(reading, gap, ms[0], rest);
      RestoredOnce(gap, ms[0], rest, tokens, tail);
      RestoredOnce(Read(reading, gap), ms[0], Read(reading, rest), Readings(reading, tokens), Read(reading, tail));
      ReadThree(reading, gap, tokens[ms[0]], tail);
    }
  }

  lemma SanitizedIsRead(reading: char -> string, tokens: seq<string>, style: Style, p: Punctuation, t: Tables)
    requires Deaf(reading, p, t)
    ensures |Sanitized(tokens, style, t)| == |tokens|
    ensures Readings(reading, Sanitized(tokens, style, t)) == Readings(reading, tokens)
  {
  }

  /** Every style keeps what a transcript says: whoever does not hear whitespace, case and the language's marks reads
      the styled transcript as the transcript, protected spans included. */
  lemma StylesKeepMeaning(reading: char -> string, text: string, style: Style, p: Punctuation, t: Tables,
                          find: Finder, hasBreak: bool, library: Option<seq<string>>)
    requires Free(text) && PlainPunctuation(p) && SoundTables(t) && Deaf(reading, p, t)
    requires var masking := MaskedFrom(find, text, 0, []);
      style in {VeryCasual, Excited} ==>
        SegmenterSpares(NormalizedSpacing(masking.text, p), Range(0, |masking.tokens|), library)
    ensures var result := Applied(text, style, p, t, find, hasBreak, library);
      result.Some? && Read(reading, result.value) == Read(reading, text)
  {
    if style == Raw {
      StrippedIsRead(reading, text);
      return;
    }
    var masking := MaskedFrom(find, text, 0, []);
    var spans, masked := masking.tokens, masking.text;
    var ms, tokens := Range(0, |spans|), Sanitized(spans, style, t);
    var styled := Styled(style, masked, p, t, hasBreak, library);
    MaskingNumbersSpans(find, text, 0, []);
    RangeIsKnown(spans);
    SanitizedIsRead(reading, spans, style, p, t);
    StylesKeepPlaceholders(style, masked, ms, p, t, hasBreak, library);
    MaskingUndone(find, text, 0, [], spans);
    assert text[0..] == text;
    StyledIsRead(reading, style, masked, p, t, hasBreak, library);
    RestoringIsRead(reading, masked, ms, spans);
    RestoringIsRead(reading, styled, ms, tokens);
    if tokens == [] {
      RestoringFree(styled, tokens);
    }
  }
}
