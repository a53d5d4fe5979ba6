/** What the writing styles do to spacing and to sentences: nothing but spaces is lost on the way. */
module SpacingTheorems {
  import opened Options
  import opened Spans
  import opened Styles
  import opened StyleTheorems
  import Scanner
  import Chunks
  import ChunkLaws

  /** A text without its whitespace. */
  function Ink(text: string): string {
    if text == "" then "" else (if Scanner.IsSpace(text[0]) then "" else [text[0]]) + Ink(text[1..])
  }

  predicate Blank(text: string) {
    forall k :: 0 <= k < |text| ==> Scanner.IsSpace(text[k])
  }

  lemma {:induction false} InkConcat(a: string, b: string)
    ensures Ink(a + b) == Ink(a) + Ink(b)
    decreases |a|
  {
    if a == "" {
      assert a + b == b;
    } else {
      assert (a + b)[1..] == a[1..] + b;
      InkConcat(a[1..], b);
    }
  }

  lemma {:induction false} BlankHasNoInk(text: string)
    requires Blank(text)
    ensures Ink(text) == ""
    decreases |text|
  {
    if text != "" {
      BlankHasNoInk(text[1..]);
    }
  }

  // ---------------------------------------------------------------- passes that only move spaces

  /** All that a pass writes, what it still holds at the end included. */
  function Written(step: (string, char) -> (string, string), held: string, text: string): string {
    Out(step, held, text) + Final(step, held, text)
  }

  lemma WrittenNext(step: (string, char) -> (string, string), held: string, text: string)
    requires text != ""
    ensures var (next, out) := step(held, text[0]);
      Written(step, held, text) == out + Written(step, next, text[1..])
  {
  }

  /** The pass holds back spaces only, and writes every other character as it comes. */
  predicate KeepsInk(step: (string, char) -> (string, string), held: string, c: char) {
    var (next, out) := step(held, c);
    Blank(held) ==> Blank(next) && Ink(out) == Ink([c])
  }

  lemma {:induction false} WrittenInk(step: (string, char) -> (string, string), held: string, text: string)
    requires Blank(held) && forall h: string, c: char :: KeepsInk(step, h, c)
    ensures Ink(Written(step, held, text)) == Ink(text)
    decreases |text|
  {
    if text == "" {
      BlankHasNoInk(held);
      assert Written(step, held, text) == held;
    } else {
      var (next, out) := step(held, text[0]);
      assert KeepsInk(step, held, text[0]);
      WrittenInk(step, next, text[1..]);
      WrittenNext(step, held, text);
      InkConcat(out, Written(step, next, text[1..]));
      InkConcat([text[0]], text[1..]);
      assert text == [text[0]] + text[1..];
    }
  }

  lemma HeldInk(held: string, c: char)
    requires Blank(held)
    ensures Ink(held + [c]) == Ink([c])
  {
    InkConcat(held, [c]);
    BlankHasNoInk(held);
  }

  function Collapser(): (string, char) -> (string, string) {
    (held: string, c: char) => CollapseStep(held, c)
  }

  function Tightener(marks: string): (string, char) -> (string, string) {
    (held: string, c: char) => TightenStep(marks, held, c)
  }

  lemma CollapsedInk(text: string)
    ensures Ink(Collapsed(text)) == Ink(text)
  {
    forall h: string, c: char
      ensures KeepsInk(Collapser(), h, c)
    {
      if Blank(h) {
        HeldInk(h, c);
      }
    }
    WrittenInk(Collapser(), "", text);
  }

  lemma TightenedInk(text: string, marks: string)
    ensures Ink(Tightened(text, marks)) == Ink(text)
  {
    forall h: string, c: char
      ensures KeepsInk(Tightener(marks), h, c)
    {
      if Blank(h) {
        HeldInk(h, c);
      }
    }
    WrittenInk(Tightener(marks), "", text);
  }

  lemma {:induction false} StripStartInk(text: string)
    ensures Ink(StripStart(text)) == Ink(text)
    ensures StripStart(text) != "" ==> !Scanner.IsSpace(StripStart(text)[0])
    decreases |text|
  {
    if text != "" && Scanner.IsSpace(text[0]) {
      StripStartInk(text[1..]);
    }
  }

  lemma {:induction false} StripEndInk(text: string)
    ensures Ink(StripEnd(text)) == Ink(text) && StripEnd(text) <= text
    ensures StripEnd(text) != "" ==> !Scanner.IsSpace(StripEnd(text)[|StripEnd(text)| - 1])
    decreases |text|
  {
    if text != "" && Scanner.IsSpace(text[|text| - 1]) {
      var front, last := text[..|text| - 1], [text[|text| - 1]];
      StripEndInk(front);
      InkConcat(front, last);
      assert text == front + last && Blank(last);
      BlankHasNoInk(last);
    }
  }

  // ---------------------------------------------------------------- spacing

  /** Whitespace is single spaces. */
  predicate Single(text: string) {
    forall k :: 0 <= k < |text| && Scanner.IsSpace(text[k]) ==>
      text[k] == ' ' && (k + 1 < |text| ==> !Scanner.IsSpace(text[k + 1]))
  }

  /** Whitespace is single spaces, each before a character that is no mark. */
  predicate Leaning(text: string, marks: string) {
    forall k :: 0 <= k < |text| && Scanner.IsSpace(text[k]) ==>
      text[k] == ' ' && k + 1 < |text| && !Scanner.IsSpace(text[k + 1]) && text[k + 1] !in marks
  }

  /** ... and the text does not start with one. */
  predicate Snug(text: string, marks: string) {
    Leaning(text, marks) && (text != "" ==> !Scanner.IsSpace(text[0]))
  }

  lemma SingleTail(text: string)
    requires Single(text) && text != ""
    ensures Single(text[1..])
  {
    assert forall k :: 0 <= k < |text[1..]| ==> text[1..][k] == text[k + 1];
  }

  lemma SingleCons(held: string, c: char, text: string)
    requires held in {"", " "} && !Scanner.IsSpace(c) && Single(text)
    ensures Single(held + [c] + text)
  {
  }

  lemma LeaningCons(held: string, c: char, text: string, marks: string)
    requires !Scanner.IsSpace(c) && Leaning(text, marks) && (held == "" || (held == " " && c !in marks))
    ensures Leaning(held + [c] + text, marks) && (held == "" ==> Snug(held + [c] + text, marks))
  {
    var all := held + [c] + text;
    forall k | 0 <= k < |all| && Scanner.IsSpace(all[k])
      ensures all[k] == ' ' && k + 1 < |all| && !Scanner.IsSpace(all[k + 1]) && all[k + 1] !in marks
    {
      if k > |held| {
        assert all[k] == text[k - |held| - 1] && Scanner.IsSpace(text[k - |held| - 1]);
        assert all[k + 1] == text[k - |held|];
      }
    }
  }

  lemma {:induction false} CollapsingSingles(held: string, text: string)
    requires held in {"", " "}
    ensures Single(Written(Collapser(), held, text))
    decreases |text|
  {
    if text == "" {
      assert Written(Collapser(), held, text) == held;
    } else {
      WrittenNext(Collapser(), held, text);
      if Scanner.IsSpace(text[0]) {
        CollapsingSingles(" ", text[1..]);
      } else {
        CollapsingSingles("", text[1..]);
        SingleCons(held, text[0], Written(Collapser(), "", text[1..]));
      }
    }
  }

  lemma TightenNext(held: string, text: string, marks: string)
    requires text != ""
    ensures var c, rest := text[0], text[1..];
      Written(Tightener(marks), held, text) ==
        if Scanner.IsSpace(c) then Written(Tightener(marks), held + [c], rest)
        else (if c in marks then "" else held) + [c] + Written(Tightener(marks), "", rest)
  {
    WrittenNext(Tightener(marks), held, text);
  }

  lemma {:induction false} TighteningLeans(held: string, text: string, marks: string)
    requires Single(text) && (text != "" ==> !Scanner.IsSpace(text[|text| - 1]))
    requires held == "" || (held == " " && text != "" && !Scanner.IsSpace(text[0]))
    ensures Leaning(Written(Tightener(marks), held, text), marks)
    ensures held == "" && text != "" && !Scanner.IsSpace(text[0]) ==> Snug(Written(Tightener(marks), held, text), marks)
    decreases |text|
  {
    if text == "" {
      assert Written(Tightener(marks), held, text) == "";
    } else {
      TightenNext(held, text, marks);
      SingleTail(text);
      var c, rest := text[0], text[1..];
      if Scanner.IsSpace(c) {
        assert held + [c] == " " && rest != "" && !Scanner.IsSpace(rest[0]);
        TighteningLeans(" ", rest, marks);
      } else {
        TighteningLeans("", rest, marks);
        LeaningCons(if c in marks then "" else held, c, Written(Tightener(marks), "", rest), marks);
      }
    }
  }

  lemma StrippedSingle(text: string)
    requires Single(text)
    ensures var out := Stripped(text);
      Single(out) && (out != "" ==> !Scanner.IsSpace(out[0]) && !Scanner.IsSpace(out[|out| - 1]))
  {
    var start := StripStart(text);
    StripStartInk(text);
    StripEndInk(start);
    StripStartSingle(text);
    var out := Stripped(text);
    assert forall k :: 0 <= k < |out| ==> out[k] == start[k];
  }

  lemma {:induction false} StripStartSingle(text: string)
    requires Single(text)
    ensures Single(StripStart(text))
    decreases |text|
  {
    if text != "" && Scanner.IsSpace(text[0]) {
      SingleTail(text);
      StripStartSingle(text[1..]);
    }
  }

  function Marks(p: Punctuation): string {
    p.terminators + p.separator + ";:"
  }

  /** Normalizing loses nothing but whitespace, and leaves none at either end, none doubled, and none
      before a mark. */
  lemma NormalizingIsTidy(text: string, p: Punctuation)
    ensures Ink(NormalizedSpacing(text, p)) == Ink(text)
    ensures Snug(NormalizedSpacing(text, p), Marks(p))
  {
    var collapsed := Collapsed(text);
    var stripped := Stripped(collapsed);
    assert collapsed == Written(Collapser(), "", text);
    assert NormalizedSpacing(text, p) == Written(Tightener(Marks(p)), "", stripped);
    CollapsedInk(text);
    StripStartInk(collapsed);
    StripEndInk(StripStart(collapsed));
    TightenedInk(stripped, Marks(p));
    CollapsingSingles("", text);
    StrippedSingle(collapsed);
    TighteningLeans("", stripped, Marks(p));
    if stripped == "" {
      assert Written(Tightener(Marks(p)), "", stripped) == "";
    }
  }

  /** A text that is already tidy is left as it is, so normalizing twice is normalizing once. */
  lemma TidyIsKept(text: string, p: Punctuation)
    requires Snug(text, Marks(p))
    ensures NormalizedSpacing(text, p) == text
  {
    CollapsingKeeps("", text, Marks(p));
    assert "" + text == text;
    assert Collapsed(text) == Written(Collapser(), "", text);
    assert StripStart(text) == text && StripEnd(text) == text;
    TighteningKeeps("", text, Marks(p));
    assert Tightened(text, Marks(p)) == Written(Tightener(Marks(p)), "", text);
  }

  lemma LeaningTail(text: string, marks: string)
    requires Leaning(text, marks) && text != ""
    ensures Leaning(text[1..], marks)
  {
    forall k | 0 <= k < |text[1..]| && Scanner.IsSpace(text[1..][k])
      ensures text[1..][k] == ' ' && k + 1 < |text[1..]|
      ensures !Scanner.IsSpace(text[1..][k + 1]) && text[1..][k + 1] !in marks
    {
      assert Scanner.IsSpace(text[k + 1]);
    }
  }

  lemma Reread(held: string, text: string)
    requires text != ""
    ensures held + text == held + [text[0]] + text[1..] && "" + text[1..] == text[1..]
    ensures "" + ([text[0]] + text[1..]) == text
  {
  }

  lemma {:induction false} CollapsingKeeps(held: string, text: string, marks: string)
    requires Leaning(text, marks) && (held == "" || (held == " " && text != "" && !Scanner.IsSpace(text[0])))
    ensures Written(Collapser(), held, text) == held + text
    decreases |text|
  {
    if text == "" {
      assert Written(Collapser(), held, text) == held;
    } else {
      WrittenNext(Collapser(), held, text);
      LeaningTail(text, marks);
      var rest := text[1..];
      if Scanner.IsSpace(text[0]) {
        assert rest != "" && !Scanner.IsSpace(rest[0]);
        CollapsingKeeps(" ", rest, marks);
      } else {
        CollapsingKeeps("", rest, marks);
      }
      Reread(held, text);
    }
  }

  lemma {:induction false} TighteningKeeps(held: string, text: string, marks: string)
    requires Leaning(text, marks)
    requires held == "" || (held == " " && text != "" && !Scanner.IsSpace(text[0]) && text[0] !in marks)
    ensures Written(Tightener(marks), held, text) == held + text
    decreases |text|
  {
    if text == "" {
      assert Written(Tightener(marks), held, text) == held;
    } else {
      TightenNext(held, text, marks);
      LeaningTail(text, marks);
      var c, rest := text[0], text[1..];
      if Scanner.IsSpace(c) {
        assert held + [c] == " " && rest != "" && !Scanner.IsSpace(rest[0]) && rest[0] !in marks;
        TighteningKeeps(" ", rest, marks);
      } else {
        TighteningKeeps("", rest, marks);
        assert c in marks ==> held == "";
      }
      Reread(held, text);
    }
  }

  /** What the clean style does to a masked transcript: it keeps all but the whitespace, and adds the language's
      terminator where the masked text does not end in one. */
  lemma MaskedCleanInk(text: string, p: Punctuation, t: Tables, hasBreak: bool, library: Option<seq<string>>)
    requires |p.terminator| <= 1
    ensures var ink := Ink(text);
      Ink(Styled(Clean, text, p, t, hasBreak, library)) ==
        ink + (if ink != "" && ink[|ink| - 1] !in p.terminators then Ink(p.terminator) else "")
  {
    var normalized := NormalizedSpacing(text, p);
    NormalizingIsTidy(text, p);
    if normalized != "" {
      assert !Scanner.IsSpace(normalized[|normalized| - 1]);
      LastInk(normalized);
    }
    InkConcat(normalized, p.terminator);
  }

  lemma LastInk(text: string)
    requires text != "" && !Scanner.IsSpace(text[|text| - 1])
    ensures Ink(text) != "" && Ink(text)[|Ink(text)| - 1] == text[|text| - 1]
  {
    var front, last := text[..|text| - 1], text[|text| - 1];
    InkConcat(front, [last]);
    assert text == front + [last] && Ink([last]) == [last];
  }

  // ---------------------------------------------------------------- ink through masking and restoring

  predicate IsInk(text: string) {
    forall k :: 0 <= k < |text| ==> !Scanner.IsSpace(text[k])
  }

  lemma {:induction false} InkIsKept(text: string)
    requires IsInk(text)
    ensures Ink(text) == text
    decreases |text|
  {
    if text != "" {
      InkIsKept(text[1..]);
      assert text == [text[0]] + text[1..];
    }
  }

  lemma TagIsInk(n: nat)
    ensures Ink(Tag(n)) == Tag(n)
  {
    TagIsCore(n);
    InkIsKept(Tag(n));
  }

  lemma {:induction false} InkIsFree(text: string)
    requires Free(text)
    ensures Free(Ink(text))
    decreases |text|
  {
    if text != "" {
      InkIsFree(text[1..]);
    }
  }

  function Inks(tokens: seq<string>): seq<string> {
    seq(|tokens|, k requires 0 <= k < |tokens| => Ink(tokens[k]))
  }

  predicate Known(ms: seq<nat>, tokens: seq<string>) {
    forall k :: 0 <= k < |ms| ==> ms[k] < |tokens|
  }

  /** One placeholder of a text, restored. */
  lemma RestoredOnce(gap: string, n: nat, rest: string, tokens: seq<string>, tail: string)
    requires Free(gap) && n < |tokens| && RestoredFrom(rest, tokens) == Some(tail)
    ensures RestoredFrom(gap + Tag(n) + rest, tokens) == Some(gap + tokens[n] + tail)
  {
    RestoringSpan(gap, tokens[n], n, rest, tail, tokens);
  }

  lemma InkOfThree(a: string, b: string, c: string)
    ensures Ink(a + b + c) == Ink(a) + Ink(b) + Ink(c)
  {
    InkConcat(a + b, c);
    InkConcat(a, b);
  }

  /** Dropping whitespace before restoring or after it is the same. */
  lemma {:induction false} RestoringKeepsInk(text: string, ms: seq<nat>, tokens: seq<string>)
    requires Marked(text, ms) && Known(ms, tokens)
    ensures RestoredFrom(text, tokens).Some? && Marked(Ink(text), ms)
    ensures RestoredFrom(Ink(text), Inks(tokens)) == Some(Ink(RestoredFrom(text, tokens).value))
    decreases |ms|
  {
    if ms == [] {
      InkIsFree(text);
      RestoringFree(text, tokens);
      RestoringFree(Ink(text), Inks(tokens));
    } else {
      var gap: string, rest: string :| Opens(text, gap, ms[0], rest) && Marked(rest, ms[1..]);
      RestoringKeepsInk(rest, ms[1..], tokens);
      var tail := RestoredFrom(rest, tokens).value;
      InkIsFree(gap);
      TagIsInk(ms[0]);
      InkOfThree(gap, Tag(ms[0]), rest);
      MarkedCons(Ink(gap), Ink(rest), ms);
      RestoredOnce(gap, ms[0], rest, tokens, tail);
      RestoredOnce(Ink(gap), ms[0], Ink(rest), Inks(tokens), Ink(tail));
      InkOfThree(gap, tokens[ms[0]], tail);
    }
  }

  lemma RestoringFree(text: string, tokens: seq<string>)
    requires Free(text)
    ensures RestoredFrom(text, tokens) == Some(text)
  {
    RestoringGap(text, "", tokens);
    assert text + "" == text;
  }

  /** What is written behind a masked text comes out behind the restored one. */
  lemma {:induction false} RestoringSuffix(text: string, ms: seq<nat>, suffix: string, tokens: seq<string>)
    requires Marked(text, ms) && Known(ms, tokens) && Free(suffix)
    ensures RestoredFrom(text, tokens).Some?
    ensures RestoredFrom(text + suffix, tokens) == Some(RestoredFrom(text, tokens).value + suffix)
    decreases |ms|
  {
    if ms == [] {
      RestoringFree(text, tokens);
      RestoringFree(text + suffix, tokens);
    } else {
      var gap: string, rest: string :| Opens(text, gap, ms[0], rest) && Marked(rest, ms[1..]);
      RestoringSuffix(rest, ms[1..], suffix, tokens);
      var tail := RestoredFrom(rest, tokens).value;
      RestoredOnce(gap, ms[0], rest, tokens, tail);
      RestoredOnce(gap, ms[0], rest + suffix, tokens, tail + suffix);
      MovedText(gap + Tag(ms[0]), rest + suffix, rest, suffix);
      MovedText(gap + tokens[ms[0]], tail + suffix, tail, suffix);
    }
  }

  lemma RangeIsKnown(tokens: seq<string>)
    ensures Known(Range(0, |tokens|), tokens)
  {
  }

  predicate EndsUnmarked(ink: string, terminators: string) {
    ink != "" && ink[|ink| - 1] !in terminators
  }

  /** The clean style keeps every character of a transcript but its whitespace, and adds the language's
      terminator exactly where the masked transcript has any character and does not end in a terminator. */
  lemma CleanKeepsInk(text: string, p: Punctuation, t: Tables, find: Finder, hasBreak: bool,
                      library: Option<seq<string>>)
    requires Free(text) && PlainPunctuation(p)
    ensures var result := Applied(text, Clean, p, t, find, hasBreak, library);
      result.Some? && Ink(result.value) == Ink(text) +
        (if EndsUnmarked(Ink(MaskedFrom(find, text, 0, []).text), p.terminators) then Ink(p.terminator) else "")
  {
    var masking := MaskedFrom(find, text, 0, []);
    var tokens, masked := masking.tokens, masking.text;
    var ms, styled := Range(0, |tokens|), Styled(Clean, masked, p, t, hasBreak, library);
    var suffix := if EndsUnmarked(Ink(masked), p.terminators) then Ink(p.terminator) else "";
    MaskingNumbersSpans(find, text, 0, []);
    RangeIsKnown(tokens);
    NormalizedMarked(masked, ms, p);
    TerminatedMarked(NormalizedSpacing(masked, p), ms, p);
    MaskedCleanInk(masked, p, t, hasBreak, library);
    MaskingUndone(find, text, 0, [], tokens);
    assert text[0..] == text;
    CleanInkRestored(masked, styled, ms, tokens, text, suffix, p);
    if tokens == [] {
      RestoringFree(styled, tokens);
    }
  }

  lemma CleanInkRestored(masked: string, styled: string, ms: seq<nat>, tokens: seq<string>, text: string,
                         suffix: string, p: Punctuation)
    requires Marked(masked, ms) && Marked(styled, ms) && Known(ms, tokens)
    requires RestoredFrom(masked, tokens) == Some(text) && Ink(styled) == Ink(masked) + suffix
    requires suffix == "" || (PlainPunctuation(p) && suffix == Ink(p.terminator))
    ensures RestoredFrom(styled, tokens).Some? && Ink(RestoredFrom(styled, tokens).value) == Ink(text) + suffix
  {
    InksAreKnown(ms, tokens);
    RestoringKeepsInk(masked, ms, tokens);
    RestoringKeepsInk(styled, ms, tokens);
    if suffix != "" {
      InkIsFree(p.terminator);
    }
    RestoringSuffix(Ink(masked), ms, suffix, Inks(tokens));
  }

  lemma InksAreKnown(ms: seq<nat>, tokens: seq<string>)
    requires Known(ms, tokens)
    ensures Known(ms, Inks(tokens))
  {
  }

  lemma WholeIsMasked(text: string, find: Finder)
    requires text != "" && find(text, 0) == Some(Match(0, |text|, true)) && find(text, |text|) == None
    ensures MaskedFrom(find, text, 0, []) == Masking(Tag(0), [text])
  {
    assert text[0..|text|] == text && text[0..0] == "" && text[|text|..] == "";
    MaskedStep(find, text, 0, [], Match(0, |text|, true));
    assert MaskedFrom(find, text, |text|, [text]) == Masking("", [text]);
    assert [] + [text] == [text] && "" + Tag(0) + "" == Tag(0);
  }

  lemma TagGetsTerminator(p: Punctuation, t: Tables, hasBreak: bool, library: Option<seq<string>>)
    requires PlainPunctuation(p)
    ensures Styled(Clean, Tag(0), p, t, hasBreak, library) == Tag(0) + p.terminator
  {
    TagIsCore(0);
    TidyIsKept(Tag(0), p);
  }

  /** The masked text decides, not the transcript: one that is a single protected span always gets the
      terminator, even if it ends in one, as an acronym does. */
  lemma WholeSpanGetsTerminator(text: string, p: Punctuation, t: Tables, find: Finder, hasBreak: bool,
                                library: Option<seq<string>>)
    requires PlainPunctuation(p) && text != ""
    requires find(text, 0) == Some(Match(0, |text|, true)) && find(text, |text|) == None
    ensures Applied(text, Clean, p, t, find, hasBreak, library) == Some(text + p.terminator)
  {
    WholeIsMasked(text, find);
    TagGetsTerminator(p, t, hasBreak, library);
    RestoringTag(0, p.terminator, [text]);
    RestoringFree(p.terminator, [text]);
  }

  lemma AcronymGetsTwoStops(p: Punctuation, t: Tables, find: Finder, hasBreak: bool, library: Option<seq<string>>)
    requires PlainPunctuation(p) && p.terminator == "."
    requires find("U.S.", 0) == Some(Match(0, 4, true)) && find("U.S.", 4) == None
    ensures Applied("U.S.", Clean, p, t, find, hasBreak, library) == Some("U.S..")
  {
    WholeSpanGetsTerminator("U.S.", p, t, find, hasBreak, library);
    assert "U.S." + "." == "U.S..";
  }

  // ---------------------------------------------------------------- sentences

  lemma {:induction false} SentencesAddUp(text: string, start: nat, terminators: string)
    requires start <= |text|
    ensures Chunks.Joined(SentencesFrom(text, start, terminators)) == text[start..]
    decreases |text| - start
  {
    SentencesStep(text, start, terminators);
    var next := NextBreak(terminators, text, start);
    if next.Some? {
      var head, tail := text[start..next.value], SentencesFrom(text, next.value, terminators);
      SentencesAddUp(text, next.value, terminators);
      ChunkLaws.JoinedCons(head, tail);
      ChunkLaws.Resumed(text, start, next.value);
    } else if start < |text| {
      assert [text[start..]][1..] == [];
    }
  }

  /** However a text is segmented, by the library or without it, its sentences add up to the text. */
  lemma SegmentingIsLossless(text: string, p: Punctuation, hasBreak: bool, library: Option<seq<string>>)
    ensures Chunks.Joined(Segmented(text, p, hasBreak, library)) == text
  {
    SentencesAddUp(text, 0, p.terminators);
    assert [text][1..] == [] && text[0..] == text;
  }
}
