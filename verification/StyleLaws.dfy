/** What each style does to letters, marks and sentences, said of the text alone. */
module StyleLaws {
  import opened Options
  import opened Spans
  import opened Styles
  import opened StyleTheorems
  import opened SpacingTheorems
  import Scanner
  import Chunks
  import Boundaries

  // ---------------------------------------------------------------- capitals

  /** Marks are neither whitespace nor opening quotes and brackets. */
  predicate ProperMarks(marks: string) {
    forall k :: 0 <= k < |marks| ==> !Scanner.IsSpace(marks[k]) && !IsBracket(marks[k])
  }

  /** Behind a terminator at `i - 1` and nothing but whitespace. */
  predicate BehindMark(text: string, i: nat, k: nat, terminators: string) {
    0 < i <= k <= |text| && text[i - 1] in terminators && forall m :: i <= m < k ==> Scanner.IsSpace(text[m])
  }

  ghost predicate MarkBefore(text: string, k: nat, terminators: string) {
    exists i: nat :: BehindMark(text, i, k, terminators)
  }

  predicate BracketsFrom(text: string, j: nat, k: nat) {
    j <= k <= |text| && forall m :: j <= m < k ==> IsBracket(text[m])
  }

  /** At the start of the text, or behind a terminator and whitespace; opening quotes and brackets may follow. */
  ghost predicate StartsSentence(text: string, k: nat, terminators: string) {
    exists j: nat :: BracketsFrom(text, j, k) && (j == 0 || MarkBefore(text, j, terminators))
  }

  /** The text with a capital wherever a letter starts a sentence, and no other change. */
  ghost function WithCapitals(text: string, k: nat, terminators: string, t: Tables): string
    requires k <= |text|
    decreases |text| - k
  {
    if k == |text| then ""
    else
      (if text[k] !in terminators && t.letter(text[k]) && StartsSentence(text, k, terminators)
       then t.upper(text[k]) else [text[k]])
      + WithCapitals(text, k + 1, terminators, t)
  }

  ghost predicate StateFits(armed: Armed, text: string, k: nat, terminators: string) {
    && (armed == AfterMark <==> MarkBefore(text, k, terminators))
    && (armed != Off <==> StartsSentence(text, k, terminators))
  }

  lemma MarkBeforeNext(text: string, k: nat, terminators: string)
    requires k < |text| && ProperMarks(terminators)
    ensures MarkBefore(text, k + 1, terminators) <==>
      text[k] in terminators || (Scanner.IsSpace(text[k]) && MarkBefore(text, k, terminators))
  {
    if text[k] in terminators {
      assert BehindMark(text, k + 1, k + 1, terminators);
    }
    if MarkBefore(text, k + 1, terminators) {
      var i: nat :| BehindMark(text, i, k + 1, terminators);
      assert i <= k ==> BehindMark(text, i, k, terminators);
    }
    if Scanner.IsSpace(text[k]) && MarkBefore(text, k, terminators) {
      var i: nat :| BehindMark(text, i, k, terminators);
      assert BehindMark(text, i, k + 1, terminators);
    }
  }

  lemma StartsNext(text: string, k: nat, terminators: string)
    requires k < |text| && ProperMarks(terminators)
    ensures StartsSentence(text, k + 1, terminators) <==>
      MarkBefore(text, k + 1, terminators) || (IsBracket(text[k]) && StartsSentence(text, k, terminators))
  {
    if MarkBefore(text, k + 1, terminators) {
      assert BracketsFrom(text, k + 1, k + 1);
    }
    if IsBracket(text[k]) && StartsSentence(text, k, terminators) {
      var j: nat :| BracketsFrom(text, j, k) && (j == 0 || MarkBefore(text, j, terminators));
      assert BracketsFrom(text, j, k + 1);
    }
    if StartsSentence(text, k + 1, terminators) {
      var j: nat :| BracketsFrom(text, j, k + 1) && (j == 0 || MarkBefore(text, j, terminators));
      assert j <= k ==> BracketsFrom(text, j, k);
    }
  }

  lemma SpacesAreNoBrackets(c: char)
    ensures Scanner.IsSpace(c) ==> !IsBracket(c)
  {
  }

  lemma StateMoves(armed: Armed, text: string, k: nat, terminators: string, t: Tables)
    requires k < |text| && ProperMarks(terminators) && StateFits(armed, text, k, terminators)
    ensures StateFits(CapitalStep(terminators, t, armed, text[k]).0, text, k + 1, terminators)
  {
    MarkBeforeNext(text, k, terminators);
    StartsNext(text, k, terminators);
    SpacesAreNoBrackets(text[k]);
  }

  lemma {:induction false} CapitalsFrom(armed: Armed, text: string, k: nat, terminators: string, t: Tables,
                                        step: (Armed, char) -> (Armed, string))
    requires k <= |text| && ProperMarks(terminators) && StateFits(armed, text, k, terminators)
    requires forall s: Armed, c: char :: step(s, c) == CapitalStep(terminators, t, s, c)
    requires forall c: char :: t.letter(c) ==> !Scanner.IsSpace(c) && !IsBracket(c)
    ensures Out(step, armed, text[k..]) == WithCapitals(text, k, terminators, t)
    decreases |text| - k
  {
    if k < |text| {
      var tail := text[k..];
      StateMoves(armed, text, k, terminators, t);
      CapitalsFrom(step(armed, tail[0]).0, text, k + 1, terminators, t, step);
      assert tail[1..] == text[k + 1..];
    }
  }

  /** A capital goes to each letter that starts a sentence, and to no other. */
  lemma CapitalsAreExact(text: string, terminators: string, t: Tables)
    requires ProperMarks(terminators) && forall c: char :: t.letter(c) ==> !Scanner.IsSpace(c) && !IsBracket(c)
    ensures CapitalizedStarts(text, terminators, t) == WithCapitals(text, 0, terminators, t)
  {
    assert BracketsFrom(text, 0, 0);
    CapitalsFrom(AfterBracket, text, 0, terminators, t, (s: Armed, c: char) => CapitalStep(terminators, t, s, c));
    assert text[0..] == text;
  }

  // ---------------------------------------------------------------- marks

  predicate Ends(text: string, marks: string) {
    text != "" && text[|text| - 1] in marks
  }

  /** The formal style: capitals, and a terminator where the text does not end in one. */
  lemma FormalIs(text: string, p: Punctuation, t: Tables, hasBreak: bool, library: Option<seq<string>>)
    requires ProperMarks(p.terminators) && forall c: char :: t.letter(c) ==> !Scanner.IsSpace(c) && !IsBracket(c)
    ensures var capitals := WithCapitals(NormalizedSpacing(text, p), 0, p.terminators, t);
      Styled(Formal, text, p, t, hasBreak, library) ==
        if capitals == "" || Ends(capitals, p.terminators) then capitals else capitals + p.terminator
  {
    CapitalsAreExact(NormalizedSpacing(text, p), p.terminators, t);
  }

  /** The casual style: capitals, and no stop at the end, unless it is an ellipsis. */
  lemma CasualIs(text: string, p: Punctuation, t: Tables, hasBreak: bool, library: Option<seq<string>>, body: string)
    requires ProperMarks(p.terminators) && forall c: char :: t.letter(c) ==> !Scanner.IsSpace(c) && !IsBracket(c)
    ensures var capitals := WithCapitals(NormalizedSpacing(text, p), 0, p.terminators, t);
      var styled := Styled(Casual, text, p, t, hasBreak, library);
      && (capitals == body + p.terminator && p.terminator != "" && !EndsWith(capitals, "..") ==> styled == body)
      && (p.terminator == "" || !EndsWith(capitals, p.terminator) || EndsWith(capitals, "..") ==> styled == capitals)
  {
    var normalized := NormalizedSpacing(text, p);
    var capitals := WithCapitals(normalized, 0, p.terminators, t);
    CapitalsAreExact(normalized, p.terminators, t);
    if capitals == body + p.terminator {
      assert capitals[|body|..] == p.terminator && capitals[..|body|] == body;
    }
  }

  /** A sentence that ends in a mark, very casually: the last one loses it, a stop becomes a separator, any other
      mark stays. */
  lemma MarkedCasually(sentence: string, body: string, mark: char, p: Punctuation)
    requires Stripped(sentence) == body + [mark] && body != "" && mark in p.terminators
    requires !EndsWith(body + [mark], "..")
    ensures CasualSegment(sentence, p, true) == body
    ensures CasualSegment(sentence, p, false) == body + (if [mark] == p.terminator then p.separator else [mark])
  {
    SplitMarked(sentence, body, mark, p);
  }

  lemma SplitMarked(sentence: string, body: string, mark: char, p: Punctuation)
    requires Stripped(sentence) == body + [mark] && mark in p.terminators && !EndsWith(body + [mark], "..")
    ensures SplitTerminator(sentence, p) == (body, [mark])
  {
    var stripped := body + [mark];
    assert stripped[..|stripped| - 1] == body && stripped[|stripped| - 1..] == [mark];
  }

  /** A sentence without a mark, or with an ellipsis: the last one stays, any other gets a separator. */
  lemma UnmarkedCasually(sentence: string, body: string, p: Punctuation)
    requires Stripped(sentence) == body && body != "" && (!Ends(body, p.terminators) || EndsWith(body, ".."))
    ensures CasualSegment(sentence, p, true) == body && CasualSegment(sentence, p, false) == body + p.separator
  {
  }

  /** Excitedly: a capital first; a question stays one, and everything else ends in an exclamation. */
  lemma MarkedExcitedly(sentence: string, body: string, mark: char, p: Punctuation, t: Tables)
    requires Stripped(sentence) == body + [mark] && body != "" && mark in p.terminators
    requires !EndsWith(body + [mark], "..")
    requires forall c: char :: t.letter(c) ==> !Scanner.IsSpace(c) && !IsBracket(c)
    ensures ExcitedSegment(sentence, p, t) ==
      WithCapitals(body, 0, "", t) + (if [mark] == p.question then p.question else p.exclamation)
  {
    SplitMarked(sentence, body, mark, p);
    CapitalsAreExact(body, "", t);
  }

  lemma UnmarkedExcitedly(sentence: string, body: string, p: Punctuation, t: Tables)
    requires Stripped(sentence) == body && body != "" && (!Ends(body, p.terminators) || EndsWith(body, ".."))
    requires p.question != "" && forall c: char :: t.letter(c) ==> !Scanner.IsSpace(c) && !IsBracket(c)
    ensures ExcitedSegment(sentence, p, t) == WithCapitals(body, 0, "", t) + p.exclamation
  {
    CapitalsAreExact(body, "", t);
  }

  /** Whitespace and a lone mark leave nothing. */
  lemma NothingLeft(sentence: string, p: Punctuation, t: Tables, isLast: bool)
    requires |Stripped(sentence)| <= 1 && (Stripped(sentence) != "" ==> Ends(Stripped(sentence), p.terminators))
    ensures CasualSegment(sentence, p, isLast) == "" && ExcitedSegment(sentence, p, t) == ""
  {
  }

  // ---------------------------------------------------------------- joining

  /** Empty parts vanish. */
  lemma {:induction false} EmptyPartsVanish(before: seq<string>, after: seq<string>, join: string)
    ensures JoinedParts(before + [""] + after, join) == JoinedParts(before + after, join)
    decreases |before|
  {
    if before == [] {
      assert before + [""] + after == [""] + after && before + after == after;
      assert ([""] + after)[1..] == after;
    } else {
      assert (before + [""] + after)[1..] == before[1..] + [""] + after && (before + after)[1..] == before[1..] + after;
      EmptyPartsVanish(before[1..], after, join);
    }
  }

  /** Parts that are not empty are joined in order, with the joint between any two. */
  lemma {:induction false} PartsAreJoined(before: seq<string>, part: string, join: string)
    requires part != "" && forall k :: 0 <= k < |before| ==> before[k] != ""
    ensures JoinedParts(before + [part], join) ==
      if before == [] then part else JoinedParts(before, join) + join + part
    decreases |before|
  {
    if before == [] {
      assert before + [part] == [part] && [part][1..] == [];
    } else {
      var head, rest := before[0], before[1..];
      assert (before + [part])[1..] == rest + [part];
      PartsAreJoined(rest, part, join);
      if rest != [] {
        NoneIsLost(rest, join);
        var tail := JoinedParts(rest, join);
        assert head + join + (tail + join + part) == head + join + tail + join + part;
      }
    }
  }

  lemma NoneIsLost(parts: seq<string>, join: string)
    requires parts != [] && parts[0] != ""
    ensures JoinedParts(parts, join) != ""
  {
  }

  // ---------------------------------------------------------------- whole texts

  lemma {:induction false} LastPartShows(parts: seq<string>, join: string)
    requires JoinedParts(parts, join) != ""
    ensures exists k: nat, front: string ::
      k < |parts| && parts[k] != "" && JoinedParts(parts, join) == front + parts[k]
    decreases |parts|
  {
    var rest := JoinedParts(parts[1..], join);
    if rest == "" {
      assert parts[0] != "" && JoinedParts(parts, join) == "" + parts[0];
    } else {
      LastPartShows(parts[1..], join);
      var k: nat, front: string :| k < |parts[1..]| && parts[1..][k] != "" && rest == front + parts[1..][k];
      var lead := if parts[0] == "" then "" else parts[0] + join;
      assert JoinedParts(parts, join) == lead + front + parts[k + 1];
    }
  }

  lemma {:induction false} ExcitedPartIs(sentences: seq<string>, p: Punctuation, t: Tables, k: nat)
    requires k < |ExcitedParts(sentences, p, t)|
    ensures k < |sentences| && ExcitedParts(sentences, p, t)[k] == ExcitedSegment(sentences[k], p, t)
    decreases |sentences|
  {
    if k > 0 {
      ExcitedPartIs(sentences[1..], p, t, k - 1);
    }
  }

  /** Whatever the sentences, an excited text ends in an exclamation or a question. */
  lemma ExcitedEndsLoudly(text: string, p: Punctuation, t: Tables, hasBreak: bool, library: Option<seq<string>>)
    ensures var styled := Styled(Excited, text, p, t, hasBreak, library);
      styled == "" || EndsWith(styled, p.exclamation) || EndsWith(styled, p.question)
  {
    var sentences := Segmented(NormalizedSpacing(text, p), p, hasBreak, library);
    PartsEndLoudly(sentences, p, t);
  }

  lemma PartsEndLoudly(sentences: seq<string>, p: Punctuation, t: Tables)
    ensures var joined := JoinedParts(ExcitedParts(sentences, p, t), p.join);
      joined == "" || EndsWith(joined, p.exclamation) || EndsWith(joined, p.question)
  {
    var parts := ExcitedParts(sentences, p, t);
    var joined := JoinedParts(parts, p.join);
    if joined != "" {
      LastPartShows(parts, p.join);
      var k: nat, front: string :| k < |parts| && parts[k] != "" && joined == front + parts[k];
      ExcitedPartIs(sentences, p, t, k);
      EndShows(front, sentences[k], p, t);
    }
  }

  lemma EndShows(front: string, sentence: string, p: Punctuation, t: Tables)
    requires ExcitedSegment(sentence, p, t) != ""
    ensures var text := front + ExcitedSegment(sentence, p, t);
      EndsWith(text, p.exclamation) || EndsWith(text, p.question)
  {
    var (body, term) := SplitTerminator(sentence, p);
    var mark := if term == p.question then term else p.exclamation;
    var text := front + (Capitalized(body, t) + mark);
    assert text[|text| - |mark|..] == mark;
  }

  /** Lowering spares placeholders and nothing else. */
  lemma LoweringIs(text: string, gap: string, n: nat, rest: string, t: Tables)
    ensures Opens(text, gap, n, rest) ==>
      LoweredOutside(text, t.lower) == t.lower(gap) + Tag(n) + LoweredOutside(rest, t.lower)
    ensures Free(text) ==> LoweredOutside(text, t.lower) == t.lower(text)
  {
    if Opens(text, gap, n, rest) {
      var tail := Tag(n) + rest;
      MovedText(gap, tail, Tag(n), rest);
      LeadingTag(n, rest);
      GapEndOfFree(gap, tail);
      TagIsCore(n);
      LoweredStep(text, gap, Tag(n), rest, t);
    }
    if Free(text) {
      GapEndOfFree(text, "");
      assert text + "" == text;
    }
  }

  /** Without placeholders a very casual text is all lower case. */
  lemma VeryCasualIsLow(text: string, p: Punctuation, t: Tables, hasBreak: bool, library: Option<seq<string>>)
    requires PlainPunctuation(p) && SoundTables(t) && Free(text)
    requires SegmenterSpares(NormalizedSpacing(text, p), [], library)
    requires forall s: string :: t.lower(t.lower(s)) == t.lower(s)
    ensures var styled := Styled(VeryCasual, text, p, t, hasBreak, library); t.lower(styled) == styled
  {
    var normalized := NormalizedSpacing(text, p);
    var sentences := Segmented(normalized, p, hasBreak, library);
    var joined := JoinedParts(CasualParts(sentences, p), p.join);
    assert Marked(text, []);
    NormalizedMarked(text, [], p);
    SegmentedDealt(normalized, [], p, hasBreak, library);
    CasualPartsDealt(sentences, [], p);
    JoinedMarked(CasualParts(sentences, p), [], p.join);
    assert Free(joined);
    LoweringIs(joined, "", 0, "", t);
  }

  /** The raw style cuts whitespace off both ends. */
  lemma RawIs(text: string, p: Punctuation, t: Tables, find: Finder, hasBreak: bool, library: Option<seq<string>>)
    ensures var result := Applied(text, Raw, p, t, find, hasBreak, library);
      result.Some? && result.value <= StripStart(text) && Ink(result.value) == Ink(text)
      && (result.value != "" ==>
            !Scanner.IsSpace(result.value[0]) && !Scanner.IsSpace(result.value[|result.value| - 1]))
  {
    StripStartInk(text);
    StripEndInk(StripStart(text));
  }

  // ---------------------------------------------------------------- sentences

  /** Behind a terminator at `m - 1` and all the whitespace that follows it. */
  predicate BreakTail(text: string, m: nat, x: nat, terminators: string) {
    && 0 < m < x <= |text| && text[m - 1] in terminators
    && (forall j :: m <= j < x ==> Scanner.IsSpace(text[j])) && (x == |text| || !Scanner.IsSpace(text[x]))
  }

  ghost predicate BreakEnd(text: string, x: nat, terminators: string) {
    exists m: nat :: BreakTail(text, m, x, terminators)
  }

  function BreakAt(terminators: string, text: string, s: nat): Option<nat>
    requires s <= |text|
  {
    var marks := InsideEnd(terminators, text, s);
    var end := SpacesEnd(text, marks);
    if s < marks < end then Some(end) else None
  }

  lemma {:induction false} NextBreakIsFirst(terminators: string, text: string, i: nat) returns (s: nat)
    requires i <= |text|
    ensures i <= s <= |text| && NextBreak(terminators, text, i) == BreakAt(terminators, text, s)
    ensures NoBreaks(terminators, text, i, s)
    ensures NextBreak(terminators, text, i) == None ==> s == |text|
    decreases |text| - i
  {
    NextBreakStep(terminators, text, i);
    if i == |text| || BreakAt(terminators, text, i).Some? {
      s := i;
    } else {
      s := NextBreakIsFirst(terminators, text, i + 1);
      NoBreaksFrom(terminators, text, i, s);
    }
  }

  ghost predicate NoBreaks(terminators: string, text: string, i: nat, s: nat) {
    s <= |text| && forall j :: i <= j < s ==> BreakAt(terminators, text, j) == None
  }

  lemma NoBreaksFrom(terminators: string, text: string, i: nat, s: nat)
    requires i < s && NoBreaks(terminators, text, i + 1, s) && BreakAt(terminators, text, i) == None
    ensures NoBreaks(terminators, text, i, s)
  {
  }

  lemma NextBreakStep(terminators: string, text: string, i: nat)
    requires i <= |text|
    ensures NextBreak(terminators, text, i) ==
      if i == |text| || BreakAt(terminators, text, i).Some? then BreakAt(terminators, text, i)
      else NextBreak(terminators, text, i + 1)
  {
  }

  lemma {:induction false} InsideTo(marks: string, text: string, i: nat, end: nat)
    requires i <= end <= |text| && (forall j :: i <= j < end ==> text[j] in marks)
    requires end == |text| || text[end] !in marks
    ensures InsideEnd(marks, text, i) == end
    decreases end - i
  {
    if i < end {
      InsideTo(marks, text, i + 1, end);
    }
  }

  lemma {:induction false} SpacesTo(text: string, i: nat, end: nat)
    requires i <= end <= |text| && (forall j :: i <= j < end ==> Scanner.IsSpace(text[j]))
    requires end == |text| || !Scanner.IsSpace(text[end])
    ensures SpacesEnd(text, i) == end
    decreases end - i
  {
    if i < end {
      SpacesTo(text, i + 1, end);
    }
  }

  lemma {:induction false} InsideIs(marks: string, text: string, i: nat)
    requires i <= |text|
    ensures forall j :: i <= j < InsideEnd(marks, text, i) ==> text[j] in marks
    decreases |text| - i
  {
    if i < |text| && text[i] in marks {
      InsideIs(marks, text, i + 1);
    }
  }

  lemma {:induction false} SpacesAre(text: string, i: nat)
    requires i <= |text|
    ensures var end := SpacesEnd(text, i);
      (forall j :: i <= j < end ==> Scanner.IsSpace(text[j])) && (end == |text| || !Scanner.IsSpace(text[end]))
    decreases |text| - i
  {
    if i < |text| && Scanner.IsSpace(text[i]) {
      SpacesAre(text, i + 1);
    }
  }

  /** A break ends at an end, and has no other end inside. */
  lemma BreakIsEnd(terminators: string, text: string, s: nat, e: nat, x: nat)
    requires ProperMarks(terminators) && s <= |text| && BreakAt(terminators, text, s) == Some(e)
    ensures BreakEnd(text, e, terminators) && (s < x < e ==> !BreakEnd(text, x, terminators))
  {
    var m := InsideEnd(terminators, text, s);
    InsideIs(terminators, text, s);
    SpacesAre(text, m);
    assert BreakTail(text, m, e, terminators);
    forall n: nat | s < x < e
      ensures !BreakTail(text, n, x, terminators)
    {
      NoBreakInside(text, s, m, e, x, n, terminators);
    }
  }

  lemma NoBreakInside(text: string, s: nat, m: nat, e: nat, x: nat, n: nat, terminators: string)
    requires ProperMarks(terminators) && s < m && BreakTail(text, m, e, terminators) && s < x < e
    requires forall j :: s <= j < m ==> text[j] in terminators
    ensures !BreakTail(text, n, x, terminators)
  {
    MarkIsNoSpace(text[x - 1], terminators);
  }

  lemma MarkIsNoSpace(c: char, marks: string)
    requires ProperMarks(marks)
    ensures c in marks ==> !Scanner.IsSpace(c)
  {
  }

  lemma EndHasBreak(terminators: string, text: string, i: nat, x: nat) returns (s: nat)
    requires ProperMarks(terminators) && i < x && BreakEnd(text, x, terminators)
    requires i == 0 || BreakEnd(text, i, terminators)
    ensures i <= s < x <= |text| && BreakAt(terminators, text, s) == Some(x)
  {
    var m: nat :| BreakTail(text, m, x, terminators);
    s := m - 1;
    InsideTo(terminators, text, s, m);
    SpacesTo(text, m, x);
    if i > 0 {
      var n: nat :| BreakTail(text, n, i, terminators);
      assert Scanner.IsSpace(text[i - 1]) && !Scanner.IsSpace(text[i]);
    }
  }

  lemma BreakIsNextEnd(terminators: string, text: string, i: nat, x: nat)
    requires ProperMarks(terminators) && i <= |text| && (i == 0 || BreakEnd(text, i, terminators))
    ensures var next := NextBreak(terminators, text, i);
      && (next.Some? ==> BreakEnd(text, next.value, terminators))
      && (i < x && (next.Some? ==> x < next.value) ==> !BreakEnd(text, x, terminators))
  {
    var next := NextBreak(terminators, text, i);
    var s := NextBreakIsFirst(terminators, text, i);
    if next.Some? {
      BreakIsEnd(terminators, text, s, next.value, x);
    }
    if i < x && (next.Some? ==> x < next.value) && BreakEnd(text, x, terminators) {
      var r := EndHasBreak(terminators, text, i, x);
      assert false;
    }
  }

  function Breaker(terminators: string, text: string): nat -> Option<nat> {
    (i: nat) => if i <= |text| then NextBreak(terminators, text, i) else None
  }

  lemma {:induction false} SentencesAreCuts(text: string, start: nat, terminators: string)
    requires start <= |text|
    ensures SentencesFrom(text, start, terminators) == Chunks.CutBy(Breaker(terminators, text), text, start)
    decreases |text| - start
  {
    SentencesStep(text, start, terminators);
    var next := NextBreak(terminators, text, start);
    if next.Some? {
      SentencesAreCuts(text, next.value, terminators);
    }
  }

  /** The repository's own segmenter cuts a text exactly behind each terminator with whitespace after it, and all
      of that whitespace. */
  lemma SentencesAreExact(text: string, terminators: string, x: nat)
    requires ProperMarks(terminators) && text != ""
    ensures x in Boundaries.Cuts(Sentences(text, terminators), 0) <==> 0 < x < |text| && BreakEnd(text, x, terminators)
  {
    var ends := (e: nat) => BreakEnd(text, e, terminators);
    var stop := Breaker(terminators, text);
    SentencesAreCuts(text, 0, terminators);
    forall i: nat | i <= |text| && (i == 0 || ends(i))
      ensures Boundaries.NextEnd(stop, ends, text, i)
    {
      forall e: nat | i < e < (if stop(i).Some? then stop(i).value else |text|)
        ensures !ends(e)
      {
        BreakIsNextEnd(terminators, text, i, e);
      }
      BreakIsNextEnd(terminators, text, i, 0);
    }
    Boundaries.CutByCuts(stop, ends, text, 0);
    Boundaries.CutByStarts(stop, text, 0);
  }

  /** A text without an inner break is one sentence; the library's sentences are used if there are any and they add
      up to the text; otherwise the repository's own are. */
  lemma SegmentedWhen(text: string, p: Punctuation, library: seq<string>)
    ensures Segmented(text, p, false, Some(library)) == [text]
    ensures library != [] && Chunks.Joined(library) == text ==> Segmented(text, p, true, Some(library)) == library
    ensures library == [] || Chunks.Joined(library) != text ==>
      Segmented(text, p, true, Some(library)) == Sentences(text, p.terminators)
    ensures Segmented(text, p, true, None) == Sentences(text, p.terminators)
  {
  }
}
