/** Protected spans survive every style. */
module StyleTheorems {
  import opened Options
  import opened Spans
  import opened Styles
  import Scanner
  import Chunks

  // ---------------------------------------------------------------- cutting and joining marked texts

  lemma {:induction false} MarkedConcat(a: string, ms: seq<nat>, b: string, ns: seq<nat>)
    requires Marked(a, ms) && Marked(b, ns)
    ensures Marked(a + b, ms + ns)
    decreases |ms|
  {
    if ms == [] {
      assert ms + ns == ns;
      MarkedPrefix(a, b, ns);
    } else {
      var gap: string, rest: string :| Opens(a, gap, ms[0], rest) && Marked(rest, ms[1..]);
      MarkedConcat(rest, ms[1..], b, ns);
      MarkedTag(gap, ms[0], rest + b, ms[1..] + ns);
      assert a + b == gap + Tag(ms[0]) + (rest + b);
      assert [ms[0]] + (ms[1..] + ns) == ms + ns;
    }
  }

  lemma MarkedSuffix(text: string, ms: seq<nat>, suffix: string)
    requires Marked(text, ms) && Free(suffix)
    ensures Marked(text + suffix, ms)
  {
    MarkedConcat(text, ms, suffix, []);
    assert ms + [] == ms;
  }

  lemma MarkedHasSentinel(text: string, ms: seq<nat>)
    requires Marked(text, ms) && ms != []
    ensures !Free(text)
  {
    var gap: string, rest: string :| Opens(text, gap, ms[0], rest) && Marked(rest, ms[1..]);
    assert text[|gap|] == Tag(ms[0])[0];
  }

  lemma MarkedNothing(text: string, ms: seq<nat>)
    requires Marked(text, ms) && Free(text)
    ensures ms == []
  {
    if ms != [] {
      MarkedHasSentinel(text, ms);
    }
  }

  /** A position no placeholder straddles. */
  predicate Splittable(text: string, at: nat)
    requires at <= |text|
  {
    at == 0 || at == |text| || !IsCore(text[at - 1]) || !IsCore(text[at])
  }

  /** Cutting there deals the placeholders out to the two sides. */
  lemma {:induction false} MarkedSplit(text: string, ms: seq<nat>, at: nat) returns (k: nat)
    requires Marked(text, ms) && at <= |text| && Splittable(text, at)
    ensures k <= |ms| && Marked(text[..at], ms[..k]) && Marked(text[at..], ms[k..])
    decreases |ms|
  {
    k := 0;
    if ms != [] {
      var gap: string, rest: string :| Opens(text, gap, ms[0], rest) && Marked(rest, ms[1..]);
      if at <= |gap| {
        SplitInGap(text, gap, ms, rest, at);
      } else {
        var tag := Tag(ms[0]);
        TagIsCore(ms[0]);
        SplitPastTag(text, gap, tag, rest, at);
        var inner := at - |gap| - |tag|;
        k := MarkedSplit(rest, ms[1..], inner);
        CutPast(text, gap, tag, rest, at);
        CutList(ms, k);
        MarkedCons(gap, rest[..inner], ms[..k + 1]);
        k := k + 1;
      }
    }
  }

  lemma CutPast(text: string, gap: string, tag: string, rest: string, at: nat)
    requires text == gap + tag + rest && |gap| + |tag| <= at <= |text|
    ensures var inner := at - |gap| - |tag|; text[..at] == gap + tag + rest[..inner] && text[at..] == rest[inner..]
  {
  }

  lemma CutList(ms: seq<nat>, k: nat)
    requires k < |ms|
    ensures ms[..k + 1][1..] == ms[1..][..k] && ms[1..][k..] == ms[k + 1..] && ms[..k + 1][0] == ms[0]
  {
  }

  lemma SplitInGap(text: string, gap: string, ms: seq<nat>, rest: string, at: nat)
    requires ms != [] && Opens(text, gap, ms[0], rest) && Marked(rest, ms[1..]) && at <= |gap|
    ensures Marked(text[..at], ms[..0]) && Marked(text[at..], ms[0..])
  {
    assert ms[0..] == ms && text[..at] == gap[..at];
    assert text[at..] == gap[at..] + Tag(ms[0]) + rest;
    MarkedCons(gap[at..], rest, ms);
  }

  lemma InsideTag(text: string, gap: string, tag: string, rest: string, at: nat)
    requires text == gap + tag + rest && |gap| < at < |gap| + |tag|
    requires forall k :: 0 <= k < |tag| ==> IsCore(tag[k])
    ensures !Splittable(text, at)
  {
    assert text[at - 1] == tag[at - 1 - |gap|] && text[at] == tag[at - |gap|];
  }

  lemma SplitPastTag(text: string, gap: string, tag: string, rest: string, at: nat)
    requires text == gap + tag + rest && |gap| < at <= |text| && Splittable(text, at) && tag != ""
    requires forall k :: 0 <= k < |tag| ==> IsCore(tag[k])
    ensures at >= |gap| + |tag| && Splittable(rest, at - |gap| - |tag|)
  {
    if at < |gap| + |tag| {
      InsideTag(text, gap, tag, rest, at);
    }
  }

  // ---------------------------------------------------------------- passes

  /** A substitution that never writes a sentinel of its own and never writes inside a placeholder.
      `ok` holds of every state it can be in, `quiet` of those it is in after a sentinel. */
  ghost predicate Safe<S(!new)>(step: (S, char) -> (S, string), ok: S -> bool, quiet: S -> bool) {
    forall s: S, c: char :: SafeAt(step, ok, quiet, s, c)
  }

  predicate SafeAt<S>(step: (S, char) -> (S, string), ok: S -> bool, quiet: S -> bool, s: S, c: char) {
    var (next, out) := step(s, c);
    ok(s) ==>
      && ok(next)
      && (!IsSentinel(c) ==> Free(out))
      && (c == START ==> out != "" && out[|out| - 1] == START && Free(out[..|out| - 1]) && quiet(next))
      && (quiet(s) && IsCore(c) ==> out == [c] && quiet(next))
  }

  lemma {:induction false} OutConcat<S>(step: (S, char) -> (S, string), s: S, a: string, b: string)
    ensures Out(step, s, a + b) == Out(step, s, a) + Out(step, Final(step, s, a), b)
    ensures Final(step, s, a + b) == Final(step, Final(step, s, a), b)
    decreases |a|
  {
    if a == "" {
      assert a + b == b;
    } else {
      assert (a + b)[1..] == a[1..] + b;
      OutConcat(step, step(s, a[0]).0, a[1..], b);
    }
  }

  lemma {:induction false} OutFree<S(!new)>(step: (S, char) -> (S, string), ok: S -> bool, quiet: S -> bool,
                                            s: S, text: string)
    requires Safe(step, ok, quiet) && ok(s) && Free(text)
    ensures Free(Out(step, s, text)) && ok(Final(step, s, text))
    decreases |text|
  {
    if text != "" {
      assert SafeAt(step, ok, quiet, s, text[0]);
      OutFree(step, ok, quiet, step(s, text[0]).0, text[1..]);
    }
  }

  lemma {:induction false} OutQuiet<S(!new)>(step: (S, char) -> (S, string), ok: S -> bool, quiet: S -> bool,
                                             s: S, text: string)
    requires Safe(step, ok, quiet) && ok(s) && quiet(s) && forall k :: 0 <= k < |text| ==> IsCore(text[k])
    ensures Out(step, s, text) == text && quiet(Final(step, s, text)) && ok(Final(step, s, text))
    decreases |text|
  {
    if text != "" {
      assert SafeAt(step, ok, quiet, s, text[0]);
      OutQuiet(step, ok, quiet, step(s, text[0]).0, text[1..]);
      assert text == [text[0]] + text[1..];
    }
  }

  lemma OutOne<S>(step: (S, char) -> (S, string), s: S, text: string)
    requires text != ""
    ensures Out(step, s, text) == step(s, text[0]).1 + Out(step, step(s, text[0]).0, text[1..])
  {
  }

  lemma OutTag<S(!new)>(step: (S, char) -> (S, string), ok: S -> bool, quiet: S -> bool, s: S, n: nat)
    returns (pre: string)
    requires Safe(step, ok, quiet) && ok(s)
    ensures Free(pre) && Out(step, s, Tag(n)) == pre + Tag(n) && ok(Final(step, s, Tag(n)))
  {
    var tag := Tag(n);
    var (next, out) := step(s, START);
    assert SafeAt(step, ok, quiet, s, START);
    pre := out[..|out| - 1];
    TagIsCore(n);
    OutQuiet(step, ok, quiet, next, tag[1..]);
    OutOne(step, s, tag);
    Reattached(pre, tag, out);
  }

  lemma Reattached(pre: string, tag: string, out: string)
    requires tag != "" && out == pre + [tag[0]]
    ensures out + tag[1..] == pre + tag
  {
    assert tag == [tag[0]] + tag[1..];
  }

  lemma OutPieces<S>(step: (S, char) -> (S, string), s: S, gap: string, tag: string, rest: string)
    ensures var s1 := Final(step, s, gap); var s2 := Final(step, s1, tag);
      && Out(step, s, gap + tag + rest) == Out(step, s, gap) + Out(step, s1, tag) + Out(step, s2, rest)
      && Final(step, s, gap + tag + rest) == Final(step, s2, rest)
  {
    OutConcat(step, s, gap + tag, rest);
    OutConcat(step, s, gap, tag);
  }

  /** A safe pass keeps the placeholders, whatever state it starts in. */
  lemma {:induction false} OutMarked<S(!new)>(step: (S, char) -> (S, string), ok: S -> bool, quiet: S -> bool,
                                              s: S, text: string, ms: seq<nat>)
    requires Safe(step, ok, quiet) && ok(s) && Marked(text, ms)
    ensures Marked(Out(step, s, text), ms) && ok(Final(step, s, text))
    decreases |ms|
  {
    if ms == [] {
      OutFree(step, ok, quiet, s, text);
    } else {
      var gap: string, rest: string :| Opens(text, gap, ms[0], rest) && Marked(rest, ms[1..]);
      var s1 := Final(step, s, gap);
      var s2 := Final(step, s1, Tag(ms[0]));
      OutFree(step, ok, quiet, s, gap);
      var pre := OutTag(step, ok, quiet, s1, ms[0]);
      OutMarked(step, ok, quiet, s2, rest, ms[1..]);
      OutPieces(step, s, gap, Tag(ms[0]), rest);
      MarkedAgain(Out(step, s, gap), pre, ms, Out(step, s2, rest));
    }
  }

  lemma Regroup(a: string, b: string, c: string, d: string)
    ensures a + (b + c) + d == (a + b) + c + d
  {
  }

  lemma MarkedAgain(gap: string, pre: string, ms: seq<nat>, rest: string)
    requires ms != [] && Free(gap) && Free(pre) && Marked(rest, ms[1..])
    ensures Marked(gap + (pre + Tag(ms[0])) + rest, ms)
  {
    MarkedCons(gap + pre, rest, ms);
    Regroup(gap, pre, Tag(ms[0]), rest);
  }

  // ---------------------------------------------------------------- what the tables must promise

  predicate Plain(s: string) {
    forall k :: 0 <= k < |s| ==> !IsCore(s[k])
  }

  /** Punctuation is made of marks and spaces, and a terminator is at most one character. */
  predicate PlainPunctuation(p: Punctuation) {
    && Plain(p.terminator) && Plain(p.separator) && Plain(p.exclamation) && Plain(p.question)
    && Plain(p.terminators) && Plain(p.join) && |p.terminator| <= 1
  }

  /** Sentinels are not letters, digits are not letters, and changing case invents no sentinel. */
  ghost predicate SoundTables(t: Tables) {
    && (forall c: char :: t.letter(c) ==> !IsCore(c))
    && (forall c: char :: !IsSentinel(c) ==> Free(t.upper(c)))
    && (forall s: string :: Free(s) ==> Free(t.lower(s)))
  }

  /** What `Safe` asks at the start of a placeholder, for a pass that writes held text before it. */
  lemma StartAfter(held: string)
    requires Free(held)
    ensures var out := held + [START]; out != "" && out[|out| - 1] == START && out[..|out| - 1] == held
  {
  }

  predicate Nothing(held: string) {
    held == ""
  }

  lemma CollapseIsSafe(step: (string, char) -> (string, string))
    requires forall held: string, c: char :: step(held, c) == CollapseStep(held, c)
    ensures Safe(step, Free, Nothing)
  {
    forall held: string, c: char
      ensures SafeAt(step, Free, Nothing, held, c)
    {
      CollapseSafeAt(step, held, c);
    }
  }

  lemma CollapseSafeAt(step: (string, char) -> (string, string), held: string, c: char)
    requires step(held, c) == CollapseStep(held, c)
    ensures SafeAt(step, Free, Nothing, held, c)
  {
    if Free(held) {
      StartAfter(held);
    }
  }

  lemma CollapsedMarked(text: string, ms: seq<nat>)
    requires Marked(text, ms)
    ensures Marked(Collapsed(text), ms)
  {
    var step := (held: string, c: char) => CollapseStep(held, c);
    CollapseIsSafe(step);
    OutMarked(step, Free, Nothing, "", text, ms);
    MarkedSuffix(Out(step, "", text), ms, Final(step, "", text));
  }

  lemma TightenIsSafe(marks: string, step: (string, char) -> (string, string))
    requires Plain(marks) && forall held: string, c: char :: step(held, c) == TightenStep(marks, held, c)
    ensures Safe(step, Free, Nothing)
  {
    forall held: string, c: char
      ensures SafeAt(step, Free, Nothing, held, c)
    {
      TightenSafeAt(marks, step, held, c);
    }
  }

  lemma TightenSafeAt(marks: string, step: (string, char) -> (string, string), held: string, c: char)
    requires Plain(marks) && step(held, c) == TightenStep(marks, held, c)
    ensures SafeAt(step, Free, Nothing, held, c)
  {
    if Free(held) {
      StartAfter(held);
    }
  }

  lemma TightenedMarked(text: string, ms: seq<nat>, marks: string)
    requires Marked(text, ms) && Plain(marks)
    ensures Marked(Tightened(text, marks), ms)
  {
    var step := (held: string, c: char) => TightenStep(marks, held, c);
    TightenIsSafe(marks, step);
    OutMarked(step, Free, Nothing, "", text, ms);
    MarkedSuffix(Out(step, "", text), ms, Final(step, "", text));
  }

  predicate AnyState(armed: Armed) {
    true
  }

  lemma CapitalSafeAt(terminators: string, t: Tables, step: (Armed, char) -> (Armed, string), armed: Armed, c: char)
    requires Plain(terminators) && SoundTables(t) && step(armed, c) == CapitalStep(terminators, t, armed, c)
    ensures SafeAt(step, AnyState, AnyState, armed, c)
  {
    var out := step(armed, c).1;
    if IsCore(c) {
      assert out == [c] && out[..|out| - 1] == "";
    }
  }

  lemma CapitalizedMarked(text: string, ms: seq<nat>, terminators: string, t: Tables)
    requires Marked(text, ms) && Plain(terminators) && SoundTables(t)
    ensures Marked(CapitalizedStarts(text, terminators, t), ms)
  {
    var step := (armed: Armed, c: char) => CapitalStep(terminators, t, armed, c);
    forall armed: Armed, c: char
      ensures SafeAt(step, AnyState, AnyState, armed, c)
    {
      CapitalSafeAt(terminators, t, step, armed, c);
    }
    OutMarked(step, AnyState, AnyState, AfterBracket, text, ms);
  }

  // ---------------------------------------------------------------- cuts

  lemma {:induction false} StripStartMarked(text: string, ms: seq<nat>)
    requires Marked(text, ms)
    ensures Marked(StripStart(text), ms)
    decreases |text|
  {
    if text != "" && Scanner.IsSpace(text[0]) {
      CoreHasNoSpace(text[0]);
      var k := MarkedSplit(text, ms, 1);
      MarkedNothing(text[..1], ms[..k]);
      assert ms[k..] == ms;
      StripStartMarked(text[1..], ms);
    }
  }

  lemma {:induction false} StripEndMarked(text: string, ms: seq<nat>)
    requires Marked(text, ms)
    ensures Marked(StripEnd(text), ms)
    decreases |text|
  {
    if text != "" && Scanner.IsSpace(text[|text| - 1]) {
      CoreHasNoSpace(text[|text| - 1]);
      DropLast(text, ms);
      StripEndMarked(text[..|text| - 1], ms);
    }
  }

  lemma CoreHasNoSpace(c: char)
    requires Scanner.IsSpace(c)
    ensures !IsCore(c)
  {
  }

  /** A last character outside every placeholder can be dropped. */
  lemma DropLast(text: string, ms: seq<nat>)
    requires Marked(text, ms) && text != "" && !IsCore(text[|text| - 1])
    ensures Marked(text[..|text| - 1], ms)
  {
    var at := |text| - 1;
    var k := MarkedSplit(text, ms, at);
    MarkedNothing(text[at..], ms[k..]);
    assert ms[..k] == ms;
  }

  lemma StrippedMarked(text: string, ms: seq<nat>)
    requires Marked(text, ms)
    ensures Marked(Stripped(text), ms)
  {
    StripStartMarked(text, ms);
    StripEndMarked(StripStart(text), ms);
  }

  lemma NormalizedMarked(text: string, ms: seq<nat>, p: Punctuation)
    requires Marked(text, ms) && PlainPunctuation(p)
    ensures Marked(NormalizedSpacing(text, p), ms)
  {
    CollapsedMarked(text, ms);
    StrippedMarked(Collapsed(text), ms);
    TightenedMarked(Stripped(Collapsed(text)), ms, p.terminators + p.separator + ";:");
  }

  lemma TerminatedMarked(text: string, ms: seq<nat>, p: Punctuation)
    requires Marked(text, ms) && PlainPunctuation(p)
    ensures Marked(Terminated(text, p), ms)
  {
    MarkedSuffix(text, ms, p.terminator);
  }

  lemma CasualMarked(text: string, ms: seq<nat>, p: Punctuation, t: Tables)
    requires Marked(text, ms) && PlainPunctuation(p) && SoundTables(t)
    ensures Marked(CasualStyle(text, p, t), ms)
  {
    var formatted := CapitalizedStarts(text, p.terminators, t);
    CapitalizedMarked(text, ms, p.terminators, t);
    if p.terminator != "" && EndsWith(formatted, p.terminator) {
      assert formatted[|formatted| - 1] == formatted[|formatted| - 1..][0];
      DropLast(formatted, ms);
    }
  }

  // ---------------------------------------------------------------- sentences

  /** Sentences that never cut a placeholder: each holds the next few of them. */
  ghost predicate Dealt(sentences: seq<string>, ms: seq<nat>)
    decreases |sentences|
  {
    if sentences == [] then ms == []
    else exists k: nat :: k <= |ms| && Marked(sentences[0], ms[..k]) && Dealt(sentences[1..], ms[k..])
  }

  lemma {:induction false} SentencesDealt(text: string, start: nat, terminators: string, ms: seq<nat>)
    requires start <= |text| && Marked(text[start..], ms)
    ensures Dealt(SentencesFrom(text, start, terminators), ms)
    decreases |text| - start
  {
    var next := NextBreak(terminators, text, start);
    SentencesStep(text, start, terminators);
    if next.Some? {
      var k := CutAtSpace(text, start, next.value, ms);
      SentencesDealt(text, next.value, terminators, ms[k..]);
      DealtCons(text[start..next.value], SentencesFrom(text, next.value, terminators), ms, k);
    } else if start < |text| {
      DealtOne(text[start..], ms);
    } else {
      MarkedNothing(text[start..], ms);
    }
  }

  lemma CutAtSpace(text: string, start: nat, end: nat, ms: seq<nat>) returns (k: nat)
    requires start < end <= |text| && Marked(text[start..], ms) && Scanner.IsSpace(text[end - 1])
    ensures k <= |ms| && Marked(text[start..end], ms[..k]) && Marked(text[end..], ms[k..])
  {
    var tail, at := text[start..], end - start;
    CoreHasNoSpace(text[end - 1]);
    assert tail[at - 1] == text[end - 1];
    k := MarkedSplit(tail, ms, at);
    assert tail[..at] == text[start..end] && tail[at..] == text[end..];
  }

  lemma DealtCons(head: string, tail: seq<string>, ms: seq<nat>, k: nat)
    requires k <= |ms| && Marked(head, ms[..k]) && Dealt(tail, ms[k..])
    ensures Dealt([head] + tail, ms)
  {
    assert ([head] + tail)[1..] == tail;
  }

  lemma DealtOne(sentence: string, ms: seq<nat>)
    requires Marked(sentence, ms)
    ensures Dealt([sentence], ms)
  {
    assert ms[..|ms|] == ms && Dealt([], ms[|ms|..]);
    DealtCons(sentence, [], ms, |ms|);
    assert [sentence] + [] == [sentence];
  }

  /** The only promise asked of the segmenter: when its answer is used, it cuts no placeholder. */
  ghost predicate SegmenterSpares(text: string, ms: seq<nat>, library: Option<seq<string>>) {
    library.Some? && Chunks.Joined(library.value) == text ==> Dealt(library.value, ms)
  }

  lemma SegmentedDealt(text: string, ms: seq<nat>, p: Punctuation, hasBreak: bool, library: Option<seq<string>>)
    requires Marked(text, ms) && SegmenterSpares(text, ms, library)
    ensures Dealt(Segmented(text, p, hasBreak, library), ms)
  {
    assert text[0..] == text;
    DealtOne(text, ms);
    SentencesDealt(text, 0, p.terminators, ms);
  }

  lemma BodyMarked(sentence: string, ms: seq<nat>, p: Punctuation)
    requires Marked(sentence, ms) && PlainPunctuation(p)
    ensures var (body, term) := SplitTerminator(sentence, p);
      Marked(body, ms) && Free(term) && (body == "" ==> ms == [])
  {
    var stripped := Stripped(sentence);
    StrippedMarked(sentence, ms);
    if stripped != "" && stripped[|stripped| - 1] in p.terminators && !EndsWith(stripped, "..") {
      DropLast(stripped, ms);
      OneMarkIsFree(stripped, p.terminators);
    }
    EmptyHasNone(SplitTerminator(sentence, p).0, ms);
  }

  lemma OneMarkIsFree(text: string, terminators: string)
    requires Plain(terminators) && text != "" && text[|text| - 1] in terminators
    ensures Free(text[|text| - 1..])
  {
  }

  lemma EmptyHasNone(text: string, ms: seq<nat>)
    requires Marked(text, ms)
    ensures text == "" ==> ms == []
  {
    if text == "" {
      MarkedNothing(text, ms);
    }
  }

  lemma CasualSegmentMarked(sentence: string, ms: seq<nat>, p: Punctuation, isLast: bool)
    requires Marked(sentence, ms) && PlainPunctuation(p)
    ensures Marked(CasualSegment(sentence, p, isLast), ms)
  {
    var (body, term) := SplitTerminator(sentence, p);
    BodyMarked(sentence, ms, p);
    MarkedSuffix(body, ms, p.separator);
    MarkedSuffix(body, ms, term);
  }

  lemma ExcitedSegmentMarked(sentence: string, ms: seq<nat>, p: Punctuation, t: Tables)
    requires Marked(sentence, ms) && PlainPunctuation(p) && SoundTables(t)
    ensures Marked(ExcitedSegment(sentence, p, t), ms)
  {
    var (body, term) := SplitTerminator(sentence, p);
    BodyMarked(sentence, ms, p);
    CapitalizedMarked(body, ms, "", t);
    MarkedSuffix(Capitalized(body, t), ms, term);
    MarkedSuffix(Capitalized(body, t), ms, p.exclamation);
  }

  lemma {:induction false} CasualPartsDealt(sentences: seq<string>, ms: seq<nat>, p: Punctuation)
    requires Dealt(sentences, ms) && PlainPunctuation(p)
    ensures Dealt(CasualParts(sentences, p), ms)
    decreases |sentences|
  {
    if sentences != [] {
      var k: nat :| k <= |ms| && Marked(sentences[0], ms[..k]) && Dealt(sentences[1..], ms[k..]);
      CasualSegmentMarked(sentences[0], ms[..k], p, |sentences| == 1);
      CasualPartsDealt(sentences[1..], ms[k..], p);
      DealtCons(CasualSegment(sentences[0], p, |sentences| == 1), CasualParts(sentences[1..], p), ms, k);
    }
  }

  lemma {:induction false} ExcitedPartsDealt(sentences: seq<string>, ms: seq<nat>, p: Punctuation, t: Tables)
    requires Dealt(sentences, ms) && PlainPunctuation(p) && SoundTables(t)
    ensures Dealt(ExcitedParts(sentences, p, t), ms)
    decreases |sentences|
  {
    if sentences != [] {
      var k: nat :| k <= |ms| && Marked(sentences[0], ms[..k]) && Dealt(sentences[1..], ms[k..]);
      ExcitedSegmentMarked(sentences[0], ms[..k], p, t);
      ExcitedPartsDealt(sentences[1..], ms[k..], p, t);
      DealtCons(ExcitedSegment(sentences[0], p, t), ExcitedParts(sentences[1..], p, t), ms, k);
    }
  }

  lemma {:induction false} JoinedMarked(parts: seq<string>, ms: seq<nat>, join: string)
    requires Dealt(parts, ms) && Free(join)
    ensures Marked(JoinedParts(parts, join), ms)
    decreases |parts|
  {
    if parts != [] {
      var k: nat :| k <= |ms| && Marked(parts[0], ms[..k]) && Dealt(parts[1..], ms[k..]);
      var rest := JoinedParts(parts[1..], join);
      JoinedMarked(parts[1..], ms[k..], join);
      assert ms[..k] + ms[k..] == ms;
      if parts[0] == "" {
        MarkedNothing(parts[0], ms[..k]);
        assert ms[k..] == ms;
      } else if rest == "" {
        MarkedNothing(rest, ms[k..]);
        assert ms[..k] == ms;
      } else {
        MarkedSuffix(parts[0], ms[..k], join);
        MarkedConcat(parts[0] + join, ms[..k], rest, ms[k..]);
      }
    }
  }

  // ---------------------------------------------------------------- lowering

  lemma {:induction false} GapEndOfFree(gap: string, tail: string)
    requires Free(gap) && (tail == "" || Leading(tail).Some?)
    ensures GapEnd(gap + tail) == |gap|
    decreases |gap|
  {
    if gap == "" {
      assert gap + tail == tail;
    } else {
      assert (gap + tail)[1..] == gap[1..] + tail;
      GapEndOfFree(gap[1..], tail);
    }
  }

  lemma {:induction false} LoweredMarked(text: string, ms: seq<nat>, t: Tables)
    requires Marked(text, ms) && SoundTables(t)
    ensures Marked(LoweredOutside(text, t.lower), ms)
    decreases |ms|
  {
    if ms == [] {
      GapEndOfFree(text, "");
      assert text + "" == text;
    } else {
      var gap: string, rest: string :| Opens(text, gap, ms[0], rest) && Marked(rest, ms[1..]);
      var tail := Tag(ms[0]) + rest;
      assert text == gap + tail;
      LeadingTag(ms[0], rest);
      GapEndOfFree(gap, tail);
      LoweredMarked(rest, ms[1..], t);
      LoweredStep(text, gap, Tag(ms[0]), rest, t);
      MarkedCons(t.lower(gap), LoweredOutside(rest, t.lower), ms);
    }
  }

  lemma LoweredStep(text: string, gap: string, tag: string, rest: string, t: Tables)
    requires text == gap + (tag + rest) && tag != "" && GapEnd(text) == |gap|
    requires Leading(tag + rest).Some? && Leading(tag + rest).value.end == |tag|
    ensures LoweredOutside(text, t.lower) == t.lower(gap) + tag + LoweredOutside(rest, t.lower)
  {
    var end := |gap| + |tag|;
    assert text[..|gap|] == gap && text[|gap|..] == tag + rest && text[|gap|..end] == tag && text[end..] == rest;
    assert FirstEnd(text, |gap|) == end;
  }

  // ---------------------------------------------------------------- the theorems

  /** Every style keeps the placeholders of a masked text, all of them, once each and in order. */
  lemma StylesKeepPlaceholders(style: Style, text: string, ms: seq<nat>, p: Punctuation, t: Tables,
                               hasBreak: bool, library: Option<seq<string>>)
    requires Marked(text, ms) && PlainPunctuation(p) && SoundTables(t)
    requires style in {VeryCasual, Excited} ==> SegmenterSpares(NormalizedSpacing(text, p), ms, library)
    ensures Marked(Styled(style, text, p, t, hasBreak, library), ms)
  {
    var normalized := NormalizedSpacing(text, p);
    NormalizedMarked(text, ms, p);
    match style
    case Raw =>
    case Clean => TerminatedMarked(normalized, ms, p);
    case Formal =>
      CapitalizedMarked(normalized, ms, p.terminators, t);
      TerminatedMarked(CapitalizedStarts(normalized, p.terminators, t), ms, p);
    case Casual => CasualMarked(normalized, ms, p, t);
    case VeryCasual =>
      var sentences := Segmented(normalized, p, hasBreak, library);
      SegmentedDealt(normalized, ms, p, hasBreak, library);
      CasualPartsDealt(sentences, ms, p);
      JoinedMarked(CasualParts(sentences, p), ms, p.join);
      LoweredMarked(JoinedParts(CasualParts(sentences, p), p.join), ms, t);
    case Excited =>
      var sentences := Segmented(normalized, p, hasBreak, library);
      SegmentedDealt(normalized, ms, p, hasBreak, library);
      ExcitedPartsDealt(sentences, ms, p, t);
      JoinedMarked(ExcitedParts(sentences, p, t), ms, p.join);
  }

  lemma AllSpans(tokens: seq<string>)
    ensures SpansOf(Range(0, |tokens|), tokens) == tokens
  {
  }

  /** Every protected span of a transcript reappears in the styled one, in order and verbatim; only the
      very casual style lowers those that are no address. */
  lemma SpansSurvive(text: string, style: Style, p: Punctuation, t: Tables, find: Finder,
                     hasBreak: bool, library: Option<seq<string>>)
    returns (tokens: seq<string>)
    requires Free(text) && style != Raw && PlainPunctuation(p) && SoundTables(t)
    requires var masking := MaskedFrom(find, text, 0, []);
      style in {VeryCasual, Excited} ==>
        SegmenterSpares(NormalizedSpacing(masking.text, p), Range(0, |masking.tokens|), library)
    ensures var result := Applied(text, style, p, t, find, hasBreak, library);
      result.Some? && Carries(result.value, tokens)
    ensures var spans := MaskedFrom(find, text, 0, []).tokens;
      && |tokens| == |spans|
      && forall k :: 0 <= k < |spans| ==>
           tokens[k] == if style == VeryCasual && !t.address(spans[k]) then t.lower(spans[k]) else spans[k]
  {
    var masking := MaskedFrom(find, text, 0, []);
    tokens := Sanitized(masking.tokens, style, t);
    var ms := Range(0, |masking.tokens|);
    MaskingNumbersSpans(find, text, 0, []);
    StylesKeepPlaceholders(style, masking.text, ms, p, t, hasBreak, library);
    var styled := Styled(style, masking.text, p, t, hasBreak, library);
    RestoringMarked(styled, ms, tokens);
    AllSpans(tokens);
    if tokens == [] {
      assert Carries(styled, tokens);
    }
  }
}
