/** Masking spans before a transcript is restyled and putting them back: `_SpanProtector` of
    app/text_styles.py.

    What counts as a protected span is left to an arbitrary finder: it stands for the regular
    expression together with the test that a domain is a real one. */
module Spans {
  import opened Options

  /** The two private-use sentinels around a placeholder's number. */
  const START: char := '\U{E000}'
  const END: char := '\U{E001}'

  /** A match of the expression; one that is not masked is a domain nobody registered. */
  datatype Match = Match(start: nat, end: nat, masked: bool)

  type Finder = (string, nat) -> Option<Match>

  datatype Masking = Masking(text: string, tokens: seq<string>)

  predicate IsDigit(c: char) {
    '0' <= c <= '9'
  }

  function Digits(n: nat): string {
    var last := [('0' as int + n % 10) as char];
    if n < 10 then last else Digits(n / 10) + last
  }

  function Number(s: string): nat {
    if s == "" then 0
    else
      var c := s[|s| - 1];
      10 * Number(s[..|s| - 1]) + (if IsDigit(c) then c as int - '0' as int else 0)
  }

  function Tag(n: nat): string {
    [START] + Digits(n) + [END]
  }

  function DigitsEnd(text: string, i: nat): (r: nat)
    requires i <= |text|
    ensures i <= r <= |text|
    decreases |text| - i
  {
    if i < |text| && IsDigit(text[i]) then DigitsEnd(text, i + 1) else i
  }

  datatype Placeholder = Placeholder(index: nat, end: nat)

  /** The placeholder a text begins with, if it begins with one. */
  function Leading(text: string): (r: Option<Placeholder>)
    ensures r.Some? ==> 0 < r.value.end <= |text|
  {
    if text == "" || text[0] != START then None
    else
      var end := DigitsEnd(text, 1);
      if 1 < end < |text| && text[end] == END then Some(Placeholder(Number(text[1..end]), end + 1)) else None
  }

  /** A finder that steps back or matches nothing is read as finding nothing. */
  function NextSpan(find: Finder, text: string, pos: nat): (r: Option<Match>)
    requires pos <= |text|
    ensures r.Some? ==> pos <= r.value.start < r.value.end <= |text|
  {
    var m := find(text, pos);
    if m.Some? && pos <= m.value.start < m.value.end <= |text| then m else None
  }

  function MaskedFrom(find: Finder, text: string, pos: nat, tokens: seq<string>): Masking
    requires pos <= |text|
    decreases |text| - pos
  {
    match NextSpan(find, text, pos)
    case None => Masking(text[pos..], tokens)
    case Some(m) =>
      if m.masked then
        var rest := MaskedFrom(find, text, m.end, tokens + [text[m.start..m.end]]);
        Masking(text[pos..m.start] + Tag(|tokens|) + rest.text, rest.tokens)
      else
        var rest := MaskedFrom(find, text, m.end, tokens);
        Masking(text[pos..m.end] + rest.text, rest.tokens)
  }

  lemma MaskedStep(find: Finder, text: string, pos: nat, tokens: seq<string>, m: Match)
    requires pos <= |text| && NextSpan(find, text, pos) == Some(m)
    ensures var head := if m.masked then text[pos..m.start] + Tag(|tokens|) else text[pos..m.end];
      var rest := MaskedFrom(find, text, m.end, if m.masked then tokens + [text[m.start..m.end]] else tokens);
      MaskedFrom(find, text, pos, tokens) == Masking(head + rest.text, rest.tokens)
  {
  }

  lemma MovedText(done: string, rest: string, part: string, later: string)
    requires rest == part + later
    ensures done + rest == done + part + later
  {
  }

  method Protect(text: string, find: Finder) returns (masked: string, tokens: seq<string>)
    ensures Masking(masked, tokens) == MaskedFrom(find, text, 0, [])
  {
    masked, tokens := "", [];
    var pos := 0;
    var next := NextSpan(find, text, 0);
    ghost var whole := MaskedFrom(find, text, 0, []);
    ghost var rest := whole;
    while next.Some?
      invariant pos <= |text| && next == NextSpan(find, text, pos)
      invariant rest == MaskedFrom(find, text, pos, tokens)
      invariant whole == Masking(masked + rest.text, rest.tokens)
      decreases |text| - pos
    {
      var m := next.value;
      MaskedStep(find, text, pos, tokens, m);
      ghost var head, before := if m.masked then text[pos..m.start] + Tag(|tokens|) else text[pos..m.end], rest;
      rest := MaskedFrom(find, text, m.end, if m.masked then tokens + [text[m.start..m.end]] else tokens);
      MovedText(masked, before.text, head, rest.text);
      if m.masked {
        masked := masked + (text[pos..m.start] + Tag(|tokens|));
        tokens := tokens + [text[m.start..m.end]];
      } else {
        masked := masked + text[pos..m.end];
      }
      pos := m.end;
      next := NextSpan(find, text, pos);
    }
    masked := masked + text[pos..];
  }

  /** `restore`; a placeholder whose number has no token raises. */
  function RestoredFrom(text: string, tokens: seq<string>): Option<string>
    decreases |text|
  {
    if text == "" then Some("")
    else match Leading(text)
      case None => Prefixed([text[0]], RestoredFrom(text[1..], tokens))
      case Some(p) =>
        if p.index < |tokens| then Prefixed(tokens[p.index], RestoredFrom(text[p.end..], tokens)) else None
  }

  function Prefixed(head: string, rest: Option<string>): Option<string> {
    if rest.Some? then Some(head + rest.value) else None
  }

  function Restored(text: string, tokens: seq<string>): Option<string> {
    if tokens == [] then Some(text) else RestoredFrom(text, tokens)
  }

  /** Where the first placeholder starts, or the length of the text. */
  function GapEnd(text: string): (r: nat)
    ensures r <= |text|
    ensures r < |text| ==> Leading(text[r..]).Some?
    decreases |text|
  {
    if text == "" || Leading(text).Some? then
      assert text[0..] == text;
      0
    else
      var r := 1 + GapEnd(text[1..]);
      assert r < |text| ==> text[r..] == text[1..][r - 1..];
      r
  }

  function LoweredOutside(text: string, lower: string -> string): string
    decreases |text|
  {
    var gap := GapEnd(text);
    if gap == |text| then lower(text)
    else
      var end := FirstEnd(text, gap);
      (lower(text[..gap]) + text[gap..end]) + LoweredOutside(text[end..], lower)
  }

  function FirstEnd(text: string, gap: nat): (end: nat)
    requires gap < |text| && Leading(text[gap..]).Some?
    ensures gap < end <= |text|
  {
    gap + Leading(text[gap..]).value.end
  }

  lemma LoweredFirst(text: string, lower: string -> string)
    requires GapEnd(text) < |text|
    ensures var gap := GapEnd(text); var end := FirstEnd(text, gap);
      LoweredOutside(text, lower) == (lower(text[..gap]) + text[gap..end]) + LoweredOutside(text[end..], lower)
  {
  }

  method LowerOutsidePlaceholders(text: string, lower: string -> string) returns (lowered: string)
    ensures lowered == LoweredOutside(text, lower)
  {
    lowered := "";
    var rest := text;
    var gap := GapEnd(rest);
    ghost var tail := LoweredOutside(text, lower);
    while gap < |rest|
      invariant gap == GapEnd(rest) && tail == LoweredOutside(rest, lower)
      invariant LoweredOutside(text, lower) == lowered + tail
      decreases |rest|
    {
      var end := FirstEnd(rest, gap);
      LoweredFirst(rest, lower);
      lowered := lowered + (lower(rest[..gap]) + rest[gap..end]);
      rest := rest[end..];
      tail := LoweredOutside(rest, lower);
      gap := GapEnd(rest);
    }
    lowered := lowered + lower(rest);
  }

  // ---------------------------------------------------------------- texts with placeholders in them

  predicate IsSentinel(c: char) {
    c == START || c == END
  }

  /** The characters a placeholder is made of. */
  predicate IsCore(c: char) {
    IsSentinel(c) || IsDigit(c)
  }

  predicate Free(s: string) {
    forall k :: 0 <= k < |s| ==> !IsSentinel(s[k])
  }

  /** The text begins with a free stretch, then this placeholder. */
  predicate Opens(text: string, gap: string, n: nat, rest: string) {
    Free(gap) && text == gap + Tag(n) + rest
  }

  /** The text begins with anything, then this span. */
  predicate Shows(text: string, gap: string, span: string, rest: string) {
    text == gap + span + rest
  }

  /** The text is free stretches with exactly these placeholders between them, in this order. */
  ghost predicate Marked(text: string, marks: seq<nat>)
    decreases |marks|
  {
    if marks == [] then Free(text)
    else exists gap: string, rest: string ::
      Opens(text, gap, marks[0], rest) && Marked(rest, marks[1..])
  }

  /** The text is made of these spans, in this order and verbatim, with anything between them. */
  ghost predicate Carries(text: string, spans: seq<string>)
    decreases |spans|
  {
    spans == [] || exists gap: string, rest: string ::
      Shows(text, gap, spans[0], rest) && Carries(rest, spans[1..])
  }

  lemma {:induction false} DigitsAreDigits(n: nat)
    ensures Digits(n) != "" && forall k :: 0 <= k < |Digits(n)| ==> IsDigit(Digits(n)[k])
    ensures Number(Digits(n)) == n
    decreases n
  {
    var s := Digits(n);
    if n >= 10 {
      DigitsAreDigits(n / 10);
      assert s[..|s| - 1] == Digits(n / 10);
    } else {
      assert s[..0] == "";
    }
    assert s[|s| - 1] as int - '0' as int == n % 10;
  }

  lemma TagIsCore(n: nat)
    ensures |Tag(n)| >= 3 && Tag(n)[0] == START && Tag(n)[|Tag(n)| - 1] == END
    ensures forall k :: 0 <= k < |Tag(n)| ==> IsCore(Tag(n)[k])
    ensures forall k :: 0 < k < |Tag(n)| - 1 ==> IsDigit(Tag(n)[k])
  {
    DigitsAreDigits(n);
  }

  lemma {:induction false} DigitsEndAt(text: string, i: nat, end: nat)
    requires i <= end < |text| && !IsDigit(text[end]) && forall k :: i <= k < end ==> IsDigit(text[k])
    ensures DigitsEnd(text, i) == end
    decreases end - i
  {
    if i < end {
      DigitsEndAt(text, i + 1, end);
    }
  }

  lemma LeadingTag(n: nat, rest: string)
    ensures Leading(Tag(n) + rest) == Some(Placeholder(n, |Tag(n)|))
  {
    var text, end := Tag(n) + rest, |Tag(n)| - 1;
    TagIsCore(n);
    DigitsAreDigits(n);
    assert text[end] == Tag(n)[end];
    assert forall k :: 1 <= k < end ==> text[k] == Tag(n)[k];
    DigitsEndAt(text, 1, end);
    assert text[1..end] == Digits(n);
  }

  lemma {:induction false} RestoringGap(gap: string, rest: string, tokens: seq<string>)
    requires Free(gap)
    ensures RestoredFrom(gap + rest, tokens) == Prefixed(gap, RestoredFrom(rest, tokens))
    decreases |gap|
  {
    if gap == "" {
      assert gap + rest == rest;
      var restored := RestoredFrom(rest, tokens);
      assert restored.Some? ==> "" + restored.value == restored.value;
    } else {
      assert (gap + rest)[1..] == gap[1..] + rest;
      RestoringGap(gap[1..], rest, tokens);
      assert forall tail: string :: [gap[0]] + (gap[1..] + tail) == gap + tail;
    }
  }

  lemma RestoringTag(n: nat, rest: string, tokens: seq<string>)
    requires n < |tokens|
    ensures RestoredFrom(Tag(n) + rest, tokens) == Prefixed(tokens[n], RestoredFrom(rest, tokens))
  {
    LeadingTag(n, rest);
    assert (Tag(n) + rest)[|Tag(n)|..] == rest;
  }

  /** The tokens a list of placeholders stands for. */
  function SpansOf(marks: seq<nat>, tokens: seq<string>): seq<string> {
    seq(|marks|, k requires 0 <= k < |marks| => if marks[k] < |tokens| then tokens[marks[k]] else "")
  }

  lemma SpansTail(marks: seq<nat>, tokens: seq<string>)
    requires marks != []
    ensures SpansOf(marks, tokens)[1..] == SpansOf(marks[1..], tokens)
  {
  }

  /** Restoring replaces each placeholder by its token and changes nothing else. */
  lemma {:induction false} RestoringMarked(text: string, marks: seq<nat>, tokens: seq<string>)
    requires Marked(text, marks) && forall m <- marks :: m < |tokens|
    ensures RestoredFrom(text, tokens).Some?
    ensures Carries(RestoredFrom(text, tokens).value, SpansOf(marks, tokens))
    decreases |marks|
  {
    var spans := SpansOf(marks, tokens);
    if marks == [] {
      RestoringGap(text, "", tokens);
      assert text + "" == text;
    } else {
      var gap: string, rest: string :| Opens(text, gap, marks[0], rest) && Marked(rest, marks[1..]);
      assert text == gap + (Tag(marks[0]) + rest);
      assert forall m <- marks[1..] :: m in marks;
      RestoringMarked(rest, marks[1..], tokens);
      RestoringGap(gap, Tag(marks[0]) + rest, tokens);
      assert marks[0] in marks;
      RestoringTag(marks[0], rest, tokens);
      var tail := RestoredFrom(rest, tokens).value;
      SpansTail(marks, tokens);
      MovedText(gap, spans[0] + tail, spans[0], tail);
      assert Shows(gap + (spans[0] + tail), gap, spans[0], tail);
    }
  }

  function Range(from: nat, to: nat): seq<nat>
    requires from <= to
  {
    seq(to - from, k requires 0 <= k => from + k)
  }

  lemma MarkedPrefix(gap: string, text: string, marks: seq<nat>)
    requires Free(gap) && Marked(text, marks)
    ensures Marked(gap + text, marks)
  {
    if marks != [] {
      var inner: string, rest: string :| Opens(text, inner, marks[0], rest) && Marked(rest, marks[1..]);
      assert Opens(gap + text, gap + inner, marks[0], rest);
    }
  }

  lemma MarkedTag(gap: string, n: nat, rest: string, marks: seq<nat>)
    requires Free(gap) && Marked(rest, marks)
    ensures Marked(gap + Tag(n) + rest, [n] + marks)
  {
    var all := [n] + marks;
    assert all[0] == n && all[1..] == marks;
    assert Opens(gap + Tag(n) + rest, gap, all[0], rest);
  }

  lemma {:induction false} MaskingKeepsTokens(find: Finder, text: string, pos: nat, tokens: seq<string>)
    requires pos <= |text|
    ensures tokens <= MaskedFrom(find, text, pos, tokens).tokens
    decreases |text| - pos
  {
    var next := NextSpan(find, text, pos);
    if next.Some? {
      var m := next.value;
      MaskingKeepsTokens(find, text, m.end, if m.masked then tokens + [text[m.start..m.end]] else tokens);
    }
  }

  lemma MarkedCons(gap: string, rest: string, marks: seq<nat>)
    requires marks != [] && Free(gap) && Marked(rest, marks[1..])
    ensures Marked(gap + Tag(marks[0]) + rest, marks)
  {
    assert Opens(gap + Tag(marks[0]) + rest, gap, marks[0], rest);
  }

  /** Masking a text numbers its spans upwards from the tokens already taken. */
  lemma {:induction false} MaskingNumbersSpans(find: Finder, text: string, pos: nat, tokens: seq<string>)
    requires pos <= |text| && Free(text)
    ensures var masking := MaskedFrom(find, text, pos, tokens);
      |tokens| <= |masking.tokens| && Marked(masking.text, Range(|tokens|, |masking.tokens|))
    decreases |text| - pos
  {
    var next, n := NextSpan(find, text, pos), |tokens|;
    if next.None? {
      assert Range(n, n) == [];
    } else if next.value.masked {
      var m := next.value;
      var rest := MaskedFrom(find, text, m.end, tokens + [text[m.start..m.end]]);
      MaskingNumbersSpans(find, text, m.end, tokens + [text[m.start..m.end]]);
      MarkedTag(text[pos..m.start], n, rest.text, Range(n + 1, |rest.tokens|));
      assert Range(n, |rest.tokens|) == [n] + Range(n + 1, |rest.tokens|);
    } else {
      var m := next.value;
      var rest := MaskedFrom(find, text, m.end, tokens);
      MaskingNumbersSpans(find, text, m.end, tokens);
      MarkedPrefix(text[pos..m.end], rest.text, Range(n, |rest.tokens|));
    }
  }

  lemma RestoringSpan(gap: string, span: string, n: nat, masked: string, rest: string, all: seq<string>)
    requires Free(gap) && n < |all| && all[n] == span && RestoredFrom(masked, all) == Some(rest)
    ensures RestoredFrom(gap + Tag(n) + masked, all) == Some(gap + span + rest)
  {
    var tail := Tag(n) + masked;
    MovedText(gap, tail, Tag(n), masked);
    RestoringTag(n, masked, all);
    assert RestoredFrom(tail, all) == Some(span + rest);
    RestoringGap(gap, tail, all);
    MovedText(gap, span + rest, span, rest);
  }

  /** Restoring undoes masking, with the final list of tokens. */
  lemma {:induction false} MaskingUndone(find: Finder, text: string, pos: nat, tokens: seq<string>, all: seq<string>)
    requires pos <= |text| && Free(text)
    requires MaskedFrom(find, text, pos, tokens).tokens <= all
    ensures RestoredFrom(MaskedFrom(find, text, pos, tokens).text, all) == Some(text[pos..])
    decreases |text| - pos
  {
    var next := NextSpan(find, text, pos);
    if next.None? {
      RestoringGap(text[pos..], "", all);
      assert text[pos..] + "" == text[pos..];
    } else {
      var m := next.value;
      MaskedStep(find, text, pos, tokens, m);
      var span := text[m.start..m.end];
      var taken := if m.masked then tokens + [span] else tokens;
      var rest := MaskedFrom(find, text, m.end, taken);
      MaskingUndone(find, text, m.end, taken, all);
      MaskingKeepsTokens(find, text, m.end, taken);
      if m.masked {
        assert all[|tokens|] == taken[|tokens|] == span;
        RestoringSpan(text[pos..m.start], span, |tokens|, rest.text, text[m.end..], all);
        ThreeParts(text, pos, m.start, m.end);
      } else {
        RestoringGap(text[pos..m.end], rest.text, all);
        ThreeParts(text, pos, m.end, m.end);
      }
    }
  }

  lemma ThreeParts(text: string, a: nat, b: nat, c: nat)
    requires a <= b <= c <= |text|
    ensures text[a..] == text[a..b] + text[b..c] + text[c..]
    ensures text[a..] == text[a..c] + text[c..]
  {
  }

  /** Protecting a text and restoring it gives the text back, whatever is protected. */
  lemma ProtectRoundTrips(find: Finder, text: string)
    requires Free(text)
    ensures var masking := MaskedFrom(find, text, 0, []);
      Restored(masking.text, masking.tokens) == Some(text)
  {
    var masking := MaskedFrom(find, text, 0, []);
    MaskingUndone(find, text, 0, [], masking.tokens);
    MaskingNumbersSpans(find, text, 0, []);
    assert text[0..] == text;
    if masking.tokens == [] {
      assert Range(0, 0) == [];
      RestoringGap(masking.text, "", []);
      assert masking.text + "" == masking.text;
    }
  }
}
