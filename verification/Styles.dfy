/** The writing styles of app/text_styles.py, as passes over a masked text.

    Which characters are letters, and what their upper and lower case is, come from tables that are not
    part of this model; so does the sentence segmenter, whose answer is a parameter. */
module Styles {
  import opened Options
  import opened Spans
  import Scanner
  import Chunks

  datatype Punctuation = Punctuation(
    terminator: string, separator: string, exclamation: string, question: string, terminators: string, join: string)

  datatype Tables = Tables(
    letter: char -> bool, upper: char -> string, lower: string -> string, address: string -> bool)

  datatype Style = Raw | Clean | Formal | Casual | VeryCasual | Excited

  // ---------------------------------------------------------------- passes

  /** What one left-to-right substitution writes, and the state it ends in. */
  function Out<S>(step: (S, char) -> (S, string), s: S, text: string): string
    decreases |text|
  {
    if text == "" then "" else step(s, text[0]).1 + Out(step, step(s, text[0]).0, text[1..])
  }

  function Final<S>(step: (S, char) -> (S, string), s: S, text: string): S
    decreases |text|
  {
    if text == "" then s else Final(step, step(s, text[0]).0, text[1..])
  }

  /** `\s+` to one space: what a run becomes is held back until the next character shows that it ended. */
  function CollapseStep(held: string, c: char): (string, string) {
    if Scanner.IsSpace(c) then (" ", "") else ("", held + [c])
  }

  function Collapsed(text: string): string {
    var step := (held: string, c: char) => CollapseStep(held, c);
    Out(step, "", text) + Final(step, "", text)
  }

  /** `\s+([marks])` to the mark: spaces are held back until the next character shows what they precede. */
  function TightenStep(marks: string, held: string, c: char): (string, string) {
    if Scanner.IsSpace(c) then (held + [c], "")
    else if c in marks then ("", [c])
    else ("", held + [c])
  }

  function Tightened(text: string, marks: string): string {
    var step := (held: string, c: char) => TightenStep(marks, held, c);
    Out(step, "", text) + Final(step, "", text)
  }

  /** Where a capital may go: nowhere, after a terminator and spaces, or after opening brackets too. */
  datatype Armed = Off | AfterMark | AfterBracket

  predicate IsBracket(c: char) {
    c in "\"'\U{201C}\U{2018}(["
  }

  function CapitalStep(terminators: string, t: Tables, armed: Armed, c: char): (Armed, string) {
    if c in terminators then (AfterMark, [c])
    else if Scanner.IsSpace(c) then (if armed == AfterMark then AfterMark else Off, [c])
    else if IsBracket(c) then (if armed == Off then Off else AfterBracket, [c])
    else if t.letter(c) then (Off, if armed == Off then [c] else t.upper(c))
    else (Off, [c])
  }

  function CapitalizedStarts(text: string, terminators: string, t: Tables): string {
    Out((armed: Armed, c: char) => CapitalStep(terminators, t, armed, c), AfterBracket, text)
  }

  /** `capitalize` is the same substitution with no terminator to arm it again. */
  function Capitalized(text: string, t: Tables): string {
    CapitalizedStarts(text, "", t)
  }

  function StripStart(text: string): string
    decreases |text|
  {
    if text != "" && Scanner.IsSpace(text[0]) then StripStart(text[1..]) else text
  }

  function StripEnd(text: string): string
    decreases |text|
  {
    if text != "" && Scanner.IsSpace(text[|text| - 1]) then StripEnd(text[..|text| - 1]) else text
  }

  function Stripped(text: string): string {
    StripEnd(StripStart(text))
  }

  // ---------------------------------------------------------------- styles

  function NormalizedSpacing(text: string, p: Punctuation): string {
    Tightened(Stripped(Collapsed(text)), p.terminators + p.separator + ";:")
  }

  predicate EndsWith(text: string, suffix: string) {
    |suffix| <= |text| && text[|text| - |suffix|..] == suffix
  }

  function Terminated(text: string, p: Punctuation): string {
    if text != "" && text[|text| - 1] !in p.terminators then text + p.terminator else text
  }

  function FormalStyle(text: string, p: Punctuation, t: Tables): string {
    Terminated(CapitalizedStarts(text, p.terminators, t), p)
  }

  function CasualStyle(text: string, p: Punctuation, t: Tables): string {
    var formatted := CapitalizedStarts(text, p.terminators, t);
    if p.terminator != "" && EndsWith(formatted, p.terminator) && !EndsWith(formatted, "..")
    then formatted[..|formatted| - |p.terminator|] else formatted
  }

  function SplitTerminator(sentence: string, p: Punctuation): (string, string) {
    var body := Stripped(sentence);
    if body != "" && body[|body| - 1] in p.terminators && !EndsWith(body, "..")
    then (body[..|body| - 1], body[|body| - 1..]) else (body, "")
  }

  function CasualSegment(sentence: string, p: Punctuation, isLast: bool): string {
    var (body, term) := SplitTerminator(sentence, p);
    if body == "" then ""
    else if isLast then body
    else if term in ["", p.terminator] then body + p.separator
    else body + term
  }

  function ExcitedSegment(sentence: string, p: Punctuation, t: Tables): string {
    var (body, term) := SplitTerminator(sentence, p);
    if body == "" then ""
    else Capitalized(body, t) + (if term == p.question then term else p.exclamation)
  }

  function CasualParts(sentences: seq<string>, p: Punctuation): seq<string> {
    if sentences == [] then []
    else [CasualSegment(sentences[0], p, |sentences| == 1)] + CasualParts(sentences[1..], p)
  }

  function ExcitedParts(sentences: seq<string>, p: Punctuation, t: Tables): seq<string> {
    if sentences == [] then [] else [ExcitedSegment(sentences[0], p, t)] + ExcitedParts(sentences[1..], p, t)
  }

  /** `join.join(part for part in parts if part)`. */
  function JoinedParts(parts: seq<string>, join: string): string {
    if parts == [] then ""
    else
      var rest := JoinedParts(parts[1..], join);
      if parts[0] == "" then rest else if rest == "" then parts[0] else parts[0] + join + rest
  }

  // ---------------------------------------------------------------- segmentation

  function InsideEnd(marks: string, text: string, i: nat): (r: nat)
    requires i <= |text|
    ensures i <= r <= |text|
    decreases |text| - i
  {
    if i < |text| && text[i] in marks then InsideEnd(marks, text, i + 1) else i
  }

  function SpacesEnd(text: string, i: nat): (r: nat)
    requires i <= |text|
    ensures i <= r <= |text|
    ensures r > i ==> Scanner.IsSpace(text[r - 1])
    decreases |text| - i
  {
    if i < |text| && Scanner.IsSpace(text[i]) then SpacesEnd(text, i + 1) else i
  }

  /** The end of the next run of terminators with spaces after it. */
  function NextBreak(terminators: string, text: string, i: nat): (r: Option<nat>)
    requires i <= |text|
    ensures r.Some? ==> i < r.value <= |text| && Scanner.IsSpace(text[r.value - 1])
    decreases |text| - i
  {
    if i == |text| then None
    else
      var marks := InsideEnd(terminators, text, i);
      var end := SpacesEnd(text, marks);
      if i < marks < end then Some(end) else NextBreak(terminators, text, i + 1)
  }

  function SentencesFrom(text: string, start: nat, terminators: string): seq<string>
    requires start <= |text|
    decreases |text| - start
  {
    match NextBreak(terminators, text, start)
    case Some(end) => [text[start..end]] + SentencesFrom(text, end, terminators)
    case None => if start < |text| then [text[start..]] else []
  }

  function Sentences(text: string, terminators: string): seq<string> {
    var found := SentencesFrom(text, 0, terminators);
    if found == [] then [text] else found
  }

  lemma SentencesStep(text: string, start: nat, terminators: string)
    requires start <= |text|
    ensures var next := NextBreak(terminators, text, start);
      SentencesFrom(text, start, terminators) ==
      if next.None? then (if start < |text| then [text[start..]] else [])
      else [text[start..next.value]] + SentencesFrom(text, next.value, terminators)
  {
  }

  method SplitOnTerminators(text: string, terminators: string) returns (sentences: seq<string>)
    ensures sentences == Sentences(text, terminators)
  {
    sentences := [];
    var start := 0;
    var next := NextBreak(terminators, text, 0);
    ghost var whole := SentencesFrom(text, 0, terminators);
    ghost var rest := whole;
    while next.Some?
      invariant start <= |text| && next == NextBreak(terminators, text, start)
      invariant rest == SentencesFrom(text, start, terminators) && whole == sentences + rest
      decreases |text| - start
    {
      SentencesStep(text, start, terminators);
      ghost var later := SentencesFrom(text, next.value, terminators);
      Chunks.Moved(sentences, rest, [text[start..next.value]], later);
      sentences := sentences + [text[start..next.value]];
      start := next.value;
      rest := later;
      next := NextBreak(terminators, text, start);
    }
    SentencesStep(text, start, terminators);
    if start < |text| {
      sentences := sentences + [text[start..]];
    }
    if sentences == [] {
      sentences := [text];
    }
  }

  /** `hasBreak` is whether the text has an inner sentence end at all; `library` is the segmenter's answer,
      if it knows the language. An answer that does not add up to the text is not used. */
  function Segmented(text: string, p: Punctuation, hasBreak: bool, library: Option<seq<string>>): seq<string> {
    if !hasBreak then [text]
    else if library.Some? && library.value != [] && Chunks.Joined(library.value) == text then library.value
    else Sentences(text, p.terminators)
  }

  function Styled(style: Style, text: string, p: Punctuation, t: Tables, hasBreak: bool,
                  library: Option<seq<string>>): string
  {
    var normalized := NormalizedSpacing(text, p);
    match style
    case Raw => text
    case Clean => Terminated(normalized, p)
    case Formal => FormalStyle(normalized, p, t)
    case Casual => CasualStyle(normalized, p, t)
    case VeryCasual =>
      LoweredOutside(JoinedParts(CasualParts(Segmented(normalized, p, hasBreak, library), p), p.join), t.lower)
    case Excited => JoinedParts(ExcitedParts(Segmented(normalized, p, hasBreak, library), p, t), p.join)
  }

  /** `sanitize_tokens`. */
  function Sanitized(tokens: seq<string>, style: Style, t: Tables): seq<string> {
    if style != VeryCasual then tokens
    else seq(|tokens|, k requires 0 <= k < |tokens| => if t.address(tokens[k]) then tokens[k] else t.lower(tokens[k]))
  }

  /** `apply_writing_style`. */
  function Applied(text: string, style: Style, p: Punctuation, t: Tables, find: Finder,
                   hasBreak: bool, library: Option<seq<string>>): Option<string> {
    if style == Raw then Some(Stripped(text))
    else
      var masking := MaskedFrom(find, text, 0, []);
      Restored(Styled(style, masking.text, p, t, hasBreak, library), Sanitized(masking.tokens, style, t))
  }
}
