/** Splitting a long transcript into pieces that fit one inference: app/cleanup/chunks.py.

    Each function that only computes is a function; each that loops or grows a list is a method,
    proved equal to a function so that `ChunkLaws` can say what the pieces are. */
module Chunks {
  import opened Options
  import opened Scanner

  datatype Packing = Pieces(pieces: seq<string>) | InvalidLimit

  datatype Splitter = AfterSentences | AtWords

  function Joined(pieces: seq<string>): string {
    if pieces == [] then "" else pieces[0] + Joined(pieces[1..])
  }

  function AsPieces(text: string): seq<string> {
    if text != "" then [text] else []
  }

  predicate Fits(left: string, right: string, limit: nat) {
    |left| + |right| <= limit
  }

  lemma Moved(done: seq<string>, rest: seq<string>, part: seq<string>, later: seq<string>)
    requires rest == part + later
    ensures done + rest == done + part + later
  {
  }

  // ---------------------------------------------------------------- splitting

  /** Where the first match at or after `start` ends. */
  function StopAfter(p: Pattern, text: string, start: nat): (stop: Option<nat>)
    requires start <= |text|
    ensures stop.Some? ==> start < stop.value <= |text| && IsSpace(text[stop.value - 1])
  {
    match NextMatch(p, text, start)
    case Some(m) => Some(m.end)
    case None => None
  }

  function Stopper(p: Pattern, text: string): nat -> Option<nat> {
    (i: nat) => if i <= |text| then StopAfter(p, text, i) else None
  }

  /** Cutting a text wherever `stop` says, which is behind the current start or not at all. */
  function CutBy(stop: nat -> Option<nat>, text: string, start: nat): seq<string>
    requires start <= |text|
    decreases |text| - start
  {
    var end := stop(start);
    if end.Some? && start < end.value <= |text| then [text[start..end.value]] + CutBy(stop, text, end.value)
    else AsPieces(text[start..])
  }

  function CutFrom(p: Pattern, text: string, start: nat): seq<string>
    requires start <= |text|
  {
    CutBy(Stopper(p, text), text, start)
  }

  /** One round of cutting: up to and including the next match. */
  lemma CutOne(p: Pattern, text: string, start: nat)
    requires start <= |text|
    ensures var stop := StopAfter(p, text, start);
      CutFrom(p, text, start) ==
      if stop.None? then AsPieces(text[start..]) else [text[start..stop.value]] + CutFrom(p, text, stop.value)
  {
  }

  function CutAfter(p: Pattern, text: string): seq<string> {
    var pieces := CutFrom(p, text, 0);
    if pieces == [] then [text] else pieces
  }

  method SplitAfter(text: string, p: Pattern) returns (pieces: seq<string>)
    ensures pieces == CutAfter(p, text)
  {
    pieces := [];
    var start := 0;
    var next := NextMatch(p, text, 0);
    ghost var whole := CutFrom(p, text, 0);
    ghost var rest := whole;
    while next.Some?
      invariant start <= |text| && next == NextMatch(p, text, start)
      invariant rest == CutFrom(p, text, start) && whole == pieces + rest
      decreases |text| - start
    {
      var end := next.value.end;
      CutOne(p, text, start);
      ghost var later := CutFrom(p, text, end);
      Moved(pieces, rest, [text[start..end]], later);
      rest := later;
      pieces := pieces + [text[start..end]];
      start := end;
      next := NextMatch(p, text, start);
    }
    if start < |text| {
      pieces := pieces + [text[start..]];
    }
    if pieces == [] {
      pieces := [text];
    }
  }

  function WithSpace(pieces: seq<string>, space: string, limit: nat): seq<string> {
    if space == "" then pieces
    else if pieces != [] && Fits(pieces[|pieces| - 1], space, limit)
    then pieces[|pieces| - 1 := pieces[|pieces| - 1] + space]
    else pieces + [space]
  }

  function WordsFrom(pieces: seq<string>, text: string, start: nat, limit: nat): seq<string>
    requires start <= |text|
    decreases |text| - start
  {
    match NextMatch(Whitespace, text, start)
    case Some(m) =>
      WordsFrom(WithSpace(pieces + AsPieces(text[start..m.start]), text[m.start..m.end], limit), text, m.end, limit)
    case None => pieces + AsPieces(text[start..])
  }

  function WordsOf(text: string, limit: nat): seq<string> {
    var pieces := WordsFrom([], text, 0, limit);
    if pieces == [] then [text] else pieces
  }

  method AppendWhitespace(pieces: seq<string>, space: string, limit: nat) returns (grown: seq<string>)
    ensures grown == WithSpace(pieces, space, limit)
  {
    grown := pieces;
    if space == "" {
      return;
    }
    if grown != [] && Fits(grown[|grown| - 1], space, limit) {
      grown := grown[|grown| - 1 := grown[|grown| - 1] + space];
      return;
    }
    grown := grown + [space];
  }

  lemma WordsStep(pieces: seq<string>, text: string, start: nat, limit: nat)
    requires start <= |text|
    ensures var next := NextMatch(Whitespace, text, start);
      WordsFrom(pieces, text, start, limit) ==
      if next.None? then pieces + AsPieces(text[start..])
      else
        var m := next.value;
        WordsFrom(WithSpace(pieces + AsPieces(text[start..m.start]), text[m.start..m.end], limit), text, m.end, limit)
  {
  }

  lemma AddWord(pieces: seq<string>, word: string)
    ensures pieces + AsPieces(word) == if word != "" then pieces + [word] else pieces
  {
  }

  method SplitWords(text: string, limit: nat) returns (pieces: seq<string>)
    ensures pieces == WordsOf(text, limit)
  {
    pieces := [];
    var start := 0;
    var next := NextMatch(Whitespace, text, 0);
    ghost var whole := WordsFrom([], text, 0, limit);
    while next.Some?
      invariant start <= |text| && next == NextMatch(Whitespace, text, start)
      invariant whole == WordsFrom(pieces, text, start, limit)
      decreases |text| - start
    {
      var m := next.value;
      var word := text[start..m.start];
      WordsStep(pieces, text, start, limit);
      AddWord(pieces, word);
      start := m.end;
      if word != "" {
        pieces := pieces + [word];
      }
      pieces := AppendWhitespace(pieces, text[m.start..m.end], limit);
      next := NextMatch(Whitespace, text, start);
    }
    if start < |text| {
      pieces := pieces + [text[start..]];
    }
    if pieces == [] {
      pieces := [text];
    }
  }

  function SplitBy(splitter: Splitter, unit: string, limit: nat): seq<string> {
    match splitter
    case AfterSentences => CutAfter(Sentence, unit)
    case AtWords => WordsOf(unit, limit)
  }

  function Shards(unit: string, limit: nat, splitter: Splitter): seq<string> {
    if |unit| <= limit then [unit] else SplitBy(splitter, unit, limit)
  }

  function Broken(units: seq<string>, limit: nat, splitter: Splitter): seq<string> {
    if units == [] then []
    else Shards(units[0], limit, splitter) + Broken(units[1..], limit, splitter)
  }

  method SplitUnit(splitter: Splitter, unit: string, limit: nat) returns (parts: seq<string>)
    ensures parts == SplitBy(splitter, unit, limit)
  {
    match splitter
    case AfterSentences => parts := SplitAfter(unit, Sentence);
    case AtWords => parts := SplitWords(unit, limit);
  }

  lemma BrokenStep(units: seq<string>, k: nat, limit: nat, splitter: Splitter)
    requires k < |units|
    ensures Broken(units[k..], limit, splitter) ==
      Shards(units[k], limit, splitter) + Broken(units[k + 1..], limit, splitter)
  {
    assert units[k..][1..] == units[k + 1..];
  }

  method BreakOversized(units: seq<string>, limit: nat, splitter: Splitter) returns (broken: seq<string>)
    ensures broken == Broken(units, limit, splitter)
  {
    broken := [];
    ghost var whole := Broken(units, limit, splitter);
    ghost var rest := whole;
    assert units[0..] == units;
    for k := 0 to |units|
      invariant rest == Broken(units[k..], limit, splitter) && whole == broken + rest
    {
      BrokenStep(units, k, limit, splitter);
      ghost var later := Broken(units[k + 1..], limit, splitter);
      Moved(broken, rest, Shards(units[k], limit, splitter), later);
      rest := later;
      if |units[k]| <= limit {
        broken := broken + [units[k]];
      } else {
        var parts := SplitUnit(splitter, units[k], limit);
        broken := broken + parts;
      }
    }
  }

  // ---------------------------------------------------------------- greedy packing

  datatype Progress = Progress(done: seq<string>, current: string)

  function Extended(p: Progress, unit: string, limit: nat): Progress {
    if p.current == "" || Fits(p.current, unit, limit) then Progress(p.done, p.current + unit)
    else Progress(p.done + [p.current], unit)
  }

  function PackedFrom(p: Progress, units: seq<string>, limit: nat): seq<string>
    decreases |units|
  {
    if units == [] then p.done + AsPieces(p.current)
    else PackedFrom(Extended(p, units[0], limit), units[1..], limit)
  }

  function Packed(units: seq<string>, limit: nat): seq<string> {
    PackedFrom(Progress([], ""), units, limit)
  }

  method ExtendPiece(packed: seq<string>, current: string, unit: string, limit: nat)
    returns (flushed: seq<string>, next: string)
    ensures Progress(flushed, next) == Extended(Progress(packed, current), unit, limit)
  {
    if current == "" || Fits(current, unit, limit) {
      return packed, current + unit;
    }
    return packed + [current], unit;
  }

  method PackUnits(units: seq<string>, limit: nat) returns (packed: seq<string>)
    ensures packed == Packed(units, limit)
  {
    packed := [];
    var current := "";
    var k := 0;
    while k < |units|
      invariant k <= |units|
      invariant Packed(units, limit) == PackedFrom(Progress(packed, current), units[k..], limit)
    {
      assert units[k..][1..] == units[k + 1..];
      packed, current := ExtendPiece(packed, current, units[k], limit);
      k := k + 1;
    }
    if current != "" {
      packed := packed + [current];
    }
  }

  // ---------------------------------------------------------------- abbreviations

  predicate FragmentFrom(piece: string, end: nat)
    requires end <= |piece|
    decreases |piece| - end
  {
    match NextMatch(Abbreviation, piece, end)
    case Some(m) => m.start == end && FragmentFrom(piece, m.end)
    case None => end == |piece|
  }

  predicate IsFragment(piece: string) {
    piece != "" && FragmentFrom(piece, 0)
  }

  method IsAbbreviationFragment(piece: string) returns (fragment: bool)
    ensures fragment <==> IsFragment(piece)
  {
    if piece == "" {
      return false;
    }
    var end := 0;
    var next := NextMatch(Abbreviation, piece, 0);
    while next.Some?
      invariant end <= |piece| && next == NextMatch(Abbreviation, piece, end)
      invariant FragmentFrom(piece, 0) <==> FragmentFrom(piece, end)
      decreases |piece| - end
    {
      if next.value.start != end {
        return false;
      }
      end := next.value.end;
      next := NextMatch(Abbreviation, piece, end);
    }
    return end == |piece|;
  }

  function RunPieces(text: string, limit: nat): seq<string> {
    if |text| <= limit then AsPieces(text) else Packed(CutAfter(Abbreviation, text), limit)
  }

  method SplitAbbreviationRun(text: string, limit: nat) returns (pieces: seq<string>)
    ensures pieces == RunPieces(text, limit)
  {
    if |text| <= limit {
      return AsPieces(text);
    }
    var units := SplitAfter(text, Abbreviation);
    pieces := PackUnits(units, limit);
  }

  function FollowerPieces(pending: string, unit: string, limit: nat): seq<string> {
    if Fits(pending, unit, limit) || |unit| > limit then [pending + unit]
    else RunPieces(pending, limit) + [unit]
  }

  method JoinFollower(pending: string, unit: string, limit: nat) returns (pieces: seq<string>)
    ensures pieces == FollowerPieces(pending, unit, limit)
  {
    if Fits(pending, unit, limit) || |unit| > limit {
      return [pending + unit];
    }
    pieces := SplitAbbreviationRun(pending, limit);
    pieces := pieces + [unit];
  }

  /** The abbreviation buffer: pieces already attached, and the fragments still held back. */
  datatype Buffer = Buffer(attached: seq<string>, pending: string)

  function Flushed(b: Buffer, unit: string, limit: nat): Buffer {
    if b.pending != "" && !Fits(b.pending, unit, limit)
    then Buffer(b.attached + RunPieces(b.pending, limit), "") else b
  }

  function Grown(b: Buffer, unit: string, limit: nat): Buffer {
    var pending := b.pending + unit;
    if |pending| <= limit then Buffer(b.attached, pending) else Buffer(b.attached + RunPieces(pending, limit), "")
  }

  function Held(b: Buffer, unit: string, limit: nat): Buffer {
    Grown(Flushed(b, unit, limit), unit, limit)
  }

  function AttachedNext(b: Buffer, unit: string, limit: nat): Buffer {
    if IsFragment(unit) then Held(b, unit, limit)
    else if b.pending != "" then Buffer(b.attached + FollowerPieces(b.pending, unit, limit), "")
    else Buffer(b.attached + [unit], "")
  }

  function AttachedFrom(b: Buffer, units: seq<string>, limit: nat): seq<string>
    decreases |units|
  {
    if units == [] then b.attached + (if b.pending != "" then RunPieces(b.pending, limit) else [])
    else AttachedFrom(AttachedNext(b, units[0], limit), units[1..], limit)
  }

  method HoldAbbreviation(attached: seq<string>, pending: string, unit: string, limit: nat)
    returns (grown: seq<string>, held: string)
    ensures Buffer(grown, held) == Held(Buffer(attached, pending), unit, limit)
  {
    grown, held := attached, pending;
    if held != "" && !Fits(held, unit, limit) {
      var run := SplitAbbreviationRun(held, limit);
      grown := grown + run;
      held := "";
    }
    held := held + unit;
    if |held| <= limit {
      return;
    }
    var run := SplitAbbreviationRun(held, limit);
    return grown + run, "";
  }

  method NextAttachment(attached: seq<string>, pending: string, unit: string, limit: nat)
    returns (grown: seq<string>, held: string)
    ensures Buffer(grown, held) == AttachedNext(Buffer(attached, pending), unit, limit)
  {
    var fragment := IsAbbreviationFragment(unit);
    if fragment {
      grown, held := HoldAbbreviation(attached, pending, unit, limit);
      return;
    }
    if pending != "" {
      var run := JoinFollower(pending, unit, limit);
      return attached + run, "";
    }
    return attached + [unit], "";
  }

  method AttachAbbreviations(units: seq<string>, limit: nat) returns (attached: seq<string>)
    ensures attached == AttachedFrom(Buffer([], ""), units, limit)
  {
    attached := [];
    var pending := "";
    var k := 0;
    while k < |units|
      invariant k <= |units|
      invariant AttachedFrom(Buffer([], ""), units, limit) == AttachedFrom(Buffer(attached, pending), units[k..], limit)
    {
      assert units[k..][1..] == units[k + 1..];
      attached, pending := NextAttachment(attached, pending, units[k], limit);
      k := k + 1;
    }
    if pending != "" {
      var run := SplitAbbreviationRun(pending, limit);
      attached := attached + run;
    }
  }

  // ---------------------------------------------------------------- pack

  function Words(text: string, limit: nat): seq<string> {
    Broken(Broken(CutAfter(Paragraph, text), limit, AfterSentences), limit, AtWords)
  }

  function UnitsOf(text: string, limit: nat): seq<string> {
    AttachedFrom(Buffer([], ""), Words(text, limit), limit)
  }

  function PiecesOf(text: string, limit: nat): seq<string> {
    if |text| <= limit then AsPieces(text) else Packed(UnitsOf(text, limit), limit)
  }

  method Units(text: string, limit: nat) returns (units: seq<string>)
    ensures units == UnitsOf(text, limit)
  {
    var paragraphs := SplitAfter(text, Paragraph);
    var sentences := BreakOversized(paragraphs, limit, AfterSentences);
    var words := BreakOversized(sentences, limit, AtWords);
    units := AttachAbbreviations(words, limit);
  }

  method Pack(text: string, limit: int) returns (packing: Packing)
    ensures limit < 1 ==> packing == InvalidLimit
    ensures limit >= 1 ==> packing == Pieces(PiecesOf(text, limit))
  {
    if limit < 1 {
      return InvalidLimit;
    }
    if |text| <= limit {
      return Pieces(AsPieces(text));
    }
    var units := Units(text, limit);
    var packed := PackUnits(units, limit);
    return Pieces(packed);
  }
}
