/** What the pieces of a packed transcript are, for every text and every limit of at least one. */
module ChunkLaws {
  import opened Options
  import opened Scanner
  import opened Chunks

  // ---------------------------------------------------------------- vocabulary

  predicate EndsInSpace(s: string) {
    s != "" && IsSpace(s[|s| - 1])
  }

  /** A boundary that cuts no token: both sides exist and at least one is whitespace. */
  predicate Cut(left: string, right: string) {
    left != "" && right != "" && (IsSpace(left[|left| - 1]) || IsSpace(right[0]))
  }

  ghost predicate Tidy(pieces: seq<string>) {
    && (forall k :: 0 <= k < |pieces| ==> pieces[k] != "")
    && (forall k :: 0 <= k < |pieces| - 1 ==> Cut(pieces[k], pieces[k + 1]))
  }

  /** One whitespace-free token (or part of one), or one run of whitespace. */
  ghost predicate Solid(s: string) {
    (forall k :: 0 <= k < |s| ==> !IsSpace(s[k])) || (forall k :: 0 <= k < |s| ==> IsSpace(s[k]))
  }

  ghost predicate Small(s: string, limit: nat) {
    |s| <= limit || Solid(s)
  }

  /** At most `limit`, or at most `limit` in front of a solid run that is itself longer than `limit`. */
  ghost predicate Bounded(s: string, limit: nat) {
    |s| <= limit || exists k :: 0 <= k <= limit && k < |s| && |s| - k > limit && Solid(s[k..])
  }

  ghost predicate AllSmall(pieces: seq<string>, limit: nat) {
    forall p <- pieces :: Small(p, limit)
  }

  ghost predicate AllBounded(pieces: seq<string>, limit: nat) {
    forall p <- pieces :: Bounded(p, limit)
  }

  // ---------------------------------------------------------------- joining

  lemma {:induction false} JoinedConcat(a: seq<string>, b: seq<string>)
    ensures Joined(a + b) == Joined(a) + Joined(b)
    decreases |a|
  {
    if a == [] {
      assert a + b == b;
    } else {
      assert (a + b)[1..] == a[1..] + b;
      JoinedConcat(a[1..], b);
    }
  }

  lemma JoinedOne(s: string)
    ensures Joined([s]) == s && Joined(AsPieces(s)) == s
  {
    assert Joined([]) == "";
  }

  lemma JoinedCons(head: string, tail: seq<string>)
    ensures Joined([head] + tail) == head + Joined(tail)
  {
    assert ([head] + tail)[1..] == tail;
  }

  lemma Resumed(text: string, start: nat, end: nat)
    requires start <= end <= |text|
    ensures text[start..] == text[start..end] + text[end..]
  {
  }

  lemma {:induction false} Edges(pieces: seq<string>)
    requires Tidy(pieces) && pieces != []
    ensures var text, last := Joined(pieces), pieces[|pieces| - 1];
      text != "" && text[0] == pieces[0][0] && text[|text| - 1] == last[|last| - 1]
    decreases |pieces|
  {
    var rest := pieces[1..];
    assert Joined(pieces) == pieces[0] + Joined(rest);
    if |pieces| > 1 {
      TidyTail(pieces);
      Edges(rest);
      assert rest[|rest| - 1] == pieces[|pieces| - 1];
    }
  }

  lemma TidyTail(pieces: seq<string>)
    requires Tidy(pieces) && pieces != []
    ensures Tidy(pieces[1..])
  {
    var tail := pieces[1..];
    forall k | 0 <= k < |tail| - 1
      ensures Cut(tail[k], tail[k + 1])
    {
      assert Cut(pieces[k + 1], pieces[k + 1 + 1]);
    }
  }

  ghost predicate Meet(a: seq<string>, b: seq<string>) {
    a != [] && b != [] ==> Cut(a[|a| - 1], b[0])
  }

  lemma TidyConcat(a: seq<string>, b: seq<string>)
    requires Tidy(a) && Tidy(b) && Meet(a, b)
    ensures Tidy(a + b)
  {
  }

  lemma TidyParts(a: seq<string>, b: seq<string>)
    requires Tidy(a + b)
    ensures Tidy(a) && Tidy(b) && Meet(a, b)
  {
    var all := a + b;
    assert forall k :: 0 <= k < |a| ==> all[k] == a[k];
    assert forall k :: 0 <= k < |b| ==> all[|a| + k] == b[k];
    forall k | 0 <= k < |b| - 1
      ensures Cut(b[k], b[k + 1])
    {
      assert Cut(all[|a| + k], all[|a| + k + 1]);
    }
    if a != [] && b != [] {
      assert Cut(all[|a| - 1], all[|a| - 1 + 1]);
    }
  }

  lemma SameEdges(a: seq<string>, b: seq<string>)
    requires a != [] && b != [] && Tidy(a) && Tidy(b) && Joined(a) == Joined(b)
    ensures forall side: seq<string> :: Meet(side, a) == Meet(side, b) && Meet(a, side) == Meet(b, side)
  {
    Edges(a);
    Edges(b);
  }

  lemma JoinedMid(pre: seq<string>, mid: seq<string>, post: seq<string>)
    ensures Joined(pre + mid + post) == Joined(pre) + Joined(mid) + Joined(post)
  {
    JoinedConcat(pre + mid, post);
    JoinedConcat(pre, mid);
  }

  /** Replacing some adjacent pieces by another tidy split of the same text changes nothing else. */
  lemma Resplit(pre: seq<string>, mid: seq<string>, post: seq<string>, other: seq<string>)
    requires Tidy(pre + mid + post) && mid != [] && other != [] && Tidy(other) && Joined(other) == Joined(mid)
    ensures Tidy(pre + other + post)
    ensures Joined(pre + other + post) == Joined(pre + mid + post)
  {
    TidyParts(pre + mid, post);
    TidyParts(pre, mid);
    SameEdges(mid, other);
    assert Meet(mid, post);
    TidyConcat(pre, other);
    assert Meet(other, post);
    TidyConcat(pre + other, post);
    JoinedMid(pre, mid, post);
    JoinedMid(pre, other, post);
  }

  // ---------------------------------------------------------------- splitting

  lemma Prepend(head: string, tail: seq<string>)
    requires EndsInSpace(head) && Tidy(tail)
    ensures Tidy([head] + tail) && Joined([head] + tail) == head + Joined(tail)
  {
    TidyConcat([head], tail);
    assert ([head] + tail)[1..] == tail;
  }

  lemma SliceEndsInSpace(text: string, start: nat, end: nat)
    requires start < end <= |text| && IsSpace(text[end - 1])
    ensures EndsInSpace(text[start..end])
  {
  }

  /** Cutting after every match keeps the text, and every boundary it makes follows whitespace. */
  lemma {:induction false} CutByLaws(stop: nat -> Option<nat>, text: string, start: nat)
    requires start <= |text|
    requires forall i: nat :: stop(i).Some? && i < stop(i).value <= |text| ==> IsSpace(text[stop(i).value - 1])
    ensures Tidy(CutBy(stop, text, start)) && Joined(CutBy(stop, text, start)) == text[start..]
    decreases |text| - start
  {
    var end := stop(start);
    if end.Some? && start < end.value <= |text| {
      CutByLaws(stop, text, end.value);
      SliceEndsInSpace(text, start, end.value);
      Prepend(text[start..end.value], CutBy(stop, text, end.value));
      Resumed(text, start, end.value);
    } else {
      JoinedOne(text[start..]);
    }
  }

  lemma CutAfterLaws(p: Pattern, text: string)
    requires text != ""
    ensures Joined(CutAfter(p, text)) == text && Tidy(CutAfter(p, text)) && CutAfter(p, text) != []
  {
    CutByLaws(Stopper(p, text), text, 0);
    assert text[0..] == text;
    assert Joined([]) == "";
  }

  ghost predicate WordsInv(pieces: seq<string>, text: string, start: nat, limit: nat)
    requires start <= |text|
  {
    && Tidy(pieces) && AllSmall(pieces, limit)
    && Joined(pieces) == text[..start]
    && (start > 0 ==> IsSpace(text[start - 1]))
  }

  lemma WordStep(pieces: seq<string>, text: string, start: nat, at: nat, limit: nat)
    requires start <= at <= |text| && WordsInv(pieces, text, start, limit)
    requires forall j :: start <= j < at ==> !IsSpace(text[j])
    ensures var grown := pieces + AsPieces(text[start..at]);
      Tidy(grown) && AllSmall(grown, limit) && Joined(grown) == text[..at]
  {
    var word := text[start..at];
    assert text[..at] == text[..start] + word;
    JoinedOne(word);
    JoinedConcat(pieces, AsPieces(word));
    if word != "" {
      assert Solid(word);
      if pieces != [] {
        Edges(pieces);
      }
      TidyConcat(pieces, [word]);
    } else {
      assert pieces + [] == pieces;
    }
  }

  lemma GlueSpace(pre: seq<string>, last: string, space: string, limit: nat)
    requires Tidy(pre + [last]) && AllSmall(pre, limit) && space != "" && |last + space| <= limit
    ensures Tidy(pre + [last + space]) && AllSmall(pre + [last + space], limit)
    ensures Joined(pre + [last + space]) == Joined(pre + [last]) + space
  {
    TidyParts(pre, [last]);
    JoinedOne(last);
    JoinedOne(last + space);
    JoinedConcat(pre, [last]);
    JoinedConcat(pre, [last + space]);
    TidyConcat(pre, [last + space]);
  }

  lemma SpaceStep(pieces: seq<string>, space: string, limit: nat)
    requires Tidy(pieces) && AllSmall(pieces, limit)
    requires space != "" && forall k :: 0 <= k < |space| ==> IsSpace(space[k])
    ensures var grown := WithSpace(pieces, space, limit);
      Tidy(grown) && AllSmall(grown, limit) && Joined(grown) == Joined(pieces) + space
  {
    if pieces != [] && Fits(pieces[|pieces| - 1], space, limit) {
      var pre, last := pieces[..|pieces| - 1], pieces[|pieces| - 1];
      assert pieces == pre + [last];
      assert WithSpace(pieces, space, limit) == pre + [last + space];
      GlueSpace(pre, last, space, limit);
    } else {
      JoinedOne(space);
      JoinedConcat(pieces, [space]);
      assert Solid(space);
      TidyConcat(pieces, [space]);
    }
  }

  /** One round of the word loop: the token up to the whitespace match, then the match. */
  lemma WordRound(pieces: seq<string>, text: string, start: nat, m: Span, limit: nat)
    requires start <= m.start < m.end <= |text| && WordsInv(pieces, text, start, limit)
    requires forall j :: start <= j < m.start ==> !IsSpace(text[j])
    requires forall j :: m.start <= j < m.end ==> IsSpace(text[j])
    ensures var grown := WithSpace(pieces + AsPieces(text[start..m.start]), text[m.start..m.end], limit);
      WordsInv(grown, text, m.end, limit)
  {
    WordStep(pieces, text, start, m.start, limit);
    SpaceStep(pieces + AsPieces(text[start..m.start]), text[m.start..m.end], limit);
    assert text[..m.end] == text[..m.start] + text[m.start..m.end];
  }

  lemma {:induction false} WordsFromLaws(pieces: seq<string>, text: string, start: nat, limit: nat)
    requires start <= |text| && WordsInv(pieces, text, start, limit)
    ensures Tidy(WordsFrom(pieces, text, start, limit)) && AllSmall(WordsFrom(pieces, text, start, limit), limit)
    ensures Joined(WordsFrom(pieces, text, start, limit)) == text
    decreases |text| - start
  {
    WhitespaceSplitsTokens(text, start);
    var next := NextMatch(Whitespace, text, start);
    if next.None? {
      WordStep(pieces, text, start, |text|, limit);
      assert text[start..|text|] == text[start..] && text[..|text|] == text;
    } else {
      var m := next.value;
      WordRound(pieces, text, start, m, limit);
      var grown := WithSpace(pieces + AsPieces(text[start..m.start]), text[m.start..m.end], limit);
      WordsFromLaws(grown, text, m.end, limit);
    }
  }

  lemma WordsOfLaws(text: string, limit: nat)
    requires text != ""
    ensures var words := WordsOf(text, limit);
      Tidy(words) && AllSmall(words, limit) && Joined(words) == text && words != []
  {
    assert text[..0] == "";
    WordsFromLaws([], text, 0, limit);
  }

  lemma SplitByLaws(splitter: Splitter, unit: string, limit: nat)
    requires unit != ""
    ensures var parts := SplitBy(splitter, unit, limit);
      && Tidy(parts) && Joined(parts) == unit && parts != []
      && (splitter == AtWords ==> AllSmall(parts, limit))
  {
    match splitter
    case AfterSentences => CutAfterLaws(Sentence, unit);
    case AtWords => WordsOfLaws(unit, limit);
  }

  lemma ShardsLaws(unit: string, limit: nat, splitter: Splitter)
    requires unit != ""
    ensures var shards := Shards(unit, limit, splitter);
      && shards != [] && Tidy(shards) && Joined(shards) == unit
      && (splitter == AtWords ==> AllSmall(shards, limit))
  {
    SplitByLaws(splitter, unit, limit);
    JoinedOne(unit);
  }

  /** A unit replaced by its shards meets what the rest became as it met the rest. */
  lemma ShardsMeet(unit: string, shards: seq<string>, rest: seq<string>, tail: seq<string>)
    requires unit != "" && Tidy([unit] + rest) && Tidy(rest) && Tidy(shards) && Tidy(tail)
    requires shards != [] && Joined(shards) == unit && Joined(tail) == Joined(rest) && (tail == [] <==> rest == [])
    ensures Tidy(shards + tail) && Joined(shards + tail) == unit + Joined(rest)
  {
    JoinedConcat(shards, tail);
    JoinedOne(unit);
    SameEdges([unit], shards);
    TidyParts([unit], rest);
    if tail != [] {
      SameEdges(rest, tail);
      assert Meet([unit], tail) && Meet(shards, tail);
    }
    TidyConcat(shards, tail);
  }

  lemma {:induction false} BrokenLaws(units: seq<string>, limit: nat, splitter: Splitter)
    requires Tidy(units)
    ensures var broken := Broken(units, limit, splitter);
      && Tidy(broken) && Joined(broken) == Joined(units) && (broken == [] <==> units == [])
      && (splitter == AtWords ==> AllSmall(broken, limit))
    decreases |units|
  {
    if units != [] {
      var shards, tail := Shards(units[0], limit, splitter), Broken(units[1..], limit, splitter);
      ShardsLaws(units[0], limit, splitter);
      TidyTail(units);
      BrokenLaws(units[1..], limit, splitter);
      assert units == [units[0]] + units[1..];
      ShardsMeet(units[0], shards, units[1..], tail);
    }
  }

  lemma WordsLaws(text: string, limit: nat)
    requires text != ""
    ensures Tidy(Words(text, limit)) && Joined(Words(text, limit)) == text && AllSmall(Words(text, limit), limit)
  {
    var paragraphs := CutAfter(Paragraph, text);
    CutAfterLaws(Paragraph, text);
    BrokenLaws(paragraphs, limit, AfterSentences);
    BrokenLaws(Broken(paragraphs, limit, AfterSentences), limit, AtWords);
  }

  // ---------------------------------------------------------------- abbreviations

  lemma FragmentEnds(piece: string, end: nat)
    requires end <= |piece| && FragmentFrom(piece, end) && end < |piece|
    ensures MatchEnd(Abbreviation, piece, end).Some? && IsSpace(piece[|piece| - 1])
    decreases |piece| - end
  {
    var m := NextMatch(Abbreviation, piece, end).value;
    if m.end < |piece| {
      FragmentEnds(piece, m.end);
    }
  }

  /** A fragment starts with a letter and ends in a space, so it is never a solid run. */
  lemma FragmentsAreShort(piece: string, limit: nat)
    requires IsFragment(piece) && Small(piece, limit)
    ensures |piece| <= limit
  {
    FragmentEnds(piece, 0);
    AbbreviationStartsSolid(piece, 0);
  }

  function Flat(b: Buffer): seq<string> {
    b.attached + AsPieces(b.pending)
  }

  ghost predicate BufferInv(b: Buffer, units: seq<string>, limit: nat) {
    && Tidy(Flat(b) + units)
    && AllSmall(units, limit) && AllBounded(b.attached, limit)
    && |b.pending| <= limit
  }

  /** Gluing what is held back to the next unit; only a solid follower makes the result oversize. */
  lemma GlueHeld(b: Buffer, units: seq<string>, limit: nat)
    requires units != [] && BufferInv(b, units, limit) && b.pending != ""
    requires Fits(b.pending, units[0], limit) || |units[0]| > limit
    ensures var glued := [b.pending + units[0]];
      && Tidy(b.attached + glued + units[1..]) && Bounded(b.pending + units[0], limit)
      && Joined(b.attached + glued + units[1..]) == Joined(Flat(b) + units)
  {
    var unit, rest, glued := units[0], units[1..], [b.pending + units[0]];
    var mid := [b.pending, unit];
    assert Flat(b) + units == b.attached + mid + rest;
    TidyParts(b.attached + mid, rest);
    TidyParts(b.attached, mid);
    assert mid[1..] == [unit];
    JoinedOne(unit);
    JoinedOne(glued[0]);
    Resplit(b.attached, mid, rest, glued);
    if |glued[0]| > limit {
      GluedIsBounded(b.pending, unit, limit);
    }
  }

  lemma GluedIsBounded(held: string, unit: string, limit: nat)
    requires |held| <= limit && Small(unit, limit) && (Fits(held, unit, limit) || |unit| > limit)
    ensures Bounded(held + unit, limit)
  {
    assert (held + unit)[|held|..] == unit;
  }

  /** Buffers that lay the same pieces before the same units. */
  lemma SameLayout(b: Buffer, next: Buffer, units: seq<string>)
    requires units != [] && Flat(next) == Flat(b) + [units[0]]
    ensures Flat(next) + units[1..] == Flat(b) + units
  {
  }

  /** With a short buffer the abbreviation run is never split: it is glued, flushed or held whole. */
  lemma AttachShape(b: Buffer, unit: string, limit: nat)
    requires |b.pending| <= limit && unit != "" && (IsFragment(unit) ==> |unit| <= limit)
    ensures AttachedNext(b, unit, limit) == Shape(b, unit, limit)
  {
    assert b.attached + ([b.pending] + [unit]) == b.attached + [b.pending] + [unit];
  }

  predicate Glues(b: Buffer, unit: string, limit: nat) {
    b.pending != "" && (Fits(b.pending, unit, limit) || |unit| > limit)
  }

  function Shape(b: Buffer, unit: string, limit: nat): Buffer {
    if Glues(b, unit, limit) then
      if IsFragment(unit) then Buffer(b.attached, b.pending + unit) else Buffer(b.attached + [b.pending + unit], "")
    else
      if IsFragment(unit) then Buffer(b.attached + AsPieces(b.pending), unit)
      else Buffer(b.attached + AsPieces(b.pending) + [unit], "")
  }

  lemma ShapeFlat(b: Buffer, unit: string, limit: nat)
    requires unit != ""
    ensures Flat(Shape(b, unit, limit)) ==
      if Glues(b, unit, limit) then b.attached + [b.pending + unit] else Flat(b) + [unit]
  {
  }

  lemma ShapeSizes(b: Buffer, unit: string, limit: nat)
    requires AllBounded(b.attached, limit) && |b.pending| <= limit && Bounded(unit, limit)
    requires IsFragment(unit) ==> |unit| <= limit
    requires Glues(b, unit, limit) ==> Bounded(b.pending + unit, limit)
    ensures AllBounded(Shape(b, unit, limit).attached, limit) && |Shape(b, unit, limit).pending| <= limit
  {
  }

  /** One unit goes through the buffer: some adjacent pieces are glued, none is split further,
      and a title held back never makes an oversize piece out of two that fit. */
  lemma AttachStep(b: Buffer, units: seq<string>, limit: nat)
    requires units != [] && BufferInv(b, units, limit)
    ensures BufferInv(AttachedNext(b, units[0], limit), units[1..], limit)
    ensures Joined(Flat(AttachedNext(b, units[0], limit)) + units[1..]) == Joined(Flat(b) + units)
  {
    var unit := units[0];
    assert unit in units && (Flat(b) + units)[|Flat(b)|] == unit;
    SmallIsBounded(unit, limit);
    if IsFragment(unit) {
      FragmentsAreShort(unit, limit);
    }
    AttachShape(b, unit, limit);
    ShapeFlat(b, unit, limit);
    if Glues(b, unit, limit) {
      GlueHeld(b, units, limit);
    } else {
      SameLayout(b, Shape(b, unit, limit), units);
    }
    ShapeSizes(b, unit, limit);
  }

  lemma SmallIsBounded(s: string, limit: nat)
    requires Small(s, limit)
    ensures Bounded(s, limit)
  {
    if |s| > limit {
      assert s[0..] == s;
    }
  }

  lemma {:induction false} AttachLaws(b: Buffer, units: seq<string>, limit: nat)
    requires BufferInv(b, units, limit)
    ensures var attached := AttachedFrom(b, units, limit);
      && Tidy(attached) && Joined(attached) == Joined(Flat(b) + units) && AllBounded(attached, limit)
    decreases |units|
  {
    if units == [] {
      assert Flat(b) + units == Flat(b);
    } else {
      AttachStep(b, units, limit);
      AttachLaws(AttachedNext(b, units[0], limit), units[1..], limit);
    }
  }

  lemma UnitsLaws(text: string, limit: nat)
    requires text != ""
    ensures var units := UnitsOf(text, limit);
      Tidy(units) && Joined(units) == text && AllBounded(units, limit)
  {
    var words := Words(text, limit);
    WordsLaws(text, limit);
    assert Flat(Buffer([], "")) + words == words;
    AttachLaws(Buffer([], ""), words, limit);
  }

  // ---------------------------------------------------------------- titles and their followers

  function BufferAfter(b: Buffer, units: seq<string>, limit: nat): Buffer
    decreases |units|
  {
    if units == [] then b else BufferAfter(AttachedNext(b, units[0], limit), units[1..], limit)
  }

  lemma {:induction false} AttachedSplits(b: Buffer, pre: seq<string>, post: seq<string>, limit: nat)
    ensures AttachedFrom(b, pre + post, limit) == AttachedFrom(BufferAfter(b, pre, limit), post, limit)
    decreases |pre|
  {
    if pre == [] {
      assert pre + post == post;
    } else {
      assert (pre + post)[1..] == pre[1..] + post;
      AttachedSplits(AttachedNext(b, pre[0], limit), pre[1..], post, limit);
    }
  }

  lemma HeldAppends(b: Buffer, unit: string, limit: nat)
    ensures var next, alone := Held(b, unit, limit), Held(Buffer([], b.pending), unit, limit);
      next == Buffer(b.attached + alone.attached, alone.pending)
  {
    var flushed := Flushed(Buffer([], b.pending), unit, limit);
    FlushedAppends(b, unit, limit);
    GrownAppends(b.attached, flushed, unit, limit);
  }

  lemma FlushedAppends(b: Buffer, unit: string, limit: nat)
    ensures var alone := Flushed(Buffer([], b.pending), unit, limit);
      Flushed(b, unit, limit) == Buffer(b.attached + alone.attached, alone.pending)
  {
    EmptyVanishes(b.attached, RunPieces(b.pending, limit));
  }

  lemma EmptyVanishes(attached: seq<string>, run: seq<string>)
    ensures attached + ([] + run) == attached + run && attached + [] == attached
  {
  }

  lemma GrownAppends(attached: seq<string>, b: Buffer, unit: string, limit: nat)
    ensures var alone := Grown(b, unit, limit);
      Grown(Buffer(attached + b.attached, b.pending), unit, limit) == Buffer(attached + alone.attached, alone.pending)
  {
    var run := RunPieces(b.pending + unit, limit);
    Moved(attached, b.attached + run, b.attached, run);
  }

  lemma NextAppends(b: Buffer, unit: string, limit: nat)
    ensures var next, alone := AttachedNext(b, unit, limit), AttachedNext(Buffer([], b.pending), unit, limit);
      next == Buffer(b.attached + alone.attached, alone.pending)
  {
    if IsFragment(unit) {
      HeldAppends(b, unit, limit);
    } else {
      EmptyVanishes(b.attached, if b.pending != "" then FollowerPieces(b.pending, unit, limit) else [unit]);
    }
  }

  lemma NothingAppended(b: Buffer, limit: nat)
    ensures AttachedFrom(b, [], limit) == b.attached + AttachedFrom(Buffer([], b.pending), [], limit)
  {
    var last := if b.pending != "" then RunPieces(b.pending, limit) else [];
    assert [] + last == last;
  }

  lemma OneAppended(b: Buffer, units: seq<string>, limit: nat) returns (next: Buffer, alone: Buffer)
    requires units != []
    ensures next == Buffer(b.attached + alone.attached, alone.pending)
    ensures AttachedFrom(b, units, limit) == AttachedFrom(next, units[1..], limit)
    ensures AttachedFrom(Buffer([], b.pending), units, limit) == AttachedFrom(alone, units[1..], limit)
  {
    next, alone := AttachedNext(b, units[0], limit), AttachedNext(Buffer([], b.pending), units[0], limit);
    NextAppends(b, units[0], limit);
  }

  /** What is attached already is never looked at again. */
  lemma {:induction false} AttachedAppends(b: Buffer, units: seq<string>, limit: nat)
    ensures AttachedFrom(b, units, limit) == b.attached + AttachedFrom(Buffer([], b.pending), units, limit)
    decreases |units|
  {
    if units == [] {
      NothingAppended(b, limit);
    } else {
      var next, alone := OneAppended(b, units, limit);
      var later := AttachedFrom(Buffer([], next.pending), units[1..], limit);
      AttachedAppends(next, units[1..], limit);
      AttachedAppends(alone, units[1..], limit);
      Moved(b.attached, alone.attached + later, alone.attached, later);
    }
  }

  lemma {:induction false} NothingPending(b: Buffer, units: seq<string>, limit: nat)
    requires units == [] || !IsFragment(units[|units| - 1])
    requires units == [] ==> b.pending == ""
    ensures BufferAfter(b, units, limit).pending == ""
    decreases |units|
  {
    if |units| == 1 {
      assert BufferAfter(b, units, limit) == AttachedNext(b, units[0], limit);
    } else if |units| > 1 {
      NothingPending(AttachedNext(b, units[0], limit), units[1..], limit);
    }
  }

  predicate AllFragments(units: seq<string>) {
    forall k :: 0 <= k < |units| ==> IsFragment(units[k])
  }

  lemma TitleIsHeld(attached: seq<string>, pending: string, title: string, limit: nat)
    requires IsFragment(title) && |pending| + |title| <= limit
    ensures AttachedNext(Buffer(attached, pending), title, limit) == Buffer(attached, pending + title)
  {
  }

  lemma GlueTitle(pending: string, titles: seq<string>)
    requires titles != []
    ensures pending + titles[0] + Joined(titles[1..]) == pending + Joined(titles)
  {
  }

  /** A run of titles that fits is held back whole. */
  lemma {:induction false} TitlesAreHeld(attached: seq<string>, pending: string, titles: seq<string>, limit: nat)
    requires AllFragments(titles) && |pending| + |Joined(titles)| <= limit
    ensures BufferAfter(Buffer(attached, pending), titles, limit) == Buffer(attached, pending + Joined(titles))
    decreases |titles|
  {
    if titles == [] {
      assert pending + "" == pending;
    } else {
      TitleIsHeld(attached, pending, titles[0], limit);
      TitlesAreHeld(attached, pending + titles[0], titles[1..], limit);
      GlueTitle(pending, titles);
    }
  }

  lemma FollowerArrives(attached: seq<string>, pending: string, follower: string, post: seq<string>, limit: nat)
    requires 0 < |pending| <= limit && !IsFragment(follower)
    ensures AttachedFrom(Buffer(attached, pending), [follower] + post, limit) ==
      attached
      + (if Fits(pending, follower, limit) || |follower| > limit then [pending + follower] else [pending, follower])
      + AttachedFrom(Buffer([], ""), post, limit)
  {
    assert ([follower] + post)[1..] == post;
    var next := AttachedNext(Buffer(attached, pending), follower, limit);
    assert AsPieces(pending) + [follower] == [pending, follower];
    AttachedAppends(next, post, limit);
  }

  /** What the pass is for: a run of titles that fits stays in one unit with its follower whenever the two fit
      together, and goes before it as a unit of its own otherwise; what is around them does not matter. */
  lemma TitlesStayWithFollowers(pre: seq<string>, titles: seq<string>, follower: string, post: seq<string>, limit: nat)
    requires AllFragments(titles) && titles != [] && |Joined(titles)| <= limit && !IsFragment(follower)
    requires pre == [] || !IsFragment(pre[|pre| - 1])
    ensures var start, run := Buffer([], ""), Joined(titles);
      AttachedFrom(start, pre + (titles + ([follower] + post)), limit) ==
        AttachedFrom(start, pre, limit)
        + (if Fits(run, follower, limit) || |follower| > limit then [run + follower] else [run, follower])
        + AttachedFrom(start, post, limit)
  {
    var start, run := Buffer([], ""), Joined(titles);
    var reached := BufferAfter(start, pre, limit);
    AttachedSplits(start, pre, titles + ([follower] + post), limit);
    NothingPending(start, pre, limit);
    AttachedSplits(start, pre, [], limit);
    assert pre + [] == pre && reached.attached + [] == reached.attached;
    AttachedSplits(reached, titles, [follower] + post, limit);
    TitlesAreHeld(reached.attached, "", titles, limit);
    assert "" + run == run && titles[0] != "";
    FollowerArrives(reached.attached, run, follower, post, limit);
  }
}
