/** Where a transcript may be cut: between paragraphs, else between sentences, else between words. */
module Boundaries {
  import opened Options
  import opened Scanner
  import opened Chunks
  import opened ChunkLaws
  import opened PackingTheorems

  // ---------------------------------------------------------------- the cuts of a split

  /** The positions between two pieces, for a split laid out from `at` on. */
  function Cuts(pieces: seq<string>, at: nat): set<nat> {
    if |pieces| <= 1 then {} else {at + |pieces[0]|} + Cuts(pieces[1..], at + |pieces[0]|)
  }

  function Seam(a: seq<string>, b: seq<string>, at: nat): set<nat> {
    if a == [] || b == [] then {} else {at + |Joined(a)|}
  }

  lemma CutsHead(units: seq<string>, at: nat)
    requires units != []
    ensures var rest, next := units[1..], at + |units[0]|;
      Cuts(units, at) == (if rest == [] then {} else {next}) + Cuts(rest, next)
  {
  }

  lemma CutsConcat(a: seq<string>, b: seq<string>, at: nat)
    ensures Cuts(a + b, at) == Cuts(a, at) + Seam(a, b, at) + Cuts(b, at + |Joined(a)|)
  {
    forall x: nat
      ensures x in Cuts(a + b, at) <==> x in Cuts(a, at) || x in Seam(a, b, at) || x in Cuts(b, at + |Joined(a)|)
    {
      CutOfConcat(a, b, at, x);
    }
  }

  lemma {:induction false} CutOfConcat(a: seq<string>, b: seq<string>, at: nat, x: nat)
    ensures x in Cuts(a + b, at) <==> x in Cuts(a, at) || x in Seam(a, b, at) || x in Cuts(b, at + |Joined(a)|)
    decreases |a|
  {
    if a == [] {
      assert a + b == b;
    } else {
      var rest, next := a[1..], at + |a[0]|;
      assert (a + b)[0] == a[0] && (a + b)[1..] == rest + b;
      CutsHead(a, at);
      CutsHead(a + b, at);
      if rest == [] {
        assert rest + b == b;
      } else {
        CutOfConcat(rest, b, next, x);
        SameSeam(a, b, at);
      }
    }
  }

  lemma SameSeam(a: seq<string>, b: seq<string>, at: nat)
    requires |a| > 1
    ensures Seam(a, b, at) == Seam(a[1..], b, at + |a[0]|) && at + |Joined(a)| == at + |a[0]| + |Joined(a[1..])|
  {
  }

  lemma CutsOne(piece: string, at: nat)
    ensures Cuts([piece], at) == {} && Cuts([], at) == {}
  {
  }

  /** Gluing two neighbours takes one cut away and moves none. */
  lemma GluedCuts(pre: seq<string>, x: string, y: string, post: seq<string>, at: nat)
    ensures Cuts(pre + [x + y] + post, at) <= Cuts(pre + [x, y] + post, at)
  {
    var glued := Cuts(pre + [x + y] + post, at);
    forall cut <- glued
      ensures cut in Cuts(pre + [x, y] + post, at)
    {
      GluedCut(pre, x, y, post, at, cut);
    }
  }

  lemma {:induction false} GluedCut(pre: seq<string>, x: string, y: string, post: seq<string>, at: nat, cut: nat)
    requires cut in Cuts(pre + [x + y] + post, at)
    ensures cut in Cuts(pre + [x, y] + post, at)
    decreases |pre|
  {
    if pre == [] {
      GluedFirst(x, y, post, at);
    } else {
      var rest, next := pre[1..], at + |pre[0]|;
      GluedRest(pre, [x + y], post, at);
      GluedRest(pre, [x, y], post, at);
      if cut != next {
        GluedCut(rest, x, y, post, next, cut);
      }
    }
  }

  lemma GluedFirst(x: string, y: string, post: seq<string>, at: nat)
    ensures Cuts([] + [x + y] + post, at) <= Cuts([] + [x, y] + post, at)
  {
    var glued, apart := [] + [x + y] + post, [] + [x, y] + post;
    assert glued[1..] == post && apart[1..] == [y] + post && ([y] + post)[1..] == post;
    CutsHead(glued, at);
    CutsHead(apart, at);
    CutsHead([y] + post, at + |x|);
  }

  lemma GluedRest(pre: seq<string>, mid: seq<string>, post: seq<string>, at: nat)
    requires pre != [] && mid != []
    ensures var next := at + |pre[0]|; Cuts(pre + mid + post, at) == {next} + Cuts(pre[1..] + mid + post, next)
  {
    var all := pre + mid + post;
    assert all[0] == pre[0] && all[1..] == pre[1..] + mid + post;
    CutsHead(all, at);
  }

  lemma {:induction false} OffsetIsCut(pieces: seq<string>, k: nat, at: nat)
    requires 0 < k < |pieces|
    ensures at + Offset(pieces, k) in Cuts(pieces, at)
    decreases k
  {
    var rest := pieces[1..];
    assert pieces[..k][1..] == rest[..k - 1];
    if k > 1 {
      OffsetIsCut(rest, k - 1, at + |pieces[0]|);
    } else {
      assert Joined(rest[..0]) == "";
    }
  }

  predicate NoneEmpty(pieces: seq<string>) {
    forall k :: 0 <= k < |pieces| ==> pieces[k] != ""
  }

  lemma {:induction false} CutsInside(pieces: seq<string>, at: nat, x: nat)
    requires NoneEmpty(pieces) && x in Cuts(pieces, at)
    ensures at < x < at + |Joined(pieces)|
    decreases |pieces|
  {
    var rest := pieces[1..];
    if x != at + |pieces[0]| {
      CutsInside(rest, at + |pieces[0]|, x);
    } else {
      assert rest[0] != "" && Joined(rest) == rest[0] + Joined(rest[1..]);
    }
  }

  // ---------------------------------------------------------------- packing and attaching only glue

  lemma {:induction false} PackedCuts(p: Progress, units: seq<string>, limit: nat)
    requires NoneEmpty(units) && (p.current == "" ==> p.done == [])
    ensures Cuts(PackedFrom(p, units, limit), 0) <= Cuts(Laid(p) + units, 0)
    decreases |units|
  {
    if units == [] {
      assert Laid(p) + units == Laid(p);
    } else {
      var next, rest := Extended(p, units[0], limit), units[1..];
      PackedCuts(next, rest, limit);
      ExtendedCuts(p, units[0], rest, limit);
      assert [units[0]] + rest == units;
    }
  }

  lemma ExtendedCuts(p: Progress, unit: string, rest: seq<string>, limit: nat)
    requires unit != "" && (p.current == "" ==> p.done == [])
    ensures Cuts(Laid(Extended(p, unit, limit)) + rest, 0) <= Cuts(Laid(p) + ([unit] + rest), 0)
  {
    var next := Extended(p, unit, limit);
    if p.current == "" {
      assert p.current + unit == unit;
      assert Laid(next) + rest == Laid(p) + ([unit] + rest);
    } else if Fits(p.current, unit, limit) {
      GluedCuts(p.done, p.current, unit, rest, 0);
      assert Laid(next) == p.done + [p.current + unit];
      assert Laid(p) + ([unit] + rest) == p.done + [p.current, unit] + rest;
    } else {
      assert Laid(next) + rest == Laid(p) + ([unit] + rest);
    }
  }

  lemma {:induction false} AttachedCuts(b: Buffer, units: seq<string>, limit: nat)
    requires BufferInv(b, units, limit)
    ensures Cuts(AttachedFrom(b, units, limit), 0) <= Cuts(Flat(b) + units, 0)
    decreases |units|
  {
    if units == [] {
      assert Flat(b) + units == Flat(b);
    } else {
      AttachStep(b, units, limit);
      AttachedCuts(AttachedNext(b, units[0], limit), units[1..], limit);
      UnitCuts(b, units, limit);
    }
  }

  lemma UnitCuts(b: Buffer, units: seq<string>, limit: nat)
    requires units != [] && BufferInv(b, units, limit)
    ensures Cuts(Flat(AttachedNext(b, units[0], limit)) + units[1..], 0) <= Cuts(Flat(b) + units, 0)
  {
    var unit := units[0];
    assert unit in units && (Flat(b) + units)[|Flat(b)|] == unit;
    if IsFragment(unit) {
      FragmentsAreShort(unit, limit);
    }
    AttachShape(b, unit, limit);
    ShapeFlat(b, unit, limit);
    HeadMoved(Flat(b), units);
    if Glues(b, unit, limit) {
      GluedCuts(b.attached, b.pending, unit, units[1..], 0);
      PairLaid(b, units);
    }
  }

  lemma PairLaid(b: Buffer, units: seq<string>)
    requires units != [] && b.pending != ""
    ensures Flat(b) + units == b.attached + [b.pending, units[0]] + units[1..]
  {
  }

  /** The pieces are cut nowhere but where the words were. */
  lemma PiecesCuts(text: string, limit: nat)
    requires limit >= 1 && |text| > limit
    ensures Cuts(PiecesOf(text, limit), 0) <= Cuts(Words(text, limit), 0)
  {
    var words, units := Words(text, limit), UnitsOf(text, limit);
    WordsLaws(text, limit);
    UnitsLaws(text, limit);
    assert Flat(Buffer([], "")) + words == words && Laid(Progress([], "")) + units == units;
    AttachedCuts(Buffer([], ""), words, limit);
    PackedCuts(Progress([], ""), units, limit);
  }

  // ---------------------------------------------------------------- units and their shards

  /** `unit` is one of the pieces, and starts at `from`. */
  predicate Lies(pieces: seq<string>, at: nat, unit: string, from: nat) {
    pieces != []
    && ((unit == pieces[0] && from == at) || Lies(pieces[1..], at + |pieces[0]|, unit, from))
  }

  lemma {:induction false} LiesConcat(a: seq<string>, b: seq<string>, at: nat, unit: string, from: nat)
    ensures Lies(a + b, at, unit, from) <==> Lies(a, at, unit, from) || Lies(b, at + |Joined(a)|, unit, from)
    decreases |a|
  {
    if a == [] {
      assert a + b == b;
    } else {
      assert (a + b)[0] == a[0] && (a + b)[1..] == a[1..] + b;
      LiesConcat(a[1..], b, at + |a[0]|, unit, from);
    }
  }

  predicate Shows(text: string, from: int, unit: string) {
    0 <= from && from + |unit| <= |text| && text[from..from + |unit|] == unit
  }

  lemma {:induction false} LiesSlice(pieces: seq<string>, at: nat, unit: string, from: nat)
    requires Lies(pieces, at, unit, from)
    ensures Shows(Joined(pieces), from - at, unit)
    decreases |pieces|
  {
    var head, rest := pieces[0], pieces[1..];
    if unit == head && from == at {
      HeadShows(head, Joined(rest));
    } else {
      LiesSlice(rest, at + |head|, unit, from);
      TailShows(head, Joined(rest), unit, from - at - |head|);
    }
  }

  lemma HeadShows(head: string, tail: string)
    ensures Shows(head + tail, 0, head)
  {
  }

  lemma {:induction false} LiesEnds(pieces: seq<string>, at: nat, unit: string, from: nat)
    requires Lies(pieces, at, unit, from)
    ensures from == at || from in Cuts(pieces, at)
    ensures from + |unit| == at + |Joined(pieces)| || from + |unit| in Cuts(pieces, at)
    decreases |pieces|
  {
    var head, rest := pieces[0], pieces[1..];
    CutsHead(pieces, at);
    if !(unit == head && from == at) {
      LiesEnds(rest, at + |head|, unit, from);
    } else if rest == [] {
      assert Joined(rest) == "";
    }
  }

  lemma {:induction false} LiesWhole(pieces: seq<string>, at: nat, unit: string, from: nat, x: nat)
    requires NoneEmpty(pieces) && Lies(pieces, at, unit, from) && x in Cuts(pieces, at)
    ensures x <= from || from + |unit| <= x
    decreases |pieces|
  {
    var head, rest := pieces[0], pieces[1..];
    var next := at + |head|;
    CutsHead(pieces, at);
    if unit == head && from == at {
      if x in Cuts(rest, next) {
        CutsInside(rest, next, x);
      }
    } else {
      LiesSlice(rest, next, unit, from);
      if x in Cuts(rest, next) {
        LiesWhole(rest, next, unit, from, x);
      }
    }
  }

  /** A piece is the text from where it starts, begins and ends at cuts or at the ends, and holds no cut. */
  lemma LiesInText(pieces: seq<string>, at: nat, unit: string, from: nat)
    requires NoneEmpty(pieces) && Lies(pieces, at, unit, from)
    ensures var text, to := Joined(pieces), from + |unit|;
      && at <= from < to <= at + |text| && text[from - at..to - at] == unit
      && (from == at || from in Cuts(pieces, at)) && (to == at + |text| || to in Cuts(pieces, at))
      && forall x :: x in Cuts(pieces, at) ==> x <= from || to <= x
  {
    LiesSlice(pieces, at, unit, from);
    LiesEnds(pieces, at, unit, from);
    LiesNonEmpty(pieces, at, unit, from);
    var cuts := Cuts(pieces, at);
    forall x <- cuts
      ensures x <= from || from + |unit| <= x
    {
      LiesWhole(pieces, at, unit, from, x);
    }
  }

  lemma {:induction false} LiesNonEmpty(pieces: seq<string>, at: nat, unit: string, from: nat)
    requires NoneEmpty(pieces) && Lies(pieces, at, unit, from)
    ensures unit != ""
    decreases |pieces|
  {
    if unit != pieces[0] || from != at {
      LiesNonEmpty(pieces[1..], at + |pieces[0]|, unit, from);
    }
  }

  lemma TailShows(head: string, tail: string, unit: string, from: int)
    requires Shows(tail, from, unit)
    ensures Shows(head + tail, |head| + from, unit)
  {
  }

  /** Every unit replaced by its shards. */
  function Spread(units: seq<string>, shards: string -> seq<string>): seq<string> {
    if units == [] then [] else shards(units[0]) + Spread(units[1..], shards)
  }

  ghost predicate Shatters(units: seq<string>, shards: string -> seq<string>) {
    forall k :: 0 <= k < |units| ==> shards(units[k]) != [] && Joined(shards(units[k])) == units[k]
  }

  lemma {:induction false} SpreadJoins(units: seq<string>, shards: string -> seq<string>)
    requires Shatters(units, shards)
    ensures Spread(units, shards) == [] <==> units == []
    ensures Joined(Spread(units, shards)) == Joined(units)
    decreases |units|
  {
    if units != [] {
      ShattersRest(units, shards);
      SpreadJoins(units[1..], shards);
      JoinedConcat(shards(units[0]), Spread(units[1..], shards));
    }
  }

  lemma ShattersRest(units: seq<string>, shards: string -> seq<string>)
    requires Shatters(units, shards) && units != []
    ensures Shatters(units[1..], shards) && shards(units[0]) != [] && Joined(shards(units[0])) == units[0]
  {
    var rest := units[1..];
    assert forall k :: 0 <= k < |rest| ==> rest[k] == units[k + 1];
  }

  /** A cut of the shards is a cut between the units, or a cut of one unit's shards. */
  lemma {:induction false} SpreadCuts(units: seq<string>, shards: string -> seq<string>, at: nat, x: nat)
    returns (inner: bool, unit: string, from: nat)
    requires Shatters(units, shards) && x in Cuts(Spread(units, shards), at)
    ensures !inner ==> x in Cuts(units, at)
    ensures inner ==> Lies(units, at, unit, from) && x in Cuts(shards(unit), from)
    decreases |units|
  {
    var head, rest := units[0], units[1..];
    var next := at + |head|;
    ShattersRest(units, shards);
    SpreadJoins(rest, shards);
    CutsConcat(shards(head), Spread(rest, shards), at);
    CutsHead(units, at);
    if x in Cuts(shards(head), at) {
      inner, unit, from := true, head, at;
    } else if x in Cuts(Spread(rest, shards), next) {
      inner, unit, from := SpreadCuts(rest, shards, next, x);
    } else {
      inner, unit, from := false, "", 0;
    }
  }

  /** A shard is a shard of some unit. */
  lemma {:induction false} SpreadLies(units: seq<string>, shards: string -> seq<string>, at: nat,
                                      unit: string, from: nat)
    returns (source: string, start: nat)
    requires Shatters(units, shards) && Lies(Spread(units, shards), at, unit, from)
    ensures Lies(units, at, source, start) && Lies(shards(source), start, unit, from)
    decreases |units|
  {
    var head, rest := units[0], units[1..];
    ShattersRest(units, shards);
    LiesConcat(shards(head), Spread(rest, shards), at, unit, from);
    if Lies(shards(head), at, unit, from) {
      source, start := head, at;
    } else {
      source, start := SpreadLies(rest, shards, at + |head|, unit, from);
    }
  }

  function Sharder(limit: nat, splitter: Splitter): string -> seq<string> {
    unit => Shards(unit, limit, splitter)
  }

  lemma {:induction false} BrokenIsSpread(units: seq<string>, limit: nat, splitter: Splitter)
    requires NoneEmpty(units)
    ensures Broken(units, limit, splitter) == Spread(units, Sharder(limit, splitter))
    ensures Shatters(units, Sharder(limit, splitter))
    decreases |units|
  {
    if units != [] {
      var rest := units[1..];
      assert forall k :: 0 <= k < |rest| ==> rest[k] == units[k + 1];
      BrokenIsSpread(rest, limit, splitter);
      ShardsLaws(units[0], limit, splitter);
      forall k | 0 <= k < |units|
        ensures var shards := Sharder(limit, splitter)(units[k]); shards != [] && Joined(shards) == units[k]
      {
        ShardsLaws(units[k], limit, splitter);
      }
    }
  }

  lemma ShardsOf(unit: string, limit: nat, splitter: Splitter)
    ensures Sharder(limit, splitter)(unit) == if |unit| <= limit then [unit] else SplitBy(splitter, unit, limit)
  {
  }

  /** A cut of the broken units is a cut between the units, or inside a unit that was too long. */
  lemma BrokenCuts(units: seq<string>, limit: nat, splitter: Splitter, x: nat)
    returns (inner: bool, unit: string, from: nat)
    requires NoneEmpty(units) && x in Cuts(Broken(units, limit, splitter), 0)
    ensures !inner ==> x in Cuts(units, 0)
    ensures inner ==>
      Lies(units, 0, unit, from) && |unit| > limit && x in Cuts(SplitBy(splitter, unit, limit), from)
  {
    BrokenIsSpread(units, limit, splitter);
    inner, unit, from := SpreadCuts(units, Sharder(limit, splitter), 0, x);
    ShardsOf(unit, limit, splitter);
    CutsOne(unit, from);
  }

  /** A shard that is too long is a shard of a unit that was too long. */
  lemma BrokenLies(units: seq<string>, limit: nat, splitter: Splitter, unit: string, from: nat)
    returns (source: string, start: nat)
    requires NoneEmpty(units) && Lies(Broken(units, limit, splitter), 0, unit, from) && |unit| > limit
    ensures Lies(units, 0, source, start) && |source| > limit
    ensures Lies(SplitBy(splitter, source, limit), start, unit, from)
  {
    BrokenIsSpread(units, limit, splitter);
    source, start := SpreadLies(units, Sharder(limit, splitter), 0, unit, from);
    ShardsOf(source, limit, splitter);
    LiesAlone(source, start, unit, from);
  }

  lemma LiesAlone(piece: string, at: nat, unit: string, from: nat)
    ensures Lies([piece], at, unit, from) ==> unit == piece && from == at
  {
    assert [piece][1..] == [] && !Lies([], at + |piece|, unit, from);
  }

  // ---------------------------------------------------------------- ends, in characters

  /** Behind two or more newlines, and all of them. */
  predicate ParagraphEnd(text: string, x: nat) {
    2 <= x <= |text| && text[x - 1] == '\n' && text[x - 2] == '\n' && (x == |text| || text[x] != '\n')
  }

  /** A terminator at `t`, closing quotes and brackets up to `c`, and all the whitespace up to `x`. */
  predicate SentenceTail(text: string, t: nat, c: nat, x: nat) {
    && t < c < x <= |text| && IsTerminator(text[t])
    && (forall j :: t < j < c ==> InClass(Closer, text[j]))
    && (forall j :: c <= j < x ==> IsSpace(text[j]))
    && (x == |text| || !IsSpace(text[x]))
  }

  ghost predicate SentenceEnd(text: string, x: nat) {
    exists t: nat, c: nat :: SentenceTail(text, t, c, x)
  }

  ghost predicate EndsAt(p: Pattern, text: string, x: nat) {
    match p
    case Paragraph => ParagraphEnd(text, x)
    case Sentence => SentenceEnd(text, x)
    case _ => false
  }

  lemma {:induction false} SkipTo(k: Class, text: string, i: nat, end: nat)
    requires i <= end <= |text| && forall j :: i <= j < end ==> InClass(k, text[j])
    requires end == |text| || !InClass(k, text[end])
    ensures Skip(k, text, i) == end
    decreases end - i
  {
    if i < end {
      SkipTo(k, text, i + 1, end);
    }
  }

  lemma {:induction false} SkipStops(k: Class, text: string, i: nat)
    requires i <= |text|
    ensures var end := Skip(k, text, i); end == |text| || !InClass(k, text[end])
    decreases |text| - i
  {
    if i < |text| && InClass(k, text[i]) {
      SkipStops(k, text, i + 1);
    }
  }

  lemma ClassesDiffer(c: char)
    ensures IsSpace(c) ==> !InClass(Closer, c) && !IsTerminator(c)
    ensures IsTerminator(c) ==> !InClass(Closer, c)
  {
  }

  /** A match ends at an end, and there is no other end inside it. */
  lemma ParagraphMatchIsEnd(text: string, s: nat, e: nat)
    requires s < |text| && MatchEnd(Paragraph, text, s) == Some(e)
    ensures ParagraphEnd(text, e) && forall x :: s < x < e ==> !ParagraphEnd(text, x)
  {
    SkipIsRun(Newline, text, s);
    SkipStops(Newline, text, s);
  }

  lemma SentenceMatchIsTail(text: string, s: nat, e: nat) returns (c: nat)
    requires s < |text| && MatchEnd(Sentence, text, s) == Some(e)
    ensures SentenceTail(text, s, c, e)
  {
    c := Skip(Closer, text, s + 1);
    SkipIsRun(Closer, text, s + 1);
    SkipIsRun(Space, text, c);
    SkipStops(Space, text, c);
  }

  lemma NoEndInsideTail(text: string, s: nat, c: nat, e: nat, x: nat)
    requires SentenceTail(text, s, c, e) && s < x < e
    ensures !SentenceEnd(text, x)
  {
    ClassesDiffer(text[x - 1]);
    forall t: nat, d: nat
      ensures !SentenceTail(text, t, d, x)
    {
      TailsDoNotNest(text, s, c, e, x, t, d);
    }
  }

  lemma TailsDoNotNest(text: string, s: nat, c: nat, e: nat, x: nat, t: nat, d: nat)
    requires SentenceTail(text, s, c, e) && s < x < e
    ensures !SentenceTail(text, t, d, x)
  {
    ClassesDiffer(text[x - 1]);
  }

  lemma MatchIsEnd(p: Pattern, text: string, s: nat, e: nat, x: nat)
    requires p in {Paragraph, Sentence} && s < |text| && MatchEnd(p, text, s) == Some(e)
    ensures EndsAt(p, text, e) && (s < x < e ==> !EndsAt(p, text, x))
  {
    if p == Paragraph {
      ParagraphMatchIsEnd(text, s, e);
    } else {
      var c := SentenceMatchIsTail(text, s, e);
      if s < x < e {
        NoEndInsideTail(text, s, c, e, x);
      }
    }
  }

  /** An end behind a start or another end is the end of a match that starts no earlier than that. */
  lemma EndHasMatch(p: Pattern, text: string, i: nat, x: nat) returns (s: nat)
    requires p in {Paragraph, Sentence} && i < x && EndsAt(p, text, x) && (i == 0 || EndsAt(p, text, i))
    ensures i <= s < x <= |text| && MatchEnd(p, text, s) == Some(x)
  {
    if p == Paragraph {
      s := x - 2;
      ParagraphHasMatch(text, x);
    } else {
      var c: nat;
      s, c :| SentenceTail(text, s, c, x);
      SentenceHasMatch(text, s, c, x);
      if i > 0 {
        TailStartsBehind(text, i, s, c, x);
      }
    }
  }

  lemma ParagraphHasMatch(text: string, x: nat)
    requires ParagraphEnd(text, x)
    ensures MatchEnd(Paragraph, text, x - 2) == Some(x)
  {
    SkipTo(Newline, text, x - 2, x);
  }

  lemma SentenceHasMatch(text: string, s: nat, c: nat, x: nat)
    requires SentenceTail(text, s, c, x)
    ensures MatchEnd(Sentence, text, s) == Some(x)
  {
    TailIsFound(text, s, c, x);
  }

  lemma TailIsFound(text: string, s: nat, c: nat, x: nat)
    requires SentenceTail(text, s, c, x)
    ensures TailEnd(text, s + 1) == Some(x)
  {
    ClosersEnd(text, s, c, x);
    SkipTo(Space, text, c, x);
  }

  lemma ClosersEnd(text: string, s: nat, c: nat, x: nat)
    requires SentenceTail(text, s, c, x)
    ensures Skip(Closer, text, s + 1) == c
  {
    ClassesDiffer(text[c]);
    SkipTo(Closer, text, s + 1, c);
  }

  lemma TailStartsBehind(text: string, i: nat, s: nat, c: nat, x: nat)
    requires 0 < i < x && SentenceEnd(text, i) && SentenceTail(text, s, c, x)
    ensures i <= s
  {
    var t: nat, d: nat :| SentenceTail(text, t, d, i);
    assert IsSpace(text[i - 1]) && !IsSpace(text[i]);
    ClassesDiffer(text[i - 1]);
  }

  /** From a start or an end, `StopAfter` finds the next end, or there is none. */
  lemma StopIsNextEnd(p: Pattern, text: string, i: nat, x: nat)
    requires p in {Paragraph, Sentence} && i <= |text| && (i == 0 || EndsAt(p, text, i))
    ensures var stop := StopAfter(p, text, i);
      && (stop.Some? ==> EndsAt(p, text, stop.value))
      && (i < x && (stop.Some? ==> x < stop.value) ==> !EndsAt(p, text, x))
  {
    var next, stop := NextMatch(p, text, i), StopAfter(p, text, i);
    if next.Some? {
      NextMatchMatches(p, text, i);
      MatchIsEnd(p, text, next.value.start, next.value.end, x);
    }
    if i < x && (stop.Some? ==> x < stop.value) && EndsAt(p, text, x) {
      var s := EndHasMatch(p, text, i, x);
      if next.None? || s < next.value.start {
        NextMatchIsFirst(p, text, i, s);
      }
      assert false;
    }
  }

  // ---------------------------------------------------------------- parts

  /** A stretch between two neighbouring ends, or an end of the text. */
  ghost predicate IsPart(p: Pattern, text: string, a: nat, b: nat) {
    && a < b <= |text| && (a == 0 || EndsAt(p, text, a)) && (b == |text| || EndsAt(p, text, b))
    && forall x: nat :: a < x < b ==> !EndsAt(p, text, x)
  }

  ghost predicate IsParagraph(text: string, a: nat, b: nat) {
    IsPart(Paragraph, text, a, b)
  }

  ghost predicate IsSentence(text: string, a: nat, b: nat) {
    IsPart(Sentence, text, a, b)
  }

  lemma PartIsUnique(p: Pattern, text: string, a: nat, b: nat, c: nat, d: nat, x: nat)
    requires IsPart(p, text, a, b) && IsPart(p, text, c, d) && a < x < b && c < x < d
    ensures a == c && b == d
  {
  }

  /** Cutting by stops that find the next end cuts exactly at the ends. */
  lemma {:induction false} CutByCuts(stop: nat -> Option<nat>, ends: nat -> bool, text: string, start: nat)
    requires start <= |text| && (start == 0 || ends(start))
    requires forall i: nat :: i <= |text| && (i == 0 || ends(i)) ==> NextEnd(stop, ends, text, i)
    ensures forall x: nat :: x in Cuts(CutBy(stop, text, start), start) <==> start < x < |text| && ends(x)
    decreases |text| - start
  {
    assert NextEnd(stop, ends, text, start);
    var end := stop(start);
    if end.Some? {
      CutByCuts(stop, ends, text, end.value);
      var head, tail := text[start..end.value], CutBy(stop, text, end.value);
      JoinedOne(head);
      CutsConcat([head], tail, start);
      if end.value < |text| {
        CutByStarts(stop, text, end.value);
      }
    } else {
      CutsOne(text[start..], start);
    }
  }

  lemma CutByStarts(stop: nat -> Option<nat>, text: string, start: nat)
    requires start < |text|
    ensures CutBy(stop, text, start) != []
  {
  }

  ghost predicate NextEnd(stop: nat -> Option<nat>, ends: nat -> bool, text: string, i: nat) {
    && (stop(i).Some? ==> i < stop(i).value <= |text| && ends(stop(i).value))
    && (forall x: nat :: i < x < (if stop(i).Some? then stop(i).value else |text|) ==> !ends(x))
  }

  lemma CutAfterCuts(p: Pattern, text: string, x: nat)
    requires p in {Paragraph, Sentence} && text != ""
    ensures x in Cuts(CutAfter(p, text), 0) <==> 0 < x < |text| && EndsAt(p, text, x)
  {
    var ends := (e: nat) => EndsAt(p, text, e);
    var stop := Stopper(p, text);
    forall i: nat | i <= |text| && (i == 0 || ends(i))
      ensures NextEnd(stop, ends, text, i)
    {
      forall e: nat | i < e < (if stop(i).Some? then stop(i).value else |text|)
        ensures !ends(e)
      {
        StopIsNextEnd(p, text, i, e);
      }
      StopIsNextEnd(p, text, i, 0);
    }
    CutByCuts(stop, ends, text, 0);
    CutByStarts(stop, text, 0);
  }

  /** The units of `CutAfter` are the parts of the text. */
  lemma CutAfterParts(p: Pattern, text: string, unit: string, from: nat)
    requires p in {Paragraph, Sentence} && text != "" && Lies(CutAfter(p, text), 0, unit, from)
    ensures from + |unit| <= |text| && text[from..from + |unit|] == unit && IsPart(p, text, from, from + |unit|)
  {
    var pieces, to := CutAfter(p, text), from + |unit|;
    CutAfterLaws(p, text);
    LiesInText(pieces, 0, unit, from);
    CutAfterCuts(p, text, from);
    CutAfterCuts(p, text, to);
    forall x: nat | from < x < to
      ensures !EndsAt(p, text, x)
    {
      CutAfterCuts(p, text, x);
    }
  }

  // ---------------------------------------------------------------- words

  /** Whitespace behind a word that together with it is longer than the limit. */
  predicate TooMuchSpace(text: string, u: nat, x: nat, v: nat, limit: nat) {
    && u < x < v <= |text| && v - u > limit
    && (forall j :: u <= j < x ==> !IsSpace(text[j])) && (u == 0 || IsSpace(text[u - 1]))
    && (forall j :: x <= j < v ==> IsSpace(text[j])) && (v == |text| || !IsSpace(text[v]))
  }

  /** Behind whitespace; or before it, where it does not fit the word it follows. */
  ghost predicate WordEnd(text: string, x: nat, limit: nat) {
    0 < x < |text| && (IsSpace(text[x - 1]) || exists u: nat, v: nat :: TooMuchSpace(text, u, x, v, limit))
  }

  ghost predicate AllWordEnds(pieces: seq<string>, text: string, limit: nat) {
    forall x <- Cuts(pieces, 0) :: WordEnd(text, x, limit)
  }

  lemma AppendedCuts(pieces: seq<string>, piece: string)
    ensures Cuts(pieces + [piece], 0) == Cuts(pieces, 0) + (if pieces == [] then {} else {|Joined(pieces)|})
  {
    CutsConcat(pieces, [piece], 0);
    CutsOne(piece, |Joined(pieces)|);
  }

  lemma LastGrows(pieces: seq<string>, piece: string)
    requires pieces != []
    ensures Cuts(pieces[|pieces| - 1 := piece], 0) == Cuts(pieces, 0)
  {
    var front, last := pieces[..|pieces| - 1], pieces[|pieces| - 1];
    assert pieces == front + [last] && pieces[|pieces| - 1 := piece] == front + [piece];
    AppendedCuts(front, last);
    AppendedCuts(front, piece);
  }

  lemma FirstShows(pieces: seq<string>)
    requires Tidy(pieces)
    ensures pieces != [] ==> Joined(pieces) != ""
  {
    if pieces != [] {
      assert pieces[0] != "" && Joined(pieces) == pieces[0] + Joined(pieces[1..]);
    }
  }

  /** The word before the next whitespace, if there is one, starts behind whitespace. */
  lemma WordCut(pieces: seq<string>, text: string, start: nat, to: nat, limit: nat)
    requires start <= to <= |text| && WordsInv(pieces, text, start, limit) && AllWordEnds(pieces, text, limit)
    ensures AllWordEnds(pieces + AsPieces(text[start..to]), text, limit)
  {
    var word := text[start..to];
    if word != "" {
      AppendedCuts(pieces, word);
      FirstShows(pieces);
    } else {
      assert pieces + [] == pieces;
    }
  }

  lemma SpaceCut(pieces: seq<string>, text: string, start: nat, m: Span, limit: nat)
    requires start <= m.start < m.end <= |text| && WordsInv(pieces, text, start, limit)
    requires AllWordEnds(pieces + AsPieces(text[start..m.start]), text, limit)
    requires forall j :: start <= j < m.start ==> !IsSpace(text[j])
    requires forall j :: m.start <= j < m.end ==> IsSpace(text[j])
    requires m.end == |text| || !IsSpace(text[m.end])
    ensures AllWordEnds(WithSpace(pieces + AsPieces(text[start..m.start]), text[m.start..m.end], limit), text, limit)
  {
    var word, space := text[start..m.start], text[m.start..m.end];
    var grown := pieces + AsPieces(word);
    WordStep(pieces, text, start, m.start, limit);
    if grown != [] && Fits(grown[|grown| - 1], space, limit) {
      LastGrows(grown, grown[|grown| - 1] + space);
    } else {
      AppendedCuts(grown, space);
      if grown != [] {
        SpaceStandsAlone(pieces, text, start, m, limit);
      }
    }
  }

  lemma SpaceStandsAlone(pieces: seq<string>, text: string, start: nat, m: Span, limit: nat)
    requires start <= m.start < m.end <= |text| && WordsInv(pieces, text, start, limit)
    requires forall j :: start <= j < m.start ==> !IsSpace(text[j])
    requires forall j :: m.start <= j < m.end ==> IsSpace(text[j])
    requires m.end == |text| || !IsSpace(text[m.end])
    requires var grown := pieces + AsPieces(text[start..m.start]);
      grown != [] && !Fits(grown[|grown| - 1], text[m.start..m.end], limit)
    ensures WordEnd(text, m.start, limit)
  {
    if start == m.start {
      assert pieces + [] == pieces && pieces[0] != "" && Joined(pieces) == pieces[0] + Joined(pieces[1..]);
    } else {
      assert TooMuchSpace(text, start, m.start, m.end, limit);
    }
  }

  lemma {:induction false} WordsFromCuts(pieces: seq<string>, text: string, start: nat, limit: nat)
    requires start <= |text| && WordsInv(pieces, text, start, limit) && AllWordEnds(pieces, text, limit)
    ensures AllWordEnds(WordsFrom(pieces, text, start, limit), text, limit)
    decreases |text| - start
  {
    WhitespaceSplitsTokens(text, start);
    WordsStep(pieces, text, start, limit);
    var next := NextMatch(Whitespace, text, start);
    if next.None? {
      WordCut(pieces, text, start, |text|, limit);
      assert text[start..|text|] == text[start..];
    } else {
      var m := next.value;
      WhitespaceIsMaximal(text, start, m);
      WordCut(pieces, text, start, m.start, limit);
      SpaceCut(pieces, text, start, m, limit);
      WordRound(pieces, text, start, m, limit);
      var grown := WithSpace(pieces + AsPieces(text[start..m.start]), text[m.start..m.end], limit);
      WordsFromCuts(grown, text, m.end, limit);
    }
  }

  lemma WhitespaceIsMaximal(text: string, i: nat, m: Span)
    requires i <= |text| && NextMatch(Whitespace, text, i) == Some(m)
    ensures m.end == |text| || !IsSpace(text[m.end])
  {
    NextMatchMatches(Whitespace, text, i);
    SkipStops(Space, text, m.start);
  }

  lemma WordsOfCuts(text: string, limit: nat, x: nat)
    requires x in Cuts(WordsOf(text, limit), 0)
    ensures WordEnd(text, x, limit)
  {
    assert Joined([]) == "" && text[..0] == "";
    WordsFromCuts([], text, 0, limit);
    CutsOne(text, 0);
  }

  /** Cuts move with the start. */
  lemma {:induction false} CutsShift(pieces: seq<string>, at: nat, x: nat)
    ensures at + x in Cuts(pieces, at) <==> x in Cuts(pieces, 0)
    decreases |pieces|
  {
    if |pieces| > 1 {
      var head := |pieces[0]|;
      if x >= head {
        CutsShift(pieces[1..], at + head, x - head);
        CutsShift(pieces[1..], head, x - head);
      } else {
        CutsBehind(pieces[1..], at + head, at + x);
        CutsBehind(pieces[1..], head, x);
      }
    }
  }

  lemma {:induction false} CutsBehind(pieces: seq<string>, at: nat, x: nat)
    requires x < at
    ensures x !in Cuts(pieces, at)
    decreases |pieces|
  {
    if |pieces| > 1 {
      CutsBehind(pieces[1..], at + |pieces[0]|, x);
    }
  }

  lemma {:induction false} LiesShift(pieces: seq<string>, at: nat, unit: string, from: nat)
    requires Lies(pieces, at, unit, from)
    ensures at <= from && Lies(pieces, 0, unit, from - at)
    decreases |pieces|
  {
    if !(unit == pieces[0] && from == at) {
      LiesShift(pieces[1..], at + |pieces[0]|, unit, from);
      LiesUnshift(pieces[1..], |pieces[0]|, unit, from - at - |pieces[0]|);
    }
  }

  lemma {:induction false} LiesUnshift(pieces: seq<string>, at: nat, unit: string, from: nat)
    requires Lies(pieces, 0, unit, from)
    ensures Lies(pieces, at, unit, at + from)
    decreases |pieces|
  {
    if !(unit == pieces[0] && from == 0) {
      LiesShift(pieces[1..], |pieces[0]|, unit, from);
      LiesUnshift(pieces[1..], at + |pieces[0]|, unit, from - |pieces[0]|);
    }
  }

  // ---------------------------------------------------------------- where a transcript is cut

  /** Inside a paragraph: behind a sentence, or at a word of a sentence that is too long. */
  ghost predicate NaturalInside(paragraph: string, limit: nat, x: nat) {
    || SentenceEnd(paragraph, x)
    || exists u: nat, v: nat ::
         IsSentence(paragraph, u, v) && u < x < v && v - u > limit && WordEnd(paragraph[u..v], x - u, limit)
  }

  /** Behind a paragraph, or inside one that is too long. */
  ghost predicate NaturalCut(text: string, limit: nat, x: nat) {
    || ParagraphEnd(text, x)
    || exists a: nat, b: nat ::
         IsParagraph(text, a, b) && a < x < b && b - a > limit && NaturalInside(text[a..b], limit, x - a)
  }

  lemma CutAfterNonEmpty(p: Pattern, text: string)
    requires text != ""
    ensures NoneEmpty(CutAfter(p, text))
  {
    CutAfterLaws(p, text);
  }

  /** A sentence that is too long is one of a paragraph that is too long. */
  lemma LongParagraph(text: string, limit: nat, sentence: string, from: nat) returns (paragraph: string, a: nat)
    requires text != "" && Lies(Broken(CutAfter(Paragraph, text), limit, AfterSentences), 0, sentence, from)
    requires |sentence| > limit
    ensures Lies(CutAfter(Paragraph, text), 0, paragraph, a) && Lies(CutAfter(Sentence, paragraph), a, sentence, from)
  {
    CutAfterNonEmpty(Paragraph, text);
    paragraph, a := BrokenLies(CutAfter(Paragraph, text), limit, AfterSentences, sentence, from);
  }

  /** ... so its words are cut naturally. */
  lemma LongSentence(text: string, limit: nat, paragraph: string, a: nat, sentence: string, from: nat, x: nat)
    requires text != "" && Lies(CutAfter(Paragraph, text), 0, paragraph, a)
    requires Lies(CutAfter(Sentence, paragraph), a, sentence, from) && |sentence| > limit
    requires from < x < from + |sentence| && WordEnd(sentence, x - from, limit)
    ensures NaturalCut(text, limit, x)
  {
    CutAfterParts(Paragraph, text, paragraph, a);
    LiesShift(CutAfter(Sentence, paragraph), a, sentence, from);
    var u := from - a;
    CutAfterParts(Sentence, paragraph, sentence, u);
    InsideIsNatural(text, limit, a, paragraph, u, sentence, x);
  }

  lemma InsideIsNatural(text: string, limit: nat, a: nat, paragraph: string, u: nat, sentence: string, x: nat)
    requires a + |paragraph| <= |text| && text[a..a + |paragraph|] == paragraph
    requires IsParagraph(text, a, a + |paragraph|)
    requires u + |sentence| <= |paragraph| && paragraph[u..u + |sentence|] == sentence
    requires IsSentence(paragraph, u, u + |sentence|) && |sentence| > limit
    requires a + u < x < a + u + |sentence| && WordEnd(sentence, x - a - u, limit)
    ensures NaturalCut(text, limit, x)
  {
    assert NaturalInside(paragraph, limit, x - a);
    assert NaturalInside(text[a..a + |paragraph|], limit, x - a);
  }

  /** The words of a sentence that is too long. */
  lemma SentenceWords(text: string, limit: nat, sentence: string, from: nat, x: nat)
    requires text != "" && Lies(Broken(CutAfter(Paragraph, text), limit, AfterSentences), 0, sentence, from)
    requires |sentence| > limit && x in Cuts(SplitBy(AtWords, sentence, limit), from)
    ensures NaturalCut(text, limit, x)
  {
    var paragraph, a := LongParagraph(text, limit, sentence, from);
    WordsInside(sentence, limit, from, x);
    LongSentence(text, limit, paragraph, a, sentence, from, x);
  }

  lemma WordsInside(sentence: string, limit: nat, from: nat, x: nat)
    requires sentence != "" && x in Cuts(WordsOf(sentence, limit), from)
    ensures from < x < from + |sentence| && WordEnd(sentence, x - from, limit)
  {
    WordsOfLaws(sentence, limit);
    CutsInside(WordsOf(sentence, limit), from, x);
    CutsShift(WordsOf(sentence, limit), from, x - from);
    WordsOfCuts(sentence, limit, x - from);
  }

  lemma ParagraphSentences(text: string, limit: nat, paragraph: string, a: nat, x: nat)
    requires text != "" && Lies(CutAfter(Paragraph, text), 0, paragraph, a) && |paragraph| > limit
    requires x in Cuts(SplitBy(AfterSentences, paragraph, limit), a)
    ensures NaturalCut(text, limit, x)
  {
    SentencesInside(paragraph, a, x);
    LongParagraphCut(text, limit, paragraph, a, x);
  }

  lemma SentencesInside(paragraph: string, a: nat, x: nat)
    requires paragraph != "" && x in Cuts(CutAfter(Sentence, paragraph), a)
    ensures a < x < a + |paragraph| && SentenceEnd(paragraph, x - a)
  {
    CutAfterNonEmpty(Sentence, paragraph);
    CutAfterLaws(Sentence, paragraph);
    CutsInside(CutAfter(Sentence, paragraph), a, x);
    CutsShift(CutAfter(Sentence, paragraph), a, x - a);
    CutAfterCuts(Sentence, paragraph, x - a);
  }

  lemma LongParagraphCut(text: string, limit: nat, paragraph: string, a: nat, x: nat)
    requires text != "" && Lies(CutAfter(Paragraph, text), 0, paragraph, a) && |paragraph| > limit
    requires a < x < a + |paragraph| && SentenceEnd(paragraph, x - a)
    ensures NaturalCut(text, limit, x)
  {
    CutAfterParts(Paragraph, text, paragraph, a);
    assert NaturalInside(text[a..a + |paragraph|], limit, x - a);
  }

  lemma WordsAreNatural(text: string, limit: nat, x: nat)
    requires text != "" && x in Cuts(Words(text, limit), 0)
    ensures NaturalCut(text, limit, x)
  {
    var paragraphs := CutAfter(Paragraph, text);
    var sentences := Broken(paragraphs, limit, AfterSentences);
    CutAfterLaws(Paragraph, text);
    BrokenLaws(paragraphs, limit, AfterSentences);
    var inner, unit, from := BrokenCuts(sentences, limit, AtWords, x);
    if inner {
      SentenceWords(text, limit, unit, from, x);
    } else {
      inner, unit, from := BrokenCuts(paragraphs, limit, AfterSentences, x);
      if inner {
        ParagraphSentences(text, limit, unit, from, x);
      } else {
        CutAfterCuts(Paragraph, text, x);
      }
    }
  }

  /** Every boundary between two pieces is natural: it follows a paragraph; or, in a paragraph longer than the limit,
      a sentence; or, in a sentence longer than the limit, whitespace, or a word with which the whitespace behind
      it is longer than the limit. */
  lemma BoundariesAreNatural(text: string, limit: nat, k: nat)
    requires limit >= 1 && 0 < k < |PiecesOf(text, limit)|
    ensures NaturalCut(text, limit, Offset(PiecesOf(text, limit), k))
  {
    var pieces := PiecesOf(text, limit);
    BoundaryIsCut(pieces, k);
    ManyMeansLong(text, limit);
    CutsAreNatural(text, limit, pieces, Offset(pieces, k));
  }

  lemma BoundaryIsCut(pieces: seq<string>, k: nat)
    requires 0 < k < |pieces|
    ensures Offset(pieces, k) in Cuts(pieces, 0)
  {
    OffsetIsCut(pieces, k, 0);
  }

  lemma ManyMeansLong(text: string, limit: nat)
    requires |PiecesOf(text, limit)| > 1
    ensures |text| > limit
  {
  }

  lemma CutsAreNatural(text: string, limit: nat, pieces: seq<string>, x: nat)
    requires limit >= 1 && |text| > limit && pieces == PiecesOf(text, limit) && x in Cuts(pieces, 0)
    ensures NaturalCut(text, limit, x)
  {
    PiecesCuts(text, limit);
    WordsAreNatural(text, limit, x);
  }

  /** What a natural cut inside a given paragraph says about it. */
  lemma NaturalInParagraph(text: string, limit: nat, a: nat, b: nat, x: nat)
    requires IsParagraph(text, a, b) && a < x < b && NaturalCut(text, limit, x)
    ensures b - a > limit && NaturalInside(text[a..b], limit, x - a)
  {
    assert !EndsAt(Paragraph, text, x);
    var c: nat, d: nat :|
      IsParagraph(text, c, d) && c < x < d && d - c > limit && NaturalInside(text[c..d], limit, x - c);
    PartIsUnique(Paragraph, text, a, b, c, d, x);
  }

  lemma NaturalInSentence(paragraph: string, limit: nat, u: nat, v: nat, x: nat)
    requires IsSentence(paragraph, u, v) && u < x < v && NaturalInside(paragraph, limit, x)
    ensures v - u > limit && WordEnd(paragraph[u..v], x - u, limit)
  {
    assert !EndsAt(Sentence, paragraph, x);
    var w: nat, y: nat :|
      IsSentence(paragraph, w, y) && w < x < y && y - w > limit && WordEnd(paragraph[w..y], x - w, limit);
    PartIsUnique(Sentence, paragraph, u, v, w, y, x);
  }

  /** A stretch without a natural cut inside lies in one piece. */
  lemma StretchStaysWhole(text: string, limit: nat, from: nat, to: nat) returns (k: nat)
    requires limit >= 1 && from < to <= |text|
    requires forall x: nat :: from < x < to ==> !NaturalCut(text, limit, x)
    ensures k < |PiecesOf(text, limit)|
    ensures Offset(PiecesOf(text, limit), k) <= from && to <= Offset(PiecesOf(text, limit), k + 1)
  {
    var pieces := PiecesOf(text, limit);
    ExactReassembly(text, limit);
    k := PieceAt(pieces, from);
    if k + 1 < |pieces| {
      BoundariesAreNatural(text, limit, k + 1);
    } else {
      assert pieces[..k + 1] == pieces;
    }
  }

  /** Paragraphs are preferred to sentences: one that fits is never cut. */
  lemma ParagraphsStayWhole(text: string, limit: nat, a: nat, b: nat) returns (k: nat)
    requires limit >= 1 && IsParagraph(text, a, b) && b - a <= limit
    ensures k < |PiecesOf(text, limit)|
    ensures Offset(PiecesOf(text, limit), k) <= a && b <= Offset(PiecesOf(text, limit), k + 1)
  {
    ParagraphHasNoCut(text, limit, a, b);
    k := StretchStaysWhole(text, limit, a, b);
  }

  lemma ParagraphHasNoCut(text: string, limit: nat, a: nat, b: nat)
    requires IsParagraph(text, a, b) && b - a <= limit
    ensures forall x: nat :: a < x < b ==> !NaturalCut(text, limit, x)
  {
    forall x: nat | a < x < b
      ensures !NaturalCut(text, limit, x)
    {
      if NaturalCut(text, limit, x) {
        NaturalInParagraph(text, limit, a, b, x);
      }
    }
  }

  /** Sentences are preferred to words: one that fits is never cut, in whatever paragraph. */
  lemma SentencesStayWhole(text: string, limit: nat, a: nat, b: nat, u: nat, v: nat) returns (k: nat)
    requires limit >= 1 && IsParagraph(text, a, b) && IsSentence(text[a..b], u, v) && v - u <= limit
    ensures k < |PiecesOf(text, limit)|
    ensures Offset(PiecesOf(text, limit), k) <= a + u && a + v <= Offset(PiecesOf(text, limit), k + 1)
  {
    SentenceHasNoCut(text, limit, a, b, u, v);
    k := StretchStaysWhole(text, limit, a + u, a + v);
  }

  lemma SentenceHasNoCut(text: string, limit: nat, a: nat, b: nat, u: nat, v: nat)
    requires IsParagraph(text, a, b) && IsSentence(text[a..b], u, v) && v - u <= limit
    ensures a + v <= |text| && forall x: nat :: a + u < x < a + v ==> !NaturalCut(text, limit, x)
  {
    forall x: nat | a + u < x < a + v
      ensures !NaturalCut(text, limit, x)
    {
      NoCutInSentence(text, limit, a, b, u, v, x);
    }
  }

  lemma NoCutInSentence(text: string, limit: nat, a: nat, b: nat, u: nat, v: nat, x: nat)
    requires IsParagraph(text, a, b) && IsSentence(text[a..b], u, v) && v - u <= limit && a + u < x < a + v
    ensures !NaturalCut(text, limit, x)
  {
    NoCutInside(text[a..b], limit, u, v, x - a);
    if NaturalCut(text, limit, x) {
      NaturalInParagraph(text, limit, a, b, x);
    }
  }

  lemma NoCutInside(paragraph: string, limit: nat, u: nat, v: nat, x: nat)
    requires IsSentence(paragraph, u, v) && v - u <= limit && u < x < v
    ensures !NaturalInside(paragraph, limit, x)
  {
    if NaturalInside(paragraph, limit, x) {
      NaturalInSentence(paragraph, limit, u, v, x);
    }
  }

  /** A run of titles within the limit travels with a follower it fits with: they lie in one piece. */
  lemma TitlesTravelWithFollowers(text: string, limit: nat, pre: seq<string>, titles: seq<string>, follower: string,
                                  post: seq<string>)
    returns (k: nat)
    requires limit >= 1 && |text| > limit && Words(text, limit) == pre + (titles + ([follower] + post))
    requires AllFragments(titles) && titles != [] && !IsFragment(follower)
    requires pre == [] || !IsFragment(pre[|pre| - 1])
    requires |Joined(titles)| <= limit && (|Joined(titles)| + |follower| <= limit || |follower| > limit)
    ensures k < |PiecesOf(text, limit)| && Offset(PiecesOf(text, limit), k) <= |Joined(pre)|
    ensures |Joined(pre)| + |Joined(titles)| + |follower| <= Offset(PiecesOf(text, limit), k + 1)
  {
    var units, run := UnitsOf(text, limit), Joined(titles) + follower;
    var before, after := AttachedFrom(Buffer([], ""), pre, limit), AttachedFrom(Buffer([], ""), post, limit);
    TitlesStayWithFollowers(pre, titles, follower, post, limit);
    assert units == before + [run] + after;
    UnitsLaws(text, limit);
    WordsParts(text, limit, pre, titles + ([follower] + post));
    LiesInMiddle(before, run, after);
    k := UnitStaysWhole(text, limit, run, |Joined(before)|);
  }

  lemma LiesInMiddle(before: seq<string>, unit: string, after: seq<string>)
    ensures Lies(before + [unit] + after, 0, unit, |Joined(before)|)
  {
    LiesConcat(before + [unit], after, 0, unit, |Joined(before)|);
    LiesConcat(before, [unit], 0, unit, |Joined(before)|);
  }

  /** Attaching keeps the text of any first part of the words. */
  lemma WordsParts(text: string, limit: nat, pre: seq<string>, post: seq<string>)
    requires text != "" && Words(text, limit) == pre + post
    ensures Joined(AttachedFrom(Buffer([], ""), pre, limit)) == Joined(pre)
  {
    WordsLaws(text, limit);
    TidyParts(pre, post);
    assert forall p <- pre :: p in pre + post;
    assert Flat(Buffer([], "")) + pre == pre;
    AttachLaws(Buffer([], ""), pre, limit);
  }

  /** A unit is never cut. */
  lemma UnitStaysWhole(text: string, limit: nat, unit: string, from: nat) returns (k: nat)
    requires limit >= 1 && |text| > limit && Lies(UnitsOf(text, limit), 0, unit, from)
    ensures k < |PiecesOf(text, limit)|
    ensures Offset(PiecesOf(text, limit), k) <= from && from + |unit| <= Offset(PiecesOf(text, limit), k + 1)
  {
    var pieces, units := PiecesOf(text, limit), UnitsOf(text, limit);
    UnitsLaws(text, limit);
    ExactReassembly(text, limit);
    LiesInText(units, 0, unit, from);
    k := PieceAt(pieces, from);
    if k + 1 < |pieces| {
      BoundaryIsCut(pieces, k + 1);
      PackingCuts(text, limit);
    } else {
      assert pieces[..k + 1] == pieces;
    }
  }

  lemma PackingCuts(text: string, limit: nat)
    requires limit >= 1 && |text| > limit
    ensures Cuts(PiecesOf(text, limit), 0) <= Cuts(UnitsOf(text, limit), 0)
  {
    var units := UnitsOf(text, limit);
    UnitsLaws(text, limit);
    assert Laid(Progress([], "")) + units == units;
    PackedCuts(Progress([], ""), units, limit);
  }
}
