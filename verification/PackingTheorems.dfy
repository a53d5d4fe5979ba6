/** The promises of `pack`, for every text and every limit of at least one. */
module PackingTheorems {
  import opened Scanner
  import opened Chunks
  import opened ChunkLaws

  // ---------------------------------------------------------------- greedy packing

  /** No two neighbours would fit one inference together. */
  ghost predicate NoneFit(pieces: seq<string>, limit: nat) {
    forall k :: 0 <= k < |pieces| - 1 ==> !Fits(pieces[k], pieces[k + 1], limit)
  }

  function Laid(p: Progress): seq<string> {
    p.done + AsPieces(p.current)
  }

  ghost predicate PackInv(p: Progress, units: seq<string>, limit: nat) {
    && Tidy(Laid(p) + units) && NoneFit(Laid(p), limit)
    && AllBounded(Laid(p), limit) && AllBounded(units, limit)
    && (p.current == "" ==> p.done == [])
  }

  lemma PackStep(p: Progress, units: seq<string>, limit: nat)
    requires units != [] && PackInv(p, units, limit)
    ensures PackInv(Extended(p, units[0], limit), units[1..], limit)
    ensures Joined(Laid(Extended(p, units[0], limit)) + units[1..]) == Joined(Laid(p) + units)
  {
    var unit, rest, next := units[0], units[1..], Extended(p, units[0], limit);
    assert unit in units && (Laid(p) + units)[|Laid(p)|] == unit;
    HeadMoved(Laid(p), units);
    if p.current == "" || !Fits(p.current, unit, limit) {
      assert p.current + unit == unit || p.current != "";
      assert Laid(next) == Laid(p) + [unit];
    } else {
      assert units == [unit] + rest;
      PackGlue(p, unit, rest, limit);
    }
  }

  lemma PackGlue(p: Progress, unit: string, rest: seq<string>, limit: nat)
    requires PackInv(p, [unit] + rest, limit) && p.current != "" && unit != "" && Fits(p.current, unit, limit)
    ensures PackInv(Progress(p.done, p.current + unit), rest, limit)
    ensures Joined(Laid(Progress(p.done, p.current + unit)) + rest) == Joined(Laid(p) + ([unit] + rest))
  {
    var mid, glued := [p.current, unit], [p.current + unit];
    assert Laid(p) + ([unit] + rest) == p.done + mid + rest;
    TidyParts(p.done + mid, rest);
    TidyParts(p.done, mid);
    assert mid[1..] == [unit];
    JoinedOne(unit);
    JoinedOne(glued[0]);
    Resplit(p.done, mid, rest, glued);
    var before, after := Laid(p), Laid(Progress(p.done, p.current + unit));
    assert forall k :: 0 <= k < |p.done| ==> after[k] == before[k];
    assert |before[|p.done|]| <= |after[|p.done|]|;
  }

  lemma {:induction false} PackLaws(p: Progress, units: seq<string>, limit: nat)
    requires PackInv(p, units, limit)
    ensures var packed := PackedFrom(p, units, limit);
      && Tidy(packed) && Joined(packed) == Joined(Laid(p) + units)
      && NoneFit(packed, limit) && AllBounded(packed, limit)
    decreases |units|
  {
    if units == [] {
      assert Laid(p) + units == Laid(p);
    } else {
      PackStep(p, units, limit);
      PackLaws(Extended(p, units[0], limit), units[1..], limit);
    }
  }

  lemma PiecesLaws(text: string, limit: nat)
    requires limit >= 1
    ensures var pieces := PiecesOf(text, limit);
      && Tidy(pieces) && Joined(pieces) == text
      && NoneFit(pieces, limit) && AllBounded(pieces, limit)
  {
    JoinedOne(text);
    if |text| > limit {
      UnitsLaws(text, limit);
      var units, start := UnitsOf(text, limit), Progress([], "");
      assert Laid(start) + units == units;
      PackLaws(start, units, limit);
    }
  }

  // ---------------------------------------------------------------- what a reader is promised

  /** Joining the pieces gives the transcript back, byte for byte. */
  lemma ExactReassembly(text: string, limit: nat)
    requires limit >= 1
    ensures Joined(PiecesOf(text, limit)) == text
  {
    PiecesLaws(text, limit);
  }

  /** Where piece `k` starts in the joined text. */
  function Offset(pieces: seq<string>, k: nat): nat
    requires k <= |pieces|
  {
    |Joined(pieces[..k])|
  }

  lemma OffsetNext(pieces: seq<string>, k: nat)
    requires k < |pieces|
    ensures Offset(pieces, k + 1) == Offset(pieces, k) + |pieces[k]| <= |Joined(pieces)|
    ensures Joined(pieces)[Offset(pieces, k)..Offset(pieces, k + 1)] == pieces[k]
  {
    assert pieces[..k + 1] == pieces[..k] + [pieces[k]];
    assert pieces == pieces[..k + 1] + pieces[k + 1..];
    JoinedConcat(pieces[..k], [pieces[k]]);
    JoinedConcat(pieces[..k + 1], pieces[k + 1..]);
    JoinedOne(pieces[k]);
  }

  lemma PieceAt(pieces: seq<string>, at: nat) returns (k: nat)
    requires at < |Joined(pieces)|
    ensures k < |pieces| && Offset(pieces, k) <= at < Offset(pieces, k + 1)
  {
    k := 0;
    assert pieces[..0] == [] && pieces[..|pieces|] == pieces;
    while k < |pieces| && Offset(pieces, k + 1) <= at
      invariant k <= |pieces| && Offset(pieces, k) <= at
    {
      k := k + 1;
    }
  }

  lemma BoundaryHasSpace(pieces: seq<string>, k: nat)
    requires Tidy(pieces) && k + 1 < |pieces|
    ensures var text, at := Joined(pieces), Offset(pieces, k + 1);
      0 < at < |text| && (IsSpace(text[at - 1]) || IsSpace(text[at]))
  {
    OffsetNext(pieces, k);
    OffsetNext(pieces, k + 1);
    var text, at := Joined(pieces), Offset(pieces, k + 1);
    var left, right := pieces[k], pieces[k + 1];
    assert Cut(left, right);
    assert text[at - |left|..at][|left| - 1] == left[|left| - 1];
    assert text[at..at + |right|][0] == right[0];
  }

  /** No token is cut: every whitespace-free stretch of the transcript lies inside one piece. */
  lemma TokensStayWhole(text: string, limit: nat, from: nat, to: nat) returns (k: nat)
    requires limit >= 1 && from < to <= |text|
    requires forall j :: from <= j < to ==> !IsSpace(text[j])
    ensures k < |PiecesOf(text, limit)|
    ensures Offset(PiecesOf(text, limit), k) <= from && to <= Offset(PiecesOf(text, limit), k + 1)
  {
    var pieces := PiecesOf(text, limit);
    PiecesLaws(text, limit);
    k := PieceAt(pieces, from);
    if k + 1 < |pieces| {
      BoundaryHasSpace(pieces, k);
    } else {
      assert pieces[..k + 1] == pieces;
    }
  }

  /** A piece is larger than the limit only around a token or a whitespace run that is itself larger
      than the limit, and then by no more than the limit. */
  lemma OversizeIsSolid(text: string, limit: nat, k: nat) returns (from: nat, to: nat)
    requires limit >= 1 && k < |PiecesOf(text, limit)| && |PiecesOf(text, limit)[k]| > limit
    ensures Offset(PiecesOf(text, limit), k) <= from < to == Offset(PiecesOf(text, limit), k + 1) <= |text|
    ensures to - from > limit && Solid(text[from..to])
    ensures |PiecesOf(text, limit)[k]| <= (to - from) + limit
  {
    var pieces := PiecesOf(text, limit);
    PiecesLaws(text, limit);
    OffsetNext(pieces, k);
    assert pieces[k] in pieces && Bounded(pieces[k], limit);
    var skip :| 0 <= skip <= limit && skip < |pieces[k]| && |pieces[k]| - skip > limit && Solid(pieces[k][skip..]);
    from, to := Offset(pieces, k) + skip, Offset(pieces, k + 1);
    assert text[from..to] == pieces[k][skip..];
  }

  ghost predicate HasLongRun(text: string, limit: nat) {
    exists from, to :: 0 <= from < to <= |text| && to - from > limit && Solid(text[from..to])
  }

  /** A transcript without such a run always packs into pieces that fit. */
  lemma PiecesFit(text: string, limit: nat)
    requires limit >= 1 && !HasLongRun(text, limit)
    ensures forall piece <- PiecesOf(text, limit) :: |piece| <= limit
  {
    forall piece <- PiecesOf(text, limit)
      ensures |piece| <= limit
    {
      var k :| 0 <= k < |PiecesOf(text, limit)| && PiecesOf(text, limit)[k] == piece;
      if |piece| > limit {
        var from, to := OversizeIsSolid(text, limit, k);
        assert false;
      }
    }
  }

  lemma JoinedTwo(pieces: seq<string>)
    requires |pieces| >= 2
    ensures |Joined(pieces)| == |pieces[0]| + |pieces[1]| + |Joined(pieces[2..])|
  {
    assert pieces[1..][1..] == pieces[2..];
  }

  lemma NoneFitTail(pieces: seq<string>, limit: nat)
    requires NoneFit(pieces, limit) && |pieces| >= 2
    ensures NoneFit(pieces[2..], limit) && |pieces[0]| + |pieces[1]| >= limit + 1
  {
    assert !Fits(pieces[0], pieces[0 + 1], limit);
    forall k | 0 <= k < |pieces[2..]| - 1
      ensures !Fits(pieces[2..][k], pieces[2..][k + 1], limit)
    {
      assert !Fits(pieces[k + 2], pieces[k + 2 + 1], limit);
    }
  }

  lemma {:induction false} PairsAreLong(pieces: seq<string>, limit: nat)
    requires NoneFit(pieces, limit)
    ensures (|pieces| / 2) * (limit + 1) <= |Joined(pieces)|
    decreases |pieces|
  {
    if |pieces| >= 2 {
      NoneFitTail(pieces, limit);
      PairsAreLong(pieces[2..], limit);
      JoinedTwo(pieces);
      var pairs := |pieces[2..]| / 2;
      assert (pairs + 1) * (limit + 1) == pairs * (limit + 1) + (limit + 1);
    }
  }

  /** The number of inferences a transcript costs is bounded by its length. */
  lemma PiecesAreFew(text: string, limit: nat)
    requires limit >= 1
    ensures (|PiecesOf(text, limit)| / 2) * (limit + 1) <= |text|
  {
    PiecesLaws(text, limit);
    PairsAreLong(PiecesOf(text, limit), limit);
  }

  // ---------------------------------------------------------------- greedy is optimal

  function Flattened(groups: seq<seq<string>>): seq<string> {
    if groups == [] then [] else groups[0] + Flattened(groups[1..])
  }

  ghost predicate Full(units: seq<string>) {
    forall k :: 0 <= k < |units| ==> units[k] != ""
  }

  /** A split of units into consecutive groups, each one unit or small enough for one inference. */
  ghost predicate Allowed(groups: seq<seq<string>>, limit: nat) {
    forall g <- groups :: |g| == 1 || (|g| > 1 && |Joined(g)| <= limit)
  }

  /** How many pieces greedy packing makes of a piece of length `c` in progress and the units after it. */
  function Count(c: nat, units: seq<string>, limit: nat): nat
    decreases |units|
  {
    if units == [] then 1
    else if c + |units[0]| <= limit then Count(c + |units[0]|, units[1..], limit)
    else 1 + Count(|units[0]|, units[1..], limit)
  }

  lemma {:induction false} CountIsPacked(p: Progress, units: seq<string>, limit: nat)
    requires p.current != "" && Full(units)
    ensures |PackedFrom(p, units, limit)| == |p.done| + Count(|p.current|, units, limit)
    decreases |units|
  {
    if units != [] {
      CountIsPacked(Extended(p, units[0], limit), units[1..], limit);
    }
  }

  /** A longer piece in progress costs no less, and at most one piece more. */
  lemma {:induction false} CountIsMonotone(c: nat, longer: nat, units: seq<string>, limit: nat)
    requires c <= longer
    ensures Count(c, units, limit) <= Count(longer, units, limit) <= Count(c, units, limit) + 1
    decreases |units|
  {
    if units != [] {
      var u, rest := |units[0]|, units[1..];
      if longer + u <= limit {
        CountIsMonotone(c + u, longer + u, rest, limit);
      } else if c + u <= limit {
        CountIsMonotone(u, c + u, rest, limit);
      }
    }
  }

  lemma AllowedRest(groups: seq<seq<string>>, limit: nat)
    requires Allowed(groups, limit) && groups != []
    ensures var first := groups[0];
      && first != [] && Allowed(groups[1..], limit)
      && (first[1..] == [] || |first[0]| + |Joined(first[1..])| <= limit)
  {
    assert groups[0] in groups && forall later <- groups[1..] :: later in groups;
  }

  lemma Behead(a: seq<string>, b: seq<string>)
    requires a != []
    ensures a + b != [] && (a + b)[0] == a[0] && (a + b)[1..] == a[1..] + b
  {
  }

  /** A unit that fits the piece in progress joins it. */
  lemma UnitJoins(c: nat, g: seq<string>, rest: seq<string>, limit: nat)
    requires g != [] && c + |Joined(g)| <= limit
    ensures Count(c, g + rest, limit) == Count(c + |g[0]|, g[1..] + rest, limit)
  {
    Behead(g, rest);
  }

  /** Whatever is in progress, the next group costs at most one piece more than it would on its own. */
  lemma GroupStarts(c: nat, first: seq<string>, rest: seq<string>, limit: nat)
    requires first != []
    ensures Count(c, first + rest, limit) <= 1 + Count(|first[0]|, first[1..] + rest, limit)
  {
    Behead(first, rest);
    CountIsMonotone(|first[0]|, c + |first[0]|, first[1..] + rest, limit);
  }

  /** Greedy stays ahead of any allowed split, from the middle `g` of one of its groups on. */
  lemma {:induction false} GreedyStaysAhead(c: nat, g: seq<string>, groups: seq<seq<string>>, limit: nat)
    requires g == [] || c + |Joined(g)| <= limit
    requires Allowed(groups, limit)
    ensures Count(c, g + Flattened(groups), limit) <= 1 + |groups|
    decreases |groups|, |g|
  {
    if g != [] {
      GreedyStaysAhead(c + |g[0]|, g[1..], groups, limit);
      UnitJoins(c, g, Flattened(groups), limit);
    } else if groups != [] {
      var first, rest := groups[0], Flattened(groups[1..]);
      AllowedRest(groups, limit);
      assert g + Flattened(groups) == first + rest;
      GreedyStaysAhead(|first[0]|, first[1..], groups[1..], limit);
      GroupStarts(c, first, rest, limit);
    } else {
      assert g + Flattened(groups) == [];
    }
  }

  /** Greedy packing makes the fewest pieces any allowed split of the same units can make. */
  lemma PackingIsOptimal(units: seq<string>, groups: seq<seq<string>>, limit: nat)
    requires Full(units)
    requires Allowed(groups, limit) && Flattened(groups) == units
    ensures |Packed(units, limit)| <= |groups|
  {
    if units != [] {
      assert groups != [] && groups[0] in groups;
      GreedyFromStart(units, groups, limit);
      PackedCounts(units, limit);
    }
  }

  lemma PackedCounts(units: seq<string>, limit: nat)
    requires units != [] && Full(units)
    ensures |Packed(units, limit)| == Count(|units[0]|, units[1..], limit)
  {
    var first := Extended(Progress([], ""), units[0], limit);
    assert first == Progress([], units[0]);
    CountIsPacked(first, units[1..], limit);
  }

  lemma GreedyFromStart(units: seq<string>, groups: seq<seq<string>>, limit: nat)
    requires groups != [] && groups[0] != [] && Allowed(groups, limit) && Flattened(groups) == units
    ensures units != [] && Count(|units[0]|, units[1..], limit) <= |groups|
  {
    var first, rest := groups[0], groups[1..];
    assert first in groups && forall later <- rest :: later in groups;
    assert units[1..] == first[1..] + Flattened(rest);
    GreedyStaysAhead(|first[0]|, first[1..], rest, limit);
  }

  /** The packed pieces are the ones done before, then one for each group. */
  ghost predicate MadeOf(packed: seq<string>, done: seq<string>, groups: seq<seq<string>>) {
    && |packed| == |done| + |groups| && packed[..|done|] == done
    && forall k :: 0 <= k < |groups| ==> packed[|done| + k] == Joined(groups[k])
  }

  lemma MadeOfOne(done: seq<string>, current: string, held: seq<string>)
    requires current == Joined(held)
    ensures MadeOf(done + [current], done, [held]) && Flattened([held]) == held
  {
    assert [held][1..] == [] && held + Flattened([]) == held;
  }

  lemma MadeOfMore(packed: seq<string>, done: seq<string>, held: seq<string>, later: seq<seq<string>>)
    requires MadeOf(packed, done + [Joined(held)], later)
    ensures MadeOf(packed, done, [held] + later) && Flattened([held] + later) == held + Flattened(later)
  {
    var n := |done|;
    assert packed[..n + 1][..n] == packed[..n] && packed[..n + 1][n] == packed[n];
    assert ([held] + later)[1..] == later;
    forall k | 0 <= k < 1 + |later|
      ensures packed[n + k] == Joined(([held] + later)[k])
    {
      if k > 0 {
        assert packed[n + 1 + (k - 1)] == Joined(later[k - 1]);
      }
    }
  }

  lemma AllowedMore(held: seq<string>, later: seq<seq<string>>, limit: nat)
    requires Allowed(later, limit) && (|held| == 1 || (|held| > 1 && |Joined(held)| <= limit))
    ensures Allowed([held] + later, limit)
  {
  }

  lemma HeadMoved(held: seq<string>, units: seq<string>)
    requires units != []
    ensures held + [units[0]] + units[1..] == held + units
  {
  }

  lemma PackedNext(p: Progress, units: seq<string>, limit: nat)
    requires p.current != "" && units != []
    ensures var unit, rest := units[0], units[1..];
      PackedFrom(p, units, limit) ==
        if Fits(p.current, unit, limit) then PackedFrom(Progress(p.done, p.current + unit), rest, limit)
        else PackedFrom(Progress(p.done + [p.current], unit), rest, limit)
  {
  }

  /** The groups are an allowed split of what is held and what is to come, and greedy packing makes them. */
  ghost predicate Grouping(p: Progress, held: seq<string>, units: seq<string>, limit: nat, groups: seq<seq<string>>) {
    && Allowed(groups, limit) && Flattened(groups) == held + units
    && MadeOf(PackedFrom(p, units, limit), p.done, groups)
  }

  lemma GroupGrows(p: Progress, held: seq<string>, units: seq<string>, limit: nat, groups: seq<seq<string>>)
    requires p.current != "" && units != [] && Fits(p.current, units[0], limit)
    requires Grouping(Progress(p.done, p.current + units[0]), held + [units[0]], units[1..], limit, groups)
    ensures Grouping(p, held, units, limit, groups)
  {
    PackedNext(p, units, limit);
    HeadMoved(held, units);
  }

  lemma GroupEnds(p: Progress, held: seq<string>, units: seq<string>, limit: nat, later: seq<seq<string>>)
    requires p.current == Joined(held) && (|held| == 1 || (|held| > 1 && |p.current| <= limit))
    requires p.current != "" && units != [] && !Fits(p.current, units[0], limit)
    requires Grouping(Progress(p.done + [p.current], units[0]), [units[0]], units[1..], limit, later)
    ensures Grouping(p, held, units, limit, [held] + later)
  {
    PackedNext(p, units, limit);
    HeadMoved([], units);
    AllowedMore(held, later, limit);
    MadeOfMore(PackedFrom(p, units, limit), p.done, held, later);
  }

  lemma JoinedMore(held: seq<string>, unit: string)
    ensures Joined(held + [unit]) == Joined(held) + unit && Joined([unit]) == unit
  {
    JoinedConcat(held, [unit]);
    JoinedOne(unit);
  }

  /** ... and what it makes is itself an allowed split. */
  lemma {:induction false} PackingIsAllowed(p: Progress, held: seq<string>, units: seq<string>, limit: nat)
    returns (groups: seq<seq<string>>)
    requires p.current != "" && p.current == Joined(held) && (|held| == 1 || (|held| > 1 && |p.current| <= limit))
    requires Full(units)
    ensures Grouping(p, held, units, limit, groups)
    decreases |units|
  {
    if units == [] {
      groups := [held];
      MadeOfOne(p.done, p.current, held);
      assert held + units == held;
      return;
    }
    var unit, rest := units[0], units[1..];
    JoinedMore(held, unit);
    if Fits(p.current, unit, limit) {
      groups := PackingIsAllowed(Progress(p.done, p.current + unit), held + [unit], rest, limit);
      GroupGrows(p, held, units, limit, groups);
    } else {
      var later := PackingIsAllowed(Progress(p.done + [p.current], unit), [unit], rest, limit);
      groups := [held] + later;
      GroupEnds(p, held, units, limit, later);
    }
  }

  /** Greedy packing is an allowed split of the units, and no allowed split has fewer groups. */
  lemma GreedyIsOptimal(units: seq<string>, limit: nat) returns (groups: seq<seq<string>>)
    requires Full(units)
    ensures Allowed(groups, limit) && Flattened(groups) == units && |groups| == |Packed(units, limit)|
    ensures forall k :: 0 <= k < |groups| ==> Packed(units, limit)[k] == Joined(groups[k])
    ensures forall other: seq<seq<string>> :: Allowed(other, limit) && Flattened(other) == units ==> |groups| <= |other|
  {
    if units == [] {
      groups := [];
      assert Packed(units, limit) == [];
    } else {
      JoinedOne(units[0]);
      var first := Extended(Progress([], ""), units[0], limit);
      assert first == Progress([], units[0]);
      groups := PackingIsAllowed(first, [units[0]], units[1..], limit);
      HeadMoved([], units);
      assert Packed(units, limit) == PackedFrom(first, units[1..], limit);
    }
    forall other: seq<seq<string>> | Allowed(other, limit) && Flattened(other) == units
      ensures |groups| <= |other|
    {
      PackingIsOptimal(units, other, limit);
    }
  }

  /** A run of titles longer than the limit is cut behind its titles only, into as few pieces as its titles can
      make. */
  lemma LongRunsArePacked(run: string, limit: nat) returns (groups: seq<seq<string>>)
    requires |run| > limit
    ensures Allowed(groups, limit) && Flattened(groups) == CutAfter(Abbreviation, run)
    ensures |groups| == |RunPieces(run, limit)|
    ensures forall k :: 0 <= k < |groups| ==> RunPieces(run, limit)[k] == Joined(groups[k])
    ensures forall other: seq<seq<string>> ::
      Allowed(other, limit) && Flattened(other) == CutAfter(Abbreviation, run) ==> |groups| <= |other|
  {
    CutAfterLaws(Abbreviation, run);
    groups := GreedyIsOptimal(CutAfter(Abbreviation, run), limit);
  }
}
