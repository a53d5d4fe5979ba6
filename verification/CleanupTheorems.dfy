/** What cleanup promises whatever the text model answers, and when its budgets are enough. */
module CleanupTheorems {
  import opened Options
  import opened Scanner
  import opened Chunks
  import opened ChunkLaws
  import opened PackingTheorems
  import opened Cleanup

  // ---------------------------------------------------------------- stitching

  /** `stop` is the first sent piece whose request timed out, or the number of pieces. */
  ghost predicate StopsAt(pieces: seq<string>, limit: nat, model: Model, from: nat, stop: nat) {
    && from <= stop <= |pieces|
    && (stop < |pieces| ==> |pieces[stop]| <= limit && model(stop, pieces[stop]) == TimedOut)
    && (forall k :: from <= k < stop ==> |pieces[k]| <= limit ==> model(k, pieces[k]) != TimedOut)
  }

  /** What becomes of piece `k` when the first timeout is at `stop`. */
  function ResultOf(pieces: seq<string>, limit: nat, model: Model, stop: nat, k: nat): string
    requires k < |pieces|
  {
    if k < stop && |pieces[k]| <= limit && model(k, pieces[k]).Text? then model(k, pieces[k]).text else pieces[k]
  }

  ghost predicate RuntimeLost(pieces: seq<string>, limit: nat, model: Model, from: nat, stop: nat)
    requires stop <= |pieces|
  {
    exists k :: from <= k < stop && |pieces[k]| <= limit && model(k, pieces[k]) == Unavailable
  }

  lemma LostStep(pieces: seq<string>, limit: nat, model: Model, from: nat, stop: nat)
    requires from < stop <= |pieces|
    ensures RuntimeLost(pieces, limit, model, from, stop) <==>
      (Sent(pieces[from], limit) && model(from, pieces[from]) == Unavailable)
      || RuntimeLost(pieces, limit, model, from + 1, stop)
  {
  }

  /** A piece before the first timeout loses the runtime, or gives its result and leaves the rest. */
  lemma StitchedStep(pieces: seq<string>, limit: nat, model: Model, from: nat, stop: nat)
    requires StopsAt(pieces, limit, model, from, stop) && from < stop
    ensures Stitched(pieces, from, limit, model) ==
      if Sent(pieces[from], limit) && model(from, pieces[from]) == Unavailable then None
      else Extend(ResultOf(pieces, limit, model, stop, from), Stitched(pieces, from + 1, limit, model))
  {
  }

  /** For every pattern of accepted, rejected, oversize and timed-out pieces: one result per piece, in
      order, each the model's answer or the piece itself, and nothing touched from the first timeout
      on. The call fails exactly when the runtime is lost before that. */
  lemma {:induction false} StitchingIsFaithful(pieces: seq<string>, from: nat, limit: nat, model: Model, stop: nat)
    requires StopsAt(pieces, limit, model, from, stop)
    ensures var results := Stitched(pieces, from, limit, model);
      && (results.None? <==> RuntimeLost(pieces, limit, model, from, stop))
      && (results.Some? ==> AreResults(pieces, from, limit, model, stop, results.value))
    decreases |pieces| - from
  {
    if from < stop {
      StitchingIsFaithful(pieces, from + 1, limit, model, stop);
      LostStep(pieces, limit, model, from, stop);
      StitchedStep(pieces, limit, model, from, stop);
      var later := Stitched(pieces, from + 1, limit, model);
      if later.Some? {
        ResultsShift(pieces, from, limit, model, stop, later.value);
      }
    }
  }

  ghost predicate AreResults(pieces: seq<string>, from: nat, limit: nat, model: Model, stop: nat,
                             results: seq<string>)
  {
    && |results| == |pieces| - from
    && forall j :: 0 <= j < |results| ==> results[j] == ResultOf(pieces, limit, model, stop, from + j)
  }

  lemma ResultsShift(pieces: seq<string>, from: nat, limit: nat, model: Model, stop: nat, later: seq<string>)
    requires from < |pieces| && AreResults(pieces, from + 1, limit, model, stop, later)
    ensures AreResults(pieces, from, limit, model, stop, [ResultOf(pieces, limit, model, stop, from)] + later)
  {
    var results := [ResultOf(pieces, limit, model, stop, from)] + later;
    forall j | 0 <= j < |results|
      ensures results[j] == ResultOf(pieces, limit, model, stop, from + j)
    {
      if j > 0 {
        assert later[j - 1] == ResultOf(pieces, limit, model, stop, from + 1 + (j - 1));
      }
    }
  }

  lemma {:induction false} FirstStop(pieces: seq<string>, limit: nat, model: Model, from: nat) returns (stop: nat)
    requires from <= |pieces|
    ensures StopsAt(pieces, limit, model, from, stop)
    decreases |pieces| - from
  {
    stop := from;
    if from < |pieces| && !(Sent(pieces[from], limit) && model(from, pieces[from]) == TimedOut) {
      stop := FirstStop(pieces, limit, model, from + 1);
    }
  }

  /** A model that says each text again, or fails to answer it, however the two are mixed. */
  ghost predicate AddsNothing(model: Model) {
    forall k: nat, text: string :: model(k, text) in {Text(text), RejectedAnswer, TimedOut}
  }

  /** With such a model a split transcript comes back exactly, whatever the limit. */
  lemma SplitPathIsLossless(text: string, limit: nat, model: Model)
    requires limit >= 1 && AddsNothing(model)
    ensures Rejoined(Stitched(PiecesOf(text, limit), 0, limit, model)) == Cleaned(text)
  {
    var pieces := PiecesOf(text, limit);
    var stop := FirstStop(pieces, limit, model, 0);
    StitchingIsFaithful(pieces, 0, limit, model, stop);
    forall k | 0 <= k < stop && Sent(pieces[k], limit)
      ensures model(k, pieces[k]) in {Text(pieces[k]), RejectedAnswer}
    {
      assert model(k, pieces[k]) in {Text(pieces[k]), RejectedAnswer, TimedOut};
    }
    var results := Stitched(pieces, 0, limit, model).value;
    assert results == pieces by {
      assert forall k :: 0 <= k < |pieces| ==> results[k] == ResultOf(pieces, limit, model, stop, 0 + k);
    }
    ExactReassembly(text, limit);
  }

  // ---------------------------------------------------------------- the window

  /** The window is divided without remainder, and the packing budget is the whole input half. */
  lemma WindowIsDivided(contextTokens: int)
    ensures var budget := BudgetForContext(contextTokens);
      && PROMPT_OVERHEAD_TOKENS + budget.inputTokens + budget.outputTokens == budget.contextTokens
      && budget.contextTokens >= MINIMUM_CONTEXT_TOKENS && budget.contextTokens >= contextTokens
      && PackedTokens(budget) == budget.inputTokens
      && CertainBytes(budget) + TOKENIZER_MARGIN_TOKENS == budget.inputTokens
      && 5 * budget.inputTokens <= 4 * budget.outputTokens < 5 * budget.inputTokens + 9
  {
  }

  /** Every one-pass request fits the window it was sized for, and leaves room for the answer: the
      transcript said again, inside its JSON wrapper. A tokenizer emits at most one token per byte. */
  lemma OnePassFits(contextTokens: int, transcript: string, tokens: nat)
    requires tokens <= Utf8Length(transcript)
    requires OnePass(transcript, Tokens(tokens), BudgetForContext(contextTokens))
    ensures var budget := BudgetForContext(contextTokens);
      var maxTokens := OutputTokenBudget(Utf8Length(transcript), budget);
      && PROMPT_OVERHEAD_TOKENS + tokens + maxTokens <= budget.contextTokens
      && tokens + JSON_WRAPPER_TOKENS <= maxTokens
      && maxTokens <= Max(MINIMUM_OUTPUT_TOKENS, Utf8Length(transcript) + JSON_WRAPPER_TOKENS)
  {
    WindowIsDivided(contextTokens);
  }

  lemma {:induction false} Utf8AtMostFour(text: string)
    ensures |text| <= Utf8Length(text) <= 4 * |text|
    decreases |text|
  {
    if text != "" {
      Utf8AtMostFour(text[1..]);
    }
  }

  /** The encoded size of a text: one to four bytes a character, by its code point. */
  lemma Utf8ByRange(c: char)
    ensures Utf8Length([c]) ==
      if c as int < 0x80 then 1 else if c as int < 0x800 then 2 else if c as int < 0x10000 then 3 else 4
  {
    assert [c][1..] == "";
  }

  lemma {:induction false} Utf8Adds(a: string, b: string)
    ensures Utf8Length(a + b) == Utf8Length(a) + Utf8Length(b)
    decreases |a|
  {
    if a == "" {
      assert a + b == b;
    } else {
      assert (a + b)[1..] == a[1..] + b;
      Utf8Adds(a[1..], b);
    }
  }

  /** A transcript that is split is really longer than its own limit, and at its own average density a
      full piece costs at most 85 percent of the tokens one pass can hold. */
  lemma SplitsFollowDensity(contextTokens: int, transcript: string, tokens: nat)
    requires !OnePass(transcript, Tokens(tokens), BudgetForContext(contextTokens))
    ensures var packed := PackedTokens(BudgetForContext(contextTokens));
      var limit := CharacterLimit(|transcript|, tokens, packed);
      && limit < |transcript|
      && (limit > 1 ==> 100 * (limit * tokens) <= 85 * (packed * |transcript|))
  {
    var packed := PackedTokens(BudgetForContext(contextTokens));
    WindowIsDivided(contextTokens);
    Utf8AtMostFour(transcript);
    var n := |transcript|;
    DensityBound(packed, n, tokens);
  }

  lemma DensityBound(packed: nat, n: nat, tokens: nat)
    requires 0 < packed < tokens && n >= 2
    ensures var limit := CharacterLimit(n, tokens, packed);
      limit < n && (limit > 1 ==> 100 * (limit * tokens) <= 85 * (packed * n))
  {
    var top, bottom := packed * 85 * n, 100 * tokens;
    assert top == 85 * (packed * n) && n * bottom == 100 * (tokens * n);
    MulMono(packed, tokens, n);
    QuotientBound(top, bottom);
    QuotientBelow(top, bottom, n);
    var quotient := top / bottom;
    assert quotient * bottom == 100 * (quotient * tokens);
  }

  lemma QuotientBelow(a: nat, b: nat, n: nat)
    requires b > 0 && a < n * b
    ensures a / b < n
  {
    QuotientBound(a, b);
    if n <= a / b {
      MulMono(n, a / b, b);
    }
  }

  lemma QuotientBound(a: nat, b: nat)
    requires b > 0
    ensures (a / b) * b <= a
  {
  }

  lemma MulMono(a: nat, b: nat, c: nat)
    requires a <= b
    ensures a * c <= b * c
  {
  }

  // ---------------------------------------------------------------- requests for pieces

  /** The request fits the window, and so does the piece said again in its JSON wrapper. */
  predicate RequestFits(piece: string, tokens: nat, budget: TokenBudget) {
    var maxTokens := OutputTokenBudget(Utf8Length(piece), budget);
    PROMPT_OVERHEAD_TOKENS + tokens + maxTokens <= budget.contextTokens && tokens + JSON_WRAPPER_TOKENS <= maxTokens
  }

  /** Exactly when a request fits. A long piece fits if and only if its tokens are within the packing budget,
      a shorter one if and only if they leave room for its own answer. */
  lemma RequestFitsIff(contextTokens: int, piece: string, tokens: nat)
    requires tokens <= Utf8Length(piece)
    ensures var budget := BudgetForContext(contextTokens);
      var bytes, packed := Utf8Length(piece), PackedTokens(budget);
      && (tokens <= packed ==> RequestFits(piece, tokens, budget))
      && (bytes + JSON_WRAPPER_TOKENS >= budget.outputTokens ==>
            (RequestFits(piece, tokens, budget) <==> tokens <= packed))
      && (bytes + JSON_WRAPPER_TOKENS < budget.outputTokens ==>
            (RequestFits(piece, tokens, budget) <==>
               tokens + Max(MINIMUM_OUTPUT_TOKENS, bytes + JSON_WRAPPER_TOKENS) <= packed + budget.outputTokens))
  {
    WindowIsDivided(contextTokens);
  }

  /** A piece that is sent, and whose tokens to the character exceed the transcript's average by no more than
      the margin allows for, always fits. */
  lemma EvenPiecesFit(contextTokens: int, transcript: string, total: nat, piece: string, tokens: nat)
    requires !OnePass(transcript, Tokens(total), BudgetForContext(contextTokens))
    requires var packed := PackedTokens(BudgetForContext(contextTokens));
      Sent(piece, CharacterLimit(|transcript|, total, packed))
    requires tokens <= Utf8Length(piece) && 85 * (tokens * |transcript|) <= 100 * (total * |piece|)
    ensures RequestFits(piece, tokens, BudgetForContext(contextTokens))
  {
    var packed, n := PackedTokens(BudgetForContext(contextTokens)), |transcript|;
    var limit := CharacterLimit(n, total, packed);
    SplitsFollowDensity(contextTokens, transcript, total);
    WindowIsDivided(contextTokens);
    Utf8AtMostFour(piece);
    if limit > 1 {
      MulMono(|piece|, limit, total);
      assert 85 * (tokens * n) <= 85 * (packed * n);
      CancelFactor(tokens, packed, n);
    }
    RequestFitsIff(contextTokens, piece, tokens);
  }

  lemma CancelFactor(a: nat, b: nat, n: nat)
    requires n > 0 && a * n <= b * n
    ensures a <= b
  {
    if a > b {
      MulMono(b + 1, a, n);
    }
  }

  /** When tokens are at most the bytes of a piece, and no more than the whole transcript was counted at, the
      largest such count decides, and it is known before the request: no tokenizer can make a request overflow
      exactly when that count is within the packing budget, or leaves room for a short answer. */
  lemma WorstCountDecides(contextTokens: int, piece: string, total: nat)
    ensures var budget := BudgetForContext(contextTokens);
      var bytes, packed := Utf8Length(piece), PackedTokens(budget);
      var worst := Min(total, bytes);
      (forall tokens: nat :: tokens <= worst ==> RequestFits(piece, tokens, budget)) <==>
        if bytes + JSON_WRAPPER_TOKENS >= budget.outputTokens then worst <= packed
        else worst + Max(MINIMUM_OUTPUT_TOKENS, bytes + JSON_WRAPPER_TOKENS) <= packed + budget.outputTokens
  {
    var budget := BudgetForContext(contextTokens);
    var worst: nat := Min(total, Utf8Length(piece));
    RequestFitsIff(contextTokens, piece, worst);
    forall tokens: nat | tokens <= worst && RequestFits(piece, worst, budget)
      ensures RequestFits(piece, tokens, budget)
    {
    }
  }

  /** A tokenizer with a rare letter: a token for each `x`, and one for every eight characters of the rest. */
  function Toll(text: string): nat {
    var rest := |text| - Dense(text);
    Dense(text) + (if rest > 0 then (rest + 7) / 8 else 0)
  }

  function Dense(text: string): nat {
    if text == "" then 0 else (if text[0] == 'x' then 1 else 0) + Dense(text[1..])
  }

  lemma {:induction false} DenseConcat(a: string, b: string)
    ensures Dense(a + b) == Dense(a) + Dense(b)
    decreases |a|
  {
    if a == "" {
      assert a + b == b;
    } else {
      assert (a + b)[1..] == a[1..] + b;
      DenseConcat(a[1..], b);
    }
  }

  lemma {:induction false} DenseCounts(text: string, c: bool)
    requires forall k :: 0 <= k < |text| ==> (text[k] == 'x' <==> c)
    ensures Dense(text) == if c then |text| else 0
    decreases |text|
  {
    if text != "" {
      DenseCounts(text[1..], c);
    }
  }

  lemma {:induction false} AsciiLength(text: string)
    requires forall k :: 0 <= k < |text| ==> text[k] < '\U{80}'
    ensures Utf8Length(text) == |text|
    decreases |text|
  {
    if text != "" {
      AsciiLength(text[1..]);
    }
  }

  /** One long word in a transcript of short, cheap ones. */
  function Uneven(): string {
    seq(10000, i => if i < 2000 then 'x' else if i % 2 == 0 then ' ' else 'y')
  }

  lemma UnevenCounts()
    ensures Toll(Uneven()) == 3000 && Utf8Length(Uneven()) == 10000
  {
    DenseWordInside(10000);
    assert Uneven()[..10000] == Uneven();
  }

  lemma UnevenHasNoLongRun(limit: nat)
    requires limit >= 2000
    ensures !HasLongRun(Uneven(), limit)
  {
    var text := Uneven();
    forall from: nat, to: nat | from < to <= |text| && to - from > limit
      ensures !Solid(text[from..to])
    {
      var run := text[from..to];
      var last := |run| - 1;
      assert run[last] == text[to - 1] && run[last - 1] == text[to - 2];
      assert IsSpace(' ') && !IsSpace('y');
      assert IsSpace(run[last]) != IsSpace(run[last - 1]);
    }
  }

  /** The average says nothing about one piece: some transcript splits so that a piece is sent which does not
      fit the window, for a tokenizer that never makes more tokens than bytes. */
  lemma DensePieceOverflows() returns (k: nat)
    ensures var budget := BudgetForContext(MINIMUM_CONTEXT_TOKENS);
      var total := Toll(Uneven());
      var limit := CharacterLimit(|Uneven()|, total, PackedTokens(budget));
      && !OnePass(Uneven(), Tokens(total), budget)
      && k < |PiecesOf(Uneven(), limit)|
      && var piece := PiecesOf(Uneven(), limit)[k];
         && Sent(piece, limit) && Toll(piece) <= Utf8Length(piece)
         && PROMPT_OVERHEAD_TOKENS + Toll(piece) + OutputTokenBudget(Utf8Length(piece), budget) > budget.contextTokens
  {
    UnevenCounts();
    SmallestWindow();
    k := UnevenPiece(4352);
  }

  lemma SmallestWindow()
    ensures BudgetForContext(MINIMUM_CONTEXT_TOKENS) == TokenBudget(4096, 1536, 1920)
    ensures PackedTokens(TokenBudget(4096, 1536, 1920)) == 1536 && CertainBytes(TokenBudget(4096, 1536, 1920)) == 1504
    ensures CharacterLimit(10000, 3000, 1536) == 4352
  {
  }

  /** The piece with the long word is sent. */
  lemma UnevenPiece(limit: nat) returns (k: nat)
    requires limit >= 2000
    ensures k < |PiecesOf(Uneven(), limit)|
    ensures var piece := PiecesOf(Uneven(), limit)[k];
      Sent(piece, limit) && 2000 <= Toll(piece) <= Utf8Length(piece)
  {
    var text := Uneven();
    var pieces := PiecesOf(text, limit);
    UnevenHasNoLongRun(limit);
    PiecesFit(text, limit);
    k := TokensStayWhole(text, limit, 0, 2000);
    ExactReassembly(text, limit);
    OffsetNext(pieces, k);
    assert pieces[k] in pieces;
    DenseWordInside(Offset(pieces, k + 1));
    assert text[0..Offset(pieces, k + 1)] == text[..Offset(pieces, k + 1)];
  }

  lemma DenseWordInside(to: nat)
    requires 2000 <= to <= |Uneven()|
    ensures Dense(Uneven()[..to]) == 2000 && Utf8Length(Uneven()[..to]) == to
  {
    var text := Uneven();
    assert text[..to] == text[..2000] + text[2000..to];
    AsciiLength(text[..to]);
    DenseConcat(text[..2000], text[2000..to]);
    DenseCounts(text[..2000], true);
    DenseCounts(text[2000..to], false);
  }

  // ---------------------------------------------------------------- what clean really does

  /** `clean` sends a transcript in one request when its bytes alone are sure to fit, without asking for a count,
      or when its count is within the packing budget; the reply decides. It raises what kept the count away, and
      splits otherwise. */
  lemma OnePassWhen(contextTokens: int, transcript: string, tally: Tally, model: Model)
    ensures var budget := BudgetForContext(contextTokens);
      var outcome := CleanOutcome(transcript, tally, budget, model);
      && (Utf8Length(transcript) <= budget.inputTokens - 32
          || (tally.Tokens? && tally.count <= budget.inputTokens) ==>
            outcome == match model(0, transcript) case Text(text) => Cleaned(text) case other => Raised(other))
      && (Utf8Length(transcript) > budget.inputTokens - 32 ==>
            && (tally.TallyTimedOut? ==> outcome == Raised(TimedOut))
            && (tally.TallyUnavailable? ==> outcome == Raised(Unavailable)))
  {
    WindowIsDivided(contextTokens);
  }

  /** The largest piece size at which `count` tokens over `n` characters come to at most 85 percent of the packing
      budget in a piece, or 1 if even a single character is too much. */
  predicate SizedFor(limit: nat, packed: nat, n: nat, count: nat) {
    && 1 <= limit
    && (100 * (count * limit) <= 85 * (packed * n) || limit == 1)
    && 85 * (packed * n) < 100 * (count * (limit + 1))
  }

  /** A transcript that does not go in one pass is cut by the largest limit at which a piece of average density
      stays within 85 percent of the packing budget, or into single characters, and the outcome is what becomes
      of the pieces: each answered, or left as it was, in order; nothing is sent after the first timeout. */
  lemma SplitsByDensity(contextTokens: int, transcript: string, count: nat, model: Model)
    returns (limit: nat, stop: nat)
    requires !OnePass(transcript, Tokens(count), BudgetForContext(contextTokens))
    ensures SizedFor(limit, PackedTokens(BudgetForContext(contextTokens)), |transcript|, count)
    ensures var pieces := PiecesOf(transcript, limit);
      var outcome := CleanOutcome(transcript, Tokens(count), BudgetForContext(contextTokens), model);
      && StopsAt(pieces, limit, model, 0, stop)
      && (outcome == Raised(Unavailable) <==> RuntimeLost(pieces, limit, model, 0, stop))
      && (!RuntimeLost(pieces, limit, model, 0, stop) ==>
            exists results: seq<string> :: outcome == Cleaned(Joined(results))
              && AreResults(pieces, 0, limit, model, stop, results))
  {
    var packed, n := PackedTokens(BudgetForContext(contextTokens)), |transcript|;
    limit := CharacterLimit(n, count, packed);
    WindowIsDivided(contextTokens);
    Utf8AtMostFour(transcript);
    LargestLimit(packed, n, count);
    var pieces := PiecesOf(transcript, limit);
    stop := FirstStop(pieces, limit, model, 0);
    StitchingIsFaithful(pieces, 0, limit, model, stop);
  }

  lemma LargestLimit(packed: nat, n: nat, tokens: nat)
    requires 0 < tokens && 0 < n
    ensures SizedFor(CharacterLimit(n, tokens, packed), packed, n, tokens)
  {
    var top, bottom := packed * 85 * n, 100 * tokens;
    var quotient := QuotientIs(top, bottom);
    LargestQuotient(packed, n, tokens, top, bottom, quotient);
  }

  lemma QuotientIs(a: nat, b: nat) returns (q: nat)
    requires b > 0
    ensures q == a / b && q * b <= a < (q + 1) * b
  {
    q := a / b;
    QuotientBound(a, b);
    QuotientTop(a, b);
  }

  lemma LargestQuotient(packed: nat, n: nat, tokens: nat, top: nat, bottom: nat, quotient: nat)
    requires 0 < tokens && top == packed * 85 * n && bottom == 100 * tokens
    requires quotient * bottom <= top < (quotient + 1) * bottom
    ensures SizedFor(if quotient > 1 then quotient else 1, packed, n, tokens)
  {
    assert top == 85 * (packed * n);
    assert quotient * bottom == 100 * (tokens * quotient);
    assert (quotient + 1) * bottom == 100 * (tokens * (quotient + 1));
    if quotient == 0 {
      assert tokens * 2 >= tokens;
    }
  }

  lemma QuotientTop(a: nat, b: nat)
    requires b > 0
    ensures a < (a / b + 1) * b
  {
    assert a == (a / b) * b + a % b;
  }

  lemma {:induction false} StitchedAgree(pieces: seq<string>, from: nat, limit: nat, one: Model, other: Model)
    requires from <= |pieces|
    requires forall k :: from <= k < |pieces| && |pieces[k]| <= limit ==> one(k, pieces[k]) == other(k, pieces[k])
    ensures Stitched(pieces, from, limit, one) == Stitched(pieces, from, limit, other)
    decreases |pieces| - from
  {
    if from < |pieces| {
      StitchedAgree(pieces, from + 1, limit, one, other);
    }
  }

  /** No piece that is sent is denser than the transcript's average by more than the margin allows for. */
  ghost predicate Even(transcript: string, tokenizer: string -> nat, limit: nat) {
    forall piece <- PiecesOf(transcript, limit) :: |piece| <= limit ==>
      && tokenizer(piece) <= Utf8Length(piece)
      && 85 * (tokenizer(piece) * |transcript|) <= 100 * (tokenizer(transcript) * |piece|)
  }

  /** Splitting keeps every request within the window: for a transcript of even density the outcome depends on
      nothing but the model's replies to requests that fit. */
  lemma OnlyFittingRequestsMatter(contextTokens: int, transcript: string, tokenizer: string -> nat,
                                  one: Model, other: Model)
    requires var budget := BudgetForContext(contextTokens);
      && !OnePass(transcript, Tokens(tokenizer(transcript)), budget)
      && (forall limit: nat :: SizedFor(limit, PackedTokens(budget), |transcript|, tokenizer(transcript)) ==>
            Even(transcript, tokenizer, limit))
      && (forall k: nat, piece: string :: RequestFits(piece, tokenizer(piece), budget) ==>
            one(k, piece) == other(k, piece))
    ensures var budget, tally := BudgetForContext(contextTokens), Tokens(tokenizer(transcript));
      CleanOutcome(transcript, tally, budget, one) == CleanOutcome(transcript, tally, budget, other)
  {
    var budget, total := BudgetForContext(contextTokens), tokenizer(transcript);
    var limit := CharacterLimit(|transcript|, total, PackedTokens(budget));
    var pieces := PiecesOf(transcript, limit);
    WindowIsDivided(contextTokens);
    Utf8AtMostFour(transcript);
    LargestLimit(PackedTokens(budget), |transcript|, total);
    assert Even(transcript, tokenizer, limit);
    forall k | 0 <= k < |pieces| && |pieces[k]| <= limit
      ensures one(k, pieces[k]) == other(k, pieces[k])
    {
      assert pieces[k] in pieces;
      EvenPiecesFit(contextTokens, transcript, total, pieces[k], tokenizer(pieces[k]));
    }
    StitchedAgree(pieces, 0, limit, one, other);
  }

  // ---------------------------------------------------------------- every exit

  /** Every exit of `clean` for a model that adds nothing: the one-pass path returns the transcript or raises
      the one reply, a token count that cannot be had is raised, and the split path always returns the
      transcript. */
  lemma CleanIsLossless(contextTokens: int, transcript: string, tally: Tally, model: Model)
    requires AddsNothing(model)
    ensures var budget := BudgetForContext(contextTokens);
      var outcome := CleanOutcome(transcript, tally, budget, model);
      if OnePass(transcript, tally, budget) then
        outcome == (if model(0, transcript).Text? then Cleaned(transcript) else Raised(model(0, transcript)))
      else if tally.Tokens? then outcome == Cleaned(transcript)
      else outcome == Raised(if tally.TallyTimedOut? then TimedOut else Unavailable)
  {
    var budget := BudgetForContext(contextTokens);
    assert model(0, transcript) in {Text(transcript), RejectedAnswer, TimedOut};
    if tally.Tokens? && !OnePass(transcript, tally, budget) {
      SplitPathIsLossless(transcript, CharacterLimit(|transcript|, tally.count, PackedTokens(budget)), model);
    }
  }

  // ---------------------------------------------------------------- the deadline

  /** A run of requests, each taking some time within its own timeout; what is left at the end. */
  ghost predicate Paced(left: real, budgetSeconds: real, spent: seq<real>)
    decreases |spent|
  {
    spent == [] || (0.0 <= spent[0] <= StepTimeout(left, budgetSeconds, |spent|)
                    && Paced(left - spent[0], budgetSeconds, spent[1..]))
  }

  function Total(spent: seq<real>): real {
    if spent == [] then 0.0 else spent[0] + Total(spent[1..])
  }

  lemma DivideBoth(a: real, b: real, n: real)
    requires a >= b && n > 0.0
    ensures a / n >= b / n
  {
    assert (a - b) / n >= 0.0;
    assert a / n - b / n == (a - b) / n;
  }

  lemma ShareTimes(left: real, n: real)
    requires n > 0.0
    ensures left / n * n == left && left - left / n == left / n * (n - 1.0)
  {
    assert left / n * n == left;
    assert left / n * (n - 1.0) == left / n * n - left / n;
  }

  lemma ProductBelow(a: real, b: real, n: real)
    requires a >= b && n >= 0.0
    ensures a * n >= b * n
  {
    assert a * n - b * n == (a - b) * n;
  }

  lemma QuarterShare(left: real, n: real)
    requires n > 0.0 && left >= n / 4.0
    ensures left / n >= 0.25
  {
    DivideBoth(left, n / 4.0, n);
    assert n / 4.0 / n == 0.25;
  }

  lemma ShareKeepsPace(left: real, n: nat)
    requires n >= 1 && left >= n as real / 4.0
    ensures left / n as real >= 0.25
    ensures left - left / n as real >= (n - 1) as real / 4.0
    ensures left / n as real <= left
  {
    var share, m := left / n as real, n as real - 1.0;
    assert (n - 1) as real == m;
    QuarterShare(left, n as real);
    ShareTimes(left, n as real);
    ProductBelow(share, 0.25, m);
    assert left - share >= 0.25 * m && 0.25 * m == m / 4.0;
  }

  lemma {:induction false} PaceHolds(left: real, budgetSeconds: real, spent: seq<real>)
    requires left <= budgetSeconds && left >= |spent| as real / 4.0 && Paced(left, budgetSeconds, spent)
    ensures Total(spent) <= left
    decreases |spent|
  {
    if spent != [] {
      ShareKeepsPace(left, |spent|);
      PaceHolds(left - spent[0], budgetSeconds, spent[1..]);
    }
  }

  function Quarters(n: nat): seq<real> {
    if n == 0 then [] else [0.25] + Quarters(n - 1)
  }

  lemma {:induction false} QuartersPaced(left: real, budgetSeconds: real, n: nat)
    ensures Paced(left, budgetSeconds, Quarters(n)) && Total(Quarters(n)) == n as real / 4.0 && |Quarters(n)| == n
    decreases n
  {
    if n > 0 {
      QuartersPaced(left - 0.25, budgetSeconds, n - 1);
      assert Quarters(n)[1..] == Quarters(n - 1);
    }
  }

  /** Even shares finish by the deadline on every run exactly when each piece can be given the minimum
      step: the quarter-second floor overruns any shorter budget. */
  lemma DeadlineHoldsIff(left: real, budgetSeconds: real, n: nat)
    requires left <= budgetSeconds
    ensures (forall spent: seq<real> :: |spent| == n && Paced(left, budgetSeconds, spent) ==> Total(spent) <= left)
      <==> left >= n as real / 4.0
  {
    if left >= n as real / 4.0 {
      forall spent: seq<real> | |spent| == n && Paced(left, budgetSeconds, spent)
        ensures Total(spent) <= left
      {
        PaceHolds(left, budgetSeconds, spent);
      }
    } else {
      QuartersPaced(left, budgetSeconds, n);
      assert Total(Quarters(n)) > left;
    }
  }

  /** Every request uses up its timeout. */
  ghost predicate Exhausting(left: real, budgetSeconds: real, spent: seq<real>)
    decreases |spent|
  {
    spent == [] || (spent[0] == StepTimeout(left, budgetSeconds, |spent|)
                    && Exhausting(left - spent[0], budgetSeconds, spent[1..]))
  }

  /** The shares are even and waste nothing: requests that use up their timeouts get the same time each, and all
      of what was left between them. */
  lemma {:induction false} SharesAreEven(left: real, budgetSeconds: real, spent: seq<real>)
    requires spent != [] && left <= budgetSeconds && left >= |spent| as real / 4.0
    requires Exhausting(left, budgetSeconds, spent)
    ensures forall k :: 0 <= k < |spent| ==> spent[k] == left / |spent| as real
    ensures Total(spent) == left
    decreases |spent|
  {
    var n, rest := |spent|, spent[1..];
    ShareKeepsPace(left, n);
    assert spent[0] == left / n as real;
    if rest == [] {
      assert Total(spent) == spent[0] + Total(rest);
    } else {
      SharesAreEven(left - spent[0], budgetSeconds, rest);
      SameShare(left, n as real);
      forall k | 0 < k < n
        ensures spent[k] == left / n as real
      {
        assert spent[k] == rest[k - 1];
      }
    }
  }

  lemma SameShare(left: real, n: real)
    requires n > 1.0
    ensures (left - left / n) / (n - 1.0) == left / n
  {
    ShareTimes(left, n);
    Cancelled(left / n, n - 1.0);
  }

  lemma Cancelled(a: real, m: real)
    requires m > 0.0
    ensures a * m / m == a
  {
    var quotient := a * m / m;
    assert quotient * m == a * m;
    assert (quotient - a) * m == 0.0;
  }
}
