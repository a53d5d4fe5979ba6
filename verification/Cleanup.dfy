/** Correcting a transcript with a local text model: the token window of app/cleanup/base.py and
    app/cleanup/prompts.py, and the stitching of app/cleanup/llama_server.py.

    The model is an arbitrary function from the number of a call and the text sent to a reply. */
module Cleanup {
  import opened Options
  import opened Scanner
  import opened Chunks

  // ---------------------------------------------------------------- the token window

  const MINIMUM_CONTEXT_TOKENS := 4096
  const PROMPT_OVERHEAD_TOKENS := 640
  const TOKENIZER_MARGIN_TOKENS := 32
  const MINIMUM_OUTPUT_TOKENS := 64
  const JSON_WRAPPER_TOKENS := 24

  datatype TokenBudget = TokenBudget(contextTokens: int, inputTokens: int, outputTokens: int)

  function Max(a: int, b: int): int { if a > b then a else b }

  function Min(a: int, b: int): int { if a < b then a else b }

  /** The source divides by 1 + 1.25 and truncates; the quotient is exactly 4/9 of the usable part. */
  function BudgetForContext(contextTokens: int): TokenBudget {
    var window := Max(MINIMUM_CONTEXT_TOKENS, contextTokens);
    var usable := window - PROMPT_OVERHEAD_TOKENS;
    var input := usable * 4 / 9;
    TokenBudget(window, input, usable - input)
  }

  function CertainBytes(budget: TokenBudget): int {
    Max(1, budget.inputTokens - TOKENIZER_MARGIN_TOKENS)
  }

  function PackedTokens(budget: TokenBudget): int {
    Max(1, Min(budget.inputTokens, budget.outputTokens - JSON_WRAPPER_TOKENS))
  }

  /** The `max_tokens` of one request. */
  function OutputTokenBudget(bytes: nat, budget: TokenBudget): int {
    Min(budget.outputTokens, Max(MINIMUM_OUTPUT_TOKENS, bytes + JSON_WRAPPER_TOKENS))
  }

  /** The source multiplies by the 0.85 margin and truncates. */
  function CharacterLimit(characters: int, tokens: int, budgetTokens: int): (limit: int)
    ensures limit >= 1
  {
    if characters <= 0 || tokens <= 0 then Max(1, budgetTokens)
    else Max(1, budgetTokens * 85 * characters / (100 * tokens))
  }

  function Utf8Length(text: string): nat {
    if text == "" then 0
    else
      (if text[0] < '\U{80}' then 1 else if text[0] < '\U{800}' then 2 else if text[0] < '\U{10000}' then 3 else 4)
      + Utf8Length(text[1..])
  }

  // ---------------------------------------------------------------- replies and outcomes

  datatype Reply = Text(text: string) | RejectedAnswer | TimedOut | Unavailable

  datatype Outcome = Cleaned(text: string) | Raised(reply: Reply)

  type Model = (nat, string) -> Reply

  /** Whether `_complete_pieces` sends a piece to the model at all. */
  predicate Sent(piece: string, limit: nat) {
    |piece| <= limit
  }

  function Extend(piece: string, rest: Option<seq<string>>): Option<seq<string>> {
    if rest.None? then None else Some([piece] + rest.value)
  }

  /** One result per piece, or nothing when the runtime went away. */
  function Stitched(pieces: seq<string>, index: nat, limit: nat, model: Model): Option<seq<string>>
    requires index <= |pieces|
    decreases |pieces| - index
  {
    if index == |pieces| then Some([])
    else
      var piece := pieces[index];
      if !Sent(piece, limit) then Extend(piece, Stitched(pieces, index + 1, limit, model))
      else match model(index, piece)
        case Text(text) => Extend(text, Stitched(pieces, index + 1, limit, model))
        case RejectedAnswer => Extend(piece, Stitched(pieces, index + 1, limit, model))
        case TimedOut => Some(pieces[index..])
        case Unavailable => None
  }

  function Rejoined(results: Option<seq<string>>): Outcome {
    if results.None? then Raised(Unavailable) else Cleaned(Joined(results.value))
  }

  function Prefixed(done: seq<string>, rest: Option<seq<string>>): Option<seq<string>> {
    if rest.None? then None else Some(done + rest.value)
  }

  lemma PrefixedExtend(done: seq<string>, piece: string, rest: Option<seq<string>>)
    ensures Prefixed(done, Extend(piece, rest)) == Prefixed(done + [piece], rest)
  {
    if rest.Some? {
      assert done + ([piece] + rest.value) == done + [piece] + rest.value;
    }
  }

  lemma PrefixedNothing(rest: Option<seq<string>>)
    ensures Prefixed([], rest) == rest
  {
    if rest.Some? {
      assert [] + rest.value == rest.value;
    }
  }

  method CompletePieces(pieces: seq<string>, limit: nat, model: Model) returns (outcome: Outcome)
    ensures outcome == Rejoined(Stitched(pieces, 0, limit, model))
  {
    var cleaned: seq<string> := [];
    var index := 0;
    ghost var whole := Stitched(pieces, 0, limit, model);
    PrefixedNothing(whole);
    while index < |pieces|
      invariant index <= |pieces|
      invariant whole == Prefixed(cleaned, Stitched(pieces, index, limit, model))
    {
      var piece := pieces[index];
      PrefixedExtend(cleaned, piece, Stitched(pieces, index + 1, limit, model));
      if |piece| > limit {
        cleaned := cleaned + [piece];
        index := index + 1;
        continue;
      }
      var reply := model(index, piece);
      match reply {
        case Text(text) =>
          PrefixedExtend(cleaned, text, Stitched(pieces, index + 1, limit, model));
          cleaned := cleaned + [text];
        case RejectedAnswer =>
          cleaned := cleaned + [piece];
        case TimedOut =>
          cleaned := cleaned + pieces[index..];
          return Cleaned(Joined(cleaned));
        case Unavailable =>
          return Raised(Unavailable);
      }
      index := index + 1;
    }
    assert cleaned + [] == cleaned;
    return Cleaned(Joined(cleaned));
  }

  function Answered(reply: Reply): Outcome {
    if reply.Text? then Cleaned(reply.text) else Raised(reply)
  }

  /** What the runtime's own tokenizer answers, when it is asked. */
  datatype Tally = Tokens(count: nat) | TallyTimedOut | TallyUnavailable

  predicate OnePass(transcript: string, tally: Tally, budget: TokenBudget) {
    || Utf8Length(transcript) <= CertainBytes(budget)
    || (tally.Tokens? && tally.count <= PackedTokens(budget))
  }

  function CleanOutcome(transcript: string, tally: Tally, budget: TokenBudget, model: Model): Outcome {
    if OnePass(transcript, tally, budget) then Answered(model(0, transcript))
    else match tally
    case TallyTimedOut => Raised(TimedOut)
    case TallyUnavailable => Raised(Unavailable)
    case Tokens(count) =>
      var limit := CharacterLimit(|transcript|, count, PackedTokens(budget));
      Rejoined(Stitched(PiecesOf(transcript, limit), 0, limit, model))
  }

  method Clean(transcript: string, tally: Tally, budget: TokenBudget, model: Model)
    returns (outcome: Outcome)
    ensures outcome == CleanOutcome(transcript, tally, budget, model)
  {
    if Utf8Length(transcript) <= CertainBytes(budget) {
      return Answered(model(0, transcript));
    }
    match tally {
      case TallyTimedOut => return Raised(TimedOut);
      case TallyUnavailable => return Raised(Unavailable);
      case Tokens(count) =>
        if count <= PackedTokens(budget) {
          return Answered(model(0, transcript));
        }
        var limit := CharacterLimit(|transcript|, count, PackedTokens(budget));
        var packing := Pack(transcript, limit);
        outcome := CompletePieces(packing.pieces, limit, model);
    }
  }

  // ---------------------------------------------------------------- the clock

  const MINIMUM_STEP_SECONDS: real := 0.25

  /** `remaining`, with the time left until the deadline already read off the clock. */
  function Remaining(left: real, ceiling: real): real {
    var bounded := if ceiling < left then ceiling else left;
    if bounded > MINIMUM_STEP_SECONDS then bounded else MINIMUM_STEP_SECONDS
  }

  /** The timeout of the next request: an even share of what is left, over the pieces that are left. */
  function StepTimeout(left: real, budgetSeconds: real, pieces: nat): real
    requires pieces > 0
  {
    Remaining(left, Remaining(left, budgetSeconds) / pieces as real)
  }
}
