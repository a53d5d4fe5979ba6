# VocaGateway: a verified model of its concurrent and text-rewriting core

VocaGateway is a transcription gateway. This project models the parts of it where a mistake would be
silent: a decode slot that leaks, a word lost between two cleanup requests, a session that two jobs
believe they own, a model that reads as installed before it is complete. Each part is a few small Dafny
modules.

| part | modules |
|---|---|
| decode admission: counters, slot allocator, tickets, every interleaving of them | `Metrics`, `Limiter`, `Tickets`, `Admission`, `AdmissionSafety`, `AdmissionSteps` |
| transcript packing: scanners, the splitting and packing code, what the pieces are | `Scanner`, `Chunks`, `ChunkLaws`, `PackingTheorems`, `Boundaries` |
| transcript correction: token window, stitching, deadline | `Cleanup`, `CleanupTheorems` |
| engine leases | `Leases` |
| session rows and jobs | `Sessions`, `Finishing`, `SessionRuns`, `SessionSteps` |
| model downloads and installation | `Downloads`, `DownloadRuns`, `Installs`, `InstallRuns` |
| protected spans, spacing and sentences under the writing styles | `Spans`, `Styles`, `StyleTheorems`, `SpacingTheorems`, `StyleMeaning`, `StyleLaws` |

## How the model is built

An object whose methods update its fields is a class. Each of its methods is proved equal to a function
on the object's value, so that the whole-run results can speak about values: `Limiter.DecodeLimiter`,
`Tickets.Ticket`, `Metrics.RuntimeMetrics`, `Leases.LeaseBook`, `Leases.EngineManager`,
`Sessions.SessionRepository`, `Sessions.SessionJob`, `Downloads.DownloadAttempt`, `Installs.Site`. A loop
of the source is a loop here, again proved equal to a function.

Concurrency is a step system per part (`Admission`, `Leases`, `SessionRuns`, `DownloadRuns`): a state, an
event type, `Enabled`, `Step`, and `Runs`. Code between two suspensions is one step. Results hold for
every sequence of enabled events, so for every schedule, every arrival order and every moment a
cancellation or a timeout can strike. The steps are built from the very functions the class methods are
proved equal to.

Clocks, the network, the text model, the speech engine, hashing and the segmenter are parameters, or
choices an event makes. Where the model allows more than the code does, a result about every run of the
model covers every run of the code.

### Admission

A seat in the deque is named by the ticket that waits on it, since a ticket calls `acquire` at most once.
A ticket is suspended in one of four places: before `acquire`, at the checkpoint after a fast grant, on
its seat, and in the second disconnect probe. A cancelled task resumes with an exception; whether it was a
timeout (`Busy`) or a cancellation or a client that left (`Quiet`) is chosen by the event, and so is the
answer of the second probe. A ticket's `with` block ends in the stretch that raised. The limit may change
between any two steps and is at least 1, as `parallel_limit` guarantees. `Journal` records the call order,
the grants and the number of arrivals turned away; no transition reads it. `AdmissionSteps` says of each event,
in phases, owners, waiters and counters alone, what becomes of its ticket.

### Packing and correction

The four patterns of app/cleanup/chunks.py are concrete scanners: in each of them consecutive character
classes are disjoint, so the greedy match is the only match. `Chunks.PiecesOf` is the whole of `pack`.
`Boundaries` describes in characters where it may cut, as far as paragraph ends, sentence ends and words go.
A piece bound of the form "at most the limit, or a suffix that is one token or one whitespace run" is what
the abbreviation pass keeps; `OversizeIsSolid` is its final form. One branch, splitting an abbreviation run
longer than the limit, is modelled although `pack` never reaches it with a run that long.

`int(usable / 2.25)` and the 0.85 margin of `character_limit` are exact rational floors.
A model for correction is an arbitrary function from the number of the call and the text to a reply:
accepted text, a rejection, a timeout, or a runtime that is gone.

Results about correction that are exact conditions: `DeadlineHoldsIff`, even shares keep every run within
the deadline if and only if a quarter of a second is left for each piece, because `remaining` never returns
less than that. `RequestFitsIff`, a request for a piece fits the window if and only if its tokens leave room
for its own answer, which for a long piece means that they are within the packing budget. `CleanIsLossless`,
what each exit of `clean` gives with a model that adds nothing.

The comment at app/cleanup/base.py:56-59 says that a bad token estimate costs headroom rather than a dropped
system instruction. The estimate is an average over the transcript, and that is what `EvenPiecesFit` needs:
a piece at most 100/85 times as dense as the transcript fits. A denser one may not: `DensePieceOverflows` is
a transcript, with a tokenizer that charges for every character and never makes more tokens than bytes, of
which a piece is sent that does not fit the window. `WorstCountDecides` is the condition that can be checked
before a request: the smaller of the count of the whole transcript and the bytes of the piece decides.

### Sessions

Every SQL statement is one atomic step on a table of rows. The conditional updates test the state only and
never the job. In every run, a session is `transcribing` only while the job that claimed it last has yet to
record its outcome (`NoneIsStranded`), and two claims are separated by a step that took the row out of
`transcribing` (`ClaimsAreSeparated`).

The comment at app/service.py:713-715 says a job cannot overwrite a session that was re-uploaded while it
ran. That holds until the new upload is claimed while the old job still runs: `StaleJobsCanCollide` is a run
in which the old job's text is then stored under the new job's claim. The exact condition is
`OneRunnerIffNotOvertaken`: a step keeps one running job per `transcribing` session if and only if it is not
a successful claim of a session that some job is still running on. `StaleResultIffTwoRunners` says that a
job other than the latest could store its result exactly when a `transcribing` session has two running jobs,
and `StoredResultsAreLatest` that without overtaking claims every stored result belongs to the latest claim,
uploads and deletions during jobs allowed.

The comments at app/service.py:768-770 and app/storage.py:303-304 promise that a superseded job never fails a
newer upload. One running job per session is not enough for that: in `LateFailureCanCollide` a job that has
stored its result, and whose metrics raise after a re-upload was claimed, marks the later job's row failed
while that job is still running. The exact condition is `OneLiveIffNotOvertaken`: a step keeps one unfinished
job per `transcribing` session, jobs that only write their metrics included, if and only if it is not a
successful claim of a session that some job still works on. `StaleFailureIffTwoLive` says that the failure of a
job other than the latest could change a row exactly when a `transcribing` session has two unfinished jobs, and
`OutcomesAreLatest` that in runs without such claims every outcome that changes a row is the latest claim's.

`ExclusiveIffUndisturbed` is about a stronger invariant, in which the row stays in step with its job until the
job is over, its metrics included; uploads and deletions break that one as soon as they happen. What exactly a
run records (`OutcomesAreRecorded`, `ResultsAreStored`) is stated for runs that keep it.
`ConditionsAreOrdered` relates the three conditions on a run.

### Downloads and installation

Chunk writes, rollbacks, removal and rename are single steps. Files of one batch have distinct names. The
hash is an arbitrary function of the bytes. An installation pipeline takes the number of the step at which
something fails or a cancellation arrives, so its contract covers a fault at every step. `Trail` is the list
of values the final path takes during one attempt; each pipeline is proved to produce exactly that list, and
`NeverReportsPartial` is about any sequence of attempts and deletions of one model. What a folder download
brings is what a run of the batch machine left; a single file is checked against the pin it was fetched with;
the tree of an archive is one whose archive matched its pin. A successful archive install leaves the
extraction directory behind, with everything the archive held beside the model folder (app/model_manager.py:463-480);
the next attempt removes it.

### Styles

Each regular-expression substitution is a pass over the characters with a little state; `Safe` is the
property of a pass that keeps placeholders whole. The sentinels are two private-use characters, because the
constants at app/text_styles.py:127-128 do not show in the text of the source. The finder of protected spans is
arbitrary. Letter and case tables are assumed to give no sentinel that was not there (`SoundTables`), the
language's punctuation to contain no digit and no sentinel (`PlainPunctuation`), and, for the very casual
and the excited style, an accepted answer of the segmenter library to cut no placeholder
(`SegmenterSpares`); the repository's own fallback segmenter is proved to cut none.

`StylesKeepMeaning` holds for every way to read a text that does not hear whitespace, case and the language's marks
(`Deaf`). `StyleLaws` says what each style does to letters, marks and sentences; it asks that terminators are
neither whitespace nor opening brackets (`ProperMarks`), and that letters are neither.

`CleanKeepsInk` goes all the way from the transcript to the styled text. Whether a terminator is added is decided
by the masked text: a transcript that is one protected span always gets one (`WholeSpanGetsTerminator`), so
"U.S." becomes "U.S.." (`AcronymGetsTwoStops`).

## Model

| member | source | states |
|---|---|---|
| Metrics.RuntimeMetrics.OfferQueue | app/metrics.py:105-121 | a caller is admitted exactly when line and decodes together leave room; a refusal is counted once, an admission lengthens the line by one |
| Metrics.RuntimeMetrics.Dequeue | app/metrics.py:123-127 | one place is given back, and the rejection is counted if it was one |
| Metrics.RuntimeMetrics.Reject | app/metrics.py:129-131 | only the rejection count changes |
| Metrics.RuntimeMetrics.Start | app/metrics.py:133-137 | one more decode, and one place in line less for a ticket that was queued |
| Metrics.RuntimeMetrics.Finish | app/metrics.py:139-141 | one decode less |
| Limiter.DecodeLimiter.Wake | app/service.py:472-478 | free slots go to the head of the deque one by one; seats nobody waits on are dropped without a grant |
| Limiter.DecodeLimiter.Release | app/service.py:468-470 | a slot is freed and handed on in the same stretch |
| Limiter.DecodeLimiter.Enter | app/service.py:439-455 | wakes first; then a fast grant only if nobody is queued and a slot is free, a refusal for a caller that may not wait, or a new last seat |
| Limiter.DecodeLimiter.GiveUp | app/service.py:459-466 | a caller that stops waiting passes its slot on if it had been handed one, and only leaves the deque otherwise |
| Limiter.DecodeLimiter.CancelSeat | app/service.py:454-458 | cancelling a waiting task cancels a pending seat and cannot revoke a granted one |
| Tickets.Ticket.Open | app/service.py:293-313 | no ticket exactly when a waiting caller finds the line full; otherwise a ticket that is in line exactly if it waits |
| Tickets.Ticket.Leave | app/service.py:415-421 | the place in line is given up if there was one, and a busy exit is counted exactly once either way |
| Tickets.Ticket.Enter | app/service.py:334-343 | the ticket is granted, seated, or refused as busy, limiter and counters in step |
| Tickets.Ticket.Cancel | app/service.py:389-396 | cancels the seat, or leaves a cancellation behind for the next resumption |
| Tickets.Ticket.Resume | app/service.py:444-466 | the ticket goes on with its slot, or ends with its slot passed on and its place in line given up |
| Tickets.Ticket.Settle | app/service.py:340-346 | after the second probe the ticket starts decoding, or frees its slot and ends |
| Tickets.Ticket.Finish | app/service.py:238-240 | slot and decode count are given back together |
| Admission.WakingKeeps | app/service.py:472-478 | one wake raises the active count by exactly the number of tickets it makes owners |
| Admission.WakingInOrder | app/service.py:472-478 | grants followed by the deque stay in call order through a wake, cancelled seats included |
| Admission.StepKeeps | app/service.py:283-478 | every step of every ticket keeps the slot, counter, order and wakeup invariants |
| AdmissionSafety.SlotsAreConserved | app/service.py:439-478 | in every reachable state the active count is the number of tickets that own a slot, and whatever frees a slot finds one, so the clamp in release never acts |
| AdmissionSafety.GrantsAreExact | app/service.py:442-451 | a step makes a ticket an owner exactly if it is granted a slot, and no grant goes past the limit of that moment |
| AdmissionSafety.FirstComeFirstServed | app/service.py:424-432 | all grants, handed over or fast, were made in the order acquire was called, and everyone still waiting called later than everyone granted |
| AdmissionSafety.RanksAreCallOrder | app/service.py:439-455 | the recorded call order is real: ranks are given at acquire, never change, and grow |
| AdmissionSafety.NoLostWakeup | app/service.py:439-478 | under a fixed limit a pending seat implies that every slot is taken |
| AdmissionSafety.WakeupAfterRaise | app/service.py:440-441 | after any limit change the next acquire or release leaves a pending seat only if the limit is reached |
| AdmissionSafety.WaitersAreServed | app/service.py:424-432 | from every reachable state with a waiter, tickets that own a slot need only take their own steps, and some run of such steps makes the waiter an owner; while it waits there is always one to take |
| AdmissionSafety.DrainingEnds | app/service.py:443-478 | such steps come to an end: no run of them is longer than the work the tickets have left |
| AdmissionSafety.TicketsAreConserved | app/metrics.py:105-141 | queue depth, active decodes and rejections equal the tickets in line, decoding and refused in every reachable state, decodes never exceed active slots, and no clamp acts |
| AdmissionSafety.TicketsNeverReturn | app/service.py:415-421 | over every run a ticket that left the line is never in it again and one that ended never changes |
| AdmissionSafety.AdmissionIsBounded | app/metrics.py:105-121 | under a fixed limit the waiting tickets in line or decoding never exceed slots plus allowance, whatever streams are mixed in; all together stay within one more limiter of slots, and within slots plus allowance if there are no streams |
| AdmissionSafety.StreamsReachTheWiderBound | app/service.py:242-252 | for every limit and allowance a run reaches the wider bound: a full line of clips and every slot taken by a stream |
| AdmissionSteps.CallersArePlaced | app/service.py:439-455 | a caller gets a free slot at once; when others own every slot, one that may wait is seated last and one that may not is refused, counted, and never seated; no other ticket changes |
| AdmissionSteps.CancellationsArrive | app/service.py:454-466 | a cancelled waiter can resume at once and cannot succeed, and no slot, counter or other ticket changes |
| AdmissionSteps.NobodyElseCuts | app/service.py:472-478 | no other event cuts a waiting ticket short; it leaves it as it was or grants it a slot |
| AdmissionSteps.ResumptionDecides | app/service.py:443-466 | a ticket that was granted a slot and not cut short goes on with it; one that was cut short ends as told, with neither slot nor seat |
| AdmissionSteps.VerdictDecides | app/service.py:340-359 | a kept ticket decodes and counts as active until it finishes; a dropped, finished or departing one ends, and a busy end is counted once |
| AdmissionSteps.ArrivalsAreAdmittedIff | app/metrics.py:105-121 | an arrival that may wait is turned away, and counted, exactly when the tickets in line and decoding fill slots and allowance |
| Scanner.NextMatchIsFirst | app/cleanup/chunks.py:22-35 | the scanner's match is the leftmost one |
| Scanner.WhitespaceSplitsTokens | app/cleanup/chunks.py:22-35 | what lies before a whitespace match holds no whitespace, and the match is all whitespace |
| Chunks.SplitAfter | app/cleanup/chunks.py:188-198 | the loop cuts after every match, keeps the rest, and never returns nothing |
| Chunks.SplitWords | app/cleanup/chunks.py:201-213 | tokens and whitespace runs, a run glued to the word before it when they fit |
| Chunks.AppendWhitespace | app/cleanup/chunks.py:216-222 | a run joins the last piece if that fits and stands alone otherwise |
| Chunks.BreakOversized | app/cleanup/chunks.py:176-185 | units longer than the limit, and only those, are split further |
| Chunks.IsAbbreviationFragment | app/cleanup/chunks.py:164-173 | true exactly of a non-empty chain of abbreviation matches with no gap |
| Chunks.JoinFollower | app/cleanup/chunks.py:144-150 | the held run is glued to its follower unless that would make a small follower oversize |
| Chunks.HoldAbbreviation | app/cleanup/chunks.py:132-141 | the buffer is flushed before it would overflow, and never ends above the limit |
| Chunks.AttachAbbreviations | app/cleanup/chunks.py:102-129 | the loop over units equals its specification, the leftover buffer included |
| Chunks.PackUnits | app/cleanup/chunks.py:84-99 | the greedy loop equals its specification |
| Chunks.Pack | app/cleanup/chunks.py:52-81 | a limit below one is refused; otherwise the pieces are those of all four passes |
| ChunkLaws.WordsLaws | app/cleanup/chunks.py:73-77 | paragraph, sentence and word splitting keep the text, cut only next to whitespace, and leave only units that fit or are one token or one whitespace run |
| ChunkLaws.AttachLaws | app/cleanup/chunks.py:102-161 | gluing abbreviations keeps the text and the cuts, and no unit exceeds its own long run by more than the limit |
| ChunkLaws.FragmentsAreShort | app/cleanup/chunks.py:164-173 | an oversize unit is never an abbreviation fragment |
| ChunkLaws.AttachShape | app/cleanup/chunks.py:121-150 | a unit is glued to the held run exactly if they fit together or the unit is oversize, and the run stays whole otherwise; a fragment is held, anything else is attached |
| ChunkLaws.TitlesStayWithFollowers | app/cleanup/chunks.py:102-150 | a run of titles within the limit ends in one unit with its follower whenever the two fit together or the follower is oversize anyway, and directly before it otherwise, whatever is around them |
| PackingTheorems.ExactReassembly | app/cleanup/chunks.py:52-64 | joining the pieces gives the transcript back exactly, for every text and limit |
| PackingTheorems.TokensStayWhole | app/cleanup/chunks.py:52-81 | every whitespace-free stretch of the transcript lies inside one piece |
| PackingTheorems.OversizeIsSolid | app/cleanup/chunks.py:52-81 | a piece above the limit ends in one token or whitespace run that is itself above it, and exceeds that run by at most the limit |
| PackingTheorems.PiecesFit | app/cleanup/chunks.py:52-81 | without such a run every piece is within the limit |
| PackingTheorems.PiecesAreFew | app/cleanup/chunks.py:84-99 | half the number of pieces, rounded down, times limit plus one is at most the length of the text |
| PackingTheorems.PackingIsOptimal | app/cleanup/chunks.py:84-99 | no split into consecutive groups that are small enough or single units has fewer groups |
| PackingTheorems.GreedyIsOptimal | app/cleanup/chunks.py:84-99 | greedy packing is itself such a split of the units, so it attains the minimum |
| PackingTheorems.LongRunsArePacked | app/cleanup/chunks.py:153-161 | a run of titles longer than the limit is cut behind titles only, into the fewest pieces they allow |
| Boundaries.BoundariesAreNatural | app/cleanup/chunks.py:52-81 | every boundary follows a paragraph; or, in a paragraph above the limit, a sentence; or, in a sentence above the limit, whitespace, or a word with which the whitespace behind it is above the limit |
| Boundaries.ParagraphsStayWhole | app/cleanup/chunks.py:73-77 | a paragraph within the limit lies in one piece |
| Boundaries.SentencesStayWhole | app/cleanup/chunks.py:73-77 | a sentence within the limit lies in one piece, in whatever paragraph |
| Boundaries.CutAfterCuts | app/cleanup/chunks.py:188-198 | the paragraph and the sentence pass cut exactly at the ends of paragraphs and of sentences |
| Boundaries.WordsOfCuts | app/cleanup/chunks.py:201-222 | the word pass cuts behind whitespace, and before it only where it does not fit the word it follows |
| Boundaries.TitlesTravelWithFollowers | app/cleanup/chunks.py:102-150 | a run of titles within the limit lies in one piece with a follower it fits with |
| Cleanup.CompletePieces | app/cleanup/llama_server.py:150-180 | the loop with its three exceptional exits equals its specification |
| Cleanup.Clean | app/cleanup/llama_server.py:124-148 | short, counted and split transcripts take their own paths, failed token counts included |
| CleanupTheorems.StitchingIsFaithful | app/cleanup/llama_server.py:150-180 | one result per piece, in order, each the model's answer or the piece, pieces from the first timeout on untouched; the call fails exactly when the runtime is lost before that |
| CleanupTheorems.SplitPathIsLossless | app/cleanup/llama_server.py:146-180 | if every reply is an echo, a rejection or a timeout, in any mixture, the split path returns the transcript |
| CleanupTheorems.CleanIsLossless | app/cleanup/llama_server.py:124-148 | every exit with such a model: the one-pass path returns the transcript or raises its one failure, a token count that fails is raised, and the split path returns the transcript |
| CleanupTheorems.OnePassWhen | app/cleanup/llama_server.py:138-145 | a transcript whose bytes are sure to fit is sent without a count, one whose count fits is sent whole, the reply decides, and a failed count is raised |
| CleanupTheorems.SplitsByDensity | app/cleanup/llama_server.py:146-180 | any other transcript is cut by the largest limit at which average density stays within 85 percent of the packing budget, or 1, and the outcome is what becomes of those pieces |
| CleanupTheorems.OnlyFittingRequestsMatter | app/cleanup/llama_server.py:146-180 | for a transcript of even density the outcome of a split depends only on the replies to requests that fit the window |
| CleanupTheorems.Utf8ByRange | app/cleanup/llama_server.py:139-139 | a character takes one to four bytes, by its code point |
| CleanupTheorems.Utf8Adds | app/cleanup/llama_server.py:139-139 | the bytes of a text are those of its parts |
| CleanupTheorems.WindowIsDivided | app/cleanup/base.py:67-120 | overhead, input and output add up to the window, the packing budget is the whole input half, and the sure byte count leaves the tokenizer margin |
| CleanupTheorems.OnePassFits | app/cleanup/prompts.py:93-111 | every one-pass request fits the window, and the transcript said again in its JSON wrapper fits the tokens asked for |
| CleanupTheorems.SplitsFollowDensity | app/cleanup/chunks.py:38-49 | a transcript that is split is longer than its limit, and a full piece at average density takes at most 85 percent of the packing budget |
| CleanupTheorems.RequestFitsIff | app/cleanup/prompts.py:93-111 | exactly when a request fits the window and its answer the tokens asked for: always within the packing budget, only within it for a long piece, and as long as the answer has room for a shorter one |
| CleanupTheorems.EvenPiecesFit | app/cleanup/chunks.py:38-49 | every piece that is sent and is at most 100/85 times as dense as its transcript fits |
| CleanupTheorems.WorstCountDecides | app/cleanup/prompts.py:93-111 | a request fits whatever the tokenizer does, up to the smaller of the transcript's count and the piece's bytes, exactly when that number is within the packing budget or leaves room for a short answer |
| CleanupTheorems.DensePieceOverflows | app/cleanup/base.py:56-60 | a split transcript with a piece that is sent and does not fit, so the average alone does not protect the window |
| CleanupTheorems.DeadlineHoldsIff | app/cleanup/llama_server.py:45-46 | even shares always end by the deadline if and only if a quarter of a second is left per piece |
| CleanupTheorems.SharesAreEven | app/cleanup/llama_server.py:170-173 | requests that use up their timeouts get the same time each and all that was left between them |
| Leases.LeaseBook.Active | app/engines.py:363-365 | the loop returns the sum of the counts |
| Leases.LeaseBook.Acquire | app/engines.py:367-369 | the engine's count rises by one, from nothing if need be |
| Leases.LeaseBook.Release | app/engines.py:371-380 | the count drops; at the last release the entry goes and a retired engine is closed |
| Leases.LeaseBook.Retire | app/engines.py:382-388 | a leased engine is kept for its last release, an idle one is closed at once |
| Leases.EngineManager.Lease | app/engines.py:436-441 | the lease is on the engine that is current now |
| Leases.EngineManager.FinishLease | app/engines.py:537-541 | the lease ends on the engine it was taken on, whatever is current by then |
| Leases.EngineManager.Swap | app/engines.py:530-535 | a failed save or build changes nothing; otherwise the old engine is retired after the new one took its place |
| Leases.EngineManager.OffloadIfIdle | app/engines.py:511-522 | offloads exactly when the policy, the residency, the silence and the idle time all allow it |
| Leases.StepKeeps | app/engines.py:350-388 | every lease, release, swap and idle check keeps each engine in exactly one place: current, retired and leased, or closed |
| Leases.LeasesAreSafe | app/engines.py:350-357 | in every run: counts are the leases out, no closed engine is leased, a replaced engine is closed exactly once and exactly when nobody holds it, the current one is never retired |
| Leases.OffloadNeedsSilence | app/engines.py:511-522 | idle offload fires only with no lease on any engine, and closes none |
| Leases.IdleSinceLastLease | app/engines.py:537-541 | over every run the idle clock runs from the end of the last lease |
| Leases.SwapsTakeEffectIff | app/engines.py:530-535 | a swap takes effect exactly if save and build succeeded; the new engine is unheld, the old one closed at once exactly if nobody holds it |
| Leases.OffloadedUntilUsed | app/engines.py:507-522 | the model reads as offloaded from the check that dropped it until a swap or a lease that ends with a model resident |
| Sessions.SessionRepository.CreateOrGet | app/storage.py:148-190 | the first write wins; an existing row is returned unchanged |
| Sessions.SessionRepository.Update | app/storage.py:199-232 | sets state, transcript and error unconditionally, keeps or sets the audio name, and ignores a missing row |
| Sessions.SessionRepository.ClaimTranscribing | app/storage.py:234-253 | succeeds exactly on a created, uploaded or failed row |
| Sessions.SessionRepository.Complete | app/storage.py:255-300 | stores the result exactly when the row is transcribing |
| Sessions.SessionRepository.LeaveTranscribing | app/storage.py:326-340 | moves the row on exactly when it is transcribing |
| Sessions.SessionRepository.Delete | app/storage.py:310-316 | removes that row and returns it |
| Finishing.Finish | app/service.py:162-189 | each answer up to the claim, the lost claim included, with the rows and the counters it leaves; a place in line is kept exactly by the caller that claims |
| Sessions.SessionJob.Persist | app/service.py:710-734 | the job keeps its result exactly if the row is still transcribing, and otherwise ends as superseded without touching it |
| Sessions.SessionJob.RecordFailure | app/service.py:758-774 | a refusal before decoding restores the upload, anything else fails the row, and only a transcribing row |
| SessionRuns.ClaimsAreSeparated | app/storage.py:234-253 | between two successful claims of one session some step took it out of transcribing, in every interleaving |
| SessionRuns.ExclusiveIffUndisturbed | app/routes/sessions.py:96-102 | the stronger invariant, one unfinished job per session with its row in step until its metrics are written, survives exactly the steps that neither upload to nor delete a session with such a job |
| SessionRuns.ClaimsAreExclusive | app/service.py:162-189 | in undisturbed runs a session is transcribing exactly while one job has yet to record its outcome, and no session has two live jobs |
| SessionRuns.StaleJobsCanCollide | app/service.py:710-734 | a run with a re-upload in which a superseded job's text is stored under another job's claim |
| SessionRuns.NoneIsStranded | app/service.py:648-665 | in every run, uploads and deletions included, a session is transcribing only while the job that claimed it last has yet to record its outcome |
| SessionRuns.OneRunnerIffNotOvertaken | app/storage.py:234-253 | one running job per transcribing session survives a step if and only if the step is not a successful claim while a job on the session still runs |
| SessionRuns.OneRunnerThroughout | app/storage.py:234-253 | a run has one running job per transcribing session at every moment if and only if it holds no such claim |
| SessionRuns.StoredResultsAreLatest | app/service.py:710-734 | without such claims a job stores its result exactly if its session is still transcribing, every stored result belongs to the latest claim, and an attempt to store by any other job changes nothing, uploads and deletions during jobs allowed |
| SessionRuns.StaleResultIffTwoRunners | app/storage.py:255-300 | at any moment of any run a job that is not the latest could store its result exactly when a transcribing session has two running jobs |
| SessionRuns.OneLiveIffNotOvertaken | app/storage.py:302-308 | one unfinished job per transcribing session survives a step if and only if the step is not a successful claim while a job still works on the session |
| SessionRuns.OneLiveThroughout | app/storage.py:302-308 | a run has one unfinished job per transcribing session at every moment if and only if it holds no such claim |
| SessionRuns.StaleFailureIffTwoLive | app/service.py:768-773 | at any moment of any run the failure of a job that is not the latest could change a row exactly when a transcribing session has two unfinished jobs |
| SessionRuns.OutcomesAreLatest | app/service.py:758-774 | in runs without such claims an outcome changes the table exactly if its session is transcribing, and then it is the latest claim's first one, takes that row out of transcribing and touches no other; a superseded job's outcome and a failure after a stored result change nothing |
| SessionRuns.LateFailureCanCollide | app/service.py:736-756 | a run in which a job with a stored result fails the row of a later claim, though no session ever had two running jobs |
| SessionRuns.ConditionsAreOrdered | app/routes/sessions.py:96-102 | undisturbed runs hold no claim over an unfinished job, and those hold no claim over a running one |
| SessionRuns.OutcomesAreRecorded | app/service.py:758-774 | in undisturbed runs a refusal gives back the upload, a failure leaves a row that can be claimed again, and a failure after the result was stored changes nothing |
| SessionRuns.ResultsAreStored | app/storage.py:255-300 | in undisturbed runs the result a job persists is what its row then holds |
| SessionRuns.TermsNeverChange | app/storage.py:148-190 | language, style, job id and cleanup snapshot stay the same from creation to deletion, over every run |
| SessionSteps.CreationIsFresh | app/storage.py:148-190 | the first creation settles the terms and nothing else, a later one changes nothing |
| SessionSteps.UploadIsStored | app/routes/sessions.py:96-102 | an upload stores its audio name, clears transcript and error, keeps the rest, and finish then claims the session |
| SessionSteps.ClaimOnlyMarks | app/storage.py:234-253 | a claim succeeds on created, uploaded and failed rows, and only marks the row and clears its error |
| SessionSteps.ResultFillsRow | app/storage.py:255-300 | a stored result fills in transcript, original and record, and keeps or sets the audio name as told |
| SessionSteps.FailureOnlyMarks | app/service.py:758-774 | a failure changes state and error code only, with the code of its kind |
| SessionSteps.DeletionIsLocal | app/storage.py:310-316 | a deletion removes its row and no other |
| SessionSteps.AnswersAre | app/service.py:172-189 | each answer of finish, by the state of the row and the room in line |
| SessionSteps.LostClaimsAre | app/service.py:269-280 | a lost claim is answered by what became of the session |
| SessionSteps.SupersededIsReported | app/service.py:726-731 | a job whose row was taken reports session_superseded and leaves the row alone |
| Finishing.FinishClaimsOnce | app/service.py:172-189 | finish claims exactly a claimable row with audio when the line has room and nobody got in between; after a claim nobody claims again, and a lost claim is answered like a plain second call |
| Downloads.DownloadAttempt.Run | app/model_manager.py:946-960 | an attempt is accepted exactly if stream, size and digest are right; the shared counter moved by what was received and no other file changed |
| Downloads.DownloadAttempt.Rollback | app/model_manager.py:962-964 | the file goes and its bytes leave the shared counter |
| Downloads.FetchedIffSucceeds | app/model_manager.py:64-91 | something comes home exactly if some attempt is answered rightly before an error that is not retried |
| Downloads.FetchedIsRight | app/model_manager.py:946-1001 | what comes home is one whole response with the announced size and the enforced digest, behind retried failures only |
| Downloads.DownloadFile | app/model_manager.py:906-932 | succeeds exactly if some attempt within the limit is answered rightly before an error that is not retried, with the content of the first such answer; then the file is verified and counted once, and a file given up on is gone and counted not at all |
| DownloadRuns.StepKeeps | app/model_manager.py:936-1001 | every step of every worker keeps the shared accounting and each file's state |
| DownloadRuns.AccountingIsExact | app/model_manager.py:979-988 | in every interleaving the shared counter is the sum of the workers' net contributions, at most four are in flight, and the rollback clamp never acts |
| DownloadRuns.FilesAreSettled | app/model_manager.py:64-91 | a returned file is on disk, verified and counted by its size; one given up on is gone and counts nothing |
| DownloadRuns.BatchDelivers | app/model_manager.py:154-195 | a batch completes exactly if every worker returned; then every ordered file is there and verified, and otherwise the batch was cancelled |
| DownloadRuns.RunOnlyOrdered | app/model_manager.py:979-988 | a batch never creates a file nobody ordered |
| DownloadRuns.AttemptsEnd | app/model_manager.py:64-91 | a response returns exactly if size and digest are right; otherwise file and bytes are given back, and the third attempt gives up and stops the batch |
| DownloadRuns.AttemptsProceed | app/model_manager.py:174-185 | while nothing is cancelled a waiting worker starts, a resting one retries from nothing, and chunks are kept |
| DownloadRuns.CancelledBatchesStop | app/model_manager.py:174-185 | a cancelled batch downloads no further byte and starts no worker, and only the caller or a failed worker cancels one |
| DownloadRuns.FailuresComeFirst | app/model_manager.py:187-195 | a batch reports a real failure before any cancellation |
| Installs.VerifyExtractedFiles | app/model_manager.py:874-890 | true exactly if every pinned file that is present matches its pin |
| Installs.ListedKeepsPin | app/model_manager.py:848-861 | whatever the listing says, a catalog pin is what is enforced |
| Installs.EnforcedDigestIs | app/model_manager.py:848-861 | the first catalog pin is enforced, and without one the digest the listing gives |
| Installs.StageArchive | app/model_manager.py:432-474 | the tree is staged exactly if nothing strikes, the archive arrives verified, and its model folder passes the checks; otherwise nothing is left behind |
| Installs.RunArchiveDownload | app/model_manager.py:423-484 | under a fault at every step the final path takes exactly the listed values; an install is complete and verified, a failure leaves nothing staged, a success leaves the extraction directory, and a failure of the last removal raises with the model installed |
| Installs.RunRepositoryDownload | app/model_manager.py:486-546 | the same for a folder of files; if nothing strikes and the required files landed, exactly what landed is installed, with its marker if there is one, and reads as installed; the staging directory is always gone afterwards |
| Installs.RunSingleFile | app/model_manager.py:600-625 | the same for one file, checked against its pin, where a failure leaves the final path untouched |
| Installs.RunCatalogDownload | app/model_manager.py:402-421 | whichever pipeline the model takes, the final path takes exactly the values listed for the attempt |
| Installs.CompletedBatchArrives | app/model_manager.py:627-713 | a batch that completes from an empty directory leaves exactly the files ordered, each matching its catalog pin or, without one, its listed digest |
| Installs.LandedIsGood | app/model_manager.py:656-663 | such a directory with all required files is complete and verified, with the marker or without |
| InstallRuns.StagedIsGood | app/model_manager.py:423-713 | what passes the checks of any pipeline is complete and matches every pin, its archive's or its own file's included |
| InstallRuns.NeverReportsPartial | app/model_manager.py:223-242 | starting from nothing, over any sequence of installs and deletions with a fault anywhere in each, the final path never holds a tree that is not complete and verified, so none reads as installed |
| InstallRuns.UntroubledInstalls | app/model_manager.py:402-421 | an attempt nothing strikes installs what passed its checks whatever came before, and changes nothing when something did not pass |
| InstallRuns.FinishedInstallsAreReported | app/model_manager.py:223-242 | an attempt nothing strikes, and whose archive, folder or file passes, leaves exactly what was fetched with its marker, whatever came before, and reads as installed |
| Spans.Protect | app/text_styles.py:162-166 | the substitution with its growing token list equals its specification |
| Spans.MaskedStep | app/text_styles.py:191-198 | a match that is to be masked becomes the next token and its placeholder, any other stays in the text |
| Spans.LowerOutsidePlaceholders | app/text_styles.py:174-183 | the loop lowers exactly what is outside placeholders |
| Spans.MaskingNumbersSpans | app/text_styles.py:191-198 | a masked text holds each placeholder number once, in increasing order, and no other sentinel |
| Spans.RestoringMarked | app/text_styles.py:168-172 | restoring never fails on known numbers and puts each span back in the order of the placeholders |
| Spans.ProtectRoundTrips | app/text_styles.py:162-203 | restoring a protected text gives the text back, for every finder and every text free of sentinels |
| Styles.SplitOnTerminators | app/text_styles.py:235-245 | the loop cuts after each run of terminators and spaces, and never returns nothing |
| StyleTheorems.OutMarked | app/text_styles.py:262-309 | any substitution that is safe at each character keeps all placeholders in order |
| StyleTheorems.MarkedSplit | app/text_styles.py:235-245 | cutting a text anywhere but inside a placeholder deals its placeholders out to the two parts in order |
| StyleTheorems.SentencesDealt | app/text_styles.py:235-245 | the fallback segmenter cuts no placeholder |
| StyleTheorems.LoweredMarked | app/text_styles.py:174-183 | lowering outside placeholders keeps them |
| StyleTheorems.StylesKeepPlaceholders | app/text_styles.py:346-376 | every style keeps all placeholders, once each and in order |
| StyleTheorems.SpansSurvive | app/text_styles.py:383-395 | every protected span reappears in the styled text in order, verbatim, or lowered if the style is very casual and it is no address |
| SpacingTheorems.NormalizingIsTidy | app/text_styles.py:293-297 | normalizing loses nothing but whitespace, and leaves no whitespace at either end, doubled, or before a mark |
| SpacingTheorems.TidyIsKept | app/text_styles.py:293-297 | a text that is already tidy comes back unchanged, so normalizing is idempotent |
| SpacingTheorems.CleanKeepsInk | app/text_styles.py:383-395 | from transcript to styled text, the clean style keeps every character but whitespace and adds the terminator exactly where the masked text has a character and does not end in a terminator |
| SpacingTheorems.RestoringKeepsInk | app/text_styles.py:168-172 | dropping whitespace before restoring or after it is the same |
| SpacingTheorems.WholeSpanGetsTerminator | app/text_styles.py:346-349 | a transcript that is one protected span gets the terminator whatever it ends in |
| SpacingTheorems.AcronymGetsTwoStops | app/text_styles.py:46-49 | "U.S." becomes "U.S.." |
| SpacingTheorems.SegmentingIsLossless | app/text_styles.py:235-256 | however a text is segmented, its sentences add up to it |
| StyleMeaning.StylesKeepMeaning | app/text_styles.py:383-395 | every style keeps what a transcript says: whoever hears neither whitespace nor case nor the language's marks reads the styled transcript as the transcript, protected spans included |
| StyleMeaning.StyledIsRead | app/text_styles.py:346-376 | the same for a masked text, with placeholders read as they are |
| StyleLaws.CapitalsAreExact | app/text_styles.py:262-283 | a capital goes to each letter that starts the text or follows a terminator and whitespace, behind opening quotes and brackets, and to no other |
| StyleLaws.FormalIs | app/text_styles.py:312-315 | formal: capitals, and a terminator where the text ends in none |
| StyleLaws.CasualIs | app/text_styles.py:317-327 | casual: capitals, and no stop at the end unless it is an ellipsis |
| StyleLaws.MarkedCasually | app/text_styles.py:359-368 | very casual: the last sentence loses its mark, a stop becomes a separator, any other mark stays |
| StyleLaws.UnmarkedCasually | app/text_styles.py:359-368 | very casual: a sentence without a mark or with an ellipsis gets a separator unless it is last |
| StyleLaws.MarkedExcitedly | app/text_styles.py:370-376 | excited: a capital first, a question stays one, any other mark becomes an exclamation |
| StyleLaws.UnmarkedExcitedly | app/text_styles.py:370-376 | excited: a sentence without a mark or with an ellipsis gets an exclamation |
| StyleLaws.PartsAreJoined | app/text_styles.py:329-343 | parts are joined in order with the joint between any two |
| StyleLaws.EmptyPartsVanish | app/text_styles.py:329-343 | empty parts leave no joint |
| StyleLaws.ExcitedEndsLoudly | app/text_styles.py:340-343 | an excited text ends in an exclamation or a question |
| StyleLaws.LoweringIs | app/text_styles.py:174-183 | lowering spares placeholders and nothing else |
| StyleLaws.VeryCasualIsLow | app/text_styles.py:329-338 | without placeholders a very casual text is all lower case |
| StyleLaws.RawIs | app/text_styles.py:383-385 | raw: whitespace is cut off both ends and nothing else |
| StyleLaws.SentencesAreExact | app/text_styles.py:235-245 | the fallback segmenter cuts exactly behind each terminator with whitespace after it, and all of that whitespace |
| StyleLaws.SegmentedWhen | app/text_styles.py:247-256 | one sentence without an inner break, the library's sentences if they add up to the text, the fallback's otherwise |

## Left out

- Routes, templates, the command line, pairing, configuration parsing, catalogs, ratings and system probing: interface and data.
- Speech engines, FFmpeg, child processes, sockets, HTTP, JSON and SQLite themselves: they appear as arbitrary results, errors, or atomic steps.
- Process crashes, power loss and a removal that fails half way: removal and rename are single steps.
- The wall clock: deadlines are events that may strike at any suspension; only `CleanupTheorems.DeadlineHoldsIff` reasons about seconds.
- Which of two running jobs stores its result after an overtaking claim: shown to be open by `SessionRuns.StaleJobsCanCollide`.
- The Moonshine download (app/model_manager.py:548-598): it hands its work to a library that is not part of this model.
- Two installations of one model at once: `_start` and `delete` refuse while a download is running (app/model_manager.py:359-388).
- The rejection of unsafe archive and listing paths, `total_bytes`, `current_file` and retry delays: one-branch checks and display.
- `EngineManager.configure` beyond the swap: the signature comparison and path resolution; a configuration that changes nothing does not swap.
- Latency samples, cleanup counters and history: plain counters.
- Language inference, the regular expressions that find protected spans, and the test for real domains: the finder is arbitrary.
- The letter and case tables themselves, and the punctuation of each language: data.
- Styling of several paragraphs (app/text_styles.py:398): one call per paragraph.
- Spans.RestoringMarked: placeholder numbers are read with ASCII digits only, because the masking writes no others.
- Downloads.DownloadAttempt.Run: the digest is a function of all bytes received rather than an incremental hash, because the incremental one is a library's.
