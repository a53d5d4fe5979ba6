/** `TranscriptionService.finish` of app/service.py up to its first suspension: a place in line, then the claim. */
module Finishing {
  import opened Options
  import opened Metrics
  import opened Limiter
  import opened Tickets
  import opened Sessions

  datatype Answer = Stored(row: Row) | Problem(code: string) | Claimed(row: Row)

  /** Whether `finish` gets as far as taking a place in line. */
  predicate ReachesClaim(table: Table, id: nat) {
    id in table && table[id].audioName.Some? && table[id].state !in {Completed, Transcribing}
  }

  /** `_resolve_lost_claim`. */
  function LostClaim(table: Table, id: nat): Answer {
    if id !in table then Problem("session_not_found")
    else if table[id].state == Completed then Stored(table[id])
    else Problem("transcription_in_progress")
  }

  /** `finish` before its first suspension: `table` is what its reads saw, `atClaim` what its claim met,
      and `admitted` whether the line had room. */
  function FinishAnswer(table: Table, atClaim: Table, id: nat, admitted: bool): Answer {
    if id !in table then Problem("session_not_found")
    else if table[id].state == Completed then Stored(table[id])
    else if table[id].audioName.None? then Problem("audio_missing")
    else if table[id].state == Transcribing then Problem("transcription_in_progress")
    else if !admitted then Problem("engine_overloaded")
    else if CanClaim(atClaim, id) then Claimed(atClaim[id].(state := Transcribing, errorCode := None))
    else LostClaim(atClaim, id)
  }

  /** `elsewhere` is what another process does to the rows between the reads and the claim. A place in line
      is kept exactly by the caller that claims, and a claim that is lost gives its place back. */
  method Finish(repository: SessionRepository, id: nat, elsewhere: Table -> Table,
                limiter: DecodeLimiter, metrics: RuntimeMetrics, waiting: nat, slots: nat)
    returns (answer: Answer, ticket: Ticket?)
    modifies repository, metrics
    ensures var table, counters := old(repository.rows), old(metrics.Value());
      var atClaim, admitted := elsewhere(table), !LineIsFull(counters, slots, waiting);
      && answer == FinishAnswer(table, atClaim, id, admitted)
      && repository.rows == (if ReachesClaim(table, id) && admitted then ClaimedIn(atClaim, id) else table)
      && metrics.Value() == (if ReachesClaim(table, id) && (!admitted || answer.Claimed?)
                             then Offered(counters, slots, waiting) else counters)
      && (ticket != null <==> answer.Claimed?)
    ensures ticket != null ==>
      fresh(ticket) && ticket.Value() == Opened(true) && ticket.limiter == limiter && ticket.metrics == metrics
  {
    ticket := null;
    if id !in repository.rows {
      return Problem("session_not_found"), null;
    }
    var stored := repository.rows[id];
    if stored.state == Completed {
      return Stored(stored), null;
    }
    if stored.audioName.None? {
      return Problem("audio_missing"), null;
    }
    if stored.state == Transcribing {
      return Problem("transcription_in_progress"), null;
    }
    ticket := Ticket.Open(id, limiter, metrics, true, waiting, slots);
    if ticket == null {
      return Problem("engine_overloaded"), null;
    }
    repository.rows := elsewhere(repository.rows);
    var claimed := repository.ClaimTranscribing(id);
    if claimed.Some? {
      return Claimed(claimed.value), ticket;
    }
    ticket.Leave(Quiet);
    return LostClaim(repository.rows, id), null;
  }

  /** `finish` claims a session exactly when it has audio, no result yet and nobody transcribing it, the line
      has room, and nobody got in between. After a claim nobody else claims, and a caller that lost the race
      is told what a plain second call would have been told. */
  lemma FinishClaimsOnce(table: Table, atClaim: Table, id: nat, admitted: bool)
    ensures var answer := FinishAnswer(table, atClaim, id, admitted);
      && (answer.Claimed? <==>
            CanClaim(table, id) && table[id].audioName.Some? && admitted && CanClaim(atClaim, id))
      && (answer.Claimed? ==>
            var after := ClaimedIn(atClaim, id);
            after != atClaim && after[id] == answer.row && forall later: Table, room: bool ::
              !FinishAnswer(after, later, id, room).Claimed?)
      && (InState(table, id, Completed) ==> answer == Stored(table[id]))
      && (ReachesClaim(table, id) && admitted && !answer.Claimed? &&
          (InState(atClaim, id, Transcribing) ==> atClaim[id].audioName.Some?) ==>
            forall later: Table, room: bool :: answer == FinishAnswer(atClaim, later, id, room))
  {
    if CanClaim(atClaim, id) {
      assert ClaimedIn(atClaim, id)[id].state == Transcribing;
    }
  }
}
