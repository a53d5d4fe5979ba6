/** What each event does to the row it concerns, field by field, and what a client is told. */
module SessionSteps {
  import opened Options
  import opened Sessions
  import opened SessionRuns
  import opened Finishing

  predicate OthersUnchanged(before: Table, after: Table, id: nat) {
    before - {id} == after - {id}
  }

  /** The first creation settles the terms and nothing else; a later one changes nothing. */
  lemma CreationIsFresh(w: World, id: nat, terms: Terms)
    ensures var next := Step(w, Create(id, terms)).table;
      && id in next && OthersUnchanged(w.table, next, id)
      && (if id in w.table then next[id] == w.table[id]
          else next[id] == Row(terms, Created, None, None, None, None, Record(None, None, None)))
  {
    assert OthersUnchanged(w.table, w.table[id := NewRow(terms)], id);
  }

  /** An upload stores its audio and clears the last transcript and error; `finish` then claims the session if
      the line has room. */
  lemma UploadIsStored(w: World, id: nat, name: string)
    requires id in w.table
    ensures var next := Step(w, Upload(id, name)).table;
      && id in next && OthersUnchanged(w.table, next, id)
      && next[id].state == Uploaded && next[id].audioName == Some(name)
      && next[id].transcript == None && next[id].errorCode == None
      && next[id].terms == w.table[id].terms && next[id].record == w.table[id].record
      && next[id].originalTranscript == w.table[id].originalTranscript
      && FinishAnswer(next, next, id, true) == Claimed(next[id].(state := Transcribing))
  {
    var next := Step(w, Upload(id, name)).table;
    assert OthersUnchanged(w.table, next, id);
    assert next[id].(state := Transcribing, errorCode := None) == next[id].(state := Transcribing);
  }

  /** An upload to a session that does not exist, or was deleted, creates nothing. */
  lemma UploadNeedsSession(w: World, id: nat, name: string)
    requires id !in w.table
    ensures Step(w, Upload(id, name)).table == w.table
  {
  }

  /** A claim succeeds on a created, uploaded or failed row, and only marks it and clears its error. */
  lemma ClaimOnlyMarks(w: World, id: nat)
    ensures var next := Step(w, Claim(id));
      if id in w.table && w.table[id].state in {Created, Uploaded, Failed} then
        && next.table == w.table[id := w.table[id].(state := Transcribing, errorCode := None)]
        && next.jobs == w.jobs + [Job(id, Running)]
      else next == w
  {
  }

  /** A result that is stored fills in the transcript, the original and the cleanup record, and keeps the audio
      name or sets it as it was told. */
  lemma ResultFillsRow(w: World, job: nat, final: Final)
    requires Enabled(w, Persist(job, final)) && InState(w.table, w.jobs[job].session, Transcribing)
    ensures var id, next := w.jobs[job].session, Step(w, Persist(job, final)).table;
      && id in next && OthersUnchanged(w.table, next, id)
      && next[id].state == Completed && next[id].errorCode == None
      && next[id].transcript == Some(final.transcript) && next[id].originalTranscript == final.original
      && next[id].record == final.record && next[id].terms == w.table[id].terms
      && (final.audio == Keep ==> next[id].audioName == w.table[id].audioName)
      && (forall name: Option<string> :: final.audio == Set(name) ==> next[id].audioName == name)
  {
    var id := w.jobs[job].session;
    assert OthersUnchanged(w.table, Step(w, Persist(job, final)).table, id);
  }

  /** The code a failure leaves in the row. */
  predicate Leaves(failure: Failure, state: State, error: Option<string>) {
    match failure
    case Unattempted => state == Uploaded && error == None
    case Mapped(code) => state == Failed && error == Some(code)
    case Unmapped => state == Failed && error == Some("internal_error")
    case Interrupted => state == Failed && error == Some("transcription_cancelled")
  }

  /** A failure changes the state and the error code, and nothing else: audio, transcripts, terms and record stay. */
  lemma FailureOnlyMarks(w: World, job: nat, failure: Failure)
    requires Enabled(w, Fail(job, failure)) && InState(w.table, w.jobs[job].session, Transcribing)
    ensures var id, next := w.jobs[job].session, Step(w, Fail(job, failure)).table;
      && id in next && OthersUnchanged(w.table, next, id)
      && Leaves(failure, next[id].state, next[id].errorCode)
      && next[id] == w.table[id].(state := next[id].state, errorCode := next[id].errorCode)
  {
    var id := w.jobs[job].session;
    assert OthersUnchanged(w.table, Step(w, Fail(job, failure)).table, id);
  }

  /** A deletion removes its row and no other. */
  lemma DeletionIsLocal(w: World, id: nat)
    ensures var next := Step(w, SessionRuns.Event.Delete(id));
      id !in next.table && OthersUnchanged(w.table, next.table, id) && next.jobs == w.jobs
  {
  }

  /** What a client is told, and when: a missing session, a stored result, missing audio, a transcription under
      way, a full line, or a claim. */
  lemma AnswersAre(table: Table, id: nat, admitted: bool)
    ensures var answer := FinishAnswer(table, table, id, admitted);
      && (answer == Problem("session_not_found") <==> id !in table)
      && (answer.Stored? <==> InState(table, id, Completed))
      && (answer.Stored? ==> answer.row == table[id])
      && (answer == Problem("audio_missing") <==>
            id in table && table[id].state != Completed && table[id].audioName == None)
      && (answer == Problem("transcription_in_progress") <==>
            InState(table, id, Transcribing) && table[id].audioName != None)
      && (answer == Problem("engine_overloaded") <==>
            id in table && table[id].state in {Created, Uploaded, Failed} && table[id].audioName != None && !admitted)
      && (answer.Claimed? <==>
            id in table && table[id].state in {Created, Uploaded, Failed} && table[id].audioName != None && admitted)
  {
  }

  /** A caller that loses the claim to another process is told what became of the session. */
  lemma LostClaimsAre(table: Table, atClaim: Table, id: nat)
    requires id in table && table[id].state in {Created, Uploaded, Failed} && table[id].audioName != None
    ensures var answer := FinishAnswer(table, atClaim, id, true);
      && (answer == Problem("session_not_found") <==> id !in atClaim)
      && (answer.Stored? <==> InState(atClaim, id, Completed))
      && (answer.Stored? ==> answer.row == atClaim[id])
      && (answer == Problem("transcription_in_progress") <==> InState(atClaim, id, Transcribing))
      && (answer.Claimed? ==> answer.row == atClaim[id].(state := Transcribing, errorCode := None))
  {
  }

  /** A job whose row was taken from it reports that it was superseded, and leaves the row alone. */
  lemma SupersededIsReported(table: Table, id: nat)
    requires !InState(table, id, Transcribing)
    ensures SUPERSEDED == Mapped("session_superseded") && RecordedIn(table, id, SUPERSEDED) == table
  {
  }
}
