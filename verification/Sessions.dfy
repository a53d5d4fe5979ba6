/** The session rows of app/storage.py, and the jobs of app/service.py that claim and release them.

    Every statement the repository runs is one atomic step on the table. */
module Sessions {
  import opened Options

  datatype State = Created | Uploaded | Transcribing | Completed | Failed

  datatype Snapshot = Snapshot(
    mode: string, modelId: Option<string>, promptVersion: Option<string>, timeoutMs: Option<int>)

  datatype Record = Record(status: Option<string>, reason: Option<string>, durationMs: Option<int>)

  /** What `create` settles once and for all. */
  datatype Terms = Terms(jobId: string, language: string, style: string, snapshot: Snapshot)

  datatype Row = Row(
    terms: Terms, state: State, audioName: Option<string>, transcript: Option<string>,
    originalTranscript: Option<string>, errorCode: Option<string>, record: Record)

  type Table = map<nat, Row>

  /** The `audio_name` argument: keep the stored name, or set one (or none). */
  datatype Audio = Keep | Set(name: Option<string>)

  datatype Final = Final(transcript: string, original: Option<string>, record: Record, audio: Audio)

  predicate Claimable(state: State) {
    state in {Created, Uploaded, Failed}
  }

  predicate InState(table: Table, id: nat, state: State) {
    id in table && table[id].state == state
  }

  function ChosenAudio(row: Row, audio: Audio): Option<string> {
    if audio.Keep? then row.audioName else audio.name
  }

  function NewRow(terms: Terms): Row {
    Row(terms, Created, None, None, None, None, Record(None, None, None))
  }

  function CreatedIn(table: Table, id: nat, terms: Terms): Table {
    if id in table then table else table[id := NewRow(terms)]
  }

  function UpdatedIn(table: Table, id: nat, state: State, audio: Audio, transcript: Option<string>,
                     error: Option<string>): Table
  {
    if id !in table then table
    else table[id := table[id].(state := state, audioName := ChosenAudio(table[id], audio),
                                transcript := transcript, errorCode := error)]
  }

  predicate CanClaim(table: Table, id: nat) {
    id in table && Claimable(table[id].state)
  }

  function ClaimedIn(table: Table, id: nat): Table {
    if CanClaim(table, id) then table[id := table[id].(state := Transcribing, errorCode := None)] else table
  }

  function CompletedIn(table: Table, id: nat, final: Final): Table {
    if InState(table, id, Transcribing) then
      table[id := table[id].(state := Completed, audioName := ChosenAudio(table[id], final.audio),
                             transcript := Some(final.transcript), originalTranscript := final.original,
                             errorCode := None, record := final.record)]
    else table
  }

  function LeftIn(table: Table, id: nat, state: State, error: Option<string>): Table {
    if InState(table, id, Transcribing) then table[id := table[id].(state := state, errorCode := error)] else table
  }

  class SessionRepository {
    var rows: Table

    constructor ()
      ensures rows == map[]
    {
      rows := map[];
    }

    /** First write wins, including for the cleanup snapshot. */
    method CreateOrGet(id: nat, terms: Terms) returns (row: Row)
      modifies this
      ensures rows == CreatedIn(old(rows), id, terms)
      ensures id in rows && row == rows[id]
      ensures id in old(rows) ==> row == old(rows)[id]
    {
      if id !in rows {
        rows := rows[id := NewRow(terms)];
      }
      row := rows[id];
    }

    method Update(id: nat, state: State, audio: Audio, transcript: Option<string>, error: Option<string>)
      returns (row: Option<Row>)
      modifies this
      ensures rows == UpdatedIn(old(rows), id, state, audio, transcript, error)
      ensures row == if id in rows then Some(rows[id]) else None
    {
      if id !in rows {
        return None;
      }
      var current := rows[id];
      rows := rows[id := current.(state := state, audioName := ChosenAudio(current, audio),
                                  transcript := transcript, errorCode := error)];
      return Some(rows[id]);
    }

    method ClaimTranscribing(id: nat) returns (row: Option<Row>)
      modifies this
      ensures rows == ClaimedIn(old(rows), id)
      ensures row.Some? <==> CanClaim(old(rows), id)
      ensures row.Some? ==> id in rows && row.value == rows[id]
    {
      if id in rows && Claimable(rows[id].state) {
        rows := rows[id := rows[id].(state := Transcribing, errorCode := None)];
        return Some(rows[id]);
      }
      return None;
    }

    method Complete(id: nat, final: Final) returns (row: Option<Row>)
      modifies this
      ensures rows == CompletedIn(old(rows), id, final)
      ensures row.Some? <==> InState(old(rows), id, Transcribing)
      ensures row.Some? ==> id in rows && row.value == rows[id]
    {
      if id !in rows || rows[id].state != Transcribing {
        return None;
      }
      var current := rows[id];
      rows := rows[id := current.(state := Completed, audioName := ChosenAudio(current, final.audio),
                                  transcript := Some(final.transcript), originalTranscript := final.original,
                                  errorCode := None, record := final.record)];
      return Some(rows[id]);
    }

    method LeaveTranscribing(id: nat, state: State, error: Option<string>) returns (row: Option<Row>)
      modifies this
      ensures rows == LeftIn(old(rows), id, state, error)
      ensures row.Some? <==> InState(old(rows), id, Transcribing)
    {
      if id in rows && rows[id].state == Transcribing {
        rows := rows[id := rows[id].(state := state, errorCode := error)];
        return Some(rows[id]);
      }
      return None;
    }

    method Delete(id: nat) returns (row: Option<Row>)
      modifies this
      ensures rows == old(rows) - {id}
      ensures row == if id in old(rows) then Some(old(rows)[id]) else None
    {
      if id !in rows {
        assert rows - {id} == rows;
        return None;
      }
      row := Some(rows[id]);
      rows := rows - {id};
    }
  }

  // ---------------------------------------------------------------- one job

  /** Why a job stopped: refused before decoding, a mapped problem, an unmapped error, or a cancellation. */
  datatype Failure = Unattempted | Mapped(code: string) | Unmapped | Interrupted

  function FailureCode(failure: Failure): string {
    match failure
    case Unattempted => ""
    case Mapped(code) => code
    case Unmapped => "internal_error"
    case Interrupted => "transcription_cancelled"
  }

  /** `_record_failure`. */
  function RecordedIn(table: Table, id: nat, failure: Failure): Table {
    if failure == Unattempted then LeftIn(table, id, Uploaded, None)
    else LeftIn(table, id, Failed, Some(FailureCode(failure)))
  }

  /** A job is running until it has recorded an outcome; a stored job only has its metrics left to write. */
  datatype Phase = Running | Kept | Over

  const SUPERSEDED: Failure := Mapped("session_superseded")

  class SessionJob {
    const session: nat
    const repository: SessionRepository
    var phase: Phase

    constructor (session: nat, repository: SessionRepository)
      ensures this.session == session && this.repository == repository && phase == Running
    {
      this.session, this.repository := session, repository;
      phase := Running;
    }

    /** `_persist`, with the handler around it when the row is no longer this job's to complete. */
    method Persist(final: Final) returns (stored: bool)
      modifies this, repository
      ensures stored <==> InState(old(repository.rows), session, Transcribing)
      ensures repository.rows == CompletedIn(old(repository.rows), session, final)
      ensures phase == if stored then Kept else Over
    {
      var completed := repository.Complete(session, final);
      if completed.None? {
        RecordFailure(SUPERSEDED);
        return false;
      }
      phase := Kept;
      return true;
    }

    method RecordFailure(failure: Failure)
      modifies this, repository
      ensures repository.rows == RecordedIn(old(repository.rows), session, failure)
      ensures phase == Over
    {
      if failure == Unattempted {
        var _ := repository.LeaveTranscribing(session, Uploaded, None);
      } else {
        var _ := repository.LeaveTranscribing(session, Failed, Some(FailureCode(failure)));
      }
      phase := Over;
    }
  }
}
