/** Every interleaving of requests and jobs over one table of sessions. */
module SessionRuns {
  import opened Options
  import opened Sessions

  datatype Job = Job(session: nat, phase: Phase)

  datatype World = World(table: Table, jobs: seq<Job>)

  datatype Event =
    | Create(id: nat, terms: Terms)
    | Upload(id: nat, name: string)
    | Delete(id: nat)
    | Claim(id: nat)
    | Persist(job: nat, final: Final)
    | Fail(job: nat, failure: Failure)
    | Close(job: nat)

  /** A job ends by storing its result, by failing while it runs or while it writes its metrics, or,
      once its result is stored, quietly. */
  predicate Enabled(w: World, e: Event) {
    match e
    case Persist(job, _) => job < |w.jobs| && w.jobs[job].phase == Running
    case Fail(job, _) => job < |w.jobs| && w.jobs[job].phase != Over
    case Close(job) => job < |w.jobs| && w.jobs[job].phase == Kept
    case _ => true
  }

  function WithPhase(w: World, job: nat, phase: Phase): seq<Job>
    requires job < |w.jobs|
  {
    w.jobs[job := w.jobs[job].(phase := phase)]
  }

  function Step(w: World, e: Event): World
    requires Enabled(w, e)
  {
    match e
    case Create(id, terms) => w.(table := CreatedIn(w.table, id, terms))
    case Upload(id, name) => w.(table := UpdatedIn(w.table, id, Uploaded, Set(Some(name)), None, None))
    case Delete(id) => w.(table := w.table - {id})
    case Claim(id) =>
      World(ClaimedIn(w.table, id), if CanClaim(w.table, id) then w.jobs + [Job(id, Running)] else w.jobs)
    case Persist(job, final) =>
      var id := w.jobs[job].session;
      World(CompletedIn(w.table, id, final),
            WithPhase(w, job, if InState(w.table, id, Transcribing) then Kept else Over))
    case Fail(job, failure) =>
      World(RecordedIn(w.table, w.jobs[job].session, failure), WithPhase(w, job, Over))
    case Close(job) => w.(jobs := WithPhase(w, job, Over))
  }

  ghost predicate Runs(w: World, events: seq<Event>)
    decreases |events|
  {
    events == [] || (Enabled(w, events[0]) && Runs(Step(w, events[0]), events[1..]))
  }

  ghost function After(w: World, events: seq<Event>): World
    requires Runs(w, events)
    decreases |events|
  {
    if events == [] then w else After(Step(w, events[0]), events[1..])
  }

  const EMPTY: World := World(map[], [])

  // ---------------------------------------------------------------- claims take turns

  /** Cutting a run short gives a run. */
  lemma {:induction false} PrefixRuns(w: World, events: seq<Event>, k: nat)
    requires Runs(w, events) && k <= |events|
    ensures Runs(w, events[..k])
    decreases k
  {
    if k > 0 {
      PrefixRuns(Step(w, events[0]), events[1..], k - 1);
      assert events[..k][1..] == events[1..][..k - 1];
    }
  }

  ghost function At(w: World, events: seq<Event>, k: nat): World
    requires Runs(w, events) && k <= |events|
  {
    PrefixRuns(w, events, k);
    After(w, events[..k])
  }

  lemma {:induction false} AtNext(w: World, events: seq<Event>, k: nat)
    requires Runs(w, events) && k < |events|
    ensures Enabled(At(w, events, k), events[k])
    ensures At(w, events, k + 1) == Step(At(w, events, k), events[k])
    decreases k
  {
    PrefixRuns(w, events, k);
    PrefixRuns(w, events, k + 1);
    if k == 0 {
      var one := events[..1];
      assert one[0] == events[0] && one[1..] == [] && events[..0] == [];
      assert After(w, one) == After(Step(w, events[0]), []);
    } else {
      var next, rest := Step(w, events[0]), events[1..];
      AtNext(next, rest, k - 1);
      assert events[..k][1..] == rest[..k - 1] && events[..k + 1][1..] == rest[..k];
      PrefixRuns(next, rest, k - 1);
      PrefixRuns(next, rest, k);
    }
  }

  ghost predicate ClaimsAt(w: World, events: seq<Event>, k: nat, id: nat)
    requires Runs(w, events) && k < |events|
  {
    events[k] == Claim(id) && CanClaim(At(w, events, k).table, id)
  }

  /** Between two successful claims of a session some step took it out of `transcribing`, in every
      interleaving, uploads and deletions during a job included. */
  lemma ClaimsAreSeparated(w: World, events: seq<Event>, first: nat, second: nat, id: nat) returns (k: nat)
    requires Runs(w, events) && first < second < |events|
    requires ClaimsAt(w, events, first, id) && ClaimsAt(w, events, second, id)
    ensures first < k < second
    ensures InState(At(w, events, k).table, id, Transcribing)
    ensures !InState(At(w, events, k + 1).table, id, Transcribing)
  {
    k := first + 1;
    AtNext(w, events, first);
    while InState(At(w, events, k + 1).table, id, Transcribing)
      invariant first < k < second
      invariant InState(At(w, events, k).table, id, Transcribing)
      decreases second - k
    {
      k := k + 1;
    }
  }

  // ---------------------------------------------------------------- one job at a time

  /** An upload or a deletion of a session that a job still works on. */
  predicate Disturbs(w: World, e: Event) {
    && (e.Upload? || e.Delete?)
    && exists job :: 0 <= job < |w.jobs| && w.jobs[job].session == e.id && w.jobs[job].phase != Over
  }

  ghost predicate Works(w: World, job: nat, id: nat) {
    job < |w.jobs| && w.jobs[job].session == id && w.jobs[job].phase != Over
  }

  ghost predicate Exclusive(w: World) {
    && (forall a: nat, b: nat, id: nat :: Works(w, a, id) && Works(w, b, id) ==> a == b)
    && (forall job: nat, id: nat :: Works(w, job, id) ==>
          InState(w.table, id, if w.jobs[job].phase == Running then Transcribing else Completed))
    && (forall id: nat :: InState(w.table, id, Transcribing) ==> exists job: nat :: Works(w, job, id))
  }

  lemma WorksAfter(w: World, e: Event, job: nat, id: nat)
    requires Enabled(w, e) && Works(Step(w, e), job, id)
    ensures Works(w, job, id) || (e == Claim(id) && CanClaim(w.table, id) && job == |w.jobs|)
    ensures Works(w, job, id) ==>
      (e.Persist? && e.job == job) || Step(w, e).jobs[job] == w.jobs[job]
  {
  }

  lemma WorkersAgree(w: World, e: Event)
    requires Exclusive(w) && Enabled(w, e) && !Disturbs(w, e)
    ensures forall a: nat, b: nat, id: nat ::
      Works(Step(w, e), a, id) && Works(Step(w, e), b, id) ==> a == b
  {
    forall a: nat, b: nat, id: nat | Works(Step(w, e), a, id) && Works(Step(w, e), b, id)
      ensures a == b
    {
      WorksAfter(w, e, a, id);
      WorksAfter(w, e, b, id);
    }
  }

  lemma WorkersHoldRows(w: World, e: Event, job: nat, id: nat)
    requires Exclusive(w) && Enabled(w, e) && !Disturbs(w, e) && Works(Step(w, e), job, id)
    ensures InState(Step(w, e).table, id, if Step(w, e).jobs[job].phase == Running then Transcribing else Completed)
  {
    WorksAfter(w, e, job, id);
    if e.Fail? || e.Persist? {
      assert Works(w, e.job, w.jobs[e.job].session);
    }
  }

  lemma RowsHaveWorkers(w: World, e: Event, id: nat)
    requires Exclusive(w) && Enabled(w, e) && InState(Step(w, e).table, id, Transcribing)
    ensures exists job: nat :: Works(Step(w, e), job, id)
  {
    if InState(w.table, id, Transcribing) {
      var job: nat :| Works(w, job, id);
      assert Works(Step(w, e), job, id);
    } else {
      assert Works(Step(w, e), |w.jobs|, id);
    }
  }

  lemma UndisturbedKeeps(w: World, e: Event)
    requires Exclusive(w) && Enabled(w, e) && !Disturbs(w, e)
    ensures Exclusive(Step(w, e))
  {
    WorkersAgree(w, e);
    forall job: nat, id: nat | Works(Step(w, e), job, id)
      ensures InState(Step(w, e).table, id, if Step(w, e).jobs[job].phase == Running then Transcribing else Completed)
    {
      WorkersHoldRows(w, e, job, id);
    }
    forall id: nat | InState(Step(w, e).table, id, Transcribing)
      ensures exists job: nat :: Works(Step(w, e), job, id)
    {
      RowsHaveWorkers(w, e, id);
    }
  }

  lemma DisturbingBreaks(w: World, e: Event)
    requires Exclusive(w) && Enabled(w, e) && Disturbs(w, e)
    ensures !Exclusive(Step(w, e))
  {
    var job: nat :| job < |w.jobs| && w.jobs[job].session == e.id && w.jobs[job].phase != Over;
    assert Works(w, job, e.id);
    assert Works(Step(w, e), job, e.id);
  }

  /** Rows stay in step with their jobs through a step exactly when it does not upload to or delete a session
      some job still works on. Losing that much is harmless by itself; see `OneRunnerIffNotOvertaken`. */
  lemma ExclusiveIffUndisturbed(w: World, e: Event)
    requires Exclusive(w) && Enabled(w, e)
    ensures Exclusive(Step(w, e)) <==> !Disturbs(w, e)
  {
    if Disturbs(w, e) {
      DisturbingBreaks(w, e);
    } else {
      UndisturbedKeeps(w, e);
    }
  }

  ghost predicate Undisturbed(w: World, events: seq<Event>)
    requires Runs(w, events)
    decreases |events|
  {
    events == [] || (!Disturbs(w, events[0]) && Undisturbed(Step(w, events[0]), events[1..]))
  }

  lemma {:induction false} RunKeeps(w: World, events: seq<Event>)
    requires Exclusive(w) && Runs(w, events) && Undisturbed(w, events)
    ensures Exclusive(After(w, events))
    decreases |events|
  {
    if events != [] {
      ExclusiveIffUndisturbed(w, events[0]);
      RunKeeps(Step(w, events[0]), events[1..]);
    }
  }

  /** With no upload or deletion during a job: a session is `transcribing` exactly when one job has yet to
      record its outcome, and then exactly one has. */
  lemma ClaimsAreExclusive(events: seq<Event>, w: World, id: nat)
    requires Runs(EMPTY, events) && Undisturbed(EMPTY, events) && w == After(EMPTY, events)
    ensures InState(w.table, id, Transcribing) <==>
      exists job: nat :: Works(w, job, id) && w.jobs[job].phase == Running
    ensures forall a: nat, b: nat :: Works(w, a, id) && Works(w, b, id) ==> a == b
  {
    RunKeeps(EMPTY, events);
    if InState(w.table, id, Transcribing) {
      var job: nat :| Works(w, job, id);
      assert w.jobs[job].phase == Running;
    }
  }

  /** A re-upload during a job lets a second job claim the session, and the stale job's result is then
      stored under the second one's claim. */
  lemma StaleJobsCanCollide(terms: Terms, final: Final, events: seq<Event>)
    requires events == [Create(0, terms), Upload(0, "a"), Claim(0), Upload(0, "b"), Claim(0), Persist(0, final)]
    ensures Runs(EMPTY, events)
    ensures var w := After(EMPTY, events);
      && InState(w.table, 0, Completed) && w.table[0].transcript == Some(final.transcript)
      && w.jobs == [Job(0, Kept), Job(0, Running)]
  {
    var w1 := Step(EMPTY, events[0]);
    var w2 := Step(w1, events[1]);
    var w3 := Step(w2, events[2]);
    var w4 := Step(w3, events[3]);
    var w5 := Step(w4, events[4]);
    assert w5.jobs == [Job(0, Running), Job(0, Running)];
    var w6 := Step(w5, events[5]);
    assert w6.jobs == [Job(0, Kept), Job(0, Running)];
    var e1, e2, e3, e4, e5 := events[1..], events[2..], events[3..], events[4..], events[5..];
    assert e5[1..] == [] && e4[1..] == e5 && e3[1..] == e4 && e2[1..] == e3 && e1[1..] == e2;
    assert Runs(w5, e5) && After(w5, e5) == w6;
    assert Runs(w4, e4) && After(w4, e4) == w6;
    assert Runs(w3, e3) && After(w3, e3) == w6;
    assert Runs(w2, e2) && After(w2, e2) == w6;
    assert Runs(w1, e1) && After(w1, e1) == w6;
  }

  // ---------------------------------------------------------------- every run

  /** The job still has to record its outcome. */
  ghost predicate Runner(w: World, job: nat, id: nat) {
    job < |w.jobs| && w.jobs[job].session == id && w.jobs[job].phase == Running
  }

  /** The job holds the latest claim of the session. */
  ghost predicate Latest(w: World, job: nat, id: nat) {
    && job < |w.jobs| && w.jobs[job].session == id
    && forall later: nat :: job < later < |w.jobs| ==> w.jobs[later].session != id
  }

  /** Whoever claimed a `transcribing` session last is still running. */
  ghost predicate Attended(w: World) {
    forall id: nat :: InState(w.table, id, Transcribing) ==> exists job: nat :: Runner(w, job, id) && Latest(w, job, id)
  }

  lemma StepAttends(w: World, e: Event, id: nat)
    requires Attended(w) && Enabled(w, e) && InState(Step(w, e).table, id, Transcribing)
    ensures exists job: nat :: Runner(Step(w, e), job, id) && Latest(Step(w, e), job, id)
  {
    if InState(w.table, id, Transcribing) {
      var job: nat :| Runner(w, job, id) && Latest(w, job, id);
      assert Runner(Step(w, e), job, id) && Latest(Step(w, e), job, id);
    } else {
      assert Runner(Step(w, e), |w.jobs|, id) && Latest(Step(w, e), |w.jobs|, id);
    }
  }

  lemma {:induction false} RunAttends(w: World, events: seq<Event>)
    requires Attended(w) && Runs(w, events)
    ensures Attended(After(w, events))
    decreases |events|
  {
    if events != [] {
      forall id: nat | InState(Step(w, events[0]).table, id, Transcribing)
        ensures exists job: nat :: Runner(Step(w, events[0]), job, id) && Latest(Step(w, events[0]), job, id)
      {
        StepAttends(w, events[0], id);
      }
      RunAttends(Step(w, events[0]), events[1..]);
    }
  }

  /** No session is ever stranded: in every run, uploads and deletions during jobs included, a session is
      `transcribing` only while a job on it, the one that claimed it last, has yet to record its outcome. */
  lemma NoneIsStranded(events: seq<Event>, w: World, id: nat) returns (job: nat)
    requires Runs(EMPTY, events) && w == After(EMPTY, events)
    requires InState(w.table, id, Transcribing)
    ensures Runner(w, job, id) && Latest(w, job, id)
  {
    RunAttends(EMPTY, events);
    job :| Runner(w, job, id) && Latest(w, job, id);
  }

  /** However a job records its outcome, its session is out of `transcribing` afterwards, and no other
      session is touched. */
  lemma OutcomeFreesTheRow(w: World, e: Event)
    requires Enabled(w, e) && (e.Persist? || e.Fail?)
    ensures var id := w.jobs[e.job].session;
      && !InState(Step(w, e).table, id, Transcribing)
      && Step(w, e).table - {id} == w.table - {id}
      && Step(w, e).table.Keys == w.table.Keys
  {
  }

  // ---------------------------------------------------------------- whose result is stored

  /** A `transcribing` session has one running job. */
  ghost predicate OneRunner(w: World) {
    forall id: nat :: InState(w.table, id, Transcribing) ==>
      && (exists job: nat :: Runner(w, job, id))
      && (forall a: nat, b: nat :: Runner(w, a, id) && Runner(w, b, id) ==> a == b)
  }

  /** A claim that succeeds while an earlier job on the session has yet to record its outcome. */
  ghost predicate Overtakes(w: World, e: Event) {
    e.Claim? && CanClaim(w.table, e.id) && exists job: nat :: Runner(w, job, e.id)
  }

  lemma OvertakingBreaks(w: World, e: Event)
    requires Enabled(w, e) && Overtakes(w, e)
    ensures !OneRunner(Step(w, e))
  {
    var job: nat :| Runner(w, job, e.id);
    assert Runner(Step(w, e), job, e.id) && Runner(Step(w, e), |w.jobs|, e.id);
    assert InState(Step(w, e).table, e.id, Transcribing);
  }

  /** A job that runs after a step ran before it, or has just been claimed. */
  lemma RunnerBefore(w: World, e: Event, job: nat, id: nat)
    requires Enabled(w, e) && Runner(Step(w, e), job, id)
    ensures Runner(w, job, id) || (e == Claim(id) && CanClaim(w.table, id) && job == |w.jobs|)
  {
  }

  lemma OneRunnerStays(w: World, e: Event, id: nat)
    requires OneRunner(w) && Enabled(w, e) && !Overtakes(w, e) && InState(Step(w, e).table, id, Transcribing)
    ensures exists job: nat :: Runner(Step(w, e), job, id)
    ensures forall a: nat, b: nat :: Runner(Step(w, e), a, id) && Runner(Step(w, e), b, id) ==> a == b
  {
    if InState(w.table, id, Transcribing) {
      var job: nat :| Runner(w, job, id);
      assert Runner(Step(w, e), job, id);
    } else {
      assert e == Claim(id) && CanClaim(w.table, id);
      assert Runner(Step(w, e), |w.jobs|, id);
    }
    forall a: nat, b: nat | Runner(Step(w, e), a, id) && Runner(Step(w, e), b, id)
      ensures a == b
    {
      RunnerBefore(w, e, a, id);
      RunnerBefore(w, e, b, id);
    }
  }

  /** One job per `transcribing` session survives a step exactly when the step is not an overtaking claim:
      uploads and deletions during a job do no harm by themselves. */
  lemma OneRunnerIffNotOvertaken(w: World, e: Event)
    requires OneRunner(w) && Enabled(w, e)
    ensures OneRunner(Step(w, e)) <==> !Overtakes(w, e)
  {
    if Overtakes(w, e) {
      OvertakingBreaks(w, e);
    } else {
      forall id: nat | InState(Step(w, e).table, id, Transcribing)
        ensures exists job: nat :: Runner(Step(w, e), job, id)
        ensures forall a: nat, b: nat :: Runner(Step(w, e), a, id) && Runner(Step(w, e), b, id) ==> a == b
      {
        OneRunnerStays(w, e, id);
      }
    }
  }

  ghost predicate NeverOvertaken(w: World, events: seq<Event>)
    requires Runs(w, events)
    decreases |events|
  {
    events == [] || (!Overtakes(w, events[0]) && NeverOvertaken(Step(w, events[0]), events[1..]))
  }

  lemma {:induction false} RunKeepsOneRunner(w: World, events: seq<Event>)
    requires OneRunner(w) && Runs(w, events) && NeverOvertaken(w, events)
    ensures OneRunner(After(w, events))
    decreases |events|
  {
    if events != [] {
      OneRunnerIffNotOvertaken(w, events[0]);
      RunKeepsOneRunner(Step(w, events[0]), events[1..]);
    }
  }

  ghost predicate AlwaysOneRunner(w: World, events: seq<Event>)
    requires Runs(w, events)
    decreases |events|
  {
    OneRunner(w) && (events == [] || AlwaysOneRunner(Step(w, events[0]), events[1..]))
  }

  /** So a whole run has one running job per `transcribing` session, at every moment, exactly when it holds
      no overtaking claim. */
  lemma {:induction false} OneRunnerThroughout(w: World, events: seq<Event>)
    requires OneRunner(w) && Runs(w, events)
    ensures AlwaysOneRunner(w, events) <==> NeverOvertaken(w, events)
    decreases |events|
  {
    if events != [] {
      OneRunnerIffNotOvertaken(w, events[0]);
      if OneRunner(Step(w, events[0])) {
        OneRunnerThroughout(Step(w, events[0]), events[1..]);
      }
    }
  }

  /** Without an overtaking claim every stored result belongs to the latest claim of its session, uploads
      and deletions during jobs allowed. */
  lemma StoredResultsAreLatest(events: seq<Event>, w: World, job: nat, final: Final)
    requires Runs(EMPTY, events) && NeverOvertaken(EMPTY, events) && w == After(EMPTY, events)
    requires Enabled(w, Persist(job, final))
    ensures var id := w.jobs[job].session; var next := Step(w, Persist(job, final));
      && (next.jobs[job].phase == Kept <==> InState(w.table, id, Transcribing))
      && (next.jobs[job].phase == Kept ==> Latest(w, job, id) && next.table == CompletedIn(w.table, id, final))
      && (next.jobs[job].phase != Kept ==> next.table == w.table)
  {
    var id := w.jobs[job].session;
    RunKeepsOneRunner(EMPTY, events);
    assert Runner(w, job, id);
    if InState(w.table, id, Transcribing) {
      var latest := NoneIsStranded(events, w, id);
      assert latest == job;
    }
  }

  /** At any moment of any run, a job that is not the latest could store its result exactly when some
      `transcribing` session has two running jobs. */
  lemma StaleResultIffTwoRunners(events: seq<Event>, w: World, final: Final)
    requires Runs(EMPTY, events) && w == After(EMPTY, events)
    ensures OneRunner(w) <==>
      forall job: nat :: Enabled(w, Persist(job, final)) && InState(w.table, w.jobs[job].session, Transcribing) ==>
        Latest(w, job, w.jobs[job].session)
  {
    if OneRunner(w) {
      forall job: nat | Enabled(w, Persist(job, final)) && InState(w.table, w.jobs[job].session, Transcribing)
        ensures Latest(w, job, w.jobs[job].session)
      {
        assert Runner(w, job, w.jobs[job].session);
        var latest := NoneIsStranded(events, w, w.jobs[job].session);
      }
    } else {
      var id: nat :| InState(w.table, id, Transcribing) &&
        !((exists job: nat :: Runner(w, job, id)) &&
          (forall a: nat, b: nat :: Runner(w, a, id) && Runner(w, b, id) ==> a == b));
      var latest := NoneIsStranded(events, w, id);
      var a: nat, b: nat :| Runner(w, a, id) && Runner(w, b, id) && a != b;
      assert Enabled(w, Persist(a, final)) && Enabled(w, Persist(b, final));
    }
  }

  // ---------------------------------------------------------------- whose outcome is recorded

  /** A `transcribing` session has a running job, and no other job on it is unfinished, not even one that has
      stored its result and only writes its metrics. */
  ghost predicate OneLive(w: World) {
    forall id: nat :: InState(w.table, id, Transcribing) ==>
      && (exists job: nat :: Runner(w, job, id))
      && (forall a: nat, b: nat :: Works(w, a, id) && Works(w, b, id) ==> a == b)
  }

  /** A claim that succeeds while an earlier job on the session is unfinished. */
  ghost predicate OvertakesLive(w: World, e: Event) {
    e.Claim? && CanClaim(w.table, e.id) && exists job: nat :: Works(w, job, e.id)
  }

  lemma OvertakingLiveBreaks(w: World, e: Event)
    requires Enabled(w, e) && OvertakesLive(w, e)
    ensures !OneLive(Step(w, e))
  {
    var job: nat :| Works(w, job, e.id);
    assert Works(Step(w, e), job, e.id) && Works(Step(w, e), |w.jobs|, e.id);
    assert InState(Step(w, e).table, e.id, Transcribing);
  }

  lemma OneLiveStays(w: World, e: Event, id: nat)
    requires OneLive(w) && Enabled(w, e) && !OvertakesLive(w, e) && InState(Step(w, e).table, id, Transcribing)
    ensures exists job: nat :: Runner(Step(w, e), job, id)
    ensures forall a: nat, b: nat :: Works(Step(w, e), a, id) && Works(Step(w, e), b, id) ==> a == b
  {
    if InState(w.table, id, Transcribing) {
      var job: nat :| Runner(w, job, id);
      assert Runner(Step(w, e), job, id);
    } else {
      assert e == Claim(id) && CanClaim(w.table, id);
      assert Runner(Step(w, e), |w.jobs|, id);
    }
    forall a: nat, b: nat | Works(Step(w, e), a, id) && Works(Step(w, e), b, id)
      ensures a == b
    {
      WorksAfter(w, e, a, id);
      WorksAfter(w, e, b, id);
    }
  }

  /** One unfinished job per `transcribing` session survives a step exactly when the step is no successful
      claim of a session that a job still works on. */
  lemma OneLiveIffNotOvertaken(w: World, e: Event)
    requires OneLive(w) && Enabled(w, e)
    ensures OneLive(Step(w, e)) <==> !OvertakesLive(w, e)
  {
    if OvertakesLive(w, e) {
      OvertakingLiveBreaks(w, e);
    } else {
      forall id: nat | InState(Step(w, e).table, id, Transcribing)
        ensures exists job: nat :: Runner(Step(w, e), job, id)
        ensures forall a: nat, b: nat :: Works(Step(w, e), a, id) && Works(Step(w, e), b, id) ==> a == b
      {
        OneLiveStays(w, e, id);
      }
    }
  }

  ghost predicate NeverOvertakenLive(w: World, events: seq<Event>)
    requires Runs(w, events)
    decreases |events|
  {
    events == [] || (!OvertakesLive(w, events[0]) && NeverOvertakenLive(Step(w, events[0]), events[1..]))
  }

  ghost predicate AlwaysOneLive(w: World, events: seq<Event>)
    requires Runs(w, events)
    decreases |events|
  {
    OneLive(w) && (events == [] || AlwaysOneLive(Step(w, events[0]), events[1..]))
  }

  /** So a whole run has one unfinished job per `transcribing` session, at every moment, exactly when it holds
      no such claim. */
  lemma {:induction false} OneLiveThroughout(w: World, events: seq<Event>)
    requires OneLive(w) && Runs(w, events)
    ensures AlwaysOneLive(w, events) <==> NeverOvertakenLive(w, events)
    ensures NeverOvertakenLive(w, events) ==> OneLive(After(w, events))
    decreases |events|
  {
    if events != [] {
      OneLiveIffNotOvertaken(w, events[0]);
      if OneLive(Step(w, events[0])) {
        OneLiveThroughout(Step(w, events[0]), events[1..]);
      }
    }
  }

  /** The three conditions on a run, weakest last. */
  lemma {:induction false} ConditionsAreOrdered(w: World, events: seq<Event>)
    requires Runs(w, events)
    ensures Exclusive(w) && Undisturbed(w, events) ==> NeverOvertakenLive(w, events)
    ensures NeverOvertakenLive(w, events) ==> NeverOvertaken(w, events)
    decreases |events|
  {
    if events != [] {
      var e := events[0];
      if Overtakes(w, e) {
        var job: nat :| Runner(w, job, e.id);
        assert Works(w, job, e.id);
      }
      if Exclusive(w) && !Disturbs(w, e) {
        UndisturbedKeeps(w, e);
      }
      ConditionsAreOrdered(Step(w, e), events[1..]);
    }
  }

  predicate IsOutcome(e: Event) {
    e.Persist? || e.Fail?
  }

  /** An outcome changes the table exactly when it finds its session `transcribing`. */
  lemma OutcomeChangesIff(w: World, e: Event)
    requires Enabled(w, e) && IsOutcome(e)
    ensures Step(w, e).table != w.table <==> InState(w.table, w.jobs[e.job].session, Transcribing)
  {
    var id := w.jobs[e.job].session;
    OutcomeFreesTheRow(w, e);
    if !InState(w.table, id, Transcribing) {
      assert Step(w, e).table == w.table;
    }
  }

  /** At any moment of any run, a job that is not the latest could change a row by its failure, whatever the
      failure, exactly when some `transcribing` session has two unfinished jobs. */
  lemma StaleFailureIffTwoLive(events: seq<Event>, w: World, failure: Failure)
    requires Runs(EMPTY, events) && w == After(EMPTY, events)
    ensures OneLive(w) <==>
      forall job: nat :: Enabled(w, Fail(job, failure)) && Step(w, Fail(job, failure)).table != w.table ==>
        Latest(w, job, w.jobs[job].session)
  {
    if OneLive(w) {
      forall job: nat | Enabled(w, Fail(job, failure)) && Step(w, Fail(job, failure)).table != w.table
        ensures Latest(w, job, w.jobs[job].session)
      {
        OutcomeChangesIff(w, Fail(job, failure));
        var latest := NoneIsStranded(events, w, w.jobs[job].session);
        assert Works(w, latest, w.jobs[job].session) && Works(w, job, w.jobs[job].session);
      }
    } else {
      var id: nat :| InState(w.table, id, Transcribing) &&
        !((exists job: nat :: Runner(w, job, id)) &&
          (forall a: nat, b: nat :: Works(w, a, id) && Works(w, b, id) ==> a == b));
      var latest := NoneIsStranded(events, w, id);
      var a: nat, b: nat :| Works(w, a, id) && Works(w, b, id) && a != b;
      OutcomeChangesIff(w, Fail(a, failure));
      OutcomeChangesIff(w, Fail(b, failure));
      assert !(Latest(w, a, id) && Latest(w, b, id));
    }
  }

  /** In a run where no claim overtakes an unfinished job, uploads and deletions during jobs allowed, an outcome
      that changes a row is the first one of the latest claim and takes that row, and no other, out of
      `transcribing`; a superseded job's outcome, and a failure after a stored result, change nothing. */
  lemma OutcomesAreLatest(events: seq<Event>, w: World, e: Event)
    requires Runs(EMPTY, events) && NeverOvertakenLive(EMPTY, events) && w == After(EMPTY, events)
    requires Enabled(w, e) && IsOutcome(e)
    ensures var id, next := w.jobs[e.job].session, Step(w, e).table;
      && (next != w.table <==> InState(w.table, id, Transcribing))
      && (next != w.table ==> Latest(w, e.job, id) && w.jobs[e.job].phase == Running)
      && !InState(next, id, Transcribing) && next - {id} == w.table - {id} && next.Keys == w.table.Keys
  {
    var id := w.jobs[e.job].session;
    OneLiveThroughout(EMPTY, events);
    OutcomeFreesTheRow(w, e);
    OutcomeChangesIff(w, e);
    if InState(w.table, id, Transcribing) {
      var latest := NoneIsStranded(events, w, id);
      assert Works(w, latest, id) && Works(w, e.job, id);
    }
  }

  lemma RunsCons(w: World, e: Event, rest: seq<Event>)
    requires Enabled(w, e) && Runs(Step(w, e), rest)
    ensures Runs(w, [e] + rest) && After(w, [e] + rest) == After(Step(w, e), rest)
    ensures NeverOvertaken(w, [e] + rest) <==> !Overtakes(w, e) && NeverOvertaken(Step(w, e), rest)
    ensures NeverOvertakenLive(w, [e] + rest) <==> !OvertakesLive(w, e) && NeverOvertakenLive(Step(w, e), rest)
  {
    assert ([e] + rest)[1..] == rest;
  }

  /** After a stored result: a re-upload, its claim, and the failure of the job that stored the result. */
  lemma LateFailure(w: World, events: seq<Event>)
    requires w.jobs == [Job(0, Kept)] && InState(w.table, 0, Completed)
    requires events == [Upload(0, "b")] + ([Claim(0)] + ([Fail(0, Unmapped)] + []))
    ensures Runs(w, events) && NeverOvertaken(w, events) && !NeverOvertakenLive(w, events)
    ensures var end := After(w, events); InState(end.table, 0, Failed) && end.jobs == [Job(0, Over), Job(0, Running)]
  {
    var w1 := Step(w, Upload(0, "b"));
    var w2 := Step(w1, Claim(0));
    assert w2.jobs == [Job(0, Kept), Job(0, Running)];
    assert Works(w1, 0, 0) && OvertakesLive(w1, Claim(0));
    var w3 := Step(w2, Fail(0, Unmapped));
    assert w3.jobs == [Job(0, Over), Job(0, Running)];
    RunsCons(w2, Fail(0, Unmapped), []);
    RunsCons(w1, Claim(0), [Fail(0, Unmapped)] + []);
    RunsCons(w, Upload(0, "b"), [Claim(0)] + ([Fail(0, Unmapped)] + []));
  }

  /** One running job per session is not enough: a job that has stored its result, and whose metrics raise after
      a re-upload was claimed, marks the row of the later job failed while that one is still running. */
  lemma LateFailureCanCollide(terms: Terms, final: Final) returns (events: seq<Event>)
    ensures Runs(EMPTY, events) && NeverOvertaken(EMPTY, events) && !NeverOvertakenLive(EMPTY, events)
    ensures var w := After(EMPTY, events);
      && InState(w.table, 0, Failed) && w.jobs == [Job(0, Over), Job(0, Running)] && Latest(w, 1, 0)
  {
    var w1 := Step(EMPTY, Create(0, terms));
    var w2 := Step(w1, Upload(0, "a"));
    var w3 := Step(w2, Claim(0));
    assert w3.jobs == [Job(0, Running)];
    var w4 := Step(w3, Persist(0, final));
    assert w4.jobs == [Job(0, Kept)];
    events := [Upload(0, "b")] + ([Claim(0)] + ([Fail(0, Unmapped)] + []));
    LateFailure(w4, events);
    RunsCons(w3, Persist(0, final), events);
    events := [Persist(0, final)] + events;
    RunsCons(w2, Claim(0), events);
    events := [Claim(0)] + events;
    RunsCons(w1, Upload(0, "a"), events);
    events := [Upload(0, "a")] + events;
    RunsCons(EMPTY, Create(0, terms), events);
    events := [Create(0, terms)] + events;
  }

  // ---------------------------------------------------------------- what undisturbed runs record

  /** In an undisturbed run a refusal gives the session back as uploaded with its audio, any other failure
      leaves it retryable with its code, and a failure after the result was stored changes nothing. */
  lemma OutcomesAreRecorded(events: seq<Event>, w: World, job: nat, failure: Failure)
    requires Runs(EMPTY, events) && Undisturbed(EMPTY, events) && w == After(EMPTY, events)
    requires Enabled(w, Fail(job, failure))
    ensures var id, next := w.jobs[job].session, Step(w, Fail(job, failure)).table;
      && id in w.table && id in next
      && (w.jobs[job].phase == Kept ==> next == w.table && next[id].state == Completed)
      && (w.jobs[job].phase == Running && failure == Unattempted ==>
            next[id] == w.table[id].(state := Uploaded, errorCode := None))
      && (w.jobs[job].phase == Running && failure != Unattempted ==>
            next[id] == w.table[id].(state := Failed, errorCode := Some(FailureCode(failure))) && CanClaim(next, id))
  {
    RunKeeps(EMPTY, events);
    assert Works(w, job, w.jobs[job].session);
  }

  /** In an undisturbed run the result a job persists is what the row holds when the job ends. */
  lemma ResultsAreStored(events: seq<Event>, w: World, job: nat, final: Final)
    requires Runs(EMPTY, events) && Undisturbed(EMPTY, events) && w == After(EMPTY, events)
    requires Enabled(w, Persist(job, final))
    ensures var id, next := w.jobs[job].session, Step(w, Persist(job, final));
      && InState(next.table, id, Completed) && next.jobs[job].phase == Kept
      && next.table[id].transcript == Some(final.transcript)
      && next.table[id].originalTranscript == final.original && next.table[id].record == final.record
      && next.table[id].errorCode == None && next.table[id].terms == w.table[id].terms
  {
    RunKeeps(EMPTY, events);
    assert Works(w, job, w.jobs[job].session);
  }

  /** Language, style, job id and cleanup snapshot never change between creation and deletion. */
  lemma {:induction false} TermsNeverChange(w: World, events: seq<Event>, id: nat)
    requires Runs(w, events) && id in w.table && Delete(id) !in events
    ensures id in After(w, events).table && After(w, events).table[id].terms == w.table[id].terms
    decreases |events|
  {
    if events != [] {
      assert events[0] in events && forall e <- events[1..] :: e in events;
      TermsNeverChange(Step(w, events[0]), events[1..], id);
    }
  }
}
