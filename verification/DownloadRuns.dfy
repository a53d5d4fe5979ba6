/** A batch of parallel workers over one counter and one staging directory: `_DownloadBatch` of
    app/model_manager.py, with chunk writes and rollbacks of different workers interleaved freely. */
module DownloadRuns {
  import opened Options
  import opened Downloads

  const MAX_PARALLEL := 4

  datatype Order = Order(name: string, pin: Option<Digest>)

  /** Waiting for the semaphore; reading a response (not yet, or already, opened on disk); sleeping
      before the next attempt; or stopped for good. */
  datatype Phase =
    | Waiting
    | Reading(attempt: nat, onDisk: bool, announced: Option<nat>)
    | Resting(attempt: nat)
    | Returned
    | Exhausted
    | Broke(cancelled: bool)

  datatype Worker = Worker(order: Order, phase: Phase, received: Bytes)

  datatype Batch = Batch(downloaded: nat, disk: map<string, Bytes>, workers: seq<Worker>, cancelled: bool)

  datatype Event =
    | Begin(w: nat)
    | Open(w: nat, announced: Option<nat>)
    | Chunk(w: nat, data: Bytes)
    | End(w: nat)
    | Drop(w: nat)
    | Break(w: nat)
    | CancelAll

  function View(b: Batch, w: nat): Transfer
    requires w < |b.workers|
  {
    Transfer(b.downloaded, b.disk, b.workers[w].received)
  }

  function With(b: Batch, w: nat, t: Transfer, phase: Phase): Batch
    requires w < |b.workers|
  {
    b.(downloaded := t.downloaded, disk := t.disk,
       workers := b.workers[w := Worker(b.workers[w].order, phase, t.received)])
  }

  predicate InFlight(worker: Worker) {
    worker.phase.Reading? || worker.phase.Resting?
  }

  function Flying(workers: seq<Worker>): nat {
    if workers == [] then 0 else (if InFlight(workers[0]) then 1 else 0) + Flying(workers[1..])
  }

  /** A retryable error: roll back, then rest, or give up after the last attempt, which stops the batch. */
  function Retried(b: Batch, w: nat): Batch
    requires w < |b.workers| && b.workers[w].phase.Reading?
  {
    var attempt := b.workers[w].phase.attempt;
    var undone := RolledBack(View(b, w), b.workers[w].order.name);
    if attempt == ATTEMPTS then With(b, w, undone, Exhausted).(cancelled := true)
    else With(b, w, undone, Resting(attempt))
  }

  predicate IsReading(b: Batch, w: nat, onDisk: bool) {
    w < |b.workers| && b.workers[w].phase.Reading? && b.workers[w].phase.onDisk == onDisk
  }

  predicate Enabled(b: Batch, e: Event) {
    match e
    case Begin(w) =>
      && w < |b.workers|
      && (b.workers[w].phase.Resting? || (b.workers[w].phase.Waiting? && Flying(b.workers) < MAX_PARALLEL))
    case Open(w, _) => IsReading(b, w, false)
    case Chunk(w, data) => IsReading(b, w, true) && data != []
    case End(w) => IsReading(b, w, true)
    case Drop(w) => w < |b.workers| && b.workers[w].phase.Reading?
    case Break(w) => w < |b.workers| && b.workers[w].phase.Reading?
    case CancelAll => true
  }

  predicate ReadsRight(worker: Worker, hash: Hash)
    requires worker.phase.Reading?
  {
    && SizeAccepted(worker.phase.announced, worker.received)
    && DigestAccepted(worker.order.pin, hash(worker.received))
  }

  function Step(b: Batch, e: Event, hash: Hash): Batch
    requires Enabled(b, e)
  {
    match e
    case Begin(w) =>
      var worker := b.workers[w];
      if worker.phase.Waiting? then
        if b.cancelled then With(b, w, View(b, w), Broke(true))
        else With(b, w, Begun(View(b, w)), Reading(1, false, None))
      else With(b, w, Begun(View(b, w)), Reading(worker.phase.attempt + 1, false, None))
    case Open(w, announced) =>
      var worker := b.workers[w];
      With(b, w, Opened(View(b, w), worker.order.name), Reading(worker.phase.attempt, true, announced))
    case Chunk(w, data) =>
      if b.cancelled then With(b, w, View(b, w), Broke(true))
      else With(b, w, Wrote(View(b, w), b.workers[w].order.name, data), b.workers[w].phase)
    case End(w) =>
      var worker := b.workers[w];
      if ReadsRight(worker, hash)
      then With(b, w, View(b, w), Returned)
      else Retried(b, w)
    case Drop(w) => Retried(b, w)
    case Break(w) => With(b, w, View(b, w), Broke(false)).(cancelled := true)
    case CancelAll => b.(cancelled := true)
  }

  ghost predicate Runs(b: Batch, events: seq<Event>, hash: Hash)
    decreases |events|
  {
    events == [] || (Enabled(b, events[0]) && Runs(Step(b, events[0], hash), events[1..], hash))
  }

  ghost function After(b: Batch, events: seq<Event>, hash: Hash): Batch
    requires Runs(b, events, hash)
    decreases |events|
  {
    if events == [] then b else After(Step(b, events[0], hash), events[1..], hash)
  }

  /** A batch before it starts; the directory was just made, or holds one leftover file to overwrite. */
  ghost predicate Fresh(b: Batch, downloaded: nat) {
    && b.downloaded == downloaded && !b.cancelled
    && (forall w :: 0 <= w < |b.workers| ==> b.workers[w].phase == Waiting && b.workers[w].received == [])
    && (forall v, w :: 0 <= v < w < |b.workers| ==> b.workers[v].order.name != b.workers[w].order.name)
  }

  // ---------------------------------------------------------------- accounting

  /** What a worker currently adds to the shared counter, net of its rollbacks. */
  function Share(worker: Worker): nat {
    if worker.phase.Resting? || worker.phase.Exhausted? then 0 else |worker.received|
  }

  function Shares(workers: seq<Worker>): nat {
    if workers == [] then 0 else Share(workers[0]) + Shares(workers[1..])
  }

  lemma {:induction false} SharesMove(workers: seq<Worker>, w: nat, worker: Worker)
    requires w < |workers|
    ensures Shares(workers[w := worker]) + Share(workers[w]) == Shares(workers) + Share(worker)
    ensures Flying(workers[w := worker]) + (if InFlight(workers[w]) then 1 else 0)
      == Flying(workers) + (if InFlight(worker) then 1 else 0)
    ensures Share(workers[w]) <= Shares(workers)
    decreases |workers|
  {
    if w == 0 {
      assert workers[0 := worker][1..] == workers[1..];
    } else {
      SharesMove(workers[1..], w - 1, worker);
      assert workers[w := worker][1..] == workers[1..][w - 1 := worker];
    }
  }

  ghost predicate Named(b: Batch) {
    forall v, w :: 0 <= v < w < |b.workers| ==> b.workers[v].order.name != b.workers[w].order.name
  }

  /** Where a worker's file stands on disk. */
  ghost predicate Filed(worker: Worker, disk: map<string, Bytes>, hash: Hash) {
    var name := worker.order.name;
    match worker.phase
    case Waiting => worker.received == []
    case Reading(attempt, onDisk, _) =>
      && 1 <= attempt <= ATTEMPTS
      && (if onDisk then name in disk && disk[name] == worker.received else worker.received == [])
    case Resting(attempt) => 1 <= attempt < ATTEMPTS && name !in disk
    case Returned =>
      name in disk && disk[name] == worker.received && DigestAccepted(worker.order.pin, hash(worker.received))
    case Exhausted => name !in disk
    case Broke(_) => true
  }

  ghost predicate Inv(b: Batch, hash: Hash, downloaded: nat) {
    && b.downloaded == downloaded + Shares(b.workers)
    && Flying(b.workers) <= MAX_PARALLEL
    && Named(b)
    && (forall w :: 0 <= w < |b.workers| ==> Filed(b.workers[w], b.disk, hash))
    && ((exists w :: 0 <= w < |b.workers| && (b.workers[w].phase.Exhausted? || b.workers[w].phase.Broke?)) ==>
          b.cancelled)
  }

  /** One worker's transition that touches only its own file and counts what it received. */
  lemma OneWorkerKeeps(b: Batch, w: nat, t: Transfer, phase: Phase, cancelled: bool, hash: Hash, downloaded: nat)
    requires Inv(b, hash, downloaded) && w < |b.workers|
    requires var worker := Worker(b.workers[w].order, phase, t.received);
      && Filed(worker, t.disk, hash)
      && t.downloaded + Share(b.workers[w]) == b.downloaded + Share(worker)
      && t.disk - {worker.order.name} == b.disk - {worker.order.name}
      && (InFlight(worker) ==> InFlight(b.workers[w]) || Flying(b.workers) < MAX_PARALLEL)
    requires (phase.Exhausted? || phase.Broke? || b.cancelled) ==> cancelled
    ensures Inv(With(b, w, t, phase).(cancelled := cancelled), hash, downloaded)
  {
    var worker := Worker(b.workers[w].order, phase, t.received);
    var next := With(b, w, t, phase).(cancelled := cancelled);
    SharesMove(b.workers, w, worker);
    forall v | 0 <= v < |next.workers|
      ensures Filed(next.workers[v], next.disk, hash)
    {
      if v != w {
        OtherFileKept(b, next, v, w);
      }
    }
  }

  lemma OtherFileKept(b: Batch, next: Batch, v: nat, w: nat)
    requires Named(b) && v < |b.workers| && w < |b.workers| && v != w
    requires next.disk - {b.workers[w].order.name} == b.disk - {b.workers[w].order.name}
    ensures var name := b.workers[v].order.name;
      (name in next.disk <==> name in b.disk) && (name in b.disk ==> next.disk[name] == b.disk[name])
  {
    var name, mine := b.workers[v].order.name, b.workers[w].order.name;
    assert name != mine by {
      if v < w {
        assert b.workers[v].order.name != b.workers[w].order.name;
      } else {
        assert b.workers[w].order.name != b.workers[v].order.name;
      }
    }
    assert name in next.disk <==> name in next.disk - {mine};
    assert name in b.disk <==> name in b.disk - {mine};
    assert name in b.disk ==> (b.disk - {mine})[name] == (next.disk - {mine})[name];
  }

  lemma RetriedKeeps(b: Batch, w: nat, hash: Hash, downloaded: nat)
    requires Inv(b, hash, downloaded) && w < |b.workers| && b.workers[w].phase.Reading?
    ensures b.downloaded >= |b.workers[w].received|
    ensures Inv(Retried(b, w), hash, downloaded)
  {
    SharesMove(b.workers, w, b.workers[w]);
    var attempt := b.workers[w].phase.attempt;
    var undone := RolledBack(View(b, w), b.workers[w].order.name);
    assert Filed(b.workers[w], b.disk, hash);
    if attempt == ATTEMPTS {
      OneWorkerKeeps(b, w, undone, Exhausted, true, hash, downloaded);
    } else {
      OneWorkerKeeps(b, w, undone, Resting(attempt), b.cancelled, hash, downloaded);
    }
  }

  lemma StepKeeps(b: Batch, e: Event, hash: Hash, downloaded: nat)
    requires Inv(b, hash, downloaded) && Enabled(b, e)
    ensures Inv(Step(b, e, hash), hash, downloaded)
  {
    if e.CancelAll? {
      return;
    }
    assert Filed(b.workers[e.w], b.disk, hash);
    var worker, view, name := b.workers[e.w], View(b, e.w), b.workers[e.w].order.name;
    match e
    case Begin(w) =>
      if worker.phase.Waiting? && b.cancelled {
        OneWorkerKeeps(b, w, view, Broke(true), true, hash, downloaded);
      } else {
        var attempt := if worker.phase.Waiting? then 1 else worker.phase.attempt + 1;
        OneWorkerKeeps(b, w, Begun(view), Reading(attempt, false, None), b.cancelled, hash, downloaded);
      }
    case Open(w, announced) =>
      var reading := Reading(worker.phase.attempt, true, announced);
      OneWorkerKeeps(b, w, Opened(view, name), reading, b.cancelled, hash, downloaded);
    case Chunk(w, data) =>
      if b.cancelled {
        OneWorkerKeeps(b, w, view, Broke(true), true, hash, downloaded);
      } else {
        OneWorkerKeeps(b, w, Wrote(view, name, data), worker.phase, false, hash, downloaded);
      }
    case End(w) =>
      if ReadsRight(worker, hash) {
        OneWorkerKeeps(b, w, view, Returned, b.cancelled, hash, downloaded);
      } else {
        RetriedKeeps(b, w, hash, downloaded);
      }
    case Drop(w) => RetriedKeeps(b, w, hash, downloaded);
    case Break(w) => OneWorkerKeeps(b, w, view, Broke(false), true, hash, downloaded);
  }

  lemma {:induction false} RunKeeps(b: Batch, events: seq<Event>, hash: Hash, downloaded: nat)
    requires Inv(b, hash, downloaded) && Runs(b, events, hash)
    ensures Inv(After(b, events, hash), hash, downloaded)
    decreases |events|
  {
    if events != [] {
      StepKeeps(b, events[0], hash, downloaded);
      RunKeeps(Step(b, events[0], hash), events[1..], hash, downloaded);
    }
  }

  lemma {:induction false} NothingShared(workers: seq<Worker>)
    requires forall w :: 0 <= w < |workers| ==> workers[w].phase == Waiting && workers[w].received == []
    ensures Shares(workers) == 0 && Flying(workers) == 0
    decreases |workers|
  {
    if workers != [] {
      NothingShared(workers[1..]);
    }
  }

  ghost predicate Reaches(start: Batch, downloaded: nat, events: seq<Event>, hash: Hash, b: Batch) {
    Fresh(start, downloaded) && Runs(start, events, hash) && b == After(start, events, hash)
  }

  lemma ReachableInv(start: Batch, downloaded: nat, events: seq<Event>, hash: Hash, b: Batch)
    requires Reaches(start, downloaded, events, hash, b)
    ensures Inv(b, hash, downloaded)
  {
    NothingShared(start.workers);
    RunKeeps(start, events, hash, downloaded);
  }

  /** In every interleaving of the workers and their retries the shared counter is the sum of what each
      file currently contributes, at most four are in flight, and no rollback meets its clamp. */
  lemma AccountingIsExact(start: Batch, downloaded: nat, events: seq<Event>, hash: Hash, b: Batch)
    requires Reaches(start, downloaded, events, hash, b)
    ensures b.downloaded == downloaded + Shares(b.workers)
    ensures Flying(b.workers) <= MAX_PARALLEL
    ensures forall w :: 0 <= w < |b.workers| && b.workers[w].phase.Reading? ==> b.downloaded >= |b.workers[w].received|
  {
    ReachableInv(start, downloaded, events, hash, b);
    forall w | 0 <= w < |b.workers| && b.workers[w].phase.Reading?
      ensures b.downloaded >= |b.workers[w].received|
    {
      RetriedKeeps(b, w, hash, downloaded);
    }
  }

  /** A file that returned is on disk with the digest asked for and counts exactly its size; a file given
      up on is gone and counts nothing. */
  lemma FilesAreSettled(start: Batch, downloaded: nat, events: seq<Event>, hash: Hash, b: Batch, w: nat)
    requires Reaches(start, downloaded, events, hash, b) && w < |b.workers|
    ensures var worker := b.workers[w]; var name := worker.order.name;
      && (worker.phase.Returned? ==>
            name in b.disk && Share(worker) == |b.disk[name]| && DigestAccepted(worker.order.pin, hash(b.disk[name])))
      && (worker.phase.Exhausted? ==> name !in b.disk && Share(worker) == 0)
  {
    ReachableInv(start, downloaded, events, hash, b);
    assert Filed(b.workers[w], b.disk, hash);
  }

  // ---------------------------------------------------------------- the outcome of a batch

  predicate Settled(worker: Worker) {
    worker.phase.Returned? || worker.phase.Exhausted? || worker.phase.Broke?
  }

  /** `run` reports a failure first, then a cancellation, and otherwise success. */
  datatype Outcome = Complete | Failed | Cancelled

  function OutcomeOf(workers: seq<Worker>): Outcome {
    if exists w :: 0 <= w < |workers| && (workers[w].phase.Exhausted? || workers[w].phase == Broke(false)) then Failed
    else if exists w :: 0 <= w < |workers| && workers[w].phase == Broke(true) then Cancelled
    else Complete
  }

  /** Every ordered file is there, and every pinned one is what it was pinned to. */
  ghost predicate Delivers(orders: seq<Order>, disk: map<string, Bytes>, hash: Hash) {
    forall k :: 0 <= k < |orders| ==>
      orders[k].name in disk && DigestAccepted(orders[k].pin, hash(disk[orders[k].name]))
  }

  function Orders(workers: seq<Worker>): seq<Order> {
    seq(|workers|, w requires 0 <= w < |workers| => workers[w].order)
  }

  lemma {:induction false} OrdersKept(b: Batch, events: seq<Event>, hash: Hash)
    requires Runs(b, events, hash)
    ensures Orders(After(b, events, hash).workers) == Orders(b.workers)
    decreases |events|
  {
    if events != [] {
      assert Orders(Step(b, events[0], hash).workers) == Orders(b.workers);
      OrdersKept(Step(b, events[0], hash), events[1..], hash);
    }
  }

  /** Once every worker has stopped, the batch reports success exactly when every file was delivered and
      verified by a worker that returned; and nothing that went wrong goes unnoticed by the other workers. */
  lemma BatchDelivers(start: Batch, downloaded: nat, events: seq<Event>, hash: Hash, b: Batch)
    requires Reaches(start, downloaded, events, hash, b)
    requires forall w :: 0 <= w < |b.workers| ==> Settled(b.workers[w])
    ensures OutcomeOf(b.workers) == Complete <==> forall w :: 0 <= w < |b.workers| ==> b.workers[w].phase == Returned
    ensures OutcomeOf(b.workers) == Complete ==> Delivers(Orders(start.workers), b.disk, hash)
    ensures OutcomeOf(b.workers) != Complete ==> b.cancelled
  {
    ReachableInv(start, downloaded, events, hash, b);
    OrdersKept(start, events, hash);
    if OutcomeOf(b.workers) == Complete {
      forall k | 0 <= k < |Orders(start.workers)|
        ensures var order := Orders(start.workers)[k];
          order.name in b.disk && DigestAccepted(order.pin, hash(b.disk[order.name]))
      {
        assert Orders(b.workers)[k] == b.workers[k].order;
        assert Settled(b.workers[k]) && Filed(b.workers[k], b.disk, hash);
      }
    }
  }

  ghost predicate OnlyOrdered(b: Batch) {
    forall name <- b.disk :: exists w :: 0 <= w < |b.workers| && b.workers[w].order.name == name
  }

  lemma StepOnlyOrdered(b: Batch, e: Event, hash: Hash)
    requires OnlyOrdered(b) && Enabled(b, e)
    ensures OnlyOrdered(Step(b, e, hash))
  {
    var next := Step(b, e, hash);
    assert forall w :: 0 <= w < |b.workers| ==> next.workers[w].order == b.workers[w].order;
    forall name <- next.disk
      ensures exists w :: 0 <= w < |next.workers| && next.workers[w].order.name == name
    {
      var w :| 0 <= w < |b.workers| && b.workers[w].order.name == name;
      assert next.workers[w].order.name == name;
    }
  }

  /** Workers leave nothing in the staging directory but the files they were ordered to fetch. */
  lemma {:induction false} RunOnlyOrdered(b: Batch, events: seq<Event>, hash: Hash)
    requires OnlyOrdered(b) && Runs(b, events, hash)
    ensures OnlyOrdered(After(b, events, hash))
    decreases |events|
  {
    if events != [] {
      StepOnlyOrdered(b, events[0], hash);
      RunOnlyOrdered(Step(b, events[0], hash), events[1..], hash);
    }
  }

  // ---------------------------------------------------------------- how attempts and batches end

  /** A finished response returns its worker exactly if it has the size the server announced and the digest that
      is enforced; otherwise, and after a dropped connection, the file and its bytes are given back, and the
      worker rests after its first and second attempt and gives up after its third, which stops the batch. */
  lemma AttemptsEnd(b: Batch, e: Event, hash: Hash)
    requires Enabled(b, e) && (e.End? || e.Drop?)
    ensures var before, after := b.workers[e.w], Step(b, e, hash).workers[e.w];
      var right := e.End?
        && (before.phase.announced.None? || before.phase.announced.value == |before.received|)
        && (before.order.pin.None? || before.order.pin.value == hash(before.received));
      && (after.phase.Returned? <==> right)
      && (after.phase.Resting? <==> !right && before.phase.attempt != 3)
      && (after.phase.Exhausted? <==> !right && before.phase.attempt == 3)
      && Step(b, e, hash).cancelled == (b.cancelled || after.phase.Exhausted?)
      && (!right ==> before.order.name !in Step(b, e, hash).disk)
  {
  }

  /** Once a batch is cancelled no further byte is downloaded and no waiting worker starts; and it is cancelled
      only by its caller, by a worker that gave up, or by an error that is not retried. */
  lemma CancelledBatchesStop(b: Batch, e: Event, hash: Hash)
    requires Enabled(b, e)
    ensures b.cancelled ==> Step(b, e, hash).cancelled && Step(b, e, hash).downloaded <= b.downloaded
    ensures b.cancelled && e.Begin? && b.workers[e.w].phase.Waiting? ==>
      Step(b, e, hash).workers[e.w].phase == Broke(true)
    ensures b.cancelled && e.Chunk? ==> Step(b, e, hash).workers[e.w].phase == Broke(true)
    ensures !b.cancelled && Step(b, e, hash).cancelled ==>
      e.CancelAll? || e.Break? || Step(b, e, hash).workers[e.w].phase == Exhausted
  {
  }

  /** While nothing is cancelled a waiting worker starts its first attempt, a resting one its next, and a chunk is
      kept. */
  lemma AttemptsProceed(b: Batch, e: Event, hash: Hash)
    requires Enabled(b, e) && !b.cancelled
    ensures var next := Step(b, e, hash);
      && (e.Begin? && b.workers[e.w].phase.Waiting? ==> next.workers[e.w].phase == Reading(1, false, None))
      && (e.Begin? && b.workers[e.w].phase.Resting? ==>
            next.workers[e.w].phase == Reading(b.workers[e.w].phase.attempt + 1, false, None))
      && (e.Begin? ==> next.workers[e.w].received == [])
      && (e.Chunk? ==>
            && next.workers[e.w].received == b.workers[e.w].received + e.data
            && next.workers[e.w].phase == b.workers[e.w].phase)
  {
  }

  /** A real failure is what a batch reports, before any cancellation it caused. */
  lemma FailuresComeFirst(workers: seq<Worker>)
    ensures OutcomeOf(workers) == Failed <==>
      exists w :: 0 <= w < |workers| && (workers[w].phase.Exhausted? || workers[w].phase == Broke(false))
    ensures OutcomeOf(workers) == Cancelled <==>
      && (exists w :: 0 <= w < |workers| && workers[w].phase == Broke(true))
      && (forall w :: 0 <= w < |workers| ==> !workers[w].phase.Exhausted? && workers[w].phase != Broke(false))
  {
  }
}
