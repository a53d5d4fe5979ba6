/** Every interleaving of the tickets of one gateway, over the limiter and the counters they share.

    An event is one atomic stretch between two suspensions, or a cancellation arriving while a
    ticket is suspended, or a swap to an engine with another limit. */
module Admission {
  import opened Metrics
  import opened Limiter
  import opened Tickets

  /** What an observer of the run writes down; no transition reads it.
      `rank` numbers the calls of `acquire` that were not refused, in call order. */
  datatype Journal = Journal(rank: map<nat, nat>, granted: seq<nat>, wokenAt: nat, turnedAway: nat)

  datatype Gateway = Gateway(
    limit: nat, allowance: nat, line: Line, counters: Counters, tickets: seq<Pass>, journal: Journal)

  datatype Event =
    | Arrive(wait: bool)
    | SetLimit(limit: nat)
    | Depart(id: nat, exit: Exit)
    | Enter(id: nat, patient: bool)
    | Cancel(id: nat)
    | Resume(id: nat, exit: Exit)
    | Settle(id: nat, verdict: Verdict)
    | Finish(id: nat)

  function Initial(limit: nat, allowance: nat): Gateway {
    Gateway(limit, allowance, Line(0, [], map[]), Counters(0, 0, 0), [], Journal(map[], [], limit, 0))
  }

  predicate InPhase(g: Gateway, id: nat, phase: Phase) {
    id < |g.tickets| && g.tickets[id].phase == phase
  }

  /** Suspended inside `acquire`, with something to wake it up for. */
  predicate Resumable(g: Gateway, id: nat) {
    || (InPhase(g, id, Checkpoint))
    || (InPhase(g, id, Seated) && !IsPending(g.line, id))
  }

  predicate Enabled(g: Gateway, e: Event) {
    match e
    case Arrive(_) => true
    case SetLimit(limit) => limit >= 1
    case Depart(id, _) => InPhase(g, id, Arrived)
    case Enter(id, patient) => InPhase(g, id, Arrived) && (patient ==> g.tickets[id].waits)
    case Cancel(id) => InPhase(g, id, Checkpoint) || InPhase(g, id, Seated)
    case Resume(id, exit) => Resumable(g, id) && (InPhase(g, id, Checkpoint) ==> exit == Quiet)
    case Settle(id, _) => InPhase(g, id, Confirming)
    case Finish(id) => InPhase(g, id, Decoding)
  }

  function CellOf(g: Gateway, id: nat): Cell
    requires id < |g.tickets|
  {
    Cell(g.line, g.counters, g.tickets[id])
  }

  function WithCell(g: Gateway, id: nat, c: Cell): Gateway
    requires id < |g.tickets|
  {
    g.(line := c.line, counters := c.counters, tickets := g.tickets[id := c.pass])
  }

  function Arriving(g: Gateway, wait: bool): Gateway {
    if wait && LineIsFull(g.counters, g.limit, g.allowance) then
      g.(counters := Offered(g.counters, g.limit, g.allowance),
         journal := g.journal.(turnedAway := g.journal.turnedAway + 1))
    else
      g.(counters := if wait then Offered(g.counters, g.limit, g.allowance) else g.counters,
         tickets := g.tickets + [Opened(wait)])
  }

  /** Whether the event gives a slot back. */
  predicate Frees(g: Gateway, e: Event)
    requires Enabled(g, e)
  {
    match e
    case Resume(id, _) => !Succeeds(CellOf(g, id), id) && (InPhase(g, id, Checkpoint) || IsGranted(g.line, id))
    case Settle(_, verdict) => verdict.Dropped?
    case Finish(_) => true
    case _ => false
  }

  function Cells(g: Gateway, e: Event): Gateway
    requires Enabled(g, e)
  {
    match e
    case Arrive(wait) => Arriving(g, wait)
    case SetLimit(limit) => g.(limit := limit)
    case Depart(id, exit) => WithCell(g, id, Left(CellOf(g, id), exit))
    case Enter(id, patient) => WithCell(g, id, Entering(CellOf(g, id), id, g.limit, patient))
    case Cancel(id) => WithCell(g, id, Cancelling(CellOf(g, id), id))
    case Resume(id, exit) => WithCell(g, id, Resuming(CellOf(g, id), id, g.limit, exit))
    case Settle(id, verdict) => WithCell(g, id, Settling(CellOf(g, id), g.limit, verdict))
    case Finish(id) => WithCell(g, id, Finishing(CellOf(g, id), g.limit))
  }

  /** The tickets the event grants a slot to, in grant order. */
  function Grants(g: Gateway, e: Event): seq<nat>
    requires Enabled(g, e)
  {
    if e.Enter? then
      Handed(g.line, g.limit) + (if EntryFor(g.line, g.limit, e.patient) == FastPath then [e.id] else [])
    else if Frees(g, e) then Handed(Freed(g.line), g.limit)
    else []
  }

  function Noted(g: Gateway, e: Event, journal: Journal): Journal
    requires Enabled(g, e)
  {
    var rank :=
      if e.Enter? && EntryFor(g.line, g.limit, e.patient) != NoWaiting
      then journal.rank[e.id := |journal.rank|] else journal.rank;
    Journal(rank, journal.granted + Grants(g, e),
            if e.Enter? || Frees(g, e) then g.limit else journal.wokenAt, journal.turnedAway)
  }

  function Step(g: Gateway, e: Event): Gateway
    requires Enabled(g, e)
  {
    var next := Cells(g, e);
    next.(journal := Noted(g, e, next.journal))
  }

  ghost predicate Runs(g: Gateway, events: seq<Event>)
    decreases |events|
  {
    events == [] || (Enabled(g, events[0]) && Runs(Step(g, events[0]), events[1..]))
  }

  ghost function After(g: Gateway, events: seq<Event>): Gateway
    requires Runs(g, events)
    decreases |events|
  {
    if events == [] then g else After(Step(g, events[0]), events[1..])
  }

  // ---------------------------------------------------------------- what the counters stand for

  predicate OwnsSlot(pass: Pass, line: Line, id: nat) {
    || pass.phase in {Checkpoint, Confirming, Decoding}
    || (pass.phase == Seated && IsGranted(line, id))
  }

  function Owners(tickets: seq<Pass>, line: Line): set<nat> {
    set id | 0 <= id < |tickets| && OwnsSlot(tickets[id], line, id)
  }

  function InLine(tickets: seq<Pass>): set<nat> {
    set id | 0 <= id < |tickets| && tickets[id].inLine
  }

  function Decoders(tickets: seq<Pass>): set<nat> {
    set id | 0 <= id < |tickets| && tickets[id].phase == Decoding
  }

  function Refused(tickets: seq<Pass>): set<nat> {
    set id | 0 <= id < |tickets| && tickets[id].phase == Gone(Busy)
  }

  /** Deque and seats agree with the tickets that wait on them. */
  ghost predicate Seating(tickets: seq<Pass>, line: Line) {
    && (forall a, b :: 0 <= a < b < |line.waiters| ==> line.waiters[a] != line.waiters[b])
    && (forall w <- line.waiters ::
          w < |tickets| && tickets[w].phase == Seated && w in line.seats && !IsGranted(line, w))
    && (forall id <- line.seats ::
          id < |tickets| && tickets[id].phase != Arrived && (IsPending(line, id) ==> id in line.waiters))
    && (forall id: nat :: id < |tickets| && tickets[id].phase == Seated ==> id in line.seats)
  }

  /** Grants so far, then the deque, follow the order in which `acquire` was called. */
  ghost predicate InOrder(rank: map<nat, nat>, granted: seq<nat>, waiters: seq<nat>) {
    && (forall id <- granted + waiters :: id in rank)
    && (forall a, b :: 0 <= a < b < |granted + waiters| ==>
          rank[(granted + waiters)[a]] < rank[(granted + waiters)[b]])
  }

  /** A ticket is in line exactly while it was admitted to wait and has not started or ended. */
  predicate WellPlaced(pass: Pass) {
    pass.inLine <==> pass.waits && pass.phase in {Arrived, Checkpoint, Seated, Confirming}
  }

  ghost predicate SlotsInv(tickets: seq<Pass>, line: Line) {
    Seating(tickets, line) && line.active == |Owners(tickets, line)|
  }

  ghost predicate CountsInv(tickets: seq<Pass>, counters: Counters, turnedAway: nat) {
    && (forall id: nat :: id < |tickets| ==> WellPlaced(tickets[id]))
    && counters.queueDepth == |InLine(tickets)|
    && counters.active == |Decoders(tickets)|
    && counters.rejected == |Refused(tickets)| + turnedAway
  }

  ghost predicate OrderInv(tickets: seq<Pass>, line: Line, journal: Journal) {
    && InOrder(journal.rank, journal.granted, line.waiters)
    && (forall id <- journal.rank ::
          journal.rank[id] < |journal.rank| && id < |tickets| && tickets[id].phase != Arrived)
  }

  ghost predicate WakeInv(line: Line, wokenAt: nat) {
    wokenAt >= 1 && (line.waiters != [] ==> line.active >= wokenAt)
  }

  ghost predicate Inv(g: Gateway) {
    && g.limit >= 1
    && SlotsInv(g.tickets, g.line)
    && CountsInv(g.tickets, g.counters, g.journal.turnedAway)
    && OrderInv(g.tickets, g.line, g.journal)
    && WakeInv(g.line, g.journal.wokenAt)
  }

  // ---------------------------------------------------------------- one wake

  lemma HeadGone(waiters: seq<nat>)
    requires waiters != [] && forall a, b :: 0 <= a < b < |waiters| ==> waiters[a] != waiters[b]
    ensures var head, rest := waiters[0], waiters[1..];
      && head !in rest && (forall id :: id in waiters <==> id == head || id in rest)
      && forall a, b :: 0 <= a < b < |rest| ==> rest[a] != rest[b]
  {
    assert waiters == [waiters[0]] + waiters[1..];
  }

  lemma GrantingHead(tickets: seq<Pass>, line: Line)
    requires Seating(tickets, line) && line.waiters != [] && IsPending(line, line.waiters[0])
    ensures var head := line.waiters[0];
      var next := Line(line.active + 1, line.waiters[1..], line.seats[head := Granted]);
      && Seating(tickets, next)
      && head !in Owners(tickets, line)
      && Owners(tickets, next) == Owners(tickets, line) + {head}
  {
    HeadGone(line.waiters);
  }

  lemma DroppingHead(tickets: seq<Pass>, line: Line)
    requires Seating(tickets, line) && line.waiters != [] && !IsPending(line, line.waiters[0])
    ensures Seating(tickets, line.(waiters := line.waiters[1..]))
    ensures Owners(tickets, line.(waiters := line.waiters[1..])) == Owners(tickets, line)
  {
    HeadGone(line.waiters);
  }

  /** `_wake` moves seats from the deque to granted ownership, one for one. */
  lemma {:induction false} WakingKeeps(tickets: seq<Pass>, line: Line, limit: nat)
    requires Seating(tickets, line)
    ensures Seating(tickets, Woken(line, limit))
    ensures |Owners(tickets, Woken(line, limit))| - |Owners(tickets, line)| == Woken(line, limit).active - line.active
    decreases |line.waiters|
  {
    if line.waiters != [] && line.active < limit {
      var next := OneWake(tickets, line, limit);
      WakingKeeps(tickets, next, limit);
    }
  }

  /** The first round of `_wake`. */
  lemma OneWake(tickets: seq<Pass>, line: Line, limit: nat) returns (next: Line)
    requires Seating(tickets, line) && line.waiters != [] && line.active < limit
    ensures Seating(tickets, next) && next.waiters == line.waiters[1..]
    ensures Woken(line, limit) == Woken(next, limit)
    ensures |Owners(tickets, next)| - |Owners(tickets, line)| == next.active - line.active
  {
    if IsPending(line, line.waiters[0]) {
      GrantingHead(tickets, line);
      next := Line(line.active + 1, line.waiters[1..], line.seats[line.waiters[0] := Granted]);
    } else {
      DroppingHead(tickets, line);
      next := line.(waiters := line.waiters[1..]);
    }
  }

  /** The tickets that come to own a slot in a wake are exactly those it hands one to. */
  lemma {:induction false} WakingHands(tickets: seq<Pass>, line: Line, limit: nat, id: nat)
    requires Seating(tickets, line)
    ensures id in Owners(tickets, Woken(line, limit)) <==> id in Owners(tickets, line) || id in Handed(line, limit)
    ensures id in Handed(line, limit) ==> id !in Owners(tickets, line)
    decreases |line.waiters|
  {
    if line.waiters == [] || line.active >= limit {
    } else {
      if IsPending(line, line.waiters[0]) {
        GrantingHead(tickets, line);
        var next := Line(line.active + 1, line.waiters[1..], line.seats[line.waiters[0] := Granted]);
        WakingHands(tickets, next, limit, id);
      } else {
        DroppingHead(tickets, line);
        WakingHands(tickets, line.(waiters := line.waiters[1..]), limit, id);
      }
    }
  }

  /** `_wake` stops only at an empty deque or a full limiter, and never lifts `active` past the limit. */
  lemma {:induction false} WakingFills(line: Line, limit: nat)
    ensures var woken := Woken(line, limit);
      && (woken.waiters != [] ==> woken.active >= limit)
      && woken.active == line.active + |Handed(line, limit)|
      && (Handed(line, limit) != [] ==> woken.active <= limit)
    decreases |line.waiters|
  {
    if line.waiters == [] || line.active >= limit {
    } else {
      var head, rest := line.waiters[0], line.waiters[1..];
      if IsPending(line, head) {
        WakingFills(Line(line.active + 1, rest, line.seats[head := Granted]), limit);
      } else {
        WakingFills(line.(waiters := rest), limit);
      }
    }
  }

  /** The head of the line may be granted next, or dropped. */
  lemma HeadInOrder(rank: map<nat, nat>, granted: seq<nat>, waiters: seq<nat>)
    requires InOrder(rank, granted, waiters) && waiters != []
    ensures InOrder(rank, granted + [waiters[0]], waiters[1..]) && InOrder(rank, granted, waiters[1..])
  {
    assert granted + waiters == (granted + [waiters[0]]) + waiters[1..];
    OrderWithout(rank, granted, waiters, 0);
    assert waiters[..0] + waiters[1..] == waiters[1..];
  }

  /** Seats leave the deque from the front, so the grant log stays in call order. */
  lemma {:induction false} WakingInOrder(rank: map<nat, nat>, granted: seq<nat>, line: Line, limit: nat)
    requires InOrder(rank, granted, line.waiters)
    ensures InOrder(rank, granted + Handed(line, limit), Woken(line, limit).waiters)
    decreases |line.waiters|
  {
    if line.waiters == [] || line.active >= limit {
      assert granted + [] == granted;
    } else {
      var head, rest := line.waiters[0], line.waiters[1..];
      HeadInOrder(rank, granted, line.waiters);
      if IsPending(line, head) {
        var next := Line(line.active + 1, rest, line.seats[head := Granted]);
        WakingInOrder(rank, granted + [head], next, limit);
        assert granted + ([head] + Handed(next, limit)) == (granted + [head]) + Handed(next, limit);
      } else {
        WakingInOrder(rank, granted, line.(waiters := rest), limit);
      }
    }
  }

  lemma OrderWithout(rank: map<nat, nat>, granted: seq<nat>, waiters: seq<nat>, at: nat)
    requires InOrder(rank, granted, waiters) && at < |waiters|
    ensures InOrder(rank, granted, waiters[..at] + waiters[at + 1..])
  {
    var before, after := granted + waiters, granted + (waiters[..at] + waiters[at + 1..]);
    var cut := |granted| + at;
    assert forall k :: 0 <= k < |after| ==> after[k] == before[if k < cut then k else k + 1];
  }

  // ---------------------------------------------------------------- one event

  lemma WakingSlots(tickets: seq<Pass>, line: Line, limit: nat)
    requires SlotsInv(tickets, line)
    ensures SlotsInv(tickets, Woken(line, limit))
  {
    WakingKeeps(tickets, line, limit);
  }

  /** Giving back a slot that is owned never meets the clamp in `release`. */
  lemma FreeingSlots(tickets: seq<Pass>, line: Line, id: nat, pass: Pass)
    requires SlotsInv(tickets, line) && id in Owners(tickets, line) && pass.phase.Gone?
    ensures line.active > 0 && SlotsInv(tickets[id := pass], Freed(line))
  {
    assert Owners(tickets[id := pass], Freed(line)) == Owners(tickets, line) - {id};
  }

  lemma ReleasingSlots(tickets: seq<Pass>, line: Line, id: nat, pass: Pass, limit: nat)
    requires SlotsInv(tickets, line) && id in Owners(tickets, line) && pass.phase.Gone?
    ensures SlotsInv(tickets[id := pass], Released(line, limit))
  {
    FreeingSlots(tickets, line, id, pass);
    WakingSlots(tickets[id := pass], Freed(line), limit);
  }

  /** A ticket that owns no slot before or after moves without touching the limiter. */
  lemma MovingSlots(tickets: seq<Pass>, line: Line, id: nat, pass: Pass)
    requires SlotsInv(tickets, line) && id < |tickets|
    requires pass.phase != Arrived || tickets[id].phase == Arrived
    requires tickets[id].phase != Seated && pass.phase != Seated
    requires OwnsSlot(pass, line, id) == OwnsSlot(tickets[id], line, id)
    ensures SlotsInv(tickets[id := pass], line)
  {
    assert Owners(tickets[id := pass], line) == Owners(tickets, line);
  }

  /** A newcomer takes a slot on the fast path. */
  lemma FastSlots(tickets: seq<Pass>, line: Line, id: nat, pass: Pass)
    requires SlotsInv(tickets, line) && id < |tickets| && tickets[id].phase == Arrived && pass.phase == Checkpoint
    ensures SlotsInv(tickets[id := pass], line.(active := line.active + 1))
  {
    assert Owners(tickets[id := pass], line.(active := line.active + 1)) == Owners(tickets, line) + {id};
  }

  /** A newcomer joins the end of the deque. */
  lemma QueuedSlots(tickets: seq<Pass>, line: Line, id: nat, pass: Pass)
    requires SlotsInv(tickets, line) && id < |tickets| && tickets[id].phase == Arrived && pass.phase == Seated
    ensures SlotsInv(tickets[id := pass], line.(waiters := line.waiters + [id], seats := line.seats[id := Pending]))
  {
    var after := line.(waiters := line.waiters + [id], seats := line.seats[id := Pending]);
    assert id !in line.seats && id !in line.waiters;
    assert Owners(tickets[id := pass], after) == Owners(tickets, line);
  }

  lemma EnteringSlots(tickets: seq<Pass>, line: Line, id: nat, limit: nat, patient: bool, pass: Pass)
    requires SlotsInv(tickets, line) && id < |tickets| && tickets[id].phase == Arrived
    requires match EntryFor(line, limit, patient)
             case FastPath => pass.phase == Checkpoint
             case Queued => pass.phase == Seated
             case NoWaiting => pass.phase.Gone?
    ensures SlotsInv(tickets[id := pass], Entered(line, id, limit, patient))
  {
    var woken := Woken(line, limit);
    WakingSlots(tickets, line, limit);
    match EntryFor(line, limit, patient)
    case FastPath => FastSlots(tickets, woken, id, pass);
    case NoWaiting => MovingSlots(tickets, woken, id, pass);
    case Queued => QueuedSlots(tickets, woken, id, pass);
  }

  lemma WithoutKeeps(waiters: seq<nat>, id: nat)
    requires forall a, b :: 0 <= a < b < |waiters| ==> waiters[a] != waiters[b]
    ensures var rest := Without(waiters, id);
      && (forall w :: w in rest <==> w in waiters && w != id)
      && (forall a, b :: 0 <= a < b < |rest| ==> rest[a] != rest[b])
  {
    if waiters != [] {
      assert waiters == [waiters[0]] + waiters[1..];
      WithoutKeeps(waiters[1..], id);
      var rest, tail := Without(waiters, id), Without(waiters[1..], id);
      if waiters[0] != id {
        assert waiters[0] !in waiters[1..];
        assert forall b :: 0 < b < |rest| ==> rest[b] == tail[b - 1] && tail[b - 1] in tail;
      }
    }
  }

  lemma GivingUpSlots(tickets: seq<Pass>, line: Line, id: nat, pass: Pass, limit: nat)
    requires SlotsInv(tickets, line) && id < |tickets| && tickets[id].phase == Seated && pass.phase.Gone?
    requires !IsPending(line, id)
    ensures SlotsInv(tickets[id := pass], GivenUp(line, id, limit))
  {
    if IsGranted(line, id) {
      ReleasingSlots(tickets, line, id, pass, limit);
    } else {
      WithoutKeeps(line.waiters, id);
      assert Owners(tickets[id := pass], GivenUp(line, id, limit)) == Owners(tickets, line);
    }
  }

  lemma ResumingSlots(g: Gateway, id: nat, exit: Exit)
    requires Enabled(g, Resume(id, exit)) && SlotsInv(g.tickets, g.line)
    ensures var c := Resuming(CellOf(g, id), id, g.limit, exit); SlotsInv(g.tickets[id := c.pass], c.line)
  {
    var c := Resuming(CellOf(g, id), id, g.limit, exit);
    if Succeeds(CellOf(g, id), id) {
      assert Owners(g.tickets[id := c.pass], c.line) == Owners(g.tickets, g.line);
    } else if InPhase(g, id, Checkpoint) {
      ReleasingSlots(g.tickets, g.line, id, c.pass, g.limit);
    } else {
      GivingUpSlots(g.tickets, g.line, id, c.pass, g.limit);
    }
  }

  lemma SettlingSlots(g: Gateway, id: nat, verdict: Verdict)
    requires InPhase(g, id, Confirming) && SlotsInv(g.tickets, g.line)
    ensures var c := Settling(CellOf(g, id), g.limit, verdict); SlotsInv(g.tickets[id := c.pass], c.line)
  {
    var c := Settling(CellOf(g, id), g.limit, verdict);
    if verdict.Kept? {
      MovingSlots(g.tickets, g.line, id, c.pass);
    } else {
      ReleasingSlots(g.tickets, g.line, id, c.pass, g.limit);
    }
  }

  lemma CancellingSlots(g: Gateway, id: nat)
    requires Enabled(g, Cancel(id)) && SlotsInv(g.tickets, g.line)
    ensures var c := Cancelling(CellOf(g, id), id); SlotsInv(g.tickets[id := c.pass], c.line)
  {
    var c := Cancelling(CellOf(g, id), id);
    assert Owners(g.tickets[id := c.pass], c.line) == Owners(g.tickets, g.line);
  }

  lemma ArrivingSlots(g: Gateway, wait: bool)
    requires SlotsInv(g.tickets, g.line)
    ensures SlotsInv(Arriving(g, wait).tickets, Arriving(g, wait).line)
  {
    assert Owners(Arriving(g, wait).tickets, g.line) == Owners(g.tickets, g.line);
  }

  lemma StepSlots(g: Gateway, e: Event)
    requires Enabled(g, e) && SlotsInv(g.tickets, g.line)
    ensures SlotsInv(Cells(g, e).tickets, Cells(g, e).line)
  {
    match e
    case Arrive(wait) => ArrivingSlots(g, wait);
    case SetLimit(_) =>
    case Depart(id, exit) => MovingSlots(g.tickets, g.line, id, Left(CellOf(g, id), exit).pass);
    case Enter(id, patient) =>
      EnteringSlots(g.tickets, g.line, id, g.limit, patient, Entering(CellOf(g, id), id, g.limit, patient).pass);
    case Cancel(id) => CancellingSlots(g, id);
    case Resume(id, exit) => ResumingSlots(g, id, exit);
    case Settle(id, verdict) => SettlingSlots(g, id, verdict);
    case Finish(id) =>
      ReleasingSlots(g.tickets, g.line, id, Finishing(CellOf(g, id), g.limit).pass, g.limit);
  }

  /** How the three counted sets react to one ticket changing. */
  lemma CountingOne(tickets: seq<Pass>, id: nat, pass: Pass)
    requires id < |tickets|
    ensures var moved := tickets[id := pass];
      && |InLine(moved)| == |InLine(tickets)| - (if tickets[id].inLine then 1 else 0) + (if pass.inLine then 1 else 0)
      && |Decoders(moved)| == |Decoders(tickets)| - (if tickets[id].phase == Decoding then 1 else 0)
                              + (if pass.phase == Decoding then 1 else 0)
      && |Refused(moved)| == |Refused(tickets)| - (if tickets[id].phase == Gone(Busy) then 1 else 0)
                             + (if pass.phase == Gone(Busy) then 1 else 0)
  {
    var moved := tickets[id := pass];
    DifferByOne(InLine(moved), InLine(tickets), id);
    DifferByOne(Decoders(moved), Decoders(tickets), id);
    DifferByOne(Refused(moved), Refused(tickets), id);
  }

  lemma DifferByOne(a: set<nat>, b: set<nat>, id: nat)
    requires forall x :: x != id ==> (x in a <==> x in b)
    ensures |a| - (if id in a then 1 else 0) == |b| - (if id in b then 1 else 0)
  {
    assert a - {id} == b - {id};
    assert id !in a ==> a - {id} == a;
    assert id !in b ==> b - {id} == b;
  }

  lemma Appending(tickets: seq<Pass>, wait: bool)
    ensures var all := tickets + [Opened(wait)];
      && InLine(all) == InLine(tickets) + (if wait then {|tickets|} else {})
      && Decoders(all) == Decoders(tickets) && Refused(all) == Refused(tickets)
  {
    var all := tickets + [Opened(wait)];
    assert all[|tickets|] == Opened(wait);
    assert forall id: nat :: id < |tickets| ==> all[id] == tickets[id];
  }

  lemma ArrivingCounts(g: Gateway, wait: bool)
    requires CountsInv(g.tickets, g.counters, g.journal.turnedAway)
    ensures var next := Arriving(g, wait); CountsInv(next.tickets, next.counters, next.journal.turnedAway)
  {
    Appending(g.tickets, wait);
  }

  /** One ticket ends: it leaves the line at most once, and a busy exit is counted exactly once. */
  lemma LeavingCounts(tickets: seq<Pass>, id: nat, line: Line, counters: Counters, turnedAway: nat, exit: Exit)
    requires CountsInv(tickets, counters, turnedAway) && id < |tickets|
    requires !tickets[id].phase.Gone? && tickets[id].phase != Decoding
    ensures var c := Left(Cell(line, counters, tickets[id]), exit);
      CountsInv(tickets[id := c.pass], c.counters, turnedAway)
  {
    CountingOne(tickets, id, Left(Cell(line, counters, tickets[id]), exit).pass);
    assert tickets[id].inLine ==> id in InLine(tickets);
  }

  lemma StepCounts(g: Gateway, e: Event)
    requires Enabled(g, e) && CountsInv(g.tickets, g.counters, g.journal.turnedAway)
    ensures CountsInv(Cells(g, e).tickets, Cells(g, e).counters, Cells(g, e).journal.turnedAway)
  {
    match e
    case Arrive(wait) => ArrivingCounts(g, wait);
    case SetLimit(_) =>
    case Depart(id, exit) => LeavingCounts(g.tickets, id, g.line, g.counters, g.journal.turnedAway, exit);
    case Enter(id, patient) =>
      var line := Entered(g.line, id, g.limit, patient);
      if EntryFor(g.line, g.limit, patient) == NoWaiting {
        LeavingCounts(g.tickets, id, line, g.counters, g.journal.turnedAway, Busy);
      } else {
        CountingOne(g.tickets, id, Cells(g, e).tickets[id]);
      }
    case Cancel(id) => CountingOne(g.tickets, id, Cells(g, e).tickets[id]);
    case Resume(id, exit) => ResumingCounts(g, id, exit);
    case Settle(id, verdict) => SettlingCounts(g, id, verdict);
    case Finish(id) =>
      CountingOne(g.tickets, id, Cells(g, e).tickets[id]);
      assert id in Decoders(g.tickets);
  }

  lemma ResumingCounts(g: Gateway, id: nat, exit: Exit)
    requires Enabled(g, Resume(id, exit)) && CountsInv(g.tickets, g.counters, g.journal.turnedAway)
    ensures var c := Resuming(CellOf(g, id), id, g.limit, exit);
      CountsInv(g.tickets[id := c.pass], c.counters, g.journal.turnedAway)
  {
    if Succeeds(CellOf(g, id), id) {
      CountingOne(g.tickets, id, Resuming(CellOf(g, id), id, g.limit, exit).pass);
    } else {
      var line := if InPhase(g, id, Seated) then GivenUp(g.line, id, g.limit) else Released(g.line, g.limit);
      LeavingCounts(g.tickets, id, line, g.counters, g.journal.turnedAway, exit);
    }
  }

  lemma SettlingCounts(g: Gateway, id: nat, verdict: Verdict)
    requires InPhase(g, id, Confirming) && CountsInv(g.tickets, g.counters, g.journal.turnedAway)
    ensures var c := Settling(CellOf(g, id), g.limit, verdict);
      CountsInv(g.tickets[id := c.pass], c.counters, g.journal.turnedAway)
  {
    match verdict
    case Kept =>
      CountingOne(g.tickets, id, Settling(CellOf(g, id), g.limit, verdict).pass);
      assert g.tickets[id].inLine ==> id in InLine(g.tickets);
    case Dropped(exit) =>
      LeavingCounts(g.tickets, id, Released(g.line, g.limit), g.counters, g.journal.turnedAway, exit);
  }

  lemma Shifted(waiters: seq<nat>, at: nat)
    requires at < |waiters|
    ensures [waiters[0]] + waiters[1..] == waiters
    ensures at + 1 < |waiters| ==>
      [waiters[0]] + (waiters[1..][..at] + waiters[1..][at + 1..]) == waiters[..at + 1] + waiters[at + 2..]
  {
  }

  lemma WithoutAt(waiters: seq<nat>, id: nat) returns (at: nat)
    ensures at <= |waiters|
    ensures Without(waiters, id) == if at == |waiters| then waiters else waiters[..at] + waiters[at + 1..]
  {
    at := 0;
    if waiters != [] && waiters[0] != id {
      at := WithoutAt(waiters[1..], id);
      Shifted(waiters, at);
      at := at + 1;
    }
  }

  lemma WithoutInOrder(rank: map<nat, nat>, granted: seq<nat>, waiters: seq<nat>, id: nat)
    requires InOrder(rank, granted, waiters)
    ensures InOrder(rank, granted, Without(waiters, id))
  {
    var at := WithoutAt(waiters, id);
    if at < |waiters| {
      OrderWithout(rank, granted, waiters, at);
    }
  }

  lemma LatecomerInOrder(rank: map<nat, nat>, granted: seq<nat>, waiters: seq<nat>, id: nat)
    requires InOrder(rank, granted, waiters) && id !in rank
    requires forall k <- rank :: rank[k] < |rank|
    ensures InOrder(rank[id := |rank|], granted, waiters + [id])
  {
    var all := granted + waiters;
    assert granted + (waiters + [id]) == all + [id];
    assert forall a :: 0 <= a < |all| ==> all[a] in all;
  }

  /** What the call of `acquire` adds to the rank, the grants and the deque. */
  lemma EnteringNotes(g: Gateway, id: nat, patient: bool)
    requires Enabled(g, Enter(id, patient))
    ensures var next, woken := Step(g, Enter(id, patient)), Woken(g.line, g.limit);
      var rank, handed := g.journal.rank, g.journal.granted + Handed(g.line, g.limit);
      match EntryFor(g.line, g.limit, patient)
      case FastPath =>
        next.journal.rank == rank[id := |rank|] && next.journal.granted == handed + [id] && next.line.waiters == []
        && woken.waiters == []
      case NoWaiting =>
        next.journal.rank == rank && next.journal.granted == handed && next.line.waiters == woken.waiters
      case Queued =>
        next.journal.rank == rank[id := |rank|] && next.journal.granted == handed
        && next.line.waiters == woken.waiters + [id]
  {
    GrantsRegroup(g.journal.granted, Handed(g.line, g.limit), id);
  }

  lemma LatecomerServed(rank: map<nat, nat>, granted: seq<nat>, id: nat)
    requires InOrder(rank, granted, []) && id !in rank && forall k <- rank :: rank[k] < |rank|
    ensures InOrder(rank[id := |rank|], granted + [id], [])
  {
    LatecomerInOrder(rank, granted, [], id);
    assert granted + ([] + [id]) == granted + [id] + [];
  }

  lemma EnteringInOrder(g: Gateway, id: nat, patient: bool)
    requires Enabled(g, Enter(id, patient)) && OrderInv(g.tickets, g.line, g.journal)
    ensures var next := Step(g, Enter(id, patient));
      InOrder(next.journal.rank, next.journal.granted, next.line.waiters)
  {
    var rank, handed := g.journal.rank, g.journal.granted + Handed(g.line, g.limit);
    EnteringNotes(g, id, patient);
    WakingInOrder(rank, g.journal.granted, g.line, g.limit);
    match EntryFor(g.line, g.limit, patient)
    case FastPath => LatecomerServed(rank, handed, id);
    case NoWaiting =>
    case Queued => LatecomerInOrder(rank, handed, Woken(g.line, g.limit).waiters, id);
  }

  lemma GrantsRegroup(granted: seq<nat>, handed: seq<nat>, id: nat)
    ensures granted + (handed + [id]) == granted + handed + [id] && granted + (handed + []) == granted + handed
  {
  }

  lemma EnteringOrder(g: Gateway, id: nat, patient: bool)
    requires Enabled(g, Enter(id, patient)) && OrderInv(g.tickets, g.line, g.journal)
    ensures var next := Step(g, Enter(id, patient)); OrderInv(next.tickets, next.line, next.journal)
  {
    EnteringInOrder(g, id, patient);
  }

  lemma FreeingOrder(g: Gateway, e: Event)
    requires Enabled(g, e) && Frees(g, e) && OrderInv(g.tickets, g.line, g.journal)
    ensures var next := Step(g, e); OrderInv(next.tickets, next.line, next.journal)
  {
    WakingInOrder(g.journal.rank, g.journal.granted, Freed(g.line), g.limit);
  }

  lemma StepOrder(g: Gateway, e: Event)
    requires Enabled(g, e) && OrderInv(g.tickets, g.line, g.journal)
    ensures OrderInv(Step(g, e).tickets, Step(g, e).line, Step(g, e).journal)
  {
    if e.Enter? {
      EnteringOrder(g, e.id, e.patient);
    } else if Frees(g, e) {
      FreeingOrder(g, e);
    } else {
      assert g.journal.granted + [] == g.journal.granted;
      if e.Resume? {
        WithoutInOrder(g.journal.rank, g.journal.granted, g.line.waiters, e.id);
      }
    }
  }

  lemma StepWake(g: Gateway, e: Event)
    requires Enabled(g, e) && g.limit >= 1 && WakeInv(g.line, g.journal.wokenAt)
    ensures WakeInv(Step(g, e).line, Step(g, e).journal.wokenAt)
  {
    if e.Enter? {
      WakingFills(g.line, g.limit);
    } else if Frees(g, e) {
      WakingFills(Freed(g.line), g.limit);
    }
  }

  lemma StepKeeps(g: Gateway, e: Event)
    requires Inv(g) && Enabled(g, e)
    ensures Inv(Step(g, e))
  {
    StepSlots(g, e);
    StepCounts(g, e);
    StepOrder(g, e);
    StepWake(g, e);
  }

  lemma {:induction false} RunKeeps(g: Gateway, events: seq<Event>)
    requires Inv(g) && Runs(g, events)
    ensures Inv(After(g, events))
    decreases |events|
  {
    if events != [] {
      StepKeeps(g, events[0]);
      RunKeeps(Step(g, events[0]), events[1..]);
    }
  }
}
