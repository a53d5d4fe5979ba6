/** What holds in every reachable state of the admission protocol, whatever the interleaving. */
module AdmissionSafety {
  import opened Metrics
  import opened Limiter
  import opened Tickets
  import opened Admission

  ghost predicate Reaches(limit: nat, allowance: nat, events: seq<Event>, g: Gateway) {
    limit >= 1 && Runs(Initial(limit, allowance), events) && g == After(Initial(limit, allowance), events)
  }

  lemma InitialInv(limit: nat, allowance: nat)
    requires limit >= 1
    ensures Inv(Initial(limit, allowance))
  {
    var start := Initial(limit, allowance);
    assert start.journal.granted + start.line.waiters == [];
  }

  lemma ReachableInv(limit: nat, allowance: nat, events: seq<Event>, g: Gateway)
    requires Reaches(limit, allowance, events, g)
    ensures Inv(g)
  {
    InitialInv(limit, allowance);
    RunKeeps(Initial(limit, allowance), events);
  }

  /** No cancellation, at any suspension, leaks a slot or frees one twice: `active` is always the
      number of tickets at the checkpoint, granted but not resumed, confirming or decoding, and
      whatever gives a slot back finds one to give, so `release` never clamps. */
  lemma SlotsAreConserved(limit: nat, allowance: nat, events: seq<Event>, g: Gateway)
    requires Reaches(limit, allowance, events, g)
    ensures g.line.active == |Owners(g.tickets, g.line)|
    ensures forall e: Event :: Enabled(g, e) && Frees(g, e) ==>
      && g.line.active > 0
      && Step(g, e).line.active == g.line.active - 1 + |Grants(g, e)|
  {
    ReachableInv(limit, allowance, events, g);
    forall e: Event | Enabled(g, e) && Frees(g, e)
      ensures g.line.active > 0 && Step(g, e).line.active == g.line.active - 1 + |Grants(g, e)|
    {
      assert e.id in Owners(g.tickets, g.line);
      WakingFills(Freed(g.line), g.limit);
    }
  }

  /** An event makes a ticket own a slot exactly when it is in the event's grants, and grants are
      made only while `active` is below the limit of that moment. */
  lemma GrantsAreExact(limit: nat, allowance: nat, events: seq<Event>, g: Gateway, e: Event, id: nat)
    requires Reaches(limit, allowance, events, g) && Enabled(g, e)
    ensures var next := Step(g, e);
      && (id in Grants(g, e) <==> id in Owners(next.tickets, next.line) && id !in Owners(g.tickets, g.line))
      && (Grants(g, e) != [] ==> next.line.active <= g.limit)
  {
    ReachableInv(limit, allowance, events, g);
    if e.Enter? {
      EnterGrants(g, e.id, e.patient, id);
    } else if Frees(g, e) {
      FreeingGrants(g, e, id);
    } else {
      NoNewOwner(g, e, id);
    }
    GrantsFit(g, e);
  }

  lemma GrantsFit(g: Gateway, e: Event)
    requires Enabled(g, e)
    ensures Grants(g, e) != [] ==> Step(g, e).line.active <= g.limit
  {
    if e.Enter? {
      WakingFills(g.line, g.limit);
    } else if Frees(g, e) {
      WakingFills(Freed(g.line), g.limit);
    }
  }

  lemma NoNewOwner(g: Gateway, e: Event, id: nat)
    requires Inv(g) && Enabled(g, e) && !e.Enter? && !Frees(g, e)
    ensures id in Owners(Step(g, e).tickets, Step(g, e).line) ==> id in Owners(g.tickets, g.line)
  {
  }

  lemma EnterGrants(g: Gateway, who: nat, patient: bool, id: nat)
    requires Inv(g) && Enabled(g, Enter(who, patient))
    ensures var e := Enter(who, patient);
      id in Grants(g, e) <==>
      id in Owners(Step(g, e).tickets, Step(g, e).line) && id !in Owners(g.tickets, g.line)
  {
    WakingHands(g.tickets, g.line, g.limit, id);
    WakingKeeps(g.tickets, g.line, g.limit);
    assert who !in Woken(g.line, g.limit).seats;
  }

  /** Every event that gives a slot back ends its ticket and releases, whatever else it does. */
  lemma FreeingStep(g: Gateway, e: Event)
    requires Enabled(g, e) && Frees(g, e)
    ensures e.id in Owners(g.tickets, g.line) && Step(g, e).line == Released(g.line, g.limit)
    ensures exists pass: Pass :: pass.phase.Gone? && Step(g, e).tickets == g.tickets[e.id := pass]
  {
    var pass := Step(g, e).tickets[e.id];
    assert pass.phase.Gone? && Step(g, e).tickets == g.tickets[e.id := pass];
  }

  lemma FreedGrants(tickets: seq<Pass>, line: Line, who: nat, pass: Pass, limit: nat, id: nat)
    requires SlotsInv(tickets, line) && who in Owners(tickets, line) && pass.phase.Gone?
    ensures id in Handed(Freed(line), limit) <==>
      id in Owners(tickets[who := pass], Released(line, limit)) && id !in Owners(tickets, line)
  {
    var after := tickets[who := pass];
    FreeingSlots(tickets, line, who, pass);
    WakingHands(after, Freed(line), limit, id);
    WakingHands(after, Freed(line), limit, who);
    WakingKeeps(after, Freed(line), limit);
    OneOwnerLess(tickets, line, who, pass);
  }

  lemma OneOwnerLess(tickets: seq<Pass>, line: Line, who: nat, pass: Pass)
    requires who in Owners(tickets, line) && pass.phase.Gone?
    ensures Owners(tickets[who := pass], Freed(line)) == Owners(tickets, line) - {who}
  {
  }

  lemma FreeingGrants(g: Gateway, e: Event, id: nat)
    requires Inv(g) && Enabled(g, e) && Frees(g, e)
    ensures id in Grants(g, e) <==>
      id in Owners(Step(g, e).tickets, Step(g, e).line) && id !in Owners(g.tickets, g.line)
  {
    FreeingStep(g, e);
    var pass: Pass :| pass.phase.Gone? && Step(g, e).tickets == g.tickets[e.id := pass];
    FreedGrants(g.tickets, g.line, e.id, pass, g.limit, id);
  }

  /** First come, first served: every slot ever granted, by hand-off or on the fast path, was granted
      in the order `acquire` was called, and nobody still waiting called before anyone granted. */
  lemma FirstComeFirstServed(limit: nat, allowance: nat, events: seq<Event>, g: Gateway)
    requires Reaches(limit, allowance, events, g)
    ensures forall id <- g.journal.granted :: id in g.journal.rank
    ensures forall a, b :: 0 <= a < b < |g.journal.granted| ==>
      g.journal.rank[g.journal.granted[a]] < g.journal.rank[g.journal.granted[b]]
    ensures forall id: nat :: IsPending(g.line, id) ==> id in g.journal.rank
    ensures forall id: nat, earlier <- g.journal.granted :: IsPending(g.line, id) ==>
      g.journal.rank[earlier] < g.journal.rank[id]
  {
    ReachableInv(limit, allowance, events, g);
    GrantsAscend(g.journal.rank, g.journal.granted, g.line.waiters);
    forall id: nat | IsPending(g.line, id)
      ensures id in g.journal.rank
      ensures forall earlier <- g.journal.granted :: g.journal.rank[earlier] < g.journal.rank[id]
    {
      WaiterIsLater(g.journal.rank, g.journal.granted, g.line.waiters, id);
    }
  }

  lemma GrantsAscend(rank: map<nat, nat>, granted: seq<nat>, waiters: seq<nat>)
    requires InOrder(rank, granted, waiters)
    ensures forall id <- granted :: id in rank
    ensures forall a, b :: 0 <= a < b < |granted| ==> rank[granted[a]] < rank[granted[b]]
  {
    var all := granted + waiters;
    assert forall id <- granted :: id in all;
    forall a, b | 0 <= a < b < |granted|
      ensures rank[granted[a]] < rank[granted[b]]
    {
      assert all[a] == granted[a] && all[b] == granted[b];
    }
  }

  lemma WaiterIsLater(rank: map<nat, nat>, granted: seq<nat>, waiters: seq<nat>, id: nat)
    requires InOrder(rank, granted, waiters) && id in waiters
    ensures id in rank && forall earlier <- granted :: earlier in rank && rank[earlier] < rank[id]
  {
    var all := granted + waiters;
    var b :| 0 <= b < |waiters| && waiters[b] == id;
    assert all[|granted| + b] == id;
    forall earlier <- granted
      ensures earlier in rank && rank[earlier] < rank[id]
    {
      var a :| 0 <= a < |granted| && granted[a] == earlier;
      assert all[a] == earlier;
    }
  }

  /** The journal's ranks are the call order of `acquire`: a rank is given once, never changes, and
      is above every rank given before it. */
  lemma RanksAreCallOrder(limit: nat, allowance: nat, events: seq<Event>, g: Gateway, e: Event)
    requires Reaches(limit, allowance, events, g) && Enabled(g, e)
    ensures var rank := Step(g, e).journal.rank;
      && (forall id <- g.journal.rank :: id in rank && rank[id] == g.journal.rank[id])
      && (forall id <- rank :: id !in g.journal.rank ==>
            e.Enter? && id == e.id && forall k <- g.journal.rank :: g.journal.rank[k] < rank[id])
  {
    ReachableInv(limit, allowance, events, g);
  }

  predicate FixedLimit(events: seq<Event>) {
    forall e <- events :: !e.SetLimit?
  }

  predicate WaitingOnly(events: seq<Event>) {
    forall e <- events :: e.Arrive? ==> e.wait
  }

  ghost predicate FixedInv(g: Gateway, limit: nat, allowance: nat) {
    && g.limit == limit == g.journal.wokenAt && g.allowance == allowance
    && g.line.active <= limit
    && g.counters.queueDepth <= limit + allowance
  }

  lemma StepFixed(g: Gateway, e: Event, limit: nat, allowance: nat)
    requires Enabled(g, e) && !e.SetLimit? && FixedInv(g, limit, allowance)
    ensures FixedInv(Step(g, e), limit, allowance)
  {
    if e.Enter? {
      WakingFills(g.line, g.limit);
    } else if Frees(g, e) {
      WakingFills(Freed(g.line), g.limit);
    }
  }

  lemma {:induction false} RunFixed(g: Gateway, events: seq<Event>, limit: nat, allowance: nat)
    requires Runs(g, events) && FixedLimit(events) && FixedInv(g, limit, allowance)
    ensures FixedInv(After(g, events), limit, allowance)
    decreases |events|
  {
    if events != [] {
      StepFixed(g, events[0], limit, allowance);
      RunFixed(Step(g, events[0]), events[1..], limit, allowance);
    }
  }

  /** No lost wakeup: while the limit stays put, a caller waits only if every slot is taken. */
  lemma NoLostWakeup(limit: nat, allowance: nat, events: seq<Event>, g: Gateway, id: nat)
    requires Reaches(limit, allowance, events, g) && FixedLimit(events)
    requires IsPending(g.line, id)
    ensures g.line.active == limit
  {
    ReachableInv(limit, allowance, events, g);
    RunFixed(Initial(limit, allowance), events, limit, allowance);
  }

  /** After a swap raised the limit, the next `acquire` or `release` serves everyone it now can. */
  lemma WakeupAfterRaise(limit: nat, allowance: nat, events: seq<Event>, g: Gateway, e: Event, id: nat)
    requires Reaches(limit, allowance, events, g) && Enabled(g, e) && (e.Enter? || Frees(g, e))
    requires IsPending(Step(g, e).line, id)
    ensures Step(g, e).line.active >= g.limit
  {
    ReachableInv(limit, allowance, events, g);
    StepKeeps(g, e);
  }

  /** While somebody waits, somebody else owns a slot and can take the next step towards giving it back. */
  lemma OwnerCanStep(g: Gateway, id: nat) returns (owner: nat, e: Event)
    requires Inv(g) && IsPending(g.line, id)
    ensures owner != id && owner in Owners(g.tickets, g.line)
    ensures Enabled(g, e) && Drains(e) && e.id == owner
  {
    assert g.line.active > 0;
    owner :| owner in Owners(g.tickets, g.line);
    var phase := g.tickets[owner].phase;
    e := if phase == Confirming then Settle(owner, Kept)
         else if phase == Decoding then Finish(owner)
         else Resume(owner, Quiet);
  }

  /** The steps of tickets that own a slot or have been woken. */
  predicate Drains(e: Event) {
    e.Resume? || e.Settle? || e.Finish?
  }

  predicate DrainsOnly(events: seq<Event>) {
    forall e <- events :: Drains(e)
  }

  /** How many such steps a ticket has left at most. */
  function StepsLeft(phase: Phase): nat {
    match phase
    case Arrived => 0
    case Checkpoint => 3
    case Seated => 3
    case Confirming => 2
    case Decoding => 1
    case Gone(_) => 0
  }

  function WorkLeft(tickets: seq<Pass>): nat {
    if tickets == [] then 0 else StepsLeft(tickets[0].phase) + WorkLeft(tickets[1..])
  }

  lemma {:induction false} WorkMoves(tickets: seq<Pass>, id: nat, pass: Pass)
    requires id < |tickets|
    ensures WorkLeft(tickets[id := pass]) + StepsLeft(tickets[id].phase) == WorkLeft(tickets) + StepsLeft(pass.phase)
    decreases |tickets|
  {
    if id == 0 {
      assert tickets[0 := pass][1..] == tickets[1..];
    } else {
      WorkMoves(tickets[1..], id - 1, pass);
      assert tickets[id := pass][1..] == tickets[1..][id - 1 := pass];
    }
  }

  lemma DrainingWorks(g: Gateway, e: Event)
    requires Enabled(g, e) && Drains(e)
    ensures WorkLeft(Step(g, e).tickets) < WorkLeft(g.tickets)
  {
    var pass := Step(g, e).tickets[e.id];
    assert Step(g, e).tickets == g.tickets[e.id := pass];
    assert StepsLeft(pass.phase) < StepsLeft(g.tickets[e.id].phase);
    WorkMoves(g.tickets, e.id, pass);
  }

  /** Draining comes to an end: no run of such steps is longer than the work there is. */
  lemma {:induction false} DrainingEnds(g: Gateway, events: seq<Event>)
    requires Runs(g, events) && DrainsOnly(events)
    ensures |events| + WorkLeft(After(g, events).tickets) <= WorkLeft(g.tickets)
    decreases |events|
  {
    if events != [] {
      assert events[0] in events && forall e <- events[1..] :: e in events;
      DrainingWorks(g, events[0]);
      DrainingEnds(Step(g, events[0]), events[1..]);
    }
  }

  /** A wake leaves a pending seat pending, or grants it. */
  lemma {:induction false} WakingKeepsSeat(line: Line, limit: nat, id: nat)
    requires IsPending(line, id) || IsGranted(line, id)
    ensures IsPending(Woken(line, limit), id) || IsGranted(Woken(line, limit), id)
    decreases |line.waiters|
  {
    if line.waiters != [] && line.active < limit {
      var head, rest := line.waiters[0], line.waiters[1..];
      if IsPending(line, head) {
        WakingKeepsSeat(Line(line.active + 1, rest, line.seats[head := Granted]), limit, id);
      } else {
        WakingKeepsSeat(line.(waiters := rest), limit, id);
      }
    }
  }

  lemma WaiterStays(g: Gateway, e: Event, id: nat)
    requires Inv(g) && Enabled(g, e) && Drains(e) && IsPending(g.line, id) && e.id != id
    ensures IsPending(Step(g, e).line, id) || id in Owners(Step(g, e).tickets, Step(g, e).line)
  {
    assert id in g.line.waiters && InPhase(g, id, Seated);
    assert InPhase(Step(g, e), id, Seated);
    if Frees(g, e) {
      WakingKeepsSeat(Freed(g.line), g.limit, id);
    }
  }

  lemma {:induction false} WaiterIsReached(g: Gateway, id: nat) returns (events: seq<Event>)
    requires Inv(g) && IsPending(g.line, id)
    ensures Runs(g, events) && DrainsOnly(events)
    ensures id in Owners(After(g, events).tickets, After(g, events).line)
    decreases WorkLeft(g.tickets)
  {
    var owner, e := OwnerCanStep(g, id);
    var next := Step(g, e);
    DrainingWorks(g, e);
    WaiterStays(g, e, id);
    StepKeeps(g, e);
    if IsPending(next.line, id) {
      var rest := WaiterIsReached(next, id);
      RunsCons(g, e, rest);
      events := [e] + rest;
    } else {
      RunsOne(g, e);
      events := [e];
    }
  }

  /** Every waiter can be served: from every reachable state in which a seat is pending, tickets that own a slot
      need only take their own steps, with nobody new arriving, until the waiter owns one; such steps always
      come to an end, and while the waiter waits there is one more to take. */
  lemma WaitersAreServed(limit: nat, allowance: nat, events: seq<Event>, g: Gateway, id: nat)
    returns (owner: nat, e: Event, more: seq<Event>)
    requires Reaches(limit, allowance, events, g) && IsPending(g.line, id)
    ensures owner != id && owner in Owners(g.tickets, g.line)
    ensures Enabled(g, e) && Drains(e) && e.id == owner
    ensures Runs(g, more) && DrainsOnly(more) && |more| <= WorkLeft(g.tickets)
    ensures id in Owners(After(g, more).tickets, After(g, more).line)
  {
    ReachableInv(limit, allowance, events, g);
    owner, e := OwnerCanStep(g, id);
    more := WaiterIsReached(g, id);
    DrainingEnds(g, more);
  }

  /** The counters are exact at every suspension, so none of their clamps ever bites. */
  lemma TicketsAreConserved(limit: nat, allowance: nat, events: seq<Event>, g: Gateway)
    requires Reaches(limit, allowance, events, g)
    ensures g.counters.queueDepth == |InLine(g.tickets)|
    ensures g.counters.active == |Decoders(g.tickets)| <= g.line.active
    ensures g.counters.rejected == |Refused(g.tickets)| + g.journal.turnedAway
    ensures forall id: nat :: id < |g.tickets| && g.tickets[id].inLine ==> g.counters.queueDepth > 0
    ensures forall id: nat :: InPhase(g, id, Decoding) ==> g.counters.active > 0
  {
    ReachableInv(limit, allowance, events, g);
    Subset(Decoders(g.tickets), Owners(g.tickets, g.line));
    forall id: nat | id < |g.tickets| && g.tickets[id].inLine
      ensures g.counters.queueDepth > 0
    {
      assert id in InLine(g.tickets);
    }
    forall id: nat | InPhase(g, id, Decoding)
      ensures g.counters.active > 0
    {
      assert id in Decoders(g.tickets);
    }
  }

  lemma Subset(a: set<nat>, b: set<nat>)
    requires a <= b
    ensures |a| <= |b|
  {
    assert b == a + (b - a);
  }

  /** What one ticket may still do: leave the line, and end. */
  predicate Onward(before: Pass, after: Pass) {
    && after.waits == before.waits
    && (!before.inLine ==> !after.inLine)
    && (before.phase.Gone? ==> after == before)
  }

  lemma StepIsOnward(g: Gateway, e: Event, id: nat)
    requires Enabled(g, e) && id < |g.tickets|
    ensures id < |Step(g, e).tickets| && Onward(g.tickets[id], Step(g, e).tickets[id])
  {
  }

  /** A ticket leaves the line at most once and ends at most once, with one outcome. */
  lemma {:induction false} TicketsNeverReturn(g: Gateway, events: seq<Event>, id: nat)
    requires Runs(g, events) && id < |g.tickets|
    ensures id < |After(g, events).tickets| && Onward(g.tickets[id], After(g, events).tickets[id])
    decreases |events|
  {
    if events != [] {
      StepIsOnward(g, events[0], id);
      TicketsNeverReturn(Step(g, events[0]), events[1..], id);
    }
  }

  /** The tickets admitted to wait that are in line or decoding. */
  function Waiting(tickets: seq<Pass>): set<nat> {
    set id | 0 <= id < |tickets| && tickets[id].waits && (tickets[id].inLine || tickets[id].phase == Decoding)
  }

  lemma {:induction false} RunKeepsWaiting(g: Gateway, events: seq<Event>, limit: nat, allowance: nat)
    requires Inv(g) && Runs(g, events) && FixedLimit(events)
    requires FixedInv(g, limit, allowance) && |Waiting(g.tickets)| <= limit + allowance
    ensures |Waiting(After(g, events).tickets)| <= limit + allowance
    decreases |events|
  {
    if events != [] {
      StepKeeps(g, events[0]);
      StepFixed(g, events[0], limit, allowance);
      StepKeepsWaiting(g, events[0], limit, allowance);
      RunKeepsWaiting(Step(g, events[0]), events[1..], limit, allowance);
    }
  }

  lemma StepKeepsWaiting(g: Gateway, e: Event, limit: nat, allowance: nat)
    requires Inv(g) && Enabled(g, e) && !e.SetLimit?
    requires FixedInv(g, limit, allowance) && |Waiting(g.tickets)| <= limit + allowance
    ensures |Waiting(Step(g, e).tickets)| <= limit + allowance
  {
    if e.Arrive? {
      ArrivalWaits(g, e.wait);
    } else {
      NobodyStartsWaiting(g, e);
      Subset(Waiting(Step(g, e).tickets), Waiting(g.tickets));
    }
  }

  lemma NobodyStartsWaiting(g: Gateway, e: Event)
    requires Inv(g) && Enabled(g, e) && !e.Arrive?
    ensures Waiting(Step(g, e).tickets) <= Waiting(g.tickets)
  {
    if !e.SetLimit? {
      assert WellPlaced(g.tickets[e.id]);
    }
  }

  lemma ArrivalWaits(g: Gateway, wait: bool)
    requires Inv(g)
    ensures |Waiting(Arriving(g, wait).tickets)| <=
      if wait && !LineIsFull(g.counters, g.limit, g.allowance) then g.counters.queueDepth + g.counters.active + 1
      else |Waiting(g.tickets)|
  {
    WaitingIsCounted(g.tickets);
    if !(wait && LineIsFull(g.counters, g.limit, g.allowance)) {
      OneMoreWaits(g.tickets, wait);
    }
  }

  lemma OneMoreWaits(tickets: seq<Pass>, wait: bool)
    ensures |Waiting(tickets + [Opened(wait)])| == |Waiting(tickets)| + (if wait then 1 else 0)
  {
    var all := tickets + [Opened(wait)];
    assert all[|tickets|] == Opened(wait);
    assert forall id: nat :: id < |tickets| ==> all[id] == tickets[id];
    assert Waiting(all) == Waiting(tickets) + (if wait then {|tickets|} else {});
  }

  lemma WaitingIsCounted(tickets: seq<Pass>)
    ensures |Waiting(tickets)| <= |InLine(tickets)| + |Decoders(tickets)|
  {
    Subset(Waiting(tickets), InLine(tickets) + Decoders(tickets));
  }

  /** When every ticket waits, the waiting ones are all there are. */
  lemma {:induction false} RunAllWait(g: Gateway, events: seq<Event>)
    requires Runs(g, events) && WaitingOnly(events) && forall id: nat :: id < |g.tickets| ==> g.tickets[id].waits
    ensures forall id: nat :: id < |After(g, events).tickets| ==> After(g, events).tickets[id].waits
    decreases |events|
  {
    if events != [] {
      StepAllWait(g, events[0]);
      RunAllWait(Step(g, events[0]), events[1..]);
    }
  }

  lemma StepAllWait(g: Gateway, e: Event)
    requires Enabled(g, e) && (e.Arrive? ==> e.wait) && forall id: nat :: id < |g.tickets| ==> g.tickets[id].waits
    ensures forall id: nat :: id < |Step(g, e).tickets| ==> Step(g, e).tickets[id].waits
  {
  }

  lemma AllAreWaiting(tickets: seq<Pass>)
    requires forall id: nat :: id < |tickets| ==> tickets[id].waits && WellPlaced(tickets[id])
    ensures |Waiting(tickets)| == |InLine(tickets)| + |Decoders(tickets)|
  {
    assert Waiting(tickets) == InLine(tickets) + Decoders(tickets);
    assert InLine(tickets) !! Decoders(tickets);
  }

  /** Admission bound: the waiting tickets in line or decoding never exceed the slots plus the allowance,
      whatever streams are mixed in. Streams add at most one full limiter to that, and nothing when there
      are none. */
  lemma AdmissionIsBounded(limit: nat, allowance: nat, events: seq<Event>, g: Gateway)
    requires Reaches(limit, allowance, events, g) && FixedLimit(events)
    ensures |Waiting(g.tickets)| <= limit + allowance
    ensures WaitingOnly(events) ==> g.counters.queueDepth + g.counters.active <= limit + allowance
    ensures g.counters.queueDepth + g.counters.active <= 2 * limit + allowance
  {
    var start := Initial(limit, allowance);
    InitialInv(limit, allowance);
    ReachableInv(limit, allowance, events, g);
    RunFixed(start, events, limit, allowance);
    TicketsAreConserved(limit, allowance, events, g);
    assert Waiting(start.tickets) == {};
    RunKeepsWaiting(start, events, limit, allowance);
    if WaitingOnly(events) {
      RunAllWait(start, events);
      AllAreWaiting(g.tickets);
    }
  }

  // ---------------------------------------------------------------- the wider bound is reached

  lemma RunsCons(g: Gateway, e: Event, rest: seq<Event>)
    requires Enabled(g, e) && Runs(Step(g, e), rest)
    ensures Runs(g, [e] + rest) && After(g, [e] + rest) == After(Step(g, e), rest)
  {
    assert ([e] + rest)[1..] == rest;
  }

  lemma RunsHead(g: Gateway, events: seq<Event>) returns (next: Gateway)
    requires Runs(g, events) && events != []
    ensures Enabled(g, events[0]) && next == Step(g, events[0])
    ensures Runs(next, events[1..]) && After(g, events) == After(next, events[1..])
  {
    next := Step(g, events[0]);
  }

  lemma Regrouped(first: seq<Event>, rest: seq<Event>)
    requires first != []
    ensures first + rest == [first[0]] + (first[1..] + rest)
  {
  }

  lemma {:induction false} RunsOn(g: Gateway, first: seq<Event>, rest: seq<Event>)
    requires Runs(g, first) && Runs(After(g, first), rest)
    ensures Runs(g, first + rest) && After(g, first + rest) == After(After(g, first), rest)
    decreases |first|
  {
    if first == [] {
      assert first + rest == rest;
    } else {
      var e, more := first[0], first[1..];
      var next := RunsHead(g, first);
      RunsOn(next, more, rest);
      RunsCons(g, e, more + rest);
      Regrouped(first, rest);
    }
  }

  lemma RunsOne(g: Gateway, e: Event)
    requires Enabled(g, e)
    ensures Runs(g, [e]) && After(g, [e]) == Step(g, e)
  {
    assert [e] + [] == [e];
    RunsCons(g, e, []);
  }

  /** `n` clips are still in FFmpeg and `k` streams decode. */
  ghost predicate Crowded(g: Gateway, limit: nat, allowance: nat, n: nat, k: nat) {
    && g.limit == limit && g.allowance == allowance
    && |g.tickets| == n + k && g.line == Line(k, [], map[]) && g.counters == Counters(n, k, 0)
  }

  /** One more clip arrives. */
  lemma ClipArrives(g: Gateway, limit: nat, allowance: nat, n: nat)
    requires Crowded(g, limit, allowance, n, 0) && n < limit + allowance
    ensures Crowded(Step(g, Arrive(true)), limit, allowance, n + 1, 0)
  {
  }

  /** A stream arrives, takes a free slot ahead of every clip, and decodes. */
  lemma StreamCutsIn(g: Gateway, limit: nat, allowance: nat, n: nat, k: nat) returns (events: seq<Event>)
    requires Crowded(g, limit, allowance, n, k) && k < limit
    ensures Runs(g, events) && FixedLimit(events) && Crowded(After(g, events), limit, allowance, n, k + 1)
  {
    var id := n + k;
    var g1 := Step(g, Arrive(false));
    assert InPhase(g1, id, Arrived);
    var g2 := Step(g1, Enter(id, false));
    assert InPhase(g2, id, Checkpoint);
    var g3 := Step(g2, Resume(id, Quiet));
    assert InPhase(g3, id, Confirming);
    RunsOne(g, Arrive(false));
    RunsOne(g1, Enter(id, false));
    RunsOne(g2, Resume(id, Quiet));
    RunsOne(g3, Settle(id, Kept));
    RunsOn(g, [Arrive(false)], [Enter(id, false)]);
    RunsOn(g, [Arrive(false)] + [Enter(id, false)], [Resume(id, Quiet)]);
    RunsOn(g, [Arrive(false)] + [Enter(id, false)] + [Resume(id, Quiet)], [Settle(id, Kept)]);
    events := [Arrive(false)] + [Enter(id, false)] + [Resume(id, Quiet)] + [Settle(id, Kept)];
  }

  lemma {:induction false} CrowdGathers(limit: nat, allowance: nat, n: nat, k: nat) returns (events: seq<Event>)
    requires n <= limit + allowance && k <= limit
    ensures Runs(Initial(limit, allowance), events) && FixedLimit(events)
    ensures Crowded(After(Initial(limit, allowance), events), limit, allowance, n, k)
    decreases n + k
  {
    var start := Initial(limit, allowance);
    if k > 0 {
      var before := CrowdGathers(limit, allowance, n, k - 1);
      var last := StreamCutsIn(After(start, before), limit, allowance, n, k - 1);
      RunsOn(start, before, last);
      events := before + last;
    } else if n > 0 {
      var before := CrowdGathers(limit, allowance, n - 1, 0);
      var g := After(start, before);
      ClipArrives(g, limit, allowance, n - 1);
      RunsOne(g, Arrive(true));
      RunsOn(start, before, [Arrive(true)]);
      events := before + [Arrive(true)];
    } else {
      events := [];
    }
  }

  /** The wider bound is reached for every limit and allowance: a full line of clips still in FFmpeg, and
      every slot taken by a stream. */
  lemma StreamsReachTheWiderBound(limit: nat, allowance: nat) returns (events: seq<Event>)
    ensures Runs(Initial(limit, allowance), events) && FixedLimit(events)
    ensures After(Initial(limit, allowance), events).counters == Counters(limit + allowance, limit, 0)
  {
    events := CrowdGathers(limit, allowance, limit + allowance, limit);
  }
}
