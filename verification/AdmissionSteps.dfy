/** What each event does to the ticket it concerns, in terms of phases, owners, waiters and counters only. */
module AdmissionSteps {
  import opened Metrics
  import opened Limiter
  import opened Tickets
  import opened Admission
  import opened AdmissionSafety

  /** The other owners of a slot. */
  function Others(g: Gateway, id: nat): set<nat> {
    Owners(g.tickets, g.line) - {id}
  }

  lemma OthersCount(g: Gateway, id: nat)
    requires Inv(g)
    ensures |Others(g, id)| + (if id in Owners(g.tickets, g.line) then 1 else 0) == g.line.active
  {
    var owners := Owners(g.tickets, g.line);
    if id in owners {
      assert owners == Others(g, id) + {id};
    } else {
      assert owners == Others(g, id);
    }
  }

  /** Where a caller of `acquire` ends up. */
  predicate Placed(next: Gateway, id: nat, patient: bool, limit: nat) {
    var full := |Others(next, id)| >= limit;
    && (InPhase(next, id, Checkpoint) <==> !full)
    && (InPhase(next, id, Seated) <==> full && patient)
    && (InPhase(next, id, Gone(Busy)) <==> full && !patient)
  }

  lemma EntryByOwners(g: Gateway, id: nat, patient: bool)
    requires Inv(g) && Enabled(g, Enter(id, patient))
    ensures Placed(Step(g, Enter(id, patient)), id, patient, g.limit)
  {
    var next := Step(g, Enter(id, patient));
    StepKeeps(g, Enter(id, patient));
    WakingFills(g.line, g.limit);
    OthersCount(next, id);
  }

  /** Who waits and who is refused: a caller gets a free slot at once, whoever it is; when every slot is taken by
      others after the wake, one that may wait is seated at the end of the deque and one that may not is refused
      and never holds a seat. Only a refusal is counted, and only the caller's ticket changes. */
  lemma CallersArePlaced(limit: nat, allowance: nat, events: seq<Event>, g: Gateway, id: nat, patient: bool)
    requires Reaches(limit, allowance, events, g) && Enabled(g, Enter(id, patient))
    ensures var next := Step(g, Enter(id, patient));
      && Placed(next, id, patient, g.limit)
      && (id in Owners(next.tickets, next.line) <==> InPhase(next, id, Checkpoint))
      && (IsPending(next.line, id) <==> InPhase(next, id, Seated))
      && (InPhase(next, id, Seated) ==> next.line.waiters != [] && next.line.waiters[|next.line.waiters| - 1] == id)
      && (!InPhase(next, id, Seated) ==> id !in next.line.waiters)
      && next.counters.rejected == g.counters.rejected + (if InPhase(next, id, Gone(Busy)) then 1 else 0)
      && next.counters.active == g.counters.active
      && (forall other: nat :: other < |g.tickets| && other != id ==> next.tickets[other] == g.tickets[other])
  {
    ReachableInv(limit, allowance, events, g);
    EntryByOwners(g, id, patient);
    NewcomerIsLast(g, id, patient);
    StepKeeps(g, Enter(id, patient));
  }

  lemma NewcomerIsLast(g: Gateway, id: nat, patient: bool)
    requires Inv(g) && Enabled(g, Enter(id, patient))
    ensures var next := Step(g, Enter(id, patient)); var waiters := next.line.waiters;
      if InPhase(next, id, Seated) then waiters != [] && waiters[|waiters| - 1] == id else id !in waiters
  {
    StepKeeps(g, Enter(id, patient));
  }

  /** Whether a cancellation or a timeout has reached a ticket that waits inside `acquire`. */
  predicate CutShort(g: Gateway, id: nat)
    requires id < |g.tickets|
  {
    g.tickets[id].doomed || (g.tickets[id].phase == Seated && !IsGranted(g.line, id))
  }

  lemma CancelledOwnersStay(g: Gateway, id: nat)
    requires Inv(g) && Enabled(g, Cancel(id))
    ensures var next := Step(g, Cancel(id));
      Owners(next.tickets, next.line) == Owners(g.tickets, g.line) && next.line.active == g.line.active
  {
  }

  lemma CancelledAlone(g: Gateway, id: nat, other: nat)
    requires Enabled(g, Cancel(id)) && other < |g.tickets| && other != id
    ensures var next := Step(g, Cancel(id));
      && |next.tickets| == |g.tickets| && next.tickets[other] == g.tickets[other]
      && CutShort(next, other) == CutShort(g, other)
  {
  }

  /** A cancellation always reaches a waiting ticket: it can resume at once, it cannot succeed any more, and it
      changes no slot, no counter and no other ticket. */
  lemma CancellationsArrive(limit: nat, allowance: nat, events: seq<Event>, g: Gateway, id: nat)
    requires Reaches(limit, allowance, events, g) && Enabled(g, Cancel(id))
    ensures var next := Step(g, Cancel(id));
      && Resumable(next, id) && CutShort(next, id)
      && Owners(next.tickets, next.line) == Owners(g.tickets, g.line)
      && next.line.active == g.line.active && next.counters == g.counters
    ensures forall other: nat :: other < |g.tickets| && other != id ==>
      var next := Step(g, Cancel(id));
      && |next.tickets| == |g.tickets| && next.tickets[other] == g.tickets[other]
      && CutShort(next, other) == CutShort(g, other)
  {
    ReachableInv(limit, allowance, events, g);
    CancelledOwnersStay(g, id);
    forall other: nat | other < |g.tickets| && other != id
      ensures var next := Step(g, Cancel(id));
        && |next.tickets| == |g.tickets| && next.tickets[other] == g.tickets[other]
        && CutShort(next, other) == CutShort(g, other)
    {
      CancelledAlone(g, id, other);
    }
  }

  /** What another ticket's event may do to a waiting one. */
  predicate LeftAlone(g: Gateway, next: Gateway, id: nat)
    requires id < |g.tickets|
  {
    && id < |next.tickets| && next.tickets[id] == g.tickets[id]
    && (CutShort(next, id) ==> CutShort(g, id))
    && (IsPending(g.line, id) ==> IsPending(next.line, id) || IsGranted(next.line, id))
    && (!IsPending(g.line, id) ==> CutShort(next, id) == CutShort(g, id))
  }

  lemma EnteringLeavesAlone(g: Gateway, who: nat, patient: bool, id: nat)
    requires Inv(g) && Enabled(g, Enter(who, patient)) && who != id
    requires id < |g.tickets| && g.tickets[id].phase in {Checkpoint, Seated}
    ensures LeftAlone(g, Step(g, Enter(who, patient)), id)
  {
    WakingMovesSeat(g.line, g.limit, id);
  }

  lemma FreeingLeavesAlone(g: Gateway, e: Event, id: nat)
    requires Inv(g) && Enabled(g, e) && Frees(g, e) && e.id != id
    requires id < |g.tickets| && g.tickets[id].phase in {Checkpoint, Seated}
    ensures LeftAlone(g, Step(g, e), id)
  {
    FreeingStep(g, e);
    WakingMovesSeat(Freed(g.line), g.limit, id);
  }

  lemma OthersLeaveAlone(g: Gateway, e: Event, id: nat)
    requires Inv(g) && Enabled(g, e) && !e.Enter? && !Frees(g, e) && (e.Arrive? || e.SetLimit? || e.id != id)
    requires id < |g.tickets| && g.tickets[id].phase in {Checkpoint, Seated}
    ensures LeftAlone(g, Step(g, e), id)
  {
    if e.Cancel? {
      CancelledLeavesAlone(g, e.id, id);
    }
  }

  lemma CancelledLeavesAlone(g: Gateway, who: nat, id: nat)
    requires Inv(g) && Enabled(g, Cancel(who)) && who != id
    requires id < |g.tickets| && g.tickets[id].phase in {Checkpoint, Seated}
    ensures LeftAlone(g, Step(g, Cancel(who)), id)
  {
    CancelledAlone(g, who, id);
  }

  /** Nothing else cuts a ticket short: another event leaves it as it was, or grants it a slot. */
  lemma NobodyElseCuts(limit: nat, allowance: nat, events: seq<Event>, g: Gateway, e: Event, id: nat)
    requires Reaches(limit, allowance, events, g) && Enabled(g, e)
    requires id < |g.tickets| && g.tickets[id].phase in {Checkpoint, Seated}
    requires e.Arrive? || e.SetLimit? || e.id != id
    ensures LeftAlone(g, Step(g, e), id)
  {
    ReachableInv(limit, allowance, events, g);
    if e.Enter? {
      EnteringLeavesAlone(g, e.id, e.patient, id);
    } else if Frees(g, e) {
      FreeingLeavesAlone(g, e, id);
    } else {
      OthersLeaveAlone(g, e, id);
    }
  }

  /** A wake changes a seat only from pending to granted. */
  lemma {:induction false} WakingMovesSeat(line: Line, limit: nat, id: nat)
    ensures var woken := Woken(line, limit);
      && (IsPending(line, id) ==> IsPending(woken, id) || IsGranted(woken, id))
      && (!IsPending(line, id) ==> (id in woken.seats <==> id in line.seats))
      && (!IsPending(line, id) && id in line.seats ==> woken.seats[id] == line.seats[id])
    decreases |line.waiters|
  {
    if line.waiters != [] && line.active < limit {
      var head, rest := line.waiters[0], line.waiters[1..];
      if IsPending(line, head) {
        WakingMovesSeat(Line(line.active + 1, rest, line.seats[head := Granted]), limit, id);
      } else {
        WakingMovesSeat(line.(waiters := rest), limit, id);
      }
    }
  }

  /** How an event leaves the ticket it concerns. */
  predicate Becomes(g: Gateway, next: Gateway, id: nat, phase: Phase) {
    && InPhase(next, id, phase) && |next.tickets| == |g.tickets|
    && (forall other: nat :: other < |g.tickets| && other != id ==> next.tickets[other] == g.tickets[other])
    && next.counters.rejected == g.counters.rejected + (if phase == Gone(Busy) then 1 else 0)
  }

  /** A ticket that was granted a slot and not cut short goes on with it; one that was cut short ends as it was
      told to, owns nothing and waits for nothing. */
  lemma ResumptionDecides(limit: nat, allowance: nat, events: seq<Event>, g: Gateway, id: nat, exit: Exit)
    requires Reaches(limit, allowance, events, g) && Enabled(g, Resume(id, exit))
    ensures var next := Step(g, Resume(id, exit));
      && Becomes(g, next, id, if CutShort(g, id) then Gone(exit) else Confirming)
      && (id in Owners(next.tickets, next.line) <==> !CutShort(g, id))
      && id !in next.line.waiters
  {
    ReachableInv(limit, allowance, events, g);
    StepKeeps(g, Resume(id, exit));
    ResumptionBecomes(g, id, exit);
  }

  lemma ResumptionBecomes(g: Gateway, id: nat, exit: Exit)
    requires Inv(g) && Enabled(g, Resume(id, exit))
    ensures Becomes(g, Step(g, Resume(id, exit)), id, if CutShort(g, id) then Gone(exit) else Confirming)
  {
  }

  /** After the second probe a ticket that is kept decodes, and one that is dropped ends without its slot; a
      finished or departing ticket ends. Only a kept one counts as an active decode, until it finishes. */
  lemma VerdictDecides(limit: nat, allowance: nat, events: seq<Event>, g: Gateway, e: Event)
    requires Reaches(limit, allowance, events, g) && Enabled(g, e) && (e.Settle? || e.Finish? || e.Depart?)
    ensures var next := Step(g, e);
      var phase := if e.Depart? then Gone(e.exit) else if e.Finish? then Gone(Quiet)
                   else if e.verdict.Kept? then Decoding else Gone(e.verdict.exit);
      && Becomes(g, next, e.id, phase)
      && (e.id in Owners(next.tickets, next.line) <==> phase == Decoding)
      && next.counters.active + (if e.Finish? then 1 else 0)
        == g.counters.active + (if phase == Decoding then 1 else 0)
  {
    ReachableInv(limit, allowance, events, g);
    if e.Finish? {
      assert e.id in Decoders(g.tickets);
    }
  }

  /** An arrival that may wait is turned away exactly when the tickets in line and decoding fill the slots and
      the allowance, and then it is counted and leaves no ticket; any other arrival becomes a ticket, in line
      exactly if it may wait. */
  lemma ArrivalsAreAdmittedIff(limit: nat, allowance: nat, events: seq<Event>, g: Gateway, wait: bool)
    requires Reaches(limit, allowance, events, g)
    ensures var next := Step(g, Arrive(wait));
      if wait && |InLine(g.tickets)| + |Decoders(g.tickets)| >= g.limit + g.allowance then
        && next.tickets == g.tickets && next.counters == g.counters.(rejected := g.counters.rejected + 1)
      else
        && next.tickets == g.tickets + [Pass(Arrived, wait, wait, false)]
        && next.counters == g.counters.(queueDepth := g.counters.queueDepth + (if wait then 1 else 0))
  {
    TicketsAreConserved(limit, allowance, events, g);
  }
}
