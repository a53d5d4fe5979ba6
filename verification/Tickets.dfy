/** `_Ticket` of app/service.py: one request's place in line, from arrival until it gives its slot back. */
module Tickets {
  import opened Metrics
  import opened Limiter

  /** How a ticket ended: turned into `engine_overloaded`, or any other way. */
  datatype Exit = Busy | Quiet

  datatype Phase =
    | Arrived             // admitted or probing; owns no slot and no seat
    | Checkpoint          // fast grant taken, suspended at sleep(0)
    | Seated              // suspended on its seat
    | Confirming          // slot taken, second disconnect probe
    | Decoding            // slot taken and counted as active
    | Gone(exit: Exit)

  /** `doomed` means a cancellation is already scheduled for the next resumption. */
  datatype Pass = Pass(phase: Phase, waits: bool, inLine: bool, doomed: bool)

  /** What one atomic stretch of a ticket's coroutine can touch. */
  datatype Cell = Cell(line: Line, counters: Counters, pass: Pass)

  datatype Verdict = Kept | Dropped(exit: Exit)

  function Opened(wait: bool): Pass {
    Pass(Arrived, wait, wait, false)
  }

  /** `_leave`, then the ticket is over. */
  function Left(c: Cell, exit: Exit): Cell {
    var pass := c.pass.(phase := Gone(exit), inLine := false);
    if c.pass.inLine then Cell(c.line, Dequeued(c.counters, exit == Busy), pass)
    else if exit == Busy then Cell(c.line, Rejected(c.counters), pass)
    else c.(pass := pass)
  }

  /** Enters the limiter; a caller that may not wait is refused as busy on the spot. */
  function Entering(c: Cell, id: nat, limit: nat, patient: bool): Cell {
    var line := Entered(c.line, id, limit, patient);
    match EntryFor(c.line, limit, patient)
    case FastPath => Cell(line, c.counters, c.pass.(phase := Checkpoint))
    case Queued => Cell(line, c.counters, c.pass.(phase := Seated))
    case NoWaiting => Left(c.(line := line), Busy)
  }

  /** `task.cancel()` on a ticket suspended inside `acquire`. */
  function Cancelling(c: Cell, id: nat): Cell {
    if c.pass.phase == Seated && IsPending(c.line, id) then c.(line := SeatCancelled(c.line, id))
    else c.(pass := c.pass.(doomed := true))
  }

  /** Whether the suspended `acquire` returns, rather than raising, when it runs again. */
  predicate Succeeds(c: Cell, id: nat) {
    !c.pass.doomed && (c.pass.phase == Seated ==> IsGranted(c.line, id))
  }

  /** `acquire` from its suspension to its end, with the handlers around it. */
  function Resuming(c: Cell, id: nat, limit: nat, exit: Exit): Cell {
    if Succeeds(c, id) then c.(pass := c.pass.(phase := Confirming))
    else if c.pass.phase == Seated then Left(c.(line := GivenUp(c.line, id, limit)), exit)
    else Left(c.(line := Released(c.line, limit)), exit)
  }

  /** The probe after the grant, then `started`. */
  function Settling(c: Cell, limit: nat, verdict: Verdict): Cell {
    match verdict
    case Kept =>
      Cell(c.line, Started(c.counters, c.pass.inLine), c.pass.(phase := Decoding, inLine := false))
    case Dropped(exit) => Left(c.(line := Released(c.line, limit)), exit)
  }

  /** `release_transcription_slot`. */
  function Finishing(c: Cell, limit: nat): Cell {
    Cell(Released(c.line, limit), Finished(c.counters), c.pass.(phase := Gone(Quiet)))
  }

  class Ticket {
    const id: nat
    const limiter: DecodeLimiter
    const metrics: RuntimeMetrics
    var phase: Phase
    var waits: bool
    var inLine: bool
    var doomed: bool

    function Value(): Pass
      reads this
    {
      Pass(phase, waits, inLine, doomed)
    }

    function View(): Cell
      reads this, limiter, metrics
    {
      Cell(limiter.Value(), metrics.Value(), Value())
    }

    constructor Admitted(id: nat, limiter: DecodeLimiter, metrics: RuntimeMetrics, wait: bool)
      ensures this.id == id && this.limiter == limiter && this.metrics == metrics
      ensures Value() == Opened(wait)
    {
      this.id, this.limiter, this.metrics := id, limiter, metrics;
      phase, waits, inLine, doomed := Arrived, wait, wait, false;
    }

    /** The source's constructor, which raises when the line is full. */
    static method Open(id: nat, limiter: DecodeLimiter, metrics: RuntimeMetrics,
                       wait: bool, waiting: nat, slots: nat)
      returns (ticket: Ticket?)
      modifies metrics
      ensures metrics.Value() == if wait then Offered(old(metrics.Value()), slots, waiting) else old(metrics.Value())
      ensures ticket == null <==> wait && LineIsFull(old(metrics.Value()), slots, waiting)
      ensures ticket != null ==>
        && fresh(ticket) && ticket.id == id && ticket.limiter == limiter && ticket.metrics == metrics
        && ticket.Value() == Opened(wait)
    {
      if wait {
        var admitted := metrics.OfferQueue(waiting, slots);
        if !admitted {
          return null;
        }
      }
      ticket := new Ticket.Admitted(id, limiter, metrics, wait);
    }

    method Leave(exit: Exit)
      modifies this, metrics
      ensures View() == Left(old(View()), exit)
    {
      if inLine {
        inLine := false;
        metrics.Dequeue(exit == Busy);
      } else if exit == Busy {
        metrics.Reject();
      }
      phase := Gone(exit);
    }

    method Enter(limit: nat, patient: bool)
      modifies this, limiter, metrics
      ensures View() == Entering(old(View()), id, limit, patient)
    {
      var entry := limiter.Enter(id, limit, patient);
      match entry
      case FastPath => phase := Checkpoint;
      case Queued => phase := Seated;
      case NoWaiting => Leave(Busy);
    }

    method Cancel()
      modifies this, limiter
      ensures View() == Cancelling(old(View()), id)
    {
      if phase == Seated && id in limiter.seats && limiter.seats[id] == Pending {
        limiter.CancelSeat(id);
      } else {
        doomed := true;
      }
    }

    method Resume(limit: nat, exit: Exit)
      modifies this, limiter, metrics
      ensures View() == Resuming(old(View()), id, limit, exit)
    {
      if phase == Seated {
        if !doomed && id in limiter.seats && limiter.seats[id] == Granted {
          phase := Confirming;
          return;
        }
        limiter.GiveUp(id, limit);
      } else {
        if !doomed {
          phase := Confirming;
          return;
        }
        limiter.Release(limit);
      }
      Leave(exit);
    }

    method Settle(limit: nat, verdict: Verdict)
      modifies this, limiter, metrics
      ensures View() == Settling(old(View()), limit, verdict)
    {
      match verdict
      case Kept =>
        var queued := inLine;
        inLine := false;
        metrics.Start(queued);
        phase := Decoding;
      case Dropped(exit) =>
        limiter.Release(limit);
        Leave(exit);
    }

    method Finish(limit: nat)
      modifies this, limiter, metrics
      ensures View() == Finishing(old(View()), limit)
    {
      limiter.Release(limit);
      metrics.Finish();
      phase := Gone(Quiet);
    }
  }
}
