/** The first-come-first-served slot allocator `_DecodeLimiter` of app/service.py.

    The source suspends a caller at two points: at the checkpoint after a fast grant, and on its
    seat in the deque. Everything between two suspensions is atomic, so each such stretch is one
    method here, proved equal to a function on the limiter's value. A seat is named by the ticket
    that owns it; a seat's future is never reused. */
module Limiter {
  import opened Metrics

  datatype Seat = Pending | Granted | Cancelled

  datatype Line = Line(active: nat, waiters: seq<nat>, seats: map<nat, Seat>)

  datatype Entry = FastPath | NoWaiting | Queued

  predicate IsPending(line: Line, id: nat) {
    id in line.seats && line.seats[id] == Pending
  }

  predicate IsGranted(line: Line, id: nat) {
    id in line.seats && line.seats[id] == Granted
  }

  /** `_wake`: hand free slots to the head of the deque, dropping seats nobody waits on. */
  function Woken(line: Line, limit: nat): Line
    decreases |line.waiters|
  {
    if line.waiters == [] || line.active >= limit then line
    else
      var head := line.waiters[0];
      var rest := line.waiters[1..];
      if IsPending(line, head) then Woken(Line(line.active + 1, rest, line.seats[head := Granted]), limit)
      else Woken(line.(waiters := rest), limit)
  }

  /** The seats `Woken` grants, in the order it grants them. */
  function Handed(line: Line, limit: nat): seq<nat>
    decreases |line.waiters|
  {
    if line.waiters == [] || line.active >= limit then []
    else
      var head := line.waiters[0];
      var rest := line.waiters[1..];
      if IsPending(line, head) then
        [head] + Handed(Line(line.active + 1, rest, line.seats[head := Granted]), limit)
      else Handed(line.(waiters := rest), limit)
  }

  function Freed(line: Line): Line {
    line.(active := Decrement(line.active))
  }

  function Released(line: Line, limit: nat): Line {
    Woken(Freed(line), limit)
  }

  /** `deque.remove` with the ValueError suppressed: drop the first occurrence, if any. */
  function Without(waiters: seq<nat>, id: nat): seq<nat> {
    if waiters == [] then []
    else if waiters[0] == id then waiters[1..]
    else [waiters[0]] + Without(waiters[1..], id)
  }

  function EntryFor(line: Line, limit: nat, patient: bool): Entry {
    var woken := Woken(line, limit);
    if woken.waiters == [] && woken.active < limit then FastPath
    else if patient then Queued
    else NoWaiting
  }

  /** `acquire` up to its first suspension. */
  function Entered(line: Line, id: nat, limit: nat, patient: bool): Line {
    var woken := Woken(line, limit);
    match EntryFor(line, limit, patient)
    case FastPath => woken.(active := woken.active + 1)
    case NoWaiting => woken
    case Queued => woken.(waiters := woken.waiters + [id], seats := woken.seats[id := Pending])
  }

  /** `acquire`'s handler when the wait on a seat ends in an exception. */
  function GivenUp(line: Line, id: nat, limit: nat): Line {
    if IsGranted(line, id) then Released(line, limit)
    else line.(waiters := Without(line.waiters, id))
  }

  /** Cancelling a task that waits on a seat cancels the seat's future, if it is not done yet. */
  function SeatCancelled(line: Line, id: nat): Line {
    if IsPending(line, id) then line.(seats := line.seats[id := Cancelled]) else line
  }

  class DecodeLimiter {
    var active: nat
    var waiters: seq<nat>
    var seats: map<nat, Seat>

    function Value(): Line
      reads this
    {
      Line(active, waiters, seats)
    }

    constructor ()
      ensures Value() == Line(0, [], map[])
    {
      active, waiters, seats := 0, [], map[];
    }

    method Wake(limit: nat)
      modifies this
      ensures Value() == Woken(old(Value()), limit)
    {
      while waiters != [] && active < limit
        invariant Woken(Value(), limit) == Woken(old(Value()), limit)
        decreases |waiters|
      {
        var seat := waiters[0];
        waiters := waiters[1..];
        if seat in seats && seats[seat] == Pending {
          active := active + 1;
          seats := seats[seat := Granted];
        }
      }
    }

    method Release(limit: nat)
      modifies this
      ensures Value() == Released(old(Value()), limit)
    {
      active := Decrement(active);
      Wake(limit);
    }

    method Enter(id: nat, limit: nat, patient: bool) returns (entry: Entry)
      modifies this
      ensures entry == EntryFor(old(Value()), limit, patient)
      ensures Value() == Entered(old(Value()), id, limit, patient)
    {
      Wake(limit);
      if waiters == [] && active < limit {
        active := active + 1;
        return FastPath;
      }
      if !patient {
        return NoWaiting;
      }
      waiters := waiters + [id];
      seats := seats[id := Pending];
      return Queued;
    }

    method GiveUp(id: nat, limit: nat)
      modifies this
      ensures Value() == GivenUp(old(Value()), id, limit)
    {
      if id in seats && seats[id] == Granted {
        Release(limit);
      } else {
        waiters := Without(waiters, id);
      }
    }

    method CancelSeat(id: nat)
      modifies this
      ensures Value() == SeatCancelled(old(Value()), id)
    {
      if id in seats && seats[id] == Pending {
        seats := seats[id := Cancelled];
      }
    }
  }
}
