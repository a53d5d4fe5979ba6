/** The three admission counters of app/metrics.py: who is in line, who is decoding, who was refused. */
module Metrics {

  datatype Counters = Counters(queueDepth: nat, active: nat, rejected: nat)

  /** `max(0, n - 1)`, the clamp that both the metrics and the limiter decrement through. */
  function Decrement(n: nat): (r: nat)
    ensures n > 0 ==> r + 1 == n
  {
    if n == 0 then 0 else n - 1
  }

  predicate LineIsFull(c: Counters, slots: nat, waiting: nat) {
    c.queueDepth + c.active >= slots + waiting
  }

  function Offered(c: Counters, slots: nat, waiting: nat): Counters {
    if LineIsFull(c, slots, waiting) then c.(rejected := c.rejected + 1)
    else c.(queueDepth := c.queueDepth + 1)
  }

  function Dequeued(c: Counters, rejected: bool): Counters {
    c.(queueDepth := Decrement(c.queueDepth), rejected := if rejected then c.rejected + 1 else c.rejected)
  }

  function Rejected(c: Counters): Counters {
    c.(rejected := c.rejected + 1)
  }

  function Started(c: Counters, queued: bool): Counters {
    c.(queueDepth := if queued then Decrement(c.queueDepth) else c.queueDepth, active := c.active + 1)
  }

  function Finished(c: Counters): Counters {
    c.(active := Decrement(c.active))
  }

  class RuntimeMetrics {
    var queueDepth: nat
    var activeTranscriptions: nat
    var rejectedTranscriptions: nat

    function Value(): Counters
      reads this
    {
      Counters(queueDepth, activeTranscriptions, rejectedTranscriptions)
    }

    constructor ()
      ensures Value() == Counters(0, 0, 0)
    {
      queueDepth, activeTranscriptions, rejectedTranscriptions := 0, 0, 0;
    }

    method OfferQueue(maximumWaiting: nat, slots: nat) returns (admitted: bool)
      modifies this
      ensures admitted <==> !LineIsFull(old(Value()), slots, maximumWaiting)
      ensures Value() == Offered(old(Value()), slots, maximumWaiting)
    {
      var occupied := queueDepth + activeTranscriptions;
      if occupied >= slots + maximumWaiting {
        rejectedTranscriptions := rejectedTranscriptions + 1;
        return false;
      }
      queueDepth := queueDepth + 1;
      return true;
    }

    method Dequeue(rejected: bool)
      modifies this
      ensures Value() == Dequeued(old(Value()), rejected)
    {
      queueDepth := Decrement(queueDepth);
      if rejected {
        rejectedTranscriptions := rejectedTranscriptions + 1;
      }
    }

    method Reject()
      modifies this
      ensures Value() == Rejected(old(Value()))
    {
      rejectedTranscriptions := rejectedTranscriptions + 1;
    }

    method Start(queued: bool)
      modifies this
      ensures Value() == Started(old(Value()), queued)
    {
      if queued {
        queueDepth := Decrement(queueDepth);
      }
      activeTranscriptions := activeTranscriptions + 1;
    }

    method Finish()
      modifies this
      ensures Value() == Finished(old(Value()))
    {
      activeTranscriptions := Decrement(activeTranscriptions);
    }
  }
}
