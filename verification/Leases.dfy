/** Hot-swapping engines without closing a busy one: `_LeaseBook` and `EngineManager` of app/engines.py.

    An engine is named by its identity. `closed` and `unloaded` record, in order, the calls the book
    and the manager make to close an engine or to drop its resident model. */
module Leases {

  datatype Book = Book(counts: map<nat, nat>, retired: set<nat>, closed: seq<nat>)

  function Acquired(b: Book, engine: nat): Book {
    b.(counts := b.counts[engine := (if engine in b.counts then b.counts[engine] else 0) + 1])
  }

  function Released(b: Book, engine: nat): Book {
    var remaining := (if engine in b.counts then b.counts[engine] as int else 1) - 1;
    if remaining > 0 then b.(counts := b.counts[engine := remaining])
    else Book(b.counts - {engine}, b.retired - {engine},
              if engine in b.retired then b.closed + [engine] else b.closed)
  }

  function Retired(b: Book, engine: nat): Book {
    if engine in b.counts then b.(retired := b.retired + {engine}) else b.(closed := b.closed + [engine])
  }

  ghost function Sum(counts: map<nat, nat>): nat
    decreases |counts|
  {
    if counts == map[] then 0
    else var k :| k in counts; counts[k] + Sum(counts - {k})
  }

  lemma {:induction false} SumWithout(counts: map<nat, nat>, k: nat)
    requires k in counts
    ensures Sum(counts) == counts[k] + Sum(counts - {k})
    decreases |counts|
  {
    var first :| first in counts && Sum(counts) == counts[first] + Sum(counts - {first});
    if first != k {
      SumWithout(counts - {first}, k);
      SumWithout(counts - {k}, first);
      assert counts - {first} - {k} == counts - {k} - {first};
    }
  }

  class LeaseBook {
    var counts: map<nat, nat>
    var retired: set<nat>
    var closed: seq<nat>

    function Value(): Book
      reads this
    {
      Book(counts, retired, closed)
    }

    constructor ()
      ensures Value() == Book(map[], {}, [])
    {
      counts, retired, closed := map[], {}, [];
    }

    method Active() returns (total: nat)
      ensures total == Sum(counts)
    {
      total := 0;
      var rest := counts;
      while rest != map[]
        invariant total + Sum(rest) == Sum(counts)
        decreases |rest|
      {
        var key :| key in rest;
        SumWithout(rest, key);
        total := total + rest[key];
        rest := rest - {key};
      }
    }

    method Acquire(engine: nat)
      modifies this
      ensures Value() == Acquired(old(Value()), engine)
    {
      counts := counts[engine := (if engine in counts then counts[engine] else 0) + 1];
    }

    method Release(engine: nat)
      modifies this
      ensures Value() == Released(old(Value()), engine)
    {
      var remaining := (if engine in counts then counts[engine] as int else 1) - 1;
      if remaining > 0 {
        counts := counts[engine := remaining];
        return;
      }
      counts := counts - {engine};
      if engine in retired {
        retired := retired - {engine};
        closed := closed + [engine];
      } else {
        assert retired - {engine} == retired;
      }
    }

    method Retire(engine: nat)
      modifies this
      ensures Value() == Retired(old(Value()), engine)
    {
      if engine in counts {
        retired := retired + {engine};
        return;
      }
      closed := closed + [engine];
    }
  }

  /** `nextId` is the identity the next engine built will have. */
  datatype Manager = Manager(
    engine: nat, book: Book, nextId: nat, lastUsedAt: int, offloaded: bool, unloaded: seq<nat>)

  /** A swap saves the configuration, builds, then retires; either of the first two can raise. */
  datatype SwapOutcome = SaveFailed | BuildFailed | Built

  /** What `offload_if_idle` reads: the policy, the residency of the current engine, and the clock. */
  datatype IdleCheck = IdleCheck(enabled: bool, resident: bool, now: int, maximumIdle: int)

  function Leased(m: Manager): Manager {
    m.(book := Acquired(m.book, m.engine))
  }

  function LeaseFinished(m: Manager, engine: nat, now: int, resident: bool): Manager {
    m.(book := Released(m.book, engine), lastUsedAt := now, offloaded := if resident then false else m.offloaded)
  }

  function Swapped(m: Manager, outcome: SwapOutcome): Manager {
    if outcome == Built then
      m.(engine := m.nextId, nextId := m.nextId + 1, book := Retired(m.book, m.engine), offloaded := false)
    else m
  }

  ghost predicate Idle(m: Manager, check: IdleCheck) {
    && check.enabled && check.resident && Sum(m.book.counts) == 0
    && check.now - m.lastUsedAt >= check.maximumIdle
  }

  ghost function OffloadChecked(m: Manager, check: IdleCheck): Manager {
    if Idle(m, check) then m.(unloaded := m.unloaded + [m.engine], offloaded := true) else m
  }

  class EngineManager {
    const leases: LeaseBook
    var engine: nat
    var nextId: nat
    var lastUsedAt: int
    var offloaded: bool
    var unloaded: seq<nat>

    function Value(): Manager
      reads this, leases
    {
      Manager(engine, leases.Value(), nextId, lastUsedAt, offloaded, unloaded)
    }

    constructor (now: int)
      ensures fresh(leases)
      ensures Value() == Manager(0, Book(map[], {}, []), 1, now, false, [])
    {
      leases := new LeaseBook();
      engine, nextId, lastUsedAt, offloaded, unloaded := 0, 1, now, false, [];
    }

    method Lease() returns (leased: nat)
      modifies leases
      ensures leased == engine && Value() == Leased(old(Value()))
    {
      leased := engine;
      leases.Acquire(leased);
    }

    method FinishLease(leased: nat, now: int, resident: bool)
      modifies this, leases
      ensures Value() == LeaseFinished(old(Value()), leased, now, resident)
    {
      leases.Release(leased);
      lastUsedAt := now;
      if resident {
        offloaded := false;
      }
    }

    method Swap(outcome: SwapOutcome)
      modifies this, leases
      ensures Value() == Swapped(old(Value()), outcome)
    {
      var previous := engine;
      if outcome != Built {
        return;
      }
      engine := nextId;
      nextId := nextId + 1;
      leases.Retire(previous);
      offloaded := false;
    }

    method OffloadIfIdle(check: IdleCheck) returns (dropped: bool)
      modifies this
      ensures dropped <==> Idle(old(Value()), check)
      ensures Value() == OffloadChecked(old(Value()), check)
    {
      var active := leases.Active();
      if !check.enabled || !check.resident || active > 0 {
        return false;
      }
      if check.now - lastUsedAt < check.maximumIdle {
        return false;
      }
      unloaded := unloaded + [engine];
      offloaded := true;
      return true;
    }
  }

  // ---------------------------------------------------------------- every run

  /** The manager, and one entry for each lease some request still holds. */
  datatype World = World(manager: Manager, held: multiset<nat>)

  datatype Event =
    | Lease
    | Finish(engine: nat, now: int, resident: bool)
    | Swap(outcome: SwapOutcome)
    | Check(check: IdleCheck)

  predicate Enabled(w: World, e: Event) {
    e.Finish? ==> e.engine in w.held
  }

  ghost function Step(w: World, e: Event): World
    requires Enabled(w, e)
  {
    match e
    case Lease => World(Leased(w.manager), w.held + multiset{w.manager.engine})
    case Finish(engine, now, resident) =>
      World(LeaseFinished(w.manager, engine, now, resident), w.held - multiset{engine})
    case Swap(outcome) => w.(manager := Swapped(w.manager, outcome))
    case Check(check) => w.(manager := OffloadChecked(w.manager, check))
  }

  ghost predicate Runs(w: World, events: seq<Event>)
    decreases |events|
  {
    events == [] || (Enabled(w, events[0]) && Runs(Step(w, events[0]), events[1..]))
  }

  ghost function After(w: World, events: seq<Event>): World
    requires Runs(w, events)
    decreases |events|
  {
    if events == [] then w else After(Step(w, events[0]), events[1..])
  }

  function Started(now: int): World {
    World(Manager(0, Book(map[], {}, []), 1, now, false, []), multiset{})
  }

  ghost predicate CountsAre(counts: map<nat, nat>, held: multiset<nat>) {
    && (forall e: nat :: e in counts <==> e in held)
    && (forall e <- counts :: counts[e] == held[e])
  }

  /** Every engine ever built is in exactly one place: current, retired and leased, or closed once. */
  ghost predicate Placed(w: World, e: nat) {
    var m := w.manager;
    && (e == m.engine ==> e < m.nextId && e !in m.book.retired && e !in m.book.closed)
    && (e in m.book.retired ==> e < m.nextId && e in w.held && e !in m.book.closed)
    && (e in m.book.closed ==> e < m.nextId && e !in w.held && multiset(m.book.closed)[e] == 1)
    && (e < m.nextId ==> e == m.engine || e in m.book.retired || e in m.book.closed)
    && (e in w.held ==> e < m.nextId)
  }

  ghost predicate Inv(w: World) {
    CountsAre(w.manager.book.counts, w.held) && forall e: nat :: Placed(w, e)
  }

  lemma LeaseKeeps(w: World)
    requires Inv(w)
    ensures Inv(Step(w, Lease))
  {
    var next := Step(w, Lease);
    assert Placed(w, w.manager.engine);
    forall x: nat
      ensures Placed(next, x)
    {
      assert Placed(w, x);
    }
  }

  lemma FinishCounts(w: World, e: Event)
    requires Inv(w) && Enabled(w, e) && e.Finish?
    ensures CountsAre(Step(w, e).manager.book.counts, Step(w, e).held)
  {
  }

  lemma FinishPlaces(w: World, e: Event, x: nat)
    requires Inv(w) && Enabled(w, e) && e.Finish?
    ensures Placed(Step(w, e), x)
  {
    assert Placed(w, x);
    assert Placed(w, e.engine);
    assert w.manager.book.counts[e.engine] == w.held[e.engine];
  }

  lemma SwapPlaces(w: World, outcome: SwapOutcome, x: nat)
    requires Inv(w)
    ensures Placed(Step(w, Swap(outcome)), x)
  {
    assert Placed(w, x);
    assert Placed(w, w.manager.engine);
    assert Placed(w, w.manager.nextId);
  }

  lemma StepKeeps(w: World, e: Event)
    requires Inv(w) && Enabled(w, e)
    ensures Inv(Step(w, e))
  {
    match e
    case Lease => LeaseKeeps(w);
    case Finish(_, _, _) =>
      FinishCounts(w, e);
      forall x: nat
        ensures Placed(Step(w, e), x)
      {
        FinishPlaces(w, e, x);
      }
    case Swap(outcome) =>
      forall x: nat
        ensures Placed(Step(w, e), x)
      {
        SwapPlaces(w, outcome, x);
      }
    case Check(_) =>
      forall x: nat
        ensures Placed(Step(w, e), x)
      {
        assert Placed(w, x);
      }
  }

  lemma {:induction false} RunKeeps(w: World, events: seq<Event>)
    requires Inv(w) && Runs(w, events)
    ensures Inv(After(w, events))
    decreases |events|
  {
    if events != [] {
      StepKeeps(w, events[0]);
      RunKeeps(Step(w, events[0]), events[1..]);
    }
  }

  /** `active` is the number of leases out, on any engine. */
  lemma {:induction false} SumIsHeld(counts: map<nat, nat>, held: multiset<nat>)
    requires CountsAre(counts, held)
    ensures Sum(counts) == |held|
    decreases |counts|
  {
    if counts == map[] {
      assert held == multiset{};
    } else {
      var k :| k in counts;
      SumWithout(counts, k);
      SumIsHeld(counts - {k}, held[k := 0]);
      assert |held| == held[k] + |held[k := 0]|;
    }
  }

  /** In every run: counts are the leases out, a closed engine has none and was closed once, a swapped-out
      engine is closed exactly when its last lease ended, and the current engine is never retired. */
  lemma LeasesAreSafe(now: int, events: seq<Event>, w: World)
    requires Runs(Started(now), events) && w == After(Started(now), events)
    ensures CountsAre(w.manager.book.counts, w.held) && Sum(w.manager.book.counts) == |w.held|
    ensures w.manager.engine !in w.manager.book.retired && w.manager.engine !in w.manager.book.closed
    ensures forall e: nat :: e in w.manager.book.retired <==> e != w.manager.engine && e in w.held
    ensures forall e: nat :: e < w.manager.nextId && e != w.manager.engine ==>
      multiset(w.manager.book.closed)[e] == if e in w.held then 0 else 1
    ensures forall e: nat :: e in w.manager.book.closed ==> e !in w.held
  {
    RunKeeps(Started(now), events);
    SumIsHeld(w.manager.book.counts, w.held);
    assert Placed(w, w.manager.engine);
    forall e: nat
      ensures Placed(w, e)
      ensures e in w.manager.book.retired <==> e != w.manager.engine && e in w.held
    {
      assert Placed(w, e);
    }
  }

  /** Idle offload drops the model exactly when the policy asks for it and nobody holds any engine, and it
      never closes one. */
  lemma OffloadNeedsSilence(now: int, events: seq<Event>, w: World, check: IdleCheck)
    requires Runs(Started(now), events) && w == After(Started(now), events)
    ensures var next := Step(w, Check(check));
      && (next.manager.unloaded != w.manager.unloaded <==>
            && check.enabled && check.resident && w.held == multiset{}
            && check.now - w.manager.lastUsedAt >= check.maximumIdle)
      && (next.manager.unloaded != w.manager.unloaded ==>
            next.manager.unloaded == w.manager.unloaded + [w.manager.engine])
      && next.manager.book == w.manager.book && next.manager.engine == w.manager.engine
  {
    LeasesAreSafe(now, events, w);
    assert |w.held| == 0 <==> w.held == multiset{};
  }

  predicate LastFinish(events: seq<Event>, k: int) {
    0 <= k < |events| && events[k].Finish? && forall j :: k < j < |events| ==> !events[j].Finish?
  }

  /** The idle clock runs from the end of the last lease, or from the start if none has ended. */
  lemma {:induction false} IdleSinceLastLease(w: World, events: seq<Event>)
    requires Runs(w, events)
    ensures (forall e <- events :: !e.Finish?) ==> After(w, events).manager.lastUsedAt == w.manager.lastUsedAt
    ensures forall k :: LastFinish(events, k) ==> After(w, events).manager.lastUsedAt == events[k].now
    decreases |events|
  {
    if events != [] {
      var next, rest := Step(w, events[0]), events[1..];
      IdleSinceLastLease(next, rest);
      assert events[0] in events && forall e <- rest :: e in events;
      forall k | LastFinish(events, k)
        ensures After(w, events).manager.lastUsedAt == events[k].now
      {
        if k == 0 {
          forall e <- rest
            ensures !e.Finish?
          {
            var j :| 0 <= j < |rest| && rest[j] == e;
            assert events[j + 1] == e;
          }
        } else {
          assert forall j :: k - 1 < j < |rest| ==> rest[j] == events[j + 1];
          assert rest[k - 1] == events[k] && LastFinish(rest, k - 1);
        }
      }
    }
  }

  /** A swap takes effect exactly when saving and building both succeeded: then a new engine is current, nobody
      holds it, and the one before is closed at once if nobody holds that and kept for its holders otherwise.
      Leases stay on the engines they were taken on. */
  lemma SwapsTakeEffectIff(now: int, events: seq<Event>, w: World, outcome: SwapOutcome)
    requires Runs(Started(now), events) && w == After(Started(now), events)
    ensures var next, before := Step(w, Swap(outcome)), w.manager.engine;
      && next.held == w.held
      && (outcome != Built ==> next == w)
      && (outcome == Built ==>
            && next.manager.engine != before && next.manager.engine !in w.held
            && next.manager.engine !in w.manager.book.closed
            && next.manager.book.closed == w.manager.book.closed + (if before in w.held then [] else [before])
            && (before in next.manager.book.retired <==> before in w.held))
  {
    RunKeeps(Started(now), events);
    assert Placed(w, w.manager.nextId) && Placed(w, w.manager.engine);
    assert w.manager.book.closed + [] == w.manager.book.closed;
  }

  /** The model reads as offloaded from the check that dropped it until a swap, or until a lease ends with a model
      resident again. */
  lemma OffloadedUntilUsed(now: int, events: seq<Event>, w: World, e: Event)
    requires Runs(Started(now), events) && w == After(Started(now), events) && Enabled(w, e)
    ensures var next := Step(w, e);
      next.manager.offloaded <==>
        || (e.Check? && next.manager.unloaded == w.manager.unloaded + [w.manager.engine])
        || (w.manager.offloaded && !(e.Swap? && e.outcome == Built) && !(e.Finish? && e.resident))
  {
    assert |w.manager.unloaded + [w.manager.engine]| == |w.manager.unloaded| + 1;
  }
}
