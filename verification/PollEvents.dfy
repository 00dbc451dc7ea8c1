/**
 sensors_poll_context_t::pollEvents (sensor/nusensors.cpp): merges the drivers' events into one output array and
 calls poll() when there is room left.
 */
module PollEvents {
  import opened Common

  datatype Event = Event(meta: bool, sensor: int, metaSensor: int, timestamp: int)

  /** Handles leave the HAL shifted by ID_OFFSET, whose value (in hwmsensor.h) is not part of this model. */
  function Shifted(e: Event, offset: int): Event {
    if e.meta then e.(metaSensor := e.metaSensor + offset) else e.(sensor := e.sensor + offset)
  }

  function ShiftedAll(events: seq<Event>, offset: int): (s: seq<Event>)
    ensures |s| == |events|
  {
    seq(|events|, i requires 0 <= i < |events| => Shifted(events[i], offset))
  }

  /** Events returned, each with the driver that it came from. */
  type Trace = seq<(nat, Event)>

  function Payload(trace: Trace): (s: seq<Event>)
    ensures |s| == |trace|
  {
    seq(|trace|, i requires 0 <= i < |trace| => trace[i].1)
  }

  function From(trace: Trace, driver: nat): seq<Event> {
    if trace == [] then []
    else From(trace[..|trace| - 1], driver)
         + if trace[|trace| - 1].0 == driver then [trace[|trace| - 1].1] else []
  }

  predicate FromDrivers(trace: Trace, drivers: nat) {
    forall entry <- trace :: entry.0 < drivers
  }

  function Tagged(driver: nat, events: seq<Event>): (t: Trace)
    ensures |t| == |events|
  {
    seq(|events|, i requires 0 <= i < |events| => (driver, events[i]))
  }

  lemma {:induction false} FromTagged(driver: nat, events: seq<Event>, other: nat)
    ensures From(Tagged(driver, events), other) == if driver == other then events else []
  {
    if events != [] {
      var k := |events| - 1;
      FromTagged(driver, events[..k], other);
      assert Tagged(driver, events)[..k] == Tagged(driver, events[..k]);
    }
  }

  lemma {:induction false} FromAppends(a: Trace, b: Trace, driver: nat)
    ensures From(a + b, driver) == From(a, driver) + From(b, driver)
  {
    if b == [] {
      assert a + b == a;
    } else {
      assert (a + b)[..|a + b| - 1] == a + b[..|b| - 1];
      FromAppends(a, b[..|b| - 1], driver);
    }
  }

  // ---------- the loop as a function ----------

  /**
   One turn of the outer loop: what fill() brings into the reader of each driver that is asked, the result of the
   poll() that follows, and the descriptors it reports as readable.
   */
  datatype Round = Round(brought: seq<seq<Event>>, n: int, readable: seq<bool>)

  predicate AllFit(rounds: seq<Round>, drivers: nat) {
    forall round <- rounds :: |round.brought| == |round.readable| == drivers
  }

  /** What each driver's readEvents would return without reading anything new, and the POLLIN flags. */
  datatype State = State(backlog: seq<seq<Event>>, revents: seq<bool>)

  /** own tells which drivers have a hasPendingEvents() that answers for their backlog. */
  predicate Fits(s: State, own: seq<bool>) {
    |s.backlog| == |s.revents| == |own|
  }

  predicate Asked(s: State, own: seq<bool>, i: nat)
    requires Fits(s, own) && i < |own|
  {
    s.revents[i] || (own[i] && s.backlog[i] != [])
  }

  /** A driver that still has events is flagged, or answers for them itself. */
  predicate NoneStranded(s: State, own: seq<bool>)
    requires Fits(s, own)
  {
    forall i :: 0 <= i < |own| && s.backlog[i] != [] ==> s.revents[i] || own[i]
  }

  predicate AllEmpty(s: State) {
    forall i :: 0 <= i < |s.backlog| ==> s.backlog[i] == []
  }

  /** A state, what has been returned on the way to it, and what fill() has brought. */
  datatype Flow = Flow(s: State, trace: Trace, fetched: Trace)

  function Then(a: Flow, b: Flow): Flow {
    Flow(b.s, a.trace + b.trace, a.fetched + b.fetched)
  }

  function ServeOne(s: State, own: seq<bool>, i: nat, brought: seq<Event>, room: nat): (f: Flow)
    requires Fits(s, own) && i < |own|
    ensures Fits(f.s, own) && |f.trace| <= room && FromDrivers(f.trace, |own|)
  {
    if !Asked(s, own, i) then Flow(s, [], [])
    else
      var (out, rest) := ReadQueue(s.backlog[i], brought, room);
      Flow(State(s.backlog[i := rest], s.revents[i := s.revents[i] && |out| == room]), Tagged(i, out),
           Tagged(i, brought))
  }

  /** The pass over the drivers from i on. */
  function PassFrom(s: State, own: seq<bool>, brought: seq<seq<Event>>, i: nat, room: nat): (f: Flow)
    requires Fits(s, own) && i <= |own| == |brought|
    ensures Fits(f.s, own) && |f.trace| <= room && FromDrivers(f.trace, |own|)
    decreases |own| - i
  {
    if room == 0 || i == |own| then Flow(s, [], [])
    else
      var a := ServeOne(s, own, i, brought[i], room);
      Then(a, PassFrom(a.s, own, brought, i + 1, room - |a.trace|))
  }

  /** Done: the number of events is returned.  Failed: -errno is.  Waiting: the rounds given do not end the call. */
  datatype Outcome = Done | Failed(n: int) | Waiting

  function PollRun(s: State, own: seq<bool>, rounds: seq<Round>, room: nat): (res: (Flow, Outcome))
    requires Fits(s, own) && AllFit(rounds, |own|)
    ensures Fits(res.0.s, own) && |res.0.trace| <= room && FromDrivers(res.0.trace, |own|)
    decreases |rounds|
  {
    if room == 0 then (Flow(s, [], []), Done)
    else if rounds == [] then (Flow(s, [], []), Waiting)
    else
      var a := PassFrom(s, own, rounds[0].brought, 0, room);
      if |a.trace| == room then (a, Done)
      else
        var polled := a.(s := a.s.(revents := rounds[0].readable));
        if rounds[0].n < 0 then (polled, Failed(rounds[0].n))
        else if rounds[0].n == 0 then (polled, Done)
        else
          var (b, outcome) := PollRun(polled.s, own, rounds[1..], room - |a.trace|);
          (Then(a, b), outcome)
  }

  // ---------- nothing lost, nothing stranded ----------

  /** Per driver, what was returned and what it still has is what it had and what was brought, in order. */
  ghost predicate Conserves(s: State, f: Flow) {
    |s.backlog| == |f.s.backlog| &&
    forall i :: 0 <= i < |s.backlog| ==> From(f.trace, i) + f.s.backlog[i] == s.backlog[i] + From(f.fetched, i)
  }

  lemma ServeOneConserves(s: State, own: seq<bool>, i: nat, brought: seq<Event>, room: nat)
    requires Fits(s, own) && i < |own|
    ensures Conserves(s, ServeOne(s, own, i, brought, room))
  {
    hide From, ReadQueue;
    var (out, rest) := ReadQueue(s.backlog[i], brought, room);
    forall k | 0 <= k < |own|
      ensures var f := ServeOne(s, own, i, brought, room);
              From(f.trace, k) + f.s.backlog[k] == s.backlog[k] + From(f.fetched, k)
    {
      FromTagged(i, out, k);
      FromTagged(i, brought, k);
      FromNothing(k);
      assert [] + s.backlog[k] == s.backlog[k] + [];
    }
  }

  lemma FromNothing(driver: nat)
    ensures From([], driver) == []
  {
  }

  lemma ThenConserves(s: State, a: Flow, b: Flow)
    requires Conserves(s, a) && Conserves(a.s, b)
    ensures Conserves(s, Then(a, b))
  {
    hide From;
    forall i | 0 <= i < |s.backlog|
      ensures From(a.trace + b.trace, i) + b.s.backlog[i] == s.backlog[i] + From(a.fetched + b.fetched, i)
    {
      FromAppends(a.trace, b.trace, i);
      FromAppends(a.fetched, b.fetched, i);
      ThreePieces(From(a.trace, i), From(b.trace, i), b.s.backlog[i]);
      ThreePieces(From(a.trace, i), a.s.backlog[i], From(b.fetched, i));
      ThreePieces(s.backlog[i], From(a.fetched, i), From(b.fetched, i));
    }
  }

  lemma {:induction false} PassConserves(s: State, own: seq<bool>, brought: seq<seq<Event>>, i: nat, room: nat)
    requires Fits(s, own) && i <= |own| == |brought|
    ensures Conserves(s, PassFrom(s, own, brought, i, room))
    decreases |own| - i
  {
    hide ServeOne, Conserves;
    if room == 0 || i == |own| {
      NothingConserves(s);
    } else {
      var a := ServeOne(s, own, i, brought[i], room);
      ServeOneConserves(s, own, i, brought[i], room);
      PassConserves(a.s, own, brought, i + 1, room - |a.trace|);
      ThenConserves(s, a, PassFrom(a.s, own, brought, i + 1, room - |a.trace|));
    }
  }

  lemma NothingConserves(s: State)
    ensures Conserves(s, Flow(s, [], []))
  {
    forall i | 0 <= i < |s.backlog|
      ensures From([], i) + s.backlog[i] == s.backlog[i] + From([], i)
    {
      assert [] + s.backlog[i] == s.backlog[i] + [];
    }
  }

  lemma FlagsDoNotMatter(s: State, f: Flow, flags: seq<bool>)
    ensures Conserves(s, f) <==> Conserves(s, f.(s := f.s.(revents := flags)))
    ensures Conserves(s, f) <==> Conserves(s.(revents := flags), f)
  {
  }

  /** Whatever pollEvents goes through, no driver's events are lost, doubled or reordered on the way to the array. */
  lemma {:induction false} RunConserves(s: State, own: seq<bool>, rounds: seq<Round>, room: nat)
    requires Fits(s, own) && AllFit(rounds, |own|)
    ensures Conserves(s, PollRun(s, own, rounds, room).0)
    decreases |rounds|
  {
    hide PassFrom, Conserves;
    if room == 0 || rounds == [] {
      NothingConserves(s);
    } else {
      var a := PassFrom(s, own, rounds[0].brought, 0, room);
      PassConserves(s, own, rounds[0].brought, 0, room);
      var polled := a.(s := a.s.(revents := rounds[0].readable));
      FlagsDoNotMatter(s, a, rounds[0].readable);
      if |a.trace| < room && rounds[0].n > 0 {
        RunConserves(polled.s, own, rounds[1..], room - |a.trace|);
        var b := PollRun(polled.s, own, rounds[1..], room - |a.trace|).0;
        ThenConserves(s, polled, b);
      }
    }
  }

  /** Serving a driver changes that driver only, and empties it and clears its flag unless room runs out. */
  lemma ServeOneDoes(s: State, own: seq<bool>, i: nat, brought: seq<Event>, room: nat)
    requires Fits(s, own) && i < |own| && NoneStranded(s, own)
    ensures var f := ServeOne(s, own, i, brought, room);
            && NoneStranded(f.s, own)
            && (forall k :: 0 <= k < |own| && k != i ==>
                 f.s.backlog[k] == s.backlog[k] && f.s.revents[k] == s.revents[k])
            && (|f.trace| < room ==> f.s.backlog[i] == [] && !f.s.revents[i])
  {
    hide Tagged;
  }

  /** A flag is cleared only with an empty backlog, and a pass that leaves room has emptied every driver. */
  lemma {:induction false} PassStrandsNothing(s: State, own: seq<bool>, brought: seq<seq<Event>>, i: nat, room: nat)
    requires Fits(s, own) && i <= |own| == |brought| && NoneStranded(s, own)
    requires forall k :: 0 <= k < i ==> s.backlog[k] == []
    ensures var f := PassFrom(s, own, brought, i, room);
            && NoneStranded(f.s, own)
            && (|f.trace| < room ==> AllEmpty(f.s) && forall k :: i <= k < |own| ==> !f.s.revents[k])
            && (forall k :: 0 <= k < i ==> f.s.revents[k] == s.revents[k])
    decreases |own| - i
  {
    hide ServeOne, NoneStranded;
    if room != 0 && i < |own| {
      var a := ServeOne(s, own, i, brought[i], room);
      ServeOneDoes(s, own, i, brought[i], room);
      if |a.trace| < room {
        PassStrandsNothing(a.s, own, brought, i + 1, room - |a.trace|);
      }
    }
  }

  lemma ServeOneSkips(s: State, own: seq<bool>, i: nat, brought: seq<Event>, room: nat, d: nat)
    requires Fits(s, own) && i < |own| && d < |own| && !s.revents[d] && (!own[d] || s.backlog[d] == [])
    ensures var f := ServeOne(s, own, i, brought, room);
            && From(f.trace, d) == [] && From(f.fetched, d) == []
            && f.s.backlog[d] == s.backlog[d] && !f.s.revents[d]
  {
    hide From, ReadQueue;
    FromNothing(d);
    FromTagged(i, ReadQueue(s.backlog[i], brought, room).0, d);
    FromTagged(i, brought, d);
  }

  /** A driver that is neither flagged nor has events that it answers for is not read from, and nothing changes for it. */
  lemma {:induction false} PassLeavesOthersAlone(s: State, own: seq<bool>, brought: seq<seq<Event>>, i: nat, room: nat,
                                                 d: nat)
    requires Fits(s, own) && i <= |own| == |brought| && d < |own|
    requires !s.revents[d] && (!own[d] || s.backlog[d] == [])
    ensures var f := PassFrom(s, own, brought, i, room);
            && From(f.fetched, d) == [] && From(f.trace, d) == []
            && f.s.backlog[d] == s.backlog[d] && !f.s.revents[d]
    decreases |own| - i
  {
    hide From, ServeOne;
    FromNothing(d);
    if room != 0 && i < |own| {
      var a := ServeOne(s, own, i, brought[i], room);
      var b := PassFrom(a.s, own, brought, i + 1, room - |a.trace|);
      ServeOneSkips(s, own, i, brought[i], room, d);
      PassLeavesOthersAlone(a.s, own, brought, i + 1, room - |a.trace|, d);
      FromAppends(a.trace, b.trace, d);
      FromAppends(a.fetched, b.fetched, d);
    }
  }

  /**
   Between calls every driver with events left will be asked, although poll() overwrites all flags; and a call that
   ends with room left has emptied them all.
   */
  lemma {:induction false} RunStrandsNothing(s: State, own: seq<bool>, rounds: seq<Round>, room: nat)
    requires Fits(s, own) && AllFit(rounds, |own|) && NoneStranded(s, own)
    ensures var (f, outcome) := PollRun(s, own, rounds, room);
            NoneStranded(f.s, own) && (|f.trace| < room && !outcome.Waiting? ==> AllEmpty(f.s))
    decreases |rounds|
  {
    hide PassFrom;
    if room != 0 && rounds != [] {
      var a := PassFrom(s, own, rounds[0].brought, 0, room);
      PassStrandsNothing(s, own, rounds[0].brought, 0, room);
      if |a.trace| < room && rounds[0].n > 0 {
        RunStrandsNothing(a.s.(revents := rounds[0].readable), own, rounds[1..], room - |a.trace|);
      }
    }
  }

  // ---------- when poll() fails ----------

  /** How many events the drivers from i on have for a pass that asks them. */
  function Offered(s: State, own: seq<bool>, brought: seq<seq<Event>>, i: nat): nat
    requires Fits(s, own) && i <= |own| == |brought|
    decreases |own| - i
  {
    if i == |own| then 0
    else (if Asked(s, own, i) then |s.backlog[i]| + |brought[i]| else 0) + Offered(s, own, brought, i + 1)
  }

  /** How many events are there for the passes up to and including the k-th, when room never runs out. */
  function Demand(s: State, own: seq<bool>, rounds: seq<Round>, k: nat): nat
    requires Fits(s, own) && AllFit(rounds, |own|) && k < |rounds|
    decreases k
  {
    Offered(s, own, rounds[0].brought, 0)
    + if k == 0 then 0
      else Demand(State(seq(|own|, _ => []), rounds[0].readable), own, rounds[1..], k - 1)
  }

  /** The first poll() to report nothing or an error is the k-th, with an error, and room lasts until then. */
  ghost predicate FailsAt(s: State, own: seq<bool>, rounds: seq<Round>, room: nat, k: nat)
    requires Fits(s, own) && AllFit(rounds, |own|)
  {
    k < |rounds| && rounds[k].n < 0 && (forall j :: 0 <= j < k ==> rounds[j].n > 0) && Demand(s, own, rounds, k) < room
  }

  lemma {:induction false} OfferedSame(s: State, s': State, own: seq<bool>, brought: seq<seq<Event>>, i: nat)
    requires Fits(s, own) && Fits(s', own) && i <= |own| == |brought|
    requires forall k :: i <= k < |own| ==> s.backlog[k] == s'.backlog[k] && s.revents[k] == s'.revents[k]
    ensures Offered(s, own, brought, i) == Offered(s', own, brought, i)
    decreases |own| - i
  {
    if i < |own| {
      OfferedSame(s, s', own, brought, i + 1);
    }
  }

  /** A pass returns all that is offered, as far as there is room. */
  lemma {:induction false} PassReturnsOffered(s: State, own: seq<bool>, brought: seq<seq<Event>>, i: nat, room: nat)
    requires Fits(s, own) && i <= |own| == |brought|
    ensures |PassFrom(s, own, brought, i, room).trace| == Min(room, Offered(s, own, brought, i))
    decreases |own| - i
  {
    if room != 0 && i < |own| {
      var a := ServeOne(s, own, i, brought[i], room);
      OfferedSame(s, a.s, own, brought, i + 1);
      PassReturnsOffered(a.s, own, brought, i + 1, room - |a.trace|);
    }
  }

  lemma EmptyIs(s: State, own: seq<bool>, flags: seq<bool>)
    requires Fits(s, own) && AllEmpty(s)
    ensures s.(revents := flags) == State(seq(|own|, _ => []), flags)
  {
    assert s.backlog == seq(|own|, _ => []);
  }

  /** If poll() fails while there is room, its error is what is returned. */
  lemma {:induction false} FailureIsReturned(s: State, own: seq<bool>, rounds: seq<Round>, room: nat, k: nat)
    requires Fits(s, own) && AllFit(rounds, |own|) && NoneStranded(s, own) && FailsAt(s, own, rounds, room, k)
    ensures var (f, outcome) := PollRun(s, own, rounds, room);
            outcome == Failed(rounds[k].n) && |f.trace| == Demand(s, own, rounds, k)
    decreases k
  {
    hide PassFrom, Offered;
    var a := PassFrom(s, own, rounds[0].brought, 0, room);
    PassReturnsOffered(s, own, rounds[0].brought, 0, room);
    PassStrandsNothing(s, own, rounds[0].brought, 0, room);
    if k > 0 {
      EmptyIs(a.s, own, rounds[0].readable);
      FailureIsReturned(a.s.(revents := rounds[0].readable), own, rounds[1..], room - |a.trace|, k - 1);
    }
  }

  lemma {:induction false} FailureHasRound(s: State, own: seq<bool>, rounds: seq<Round>, room: nat) returns (k: nat)
    requires Fits(s, own) && AllFit(rounds, |own|) && NoneStranded(s, own)
    requires PollRun(s, own, rounds, room).1.Failed?
    ensures FailsAt(s, own, rounds, room, k)
    decreases |rounds|
  {
    hide PassFrom, Offered;
    var a := PassFrom(s, own, rounds[0].brought, 0, room);
    PassReturnsOffered(s, own, rounds[0].brought, 0, room);
    PassStrandsNothing(s, own, rounds[0].brought, 0, room);
    if rounds[0].n < 0 {
      return 0;
    }
    EmptyIs(a.s, own, rounds[0].readable);
    k := FailureHasRound(a.s.(revents := rounds[0].readable), own, rounds[1..], room - |a.trace|);
    return k + 1;
  }

  /** What pollEvents returns. */
  function Result(f: Flow, outcome: Outcome): int {
    if outcome.Failed? then outcome.n else |f.trace|
  }

  /** poll() fails in some round that is reached with room left, when the passes before have had so many events. */
  ghost predicate FailsAfter(s: State, own: seq<bool>, rounds: seq<Round>, room: nat, events: nat)
    requires Fits(s, own) && AllFit(rounds, |own|)
  {
    exists k :: FailsAt(s, own, rounds, room, k) && Demand(s, own, rounds, k) == events
  }

  lemma FailureIs(s: State, own: seq<bool>, rounds: seq<Round>, room: nat)
    requires Fits(s, own) && AllFit(rounds, |own|) && NoneStranded(s, own)
    ensures var (f, outcome) := PollRun(s, own, rounds, room);
            && (outcome.Failed? ==> outcome.n < 0 && FailsAfter(s, own, rounds, room, |f.trace|))
            && forall events :: FailsAfter(s, own, rounds, room, events) ==> outcome.Failed? && events == |f.trace|
  {
    hide PollRun, Demand;
    var (f, outcome) := PollRun(s, own, rounds, room);
    if outcome.Failed? {
      var k := FailureHasRound(s, own, rounds, room);
      FailureIsReturned(s, own, rounds, room, k);
    }
    forall k: nat | FailsAt(s, own, rounds, room, k)
      ensures outcome == Failed(rounds[k].n) && |f.trace| == Demand(s, own, rounds, k)
    {
      FailureIsReturned(s, own, rounds, room, k);
    }
  }

  /** When the count returned is wrong: exactly when poll() fails in a round that is reached with room left. */
  lemma CountIsReturnedIff(s: State, own: seq<bool>, rounds: seq<Round>, room: nat)
    requires Fits(s, own) && AllFit(rounds, |own|) && NoneStranded(s, own)
    ensures var (f, outcome) := PollRun(s, own, rounds, room);
            Result(f, outcome) == |f.trace| <==> forall events :: !FailsAfter(s, own, rounds, room, events)
  {
    hide PollRun, FailsAfter;
    FailureIs(s, own, rounds, room);
  }

  /** What the drivers had for the passes before is then in the array, and the caller is not told. */
  lemma EventsAreHiddenIff(s: State, own: seq<bool>, rounds: seq<Round>, room: nat, events: nat)
    requires Fits(s, own) && AllFit(rounds, |own|) && NoneStranded(s, own)
    ensures var (f, outcome) := PollRun(s, own, rounds, room);
            Result(f, outcome) < 0 && |f.trace| == events <==> FailsAfter(s, own, rounds, room, events)
  {
    hide PollRun, FailsAfter;
    FailureIs(s, own, rounds, room);
  }

  /** One driver with one event, room for two, and a poll() that fails: the event is taken, and -4 returned. */
  lemma FailureHidesEvent(e: Event)
    ensures var (f, outcome) := PollRun(State([[e]], [true]), [false], [Round([[]], -4, [false])], 2);
            f.trace == [(0, e)] && f.s.backlog == [[]] && Result(f, outcome) == -4
  {
    var s, own, brought := State([[e]], [true]), [false], [[]];
    var a := ServeOne(s, own, 0, brought[0], 2);
    assert [e] + [] == [e];
    assert PassFrom(a.s, own, brought, 1, 1) == Flow(a.s, [], []);
    assert a.trace + [] == [(0, e)];
  }

  // ---------- whole runs of calls ----------

  datatype Call = Call(rounds: seq<Round>, room: nat)

  /** A run of calls: what the callers have been told of, and what failed calls have put into an array untold. */
  function Session(s: State, own: seq<bool>, calls: seq<Call>): (res: (Flow, Trace))
    requires Fits(s, own) && forall call <- calls :: AllFit(call.rounds, |own|)
    ensures Fits(res.0.s, own) && FromDrivers(res.1, |own|)
    decreases |calls|
  {
    if calls == [] then (Flow(s, [], []), [])
    else
      var (f, outcome) := PollRun(s, own, calls[0].rounds, calls[0].room);
      var (more, hidden) := Session(f.s, own, calls[1..]);
      if outcome.Failed? then (Then(f.(trace := []), more), f.trace + hidden) else (Then(f, more), hidden)
  }

  lemma ConservesLength(s: State, f: Flow, i: nat)
    requires Conserves(s, f) && i < |s.backlog|
    ensures |From(f.trace, i)| + |f.s.backlog[i]| == |s.backlog[i]| + |From(f.fetched, i)|
  {
    assert |From(f.trace, i) + f.s.backlog[i]| == |s.backlog[i] + From(f.fetched, i)|;
  }

  lemma {:induction false} SessionBalance(s: State, own: seq<bool>, calls: seq<Call>, i: nat)
    requires Fits(s, own) && (forall call <- calls :: AllFit(call.rounds, |own|)) && i < |own|
    ensures var (f, hidden) := Session(s, own, calls);
            |From(f.trace, i)| + |From(hidden, i)| + |f.s.backlog[i]| == |s.backlog[i]| + |From(f.fetched, i)|
    decreases |calls|
  {
    hide PollRun, From;
    FromNothing(i);
    if calls != [] {
      var f := PollRun(s, own, calls[0].rounds, calls[0].room).0;
      var (more, hidden) := Session(f.s, own, calls[1..]);
      RunConserves(s, own, calls[0].rounds, calls[0].room);
      ConservesLength(s, f, i);
      SessionBalance(f.s, own, calls[1..], i);
      FromAppends(f.trace, more.trace, i);
      FromAppends([], more.trace, i);
      FromAppends(f.trace, hidden, i);
      FromAppends(f.fetched, more.fetched, i);
    }
  }

  lemma {:induction false} SessionConserves(s: State, own: seq<bool>, calls: seq<Call>)
    requires Fits(s, own) && (forall call <- calls :: AllFit(call.rounds, |own|)) && Session(s, own, calls).1 == []
    ensures Conserves(s, Session(s, own, calls).0)
    decreases |calls|
  {
    hide PollRun, Conserves;
    if calls == [] {
      NothingConserves(s);
    } else {
      var f := PollRun(s, own, calls[0].rounds, calls[0].room).0;
      RunConserves(s, own, calls[0].rounds, calls[0].room);
      SessionConserves(f.s, own, calls[1..]);
      ThenConserves(s, f, Session(f.s, own, calls[1..]).0);
    }
  }

  /**
   Over any run of calls, the callers have been told of every event that the drivers no longer have, once each and in
   each driver's order, exactly when no failed call has put an event into an array.
   */
  lemma CallersAreToldIff(s: State, own: seq<bool>, calls: seq<Call>)
    requires Fits(s, own) && forall call <- calls :: AllFit(call.rounds, |own|)
    ensures Conserves(s, Session(s, own, calls).0) <==> Session(s, own, calls).1 == []
  {
    hide Session, Conserves;
    var (f, hidden) := Session(s, own, calls);
    if hidden == [] {
      SessionConserves(s, own, calls);
    } else {
      var (i, e) := hidden[|hidden| - 1];
      SessionBalance(s, own, calls, i);
      assert From(hidden, i) != [];
      if Conserves(s, f) {
        ConservesLength(s, f, i);
      }
    }
  }

  // ---------- drivers that fail ----------

  /** Where data points, counted from the start of the array, after results of drivers asked one after the other. */
  function At(results: seq<int>): int {
    if results == [] then 0 else At(results[..|results| - 1]) + results[|results| - 1]
  }

  /** What the drivers have stored in all; a driver that fails stores nothing. */
  function StoredCount(results: seq<int>): nat {
    if results == [] then 0
    else StoredCount(results[..|results| - 1])
         + if results[|results| - 1] > 0 then results[|results| - 1] else 0
  }

  /** A driver never returns more than the room, which is the count less what has been added to nbEvents. */
  ghost predicate WithinRoom(results: seq<int>, count: nat) {
    forall k :: 0 <= k < |results| ==> results[k] <= count - At(results[..k])
  }

  /** The k-th driver stores from where the results before it have moved data to. */
  ghost predicate StoresInside(results: seq<int>, count: nat) {
    forall k :: 0 <= k < |results| && results[k] > 0 ==>
                  0 <= At(results[..k]) && At(results[..k]) + results[k] <= count
  }

  predicate NoneFails(results: seq<int>) {
    forall k :: 0 <= k < |results| ==> results[k] >= 0
  }

  lemma {:induction false} AtIsStored(results: seq<int>)
    ensures At(results) <= StoredCount(results)
    ensures At(results) == StoredCount(results) <==> NoneFails(results)
  {
    if results != [] {
      var k := |results| - 1;
      AtIsStored(results[..k]);
      assert forall i :: 0 <= i < k ==> results[..k][i] == results[i];
    }
  }

  /**
   What a driver that fails does to the bookkeeping: its negative result takes the count of events back and moves data
   before what is stored.  The count is that of the events stored exactly when no asked driver fails, and then all of
   them are inside the array.
   */
  lemma BooksAreRightIff(results: seq<int>, count: nat)
    requires WithinRoom(results, count)
    ensures At(results) == StoredCount(results) <==> NoneFails(results)
    ensures NoneFails(results) ==> StoresInside(results, count)
  {
    AtIsStored(results);
    if NoneFails(results) {
      forall k | 0 <= k < |results| && results[k] > 0
        ensures 0 <= At(results[..k]) && At(results[..k]) + results[k] <= count
      {
        AtIsStored(results[..k]);
      }
    }
  }

  /** A driver whose read fails, and one with an event: it is stored 22 places before the array. */
  lemma FailedDriverMovesBack()
    ensures var results := [-EINVAL, 1];
            WithinRoom(results, 1) && !StoresInside(results, 1) && At(results) == -21 && StoredCount(results) == 1
  {
    var results := [-EINVAL, 1];
    assert results[..0] == [] && results[..1] == [-EINVAL] && [-EINVAL][..0] == [];
    assert At([-EINVAL]) == -EINVAL && StoredCount([-EINVAL]) == 0;
  }

  // ---------- the method ----------

  /** An event as it is stored: the handle that its type selects has grown by the offset, and nothing else. */
  predicate HandedOut(stored: Event, e: Event, offset: int) {
    && stored.meta == e.meta && stored.timestamp == e.timestamp
    && (e.meta ==> stored.metaSensor == e.metaSensor + offset && stored.sensor == e.sensor)
    && (!e.meta ==> stored.sensor == e.sensor + offset && stored.metaSensor == e.metaSensor)
  }

  /** The array, entry by entry, when the events of a trace have been stored from index at on. */
  ghost predicate HoldsTrace(before: seq<Event>, now: seq<Event>, at: nat, trace: Trace, offset: int) {
    |now| == |before| && at + |trace| <= |now| &&
    forall k :: 0 <= k < |now| ==>
      if at <= k < at + |trace| then HandedOut(now[k], trace[k - at].1, offset) else now[k] == before[k]
  }

  lemma PackedHolds(before: seq<Event>, now: seq<Event>, at: nat, trace: Trace, offset: int)
    requires Packed(before, now, at, trace, offset)
    ensures HoldsTrace(before, now, at, trace, offset)
  {
  }

  class PollContext {
    const offset: int
    const own: seq<bool>
    const revents: array<bool>
    var backlog: seq<seq<Event>>

    ghost predicate Valid()
      reads this
    {
      |backlog| == |own| == revents.Length
    }

    ghost function View(): State
      reads this, revents
    {
      State(backlog, revents[..])
    }

    constructor (own: seq<bool>, offset: int)
      ensures Valid() && fresh(revents) && this.own == own && this.offset == offset
      ensures AllEmpty(View()) && NoneStranded(View(), own)
    {
      this.own, this.offset := own, offset;
      revents := new bool[|own|](_ => false);
      backlog := seq(|own|, _ => []);
    }

    /** readEvents of driver i, whose fill() has brought so many more events. */
    method ReadEvents(i: nat, brought: seq<Event>, data: array<Event>, at: nat, room: nat) returns (nb: nat)
      requires Valid() && i < |backlog| && at + room <= data.Length
      modifies this`backlog, data
      ensures var (out, rest) := ReadQueue(old(backlog)[i], brought, room);
              Valid() && backlog == old(backlog)[i := rest] && nb == |out| && StoredAt(old(data[..]), data[..], at, out)
    {
      var queue := backlog[i] + brought;
      nb := Min(room, |queue|);
      forall k | 0 <= k < nb {
        data[at + k] := queue[k];
      }
      backlog := backlog[i := queue[nb..]];
    }

    method ShiftHandles(data: array<Event>, at: nat, nb: nat)
      requires at + nb <= data.Length
      modifies data
      ensures StoredAt(old(data[..]), data[..], at, ShiftedAll(old(data[at..at + nb]), offset))
    {
      for j := 0 to nb
        invariant forall k :: 0 <= k < data.Length ==>
                    data[k] == if at <= k < at + j then Shifted(old(data[k]), offset) else old(data[k])
      {
        if data[at + j].meta {
          data[at + j] := data[at + j].(metaSensor := data[at + j].metaSensor + offset);
        } else {
          data[at + j] := data[at + j].(sensor := data[at + j].sensor + offset);
        }
      }
    }

    /** The part of the loop body that handles one driver that is asked. */
    method Serve(i: nat, brought: seq<Event>, data: array<Event>, at: nat, room: nat) returns (nb: nat)
      requires Valid() && i < |backlog| && at + room <= data.Length && Asked(View(), own, i)
      modifies this`backlog, revents, data
      ensures var f := ServeOne(old(View()), own, i, brought, room);
              && Valid() && View() == f.s && nb == |f.trace|
              && Packed(old(data[..]), data[..], at, f.trace, offset)
              && HoldsTrace(old(data[..]), data[..], at, f.trace, offset)
    {
      hide Shifted, ReadQueue;
      ghost var s, before := View(), data[..];
      ghost var out := ReadQueue(s.backlog[i], brought, room).0;
      nb := ReadEvents(i, brought, data, at, room);
      if nb < room {
        revents[i] := false;
      }
      assert data[at..at + nb] == out;
      ghost var stored := data[..];
      ShiftHandles(data, at, nb);
      StoredOver(before, stored, data[..], at, out, ShiftedAll(out, offset));
      PayloadOfTagged(i, out);
      PackedHolds(before, data[..], at, Tagged(i, out), offset);
      assert View().revents == s.revents[i := s.revents[i] && nb == room];
    }

    /** The pass over the drivers. */
    method Pass(brought: seq<seq<Event>>, data: array<Event>, at: nat, count: nat) returns (nbEvents: nat)
      requires Valid() && |brought| == |own| && at + count <= data.Length
      modifies this`backlog, revents, data
      ensures var f := PassFrom(old(View()), own, brought, 0, count);
              && Valid() && View() == f.s && nbEvents == |f.trace|
              && Packed(old(data[..]), data[..], at, f.trace, offset)
              && HoldsTrace(old(data[..]), data[..], at, f.trace, offset)
    {
      hide Packed, HoldsTrace, ServeOne, PassFrom, PassesTo;
      nbEvents := 0;
      var i := 0;
      ghost var start := View();
      ghost var done := Flow(start, [], []);
      PackedNothing(data[..], at, offset);
      PassesNothing(start, own, brought, count);
      while nbEvents < count && i < |own|
        invariant Valid() && i <= |own| && View() == done.s && nbEvents == |done.trace| <= count
        invariant PassesTo(start, own, brought, count, done, i)
        invariant Packed(old(data[..]), data[..], at, done.trace, offset)
        decreases |own| - i
      {
        ghost var one, before := ServeOne(done.s, own, i, brought[i], count - nbEvents), data[..];
        PassesStep(start, own, brought, count, done, i);
        if revents[i] || (own[i] && backlog[i] != []) {
          var nb := Serve(i, brought[i], data, at + nbEvents, count - nbEvents);
          PackedMore(old(data[..]), before, data[..], at, done.trace, one.trace, offset);
          nbEvents := nbEvents + nb;
        } else {
          NotAsked(done.s, own, i, brought[i], count - nbEvents);
          assert done.trace + [] == done.trace;
        }
        done := Then(done, one);
        i := i + 1;
      }
      PassesEnd(start, own, brought, count, done, i);
      PackedHolds(old(data[..]), data[..], at, done.trace, offset);
    }

    /** poll() overwrites every flag. */
    method PollRound(round: Round) returns (n: int)
      requires Valid() && |round.readable| == |own|
      modifies revents
      ensures revents[..] == round.readable && n == round.n
    {
      forall i | 0 <= i < revents.Length {
        revents[i] := round.readable[i];
      }
      return round.n;
    }

    /** pollEvents itself, against the rounds that it goes through before it returns. */
    method Poll(data: array<Event>, count: nat, rounds: seq<Round>) returns (ret: int)
      requires Valid() && count <= data.Length && AllFit(rounds, |own|)
      requires !PollRun(View(), own, rounds, count).1.Waiting?
      modifies this`backlog, revents, data
      ensures var (f, outcome) := PollRun(old(View()), own, rounds, count);
              && Valid() && View() == f.s && ret == Result(f, outcome)
              && Packed(old(data[..]), data[..], 0, f.trace, offset)
              && HoldsTrace(old(data[..]), data[..], 0, f.trace, offset)
    {
      hide Packed, HoldsTrace, PassFrom, PollRun, RunsTo;
      var nbEvents, used := 0, 0;
      ghost var start := View();
      ghost var done := Flow(start, [], []);
      PackedNothing(data[..], 0, offset);
      RunsNothing(start, own, rounds, count);
      while true
        invariant Valid() && used <= |rounds| && View() == done.s && nbEvents == |done.trace| <= count
        invariant RunsTo(start, own, rounds, count, done, used) && (0 < used ==> nbEvents < count)
        invariant Packed(old(data[..]), data[..], 0, done.trace, offset)
        decreases |rounds| - used
      {
        RunsOn(start, own, rounds, count, done, used);
        if nbEvents < count {
          ghost var before := data[..];
          ghost var a := PassFrom(done.s, own, rounds[used].brought, 0, count - nbEvents);
          var nb := Pass(rounds[used].brought, data, nbEvents, count - nbEvents);
          PackedMore(old(data[..]), before, data[..], 0, done.trace, a.trace, offset);
          nbEvents := nbEvents + nb;
          RunsStep(start, own, rounds, count, done, used);
          done := Then(done, a);
        }
        var n := 0;
        if nbEvents < count {
          n := PollRound(rounds[used]);
          done := done.(s := View());
          used := used + 1;
          if n < 0 {
            PackedHolds(old(data[..]), data[..], 0, done.trace, offset);
            return n;
          }
        }
        if !(n != 0 && nbEvents < count) {
          break;
        }
      }
      PackedHolds(old(data[..]), data[..], 0, done.trace, offset);
      return nbEvents;
    }
  }

  /** The events of a trace lie one behind the other from index at on, each with its handle shifted once. */
  ghost predicate Packed(before: seq<Event>, now: seq<Event>, at: nat, trace: Trace, offset: int) {
    StoredAt(before, now, at, ShiftedAll(Payload(trace), offset))
  }

  lemma PackedNothing(data: seq<Event>, at: nat, offset: int)
    requires at <= |data|
    ensures Packed(data, data, at, [], offset)
  {
  }

  lemma PayloadOfTagged(driver: nat, events: seq<Event>)
    ensures Payload(Tagged(driver, events)) == events
  {
  }

  lemma PackedMore(s: seq<Event>, t: seq<Event>, u: seq<Event>, at: nat, a: Trace, b: Trace, offset: int)
    requires Packed(s, t, at, a, offset) && Packed(t, u, at + |a|, b, offset)
    ensures Packed(s, u, at, a + b, offset)
  {
    hide Shifted, StoredAt;
    assert Payload(a + b) == Payload(a) + Payload(b);
    assert ShiftedAll(Payload(a + b), offset) == ShiftedAll(Payload(a), offset) + ShiftedAll(Payload(b), offset);
    StoredMore(s, t, u, at, ShiftedAll(Payload(a), offset), ShiftedAll(Payload(b), offset));
  }

  /** Storing over what has just been stored. */
  lemma StoredOver<T>(s: seq<T>, t: seq<T>, u: seq<T>, at: nat, out: seq<T>, out': seq<T>)
    requires StoredAt(s, t, at, out) && StoredAt(t, u, at, out') && |out| == |out'|
    ensures StoredAt(s, u, at, out')
  {
  }

  lemma NotAsked(s: State, own: seq<bool>, i: nat, brought: seq<Event>, room: nat)
    requires Fits(s, own) && i < |own| && !Asked(s, own, i)
    ensures ServeOne(s, own, i, brought, room) == Flow(s, [], [])
  {
  }

  /** A pass that started at s with room has done so much and now stands before driver i. */
  ghost predicate PassesTo(s: State, own: seq<bool>, brought: seq<seq<Event>>, room: nat, done: Flow, i: nat)
    requires Fits(s, own) && |own| == |brought|
  {
    Fits(done.s, own) && i <= |own| && |done.trace| <= room &&
    PassFrom(s, own, brought, 0, room) == Then(done, PassFrom(done.s, own, brought, i, room - |done.trace|))
  }

  lemma NothingThen(f: Flow, s: State)
    ensures Then(Flow(s, [], []), f) == f && Then(f, Flow(f.s, [], [])) == f
  {
    assert [] + f.trace == f.trace == f.trace + [] && [] + f.fetched == f.fetched == f.fetched + [];
  }

  lemma ThenThen(a: Flow, b: Flow, c: Flow)
    ensures Then(Then(a, b), c) == Then(a, Then(b, c))
  {
    ThreePieces(a.trace, b.trace, c.trace);
    ThreePieces(a.fetched, b.fetched, c.fetched);
  }

  lemma PassesNothing(s: State, own: seq<bool>, brought: seq<seq<Event>>, room: nat)
    requires Fits(s, own) && |own| == |brought|
    ensures PassesTo(s, own, brought, room, Flow(s, [], []), 0)
  {
    NothingThen(PassFrom(s, own, brought, 0, room), s);
  }

  lemma PassesStep(s: State, own: seq<bool>, brought: seq<seq<Event>>, room: nat, done: Flow, i: nat)
    requires Fits(s, own) && |own| == |brought| && PassesTo(s, own, brought, room, done, i)
    requires |done.trace| < room && i < |own|
    ensures PassesTo(s, own, brought, room,
                     Then(done, ServeOne(done.s, own, i, brought[i], room - |done.trace|)), i + 1)
  {
    hide ServeOne;
    var one := ServeOne(done.s, own, i, brought[i], room - |done.trace|);
    ThenThen(done, one, PassFrom(one.s, own, brought, i + 1, room - |done.trace| - |one.trace|));
  }

  lemma PassesEnd(s: State, own: seq<bool>, brought: seq<seq<Event>>, room: nat, done: Flow, i: nat)
    requires Fits(s, own) && |own| == |brought| && PassesTo(s, own, brought, room, done, i)
    requires |done.trace| == room || i == |own|
    ensures PassFrom(s, own, brought, 0, room) == done
  {
    NothingThen(done, done.s);
  }

  /** A call that started at s with room has done so much in so many rounds. */
  ghost predicate RunsTo(s: State, own: seq<bool>, rounds: seq<Round>, room: nat, done: Flow, used: nat)
    requires Fits(s, own) && AllFit(rounds, |own|)
  {
    Fits(done.s, own) && used <= |rounds| && |done.trace| <= room &&
    var (rest, outcome) := PollRun(done.s, own, rounds[used..], room - |done.trace|);
    PollRun(s, own, rounds, room) == (Then(done, rest), outcome)
  }

  lemma RunsNothing(s: State, own: seq<bool>, rounds: seq<Round>, room: nat)
    requires Fits(s, own) && AllFit(rounds, |own|)
    ensures RunsTo(s, own, rounds, room, Flow(s, [], []), 0)
  {
    assert rounds[0..] == rounds;
    NothingThen(PollRun(s, own, rounds, room).0, s);
  }

  /** While there is room and the call has not returned, there is a round to come. */
  lemma RunsOn(s: State, own: seq<bool>, rounds: seq<Round>, room: nat, done: Flow, used: nat)
    requires Fits(s, own) && AllFit(rounds, |own|) && RunsTo(s, own, rounds, room, done, used)
    requires !PollRun(s, own, rounds, room).1.Waiting?
    ensures |done.trace| < room ==> used < |rounds| && |rounds[used].brought| == |rounds[used].readable| == |own|
    ensures |done.trace| == room ==> PollRun(s, own, rounds, room) == (done, Done)
  {
    hide PassFrom;
    NothingThen(done, done.s);
  }

  lemma RunsStep(s: State, own: seq<bool>, rounds: seq<Round>, room: nat, done: Flow, used: nat)
    requires Fits(s, own) && AllFit(rounds, |own|) && RunsTo(s, own, rounds, room, done, used)
    requires |done.trace| < room && used < |rounds| && |rounds[used].brought| == |rounds[used].readable| == |own|
    ensures var round := rounds[used];
            var now := Then(done, PassFrom(done.s, own, round.brought, 0, room - |done.trace|));
            var polled := now.(s := now.s.(revents := round.readable));
            && (|now.trace| == room ==> PollRun(s, own, rounds, room) == (now, Done))
            && (|now.trace| < room && round.n < 0 ==> PollRun(s, own, rounds, room) == (polled, Failed(round.n)))
            && (|now.trace| < room && round.n == 0 ==> PollRun(s, own, rounds, room) == (polled, Done))
            && (|now.trace| < room && round.n > 0 ==> RunsTo(s, own, rounds, room, polled, used + 1))
  {
    hide PassFrom;
    var round, left := rounds[used], room - |done.trace|;
    var a := PassFrom(done.s, own, round.brought, 0, left);
    var polled := a.(s := a.s.(revents := round.readable));
    assert rounds[used..][0] == round && rounds[used..][1..] == rounds[used + 1..];
    if |a.trace| < left && round.n > 0 {
      ThenThen(done, polled, PollRun(polled.s, own, rounds[used + 1..], left - |a.trace|).0);
    }
  }
}
