/**
 The SYN handling of Hwmsen::readEvents (sensor/Hwmsen.cpp) with enable and setDelay: when a sensor has been silent
 for longer than 1.8 delays, the missing samples are filled in before the current one.
 */
module Hwmsen {
  import opened Common

  const NUM_SENSORS := 6
  const GYRO := 3           // sensors up to this one are backfilled; light and proximity are not
  const PROXIMITY := 5
  const MAX_BACKFILL := 100
  const SLOWEST_DELAY := 1_000_000_000

  /** A delay in nanoseconds; zero would make the quotient undefined. */
  type Delay = d: nat | 0 < d witness 1

  datatype Fields = Fields(lastTs: seq<int>, delays: seq<Delay>, mask: seq<bool>, active: set<nat>)

  type State = s: Fields | |s.lastTs| == NUM_SENSORS && |s.delays| == NUM_SENSORS && |s.mask| == NUM_SENSORS
    witness Fields(seq(NUM_SENSORS, _ => 0), seq(NUM_SENSORS, _ => 1), seq(NUM_SENSORS, _ => false), {})

  /** An event emitted for a sensor, or the reset of its last timestamp by enable. */
  datatype Item = Stamp(sensor: nat, time: int) | Reset(sensor: nat)

  // ---------- one sensor at one SYN ----------

  /** How many samples are filled in: the whole delays since the last timestamp, under the driver's conditions. */
  function Missing(time: int, last: int, delay: Delay): nat
    requires last <= time
  {
    if time - last > delay * 18 / 10 && delay != SLOWEST_DELAY && last != 0 && (time - last) / delay < MAX_BACKFILL
    then (time - last) / delay
    else 0
  }

  /** n timestamps, one delay apart, from the first one on. */
  function Ramp(first: int, delay: nat, n: nat): (s: seq<int>)
    ensures |s| == n
    decreases n
  {
    if n == 0 then [] else [first] + Ramp(first + delay, delay, n - 1)
  }

  /** The timestamps for a sensor: the missing ones and the current time. */
  function Times(i: nat, time: int, last: int, delay: Delay): (s: seq<int>)
    requires i <= GYRO ==> last <= time
    ensures |s| > 0
  {
    if i <= GYRO then
      var n := Missing(time, last, delay);
      Ramp(time - n * delay, delay, n) + [time]
    else [time]
  }

  lemma {:induction false} RampIsSpaced(first: int, delay: nat, n: nat)
    requires 0 < n
    ensures var s := Ramp(first, delay, n);
            && s[0] == first && s[n - 1] + delay == first + n * delay
            && (forall j :: 0 <= j < n - 1 ==> s[j + 1] - s[j] == delay)
            && (forall j :: 0 <= j < n ==> first <= s[j] <= s[n - 1])
    decreases n
  {
    if n > 1 {
      RampIsSpaced(first + delay, delay, n - 1);
      assert (n - 1) * delay + delay == n * delay;
      var s, rest := Ramp(first, delay, n), Ramp(first + delay, delay, n - 1);
      assert s == [first] + rest;
      forall j | 0 <= j < n
        ensures first <= s[j] <= s[n - 1]
        ensures j < n - 1 ==> s[j + 1] - s[j] == delay
      {
        if j > 0 {
          assert s[j] == rest[j - 1];
        }
        if j < n - 1 {
          assert s[j + 1] == rest[j];
        }
      }
    }
  }

  /** The timestamps as the driver computes them: the current time less the delays that are still to come. */
  lemma {:induction false} RampAt(time: int, delay: nat, n: nat, j: nat)
    requires j < n
    ensures Ramp(time - n * delay, delay, n)[j] == time - (n - j) * delay
    decreases n
  {
    if j > 0 {
      assert time - n * delay + delay == time - (n - 1) * delay;
      RampAt(time, delay, n - 1, j - 1);
    }
  }

  lemma QuotientBounds(span: nat, delay: Delay)
    ensures span / delay * delay <= span < span / delay * delay + delay
  {
  }

  /**
   A backfill is an arithmetic progression: one delay apart, up to the current time; it starts no earlier than the
   last timestamp and less than one delay after it.
   */
  lemma TimesAreSpaced(i: nat, time: int, last: int, delay: Delay)
    requires i <= GYRO ==> last <= time
    ensures var s := Times(i, time, last, delay);
            && s[|s| - 1] == time
            && (forall j :: 0 <= j < |s| - 1 ==> s[j + 1] - s[j] == delay)
            && (|s| > 1 ==> last <= s[0] < last + delay)
            && (forall j :: 0 <= j < |s| ==> s[j] <= time && (i <= GYRO ==> last <= s[j]))
  {
    hide Missing, Ramp;
    if i <= GYRO {
      var n := Missing(time, last, delay);
      if n > 0 {
        var first := BackfillStart(time, last, delay, n);
        var ramp := Ramp(first, delay, n);
        RampIsSpaced(first, delay, n);
        SpacedThen(ramp, delay, time);
        assert Times(i, time, last, delay) == ramp + [time];
      } else {
        assert Times(i, time, last, delay) == [time];
      }
    }
  }

  lemma BackfillStart(time: int, last: int, delay: Delay, n: nat) returns (first: int)
    requires last <= time && n == Missing(time, last, delay) && n > 0
    ensures first == time - n * delay && first + n * delay == time && last <= first < last + delay
  {
    first := time - n * delay;
    QuotientBounds(time - last, delay);
  }

  lemma SpacedThen(ramp: seq<int>, delay: nat, time: int)
    requires ramp != [] && ramp[|ramp| - 1] + delay == time
    requires forall j :: 0 <= j < |ramp| - 1 ==> ramp[j + 1] - ramp[j] == delay
    ensures var s := ramp + [time];
            forall j :: 0 <= j < |s| - 1 ==> s[j + 1] - s[j] == delay
  {
  }

  // ---------- one SYN ----------

  function Stamps(i: nat, times: seq<int>): (s: seq<Item>)
    ensures |s| == |times|
  {
    seq(|times|, j requires 0 <= j < |times| => Stamp(i, times[j]))
  }

  /** The clock is not behind any last timestamp. */
  predicate ClockOk(s: State, time: int)
  {
    forall i :: 0 <= i <= GYRO ==> s.lastTs[i] <= time
  }

  /** Sensor i at a SYN, marked and with room left. */
  function ServeOne(s: State, i: nat, time: int, room: nat): (res: (State, seq<Item>))
    requires i < NUM_SENSORS && 0 < room && ClockOk(s, time)
    ensures 0 < |res.1| <= room
  {
    var times := Take(Times(i, time, s.lastTs[i], s.delays[i]), room);
    (s.(mask := s.mask[i := false], lastTs := if i <= GYRO then s.lastTs[i := times[|times| - 1]] else s.lastTs),
     Stamps(i, times))
  }

  lemma ServeOneKeepsClock(s: State, i: nat, time: int, room: nat)
    requires i < NUM_SENSORS && 0 < room && ClockOk(s, time)
    ensures ClockOk(ServeOne(s, i, time, room).0, time)
  {
    TimesAreSpaced(i, time, s.lastTs[i], s.delays[i]);
  }

  /** The loop over the sensors from i on.  The condition on mActiveSensors does not look at the bit of the sensor. */
  function Serve(s: State, i: nat, time: int, room: nat): (res: (State, seq<Item>))
    requires i <= NUM_SENSORS && ClockOk(s, time)
    ensures |res.1| <= room
    decreases NUM_SENSORS - i
  {
    if i == NUM_SENSORS || room == 0 then (s, [])
    else if s.active != {} && s.mask[i] then
      ServeOneKeepsClock(s, i, time, room);
      var (s1, out) := ServeOne(s, i, time, room);
      var (s2, more) := Serve(s1, i + 1, time, room - |out|);
      (s2, out + more)
    else Serve(s, i + 1, time, room)
  }

  // ---------- which samples a SYN emits ----------

  /**
   When there is a backfill: for the sensors up to the gyroscope that have a last timestamp, unless the delay is one
   second, when the sensor has been silent for more than 1.8 but less than 100 delays.
   */
  lemma BackfilledIff(i: nat, time: int, last: int, delay: Delay)
    requires i <= 3 ==> last <= time
    ensures |Times(i, time, last, delay)| > 1 <==>
            i <= 3 && last != 0 && delay != 1_000_000_000 &&
            delay * 18 / 10 < time - last < 100 * delay
  {
    if i <= 3 {
      QuotientBelow(time - last, delay, 100);
      QuotientBelow(time - last, delay, 1);
    }
  }

  lemma QuotientBelow(span: nat, delay: Delay, n: nat)
    requires n == 1 || n == 100
    ensures span / delay < n <==> span < n * delay
  {
    var q := span / delay;
    QuotientBounds(span, delay);
    if q < n {
      ProductGrows(q + 1, n, delay);
    } else {
      ProductGrows(n, q, delay);
    }
  }

  lemma ProductGrows(a: nat, b: nat, delay: nat)
    requires a <= b
    ensures a * delay <= b * delay
  {
    assert b * delay == a * delay + (b - a) * delay;
  }

  /** From the last timestamp on, no two timestamps in a row are more than 1.8 delays apart. */
  ghost predicate NoLongGap(last: int, times: seq<int>, delay: Delay) {
    var all := [last] + times;
    forall j :: 0 <= j < |times| ==> 10 * (all[j + 1] - all[j]) <= 18 * delay
  }

  lemma TimesHaveNoLongGap(i: nat, time: int, last: int, delay: Delay)
    requires i <= 3 && last <= time && last != 0 && delay != 1_000_000_000 && time - last < 100 * delay
    ensures NoLongGap(last, Times(i, time, last, delay), delay)
  {
    hide Times;
    var times := Times(i, time, last, delay);
    var all := [last] + times;
    TimesAreSpaced(i, time, last, delay);
    BackfilledIff(i, time, last, delay);
    forall j | 0 <= j < |times|
      ensures 10 * (all[j + 1] - all[j]) <= 18 * delay
    {
      if j > 0 {
        assert all[j + 1] == times[j] && all[j] == times[j - 1];
        assert times[j - 1 + 1] - times[j - 1] == delay;
      }
    }
  }

  /** What the marked sensors from i on have to say at a SYN. */
  function Due(s: State, i: nat, time: int): seq<Item>
    requires i <= NUM_SENSORS && ClockOk(s, time)
    decreases NUM_SENSORS - i
  {
    if i == NUM_SENSORS then []
    else (if s.mask[i] then Stamps(i, Times(i, time, s.lastTs[i], s.delays[i])) else []) + Due(s, i + 1, time)
  }

  lemma {:induction false} DueDependsOnRest(s: State, s': State, i: nat, time: int)
    requires i <= NUM_SENSORS && ClockOk(s, time) && ClockOk(s', time)
    requires forall k :: i <= k < NUM_SENSORS ==>
               s.mask[k] == s'.mask[k] && s.lastTs[k] == s'.lastTs[k] && s.delays[k] == s'.delays[k]
    ensures Due(s, i, time) == Due(s', i, time)
    decreases NUM_SENSORS - i
  {
    hide Times, Stamps, ClockOk;
    if i < NUM_SENSORS {
      TimesApply(s, i, time);
      TimesApply(s', i, time);
      DueDependsOnRest(s, s', i + 1, time);
    }
  }

  lemma TimesApply(s: State, i: nat, time: int)
    requires i < NUM_SENSORS && ClockOk(s, time)
    ensures i <= GYRO ==> s.lastTs[i] <= time
  {
  }

  lemma TakeSplits<T>(a: seq<T>, b: seq<T>, room: nat)
    ensures Take(a + b, room) == Take(a, room) + Take(b, room - |Take(a, room)|)
    ensures |Take(a, room)| == Min(|a|, room) && Take(b, 0) == []
  {
  }

  lemma StampsTake(i: nat, times: seq<int>, room: nat)
    ensures Stamps(i, Take(times, room)) == Take(Stamps(i, times), room)
  {
  }

  /** A SYN emits what is due, in order, as far as there is room; with room for all of it, no mark is left. */
  lemma {:induction false} ServeTakesDue(s: State, i: nat, time: int, room: nat)
    requires i <= NUM_SENSORS && ClockOk(s, time) && s.active != {}
    ensures var (s', out) := Serve(s, i, time, room);
            && out == Take(Due(s, i, time), room)
            && (forall k :: 0 <= k < i ==> s'.mask[k] == s.mask[k])
            && (|Due(s, i, time)| <= room ==> forall k :: i <= k < NUM_SENSORS ==> !s'.mask[k])
    decreases NUM_SENSORS - i
  {
    hide Times, Stamps, ClockOk, Take, Serve, ServeOne, Due;
    if i == NUM_SENSORS || room == 0 {
      ServeEnds(s, i, time, room);
    } else {
      ServeOnce(s, i, time, room);
      DueNext(s, i, time);
      if s.mask[i] {
        ServeOneIs(s, i, time, room);
        var (s1, out) := ServeOne(s, i, time, room);
        TakeSplits(Stamps(i, Times(i, time, s.lastTs[i], s.delays[i])), Due(s, i + 1, time), room);
        DueDependsOnRest(s, s1, i + 1, time);
        ServeTakesDue(s1, i + 1, time, room - |out|);
      } else {
        ServeTakesDue(s, i + 1, time, room);
      }
    }
  }

  lemma ServeEnds(s: State, i: nat, time: int, room: nat)
    requires i <= NUM_SENSORS && ClockOk(s, time) && (i == NUM_SENSORS || room == 0)
    ensures Serve(s, i, time, room) == (s, []) && Take(Due(s, i, time), room) == []
    ensures |Due(s, i, time)| <= room ==> forall k :: i <= k < NUM_SENSORS ==> !s.mask[k]
  {
    hide ClockOk;
    if room == 0 {
      NoRoom(s, i, time);
    }
  }

  lemma DueNext(s: State, i: nat, time: int)
    requires i < NUM_SENSORS && ClockOk(s, time)
    ensures i <= GYRO ==> s.lastTs[i] <= time
    ensures Due(s, i, time) ==
            if s.mask[i] then Stamps(i, Times(i, time, s.lastTs[i], s.delays[i])) + Due(s, i + 1, time)
            else Due(s, i + 1, time)
  {
    TimesApply(s, i, time);
    assert [] + Due(s, i + 1, time) == Due(s, i + 1, time);
  }

  lemma ServeOneIs(s: State, i: nat, time: int, room: nat)
    requires i < NUM_SENSORS && 0 < room && ClockOk(s, time)
    ensures i <= GYRO ==> s.lastTs[i] <= time
    ensures var (s1, out) := ServeOne(s, i, time, room);
            && ClockOk(s1, time) && s1.active == s.active && s1.mask == s.mask[i := false]
            && out == Take(Stamps(i, Times(i, time, s.lastTs[i], s.delays[i])), room)
            && (forall k :: i < k < NUM_SENSORS ==> s1.lastTs[k] == s.lastTs[k] && s1.delays[k] == s.delays[k])
  {
    hide Times, Stamps;
    TimesApply(s, i, time);
    ServeOneKeepsClock(s, i, time, room);
    StampsTake(i, Times(i, time, s.lastTs[i], s.delays[i]), room);
  }

  /** With no sensor active a SYN emits nothing and leaves the marks. */
  lemma {:induction false} InactiveEmitsNothing(s: State, i: nat, time: int, room: nat)
    requires i <= NUM_SENSORS && ClockOk(s, time) && s.active == {}
    ensures Serve(s, i, time, room) == (s, [])
    decreases NUM_SENSORS - i
  {
    if i < NUM_SENSORS && room != 0 {
      InactiveEmitsNothing(s, i + 1, time, room);
    }
  }

  /** Something is due for every mark. */
  lemma {:induction false} NoRoom(s: State, i: nat, time: int)
    requires i <= NUM_SENSORS && ClockOk(s, time)
    ensures Take(Due(s, i, time), 0) == []
    ensures Due(s, i, time) == [] ==> forall k :: i <= k < NUM_SENSORS ==> !s.mask[k]
    decreases NUM_SENSORS - i
  {
    hide Times;
    if i < NUM_SENSORS {
      NoRoom(s, i + 1, time);
    }
  }

  /** The timestamps of one sensor in what has been emitted. */
  function TimesOf(out: seq<Item>, i: nat): seq<int> {
    if out == [] then []
    else if out[0].Stamp? && out[0].sensor == i then [out[0].time] + TimesOf(out[1..], i)
    else TimesOf(out[1..], i)
  }

  lemma {:induction false} TimesOfAppends(a: seq<Item>, b: seq<Item>, i: nat)
    ensures TimesOf(a + b, i) == TimesOf(a, i) + TimesOf(b, i)
  {
    if a == [] {
      assert a + b == b;
    } else {
      assert (a + b)[1..] == a[1..] + b;
      TimesOfAppends(a[1..], b, i);
    }
  }

  lemma {:induction false} TimesOfStamps(k: nat, times: seq<int>, i: nat)
    ensures TimesOf(Stamps(k, times), i) == if k == i then times else []
  {
    if times != [] {
      assert Stamps(k, times)[1..] == Stamps(k, times[1..]);
      TimesOfStamps(k, times[1..], i);
    }
  }

  lemma {:induction false} TimesOfDue(s: State, j: nat, time: int, i: nat)
    requires j <= NUM_SENSORS && i < NUM_SENSORS && ClockOk(s, time)
    ensures TimesOf(Due(s, j, time), i) ==
            if j <= i && s.mask[i] then Times(i, time, s.lastTs[i], s.delays[i]) else []
    decreases NUM_SENSORS - j
  {
    hide Times, Stamps, ClockOk, TimesOf;
    NoTimes(i);
    TimesApply(s, i, time);
    if j < NUM_SENSORS {
      TimesApply(s, j, time);
      var now := if s.mask[j] then Stamps(j, Times(j, time, s.lastTs[j], s.delays[j])) else [];
      TimesOfAppends(now, Due(s, j + 1, time), i);
      if s.mask[j] {
        TimesOfStamps(j, Times(j, time, s.lastTs[j], s.delays[j]), i);
      }
      TimesOfDue(s, j + 1, time, i);
    }
  }

  lemma NoTimes(i: nat)
    ensures TimesOf([], i) == []
  {
  }

  // ---------- runs ----------

  /** Marks are the sensors that readSensorData reports at this SYN; ok says that the ioctls of enable succeed. */
  datatype Op = Syn(time: int, marks: set<nat>, room: nat) | Enable(sensor: nat, ok: bool) | Disable(sensor: nat)
              | SetDelay(sensor: nat, delay: Delay)

  function Mark(s: State, marks: set<nat>): (s': State)
    ensures s'.lastTs == s.lastTs
  {
    s.(mask := seq(NUM_SENSORS, i requires 0 <= i < NUM_SENSORS => s.mask[i] || i in marks))
  }

  predicate OpFits(op: Op) {
    op.Syn? || op.sensor < NUM_SENSORS
  }

  function Apply(s: State, op: Op): (res: (State, seq<Item>))
    requires OpFits(op) && (op.Syn? ==> ClockOk(s, op.time))
  {
    match op
    case Syn(time, marks, room) => Serve(Mark(s, marks), 0, time, room)
    case Enable(i, ok) =>
      (s.(lastTs := s.lastTs[i := 0], active := if ok then s.active + {i} else s.active), [Reset(i)])
    case Disable(i) => (s.(active := s.active - {i}), [])
    case SetDelay(i, delay) => (if i == PROXIMITY then s else s.(delays := s.delays[i := delay]), [])
  }

  /** The newest timestamp of a sensor since it was last enabled, or 0. */
  function LastSince(trace: seq<Item>, i: nat): int {
    if trace == [] then 0
    else
      var item := trace[|trace| - 1];
      if item.sensor != i then LastSince(trace[..|trace| - 1], i)
      else if item.Stamp? then item.time
      else 0
  }

  /** Timestamps of each sensor never go back, over everything emitted so far, and none is ahead of the clock. */
  ghost predicate InOrder(trace: seq<Item>, clock: int) {
    && (forall j, k :: 0 <= j < k < |trace| && trace[j].Stamp? && trace[k].Stamp? ==>
         trace[j].sensor == trace[k].sensor ==> trace[j].time <= trace[k].time)
    && (forall j :: 0 <= j < |trace| && trace[j].Stamp? ==> trace[j].time <= clock)
  }

  ghost predicate Inv(s: State, trace: seq<Item>, clock: int) {
    && 0 <= clock && InOrder(trace, clock)
    && (forall i :: 0 <= i <= GYRO ==> s.lastTs[i] == LastSince(trace, i) <= clock)
  }

  lemma {:induction false} LastSinceBounds(trace: seq<Item>, clock: int, i: nat)
    requires InOrder(trace, clock) && LastSince(trace, i) != 0
    ensures forall j :: 0 <= j < |trace| && trace[j].Stamp? && trace[j].sensor == i ==>
              trace[j].time <= LastSince(trace, i)
  {
    var k := |trace| - 1;
    if trace[k].sensor != i {
      LastSinceBounds(trace[..k], clock, i);
    }
  }

  lemma {:induction false} LastSinceStamps(trace: seq<Item>, i: nat, times: seq<int>, other: nat)
    ensures LastSince(trace + Stamps(i, times), other) ==
            if other == i && times != [] then times[|times| - 1] else LastSince(trace, other)
  {
    if times == [] {
      assert trace + Stamps(i, times) == trace;
    } else {
      var k, all := |times| - 1, trace + Stamps(i, times);
      assert all[..|all| - 1] == trace + Stamps(i, times[..k]);
      LastSinceStamps(trace, i, times[..k], other);
    }
  }

  /** Appending timestamps of one sensor that are sorted, not before its last one, and not ahead of the clock. */
  lemma AppendInOrder(trace: seq<Item>, clock: int, i: nat, times: seq<int>, time: int)
    requires InOrder(trace, clock) && clock <= time
    requires forall j :: 0 <= j < |times| ==> times[j] <= time
    requires forall j, k :: 0 <= j < k < |times| ==> times[j] <= times[k]
    requires forall j :: 0 <= j < |times| ==>
               clock <= times[j] || (LastSince(trace, i) != 0 && LastSince(trace, i) <= times[j])
    ensures InOrder(trace + Stamps(i, times), time)
  {
    if LastSince(trace, i) != 0 {
      LastSinceBounds(trace, clock, i);
    }
  }

  lemma SpacedIsSorted(s: seq<int>, delay: nat)
    requires forall j :: 0 <= j < |s| - 1 ==> s[j + 1] - s[j] == delay
    ensures forall j, k :: 0 <= j < k < |s| ==> s[j] <= s[k]
  {
    forall j, k | 0 <= j < k < |s|
      ensures s[j] <= s[k]
    {
      SortedUpTo(s, delay, j, k);
    }
  }

  lemma {:induction false} SortedUpTo(s: seq<int>, delay: nat, j: nat, k: nat)
    requires j <= k < |s| && forall l :: 0 <= l < |s| - 1 ==> s[l + 1] - s[l] == delay
    ensures s[j] <= s[k]
  {
    if j < k {
      SortedUpTo(s, delay, j, k - 1);
      assert s[k - 1 + 1] - s[k - 1] == delay;
    }
  }

  lemma ServedTimesSorted(i: nat, time: int, last: int, delay: Delay, room: nat)
    requires 0 < room && (i <= GYRO ==> last <= time)
    ensures var times := Take(Times(i, time, last, delay), room);
            && (forall j :: 0 <= j < |times| ==> times[j] <= time && (i <= GYRO ==> last <= times[j]))
            && (forall j, k :: 0 <= j < k < |times| ==> times[j] <= times[k])
            && (i > GYRO || last == 0 ==> times == [time])
  {
    TimesAreSpaced(i, time, last, delay);
    SpacedIsSorted(Times(i, time, last, delay), delay);
  }

  /** Serving one sensor keeps the order of its timestamps, and records the last one emitted. */
  lemma ServeOneKeeps(s: State, trace: seq<Item>, clock: int, i: nat, time: int, room: nat)
    requires Inv(s, trace, clock) && clock <= time && i < NUM_SENSORS && 0 < room && ClockOk(s, time)
    ensures var (s', out) := ServeOne(s, i, time, room);
            Inv(s', trace + out, time)
  {
    hide Times, Take, LastSince;
    var times := Take(Times(i, time, s.lastTs[i], s.delays[i]), room);
    ServedTimesSorted(i, time, s.lastTs[i], s.delays[i], room);
    assert times != [] by { ServeOneEmits(s, i, time, room); }
    forall other | 0 <= other <= GYRO
      ensures LastSince(trace + Stamps(i, times), other) ==
              if other == i then times[|times| - 1] else LastSince(trace, other)
    {
      LastSinceStamps(trace, i, times, other);
    }
    AppendInOrder(trace, clock, i, times, time);
  }

  lemma ServeOneEmits(s: State, i: nat, time: int, room: nat)
    requires i < NUM_SENSORS && 0 < room && ClockOk(s, time)
    ensures Take(Times(i, time, s.lastTs[i], s.delays[i]), room) != []
  {
  }

  lemma {:induction false} ServeKeeps(s: State, trace: seq<Item>, clock: int, i: nat, time: int, room: nat)
    requires Inv(s, trace, clock) && clock <= time && i <= NUM_SENSORS && ClockOk(s, time)
    ensures Inv(Serve(s, i, time, room).0, trace + Serve(s, i, time, room).1, time)
    decreases NUM_SENSORS - i
  {
    hide ServeOne, Inv;
    if i == NUM_SENSORS || room == 0 {
      InvLater(s, trace, clock, time);
      assert trace + [] == trace;
    } else if s.active != {} && s.mask[i] {
      ServeOneKeepsClock(s, i, time, room);
      ServeOneKeeps(s, trace, clock, i, time, room);
      var (s1, out) := ServeOne(s, i, time, room);
      ServeKeeps(s1, trace + out, time, i + 1, time, room - |out|);
      assert (trace + out) + Serve(s1, i + 1, time, room - |out|).1 ==
             trace + (out + Serve(s1, i + 1, time, room - |out|).1);
    } else {
      ServeKeeps(s, trace, clock, i + 1, time, room);
    }
  }

  lemma InvLater(s: State, trace: seq<Item>, clock: int, later: int)
    requires Inv(s, trace, clock) && clock <= later
    ensures Inv(s, trace, later) && ClockOk(s, later)
  {
  }

  lemma MarkKeeps(s: State, trace: seq<Item>, clock: int, marks: set<nat>)
    requires Inv(s, trace, clock)
    ensures Inv(Mark(s, marks), trace, clock)
  {
  }

  lemma ResetKeeps(s: State, trace: seq<Item>, clock: int, i: nat, active: set<nat>)
    requires Inv(s, trace, clock) && i < NUM_SENSORS
    ensures Inv(s.(lastTs := s.lastTs[i := 0], active := active), trace + [Reset(i)], clock)
  {
    var all := trace + [Reset(i)];
    assert all[..|all| - 1] == trace;
    assert forall other :: LastSince(all, other) == if other == i then 0 else LastSince(trace, other);
  }

  /** The clock after a call that ran at the given clock. */
  function ClockAfter(clock: int, op: Op): int {
    if op.Syn? then op.time else clock
  }

  lemma ApplyKeeps(s: State, trace: seq<Item>, clock: int, op: Op)
    requires Inv(s, trace, clock) && OpFits(op) && clock <= ClockAfter(clock, op)
    ensures (op.Syn? ==> ClockOk(s, op.time)) && Inv(Apply(s, op).0, trace + Apply(s, op).1, ClockAfter(clock, op))
  {
    match op
    case Syn(time, marks, room) =>
      InvLater(s, trace, clock, time);
      MarkKeeps(s, trace, clock, marks);
      var marked := Mark(s, marks);
      ServeKeeps(marked, trace, clock, 0, time, room);
    case Enable(i, ok) => ResetKeeps(s, trace, clock, i, if ok then s.active + {i} else s.active);
    case Disable(i) => assert trace + [] == trace;
    case SetDelay(i, delay) => assert trace + [] == trace;
  }

  /** The clock never goes back from one call to the next. */
  predicate Timely(clock: int, ops: seq<Op>)
    decreases |ops|
  {
    ops != [] ==> OpFits(ops[0]) && clock <= ClockAfter(clock, ops[0]) && Timely(ClockAfter(clock, ops[0]), ops[1..])
  }

  /** State and trace after the calls. */
  ghost function Run(s: State, trace: seq<Item>, clock: int, ops: seq<Op>): (State, seq<Item>)
    requires Inv(s, trace, clock) && Timely(clock, ops)
    decreases |ops|
  {
    if ops == [] then (s, trace)
    else
      ApplyKeeps(s, trace, clock, ops[0]);
      var (s1, out) := Apply(s, ops[0]);
      Run(s1, trace + out, ClockAfter(clock, ops[0]), ops[1..])
  }

  function FinalClock(clock: int, ops: seq<Op>): int
    decreases |ops|
  {
    if ops == [] then clock else FinalClock(ClockAfter(clock, ops[0]), ops[1..])
  }

  function Initial(): (s: State)
  {
    Fields(seq(NUM_SENSORS, _ => 0), seq(NUM_SENSORS, _ => 200_000_000), seq(NUM_SENSORS, _ => false), {})
  }

  lemma {:induction false} RunKeeps(s: State, trace: seq<Item>, clock: int, ops: seq<Op>)
    requires Inv(s, trace, clock) && Timely(clock, ops)
    ensures Inv(Run(s, trace, clock, ops).0, Run(s, trace, clock, ops).1, FinalClock(clock, ops))
    decreases |ops|
  {
    if ops != [] {
      ApplyKeeps(s, trace, clock, ops[0]);
      var (s1, out) := Apply(s, ops[0]);
      RunKeeps(s1, trace + out, ClockAfter(clock, ops[0]), ops[1..]);
    }
  }

  /**
   Main result.  Over any run of SYNs, enables, disables and delay changes with a clock that does not go back: the
   timestamps of every sensor never decrease, across enables as well, and each last_ts is the last timestamp emitted
   since the sensor was enabled.
   */
  lemma TimestampsNeverDecrease(ops: seq<Op>)
    requires Timely(0, ops)
    ensures Inv(Initial(), [], 0)
    ensures var (s, trace) := Run(Initial(), [], 0, ops);
           
            && (forall i :: 0 <= i <= GYRO ==> s.lastTs[i] == LastSince(trace, i))
            && InOrder(trace, FinalClock(0, ops))
  {
    RunKeeps(Initial(), [], 0, ops);
  }

  /** With room for all that is due, every marked sensor emits all its samples, no other emits any, no mark is left. */
  ghost predicate EmitsAll(s: State, time: int, out: seq<Item>, mask: seq<bool>)
    requires ClockOk(s, time) && |mask| == NUM_SENSORS
  {
    forall i :: 0 <= i < NUM_SENSORS ==>
      TimesOf(out, i) == (if s.mask[i] then Times(i, time, s.lastTs[i], s.delays[i]) else []) && !mask[i]
  }

  lemma ServeEmitsAll(s: State, time: int, room: nat)
    requires ClockOk(s, time) && s.active != {} && |Due(s, 0, time)| <= room
    ensures EmitsAll(s, time, Serve(s, 0, time, room).1, Serve(s, 0, time, room).0.mask)
  {
    hide Times, Serve, Due, TimesOf;
    ServeTakesDue(s, 0, time, room);
    assert Take(Due(s, 0, time), room) == Due(s, 0, time);
    forall i | 0 <= i < NUM_SENSORS
      ensures i <= GYRO ==> s.lastTs[i] <= time
      ensures TimesOf(Due(s, 0, time), i) == if s.mask[i] then Times(i, time, s.lastTs[i], s.delays[i]) else []
    {
      TimesOfDue(s, 0, time, i);
    }
  }

  /**
   A SYN with room for all that is due, while any sensor is active: every sensor that is marked emits its missing samples
   and the current one, no other sensor emits anything, and no mark is left.  A sensor that was not silent for too
   long is then seen without a gap of more than 1.8 delays.
   */
  lemma SynEmitsDue(s: State, time: int, marks: set<nat>, room: nat, i: nat)
    requires ClockOk(s, time) && s.active != {} && i < NUM_SENSORS
    requires |Due(Mark(s, marks), 0, time)| <= room
    ensures var (s', out) := Apply(s, Syn(time, marks, room));
            var (last, delay) := (s.lastTs[i], s.delays[i]);
            && !s'.mask[i]
            && TimesOf(out, i) == (if s.mask[i] || i in marks then Times(i, time, last, delay) else [])
            && ((i <= 3 && (s.mask[i] || i in marks) && last != 0 && delay != 1_000_000_000 &&
                 time - last < 100 * delay) ==>
                 NoLongGap(last, TimesOf(out, i), delay))
  {
    hide Times, Serve, Due, TimesOf, NoLongGap;
    var marked := Mark(s, marks);
    ServeEmitsAll(marked, time, room);
    assert marked.mask[i] == (s.mask[i] || i in marks) && marked.delays == s.delays;
    if i <= 3 && s.lastTs[i] != 0 && s.delays[i] != 1_000_000_000 && time - s.lastTs[i] < 100 * s.delays[i] {
      TimesHaveNoLongGap(i, time, s.lastTs[i], s.delays[i]);
    }
  }

  /** An accelerometer that was silent for three delays. */
  lemma ThreeDelaysAreFilled()
    ensures Times(0, 1_600_000_000, 1_000_000_000, 200_000_000) ==
            [1_000_000_000, 1_200_000_000, 1_400_000_000, 1_600_000_000]
  {
    var last, delay := 1_000_000_000, 200_000_000;
    assert Missing(1_600_000_000, last, delay) == 3;
    assert Ramp(last + 2 * delay, delay, 1) == [last + 2 * delay];
    assert Ramp(last + delay, delay, 2) == [last + delay, last + 2 * delay];
    assert Ramp(last, delay, 3) == [last, last + delay, last + 2 * delay];
  }

  // ---------- the driver ----------

  class Driver {
    var lastTs: seq<int>
    var delays: seq<Delay>
    var mask: seq<bool>
    var active: set<nat>

    ghost predicate Valid()
      reads this
    {
      |lastTs| == NUM_SENSORS && |delays| == NUM_SENSORS && |mask| == NUM_SENSORS
    }

    ghost function View(): State
      requires Valid()
      reads this
    {
      Fields(lastTs, delays, mask, active)
    }

    constructor ()
      ensures Valid() && View() == Initial()
    {
      lastTs := seq(NUM_SENSORS, _ => 0);
      delays := seq(NUM_SENSORS, _ => 200_000_000);
      mask := seq(NUM_SENSORS, _ => false);
      active := {};
    }

    /**
     ok says that the ioctls succeed.  A failed enable has reset the timestamp all the same, and a failed disable has
     taken the sensor out of the active ones.
     */
    method EnableSensor(i: nat, en: int, ok: bool) returns (ret: int)
      requires Valid() && i < NUM_SENSORS
      modifies this
      ensures Valid() && View() == Apply(old(View()), if en == 1 then Enable(i, ok) else Disable(i)).0
      ensures lastTs == (if en == 1 then old(lastTs)[i := 0] else old(lastTs)) && delays == old(delays)
      ensures active == if en != 1 then old(active) - {i} else if ok then old(active) + {i} else old(active)
      ensures ret == if ok then 0 else -1
    {
      if en == 1 {
        lastTs := lastTs[i := 0];
        if !ok {
          return -1;
        }
        active := active + {i};
      } else {
        active := active - {i};
        if !ok {
          return -1;
        }
      }
      return 0;
    }

    /** Proximity is not accepted; a negative delay is refused. */
    method ChangeDelay(i: nat, ns: int) returns (ret: int)
      requires Valid() && i < NUM_SENSORS && ns != 0
      modifies this
      ensures ret == if i != PROXIMITY && ns < 0 then -EINVAL else 0
      ensures Valid() && View() == if ns < 0 then old(View()) else Apply(old(View()), SetDelay(i, ns)).0
      ensures delays == if ns < 0 || i == 5 then old(delays) else old(delays)[i := ns]
    {
      if i == PROXIMITY {
        return 0;
      }
      if ns < 0 {
        return -EINVAL;
      }
      delays := delays[i := ns];
      return 0;
    }

    /** The inner loop: loopCount missing samples of sensor i, as far as there is room. */
    method Backfill(i: nat, time: int, delay: Delay, loopCount: nat, data: array<Item>, at: nat, room: nat)
      returns (n: nat, stamp: int)
      requires 0 < loopCount && 0 < room && at + room <= data.Length
      modifies data
      ensures n == Min(loopCount, room)
      ensures var times := Take(Ramp(time - loopCount * delay, delay, loopCount), n);
              |times| == n && stamp == times[n - 1] && StoredAt(old(data[..]), data[..], at, Stamps(i, times))
    {
      ghost var before, ramp := data[..], Ramp(time - loopCount * delay, delay, loopCount);
      n, stamp := 0, time;
      while n < loopCount
        invariant n <= loopCount && n <= room && (n == room ==> n == loopCount)
        invariant 0 < n ==> stamp == ramp[n - 1]
        invariant forall k :: 0 <= k < data.Length ==>
                    data[k] == if at <= k < at + n then Stamp(i, ramp[k - at]) else before[k]
      {
        RampAt(time, delay, loopCount, n);
        stamp := time - (loopCount - n) * delay;
        data[at + n] := Stamp(i, stamp);
        n := n + 1;
        if n == room {
          break;
        }
      }
      StoredWhere(before, data[..], at, Stamps(i, ramp[..n]));
    }

    method EmitNow(i: nat, time: int, data: array<Item>, at: nat)
      requires at < data.Length
      modifies data
      ensures StoredAt(old(data[..]), data[..], at, [Stamp(i, time)])
    {
      StoredOne(data[..], at, Stamp(i, time));
      data[at] := Stamp(i, time);
    }

    /** The missing samples, and the current one if there is still room. */
    method EmitUpToNow(i: nat, time: int, delay: Delay, missing: nat, data: array<Item>, at: nat, room: nat)
      returns (n: nat, stamp: int)
      requires 0 < room && at + room <= data.Length
      modifies data
      ensures var times := Take(Ramp(time - missing * delay, delay, missing) + [time], room);
              n == |times| > 0 && stamp == times[n - 1] && StoredAt(old(data[..]), data[..], at, Stamps(i, times))
    {
      hide Ramp, StoredAt, Stamps, Take;
      ghost var before, ramp := data[..], Ramp(time - missing * delay, delay, missing);
      TakeUpToNow(i, ramp, time, room);
      n, stamp := 0, time;
      if 0 < missing {
        n, stamp := Backfill(i, time, delay, missing, data, at, room);
      } else {
        StoredNothing(before, at);
      }
      if n != room {
        ghost var filled := data[..];
        assert StoredAt(before, filled, at, Stamps(i, ramp));
        stamp := time;
        EmitNow(i, stamp, data, at + n);
        StoredMore(before, filled, data[..], at, Stamps(i, ramp), [Stamp(i, time)]);
        n := n + 1;
      }
    }

    /** The body of the loop for a marked sensor. */
    method ServeSensor(i: nat, time: int, data: array<Item>, at: nat, room: nat) returns (n: nat)
      requires Valid() && ClockOk(View(), time) && i < NUM_SENSORS && 0 < room && at + room <= data.Length
      modifies this, data
      ensures Valid() && View() == ServeOne(old(View()), i, time, room).0 && n == |ServeOne(old(View()), i, time, room).1|
      ensures StoredAt(old(data[..]), data[..], at, ServeOne(old(View()), i, time, room).1)
    {
      hide Ramp, StoredAt, Stamps;
      mask := mask[i := false];
      if i <= GYRO {
        var loopCount := 0;
        if time - lastTs[i] > delays[i] * 18 / 10 && delays[i] != SLOWEST_DELAY && lastTs[i] != 0 {
          loopCount := (time - lastTs[i]) / delays[i];
        }
        if !(1 <= loopCount < MAX_BACKFILL) {
          loopCount := 0;
        }
        assert loopCount == Missing(time, lastTs[i], delays[i]);
        var stamp;
        n, stamp := EmitUpToNow(i, time, delays[i], loopCount, data, at, room);
        lastTs := lastTs[i := stamp];
      } else {
        NoRamp(time);
        TakeUpToNow(i, [], time, room);
        EmitNow(i, time, data, at);
        n := 1;
      }
    }

    /** The loop over the sensors at a SYN, after readSensorData has set the marks. */
    method ServeSyn(time: int, data: array<Item>, at: nat, count: nat) returns (n: nat)
      requires Valid() && ClockOk(View(), time) && at + count <= data.Length
      modifies this, data
      ensures Valid() && View() == Serve(old(View()), 0, time, count).0 && n == |Serve(old(View()), 0, time, count).1| <= count
      ensures StoredAt(old(data[..]), data[..], at, Serve(old(View()), 0, time, count).1)
      ensures at + n <= data.Length && |mask| == NUM_SENSORS
      ensures old(active) != {} && |Due(old(View()), 0, time)| <= count ==>
                EmitsAll(old(View()), time, data[at..at + n], mask)
    {
      hide ServeOne, Serve, StoredAt, ServesTo, EmitsAll, Due;
      n := 0;
      var i := 0;
      ghost var out, start := [], View();
      StoredNothing(data[..], at);
      ServesNothing(start, time, count);
      while n < count && i < NUM_SENSORS
        invariant Valid() && ClockOk(View(), time) && i <= NUM_SENSORS && n == |out| <= count
        invariant StoredAt(old(data[..]), data[..], at, out)
        invariant ServesTo(start, time, count, out, View(), i)
        decreases NUM_SENSORS - i
      {
        ghost var before, s := data[..], View();
        ServesStep(start, time, count, out, s, i);
        if active != {} {
          if mask[i] {
            ServeOneKeepsClock(s, i, time, count - n);
            var m := ServeSensor(i, time, data, at + n, count - n);
            ghost var emitted := ServeOne(s, i, time, count - n).1;
            StoredMore(old(data[..]), before, data[..], at, out, emitted);
            n, out := n + m, out + emitted;
          }
        }
        i := i + 1;
      }
      ServesEnd(start, time, count, out, View(), i);
      StoredSlice(old(data[..]), data[..], at, out);
      if start.active != {} && |Due(start, 0, time)| <= count {
        ServeEmitsAll(start, time, count);
      }
    }
  }

  lemma StoredSlice<T>(before: seq<T>, now: seq<T>, at: nat, out: seq<T>)
    requires StoredAt(before, now, at, out)
    ensures at + |out| <= |now| && now[at..at + |out|] == out
  {
  }

  lemma NoRamp(time: int)
    ensures [] + [time] == [time]
  {
  }

  lemma StoredOne<T>(s: seq<T>, at: nat, x: T)
    requires at < |s|
    ensures StoredAt(s, s[at := x], at, [x])
  {
  }

  /** Cutting the timestamps to the room: either the ramp fills it, or the current time comes after the ramp. */
  lemma TakeUpToNow(i: nat, ramp: seq<int>, time: int, room: nat)
    requires 0 < room
    ensures var times := Take(ramp + [time], room);
            |times| == Min(|ramp| + 1, room) && |Stamps(i, ramp)| == |ramp| &&
            times[|times| - 1] == (if |ramp| < room then time else ramp[room - 1]) &&
            if |ramp| < room
            then times == ramp + [time] && Take(ramp, |ramp|) == ramp &&
                 Stamps(i, times) == Stamps(i, ramp) + [Stamp(i, time)]
            else times == ramp[..room] == Take(ramp, room)
    ensures ramp == [] ==> Stamps(i, ramp) == [] && Stamps(i, [time]) == [Stamp(i, time)]
  {
  }

  /** A SYN that started at s with room has emitted out and now stands at s' before sensor i. */
  ghost predicate ServesTo(s: State, time: int, room: nat, out: seq<Item>, s': State, i: nat)
    requires ClockOk(s, time) && ClockOk(s', time)
  {
    |out| <= room && i <= NUM_SENSORS &&
    var (s2, rest) := Serve(s', i, time, room - |out|);
    Serve(s, 0, time, room) == (s2, out + rest)
  }

  lemma ServesNothing(s: State, time: int, room: nat)
    requires ClockOk(s, time)
    ensures ServesTo(s, time, room, [], s, 0)
  {
    assert [] + Serve(s, 0, time, room).1 == Serve(s, 0, time, room).1;
  }

  lemma ServeOnce(s: State, i: nat, time: int, room: nat)
    requires ClockOk(s, time) && 0 < room && i < NUM_SENSORS
    ensures s.active != {} && s.mask[i] ==>
              var (s1, emitted) := ServeOne(s, i, time, room);
              ClockOk(s1, time) && |emitted| <= room &&
              var (s2, rest) := Serve(s1, i + 1, time, room - |emitted|);
              Serve(s, i, time, room) == (s2, emitted + rest)
    ensures !(s.active != {} && s.mask[i]) ==> Serve(s, i, time, room) == Serve(s, i + 1, time, room)
  {
    hide ServeOne, ClockOk;
    if s.active != {} && s.mask[i] {
      ServeOneKeepsClock(s, i, time, room);
    }
  }

  lemma ServesStep(s: State, time: int, room: nat, out: seq<Item>, s': State, i: nat)
    requires ClockOk(s, time) && ClockOk(s', time) && |out| < room && i < NUM_SENSORS
    ensures ServesTo(s, time, room, out, s', i) && s'.active != {} && s'.mask[i] ==>
              var (s1, emitted) := ServeOne(s', i, time, room - |out|);
              ClockOk(s1, time) && ServesTo(s, time, room, out + emitted, s1, i + 1)
    ensures ServesTo(s, time, room, out, s', i) && !(s'.active != {} && s'.mask[i]) ==>
              ServesTo(s, time, room, out, s', i + 1)
  {
    hide ServeOne, ClockOk, Serve;
    ServeOnce(s', i, time, room - |out|);
    if s'.active != {} && s'.mask[i] {
      ServeOneKeepsClock(s', i, time, room - |out|);
      var (s1, emitted) := ServeOne(s', i, time, room - |out|);
      var rest := Serve(s1, i + 1, time, room - |out| - |emitted|).1;
      assert out + (emitted + rest) == (out + emitted) + rest;
    }
  }

  lemma ServesEnd(s: State, time: int, room: nat, out: seq<Item>, s': State, i: nat)
    requires ClockOk(s, time) && ClockOk(s', time)
    ensures ServesTo(s, time, room, out, s', i) && (|out| >= room || i == NUM_SENSORS) ==>
              Serve(s, 0, time, room) == (s', out)
  {
    assert out + [] == out;
  }
}
