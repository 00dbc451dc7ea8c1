/**
 MagneticSensor (sensor/Magnetic.cpp): two sensors share one kernel event stream.  Events are collected into a
 pending record for each sensor; a SYN emits the complete ones, and stays in the reader when room runs out half way.
 */
module Magnetic {
  import opened Common
  import opened Timestamps
  import opened EventReader

  // The event codes of linux/hwmsensor.h are not part of this model; Sensor and Field stand for them.
  datatype Sensor = MagneticField | Orientation
  {
    function Index(): (j: nat)
      ensures j < 2
    {
      match this
      case MagneticField => 0
      case Orientation => 1
    }
  }

  datatype AbsCode = Status(sensor: Sensor) | X(sensor: Sensor) | Y(sensor: Sensor) | Z(sensor: Sensor) | OtherAbs
  datatype RelCode = Update(sensor: Sensor) | TimestampHi(sensor: Sensor) | TimestampLo(sensor: Sensor) | OtherRel
  datatype InputEvent = Abs(abs: AbsCode, value: int32) | Rel(rel: RelCode, value: int32) | Syn | Unknown

  datatype SensorEvent = SensorEvent(sensor: Sensor, x: real, y: real, z: real, status: int, timestamp: int)

  // mAllInputDataCompleteFlag
  const RESTART := 0
  const FLAG_X := 1
  const FLAG_Y := 2
  const FLAG_Z := 3
  const FLAG_STATUS := 4
  const FLAG_HI := 6
  const ALL_COMPLETE := 7

  // SENSOR_STATUS_ACCURACY_HIGH
  const ACCURACY_HIGH := 3

  /** What stays fixed while a sensor is enabled. */
  datatype Settings = Settings(enabledTime: seq<int>, div: seq<Divider>)

  type Config = c: Settings | |c.enabledTime| == 2 && |c.div| == 2 witness Settings([0, 0], [1, 1])

  /** mPendingMask as two bits, mPendingEvent and mAllInputDataCompleteFlag. */
  datatype Records = Records(mask: seq<bool>, events: seq<SensorEvent>, flags: seq<nat>)

  const NO_EVENT := SensorEvent(MagneticField, 0.0, 0.0, 0.0, 0, 0)

  type Pending = p: Records | |p.mask| == 2 && |p.events| == 2 && |p.flags| == 2
    witness Records([false, false], [NO_EVENT, NO_EVENT], [RESTART, RESTART])

  /** Some sensor is marked. */
  predicate Any(p: Pending) {
    p.mask[0] || p.mask[1]
  }

  function Set(p: Pending, j: nat, mark: bool, event: SensorEvent, flag: nat): (p': Pending)
    requires j < 2
  {
    Records(p.mask[j := mark], p.events[j := event], p.flags[j := flag])
  }

  function Scaled(cfg: Config, s: Sensor, value: int32): real
  {
    value as real / cfg.div[s.Index()] as real
  }

  function Process(cfg: Config, p: Pending, e: InputEvent): (p': Pending)
  {
    match e
    case Abs(code, value) => (
      match code
      case Status(s) => Set(p, s.Index(), true, p.events[s.Index()].(status := ToInt8(value)), FLAG_STATUS)
      case X(s) => Set(p, s.Index(), true, p.events[s.Index()].(x := Scaled(cfg, s, value)), FLAG_X)
      case Y(s) => Set(p, s.Index(), true, p.events[s.Index()].(y := Scaled(cfg, s, value)), FLAG_Y)
      case Z(s) => Set(p, s.Index(), true, p.events[s.Index()].(z := Scaled(cfg, s, value)), FLAG_Z)
      case OtherAbs => p)
    case Rel(code, value) => (
      match code
      case Update(s) => p.(mask := p.mask[s.Index() := true])
      case TimestampHi(s) =>
        var j, event := s.Index(), p.events[s.Index()];
        Set(p, j, p.mask[j], event.(timestamp := WithHigh(event.timestamp, value)), FLAG_HI)
      case TimestampLo(s) =>
        var j, event := s.Index(), p.events[s.Index()];
        Set(p, j, p.mask[j], event.(timestamp := WithLow(event.timestamp, value)), ALL_COMPLETE)
      case OtherRel => p)
    case _ => p
  }

  /** What a SYN does for sensor j when it is marked and there is room. */
  function ServeOne(cfg: Config, p: Pending, j: nat): (res: (Pending, seq<SensorEvent>))
    requires j < 2
    ensures |res.1| <= 1 && res.0.mask == p.mask[j := false]
  {
    var event := p.events[j];
    if !p.mask[j] then (p, [])
    else if p.flags[j] != ALL_COMPLETE then (p.(mask := p.mask[j := false]), [])
    else if event.timestamp > cfg.enabledTime[j] then (Set(p, j, false, event.(timestamp := 0), RESTART), [event])
    else (Set(p, j, false, event, RESTART), [])
  }

  /** The loop over the sensors from j on, with its conditions on room and mask. */
  function Serve(cfg: Config, p: Pending, j: nat, room: nat): (res: (Pending, seq<SensorEvent>))
    requires j <= 2
    ensures |res.1| <= room
    decreases 2 - j
  {
    if room == 0 || !Any(p) || j == 2 then (p, [])
    else
      var (p1, out) := ServeOne(cfg, p, j);
      var (p2, more) := Serve(cfg, p1, j + 1, room - |out|);
      (p2, out + more)
  }

  /** One call: events are taken from the queue until room or events run out. */
  function Drain(cfg: Config, p: Pending, q: seq<InputEvent>, room: nat)
    : (res: (seq<SensorEvent>, Pending, seq<InputEvent>))
    ensures |res.0| <= room
    decreases |q|
  {
    if room == 0 || q == [] then ([], p, q)
    else if q[0].Syn? then
      var (p1, out) := Serve(cfg, p, 0, room);
      if Any(p1) then (out, p1, q)
      else
        var (more, p2, q2) := Drain(cfg, p1, q[1..], room - |out|);
        (out + more, p2, q2)
    else Drain(cfg, Process(cfg, p, q[0]), q[1..], room)
  }

  // ---------- the specification: the stream alone decides the output ----------

  function ServeAll(cfg: Config, p: Pending): (res: (Pending, seq<SensorEvent>))
    ensures !Any(res.0)
  {
    var (p1, out) := ServeOne(cfg, p, 0);
    var (p2, more) := ServeOne(cfg, p1, 1);
    (p2, out + more)
  }

  /** Everything that a stream makes the sensors emit, room being no concern. */
  function Output(cfg: Config, p: Pending, q: seq<InputEvent>): seq<SensorEvent>
    decreases |q|
  {
    if q == [] then []
    else if q[0].Syn? then ServeAll(cfg, p).1 + Output(cfg, ServeAll(cfg, p).0, q[1..])
    else Output(cfg, Process(cfg, p, q[0]), q[1..])
  }

  /** The pending records after a stream. */
  function After(cfg: Config, p: Pending, q: seq<InputEvent>): (p': Pending)
    decreases |q|
  {
    if q == [] then p
    else After(cfg, if q[0].Syn? then ServeAll(cfg, p).0 else Process(cfg, p, q[0]), q[1..])
  }

  lemma {:induction false} OutputAppends(cfg: Config, p: Pending, q: seq<InputEvent>, more: seq<InputEvent>)
    ensures Output(cfg, p, q + more) == Output(cfg, p, q) + Output(cfg, After(cfg, p, q), more)
    ensures After(cfg, p, q + more) == After(cfg, After(cfg, p, q), more)
    decreases |q|
  {
    hide Process, ServeAll;
    if q == [] {
      assert q + more == more;
    } else {
      assert (q + more)[1..] == q[1..] + more;
      OutputAppends(cfg, if q[0].Syn? then ServeAll(cfg, p).0 else Process(cfg, p, q[0]), q[1..], more);
    }
  }

  /** A SYN served for as long as there is room leaves exactly the rest of what it owes. */
  lemma ServeIsPrefix(cfg: Config, p: Pending, room: nat)
    requires 0 < room
    ensures var (p', out) := Serve(cfg, p, 0, room);
            var (all, owed) := ServeAll(cfg, p);
            && owed == out + ServeAll(cfg, p').1 && ServeAll(cfg, p').0 == all
            && (Any(p') ==> |out| == room)
            && (!Any(p') ==> p' == all && out == owed)
  {
    hide Process;
    var (p1, first) := ServeOne(cfg, p, 0);
    var (p2, second) := ServeOne(cfg, p1, 1);
  }

  /**
   One call emits the first events of the output, as many as there is room for; the rest is still to come from
   what it leaves behind; and a call that returns less than its room has emptied the reader.
   */
  lemma {:induction false} DrainIsPrefix(cfg: Config, p: Pending, q: seq<InputEvent>, room: nat)
    ensures var (out, p', q') := Drain(cfg, p, q, room);
            && Output(cfg, p, q) == out + Output(cfg, p', q')
            && After(cfg, p', q') == After(cfg, p, q)
            && (|out| < room ==> q' == [])
    decreases |q|
  {
    hide Process, ServeAll, Serve;
    if room != 0 && q != [] {
      if q[0].Syn? {
        ServeIsPrefix(cfg, p, room);
        var (p1, out) := Serve(cfg, p, 0, room);
        if !Any(p1) {
          DrainIsPrefix(cfg, p1, q[1..], room - |out|);
          var (more, p2, q2) := Drain(cfg, p1, q[1..], room - |out|);
          assert out + (more + Output(cfg, p2, q2)) == (out + more) + Output(cfg, p2, q2);
        } else {
          assert out + (ServeAll(cfg, p1).1 + Output(cfg, ServeAll(cfg, p1).0, q[1..])) ==
                 (out + ServeAll(cfg, p1).1) + Output(cfg, ServeAll(cfg, p1).0, q[1..]);
        }
      } else {
        DrainIsPrefix(cfg, Process(cfg, p, q[0]), q[1..], room);
      }
    }
  }

  // ---------- runs of calls ----------

  function Session(cfg: Config, p: Pending, q: seq<InputEvent>, calls: seq<Call<InputEvent>>)
    : (res: (seq<SensorEvent>, Pending, seq<InputEvent>))
    decreases |calls|
  {
    if calls == [] then ([], p, q)
    else
      var (out, p1, q1) := Drain(cfg, p, q + calls[0].batch, calls[0].room);
      var (more, p2, q2) := Session(cfg, p1, q1, calls[1..]);
      (out + more, p2, q2)
  }

  /**
   Main result.  Over any run of calls, what was returned is the beginning of what the kernel stream alone makes
   the sensors emit, and all of it once the reader is empty: neither the chunking of the reads nor the room of the
   calls shows.
   */
  lemma {:induction false} OutputIsStreamOutput(cfg: Config, p: Pending, q: seq<InputEvent>, calls: seq<Call<InputEvent>>)
    ensures var (out, p', q') := Session(cfg, p, q, calls);
            && Output(cfg, p, q + Stream(calls)) == out + Output(cfg, p', q')
            && After(cfg, p', q') == After(cfg, p, q + Stream(calls))
            && (q' == [] ==> out == Output(cfg, p, q + Stream(calls)))
    decreases |calls|
  {
    hide Output, After, Drain;
    OutputOfNothing(cfg, Session(cfg, p, q, calls).1);
    if calls == [] {
      assert q + [] == q && [] + Output(cfg, p, q) == Output(cfg, p, q);
    } else {
      var fed, rest := q + calls[0].batch, Stream(calls[1..]);
      var (out, p1, q1) := Drain(cfg, p, fed, calls[0].room);
      DrainIsPrefix(cfg, p, fed, calls[0].room);
      assert q + Stream(calls) == fed + rest;
      OutputAppends(cfg, p, fed, rest);
      OutputAppends(cfg, p1, q1, rest);
      OutputIsStreamOutput(cfg, p1, q1, calls[1..]);
      var (more, p2, q2) := Session(cfg, p1, q1, calls[1..]);
      ThreePieces(out, Output(cfg, p1, q1), Output(cfg, After(cfg, p, fed), rest));
      ThreePieces(out, more, Output(cfg, p2, q2));
      assert (out + more) + [] == out + more;
    }
  }

  lemma OutputOfNothing(cfg: Config, p: Pending)
    ensures Output(cfg, p, []) == []
  {
  }

  /**
   To its caller a driver is a queue: what its reader and pending record still stand for, fed with what the batch
   adds, and read from the front as far as there is room.  Reading less than the room empties the reader.
   */
  lemma DrainIsQueueRead(cfg: Config, p: Pending, q: seq<InputEvent>, batch: seq<InputEvent>, room: nat)
    ensures var (out, p', q') := Drain(cfg, p, q + batch, room);
            && (out, Output(cfg, p', q')) ==
               ReadQueue(Output(cfg, p, q), Output(cfg, After(cfg, p, q), batch), room)
            && (|out| < room ==> q' == [])
  {
    hide Output, After, Drain;
    DrainIsPrefix(cfg, p, q + batch, room);
    OutputAppends(cfg, p, q, batch);
    OutputOfNothing(cfg, Drain(cfg, p, q + batch, room).1);
  }

  /** Two ways of reading the same stream agree as soon as both have emptied the reader. */
  lemma ChunkingDoesNotShow(cfg: Config, p: Pending, calls: seq<Call<InputEvent>>, calls': seq<Call<InputEvent>>)
    requires Stream(calls) == Stream(calls')
    requires Session(cfg, p, [], calls).2 == [] && Session(cfg, p, [], calls').2 == []
    ensures Session(cfg, p, [], calls).0 == Session(cfg, p, [], calls').0
    ensures Session(cfg, p, [], calls).1 == Session(cfg, p, [], calls').1
  {
    OutputIsStreamOutput(cfg, p, [], calls);
    OutputIsStreamOutput(cfg, p, [], calls');
  }

  // ---------- the two sensors do not interfere ----------

  /** The events of a stream that concern one sensor, and the SYNs. */
  function Project(q: seq<InputEvent>, s: Sensor): seq<InputEvent> {
    if q == [] then []
    else if Concerns(q[0], s) then [q[0]] + Project(q[1..], s)
    else Project(q[1..], s)
  }

  predicate Concerns(e: InputEvent, s: Sensor) {
    match e
    case Abs(code, value) => !code.OtherAbs? && code.sensor == s
    case Rel(code, value) => !code.OtherRel? && code.sensor == s
    case Syn => true
    case Unknown => false
  }

  function Only(out: seq<SensorEvent>, s: Sensor): seq<SensorEvent> {
    if out == [] then []
    else if out[0].sensor == s then [out[0]] + Only(out[1..], s)
    else Only(out[1..], s)
  }

  lemma {:induction false} OnlyAppends(a: seq<SensorEvent>, b: seq<SensorEvent>, s: Sensor)
    ensures Only(a + b, s) == Only(a, s) + Only(b, s)
  {
    if a == [] {
      assert a + b == b;
    } else {
      assert (a + b)[1..] == a[1..] + b;
      OnlyAppends(a[1..], b, s);
    }
  }

  /** Each pending record carries the identity of its own sensor. */
  predicate Tagged(p: Pending)
  {
    p.events[0].sensor == MagneticField && p.events[1].sensor == Orientation
  }

  predicate SameFor(p: Pending, p': Pending, s: Sensor)
  {
    var j := s.Index();
    p.mask[j] == p'.mask[j] && p.events[j] == p'.events[j] && p.flags[j] == p'.flags[j]
  }

  lemma ProcessSame(cfg: Config, p: Pending, p': Pending, e: InputEvent, s: Sensor)
    requires Tagged(p) && Tagged(p') && SameFor(p, p', s)
    ensures Tagged(Process(cfg, p, e))
    ensures Concerns(e, s) ==> SameFor(Process(cfg, p, e), Process(cfg, p', e), s)
    ensures !Concerns(e, s) ==> SameFor(Process(cfg, p, e), p', s)
  {
    hide ToInt8, WithHigh, WithLow;
  }

  /** A SYN keeps the records of the other sensor, and emits nothing for it. */
  lemma ServeOneTags(cfg: Config, p: Pending, j: nat, s: Sensor)
    requires Tagged(p) && j < 2
    ensures Tagged(ServeOne(cfg, p, j).0)
    ensures j != s.Index() ==> SameFor(ServeOne(cfg, p, j).0, p, s) && Only(ServeOne(cfg, p, j).1, s) == []
  {
    assert j != s.Index() ==> p.events[j].sensor != s;
  }

  lemma ServeOneSame(cfg: Config, p: Pending, p': Pending, j: nat, s: Sensor)
    requires Tagged(p) && Tagged(p') && SameFor(p, p', s) && j < 2
    ensures Tagged(ServeOne(cfg, p, j).0) && Tagged(ServeOne(cfg, p', j).0)
    ensures SameFor(ServeOne(cfg, p, j).0, ServeOne(cfg, p', j).0, s)
    ensures Only(ServeOne(cfg, p, j).1, s) == Only(ServeOne(cfg, p', j).1, s)
  {
    hide Tagged, Only;
    ServeOneTags(cfg, p, j, s);
    ServeOneTags(cfg, p', j, s);
    if j != s.Index() {
      hide ServeOne;
    }
  }

  lemma ServeAllSame(cfg: Config, p: Pending, p': Pending, s: Sensor)
    requires Tagged(p) && Tagged(p') && SameFor(p, p', s)
    ensures Tagged(ServeAll(cfg, p).0) && SameFor(ServeAll(cfg, p).0, ServeAll(cfg, p').0, s)
    ensures Only(ServeAll(cfg, p).1, s) == Only(ServeAll(cfg, p').1, s)
  {
    hide ServeOne, Tagged, SameFor;
    var (p1, out) := ServeOne(cfg, p, 0);
    var (p1', out') := ServeOne(cfg, p', 0);
    ServeOneSame(cfg, p, p', 0, s);
    ServeOneSame(cfg, p1, p1', 1, s);
    OnlyAppends(out, ServeOne(cfg, p1, 1).1, s);
    OnlyAppends(out', ServeOne(cfg, p1', 1).1, s);
  }

  /** What one sensor emits depends on its own events and the SYNs alone, however the other's are mixed in. */
  lemma {:induction false} SensorsDoNotInterfere(cfg: Config, p: Pending, p': Pending, q: seq<InputEvent>, s: Sensor)
    requires Tagged(p) && Tagged(p') && SameFor(p, p', s)
    ensures Only(Output(cfg, p, q), s) == Only(Output(cfg, p', Project(q, s)), s)
    decreases |q|
  {
    hide Process, ServeAll, SameFor, Tagged;
    if q != [] {
      SameForItself(p', s);
      var rest := Project(q[1..], s);
      if q[0].Syn? {
        ServeAllSame(cfg, p, p', s);
        ServeAllSame(cfg, p', p', s);
        var (p1, out) := ServeAll(cfg, p);
        var (p1', out') := ServeAll(cfg, p');
        OnlyAppends(out, Output(cfg, p1, q[1..]), s);
        OnlyAppends(out', Output(cfg, p1', rest), s);
        assert ([q[0]] + rest)[1..] == rest;
        SensorsDoNotInterfere(cfg, p1, p1', q[1..], s);
      } else {
        ProcessSame(cfg, p, p', q[0], s);
        ProcessSame(cfg, p', p', q[0], s);
        if Concerns(q[0], s) {
          assert ([q[0]] + rest)[1..] == rest;
          SensorsDoNotInterfere(cfg, Process(cfg, p, q[0]), Process(cfg, p', q[0]), q[1..], s);
        } else {
          SensorsDoNotInterfere(cfg, Process(cfg, p, q[0]), p', q[1..], s);
        }
      }
    }
  }

  lemma SameForItself(p: Pending, s: Sensor)
    ensures SameFor(p, p, s)
  {
  }

  // ---------- the driver ----------

  class MagneticSensor {
    const cfg: Config
    const reader: CircularReader<InputEvent>
    var mask: seq<bool>
    var pendingEvents: seq<SensorEvent>
    var flags: seq<nat>

    ghost predicate Valid()
      reads this, reader
    {
      reader.Valid() && |mask| == 2 && |pendingEvents| == 2 && |flags| == 2
    }

    ghost function View(): Pending
      requires |mask| == 2 && |pendingEvents| == 2 && |flags| == 2
      reads this
    {
      Records(mask, pendingEvents, flags)
    }

    constructor (numEvents: nat, cfg: Config)
      requires 0 < numEvents
      ensures Valid() && fresh(reader) && fresh(reader.buffer) && reader.Unread() == [] && this.cfg == cfg
      ensures mask == [false, false] && flags == [RESTART, RESTART]
    {
      this.cfg := cfg;
      reader := new CircularReader(numEvents);
      mask := [false, false];
      pendingEvents := [SensorEvent(MagneticField, 0.0, 0.0, 0.0, ACCURACY_HIGH, 0),
                        SensorEvent(Orientation, 0.0, 0.0, 0.0, ACCURACY_HIGH, 0)];
      flags := [RESTART, RESTART];
    }

    method ProcessEvent(e: InputEvent)
      requires Valid() && (e.Abs? || e.Rel?)
      modifies this
      ensures Valid() && View() == Process(cfg, old(View()), e)
    {
      hide HeadAt, ToInt8, WithHigh, WithLow;
      match e
      case Abs(code, value) => {
        match code
        case Status(s) =>
          mask := mask[s.Index() := true];
          pendingEvents := pendingEvents[s.Index() := pendingEvents[s.Index()].(status := ToInt8(value))];
          flags := flags[s.Index() := FLAG_STATUS];
        case X(s) =>
          mask := mask[s.Index() := true];
          pendingEvents := pendingEvents[s.Index() := pendingEvents[s.Index()].(x := Scaled(cfg, s, value))];
          flags := flags[s.Index() := FLAG_X];
        case Y(s) =>
          mask := mask[s.Index() := true];
          pendingEvents := pendingEvents[s.Index() := pendingEvents[s.Index()].(y := Scaled(cfg, s, value))];
          flags := flags[s.Index() := FLAG_Y];
        case Z(s) =>
          mask := mask[s.Index() := true];
          pendingEvents := pendingEvents[s.Index() := pendingEvents[s.Index()].(z := Scaled(cfg, s, value))];
          flags := flags[s.Index() := FLAG_Z];
        case OtherAbs =>
      }
      case Rel(code, value) => {
        match code
        case Update(s) =>
          mask := mask[s.Index() := true];
        case TimestampHi(s) =>
          var event := pendingEvents[s.Index()];
          pendingEvents := pendingEvents[s.Index() := event.(timestamp := WithHigh(event.timestamp, value))];
          flags := flags[s.Index() := FLAG_HI];
        case TimestampLo(s) =>
          var event := pendingEvents[s.Index()];
          pendingEvents := pendingEvents[s.Index() := event.(timestamp := WithLow(event.timestamp, value))];
          flags := flags[s.Index() := ALL_COMPLETE];
        case OtherRel =>
      }
    }

    /** The body of the SYN loop for sensor j. */
    method ServeSensor(j: nat, data: array<SensorEvent>, at: nat) returns (n: nat)
      requires Valid() && j < 2 && at < data.Length
      modifies this, data
      ensures Valid() && View() == ServeOne(cfg, old(View()), j).0 && n == |ServeOne(cfg, old(View()), j).1|
      ensures StoredAt(old(data[..]), data[..], at, ServeOne(cfg, old(View()), j).1)
    {
      n := 0;
      if mask[j] {
        mask := mask[j := false];
        if flags[j] == ALL_COMPLETE {
          flags := flags[j := RESTART];
          if pendingEvents[j].timestamp > cfg.enabledTime[j] {
            data[at] := pendingEvents[j];
            n := 1;
            pendingEvents := pendingEvents[j := pendingEvents[j].(timestamp := 0)];
          }
        }
      }
    }

    /** The loop of a SYN: data is the output array, filled from at on, with room for count more events. */
    method ServeSyn(data: array<SensorEvent>, at: nat, count: nat) returns (n: nat)
      requires Valid() && 0 < count && at + count <= data.Length
      modifies this, data
      ensures Valid() && View() == Serve(cfg, old(View()), 0, count).0 && n == |Serve(cfg, old(View()), 0, count).1|
      ensures StoredAt(old(data[..]), data[..], at, Serve(cfg, old(View()), 0, count).1)
    {
      hide ServeOne, Serve, StoredAt, Window, HeadAt, ServesTo;
      n := 0;
      var j := 0;
      ghost var out, start := [], View();
      StoredNothing(data[..], at);
      ServesNothing(cfg, start, count);
      while n < count && (mask[0] || mask[1]) && j < 2
        invariant Valid() && j <= 2 && n == |out| <= count
        invariant StoredAt(old(data[..]), data[..], at, out)
        invariant ServesTo(cfg, start, count, out, View(), j)
        decreases 2 - j
      {
        ghost var before, p := data[..], View();
        ServesStep(cfg, start, count, out, p, j);
        var m := ServeSensor(j, data, at + n);
        StoredMore(old(data[..]), before, data[..], at, out, ServeOne(cfg, p, j).1);
        n, out := n + m, out + ServeOne(cfg, p, j).1;
        j := j + 1;
      }
      ServesEnd(cfg, start, count, out, View(), j);
    }

    /** result is what read() delivers; the return value is the number of events stored, or an error. */
    method ReadEvents(result: ReadResult<InputEvent>, data: array<SensorEvent>, at: nat, count: int) returns (ret: int)
      requires Valid() && at <= data.Length && (0 < count ==> at + count <= data.Length)
      requires result.Partial? ==> |result.written| <= reader.freeSpace
      requires result.Events? ==> |result.events| <= reader.freeSpace
      requires result.Failed? ==> 0 < result.errno
      modifies this, reader, reader.buffer, data
      ensures Valid()
      ensures count < 1 ==>
                ret == -EINVAL && View() == old(View()) &&
                reader.Unread() == old(reader.Unread()) && data[..] == old(data[..])
      ensures count >= 1 && old(reader.freeSpace) > 0 && !result.Events? ==>
                ret < 0 && View() == old(View()) && reader.Unread() == old(reader.Unread()) && data[..] == old(data[..])
      ensures count >= 1 && (old(reader.freeSpace) == 0 || result.Events?) ==>
                var q := old(reader.Unread()) + if result.Events? then result.events else [];
                var (out, p, rest) := Drain(cfg, old(View()), q, count);
                && ret == |out| && View() == p && reader.Unread() == rest
                && StoredAt(old(data[..]), data[..], at, out)
    {
      hide Handle, Drain, StoredAt, Window, HeadAt, DrainsTo;
      if count < 1 {
        return -EINVAL;
      }
      var n := reader.Fill(result);
      if n < 0 {
        return n;
      }
      ghost var q, start, out := reader.Unread(), View(), [];
      StoredNothing(data[..], at);
      DrainsNothing(cfg, start, q, count);
      var received := 0;
      var available, event := reader.ReadEvent();
      while received < count && available
        invariant Valid() && received == |out| <= count
        invariant available == (reader.Unread() != []) && (available ==> event == reader.Unread()[0])
        invariant StoredAt(old(data[..]), data[..], at, out)
        invariant DrainsTo(cfg, start, q, count, out, View(), reader.Unread())
        decreases |reader.Unread()|, count - received
      {
        ghost var before, p, unread := data[..], View(), reader.Unread();
        n := HandleEvent(event, data, at + received, count - received);
        ghost var emitted := Handle(cfg, p, unread, count - received).0;
        DrainsStep(cfg, start, q, count, out, p, unread);
        StoredMore(old(data[..]), before, data[..], at, out, emitted);
        out, received := out + emitted, received + n;
        available, event := reader.ReadEvent();
      }
      DrainsEnd(cfg, start, q, count, out, View(), reader.Unread());
      return received;
    }

    /** The body of the loop over events. */
    method HandleEvent(event: InputEvent, data: array<SensorEvent>, at: nat, room: nat) returns (n: nat)
      requires Valid() && reader.Unread() != [] && event == reader.Unread()[0]
      requires 0 < room && at + room <= data.Length
      modifies this, reader, data
      ensures Valid() && var (out, p, rest) := Handle(cfg, old(View()), old(reader.Unread()), room);
              n == |out| && View() == p && reader.Unread() == rest && StoredAt(old(data[..]), data[..], at, out)
    {
      hide Process, Serve, StoredAt, Window, HeadAt;
      n := 0;
      if event.Abs? || event.Rel? {
        ProcessEvent(event);
        reader.Next();
        StoredNothing(data[..], at);
      } else if event.Syn? {
        n := ServeSyn(data, at, room);
        if !(mask[0] || mask[1]) {
          reader.Next();
        }
      } else {
        ProcessIgnores(cfg, View(), event);
        reader.Next();
        StoredNothing(data[..], at);
      }
    }
  }

  /** One iteration: what is emitted, the records after it, and the queue, which keeps a SYN that is half served. */
  function Handle(cfg: Config, p: Pending, q: seq<InputEvent>, room: nat)
    : (res: (seq<SensorEvent>, Pending, seq<InputEvent>))
    requires q != []
    ensures |res.0| <= room
  {
    if q[0].Syn? then
      var (p1, out) := Serve(cfg, p, 0, room);
      (out, p1, if Any(p1) then q else q[1..])
    else ([], Process(cfg, p, q[0]), q[1..])
  }

  /** A SYN that started at p with room has emitted out and now stands at p' before sensor j. */
  ghost predicate ServesTo(cfg: Config, p: Pending, room: nat, out: seq<SensorEvent>, p': Pending, j: nat)
  {
    |out| <= room && j <= 2 &&
    var (p2, rest) := Serve(cfg, p', j, room - |out|);
    Serve(cfg, p, 0, room) == (p2, out + rest)
  }

  lemma ServesNothing(cfg: Config, p: Pending, room: nat)
    ensures ServesTo(cfg, p, room, [], p, 0)
  {
    assert [] + Serve(cfg, p, 0, room).1 == Serve(cfg, p, 0, room).1;
  }

  lemma ServesStep(cfg: Config, p: Pending, room: nat, out: seq<SensorEvent>, p': Pending, j: nat)
    requires ServesTo(cfg, p, room, out, p', j)
    requires |out| < room && Any(p') && j < 2
    ensures var (p1, emitted) := ServeOne(cfg, p', j);
            ServesTo(cfg, p, room, out + emitted, p1, j + 1)
  {
    hide ServeOne;
    var (p1, emitted) := ServeOne(cfg, p', j);
    var (p2, rest) := Serve(cfg, p1, j + 1, room - |out| - |emitted|);
    assert out + (emitted + rest) == (out + emitted) + rest;
  }

  lemma ServesEnd(cfg: Config, p: Pending, room: nat, out: seq<SensorEvent>, p': Pending, j: nat)
    requires ServesTo(cfg, p, room, out, p', j)
    requires |out| >= room || !Any(p') || j == 2
    ensures Serve(cfg, p, 0, room) == (p', out)
  {
    assert out + [] == out;
  }

  lemma ProcessIgnores(cfg: Config, p: Pending, e: InputEvent)
    requires e.Unknown?
    ensures Process(cfg, p, e) == p
  {
  }

  /** A call that started at (p, q, room) has emitted out and now stands at (p', q'). */
  ghost predicate DrainsTo(cfg: Config, p: Pending, q: seq<InputEvent>, room: nat, out: seq<SensorEvent>,
                           p': Pending, q': seq<InputEvent>)
  {
    |out| <= room &&
    var (rest, p2, q2) := Drain(cfg, p', q', room - |out|);
    Drain(cfg, p, q, room) == (out + rest, p2, q2)
  }

  lemma DrainsNothing(cfg: Config, p: Pending, q: seq<InputEvent>, room: nat)
    ensures DrainsTo(cfg, p, q, room, [], p, q)
  {
    assert [] + Drain(cfg, p, q, room).0 == Drain(cfg, p, q, room).0;
  }

  lemma DrainsStep(cfg: Config, p: Pending, q: seq<InputEvent>, room: nat, out: seq<SensorEvent>,
                   p': Pending, q': seq<InputEvent>)
    requires DrainsTo(cfg, p, q, room, out, p', q')
    requires |out| < room && q' != []
    ensures var (emitted, p1, q1) := Handle(cfg, p', q', room - |out|);
            DrainsTo(cfg, p, q, room, out + emitted, p1, q1) &&
            (|q1| < |q'| || (q1 == q' && |out + emitted| == room))
  {
    hide Process, Serve, ServeAll;
    var (emitted, p1, q1) := Handle(cfg, p', q', room - |out|);
    if q'[0].Syn? {
      ServeIsPrefix(cfg, p', room - |out|);
      if Any(p1) {
        assert Drain(cfg, p1, q', 0) == ([], p1, q');
        assert out + emitted == out + emitted + [];
      } else {
        var (more, p2, q2) := Drain(cfg, p1, q'[1..], room - |out| - |emitted|);
        assert out + (emitted + more) == (out + emitted) + more;
      }
    } else {
      assert out + emitted == out;
    }
  }

  lemma DrainsEnd(cfg: Config, p: Pending, q: seq<InputEvent>, room: nat, out: seq<SensorEvent>,
                  p': Pending, q': seq<InputEvent>)
    requires DrainsTo(cfg, p, q, room, out, p', q')
    requires |out| >= room || q' == []
    ensures Drain(cfg, p, q, room) == (out, p', q')
  {
    assert out + [] == out;
  }
}
