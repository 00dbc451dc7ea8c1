/**
 AccelerationSensor (sensor/Acceleration.cpp): one sensor, frames ended by SYN, and a 64-bit timestamp that the
 kernel sends in two halves, the low half last.
 */
module Acceleration {
  import opened Common
  import opened Timestamps
  import opened EventReader

  // X, Y, Z and Status are EV_ABS codes, Hi and Lo the EV_REL timestamp codes; Ignored is the update code or an
  // unknown one.  The numbers of linux/hwmsensor.h are not part of this model.
  datatype Code = X | Y | Z | Status | Hi | Lo | Ignored

  /** Syn carries the reading of elapsedRealtimeNano at the moment the driver takes it. */
  datatype InputEvent = Data(code: Code, value: int32) | Syn(time: int) | Unknown

  datatype SensorEvent = SensorEvent(x: real, y: real, z: real, status: int, timestamp: int)

  // mAllInputDataCompleteFlag
  const RESTART := 0
  const ALL_COMPLETE := 7

  function FlagOf(code: Code): nat {
    match code
    case X => 1
    case Y => 2
    case Z => 3
    case Status => 4
    case Hi => 6
    case Lo => ALL_COMPLETE
    case Ignored => RESTART
  }

  datatype Config = Config(enabled: bool, enabledTime: int, div: Divider)

  datatype Pending = Pending(event: SensorEvent, flag: nat)

  function Process(cfg: Config, p: Pending, code: Code, value: int32): Pending
  {
    match code
    case X => Pending(p.event.(x := value as real / cfg.div as real), FlagOf(code))
    case Y => Pending(p.event.(y := value as real / cfg.div as real), FlagOf(code))
    case Z => Pending(p.event.(z := value as real / cfg.div as real), FlagOf(code))
    case Status => Pending(p.event.(status := ToInt8(value)), FlagOf(code))
    case Hi => Pending(p.event.(timestamp := WithHigh(p.event.timestamp, value)), FlagOf(code))
    case Lo => Pending(p.event.(timestamp := WithLow(p.event.timestamp, value)), FlagOf(code))
    case Ignored => p
  }

  function Sync(cfg: Config, p: Pending, time: int): (res: (Pending, seq<SensorEvent>))
    ensures |res.1| <= 1
  {
    if !cfg.enabled || time < cfg.enabledTime || p.flag != ALL_COMPLETE then (p, [])
    else
      var event := if p.event.timestamp == 0 then p.event.(timestamp := time) else p.event;
      if event.timestamp > cfg.enabledTime then (Pending(event.(timestamp := 0), RESTART), [event])
      else (Pending(event, RESTART), [])
  }

  function Handle(cfg: Config, p: Pending, e: InputEvent): (res: (Pending, seq<SensorEvent>))
    ensures |res.1| <= 1
  {
    match e
    case Data(code, value) => (Process(cfg, p, code, value), [])
    case Syn(time) => Sync(cfg, p, time)
    case Unknown => (p, [])
  }

  /** One call: events are taken from the queue until room or events run out. */
  function Drain(cfg: Config, p: Pending, q: seq<InputEvent>, room: nat)
    : (res: (seq<SensorEvent>, Pending, seq<InputEvent>))
    ensures |res.0| <= room
    decreases |q|
  {
    if room == 0 || q == [] then ([], p, q)
    else
      var (p1, out) := Handle(cfg, p, q[0]);
      var (more, p2, q2) := Drain(cfg, p1, q[1..], room - |out|);
      (out + more, p2, q2)
  }

  // ---------- what the stream alone decides ----------

  function Output(cfg: Config, p: Pending, q: seq<InputEvent>): seq<SensorEvent>
    decreases |q|
  {
    if q == [] then [] else Handle(cfg, p, q[0]).1 + Output(cfg, Handle(cfg, p, q[0]).0, q[1..])
  }

  function After(cfg: Config, p: Pending, q: seq<InputEvent>): Pending
    decreases |q|
  {
    if q == [] then p else After(cfg, Handle(cfg, p, q[0]).0, q[1..])
  }

  lemma {:induction false} OutputAppends(cfg: Config, p: Pending, q: seq<InputEvent>, more: seq<InputEvent>)
    ensures Output(cfg, p, q + more) == Output(cfg, p, q) + Output(cfg, After(cfg, p, q), more)
    ensures After(cfg, p, q + more) == After(cfg, After(cfg, p, q), more)
    decreases |q|
  {
    hide Handle;
    if q == [] {
      assert q + more == more;
    } else {
      assert (q + more)[1..] == q[1..] + more;
      OutputAppends(cfg, Handle(cfg, p, q[0]).0, q[1..], more);
    }
  }

  /** One call emits the first part of the output; returning less than its room means that the reader is empty. */
  lemma {:induction false} DrainIsPrefix(cfg: Config, p: Pending, q: seq<InputEvent>, room: nat)
    ensures var (out, p', q') := Drain(cfg, p, q, room);
            && Output(cfg, p, q) == out + Output(cfg, p', q')
            && After(cfg, p', q') == After(cfg, p, q)
            && (|out| < room ==> q' == [])
    decreases |q|
  {
    hide Handle;
    if room != 0 && q != [] {
      var (p1, out) := Handle(cfg, p, q[0]);
      DrainIsPrefix(cfg, p1, q[1..], room - |out|);
      var (more, p2, q2) := Drain(cfg, p1, q[1..], room - |out|);
      assert out + (more + Output(cfg, p2, q2)) == (out + more) + Output(cfg, p2, q2);
    }
  }

  function Session(cfg: Config, p: Pending, q: seq<InputEvent>, calls: seq<Call<InputEvent>>)
    : (seq<SensorEvent>, Pending, seq<InputEvent>)
    decreases |calls|
  {
    if calls == [] then ([], p, q)
    else
      var (out, p1, q1) := Drain(cfg, p, q + calls[0].batch, calls[0].room);
      var (more, p2, q2) := Session(cfg, p1, q1, calls[1..]);
      (out + more, p2, q2)
  }

  lemma OutputOfNothing(cfg: Config, p: Pending)
    ensures Output(cfg, p, []) == []
  {
  }

  lemma {:induction false} OutputIsStreamOutput(cfg: Config, p: Pending, q: seq<InputEvent>, calls: seq<Call<InputEvent>>)
    ensures var (out, p', q') := Session(cfg, p, q, calls);
            && Output(cfg, p, q + Stream(calls)) == out + Output(cfg, p', q')
            && (q' == [] ==> out == Output(cfg, p, q + Stream(calls)))
    decreases |calls|
  {
    hide Output, After, Drain;
    OutputOfNothing(cfg, Session(cfg, p, q, calls).1);
    if calls == [] {
      assert q + [] == q && [] + Output(cfg, p, q) == Output(cfg, p, q);
    } else {
      var fed, rest := q + calls[0].batch, Stream(calls[1..]);
      var (out, p1, q1) := Drain(cfg, p, fed, calls[0].room);
      DrainIsPrefix(cfg, p, fed, calls[0].room);
      assert q + Stream(calls) == fed + rest;
      OutputAppends(cfg, p, fed, rest);
      OutputAppends(cfg, p1, q1, rest);
      OutputIsStreamOutput(cfg, p1, q1, calls[1..]);
      var (more, p2, q2) := Session(cfg, p1, q1, calls[1..]);
      ThreePieces(out, Output(cfg, p1, q1), Output(cfg, After(cfg, p, fed), rest));
      ThreePieces(out, more, Output(cfg, p2, q2));
      assert (out + more) + [] == out + more;
    }
  }

  /**
   To its caller a driver is a queue: what its reader and pending record still stand for, fed with what the batch
   adds, and read from the front as far as there is room.  Reading less than the room empties the reader.
   */
  lemma DrainIsQueueRead(cfg: Config, p: Pending, q: seq<InputEvent>, batch: seq<InputEvent>, room: nat)
    ensures var (out, p', q') := Drain(cfg, p, q + batch, room);
            && (out, Output(cfg, p', q')) ==
               ReadQueue(Output(cfg, p, q), Output(cfg, After(cfg, p, q), batch), room)
            && (|out| < room ==> q' == [])
  {
    hide Output, After, Drain;
    DrainIsPrefix(cfg, p, q + batch, room);
    OutputAppends(cfg, p, q, batch);
    OutputOfNothing(cfg, Drain(cfg, p, q + batch, room).1);
  }

  // ---------- frames ----------

  /** What the kernel sends between two SYNs, and the clock when the driver takes the second of them. */
  datatype Frame = Frame(body: seq<(Code, int32)>, time: int)

  function Encode(body: seq<(Code, int32)>): (q: seq<InputEvent>)
    ensures |q| == |body|
  {
    seq(|body|, i requires 0 <= i < |body| => Data(body[i].0, body[i].1))
  }

  /** A stream cut into frames, when body is what came since the last SYN; what follows the last SYN is no frame yet. */
  function Frames(body: seq<(Code, int32)>, q: seq<InputEvent>): seq<Frame>
    decreases |q|
  {
    if q == [] then []
    else
      match q[0]
      case Data(code, value) => Frames(body + [(code, value)], q[1..])
      case Syn(time) => [Frame(body, time)] + Frames([], q[1..])
      case Unknown => Frames(body, q[1..])
  }

  /** The last code in a body that the driver recognises. */
  function LastCode(body: seq<(Code, int32)>): Code {
    if body == [] then Ignored
    else if body[|body| - 1].0 != Ignored then body[|body| - 1].0
    else LastCode(body[..|body| - 1])
  }

  predicate EndsWithLow(body: seq<(Code, int32)>) {
    LastCode(body) == Lo
  }

  function Scaled(cfg: Config, value: Option<int32>, kept: real): real
  {
    if value.Some? then value.value as real / cfg.div as real else kept
  }

  /** Each half of a timestamp is the last one that the body has, or else the one kept. */
  function Stamp(kept: int, body: seq<(Code, int32)>): int {
    Renewed(kept, Last(body, Hi), Last(body, Lo))
  }

  /** A record with every field that the body has a value for replaced by the last such value. */
  function Carried(cfg: Config, kept: SensorEvent, body: seq<(Code, int32)>): SensorEvent
  {
    SensorEvent(Scaled(cfg, Last(body, X), kept.x), Scaled(cfg, Last(body, Y), kept.y),
                Scaled(cfg, Last(body, Z), kept.z),
                if Last(body, Status).Some? then ToInt8(Last(body, Status).value) else kept.status,
                Stamp(kept.timestamp, body))
  }

  /** Whether the low half is the latest code that the driver recognised, given whether it was before the body. */
  function Complete(before: bool, body: seq<(Code, int32)>): bool {
    if LastCode(body) == Ignored then before else EndsWithLow(body)
  }

  /** A timestamp that is zero is replaced by the clock. */
  function Dated(event: SensorEvent, time: int): SensorEvent {
    if event.timestamp == 0 then event.(timestamp := time) else event
  }

  /**
   What a stream of frames makes the sensor emit: of every frame that ends with the low half, while the sensor is
   enabled and the clock past the enable time, the record with what the stream has said last about each field,
   provided that it is newer than the enable time.
   */
  function Emitted(cfg: Config, kept: SensorEvent, before: bool, frames: seq<Frame>): seq<SensorEvent>
    decreases |frames|
  {
    if frames == [] then []
    else
      var (body, time, rest) := (frames[0].body, frames[0].time, frames[1..]);
      var (carried, complete) := (Carried(cfg, kept, body), Complete(before, body));
      if !(complete && cfg.enabled && time >= cfg.enabledTime) then Emitted(cfg, carried, complete, rest)
      else
        var event := Dated(carried, time);
        if event.timestamp > cfg.enabledTime then [event] + Emitted(cfg, event.(timestamp := 0), false, rest)
        else Emitted(cfg, event, false, rest)
  }

  lemma LastGrows(body: seq<(Code, int32)>)
    requires body != []
    ensures var (k, e) := (|body| - 1, body[|body| - 1]);
            && (forall c :: Last(body, c) == if e.0 == c then Some(e.1) else Last(body[..k], c))
            && LastCode(body) == if e.0 != Ignored then e.0 else LastCode(body[..k])
  {
  }

  lemma CarryOne(cfg: Config, kept: SensorEvent, body: seq<(Code, int32)>, flag: nat)
    requires body != []
    ensures var (k, (code, value)) := (|body| - 1, body[|body| - 1]);
            Process(cfg, Pending(Carried(cfg, kept, body[..k]), flag), code, value) ==
            Pending(Carried(cfg, kept, body), if code == Ignored then flag else FlagOf(code))
  {
    hide ToInt8, WithHigh, WithLow, Renewed, FlagOf, Last, LastCode;
    var (k, (code, value)) := (|body| - 1, body[|body| - 1]);
    LastGrows(body);
    RenewedGrows(kept.timestamp, Last(body[..k], Hi), Last(body[..k], Lo), value);
  }

  /** The events of a frame, in whatever order, replace the fields that they have values for, and emit nothing. */
  lemma {:induction false} BodyCollects(cfg: Config, p: Pending, body: seq<(Code, int32)>)
    ensures Output(cfg, p, Encode(body)) == []
    ensures After(cfg, p, Encode(body)) ==
            Pending(Carried(cfg, p.event, body), if LastCode(body) == Ignored then p.flag else FlagOf(LastCode(body)))
  {
    hide Process, Carried, FlagOf;
    if body == [] {
      NothingCarried(cfg, p.event);
    } else {
      var k := |body| - 1;
      BodyCollects(cfg, p, body[..k]);
      var last := [Data(body[k].0, body[k].1)];
      assert Encode(body) == Encode(body[..k]) + last;
      OutputAppends(cfg, p, Encode(body[..k]), last);
      var p1 := After(cfg, p, Encode(body[..k]));
      assert last[1..] == [];
      assert After(cfg, p1, last) == Process(cfg, p1, body[k].0, body[k].1);
      CarryOne(cfg, p.event, body, p1.flag);
      LastGrows(body);
    }
  }

  lemma NothingCarried(cfg: Config, kept: SensorEvent)
    ensures Carried(cfg, kept, []) == kept
  {
  }

  /** A SYN emits the pending record exactly when it is complete and, dated, newer than the enable time. */
  lemma FrameEmits(cfg: Config, p: Pending, frame: Frame)
    ensures var frames, q := [frame], Encode(frame.body) + [Syn(frame.time)];
            var (carried, complete) :=
              (Carried(cfg, p.event, frame.body), Complete(p.flag == ALL_COMPLETE, frame.body));
            var (event, due) :=
              (Dated(carried, frame.time), complete && cfg.enabled && frame.time >= cfg.enabledTime);
            var p' := After(cfg, p, q);
            && Output(cfg, p, q) == (if due && event.timestamp > cfg.enabledTime then [event] else [])
            && (p'.flag == ALL_COMPLETE <==> complete && !due)
            && p'.event == if !due then carried
                           else if event.timestamp > cfg.enabledTime then event.(timestamp := 0) else event
  {
    hide Carried, Dated, Last, LastCode;
    var p1, syn := After(cfg, p, Encode(frame.body)), [Syn(frame.time)];
    BodyCollects(cfg, p, frame.body);
    OutputAppends(cfg, p, Encode(frame.body), syn);
    assert syn[1..] == [];
    assert Output(cfg, p1, syn) == Sync(cfg, p1, frame.time).1 && After(cfg, p1, syn) == Sync(cfg, p1, frame.time).0;
    DatedIs(p1.event, frame.time);
  }

  lemma DatedIs(event: SensorEvent, time: int)
    ensures Dated(event, time) == if event.timestamp == 0 then event.(timestamp := time) else event
  {
  }

  lemma {:induction false} FramesEmitFrom(cfg: Config, p: Pending, body: seq<(Code, int32)>, q: seq<InputEvent>)
    ensures Output(cfg, After(cfg, p, Encode(body)), q) ==
            Emitted(cfg, p.event, p.flag == ALL_COMPLETE, Frames(body, q))
    decreases |q|
  {
    hide Process, Sync, Carried, Dated, Complete, Encode;
    if q != [] {
      var p1 := After(cfg, p, Encode(body));
      match q[0]
      case Data(code, value) =>
        EncodeGrows(body, code, value);
        OutputAppends(cfg, p, Encode(body), [q[0]]);
        OneEvent(cfg, p1, q[0]);
        FramesEmitFrom(cfg, p, body + [(code, value)], q[1..]);
      case Syn(time) =>
        FrameEmits(cfg, p, Frame(body, time));
        BodyCollects(cfg, p, body);
        OutputAppends(cfg, p, Encode(body), [q[0]]);
        OneEvent(cfg, p1, q[0]);
        var p2 := After(cfg, p, Encode(body) + [q[0]]);
        EncodeNothing(cfg, p2);
        FramesEmitFrom(cfg, p2, [], q[1..]);
      case Unknown =>
        FramesEmitFrom(cfg, p, body, q[1..]);
    }
  }

  lemma EncodeGrows(body: seq<(Code, int32)>, code: Code, value: int32)
    ensures Encode(body + [(code, value)]) == Encode(body) + [Data(code, value)]
  {
  }

  lemma OneEvent(cfg: Config, p: Pending, e: InputEvent)
    ensures After(cfg, p, [e]) == Handle(cfg, p, e).0 && Output(cfg, p, [e]) == Handle(cfg, p, e).1
  {
    assert [e][1..] == [];
    OutputOfNothing(cfg, Handle(cfg, p, e).0);
  }

  lemma EncodeNothing(cfg: Config, p: Pending)
    ensures After(cfg, p, Encode([])) == p
  {
    assert Encode([]) == [];
  }

  /**
   Main result.  Whatever the sensor has pending and whatever the stream holds, frames without some codes, timestamps
   of zero and clocks before the enable time included, it makes the sensor emit what is specified frame by frame.
   */
  lemma FramesAreEmitted(cfg: Config, p: Pending, q: seq<InputEvent>)
    ensures Output(cfg, p, q) == Emitted(cfg, p.event, p.flag == ALL_COMPLETE, Frames([], q))
  {
    EncodeNothing(cfg, p);
    FramesEmitFrom(cfg, p, [], q);
  }

  /** However the reads and the room of the calls cut the stream up. */
  lemma FramesAreEmittedInAnyChunks(cfg: Config, p: Pending, calls: seq<Call<InputEvent>>)
    ensures var (out, p', q') := Session(cfg, p, [], calls);
            var all := Emitted(cfg, p.event, p.flag == ALL_COMPLETE, Frames([], Stream(calls)));
            out <= all && (q' == [] ==> out == all)
  {
    FramesAreEmitted(cfg, p, Stream(calls));
    OutputIsStreamOutput(cfg, p, [], calls);
    assert [] + Stream(calls) == Stream(calls);
  }

  // ---------- what an emitted record holds ----------

  function Bodies(frames: seq<Frame>): seq<(Code, int32)> {
    if frames == [] then [] else frames[0].body + Bodies(frames[1..])
  }

  function Sample(event: SensorEvent): SensorEvent {
    event.(timestamp := 0)
  }

  lemma SampleCarries(cfg: Config, kept: SensorEvent, kept': SensorEvent, a: seq<(Code, int32)>,
                      b: seq<(Code, int32)>)
    requires Sample(kept') == Sample(Carried(cfg, kept, a))
    ensures Sample(Carried(cfg, kept', b)) == Sample(Carried(cfg, kept, a + b))
  {
    hide Last, ToInt8, Stamp;
    forall code: Code
      ensures Last(a + b, code) == if Last(b, code).Some? then Last(b, code) else Last(a, code)
    {
      LastAppends(a, b, code);
    }
  }

  /** The sample in a record is the latest in the stream up to and including frame number k. */
  ghost predicate LatestAt(cfg: Config, kept: SensorEvent, frames: seq<Frame>, k: nat, event: SensorEvent)
  {
    0 < k <= |frames| && Sample(event) == Sample(Carried(cfg, kept, Bodies(frames[..k])))
  }

  /** Record i is emitted by frame number k, and holds the latest sample up to and including that frame. */
  lemma {:induction false} EmittedSampleIsLatest(cfg: Config, kept: SensorEvent, before: bool, frames: seq<Frame>,
                                                 i: nat) returns (k: nat)
    requires i < |Emitted(cfg, kept, before, frames)|
    ensures LatestAt(cfg, kept, frames, k, Emitted(cfg, kept, before, frames)[i])
    ensures |Emitted(cfg, kept, before, frames[..k - 1])| == i && |Emitted(cfg, kept, before, frames[..k])| == i + 1
    decreases |frames|
  {
    hide Carried, Complete;
    var (body, time, rest) := (frames[0].body, frames[0].time, frames[1..]);
    var (carried, complete) := (Carried(cfg, kept, body), Complete(before, body));
    var event := Dated(carried, time);
    var due := complete && cfg.enabled && time >= cfg.enabledTime;
    var out := due && event.timestamp > cfg.enabledTime;
    if out && i == 0 {
      assert Bodies(frames[..1]) == body by {
        assert frames[..1][1..] == [] && body + [] == body;
      }
      return 1;
    }
    var kept' := if !due then carried else if out then event.(timestamp := 0) else event;
    var k' := EmittedSampleIsLatest(cfg, kept', !due && complete, rest, if out then i - 1 else i);
    assert frames[..k' + 1][1..] == rest[..k'] && frames[..k'][1..] == rest[..k' - 1];
    SampleCarries(cfg, kept, kept', body, Bodies(rest[..k']));
    return k' + 1;
  }

  // ---------- frames that say everything ----------

  predicate SaysAll(body: seq<(Code, int32)>) {
    && Last(body, X).Some? && Last(body, Y).Some? && Last(body, Z).Some? && Last(body, Status).Some?
    && Last(body, Hi).Some? && Last(body, Lo).Some?
  }

  function EventOf(cfg: Config, body: seq<(Code, int32)>): SensorEvent
    requires SaysAll(body)
  {
    SensorEvent(Last(body, X).value as real / cfg.div as real, Last(body, Y).value as real / cfg.div as real,
                Last(body, Z).value as real / cfg.div as real, ToInt8(Last(body, Status).value),
                Join(Last(body, Hi).value, Last(body, Lo).value))
  }

  /** The pending record after a frame is independent of the frames before it exactly when the frame has all codes. */
  lemma CarriedStandsAloneIff(cfg: Config, body: seq<(Code, int32)>)
    ensures (forall a, b :: Carried(cfg, a, body) == Carried(cfg, b, body)) <==> SaysAll(body)
    ensures SaysAll(body) ==> forall a :: Carried(cfg, a, body) == EventOf(cfg, body)
  {
    hide Last, ToInt8;
    if !SaysAll(body) {
      var a, b := SensorEvent(0.0, 0.0, 0.0, 0, 0), SensorEvent(1.0, 1.0, 1.0, 1, HALF + 1);
      RenewedHalves(a.timestamp, Last(body, Hi), Last(body, Lo));
      RenewedHalves(b.timestamp, Last(body, Hi), Last(body, Lo));
      assert (HALF + 1) / HALF == 1 && (HALF + 1) % HALF == 1;
      assert Carried(cfg, a, body) != Carried(cfg, b, body);
    }
  }

  function FrameOut(cfg: Config, p: Pending, frame: Frame): seq<SensorEvent>
  {
    Output(cfg, p, Encode(frame.body) + [Syn(frame.time)])
  }

  /** A frame that emits nothing, whatever was before: the sensor is off, the clock early, or the frame cut. */
  predicate Silent(cfg: Config, frame: Frame) {
    !cfg.enabled || frame.time < cfg.enabledTime || (LastCode(frame.body) != Lo && LastCode(frame.body) != Ignored)
  }

  /** A frame with a timestamp of its own that has all codes, or is too old to be emitted. */
  predicate SelfContained(cfg: Config, frame: Frame) {
    var stamp := Stamp(0, frame.body);
    && EndsWithLow(frame.body) && Last(frame.body, Hi).Some?
    && (SaysAll(frame.body) || (if stamp == 0 then frame.time else stamp) <= cfg.enabledTime)
  }

  lemma {:induction false} LowIsThere(body: seq<(Code, int32)>)
    ensures EndsWithLow(body) ==> Last(body, Lo).Some?
    ensures LastCode(body) == Ignored ==> Last(body, Hi).None? && Last(body, Lo).None?
  {
    if body != [] {
      LowIsThere(body[..|body| - 1]);
    }
  }

  /** What a frame emits, as FrameEmits says. */
  lemma FrameOutIs(cfg: Config, p: Pending, frame: Frame)
    ensures var event := Dated(Carried(cfg, p.event, frame.body), frame.time);
            FrameOut(cfg, p, frame) ==
            if Complete(p.flag == ALL_COMPLETE, frame.body) && cfg.enabled && frame.time >= cfg.enabledTime &&
               event.timestamp > cfg.enabledTime
            then [event] else []
  {
    hide Carried, Dated, Complete, Encode, Output;
    FrameEmits(cfg, p, frame);
  }

  /** A pending record that makes a frame with an incomplete timestamp newer than the enable time. */
  lemma NewerRecord(cfg: Config, event: SensorEvent, high: int, frame: Frame)
    requires high > 0 && high > cfg.enabledTime && Last(frame.body, Hi).None?
    ensures var dated := Dated(Carried(cfg, event.(timestamp := high * HALF), frame.body), frame.time);
            dated.timestamp > cfg.enabledTime && dated.timestamp / HALF == high
  {
    hide Last, ToInt8;
    assert (high * HALF) / HALF == high;
    RenewedHalves(high * HALF, Last(frame.body, Hi), Last(frame.body, Lo));
  }

  lemma StandsAloneOnlyIf(cfg: Config, frame: Frame) returns (p: Pending, p': Pending)
    requires !Silent(cfg, frame) && !SelfContained(cfg, frame)
    ensures FrameOut(cfg, p, frame) != FrameOut(cfg, p', frame)
  {
    hide FrameOut, Carried, Last, LastCode;
    var zero := SensorEvent(0.0, 0.0, 0.0, 0, 0);
    LowIsThere(frame.body);
    if Last(frame.body, Hi).None? {
      var high := if cfg.enabledTime < 0 then 1 else cfg.enabledTime + 1;
      p := Pending(zero.(timestamp := high * HALF), ALL_COMPLETE);
      p' := Pending(zero.(timestamp := (high + 1) * HALF), ALL_COMPLETE);
      NewerRecord(cfg, zero, high, frame);
      NewerRecord(cfg, zero, high + 1, frame);
    } else {
      p, p' := Pending(zero, ALL_COMPLETE), Pending(SensorEvent(1.0, 1.0, 1.0, 1, 0), ALL_COMPLETE);
      CarriedDiffers(cfg, p.event, p'.event, frame.body);
    }
    FrameOutIs(cfg, p, frame);
    FrameOutIs(cfg, p', frame);
  }

  /** With a timestamp of its own, a frame that lacks a code shows the sample before it. */
  lemma CarriedDiffers(cfg: Config, a: SensorEvent, b: SensorEvent, body: seq<(Code, int32)>)
    requires a.x != b.x && a.y != b.y && a.z != b.z && a.status != b.status
    requires Last(body, Hi).Some? && Last(body, Lo).Some?
    ensures Carried(cfg, a, body).timestamp == Carried(cfg, b, body).timestamp == Stamp(0, body)
    ensures Sample(Carried(cfg, a, body)) == Sample(Carried(cfg, b, body)) <==> SaysAll(body)
  {
    hide Last, ToInt8;
  }

  /**
   What a frame emits is independent of everything before it exactly when it is silent or self-contained.  Both are
   conditions on the frame and the enable time alone.
   */
  lemma FrameStandsAloneIff(cfg: Config, frame: Frame)
    ensures (forall p, p' :: FrameOut(cfg, p, frame) == FrameOut(cfg, p', frame)) <==>
            Silent(cfg, frame) || SelfContained(cfg, frame)
  {
    hide FrameOut, Carried, Last, LastCode;
    if Silent(cfg, frame) || SelfContained(cfg, frame) {
      forall p, p'
        ensures FrameOut(cfg, p, frame) == FrameOut(cfg, p', frame)
      {
        FrameOutIs(cfg, p, frame);
        FrameOutIs(cfg, p', frame);
        CarriedAgrees(cfg, p.event, p'.event, frame.body);
      }
    } else {
      var p, p' := StandsAloneOnlyIf(cfg, frame);
    }
  }

  lemma CarriedAgrees(cfg: Config, a: SensorEvent, b: SensorEvent, body: seq<(Code, int32)>)
    ensures EndsWithLow(body) && Last(body, Hi).Some? ==>
              Carried(cfg, a, body).timestamp == Carried(cfg, b, body).timestamp == Stamp(0, body)
    ensures SaysAll(body) ==> Carried(cfg, a, body) == Carried(cfg, b, body)
  {
    hide Last, LastCode, ToInt8;
    LowIsThere(body);
  }

  lemma NothingSaid()
    ensures LastCode([]) == Ignored && forall code :: Last<Code, int32>([], code) == None
  {
  }

  /** A frame of two halves and nothing else: it is emitted with the sample of the frame before. */
  lemma HalfFrameRepeatsSample()
    ensures var cfg, rest := Config(true, 5, 1), SensorEvent(0.0, 0.0, 0.0, 3, 0);
            Emitted(cfg, rest, false, [Frame([(X, 7), (Hi, 0), (Lo, 8)], 10), Frame([(Hi, 0), (Lo, 9)], 11)]) ==
            [SensorEvent(7.0, 0.0, 0.0, 3, 8), SensorEvent(7.0, 0.0, 0.0, 3, 9)]
  {
    var cfg, rest := Config(true, 5, 1), SensorEvent(0.0, 0.0, 0.0, 3, 0);
    var one, two := [(X, 7), (Hi, 0), (Lo, 8)], [(Hi, 0), (Lo, 9)];
    hide Last, LastCode;
    NothingSaid();
    LastGrows(one);
    assert one[..2] == [(X, 7), (Hi, 0)] && one[..2][..1] == [(X, 7)] && [(X, 7)][..0] == [];
    LastGrows(one[..2]);
    LastGrows([(X, 7)]);
    LastGrows(two);
    assert two[..1] == [(Hi, 0)] && [(Hi, 0)][..0] == [];
    LastGrows([(Hi, 0)]);
    assert Carried(cfg, rest, one) == SensorEvent(7.0, 0.0, 0.0, 3, 8);
  }

  /** The output of frames that say everything or are cut: the full ones that are newer than the enable time. */
  function FrameOutput(cfg: Config, frames: seq<Frame>): seq<SensorEvent>
  {
    if frames == [] then []
    else
      var body := frames[0].body;
      (if SaysAll(body) && EndsWithLow(body) && EventOf(cfg, body).timestamp > cfg.enabledTime
       then [EventOf(cfg, body)] else [])
      + FrameOutput(cfg, frames[1..])
  }

  predicate WellFormed(cfg: Config, frame: Frame)
  {
    frame.time >= cfg.enabledTime &&
    (EndsWithLow(frame.body) ==> SaysAll(frame.body) && EventOf(cfg, frame.body).timestamp != 0)
  }

  /**
   So a stream of frames each of which says everything or is cut before the low half makes the sensor emit exactly
   the full ones newer than the enable time, with the timestamp rebuilt from its halves.
   */
  lemma {:induction false} FullFramesAreEmitted(cfg: Config, kept: SensorEvent, frames: seq<Frame>)
    requires cfg.enabled && forall frame <- frames :: WellFormed(cfg, frame)
    ensures Emitted(cfg, kept, false, frames) == FrameOutput(cfg, frames)
    decreases |frames|
  {
    hide Carried, EventOf, SaysAll;
    if frames != [] {
      var frame := frames[0];
      assert frame in frames;
      CarriedStandsAloneIff(cfg, frame.body);
      var carried := Carried(cfg, kept, frame.body);
      FullFramesAreEmitted(cfg, carried, frames[1..]);
      FullFramesAreEmitted(cfg, carried.(timestamp := 0), frames[1..]);
    }
  }

  // ---------- the driver ----------

  class AccelerationSensor {
    const cfg: Config
    const reader: CircularReader<InputEvent>
    var pendingEvent: SensorEvent
    var flag: nat

    ghost predicate Valid()
      reads this, reader
    {
      reader.Valid()
    }

    ghost function View(): Pending
      reads this
    {
      Pending(pendingEvent, flag)
    }

    constructor (numEvents: nat, cfg: Config)
      requires 0 < numEvents
      ensures Valid() && fresh(reader) && fresh(reader.buffer) && reader.Unread() == [] && this.cfg == cfg
      ensures flag == RESTART
    {
      this.cfg := cfg;
      reader := new CircularReader(numEvents);
      pendingEvent := SensorEvent(0.0, 0.0, 0.0, 3, 0);
      flag := RESTART;
    }

    method ProcessEvent(code: Code, value: int32)
      requires Valid()
      modifies this
      ensures Valid() && View() == Process(cfg, old(View()), code, value)
    {
      hide ToInt8, WithHigh, WithLow, HeadAt;
      match code
      case X =>
        pendingEvent := pendingEvent.(x := value as real / cfg.div as real);
        flag := FlagOf(code);
      case Y =>
        pendingEvent := pendingEvent.(y := value as real / cfg.div as real);
        flag := FlagOf(code);
      case Z =>
        pendingEvent := pendingEvent.(z := value as real / cfg.div as real);
        flag := FlagOf(code);
      case Status =>
        pendingEvent := pendingEvent.(status := ToInt8(value));
        flag := FlagOf(code);
      case Hi =>
        pendingEvent := pendingEvent.(timestamp := WithHigh(pendingEvent.timestamp, value));
        flag := FlagOf(code);
      case Lo =>
        pendingEvent := pendingEvent.(timestamp := WithLow(pendingEvent.timestamp, value));
        flag := FlagOf(code);
      case Ignored =>
    }

    /** The body of the loop over events; data is filled from index at on. */
    method HandleEvent(event: InputEvent, data: array<SensorEvent>, at: nat) returns (n: nat)
      requires Valid() && reader.Unread() != [] && event == reader.Unread()[0] && at < data.Length
      modifies this, reader, data
      ensures Valid() && reader.Unread() == old(reader.Unread())[1..]
      ensures var (p, out) := Handle(cfg, old(View()), event);
              View() == p && n == |out| && StoredAt(old(data[..]), data[..], at, out)
    {
      hide Process, Window, HeadAt;
      n := 0;
      if event.Data? {
        ProcessEvent(event.code, event.value);
      } else if event.Syn? {
        if cfg.enabled {
          if event.time >= cfg.enabledTime {
            if flag == ALL_COMPLETE {
              flag := RESTART;
              if pendingEvent.timestamp == 0 {
                pendingEvent := pendingEvent.(timestamp := event.time);
              }
              if pendingEvent.timestamp > cfg.enabledTime {
                data[at] := pendingEvent;
                n := 1;
                pendingEvent := pendingEvent.(timestamp := 0);
              }
            }
          }
        }
      }
      reader.Next();
    }

    /** result is what read() delivers; the return value is the number of events stored, or an error. */
    method ReadEvents(result: ReadResult<InputEvent>, data: array<SensorEvent>, at: nat, count: int) returns (ret: int)
      requires Valid() && at <= data.Length && (0 < count ==> at + count <= data.Length)
      requires result.Partial? ==> |result.written| <= reader.freeSpace
      requires result.Events? ==> |result.events| <= reader.freeSpace
      requires result.Failed? ==> 0 < result.errno
      modifies this, reader, reader.buffer, data
      ensures Valid()
      ensures count < 1 ==>
                ret == -EINVAL && View() == old(View()) &&
                reader.Unread() == old(reader.Unread()) && data[..] == old(data[..])
      ensures count >= 1 && old(reader.freeSpace) > 0 && !result.Events? ==>
                ret < 0 && View() == old(View()) && reader.Unread() == old(reader.Unread()) && data[..] == old(data[..])
      ensures count >= 1 && (old(reader.freeSpace) == 0 || result.Events?) ==>
                var q := old(reader.Unread()) + if result.Events? then result.events else [];
                var (out, p, rest) := Drain(cfg, old(View()), q, count);
                && ret == |out| && View() == p && reader.Unread() == rest
                && StoredAt(old(data[..]), data[..], at, out)
    {
      hide Handle, Drain, StoredAt, Window, HeadAt, DrainsTo;
      if count < 1 {
        return -EINVAL;
      }
      var n := reader.Fill(result);
      if n < 0 {
        return n;
      }
      ghost var q, start, out := reader.Unread(), View(), [];
      StoredNothing(data[..], at);
      DrainsNothing(cfg, start, q, count);
      var received := 0;
      var available, event := reader.ReadEvent();
      while received < count && available
        invariant Valid() && received == |out| <= count
        invariant available == (reader.Unread() != []) && (available ==> event == reader.Unread()[0])
        invariant StoredAt(old(data[..]), data[..], at, out)
        invariant DrainsTo(cfg, start, q, count, out, View(), reader.Unread())
        decreases |reader.Unread()|
      {
        ghost var before, p, unread := data[..], View(), reader.Unread();
        n := HandleEvent(event, data, at + received);
        DrainsStep(cfg, start, q, count, out, p, unread);
        StoredMore(old(data[..]), before, data[..], at, out, Handle(cfg, p, unread[0]).1);
        out, received := out + Handle(cfg, p, unread[0]).1, received + n;
        available, event := reader.ReadEvent();
      }
      DrainsEnd(cfg, start, q, count, out, View(), reader.Unread());
      return received;
    }
  }

  /** A call that started at (p, q, room) has emitted out and now stands at (p', q'). */
  ghost predicate DrainsTo(cfg: Config, p: Pending, q: seq<InputEvent>, room: nat, out: seq<SensorEvent>,
                           p': Pending, q': seq<InputEvent>)
  {
    |out| <= room &&
    var (rest, p2, q2) := Drain(cfg, p', q', room - |out|);
    Drain(cfg, p, q, room) == (out + rest, p2, q2)
  }

  lemma DrainsNothing(cfg: Config, p: Pending, q: seq<InputEvent>, room: nat)
    ensures DrainsTo(cfg, p, q, room, [], p, q)
  {
    assert [] + Drain(cfg, p, q, room).0 == Drain(cfg, p, q, room).0;
  }

  lemma DrainsStep(cfg: Config, p: Pending, q: seq<InputEvent>, room: nat, out: seq<SensorEvent>,
                   p': Pending, q': seq<InputEvent>)
    requires DrainsTo(cfg, p, q, room, out, p', q') && |out| < room && q' != []
    ensures var (p1, emitted) := Handle(cfg, p', q'[0]);
            DrainsTo(cfg, p, q, room, out + emitted, p1, q'[1..])
  {
    hide Handle;
    var (p1, emitted) := Handle(cfg, p', q'[0]);
    var (more, p2, q2) := Drain(cfg, p1, q'[1..], room - |out| - |emitted|);
    assert out + (emitted + more) == (out + emitted) + more;
  }

  lemma DrainsEnd(cfg: Config, p: Pending, q: seq<InputEvent>, room: nat, out: seq<SensorEvent>,
                  p': Pending, q': seq<InputEvent>)
    requires DrainsTo(cfg, p, q, room, out, p', q')
    requires |out| >= room || q' == []
    ensures Drain(cfg, p, q, room) == (out, p', q')
  {
    assert out + [] == out;
  }
}
