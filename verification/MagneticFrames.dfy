/**
 What one of the two sensors of Magnetic makes of the kernel stream, frame by frame: which SYNs emit an event for it,
 and what is in it.
 */
module MagneticFrames {
  import opened Common
  import opened Timestamps
  import opened EventReader
  import opened Magnetic

  /** What an event says about a sensor; SaysUpdate marks it without a value. */
  datatype Code = SaysX | SaysY | SaysZ | SaysStatus | SaysHi | SaysLo | SaysUpdate

  type Body = seq<(Code, int32)>

  function Said(e: InputEvent, s: Sensor): Option<(Code, int32)> {
    match e
    case Abs(code, value) => (
      match code
      case Status(of) => if of == s then Some((SaysStatus, value)) else None
      case X(of) => if of == s then Some((SaysX, value)) else None
      case Y(of) => if of == s then Some((SaysY, value)) else None
      case Z(of) => if of == s then Some((SaysZ, value)) else None
      case OtherAbs => None)
    case Rel(code, value) => (
      match code
      case Update(of) => if of == s then Some((SaysUpdate, value)) else None
      case TimestampHi(of) => if of == s then Some((SaysHi, value)) else None
      case TimestampLo(of) => if of == s then Some((SaysLo, value)) else None
      case OtherRel => None)
    case _ => None
  }

  /** What one sensor has pending: its record, its bit of the mask, and whether the low half came last. */
  datatype One = One(event: SensorEvent, marked: bool, complete: bool)

  function Of(p: Pending, s: Sensor): One
  {
    One(p.events[s.Index()], p.mask[s.Index()], p.flags[s.Index()] == ALL_COMPLETE)
  }

  // ---------- the specification ----------

  /** What the stream says about a sensor between two SYNs; what follows the last SYN is no frame yet. */
  function Frames(s: Sensor, body: Body, q: seq<InputEvent>): seq<Body>
    decreases |q|
  {
    if q == [] then []
    else if q[0].Syn? then [body] + Frames(s, [], q[1..])
    else if Said(q[0], s).Some? then Frames(s, body + [Said(q[0], s).value], q[1..])
    else Frames(s, body, q[1..])
  }

  /** The place of a sensor in the tables of dividers and enable times. */
  function Place(s: Sensor): nat {
    if s == MagneticField then 0 else 1
  }

  function Value(cfg: Config, s: Sensor, said: Option<int32>, kept: real): real
  {
    if said.Some? then said.value as real / cfg.div[Place(s)] as real else kept
  }

  /** The record with every field that the body has a value for replaced by the last such value. */
  function Carried(cfg: Config, s: Sensor, kept: SensorEvent, body: Body): SensorEvent
  {
    SensorEvent(kept.sensor, Value(cfg, s, Last(body, SaysX), kept.x), Value(cfg, s, Last(body, SaysY), kept.y),
                Value(cfg, s, Last(body, SaysZ), kept.z),
                if Last(body, SaysStatus).Some? then ToInt8(Last(body, SaysStatus).value) else kept.status,
                Renewed(kept.timestamp, Last(body, SaysHi), Last(body, SaysLo)))
  }

  /** The halves of a timestamp do not mark the sensor; everything else does. */
  predicate Marks(body: Body) {
    exists i :: 0 <= i < |body| && body[i].0 != SaysHi && body[i].0 != SaysLo
  }

  /** Whether the low half came last, updates aside. */
  predicate Complete(before: bool, body: Body) {
    if body == [] then before
    else if body[|body| - 1].0 == SaysUpdate then Complete(before, body[..|body| - 1])
    else body[|body| - 1].0 == SaysLo
  }

  /**
   What the frames make a sensor emit: of every frame at whose SYN it is marked and the low half came last, the record
   with what has been said last about each field, provided that it is newer than the enable time.
   */
  function Emitted(cfg: Config, s: Sensor, kept: SensorEvent, marked: bool, before: bool, frames: seq<Body>)
    : seq<SensorEvent>
    decreases |frames|
  {
    if frames == [] then []
    else
      var (body, rest) := (frames[0], frames[1..]);
      var (event, complete) := (Carried(cfg, s, kept, body), Complete(before, body));
      if !(marked || Marks(body)) then Emitted(cfg, s, event, false, complete, rest)
      else if !complete then Emitted(cfg, s, event, false, false, rest)
      else if event.timestamp > cfg.enabledTime[Place(s)]
      then [event] + Emitted(cfg, s, event.(timestamp := 0), false, false, rest)
      else Emitted(cfg, s, event, false, false, rest)
  }

  // ---------- one event ----------

  function Told(cfg: Config, s: Sensor, o: One, code: Code, value: int32): One
  {
    var event := o.event;
    match code
    case SaysX => One(event.(x := Scaled(cfg, s, value)), true, false)
    case SaysY => One(event.(y := Scaled(cfg, s, value)), true, false)
    case SaysZ => One(event.(z := Scaled(cfg, s, value)), true, false)
    case SaysStatus => One(event.(status := ToInt8(value)), true, false)
    case SaysHi => One(event.(timestamp := WithHigh(event.timestamp, value)), o.marked, false)
    case SaysLo => One(event.(timestamp := WithLow(event.timestamp, value)), o.marked, true)
    case SaysUpdate => o.(marked := true)
  }

  lemma AbsTells(cfg: Config, p: Pending, e: InputEvent, s: Sensor)
    requires e.Abs?
    ensures Of(Process(cfg, p, e), s) ==
            if Said(e, s).Some? then Told(cfg, s, Of(p, s), Said(e, s).value.0, Said(e, s).value.1) else Of(p, s)
  {
    hide ToInt8, WithHigh, WithLow, Scaled;
  }

  lemma RelTells(cfg: Config, p: Pending, e: InputEvent, s: Sensor)
    requires e.Rel?
    ensures Of(Process(cfg, p, e), s) ==
            if Said(e, s).Some? then Told(cfg, s, Of(p, s), Said(e, s).value.0, Said(e, s).value.1) else Of(p, s)
  {
    hide ToInt8, WithHigh, WithLow, Scaled;
  }

  lemma ProcessOther(cfg: Config, p: Pending, e: InputEvent)
    requires !e.Abs? && !e.Rel?
    ensures Process(cfg, p, e) == p
  {
  }

  lemma ProcessTells(cfg: Config, p: Pending, e: InputEvent, s: Sensor)
    ensures Of(Process(cfg, p, e), s) ==
            if Said(e, s).Some? then Told(cfg, s, Of(p, s), Said(e, s).value.0, Said(e, s).value.1) else Of(p, s)
  {
    hide Process, Of, Told;
    match e
    case Abs(code, value) => AbsTells(cfg, p, e, s);
    case Rel(code, value) => RelTells(cfg, p, e, s);
    case _ => ProcessOther(cfg, p, e);
  }

  lemma ProcessKeepsTags(cfg: Config, p: Pending, e: InputEvent)
    requires Tagged(p)
    ensures Tagged(Process(cfg, p, e))
  {
    hide ToInt8, WithHigh, WithLow, Scaled;
  }

  /** What a SYN does for one sensor. */
  function Synced(cfg: Config, s: Sensor, o: One): (One, seq<SensorEvent>)
  {
    if !o.marked then (o, [])
    else if !o.complete then (o.(marked := false), [])
    else if o.event.timestamp > cfg.enabledTime[s.Index()] then (One(o.event.(timestamp := 0), false, false), [o.event])
    else (One(o.event, false, false), [])
  }

  lemma ServeOneSyncs(cfg: Config, p: Pending, j: nat, s: Sensor)
    requires Tagged(p) && j < 2
    ensures var (p', out) := ServeOne(cfg, p, j);
            var (o, emitted) := Synced(cfg, s, Of(p, s));
            && Tagged(p')
            && (j == s.Index() ==> Of(p', s) == o && Only(out, s) == emitted)
            && (j != s.Index() ==> Of(p', s) == Of(p, s) && Only(out, s) == [])
  {
    assert p.events[j].sensor == if j == 0 then MagneticField else Orientation;
  }

  lemma ServeAllSyncs(cfg: Config, p: Pending, s: Sensor)
    requires Tagged(p)
    ensures var (p', out) := ServeAll(cfg, p);
            var (o, emitted) := Synced(cfg, s, Of(p, s));
            Tagged(p') && Of(p', s) == o && Only(out, s) == emitted
  {
    hide ServeOne, Synced, Of, Tagged, Only;
    var (p1, out) := ServeOne(cfg, p, 0);
    ServeOneSyncs(cfg, p, 0, s);
    ServeOneSyncs(cfg, p1, 1, s);
    OnlyAppends(out, ServeOne(cfg, p1, 1).1, s);
  }

  // ---------- one frame ----------

  /** The pending state of a sensor after a body. */
  function ToldAll(cfg: Config, s: Sensor, o: One, body: Body): One
  {
    One(Carried(cfg, s, o.event, body), o.marked || Marks(body), Complete(o.complete, body))
  }

  lemma LastGrows(body: Body, said: (Code, int32))
    ensures forall c :: Last(body + [said], c) == if said.0 == c then Some(said.1) else Last(body, c)
  {
    assert (body + [said])[..|body|] == body;
  }

  lemma MarksGrows(body: Body, said: (Code, int32))
    ensures Marks(body + [said]) <==> Marks(body) || (said.0 != SaysHi && said.0 != SaysLo)
  {
    var grown := body + [said];
    assert forall i :: 0 <= i < |body| ==> grown[i] == body[i];
    assert grown[|body|] == said;
  }

  lemma CompleteGrows(before: bool, body: Body, said: (Code, int32))
    ensures Complete(before, body + [said]) ==
            if said.0 == SaysUpdate then Complete(before, body) else said.0 == SaysLo
  {
    assert (body + [said])[..|body|] == body;
  }

  lemma ToldGrows(cfg: Config, s: Sensor, o: One, body: Body, said: (Code, int32))
    ensures Told(cfg, s, ToldAll(cfg, s, o, body), said.0, said.1) == ToldAll(cfg, s, o, body + [said])
  {
    hide Last, ToInt8, WithHigh, WithLow, Renewed, Marks, Complete;
    LastGrows(body, said);
    MarksGrows(body, said);
    CompleteGrows(o.complete, body, said);
    RenewedGrows(o.event.timestamp, Last(body, SaysHi), Last(body, SaysLo), said.1);
  }

  lemma ToldNothing(cfg: Config, s: Sensor, o: One)
    ensures ToldAll(cfg, s, o, []) == o
  {
    RenewedGrows(o.event.timestamp, None, None, 0);
  }

  lemma EmittedNext(cfg: Config, s: Sensor, o: One, frames: seq<Body>)
    requires frames != []
    ensures var (o', out) := Synced(cfg, s, ToldAll(cfg, s, o, frames[0]));
            Emitted(cfg, s, o.event, o.marked, o.complete, frames) ==
            out + Emitted(cfg, s, o'.event, o'.marked, o'.complete, frames[1..])
  {
    hide Carried, Marks, Complete;
    var (o', out) := Synced(cfg, s, ToldAll(cfg, s, o, frames[0]));
    assert [] + Emitted(cfg, s, o'.event, o'.marked, o'.complete, frames[1..]) ==
           Emitted(cfg, s, o'.event, o'.marked, o'.complete, frames[1..]);
  }

  // ---------- streams ----------

  lemma {:induction false} FramesEmitFrom(cfg: Config, p: Pending, s: Sensor, o: One, body: Body, q: seq<InputEvent>)
    requires Tagged(p) && Of(p, s) == ToldAll(cfg, s, o, body)
    ensures Only(Output(cfg, p, q), s) == Emitted(cfg, s, o.event, o.marked, o.complete, Frames(s, body, q))
    decreases |q|
  {
    hide Process, ServeAll, Of, Tagged, ToldAll, Told, Synced, Said, Emitted;
    if q == [] {
      NoFrames(cfg, s, o);
    } else if q[0].Syn? {
      var (p1, out) := ServeAll(cfg, p);
      ServeAllSyncs(cfg, p, s);
      OnlyAppends(out, Output(cfg, p1, q[1..]), s);
      var o1 := Of(p1, s);
      ToldNothing(cfg, s, o1);
      FramesEmitFrom(cfg, p1, s, o1, [], q[1..]);
      EmittedNext(cfg, s, o, [body] + Frames(s, [], q[1..]));
    } else {
      ProcessTells(cfg, p, q[0], s);
      ProcessKeepsTags(cfg, p, q[0]);
      if Said(q[0], s).Some? {
        ToldGrows(cfg, s, o, body, Said(q[0], s).value);
        FramesEmitFrom(cfg, Process(cfg, p, q[0]), s, o, body + [Said(q[0], s).value], q[1..]);
      } else {
        FramesEmitFrom(cfg, Process(cfg, p, q[0]), s, o, body, q[1..]);
      }
    }
  }

  lemma NoFrames(cfg: Config, s: Sensor, o: One)
    ensures Emitted(cfg, s, o.event, o.marked, o.complete, []) == []
  {
  }

  /**
   Main result.  From any pending records and on any stream, mixed with the other sensor's events and with unknown ones
   in any way, a sensor emits what is specified frame by frame.
   */
  lemma SensorEmitsFrames(cfg: Config, p: Pending, q: seq<InputEvent>, s: Sensor)
    requires Tagged(p)
    ensures var o := Of(p, s);
            Only(Output(cfg, p, q), s) == Emitted(cfg, s, o.event, o.marked, o.complete, Frames(s, [], q))
  {
    ToldNothing(cfg, s, Of(p, s));
    FramesEmitFrom(cfg, p, s, Of(p, s), [], q);
  }

  /** However the reads and the room of the calls cut the stream up, SYNs that are half served included. */
  lemma SensorEmitsFramesInAnyChunks(cfg: Config, p: Pending, calls: seq<Call<InputEvent>>, s: Sensor)
    requires Tagged(p)
    ensures var (out, p', q') := Session(cfg, p, [], calls);
            var o := Of(p, s);
            var all := Emitted(cfg, s, o.event, o.marked, o.complete, Frames(s, [], Stream(calls)));
            Only(out, s) <= all && (q' == [] ==> Only(out, s) == all)
  {
    hide Output, Session, Emitted, Frames, Of;
    SensorEmitsFrames(cfg, p, Stream(calls), s);
    OutputIsStreamOutput(cfg, p, [], calls);
    assert [] + Stream(calls) == Stream(calls);
    var (out, p', q') := Session(cfg, p, [], calls);
    OnlyAppends(out, Output(cfg, p', q'), s);
  }

  /** The timestamp may come a frame before the mark: the record is then emitted at the later SYN. */
  lemma LateMarkEmits(cfg: Config, s: Sensor, kept: SensorEvent, hi: int32, lo: int32, value: int32)
    requires Join(hi, lo) > cfg.enabledTime[Place(s)]
    ensures Emitted(cfg, s, kept, false, false, [[(SaysHi, hi), (SaysLo, lo)], [(SaysUpdate, value)]]) ==
            [kept.(timestamp := Join(hi, lo))]
  {
    var one: Body, two: Body := [(SaysHi, hi), (SaysLo, lo)], [(SaysUpdate, value)];
    TimestampOnly(cfg, s, kept, hi, lo);
    UpdateOnly(cfg, s, kept.(timestamp := Join(hi, lo)), true, value);
    var dated := kept.(timestamp := Join(hi, lo));
    assert [two][1..] == [];
    assert Emitted(cfg, s, dated, false, true, [two]) == [dated];
    assert [one, two][1..] == [two];
  }

  lemma TimestampOnly(cfg: Config, s: Sensor, kept: SensorEvent, hi: int32, lo: int32)
    ensures var body: Body := [(SaysHi, hi), (SaysLo, lo)];
            && Carried(cfg, s, kept, body) == kept.(timestamp := Join(hi, lo))
            && !Marks(body) && Complete(false, body)
  {
    var body: Body := [];
    LastGrows(body, (SaysHi, hi));
    LastGrows(body + [(SaysHi, hi)], (SaysLo, lo));
    assert body + [(SaysHi, hi)] + [(SaysLo, lo)] == [(SaysHi, hi), (SaysLo, lo)];
  }

  lemma UpdateOnly(cfg: Config, s: Sensor, kept: SensorEvent, before: bool, value: int32)
    ensures var body: Body := [(SaysUpdate, value)];
            Carried(cfg, s, kept, body) == kept && Marks(body) && Complete(before, body) == before
  {
    var body: Body := [];
    LastGrows(body, (SaysUpdate, value));
    MarksGrows(body, (SaysUpdate, value));
    assert body + [(SaysUpdate, value)] == [(SaysUpdate, value)];
    RenewedGrows(kept.timestamp, None, None, 0);
  }
}
