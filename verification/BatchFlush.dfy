/**
 BatchSensor::flush and the path of BatchSensor::readEvents without a batch device (sensor/BatchSensor.cpp): counters
 of outstanding flush requests, one completion event for each.
 */
module BatchFlush {
  import opened Common

  /** flushSensorReq and mHasPendingEvent. */
  datatype State = State(req: seq<nat>, flag: bool)

  function Repeat(handle: nat, k: nat): (s: seq<nat>)
    ensures |s| == k
  {
    seq(k, _ => handle)
  }

  predicate NothingOutstanding(req: seq<nat>) {
    forall h :: 0 <= h < |req| ==> req[h] == 0
  }

  function Flush(s: State, handle: nat): State
    requires handle < |s.req|
  {
    State(s.req[handle := s.req[handle] + 1], true)
  }

  /** The loops from handle h on; the last component is where the outer loop stops. */
  function Serve(req: seq<nat>, h: nat, count: int): (res: (seq<nat>, seq<nat>, nat))
    requires h <= |req|
    ensures |res.0| == |req| && h <= res.2 <= |req|
    decreases |req| - h
  {
    if h == |req| || count == 0 then (req, [], h)
    else
      var k := if count > 0 then Min(req[h], count) else 0;
      var (req', out, end) := Serve(req[h := req[h] - k], h + 1, count - k);
      (req', Repeat(h, k) + out, end)
  }

  function Read(s: State, count: int): (res: (State, seq<nat>))
    requires s.req != []
    ensures |res.0.req| == |s.req|
  {
    var (req, out, end) := Serve(s.req, 0, count);
    (State(req, if end == |req| && req[|req| - 1] == 0 then false else s.flag), out)
  }

  // ---------- what a read returns ----------

  /** The completions that the counters from handle h on owe, lowest handle first. */
  function Owed(req: seq<nat>, h: nat): seq<nat>
    requires h <= |req|
    decreases |req| - h
  {
    if h == |req| then [] else Repeat(h, req[h]) + Owed(req, h + 1)
  }

  lemma {:induction false} OwedDependsOnRest(req: seq<nat>, req': seq<nat>, h: nat)
    requires |req| == |req'| && h <= |req| && req[h..] == req'[h..]
    ensures Owed(req, h) == Owed(req', h)
    decreases |req| - h
  {
    if h < |req| {
      assert req[h] == req[h..][0] && req'[h] == req'[h..][0];
      assert req[h + 1..] == req[h..][1..] && req'[h + 1..] == req'[h..][1..];
      OwedDependsOnRest(req, req', h + 1);
    }
  }

  lemma {:induction false} NothingOwed(req: seq<nat>, h: nat)
    requires h <= |req|
    ensures Owed(req, h) == [] <==> forall i :: h <= i < |req| ==> req[i] == 0
    decreases |req| - h
  {
    if h < |req| {
      NothingOwed(req, h + 1);
    }
  }

  /** Serving from handle h on does not look at the handles before it. */
  lemma {:induction false} ServeKeepsBefore(req: seq<nat>, h: nat, count: int, i: nat)
    requires h <= |req| && i < h
    ensures Serve(req, h, count).0[i] == req[i]
    decreases |req| - h
  {
    if h < |req| && count != 0 {
      var k := if count > 0 then Min(req[h], count) else 0;
      ServeKeepsBefore(req[h := req[h] - k], h + 1, count - k, i);
    }
  }

  lemma RepeatSplits(handle: nat, k: nat, n: nat)
    requires k <= n
    ensures Repeat(handle, k) + Repeat(handle, n - k) == Repeat(handle, n) && Repeat(handle, 0) == []
  {
  }

  /** Serving emits as many completions as there is room for, until nothing is owed. */
  lemma {:induction false} ServeLength(req: seq<nat>, h: nat, count: nat)
    requires h <= |req|
    ensures |Serve(req, h, count).1| == Min(count, |Owed(req, h)|)
    decreases |req| - h
  {
    if h < |req| && count != 0 {
      var k := Min(req[h], count);
      ServeLength(req[h := req[h] - k], h + 1, count - k);
      OwedDependsOnRest(req[h := req[h] - k], req, h + 1);
    }
  }

  /** Serving emits the first completions owed, and still owes the others. */
  lemma {:induction false} ServeEmitsOwed(req: seq<nat>, h: nat, count: nat)
    requires h <= |req|
    ensures Serve(req, h, count).1 + Owed(Serve(req, h, count).0, h) == Owed(req, h)
    decreases |req| - h
  {
    hide Repeat, Owed, Serve;
    if h < |req| && count != 0 {
      var k := Min(req[h], count);
      var req1 := req[h := req[h] - k];
      ServeUnfolds(req, h, count);
      var (req', out, end) := Serve(req1, h + 1, count - k);
      ServeKeepsBefore(req1, h + 1, count - k, h);
      ServeEmitsOwed(req1, h + 1, count - k);
      OwedDependsOnRest(req1, req, h + 1);
      OwedUnfolds(req, h);
      OwedUnfolds(req', h);
      RepeatSplits(h, k, req[h]);
      if k < req[h] {
        ServeLength(req1, h + 1, 0);
      }
      OwedPieces(Repeat(h, k), Repeat(h, req[h] - k), out, Owed(req', h + 1));
    } else {
      NothingServed(req, h, count);
    }
  }

  lemma NothingServed(req: seq<nat>, h: nat, count: nat)
    requires h == |req| || (h < |req| && count == 0)
    ensures Serve(req, h, count).1 + Owed(Serve(req, h, count).0, h) == Owed(req, h)
  {
    assert [] + Owed(req, h) == Owed(req, h);
  }

  lemma ServeUnfolds(req: seq<nat>, h: nat, count: nat)
    requires h < |req| && count != 0
    ensures var k := Min(req[h], count);
            var (req', out, end) := Serve(req[h := req[h] - k], h + 1, count - k);
            Serve(req, h, count) == (req', Repeat(h, k) + out, end)
  {
  }

  lemma OwedUnfolds(req: seq<nat>, h: nat)
    requires h < |req|
    ensures Owed(req, h) == Repeat(h, req[h]) + Owed(req, h + 1)
  {
  }

  lemma OwedPieces(now: seq<nat>, later: seq<nat>, out: seq<nat>, owed: seq<nat>)
    requires later == [] || out == []
    ensures (now + out) + (later + owed) == (now + later) + (out + owed)
  {
  }

  /** The outer loop passes a handle, other than the one it stops behind, only when nothing is left of it. */
  lemma {:induction false} ServedHandlesAreDone(req: seq<nat>, h: nat, count: nat)
    requires h <= |req|
    ensures var (req', out, end) := Serve(req, h, count);
            && (forall i :: h <= i && i + 1 < end ==> req'[i] == 0)
            && (|out| < count ==> end == |req| && forall i :: h <= i < |req| ==> req'[i] == 0)
    decreases |req| - h
  {
    if h < |req| && count != 0 {
      var k := Min(req[h], count);
      ServedHandlesAreDone(req[h := req[h] - k], h + 1, count - k);
      ServeKeepsBefore(req[h := req[h] - k], h + 1, count - k, h);
    }
  }

  /** With no room for a negative count either, the loops only run to the end. */
  lemma {:induction false} NegativeCountServesNothing(req: seq<nat>, h: nat, count: int)
    requires h <= |req| && count < 0
    ensures Serve(req, h, count) == (req, [], |req|)
    decreases |req| - h
  {
    if h < |req| {
      assert req[h := req[h] - 0] == req && Repeat(h, 0) + [] == [];
      NegativeCountServesNothing(req, h + 1, count);
    }
  }

  // ---------- the pending flag ----------

  /** A cleared flag means that no completion is owed. */
  predicate Honest(s: State) {
    !s.flag ==> NothingOutstanding(s.req)
  }

  /**
   A read keeps the flag honest unless the count is negative: then the flag is cleared on the evidence of the last
   handle alone.
   */
  lemma ReadKeepsHonestIff(s: State, count: int)
    requires s.req != [] && Honest(s)
    ensures Honest(Read(s, count).0) <==>
            count >= 0 || s.req[|s.req| - 1] != 0 || NothingOutstanding(s.req)
  {
    if count < 0 {
      NegativeCountServesNothing(s.req, 0, count);
    } else {
      ServedHandlesAreDone(s.req, 0, count);
      ServeEmitsOwed(s.req, 0, count);
      var (req, out, end) := Serve(s.req, 0, count);
      NothingOwed(s.req, 0);
      NothingOwed(req, 0);
      if end == |req| && req[|req| - 1] == 0 {
        assert forall i :: 0 <= i < |req| ==> req[i] == 0;
      }
    }
  }

  lemma NegativeCountLosesPending()
    ensures Honest(State([1, 0], true)) && !Honest(Read(State([1, 0], true), -1).0)
  {
    ReadKeepsHonestIff(State([1, 0], true), -1);
    assert [1, 0][0] == 1;
  }

  /** A read that leaves room has emitted everything, and then the flag is down. */
  lemma ReadWithRoomLeftClearsFlag(s: State, count: nat)
    requires s.req != [] && |Read(s, count).1| < count
    ensures NothingOutstanding(Read(s, count).0.req) && !Read(s, count).0.flag
  {
    ServedHandlesAreDone(s.req, 0, count);
  }

  /** The outer loop gets behind the last handle exactly when the handles before it leave room. */
  lemma {:induction false} ServeEnds(req: seq<nat>, h: nat, count: nat)
    requires h < |req|
    ensures |Owed(req, h)| >= req[|req| - 1]
    ensures Serve(req, h, count).2 == |req| <==> |Owed(req, h)| - req[|req| - 1] < count
    decreases |req| - h
  {
    hide Repeat;
    OwedUnfolds(req, h);
    NothingOwed(req, |req|);
    var req1 := req[h := req[h] - Min(req[h], count)];
    if h < |req| - 1 {
      OwedDependsOnRest(req1, req, h + 1);
      ServeEnds(req, h + 1, count);
      ServeEnds(req1, h + 1, count - Min(req[h], count));
    }
  }

  /** The last handle ends with no request exactly when there was room for all of them. */
  lemma LastIsServedIff(req: seq<nat>, count: nat)
    requires req != []
    ensures var (req', out, end) := Serve(req, 0, count);
            end == |req| ==> (req'[|req| - 1] == 0 <==> |Owed(req, 0)| <= count)
  {
    ServedHandlesAreDone(req, 0, count);
    ServeEmitsOwed(req, 0, count);
    ServeLength(req, 0, count);
    var (req', out, end) := Serve(req, 0, count);
    NothingOwed(req', 0);
    if end == |req| {
      assert forall i :: 0 <= i < |req| - 1 ==> req'[i] == 0;
    }
  }

  /**
   When a read takes the flag down: exactly when there is room for all that is owed and, before the last handle is
   served, for one more.  So a count of exactly what is owed takes it down if the last handle has requests.
   */
  lemma FlagAfterRead(s: State, count: nat)
    requires s.req != []
    ensures var (owed, last) := (|Owed(s.req, 0)|, s.req[|s.req| - 1]);
            Read(s, count).0.flag == (s.flag && !(owed <= count && owed - last < count))
  {
    ServeEnds(s.req, 0, count);
    LastIsServedIff(s.req, count);
  }

  /** A read returns the completions owed, lowest handle first, as many as there is room for. */
  lemma ReadReturnsOwed(s: State, count: nat)
    requires s.req != []
    ensures Read(s, count).1 + Owed(Read(s, count).0.req, 0) == Owed(s.req, 0)
    ensures |Read(s, count).1| == Min(count, |Owed(s.req, 0)|)
  {
    ServeEmitsOwed(s.req, 0, count);
    ServeLength(s.req, 0, count);
  }

  // ---------- runs ----------

  datatype Op = FlushOp(handle: nat) | ReadOp(count: int)

  function Count(s: seq<nat>, h: nat): nat {
    if s == [] then 0 else Count(s[1..], h) + if s[0] == h then 1 else 0
  }

  function Flushes(ops: seq<Op>, h: nat): nat {
    if ops == [] then 0 else Flushes(ops[1..], h) + if ops[0] == FlushOp(h) then 1 else 0
  }

  predicate OpFits(n: nat, op: Op) {
    op.FlushOp? ==> op.handle < n
  }

  predicate AllFit(n: nat, ops: seq<Op>) {
    forall i :: 0 <= i < |ops| ==> OpFits(n, ops[i])
  }

  /** The state after the calls, and all completions emitted on the way. */
  function Run(s: State, ops: seq<Op>): (res: (State, seq<nat>))
    requires s.req != [] && AllFit(|s.req|, ops)
    ensures |res.0.req| == |s.req|
    decreases |ops|
  {
    if ops == [] then (s, [])
    else
      var (s1, out) := if ops[0].FlushOp? then (Flush(s, ops[0].handle), []) else Read(s, ops[0].count);
      var (s2, more) := Run(s1, ops[1..]);
      (s2, out + more)
  }

  lemma {:induction false} CountAppends(a: seq<nat>, b: seq<nat>, h: nat)
    ensures Count(a + b, h) == Count(a, h) + Count(b, h)
  {
    if a == [] {
      assert a + b == b;
    } else {
      assert (a + b)[1..] == a[1..] + b;
      CountAppends(a[1..], b, h);
    }
  }

  lemma {:induction false} CountRepeat(handle: nat, k: nat, h: nat)
    ensures Count(Repeat(handle, k), h) == if handle == h then k else 0
  {
    if k > 0 {
      assert Repeat(handle, k)[1..] == Repeat(handle, k - 1);
      CountRepeat(handle, k - 1, h);
    }
  }

  lemma CountNothing(h: nat)
    ensures Count([], h) == 0
  {
  }

  /** Every completion emitted takes one request off its own handle, whatever the count. */
  lemma {:induction false} ServeConserves(req: seq<nat>, h: nat, count: int, i: nat)
    requires h <= |req| && i < |req|
    ensures Count(Serve(req, h, count).1, i) + Serve(req, h, count).0[i] == req[i]
    decreases |req| - h
  {
    hide Repeat, Count;
    CountNothing(i);
    if h < |req| && count != 0 {
      var k := if count > 0 then Min(req[h], count) else 0;
      ServeConserves(req[h := req[h] - k], h + 1, count - k, i);
      CountRepeat(h, k, i);
      CountAppends(Repeat(h, k), Serve(req[h := req[h] - k], h + 1, count - k).1, i);
    }
  }

  /** For every handle and any run: requests before plus flush calls are completions emitted plus requests left. */
  lemma {:induction false} FlushesAreConserved(s: State, ops: seq<Op>, h: nat)
    requires s.req != [] && AllFit(|s.req|, ops) && h < |s.req|
    ensures var (s', out) := Run(s, ops);
            s.req[h] + Flushes(ops, h) == Count(out, h) + s'.req[h]
    decreases |ops|
  {
    if ops != [] {
      var (s1, out) := if ops[0].FlushOp? then (Flush(s, ops[0].handle), []) else Read(s, ops[0].count);
      FlushesAreConserved(s1, ops[1..], h);
      CountAppends(out, Run(s1, ops[1..]).1, h);
      if ops[0].ReadOp? {
        ServeConserves(s.req, 0, ops[0].count, h);
      }
    }
  }

  /** Over any run of calls with counts that are not negative, a cleared flag means that nothing is owed. */
  lemma {:induction false} FlagStaysHonest(s: State, ops: seq<Op>)
    requires s.req != [] && AllFit(|s.req|, ops) && Honest(s)
    requires forall i :: 0 <= i < |ops| && ops[i].ReadOp? ==> ops[i].count >= 0
    ensures Honest(Run(s, ops).0)
    decreases |ops|
  {
    if ops != [] {
      if ops[0].ReadOp? {
        ReadKeepsHonestIff(s, ops[0].count);
        FlagStaysHonest(Read(s, ops[0].count).0, ops[1..]);
      } else {
        FlagStaysHonest(Flush(s, ops[0].handle), ops[1..]);
      }
    }
  }

  // ---------- the driver ----------

  class BatchSensor {
    const flushSensorReq: array<nat>
    var hasPendingEvent: bool

    ghost predicate Valid() {
      0 < flushSensorReq.Length <= 0x1_0000
    }

    ghost function View(): State
      reads this, flushSensorReq
    {
      State(flushSensorReq[..], hasPendingEvent)
    }

    constructor (maxHandle: nat)
      requires 0 < maxHandle <= 0x1_0000
      ensures Valid() && fresh(flushSensorReq) && flushSensorReq.Length == maxHandle
      ensures !hasPendingEvent && NothingOutstanding(flushSensorReq[..])
    {
      flushSensorReq := new nat[maxHandle](_ => 0);
      hasPendingEvent := false;
    }

    method FlushHandle(handle: nat)
      requires Valid() && handle < flushSensorReq.Length
      modifies this, flushSensorReq
      ensures View() == Flush(old(View()), handle)
    {
      flushSensorReq[handle] := flushSensorReq[handle] + 1;
      hasPendingEvent := true;
    }

    /** The inner loop: completions of one handle.  The event carries the low 16 bits of the handle. */
    method ServeHandle(handle: nat, data: array<nat>, at: nat, count: int) returns (k: nat)
      requires Valid() && handle < flushSensorReq.Length && data != flushSensorReq
      requires count > 0 ==> at + count <= data.Length
      requires at <= data.Length
      modifies flushSensorReq, data
      ensures k == if count > 0 then Min(old(flushSensorReq[handle]), count) else 0
      ensures flushSensorReq[..] == old(flushSensorReq[..])[handle := old(flushSensorReq[handle]) - k]
      ensures StoredAt(old(data[..]), data[..], at, Repeat(handle, k))
    {
      k := 0;
      ghost var before, counters := data[..], flushSensorReq[..];
      while flushSensorReq[handle] > 0 && count - k > 0
        invariant k <= counters[handle] && (count > 0 ==> k <= count) && (count <= 0 ==> k == 0)
        invariant flushSensorReq[..] == counters[handle := counters[handle] - k]
        invariant forall i :: 0 <= i < data.Length ==> data[i] == if at <= i < at + k then handle else before[i]
        decreases count - k
      {
        data[at + k] := handle % 0x1_0000;
        k := k + 1;
        flushSensorReq[handle] := flushSensorReq[handle] - 1;
      }
    }

    method ReadEvents(data: array<nat>, at: nat, count: int) returns (ret: nat)
      requires Valid() && data != flushSensorReq && at <= data.Length && (count > 0 ==> at + count <= data.Length)
      modifies this, flushSensorReq, data
      ensures View() == Read(old(View()), count).0
      ensures ret == |Read(old(View()), count).1|
      ensures StoredAt(old(data[..]), data[..], at, Read(old(View()), count).1)
    {
      hide StoredAt, Repeat, Serve, ServesTo;
      ret := 0;
      var handle := 0;
      ghost var start, out := flushSensorReq[..], [];
      StoredNothing(data[..], at);
      ServesNothing(start, count);
      while handle < flushSensorReq.Length && count - ret != 0
        invariant handle <= flushSensorReq.Length && ret == |out|
        invariant (count > 0 ==> ret <= count) && (count <= 0 ==> ret == 0)
        invariant StoredAt(old(data[..]), data[..], at, out)
        invariant ServesTo(start, count, out, flushSensorReq[..], handle)
        invariant hasPendingEvent == old(hasPendingEvent)
        decreases flushSensorReq.Length - handle
      {
        ghost var stored, counters := data[..], flushSensorReq[..];
        var k := ServeHandle(handle, data, at + ret, count - ret);
        ServesStep(start, count, out, counters, handle);
        StoredMore(old(data[..]), stored, data[..], at, out, Repeat(handle, k));
        out, ret := out + Repeat(handle, k), ret + k;
        handle := handle + 1;
      }
      ServesEnd(start, count, out, flushSensorReq[..], handle);
      if handle == flushSensorReq.Length && flushSensorReq[handle - 1] == 0 {
        hasPendingEvent := false;
      }
    }
  }

  /** A read that started at req with room for count has emitted out and now stands at req' before handle h. */
  ghost predicate ServesTo(req: seq<nat>, count: int, out: seq<nat>, req': seq<nat>, h: nat) {
    h <= |req'| == |req| &&
    var (end, rest, at) := Serve(req', h, count - |out|);
    Serve(req, 0, count) == (end, out + rest, at)
  }

  lemma ServesNothing(req: seq<nat>, count: int)
    ensures ServesTo(req, count, [], req, 0)
  {
    assert [] + Serve(req, 0, count).1 == Serve(req, 0, count).1;
  }

  lemma ServesStep(req: seq<nat>, count: int, out: seq<nat>, req': seq<nat>, h: nat)
    requires ServesTo(req, count, out, req', h) && h < |req'| && count != |out|
    ensures var k := if count - |out| > 0 then Min(req'[h], count - |out|) else 0;
            ServesTo(req, count, out + Repeat(h, k), req'[h := req'[h] - k], h + 1)
  {
    hide Repeat;
    var k := if count - |out| > 0 then Min(req'[h], count - |out|) else 0;
    var rest := Serve(req'[h := req'[h] - k], h + 1, count - |out| - k).1;
    assert out + (Repeat(h, k) + rest) == (out + Repeat(h, k)) + rest;
  }

  lemma ServesEnd(req: seq<nat>, count: int, out: seq<nat>, req': seq<nat>, h: nat)
    requires ServesTo(req, count, out, req', h) && (h == |req'| || count == |out|)
    ensures Serve(req, 0, count) == (req', out, h)
  {
    assert out + [] == out;
  }
}
