/**
 InputEventCircularReader (sensor/InputEventReader.cpp): a buffer of twice the wanted size, filled by read() in one
 piece past its middle, the part past the middle being copied to the front afterwards.
 */
module EventReader {
  import opened Common

  /** What read() did: an errno, a number of bytes that is no multiple of the event size, or whole events. */
  datatype ReadResult<T> = Failed(errno: int) | Partial(written: seq<T>) | Events(events: seq<T>)

  /** A call of a driver's readEvents that read a batch of events and had room for so many. */
  datatype Call<T> = Call(batch: seq<T>, room: nat)

  /** What the kernel delivered over a run of calls. */
  function Stream<T>(calls: seq<Call<T>>): seq<T> {
    if calls == [] then [] else calls[0].batch + Stream(calls[1..])
  }

  /** The events at positions curr .. curr + available of a ring of n that occupies the front of a buffer. */
  function Window<T>(buffer: seq<T>, n: nat, curr: nat, available: nat): (s: seq<T>)
    requires |buffer| == 2 * n && curr < n && available <= n
    ensures |s| == available
  {
    seq(available, k requires 0 <= k < available => buffer[if curr + k < n then curr + k else curr + k - n])
  }

  /** A buffer after read() stored events at head, in one piece. */
  function Stored<T>(buffer: seq<T>, head: nat, events: seq<T>): (s: seq<T>)
    requires head + |events| <= |buffer|
    ensures |s| == |buffer|
  {
    buffer[..head] + events + buffer[head + |events|..]
  }

  /** A buffer after what lies between its middle and end was copied to the front. */
  function Folded<T>(buffer: seq<T>, n: nat, end: nat): (s: seq<T>)
    requires |buffer| == 2 * n && end <= 2 * n
    ensures |s| == |buffer|
  {
    if end <= n then buffer else buffer[n..end] + buffer[end - n..]
  }

  function Written<T>(buffer: seq<T>, n: nat, head: nat, events: seq<T>): (s: seq<T>)
    requires |buffer| == 2 * n && head <= n && |events| <= n
    ensures |s| == |buffer|
  {
    Folded(Stored(buffer, head, events), n, head + |events|)
  }

  lemma NothingStored<T>(buffer: seq<T>, n: nat, head: nat)
    requires |buffer| == 2 * n && head <= n
    ensures Stored(buffer, head, []) == buffer == Folded(buffer, n, head)
  {
  }

  ghost predicate HeadAt(n: nat, head: nat, curr: nat, available: nat) {
    head <= n &&
    (head == curr + available || head + n == curr + available || (head == n && curr + available == 0))
  }

  lemma HeadBound(n: nat, head: nat, curr: nat, available: nat, more: nat)
    requires HeadAt(n, head, curr, available) && available + more <= n && curr < n
    ensures head <= n && head + more <= 2 * n
  {
  }

  lemma WrittenAt<T>(buffer: seq<T>, n: nat, head: nat, events: seq<T>, j: nat)
    requires |buffer| == 2 * n && head <= n && |events| <= n && j < n
    ensures Written(buffer, n, head, events)[j] ==
            if head <= j < head + |events| then events[j - head]
            else if j + n < head + |events| then events[j + n - head]
            else buffer[j]
  {
  }

  /** The spill stays inside the buffer, and neither it nor its copy touches an event that is still unread. */
  lemma WriteAppends<T>(buffer: seq<T>, n: nat, head: nat, curr: nat, available: nat, events: seq<T>)
    requires |buffer| == 2 * n && curr < n && available + |events| <= n && HeadAt(n, head, curr, available)
    ensures Window(Written(buffer, n, head, events), n, curr, available + |events|) ==
            Window(buffer, n, curr, available) + events
    ensures head + |events| <= 2 * n
    ensures HeadAt(n, if head + |events| > n then head + |events| - n else head + |events|, curr,
                   available + |events|)
  {
    hide Written;
    var s, t := Written(buffer, n, head, events), Window(buffer, n, curr, available) + events;
    forall k | 0 <= k < available + |events|
      ensures Window(s, n, curr, available + |events|)[k] == t[k]
    {
      WrittenAt(buffer, n, head, events, if curr + k < n then curr + k else curr + k - n);
    }
  }

  /** Bytes of a read that is then rejected go where no unread event is. */
  lemma RejectedWriteIsHarmless<T>(buffer: seq<T>, n: nat, head: nat, curr: nat, available: nat, events: seq<T>)
    requires |buffer| == 2 * n && curr < n && available + |events| <= n && HeadAt(n, head, curr, available)
    ensures head + |events| <= 2 * n
    ensures Window(Stored(buffer, head, events), n, curr, available) ==
            Window(buffer, n, curr, available)
  {
  }

  // ---------- runs ----------

  /** The fields of a reader as a value. */
  datatype Reader<T> = Reader(buffer: seq<T>, n: nat, head: nat, curr: nat, free: nat)
  {
    ghost predicate Valid() {
      0 < n && |buffer| == 2 * n && free <= n && curr < n && HeadAt(n, head, curr, n - free)
    }

    function Unread(): seq<T>
      requires |buffer| == 2 * n && curr < n && free <= n
    {
      Window(buffer, n, curr, n - free)
    }
  }

  /** A read() that delivered events, one that stored bytes and was rejected or failed, or one event consumed. */
  datatype Op<T> = Filled(events: seq<T>) | Rejected(written: seq<T>) | Consumed

  /** What the reader does; the calls that its users cannot make leave it as it is. */
  function Apply<T>(r: Reader<T>, op: Op<T>): (res: (Reader<T>, seq<T>))
    requires |r.buffer| == 2 * r.n && r.curr < r.n && r.free <= r.n && r.head <= r.n
    ensures |res.0.buffer| == 2 * res.0.n && res.0.curr < res.0.n && res.0.free <= res.0.n && res.0.head <= res.0.n
  {
    match op
    case Filled(events) =>
      if |events| > r.free then (r, [])
      else
        var end := r.head + |events|;
        (r.(buffer := Written(r.buffer, r.n, r.head, events), head := if end > r.n then end - r.n else end,
            free := r.free - |events|), [])
    case Rejected(written) =>
      if |written| > r.free then (r, []) else (r.(buffer := Stored(r.buffer, r.head, written)), [])
    case Consumed =>
      if r.free == r.n then (r, [])
      else (r.(curr := if r.curr + 1 >= r.n then 0 else r.curr + 1, free := r.free + 1), [r.buffer[r.curr]])
  }

  /** What read() delivered in a run, and what was consumed. */
  function Delivered<T>(r: Reader<T>, ops: seq<Op<T>>): seq<T>
    requires |r.buffer| == 2 * r.n && r.curr < r.n && r.free <= r.n && r.head <= r.n
    decreases |ops|
  {
    if ops == [] then []
    else (if ops[0].Filled? && |ops[0].events| <= r.free then ops[0].events else [])
         + Delivered(Apply(r, ops[0]).0, ops[1..])
  }

  function Run<T>(r: Reader<T>, ops: seq<Op<T>>): (res: (Reader<T>, seq<T>))
    requires |r.buffer| == 2 * r.n && r.curr < r.n && r.free <= r.n && r.head <= r.n
    ensures |res.0.buffer| == 2 * res.0.n && res.0.curr < res.0.n && res.0.free <= res.0.n && res.0.head <= res.0.n
    decreases |ops|
  {
    if ops == [] then (r, [])
    else
      var (r1, out) := Apply(r, ops[0]);
      var (r2, more) := Run(r1, ops[1..]);
      (r2, out + more)
  }

  lemma ApplyKeeps<T>(r: Reader<T>, op: Op<T>)
    requires r.Valid()
    ensures var (r', out) := Apply(r, op);
            && r'.Valid()
            && out + r'.Unread() == r.Unread() + if op.Filled? && |op.events| <= r.free then op.events else []
  {
    hide Window, Written, Stored;
    var r' := Apply(r, op).0;
    assert [] + r'.Unread() == r'.Unread() && r.Unread() + [] == r.Unread();
    match op
    case Filled(events) =>
      if |events| <= r.free {
        WriteAppends(r.buffer, r.n, r.head, r.curr, r.n - r.free, events);
      }
    case Rejected(written) =>
      if |written| <= r.free {
        RejectedWriteIsHarmless(r.buffer, r.n, r.head, r.curr, r.n - r.free, written);
      }
    case Consumed =>
      if r.free < r.n {
        WindowMoves(r.buffer, r.n, r.curr, r.n - r.free);
      }
  }

  /** The fields after a batch was stored at head and what spilled was copied to the front. */
  lemma AcceptedIs<T>(r: Reader<T>, events: seq<T>, r': Reader<T>)
    requires r.Valid() && |events| <= r.free
    requires r'.n == r.n && r'.curr == r.curr && r'.free == r.free - |events|
    requires r'.buffer == Folded(Stored(r.buffer, r.head, events), r.n, r.head + |events|)
    requires r'.head == if r.head + |events| > r.n then r.head + |events| - r.n else r.head + |events|
    ensures r' == Apply(r, Filled(events)).0 && r'.Valid() && r'.Unread() == r.Unread() + events
  {
    hide Window, Folded, Stored;
    ApplyKeeps(r, Filled(events));
    assert [] + r'.Unread() == r'.Unread();
  }

  lemma WindowMoves<T>(buffer: seq<T>, n: nat, curr: nat, available: nat)
    requires |buffer| == 2 * n && curr < n && 0 < available <= n
    ensures Window(buffer, n, curr, available) ==
            [buffer[curr]] + Window(buffer, n, if curr + 1 >= n then 0 else curr + 1, available - 1)
  {
  }

  /** Over any run, rejected reads and all, what was consumed and what is unread are the events delivered, in order. */
  lemma {:induction false} ReaderIsFifo<T>(r: Reader<T>, ops: seq<Op<T>>)
    requires r.Valid()
    ensures var (r', out) := Run(r, ops);
            r'.Valid() && out + r'.Unread() == r.Unread() + Delivered(r, ops)
    decreases |ops|
  {
    hide Window, Apply;
    if ops == [] {
      assert [] + r.Unread() == r.Unread() + [];
    } else {
      ApplyKeeps(r, ops[0]);
      var (r1, out) := Apply(r, ops[0]);
      ReaderIsFifo(r1, ops[1..]);
      var (r2, more) := Run(r1, ops[1..]);
      var batch := if ops[0].Filled? && |ops[0].events| <= r.free then ops[0].events else [];
      ThreePieces(out, more, r2.Unread());
      ThreePieces(out, r1.Unread(), Delivered(r1, ops[1..]));
      ThreePieces(r.Unread(), batch, Delivered(r1, ops[1..]));
    }
  }

  class CircularReader<T(0)> {
    const numEvents: nat
    const buffer: array<T>
    var head: nat
    var curr: nat
    var freeSpace: nat

    /** Head may rest exactly on the middle, as the alias of index 0. */
    ghost predicate Valid()
      reads this
    {
      && 0 < numEvents && buffer.Length == 2 * numEvents
      && freeSpace <= numEvents && curr < numEvents && HeadAt(numEvents, head, curr, numEvents - freeSpace)
    }

    ghost function View(): Reader<T>
      reads this, buffer
    {
      Reader(buffer[..], numEvents, head, curr, freeSpace)
    }

    /** The events delivered and not yet consumed, oldest first. */
    ghost function Unread(): (s: seq<T>)
      requires Valid()
      reads this, buffer
      ensures |s| == numEvents - freeSpace
    {
      Window(buffer[..], numEvents, curr, numEvents - freeSpace)
    }

    constructor (numEvents: nat)
      requires 0 < numEvents
      ensures Valid() && fresh(buffer) && Unread() == [] && this.numEvents == numEvents
    {
      this.numEvents := numEvents;
      buffer := new T[2 * numEvents];
      head, curr, freeSpace := 0, 0, numEvents;
    }

    /** read(): the kernel stores the events at head. */
    method Deliver(events: seq<T>)
      requires head + |events| <= buffer.Length
      modifies buffer
      ensures buffer[..] == Stored(old(buffer[..]), head, events)
    {
      forall i | 0 <= i < |events| {
        buffer[head + i] := events[i];
      }
    }

    method CopyToFront(s: nat)
      requires buffer.Length == 2 * numEvents && s <= numEvents
      modifies buffer
      ensures buffer[..] == old(buffer[..])[numEvents..numEvents + s] + old(buffer[..])[s..]
    {
      forall i | 0 <= i < s {
        buffer[i] := buffer[numEvents + i];
      }
    }

    /** Moves head past k events that are in the buffer, and copies what is past the middle to the front. */
    method Advance(k: nat)
      requires buffer.Length == 2 * numEvents && head <= numEvents && head + k <= 2 * numEvents && k <= freeSpace
      modifies this, buffer
      ensures curr == old(curr) && freeSpace == old(freeSpace) - k
      ensures head == if old(head) + k > numEvents then old(head) + k - numEvents else old(head) + k
      ensures buffer[..] == Folded(old(buffer[..]), numEvents, old(head) + k)
    {
      head := head + k;
      freeSpace := freeSpace - k;
      if head > numEvents {
        var s := head - numEvents;
        CopyToFront(s);
        head := s;
      }
    }

    /** The part of fill after a read() of whole events. */
    method Accept(events: seq<T>)
      requires Valid() && |events| <= freeSpace
      modifies this, buffer
      ensures Valid() && Unread() == old(Unread()) + events && View() == Apply(old(View()), Filled(events)).0
    {
      hide Window, Stored, Folded, HeadAt, Apply;
      ghost var r := View();
      HeadBound(numEvents, head, curr, numEvents - freeSpace, |events|);
      Deliver(events);
      if |events| != 0 {
        Advance(|events|);
      } else {
        NothingStored(r.buffer, numEvents, head);
      }
      AcceptedIs(r, events, View());
    }

    /** read() is not called without free space; otherwise it delivers at most freeSpace events. */
    method Fill(result: ReadResult<T>) returns (ret: int)
      requires Valid()
      requires result.Partial? ==> |result.written| <= freeSpace
      requires result.Events? ==> |result.events| <= freeSpace
      modifies this, buffer
      ensures Valid()
      ensures Unread() == old(Unread()) + if result.Events? then result.events else []
      ensures View() == if old(freeSpace) == 0 || result.Failed? then old(View())
                        else Apply(old(View()), if result.Partial? then Rejected(result.written)
                                                else Filled(result.events)).0
      ensures old(freeSpace) == 0 ==> ret == 0
      ensures old(freeSpace) > 0 ==> ret == match result
                                            case Failed(errno) => -errno
                                            case Partial(written) => -EINVAL
                                            case Events(events) => |events|
    {
      hide Window, Stored, Written;
      if freeSpace == 0 {
        return 0;
      }
      match result
      case Failed(errno) =>
        return -errno;
      case Partial(written) =>
        RejectedWriteIsHarmless(buffer[..], numEvents, head, curr, numEvents - freeSpace, written);
        ghost var r := View();
        Deliver(written);
        assert View() == Apply(r, Rejected(written)).0;
        return -EINVAL;
      case Events(events) =>
        Accept(events);
        return |events|;
    }

    method ReadEvent() returns (available: bool, event: T)
      requires Valid()
      ensures available == (Unread() != [])
      ensures available ==> event == Unread()[0]
    {
      event := buffer[curr];
      available := numEvents - freeSpace != 0;
    }

    /** On an empty reader this claims an event that is not there, and breaks the reader. */
    method Next()
      requires Valid()
      modifies this
      ensures old(Unread()) != [] ==>
                Valid() && Unread() == old(Unread())[1..] && View() == Apply(old(View()), Consumed).0
      ensures old(Unread()) == [] ==> freeSpace == numEvents + 1 && !Valid()
    {
      curr := curr + 1;
      freeSpace := freeSpace + 1;
      if curr >= numEvents {
        curr := 0;
      }
    }
  }
}
