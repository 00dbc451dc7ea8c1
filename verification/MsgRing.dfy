/**
 The message rings of the NFC middleware (nfc/mtk_nfc_sys.c): a bounded ring of message pointers under a mutex, and a
 condition variable for its one consumer.  A critical section is one step; a receive that has to wait is two.
 */
module MsgRing {
  import opened Common

  const MTK_NFC_SUCCESS := 0
  const MTK_NFC_ERROR := -1

  type Msg = nat

  /** next_read, next_write, cnt and the slots; a slot that was never written holds NULL. */
  datatype Ring = Ring(slots: seq<Option<Msg>>, nextRead: nat, nextWrite: nat, cnt: nat)

  /** Where the consumer is: outside, blocked in pthread_cond_wait, or signalled and waiting for the mutex. */
  datatype Consumer = Outside | Waiting | Signalled

  datatype Sys = Sys(ring: Ring, consumer: Consumer)

  function Next(size: nat, i: nat): nat {
    if i + 1 > size - 1 then 0 else i + 1
  }

  predicate InRange(r: Ring) {
    r.nextRead < |r.slots| && r.nextWrite < |r.slots|
  }

  /** The section of msg_send; the signal reaches the consumer if it is blocked, and is lost otherwise. */
  function Send(s: Sys, msg: Option<Msg>): (res: (Sys, int))
    requires InRange(s.ring)
    ensures InRange(res.0.ring) && |res.0.ring.slots| == |s.ring.slots|
  {
    var r := s.ring;
    if msg == None || r.cnt == |r.slots| then (s, MTK_NFC_ERROR)
    else
      (Sys(r.(slots := r.slots[r.nextWrite := msg], nextWrite := Next(|r.slots|, r.nextWrite), cnt := r.cnt + 1),
           if s.consumer == Waiting then Signalled else s.consumer),
       MTK_NFC_SUCCESS)
  }

  /** The end of msg_recv, once the ring was not empty or the wait has returned. */
  function Pop(s: Sys): (res: (Sys, int, Option<Msg>))
    requires InRange(s.ring)
    ensures InRange(res.0.ring) && |res.0.ring.slots| == |s.ring.slots|
  {
    var r := s.ring;
    if r.slots[r.nextRead] == None || r.cnt == 0 then (Sys(r, Outside), MTK_NFC_ERROR, None)
    else
      (Sys(r.(nextRead := Next(|r.slots|, r.nextRead), cnt := r.cnt - 1), Outside), MTK_NFC_SUCCESS,
       r.slots[r.nextRead])
  }

  /** A send also says whether its signal succeeds. */
  datatype Step = SendStep(msg: Option<Msg>, signalOk: bool) | Receive | Wake(spurious: bool)

  /** A send whose signal fails leaves the message in the ring, wakes nobody, and reports an error. */
  function SendSignalling(s: Sys, msg: Option<Msg>, signalOk: bool): (res: (Sys, int))
    requires InRange(s.ring)
    ensures InRange(res.0.ring) && |res.0.ring.slots| == |s.ring.slots|
  {
    var (s', code) := Send(s, msg);
    if signalOk then (s', code) else (s'.(consumer := s.consumer), MTK_NFC_ERROR)
  }

  /** Steps of any producers and of the consumer; a step that is not possible leaves the state as it is. */
  function Move(s: Sys, step: Step): (res: (Sys, Option<int>, Option<Msg>))
    requires InRange(s.ring)
    ensures InRange(res.0.ring) && |res.0.ring.slots| == |s.ring.slots|
  {
    match step
    case SendStep(msg, signalOk) =>
      (SendSignalling(s, msg, signalOk).0, Some(SendSignalling(s, msg, signalOk).1), None)
    case Receive =>
      if s.consumer != Outside then (s, None, None)
      else if s.ring.cnt == 0 then (s.(consumer := Waiting), None, None)
      else (Pop(s).0, Some(Pop(s).1), Pop(s).2)
    case Wake(spurious) =>
      if s.consumer == Signalled || (s.consumer == Waiting && spurious) then (Pop(s).0, Some(Pop(s).1), Pop(s).2)
      else (s, None, None)
  }

  // ---------- the queue in the ring ----------

  /** The messages in the ring, oldest first. */
  function Queue(r: Ring): (q: seq<Option<Msg>>)
    requires InRange(r) && r.cnt <= |r.slots|
    ensures |q| == r.cnt
  {
    seq(r.cnt, k requires 0 <= k < r.cnt =>
      r.slots[if r.nextRead + k < |r.slots| then r.nextRead + k else r.nextRead + k - |r.slots|])
  }

  function Somes(msgs: seq<Msg>): (q: seq<Option<Msg>>)
    ensures |q| == |msgs|
  {
    seq(|msgs|, k requires 0 <= k < |msgs| => Some(msgs[k]))
  }

  /**
   What was put into the ring, what was received, how many sends were reported as successful, and whether the consumer
   is blocked although a message came whose signal failed.
   */
  datatype History = History(accepted: seq<Msg>, received: seq<Msg>, confirmed: nat, missed: bool)

  const NOTHING_YET := History([], [], 0, false)

  predicate HasRoom(s: Sys, msg: Option<Msg>) {
    msg.Some? && s.ring.cnt < |s.ring.slots|
  }

  /** The history after a step from s that returned code and msg. */
  function Observe(s: Sys, h: History, step: Step, code: Option<int>, msg: Option<Msg>): History {
    match step
    case SendStep(sent, signalOk) =>
      if !HasRoom(s, sent) then h
      else h.(accepted := h.accepted + [sent.value],
              confirmed := if code == Some(MTK_NFC_SUCCESS) then h.confirmed + 1 else h.confirmed,
              missed := !signalOk && s.consumer == Waiting)
    case _ =>
      if code == None then h
      else h.(received := if msg.Some? then h.received + [msg.value] else h.received, missed := false)
  }

  ghost predicate Inv(s: Sys, h: History) {
    var r := s.ring;
    && InRange(r) && r.cnt <= |r.slots|
    // cnt is the distance from next_read to next_write, and tells a full ring from an empty one
    && (r.nextWrite == r.nextRead + r.cnt || r.nextWrite + |r.slots| == r.nextRead + r.cnt)
    // received ++ queued == accepted
    && |h.received| + r.cnt == |h.accepted| && h.received <= h.accepted
    && Queue(r) == Somes(h.accepted[|h.received|..])
    // a wakeup is lost only with a signal that failed
    && (s.consumer == Waiting && r.cnt > 0 <==> h.missed)
    && (s.consumer == Signalled ==> r.cnt > 0)
    && h.confirmed <= |h.accepted|
  }

  lemma SendKeeps(s: Sys, h: History, msg: Option<Msg>, signalOk: bool)
    requires Inv(s, h)
    ensures var (s', code) := SendSignalling(s, msg, signalOk);
            && Inv(s', Observe(s, h, SendStep(msg, signalOk), Some(code), None))
            && (code == MTK_NFC_SUCCESS <==> HasRoom(s, msg) && signalOk)
  {
    if HasRoom(s, msg) {
      var r' := Send(s, msg).0.ring;
      var accepted' := h.accepted + [msg.value];
      assert Queue(r') == Queue(s.ring) + [msg];
      assert accepted'[|h.received|..] == h.accepted[|h.received|..] + [msg.value];
      assert Somes(accepted'[|h.received|..]) == Somes(h.accepted[|h.received|..]) + [msg];
    }
  }

  lemma QueueDrops(r: Ring)
    requires InRange(r) && 0 < r.cnt <= |r.slots|
    ensures Queue(r.(nextRead := Next(|r.slots|, r.nextRead), cnt := r.cnt - 1)) == Queue(r)[1..]
    ensures Queue(r)[0] == r.slots[r.nextRead]
  {
  }

  /** Taking a message gives the oldest accepted one that was not received yet; it fails on an empty ring only. */
  lemma PopKeeps(s: Sys, h: History)
    requires Inv(s, h)
    ensures var (s', code, msg) := Pop(s);
            && (s.ring.cnt > 0 ==>
                 code == MTK_NFC_SUCCESS && msg == Some(h.accepted[|h.received|]) &&
                 Inv(s', h.(received := h.received + [msg.value], missed := false)))
            && (s.ring.cnt == 0 ==> code == MTK_NFC_ERROR && msg == None && Inv(s', h.(missed := false)))
  {
    hide Queue;
    var r := s.ring;
    if r.cnt > 0 {
      var rest := h.accepted[|h.received|..];
      assert Queue(r)[0] == Somes(rest)[0];
      QueueDrops(r);
      assert Somes(rest)[1..] == Somes(rest[1..]);
      assert rest[1..] == h.accepted[|h.received| + 1..];
    }
  }

  lemma MoveKeeps(s: Sys, h: History, step: Step)
    requires Inv(s, h)
    ensures var (s', code, msg) := Move(s, step);
            Inv(s', Observe(s, h, step, code, msg))
  {
    match step
    case SendStep(msg, signalOk) => SendKeeps(s, h, msg, signalOk);
    case Receive => PopKeeps(s, h);
    case Wake(spurious) => PopKeeps(s, h);
  }

  /** A wakeup that follows a signal always finds a message; only a spurious one can make a receive fail. */
  lemma SignalledWakeDelivers(s: Sys, h: History, spurious: bool)
    requires Inv(s, h) && s.consumer != Outside
    ensures var (s', code, msg) := Move(s, Wake(spurious));
            && (s.consumer == Signalled ==> code == Some(MTK_NFC_SUCCESS) && msg == Some(h.accepted[|h.received|]))
            && (code == Some(MTK_NFC_ERROR) ==> s.consumer == Waiting && spurious && !h.missed)
  {
    PopKeeps(s, h);
  }

  // ---------- runs ----------

  function Run(s: Sys, h: History, steps: seq<Step>): (res: (Sys, History))
    requires InRange(s.ring)
    ensures InRange(res.0.ring) && |res.0.ring.slots| == |s.ring.slots|
    decreases |steps|
  {
    if steps == [] then (s, h)
    else
      var (s1, code, msg) := Move(s, steps[0]);
      Run(s1, Observe(s, h, steps[0], code, msg), steps[1..])
  }

  lemma {:induction false} RunKeeps(s: Sys, h: History, steps: seq<Step>)
    requires Inv(s, h)
    ensures Inv(Run(s, h, steps).0, Run(s, h, steps).1)
    decreases |steps|
  {
    hide Inv, Observe, Move;
    if steps != [] {
      InvInRange(s, h);
      MoveKeeps(s, h, steps[0]);
      var (s1, code, msg) := Move(s, steps[0]);
      RunKeeps(s1, Observe(s, h, steps[0], code, msg), steps[1..]);
    }
  }

  lemma InvInRange(s: Sys, h: History)
    requires Inv(s, h)
    ensures InRange(s.ring)
  {
  }

  /** msg_initialize: both pointers at the first slot, no message. */
  function Initial(size: nat): Sys
    requires 0 < size
  {
    Sys(Ring(seq(size, _ => None), 0, 0, 0), Outside)
  }

  /** In a run whose signals all succeed, every message put into the ring is confirmed and no wakeup is missed. */
  lemma {:induction false} SignalsDeliver(s: Sys, h: History, steps: seq<Step>)
    requires Inv(s, h) && !h.missed && h.confirmed == |h.accepted|
    requires forall step <- steps :: step.SendStep? ==> step.signalOk
    ensures var h' := Run(s, h, steps).1;
            !h'.missed && h'.confirmed == |h'.accepted|
    decreases |steps|
  {
    hide Inv, Send, Pop;
    if steps != [] {
      InvInRange(s, h);
      MoveKeeps(s, h, steps[0]);
      assert steps[0] in steps;
      if steps[0].SendStep? {
        SendKeeps(s, h, steps[0].msg, true);
      }
      var (s1, code, msg) := Move(s, steps[0]);
      SignalsDeliver(s1, Observe(s, h, steps[0], code, msg), steps[1..]);
    }
  }

  /**
   Main result.  In every interleaving of producers and one consumer, with signals that succeed or fail: what was
   received and what is queued are, in that order, the messages put into the ring; cnt stays within 0..size; and a
   blocked consumer leaves a message behind exactly when the last message came without its signal.  So with signals
   that succeed, a consumer that is blocked leaves no message behind.
   */
  lemma RingIsQueue(size: nat, steps: seq<Step>)
    requires 0 < size
    ensures var (s, h) := Run(Initial(size), NOTHING_YET, steps);
            && s.ring.cnt <= size
            && h.received <= h.accepted && Queue(s.ring) == Somes(h.accepted[|h.received|..])
            && (s.consumer == Waiting && s.ring.cnt > 0 <==> h.missed)
            && (s.ring.nextWrite == s.ring.nextRead + s.ring.cnt ||
                s.ring.nextWrite + size == s.ring.nextRead + s.ring.cnt)
            && ((forall step <- steps :: step.SendStep? ==> step.signalOk) ==>
                 h.confirmed == |h.accepted| &&
                 (s.consumer == Waiting ==> s.ring.cnt == 0 && h.received == h.accepted))
  {
    assert Inv(Initial(size), NOTHING_YET);
    RunKeeps(Initial(size), NOTHING_YET, steps);
    if forall step <- steps :: step.SendStep? ==> step.signalOk {
      SignalsDeliver(Initial(size), NOTHING_YET, steps);
    }
  }

  /** A consumer that blocks, and a send whose signal fails: the message stays, and its sender is told of an error. */
  lemma FailedSignalIsMissed(msg: Msg)
    ensures var (s, h) := Run(Initial(1), NOTHING_YET, [Receive] + [SendStep(Some(msg), false)]);
            s.consumer == Waiting && s.ring.cnt == 1 && h.missed && h.accepted == [msg] && h.confirmed == 0
  {
    var s1 := Initial(1).(consumer := Waiting);
    var steps := [Receive] + [SendStep(Some(msg), false)];
    assert steps[1..] == [SendStep(Some(msg), false)] && steps[1..][1..] == [];
    assert Run(Initial(1), NOTHING_YET, steps) == Run(s1, NOTHING_YET, steps[1..]);
  }

  // ---------- the ring in memory ----------

  class MessageRing {
    const ringBuffer: array<Option<Msg>>
    var nextRead: nat
    var nextWrite: nat
    var cnt: nat
    var consumer: Consumer

    ghost predicate Valid()
      reads this
    {
      nextRead < ringBuffer.Length && nextWrite < ringBuffer.Length
    }

    ghost function View(): Sys
      reads this, ringBuffer
    {
      Sys(Ring(ringBuffer[..], nextRead, nextWrite, cnt), consumer)
    }

    constructor Initialize(size: nat)
      requires 0 < size
      ensures Valid() && View() == Initial(size)
    {
      ringBuffer := new Option<Msg>[size](_ => None);
      nextRead, nextWrite, cnt, consumer := 0, 0, 0, Outside;
      new;
      assert ringBuffer[..] == seq(size, _ => None);
    }

    /** signalOk is whether pthread_cond_signal succeeds; when it fails, the message is queued all the same. */
    method SendMsg(msg: Option<Msg>, signalOk: bool) returns (ret: int)
      requires Valid()
      modifies this, ringBuffer
      ensures Valid() && SendSignalling(old(View()), msg, signalOk) == (View(), ret)
    {
      if msg == None {
        return MTK_NFC_ERROR;
      }
      if cnt == ringBuffer.Length {
        return MTK_NFC_ERROR;
      }
      ringBuffer[nextWrite] := msg;
      nextWrite := nextWrite + 1;
      if nextWrite > ringBuffer.Length - 1 {
        nextWrite := 0;
      }
      cnt := cnt + 1;
      if !signalOk {
        return MTK_NFC_ERROR;
      }
      if consumer == Waiting {
        consumer := Signalled;
      }
      return MTK_NFC_SUCCESS;
    }

    /**
     The first section of msg_recv; waits says that it ended in pthread_cond_wait, waitOk that this does not return
     an error.
     */
    method Recv(waitOk: bool) returns (waits: bool, ret: int, msg: Option<Msg>)
      requires Valid() && consumer == Outside
      modifies this
      ensures Valid() && (waits <==> old(cnt) == 0 && waitOk)
      ensures waits ==> View() == Move(old(View()), Receive).0
      ensures old(cnt) == 0 && !waitOk ==> View() == old(View()) && ret == MTK_NFC_ERROR && msg == None
      ensures old(cnt) != 0 ==> Move(old(View()), Receive) == (View(), Some(ret), msg)
    {
      if cnt <= 0 {
        if !waitOk {
          return false, MTK_NFC_ERROR, None;
        }
        consumer := Waiting;
        return true, MTK_NFC_ERROR, None;
      }
      ret, msg := Finish();
      return false, ret, msg;
    }

    /** The rest of msg_recv, with the mutex held again if the wait has returned. */
    method Finish() returns (ret: int, msg: Option<Msg>)
      requires Valid()
      modifies this
      ensures Valid() && Pop(old(View())) == (View(), ret, msg)
    {
      consumer := Outside;
      if ringBuffer[nextRead] == None || cnt <= 0 {
        return MTK_NFC_ERROR, None;
      }
      msg := ringBuffer[nextRead];
      nextRead := nextRead + 1;
      if nextRead > ringBuffer.Length - 1 {
        nextRead := 0;
      }
      cnt := cnt - 1;
      return MTK_NFC_SUCCESS, msg;
    }
  }
}
