/**
 The same ring when the two parties interleave between the loads and stores of one call.  Every load of the other
 party's index and every store to shared memory is a step of its own, in program order.  `Settled` is the ring with
 the half-done stores of the calls in flight carried out.
 */
module CcbInterleaving {
  import opened Common
  import opened CcbRing
  import opened CcbFifo

  /** Where the producer stands; each constructor is named after what it does next. */
  datatype Producer =
    | PIdle
    // write_alloc: three separate loads of free_index, then three stores
    | PTestEqual | PTestAbove | PSpaceAbove | PSpaceBelow
    | PMark | PBump | PWrap(page: nat)
    // write_done: two stores into the page, then the advance loop over index i
    | PStatus(page: nat, length: nat) | PLength(page: nat, length: nat)
    | PLoop(i: nat) | PAdvance(i: nat) | PAdvanceWrap(i: nat)

  /** Where the consumer stands.  `seen` records what was published when write_index was loaded. */
  datatype Consumer =
    | CIdle
    | CLoaded(write: nat, seen: nat) | CCheck | CCopy | CAdvance(page: nat, length: nat) | CWrap
    | CFree(next: nat)

  datatype Sys = Sys(ring: Ring, h: History, published: nat, p: Producer, c: Consumer, faults: nat)

  datatype Step = StartTake | StartFinish(page: nat, length: nat) | Produce | StartLend | StartGiveBack | Consume

  /** Unsigned 32-bit subtraction result. */
  function U32(x: int): int {
    if x < 0 then x + 0x1_0000_0000 else x
  }

  function Wrap(n: nat, i: nat): nat {
    if i >= n then 0 else i
  }

  predicate InRange(s: Sys) {
    var n := |s.ring.pages|;
    && 0 < n < 0x8000_0000 && s.ring.free < n
    && s.ring.read < n + (if s.c.CWrap? then 1 else 0)
    && s.ring.write < n + (if s.p.PAdvanceWrap? then 1 else 0)
    && s.ring.alloc < n + (if s.p.PWrap? then 1 else 0)
    && (s.p.PStatus? || s.p.PLength? ==> s.p.page < n)
    && (s.p.PLoop? || s.p.PAdvance? || s.p.PAdvanceWrap? ==> s.p.i < n)
    && (s.c.CFree? ==> s.c.next < n)
  }

  function Start(ring: Ring): Sys {
    Sys(ring, EMPTY, 0, PIdle, CIdle, 0)
  }

  function ProducerStep(s: Sys): (s': Sys)
    requires InRange(s)
    ensures InRange(s') && |s'.ring.pages| == |s.ring.pages|
  {
    var r, n := s.ring, |s.ring.pages|;
    match s.p
    case PIdle => s
    case PTestEqual =>
      s.(p := if r.alloc == r.free then (if n - 1 != 0 then PMark else PIdle) else PTestAbove)
    case PTestAbove => s.(p := if r.alloc > r.free then PSpaceAbove else PSpaceBelow)
    case PSpaceAbove => s.(p := if U32(n - r.alloc + r.free - 1) != 0 then PMark else PIdle)
    case PSpaceBelow => s.(p := if U32(r.free - r.alloc - 1) != 0 then PMark else PIdle)
    case PMark =>
      s.(ring := r.(pages := r.pages[r.alloc := r.pages[r.alloc].(status := Alloc)]),
         h := s.h.(entries := s.h.entries + [Entry(r.alloc, None)]), p := PBump)
    case PBump => s.(ring := r.(alloc := r.alloc + 1), p := PWrap(r.alloc))
    case PWrap(page) => s.(ring := r.(alloc := Wrap(n, r.alloc)), p := PIdle)
    case PStatus(page, length) =>
      s.(ring := r.(pages := r.pages[page := r.pages[page].(status := Written)]),
         h := s.h.(entries := Complete(s.h.entries, page, length)), p := PLength(page, length))
    case PLength(page, length) =>
      s.(ring := r.(pages := r.pages[page := r.pages[page].(length := length)]), p := PLoop(r.write))
    case PLoop(i) =>
      s.(p := if i != r.alloc && r.pages[i].status == Written then PAdvance(i) else PIdle)
    case PAdvance(i) => s.(ring := r.(write := r.write + 1), published := s.published + 1, p := PAdvanceWrap(i))
    case PAdvanceWrap(i) => s.(ring := r.(write := Wrap(n, r.write)), p := PLoop(Next(n, i)))
  }

  /** The consumer's view of how much is there, from the value of write_index it loaded. */
  function AvailableFrom(n: nat, write: nat, read: nat): int {
    if write - read < 0 then write - read + n else write - read
  }

  function ConsumerStep(s: Sys): (s': Sys)
    requires InRange(s)
    ensures InRange(s') && |s'.ring.pages| == |s.ring.pages|
  {
    var r, n := s.ring, |s.ring.pages|;
    match s.c
    case CIdle => s
    case CLoaded(write, seen) => s.(c := if AvailableFrom(n, write, r.read) != 0 then CCheck else CIdle)
    case CCheck =>
      if r.pages[r.read].status == Written then s.(c := CCopy) else s.(c := CIdle, faults := s.faults + 1)
    case CCopy => s.(c := CAdvance(r.read, r.pages[r.read].length))
    case CAdvance(page, length) =>
      s.(ring := r.(read := r.read + 1), h := s.h.(received := s.h.received + [(page, length)]), c := CWrap)
    case CWrap => s.(ring := r.(read := Wrap(n, r.read)), c := CIdle)
    case CFree(next) => s.(ring := r.(free := next), h := s.h.(freed := s.h.freed + 1), c := CIdle)
  }

  predicate StepFits(n: nat, step: Step) {
    step.StartFinish? ==> step.page < n
  }

  /** A party that is in the middle of a call does not start another one. */
  function Move(s: Sys, step: Step): (s': Sys)
    requires InRange(s) && StepFits(|s.ring.pages|, step)
    ensures InRange(s') && |s'.ring.pages| == |s.ring.pages|
  {
    match step
    case StartTake => if s.p.PIdle? then s.(p := PTestEqual) else s
    case StartFinish(page, length) =>
      if s.p.PIdle? && s.ring.pages[page].status == Alloc then s.(p := PStatus(page, length)) else s
    case Produce => ProducerStep(s)
    case StartLend => if s.c.CIdle? then s.(c := CLoaded(s.ring.write, s.published)) else s
    case StartGiveBack =>
      var next := Next(|s.ring.pages|, s.ring.free);
      if s.c.CIdle? && s.ring.read == next then s.(c := CFree(next)) else s
    case Consume => ConsumerStep(s)
  }

  // ---------- the invariant ----------

  /** The ring once the stores that the calls in flight have begun are all done. */
  function Settled(s: Sys): Ring
    requires InRange(s)
  {
    var r, n := s.ring, |s.ring.pages|;
    Ring(if s.p.PLength? then r.pages[s.p.page := Page(Written, s.p.length)] else r.pages,
         r.free, Wrap(n, r.read), Wrap(n, r.write),
         if s.p.PBump? then Next(n, r.alloc) else Wrap(n, r.alloc))
  }

  predicate Room(s: Sys) {
    |s.h.entries| - s.h.freed < |s.ring.pages| - 1
  }

  /** What the producer may rely on, although the consumer moves in between. */
  ghost predicate ProducerKnows(s: Sys) {
    match s.p
    case PSpaceAbove => s.ring.free <= s.ring.alloc
    case PSpaceBelow => s.ring.alloc < s.ring.free || Room(s)
    case PMark => Room(s)
    case PStatus(page, length) => Entry(page, None) in s.h.entries
    case PLength(page, length) =>
      page < |s.ring.pages| && s.ring.pages[page].status == Written &&
      exists k :: s.published <= k < |s.h.entries| && s.h.entries[k].page == page
    case PLoop(i) => i == s.ring.write
    case PAdvance(i) =>
      i == s.ring.write && s.published < |s.h.entries| && s.h.entries[s.published].length.Some?
    case PAdvanceWrap(i) => i + 1 == s.ring.write
    case _ => true
  }

  /** What the consumer may rely on, although the producer moves in between. */
  ghost predicate ConsumerKnows(s: Sys, b: nat)
    requires b < |s.ring.pages|
  {
    var n, got := |s.ring.pages|, |s.h.received|;
    match s.c
    case CLoaded(write, seen) =>
      got <= seen <= s.published && Wrap(n, write) == Index(n, b, seen) && (write >= n ==> got < seen)
    case CCheck => got < s.published
    case CCopy => got < s.published
    case CAdvance(page, length) =>
      got < s.published <= |s.h.entries| && page == s.ring.read && s.h.entries[got] == Entry(page, Some(length))
    case CFree(next) => s.h.freed + 1 == got && next == Next(n, s.ring.free)
    case _ => true
  }

  predicate Publishing(p: Producer) {
    p.PLength? || p.PLoop? || p.PAdvance? || p.PAdvanceWrap?
  }

  ghost predicate SysInv(s: Sys, b: nat) {
    && InRange(s) && s.faults == 0
    && Core(Settled(s), s.h, b, s.published)
    && ProducerKnows(s) && ConsumerKnows(s, b)
    && (!Publishing(s.p) ==> s.published == FinishedPrefix(s.h.entries))
  }

  // ---------- the producer's steps ----------

  /** How far apart allocate and free are, by the order of their indices. */
  lemma IndexOrder(s: Sys, b: nat)
    requires InRange(s) && Core(Settled(s), s.h, b, s.published) && !s.p.PBump? && !s.p.PWrap?
    ensures var n, out := |s.ring.pages|, |s.h.entries| - s.h.freed;
            && 0 <= out <= n - 1
            && out == if s.ring.alloc >= s.ring.free then s.ring.alloc - s.ring.free
                      else s.ring.alloc + n - s.ring.free
  {
    IndexGap(|s.ring.pages|, b, s.h.freed, |s.h.entries|);
  }

  predicate Deciding(p: Producer) {
    p.PTestEqual? || p.PTestAbove? || p.PSpaceAbove? || p.PSpaceBelow?
  }

  /** A decision taken after three separate loads of free_index is the right one for the last of them. */
  lemma SpaceDecision(s: Sys, b: nat)
    requires SysInv(s, b) && Deciding(s.p)
    ensures ProducerKnows(ProducerStep(s))
    ensures ProducerStep(s).p == PMark ==> Room(s)
    ensures ProducerStep(s).p == PIdle ==> |s.h.entries| - s.h.freed == |s.ring.pages| - 1
  {
    IndexOrder(s, b);
  }

  lemma SpaceLoads(s: Sys, b: nat)
    requires SysInv(s, b) && Deciding(s.p)
    ensures SysInv(ProducerStep(s), b)
  {
    hide Core, ProducerKnows, Space;
    SpaceDecision(s, b);
    var s' := ProducerStep(s);
    assert s' == s.(p := s'.p) && !Publishing(s'.p);
    assert Settled(s') == Settled(s);
  }

  lemma MarkStep(s: Sys, b: nat)
    requires SysInv(s, b) && s.p.PMark?
    ensures SysInv(ProducerStep(s), b)
  {
    TakeKeepsCore(Settled(s), s.h, b, s.published);
    FinishedPrefixStops(s.h.entries);
    FinishedPrefixIs(s.h.entries + [Entry(s.ring.alloc, None)], s.published);
    assert Settled(ProducerStep(s)).pages == s.ring.pages[s.ring.alloc := s.ring.pages[s.ring.alloc].(status := Alloc)];
  }

  /** The consumer's knowledge survives whatever the producer does to unfinished entries. */
  lemma ConsumerUndisturbed(s: Sys, s': Sys, b: nat)
    requires b < |s.ring.pages| == |s'.ring.pages| && ConsumerKnows(s, b)
    requires s'.c == s.c && s'.h.received == s.h.received && s'.h.freed == s.h.freed
    requires s'.ring.read == s.ring.read && s'.ring.free == s.ring.free && s.published <= s'.published
    requires s.published <= |s.h.entries| <= |s'.h.entries| && s'.published <= |s'.h.entries|
    requires forall k :: 0 <= k < s.published ==> s'.h.entries[k] == s.h.entries[k]
    ensures ConsumerKnows(s', b)
  {
  }

  lemma StatusSettles(s: Sys, b: nat)
    requires SysInv(s, b) && s.p.PStatus?
    ensures Core(Settled(ProducerStep(s)), ProducerStep(s).h, b, s.published)
  {
    hide Core, ConsumerKnows;
    var page, length, r := s.p.page, s.p.length, Settled(s);
    CompleteKeepsCore(r, s.h, b, s.published, page, length);
    assert ProducerStep(s).ring.pages[page := Page(Written, length)] == r.pages[page := Page(Written, length)];
    assert Settled(ProducerStep(s)) == r.(pages := r.pages[page := Page(Written, length)]);
  }

  /** A page that is being written has an entry, and it is not published yet. */
  lemma PendingPosition(r: Ring, h: History, b: nat, published: nat, page: nat) returns (k: nat)
    requires Core(r, h, b, published) && Entry(page, None) in h.entries
    ensures published <= k < |h.entries| && h.entries[k] == Entry(page, None)
    ensures forall j :: 0 <= j < published ==> h.entries[j].length.Some?
  {
    k :| 0 <= k < |h.entries| && h.entries[k] == Entry(page, None);
  }

  lemma StatusInFlight(s: Sys, b: nat)
    requires SysInv(s, b) && s.p.PStatus?
    ensures ProducerKnows(ProducerStep(s))
    ensures forall k :: 0 <= k < s.published ==> ProducerStep(s).h.entries[k] == s.h.entries[k]
  {
    hide Core, ConsumerKnows, Settled;
    var k := PendingPosition(Settled(s), s.h, b, s.published, s.p.page);
    assert ProducerStep(s).h.entries[k].page == s.p.page;
  }

  lemma StatusStep(s: Sys, b: nat)
    requires SysInv(s, b) && s.p.PStatus?
    ensures SysInv(ProducerStep(s), b)
  {
    StatusSettles(s, b);
    StatusInFlight(s, b);
    ConsumerUndisturbed(s, ProducerStep(s), b);
  }

  lemma LengthStep(s: Sys, b: nat)
    requires SysInv(s, b) && s.p.PLength?
    ensures SysInv(ProducerStep(s), b)
  {
    assert Settled(ProducerStep(s)).pages == Settled(s).pages;
  }

  /** The loop stops at the allocate index or at a page still being written, and nowhere else. */
  lemma LoopDecision(s: Sys, b: nat)
    requires SysInv(s, b) && s.p.PLoop?
    ensures ProducerStep(s).p.PAdvance? ==> s.published < |s.h.entries| && s.h.entries[s.published].length.Some?
    ensures ProducerStep(s).p.PIdle? ==> s.published == FinishedPrefix(s.h.entries)
  {
    IndexGap(|s.ring.pages|, b, s.published, |s.h.entries|);
    if s.published < |s.h.entries| {
      assert Holds(s.ring.pages[s.h.entries[s.published].page], s.h.entries[s.published]);
    }
    if ProducerStep(s).p.PIdle? {
      FinishedPrefixIs(s.h.entries, s.published);
    }
  }

  lemma LoopStep(s: Sys, b: nat)
    requires SysInv(s, b) && s.p.PLoop?
    ensures SysInv(ProducerStep(s), b)
  {
    LoopDecision(s, b);
    assert Settled(ProducerStep(s)) == Settled(s);
  }

  lemma AdvanceStep(s: Sys, b: nat)
    requires SysInv(s, b) && s.p.PAdvance?
    ensures SysInv(ProducerStep(s), b)
  {
    hide Core;
    var s', r := ProducerStep(s), Settled(s);
    CoreBounds(r, s.h, b, s.published);
    PublishOneKeepsCore(r, s.h, b, s.published);
    assert Settled(s') == r.(write := Next(|r.pages|, r.write));
    ConsumerUndisturbed(s, s', b);
  }

  lemma AdvanceWrapStep(s: Sys, b: nat)
    requires SysInv(s, b) && s.p.PAdvanceWrap?
    ensures SysInv(ProducerStep(s), b)
  {
    var s' := ProducerStep(s);
    assert Settled(s') == Settled(s);
    ConsumerUndisturbed(s, s', b);
  }

  lemma BumpStep(s: Sys, b: nat)
    requires SysInv(s, b) && (s.p.PBump? || s.p.PWrap?)
    ensures SysInv(ProducerStep(s), b)
  {
    assert Settled(ProducerStep(s)) == Settled(s);
  }

  lemma ProducerKeeps(s: Sys, b: nat)
    requires SysInv(s, b)
    ensures SysInv(ProducerStep(s), b)
  {
    match s.p
    case PIdle =>
    case PTestEqual => SpaceLoads(s, b);
    case PTestAbove => SpaceLoads(s, b);
    case PSpaceAbove => SpaceLoads(s, b);
    case PSpaceBelow => SpaceLoads(s, b);
    case PMark => MarkStep(s, b);
    case PBump => BumpStep(s, b);
    case PWrap(page) => BumpStep(s, b);
    case PStatus(page, length) => StatusStep(s, b);
    case PLength(page, length) => LengthStep(s, b);
    case PLoop(i) => LoopStep(s, b);
    case PAdvance(i) => AdvanceStep(s, b);
    case PAdvanceWrap(i) => AdvanceWrapStep(s, b);
  }

  // ---------- the consumer's steps ----------

  /** The producer's knowledge survives whatever the consumer does. */
  lemma ProducerUndisturbed(s: Sys, s': Sys, b: nat)
    requires SysInv(s, b) && s'.p == s.p && s'.published == s.published && s'.h.entries == s.h.entries
    requires s'.ring == s.ring.(read := s'.ring.read)
    requires s.h.freed == s'.h.freed
    ensures ProducerKnows(s')
  {
  }

  lemma LoadedStep(s: Sys, b: nat)
    requires SysInv(s, b) && s.c.CLoaded?
    ensures SysInv(ConsumerStep(s), b)
  {
    hide Placed, Stored, AllFinished, InOrder, ProducerKnows;
    var s' := ConsumerStep(s);
    IndexGap(|s.ring.pages|, b, |s.h.received|, s.c.seen);
    assert Settled(s') == Settled(s);
    ProducerUndisturbed(s, s', b);
  }

  /** A published page that is about to be received is not the one whose stores are in flight. */
  lemma PublishedPageIsStored(s: Sys, b: nat)
    requires SysInv(s, b) && (s.c.CCheck? || s.c.CCopy?)
    ensures Settled(s).read == s.ring.read
    ensures s.h.entries[|s.h.received|] == Entry(s.ring.read, Some(s.ring.pages[s.ring.read].length))
    ensures s.ring.pages[s.ring.read].status == Written
  {
    LendKeepsCore(Settled(s), s.h, b, s.published);
    if s.p.PLength? {
      var k :| s.published <= k < |s.h.entries| && s.h.entries[k].page == s.p.page;
      WindowApart(|s.ring.pages|, b, s.h.entries, |s.h.received|, k);
    }
  }

  lemma CheckStep(s: Sys, b: nat)
    requires SysInv(s, b) && (s.c.CCheck? || s.c.CCopy?)
    ensures SysInv(ConsumerStep(s), b)
  {
    PublishedPageIsStored(s, b);
    var s' := ConsumerStep(s);
    assert Settled(s') == Settled(s);
    ProducerUndisturbed(s, s', b);
  }

  lemma AdvanceReadStep(s: Sys, b: nat)
    requires SysInv(s, b) && s.c.CAdvance?
    ensures SysInv(ConsumerStep(s), b)
  {
    var s', r := ConsumerStep(s), Settled(s);
    LendKeepsCore(r, s.h, b, s.published);
    assert Settled(s') == r.(read := Next(|r.pages|, r.read));
    ProducerUndisturbed(s, s', b);
  }

  lemma WrapReadStep(s: Sys, b: nat)
    requires SysInv(s, b) && s.c.CWrap?
    ensures SysInv(ConsumerStep(s), b)
  {
    var s' := ConsumerStep(s);
    assert Settled(s') == Settled(s);
    ProducerUndisturbed(s, s', b);
  }

  /** Giving a page back makes room, and cannot carry free past allocate. */
  lemma FreeHelpsProducer(s: Sys, b: nat)
    requires SysInv(s, b) && s.c.CFree?
    ensures ProducerKnows(ConsumerStep(s))
  {
    if s.p.PSpaceAbove? {
      IndexOrder(s, b);
    }
  }

  lemma FreeStep(s: Sys, b: nat)
    requires SysInv(s, b) && s.c.CFree?
    ensures SysInv(ConsumerStep(s), b)
  {
    hide Core;
    var s', r := ConsumerStep(s), Settled(s);
    CoreCounts(r, s.h, b, s.published);
    FreeKeepsCore(r, s.h, b, s.published);
    assert Settled(s') == r.(free := Next(|r.pages|, r.free));
    FreeHelpsProducer(s, b);
  }

  lemma CoreCounts(r: Ring, h: History, b: nat, published: nat)
    requires Core(r, h, b, published)
    ensures b < |r.pages| && h.freed <= |h.received| <= published <= |h.entries|
  {
  }

  lemma ConsumerKeeps(s: Sys, b: nat)
    requires SysInv(s, b)
    ensures SysInv(ConsumerStep(s), b)
  {
    match s.c
    case CIdle =>
    case CLoaded(write, seen) => LoadedStep(s, b);
    case CCheck => CheckStep(s, b);
    case CCopy => CheckStep(s, b);
    case CAdvance(page, length) => AdvanceReadStep(s, b);
    case CWrap => WrapReadStep(s, b);
    case CFree(next) => FreeStep(s, b);
  }

  // ---------- starting calls ----------

  /**
   The one load that can go wrong: write_index is incremented before it is wrapped, and a consumer standing at
   index 0 that loads the value in between takes it for a full ring.
   */
  predicate Coherent(s: Sys, step: Step) {
    !(step == StartLend && s.ring.write == |s.ring.pages| && s.ring.read == 0)
  }

  /** What a consumer concludes from the write_index it loads is right exactly when the load is coherent. */
  lemma LoadIsRightIffCoherent(s: Sys, b: nat)
    requires SysInv(s, b) && s.c.CIdle?
    ensures (AvailableFrom(|s.ring.pages|, s.ring.write, s.ring.read) == s.published - |s.h.received|) <==>
            Coherent(s, StartLend)
    ensures (AvailableFrom(|s.ring.pages|, s.ring.write, s.ring.read) != 0 <==> |s.h.received| < s.published) <==>
            Coherent(s, StartLend)
  {
    IndexGap(|s.ring.pages|, b, |s.h.received|, s.published);
  }

  lemma StartLendKeeps(s: Sys, b: nat)
    requires SysInv(s, b) && Coherent(s, StartLend)
    ensures SysInv(Move(s, StartLend), b)
  {
    if s.c.CIdle? {
      var s' := Move(s, StartLend);
      LoadIsRightIffCoherent(s, b);
      assert Settled(s') == Settled(s);
      ProducerUndisturbed(s, s', b);
    }
  }

  lemma StartProducerKeeps(s: Sys, b: nat, step: Step)
    requires SysInv(s, b) && StepFits(|s.ring.pages|, step) && (step.StartTake? || step.StartFinish?)
    ensures SysInv(Move(s, step), b)
  {
    var s' := Move(s, step);
    assert Settled(s') == Settled(s);
    ConsumerUndisturbed(s, s', b);
  }

  lemma LentExactlyOne(s: Sys, b: nat)
    requires SysInv(s, b) && s.c.CIdle?
    ensures s.ring.read == Next(|s.ring.pages|, s.ring.free) <==> |s.h.received| == s.h.freed + 1
  {
    IndexGap(|s.ring.pages|, b, s.h.freed, |s.h.received|);
  }

  lemma StartGiveBackKeeps(s: Sys, b: nat)
    requires SysInv(s, b)
    ensures SysInv(Move(s, StartGiveBack), b)
  {
    if s.c.CIdle? {
      LentExactlyOne(s, b);
      var s' := Move(s, StartGiveBack);
      assert Settled(s') == Settled(s);
      ProducerUndisturbed(s, s', b);
    }
  }

  lemma MoveKeeps(s: Sys, b: nat, step: Step)
    requires SysInv(s, b) && StepFits(|s.ring.pages|, step) && Coherent(s, step)
    ensures SysInv(Move(s, step), b)
  {
    match step
    case Produce => ProducerKeeps(s, b);
    case Consume => ConsumerKeeps(s, b);
    case StartLend => StartLendKeeps(s, b);
    case StartGiveBack => StartGiveBackKeeps(s, b);
    case StartTake => StartProducerKeeps(s, b, step);
    case StartFinish(page, length) => StartProducerKeeps(s, b, step);
  }

  // ---------- whole runs ----------

  ghost predicate CoherentRun(s: Sys, steps: seq<Step>)
    requires InRange(s) && forall step <- steps :: StepFits(|s.ring.pages|, step)
    decreases |steps|
  {
    steps != [] ==> Coherent(s, steps[0]) && CoherentRun(Move(s, steps[0]), steps[1..])
  }

  function Moves(s: Sys, steps: seq<Step>): (s': Sys)
    requires InRange(s) && forall step <- steps :: StepFits(|s.ring.pages|, step)
    ensures InRange(s') && |s'.ring.pages| == |s.ring.pages|
    decreases |steps|
  {
    if steps == [] then s else Moves(Move(s, steps[0]), steps[1..])
  }

  lemma {:induction false} RunKeeps(s: Sys, b: nat, steps: seq<Step>)
    requires SysInv(s, b) && (forall step <- steps :: StepFits(|s.ring.pages|, step)) && CoherentRun(s, steps)
    ensures SysInv(Moves(s, steps), b)
    decreases |steps|
  {
    if steps != [] {
      MoveKeeps(s, b, steps[0]);
      RunKeeps(Move(s, steps[0]), b, steps[1..]);
    }
  }

  /**
   Main result.  In every interleaving of loads and stores with coherent loads: what was received is what was
   allocated first, in allocation order and once each, with the completed lengths; no read_get ever meets a page
   that is not written; no page is handed out while it is out; and whenever the producer is not inside write_done
   the published prefix is the longest finished one.
   */
  lemma InterleavingsAreFifo(ring: Ring, steps: seq<Step>)
    requires Fresh(ring) && 2 <= |ring.pages| < 0x8000_0000
    requires forall step <- steps :: StepFits(|ring.pages|, step)
    requires CoherentRun(Start(ring), steps)
    ensures var s := Moves(Start(ring), steps);
            && s.faults == 0
            && s.h.freed <= |s.h.received| <= s.published <= |s.h.entries| <= s.h.freed + |ring.pages| - 1
            && (forall k :: 0 <= k < |s.h.received| ==>
                 s.h.entries[k] == Entry(s.h.received[k].0, Some(s.h.received[k].1)))
            && (forall j, k :: s.h.freed <= j < k < |s.h.entries| ==> s.h.entries[j].page != s.h.entries[k].page)
            && (!Publishing(s.p) ==> s.published == FinishedPrefix(s.h.entries))
  {
    var b := ring.free;
    assert Settled(Start(ring)) == ring;
    assert Core(ring, EMPTY, b, 0);
    RunKeeps(Start(ring), b, steps);
    var s := Moves(Start(ring), steps);
    forall j, k | s.h.freed <= j < k < |s.h.entries|
      ensures s.h.entries[j].page != s.h.entries[k].page
    {
      WindowApart(|s.ring.pages|, b, s.h.entries, j, k);
    }
  }

  /** A producer that is not between the increment and the wrap of write_index makes every load coherent. */
  lemma OnlyTheWrapIsIncoherent(s: Sys, step: Step)
    requires InRange(s) && !s.p.PAdvanceWrap?
    ensures Coherent(s, step)
  {
  }

  /** The consumer never starts a read_get between the increment and the wrap, as if both were one store. */
  ghost predicate AdvanceIsOneStore(s: Sys, steps: seq<Step>)
    requires InRange(s) && forall step <- steps :: StepFits(|s.ring.pages|, step)
    decreases |steps|
  {
    steps != [] ==>
      !(steps[0] == StartLend && s.p.PAdvanceWrap?) && AdvanceIsOneStore(Move(s, steps[0]), steps[1..])
  }

  /** Then every load is coherent, whatever else is interleaved with what. */
  lemma {:induction false} OneStoreIsCoherent(s: Sys, steps: seq<Step>)
    requires InRange(s) && (forall step <- steps :: StepFits(|s.ring.pages|, step)) && AdvanceIsOneStore(s, steps)
    ensures CoherentRun(s, steps)
    decreases |steps|
  {
    hide Move;
    if steps != [] {
      OneStoreIsCoherent(Move(s, steps[0]), steps[1..]);
    }
  }

  lemma {:induction false} MovesThen(s: Sys, steps: seq<Step>, more: seq<Step>)
    requires InRange(s) && forall step <- steps + more :: StepFits(|s.ring.pages|, step)
    ensures forall step <- steps :: step in steps + more
    ensures forall step <- more :: step in steps + more
    ensures Moves(s, steps + more) == Moves(Moves(s, steps), more)
    decreases |steps|
  {
    if steps == [] {
      assert steps + more == more;
    } else {
      assert (steps + more)[1..] == steps[1..] + more;
      MovesThen(Move(s, steps[0]), steps[1..], more);
    }
  }

  lemma MovesOn(s: Sys, steps: seq<Step>, k: nat)
    requires InRange(s) && k < |steps| && forall step <- steps :: StepFits(|s.ring.pages|, step)
    ensures forall step <- steps[k..] :: step in steps
    ensures forall step <- steps[k + 1..] :: step in steps
    ensures StepFits(|s.ring.pages|, steps[k])
    ensures Moves(s, steps[k..]) == Moves(Move(s, steps[k]), steps[k + 1..])
  {
    assert steps[k..][1..] == steps[k + 1..];
  }

  lemma FiveMoves(s: Sys, steps: seq<Step>)
    requires InRange(s) && |steps| == 5 && forall i :: 0 <= i < 5 ==> StepFits(|s.ring.pages|, steps[i])
    ensures forall step <- steps :: StepFits(|s.ring.pages|, step)
    ensures Moves(s, steps) ==
            Move(Move(Move(Move(Move(s, steps[0]), steps[1]), steps[2]), steps[3]), steps[4])
  {
    hide Moves, Move, StepFits;
    assert steps[0..] == steps && steps[5..] == [];
    MovesOn(s, steps, 0);
    var s1 := Move(s, steps[0]);
    MovesOn(s1, steps, 1);
    var s2 := Move(s1, steps[1]);
    MovesOn(s2, steps, 2);
    var s3 := Move(s2, steps[2]);
    MovesOn(s3, steps, 3);
    var s4 := Move(s3, steps[3]);
    MovesOn(s4, steps, 4);
    NoMoves(Move(s4, steps[4]));
  }

  lemma NoMoves(s: Sys)
    requires InRange(s)
    ensures Moves(s, []) == s
  {
  }

  // The failing run, in four parts: page 1 of a ring of two is taken; it is completed and write_index incremented
  // to 2; the consumer receives it and asks again while write_index is still 2.
  const TAKING := [StartTake, Produce, Produce, Produce, Produce]
  const FINISHING := [StartFinish(1, 9), Produce, Produce, Produce, Produce]
  const READING := [StartLend, Consume, Consume, Consume, Consume]
  const READING_AGAIN := [Consume, StartLend, Consume, Consume, Consume]

  const OLD_LAP := Ring([Page(Written, 7), Page(Blank, 0)], 1, 1, 1, 1)
  const TAKEN := Sys(Ring([Page(Written, 7), Page(Alloc, 0)], 1, 1, 1, 0), History([Entry(1, None)], [], 0), 0,
                     PIdle, CIdle, 0)
  const INCREMENTED := Sys(Ring([Page(Written, 7), Page(Written, 9)], 1, 1, 2, 0),
                           History([Entry(1, Some(9))], [], 0), 1, PAdvanceWrap(1), CIdle, 0)

  lemma ConsumeKeeps(s: Sys, b: nat)
    requires SysInv(s, b)
    ensures SysInv(Move(s, Consume), b)
  {
    ConsumerKeeps(s, b);
  }

  lemma CoherentLendIsRight(s: Sys, b: nat)
    requires SysInv(s, b) && Coherent(s, StartLend)
    ensures SysInv(Move(Move(Move(Move(Move(s, StartLend), Consume), Consume), Consume), Consume), b)
  {
    hide SysInv, Move, Coherent;
    InvInRange(s, b);
    var s1 := Move(s, StartLend);
    MoveKeeps(s, b, StartLend);
    ConsumeKeeps(s1, b);
    var s2 := Move(s1, Consume);
    ConsumeKeeps(s2, b);
    var s3 := Move(s2, Consume);
    ConsumeKeeps(s3, b);
    ConsumeKeeps(Move(s3, Consume), b);
  }

  lemma InvInRange(s: Sys, b: nat)
    requires SysInv(s, b)
    ensures InRange(s) && s.faults == 0 && |s.h.received| <= s.published
  {
  }

  /** Seen unwrapped from index 0, write_index makes the consumer check a page although nothing is published for it. */
  lemma IncoherentLendGoesWrong(s: Sys, b: nat)
    requires SysInv(s, b) && s.c.CIdle? && !Coherent(s, StartLend)
    ensures var s' := Move(Move(Move(Move(Move(s, StartLend), Consume), Consume), Consume), Consume);
            s'.faults > 0 || |s'.h.received| > s'.published
  {
    IndexGap(|s.ring.pages|, b, |s.h.received|, s.published);
  }

  /**
   A read_get that is let run to its end, whatever the producer has in flight, meets no unwritten page and receives no
   more than was published exactly when its load of write_index is coherent.
   */
  lemma LendIsRightIffCoherent(s: Sys, b: nat)
    requires SysInv(s, b) && s.c.CIdle?
    ensures forall i :: 0 <= i < 5 ==> StepFits(|s.ring.pages|, READING[i])
    ensures (forall step <- READING :: StepFits(|s.ring.pages|, step)) &&
            var s' := Moves(s, READING);
            s'.faults == 0 && |s'.h.received| <= s'.published <==> Coherent(s, StartLend)
  {
    hide SysInv, Move, Moves, Coherent;
    InvInRange(s, b);
    assert forall i :: 0 <= i < 5 ==> StepFits(|s.ring.pages|, READING[i]);
    FiveMoves(s, READING);
    if Coherent(s, StartLend) {
      CoherentLendIsRight(s, b);
      InvInRange(Moves(s, READING), b);
    } else {
      IncoherentLendGoesWrong(s, b);
    }
  }

  lemma PhantomTaken()
    ensures Moves(Start(OLD_LAP), TAKING) == TAKEN
  {
    hide Moves;
    FiveMoves(Start(OLD_LAP), TAKING);
  }

  lemma PhantomIncremented()
    ensures Moves(TAKEN, FINISHING) == INCREMENTED
  {
    hide Moves;
    FiveMoves(TAKEN, FINISHING);
    var s := Move(Move(TAKEN, StartFinish(1, 9)), Produce);
    assert s.h.entries == [Entry(1, Some(9))];
  }

  lemma PhantomReceived()
    ensures var s := Moves(Moves(INCREMENTED, READING), READING_AGAIN);
            Move(s, Consume).h.received == [(1, 9), (0, 7)] && Move(s, Consume).h.entries == [Entry(1, Some(9))]
  {
    hide Moves;
    FiveMoves(INCREMENTED, READING);
    FiveMoves(Moves(INCREMENTED, READING), READING_AGAIN);
  }

  /** In this run, from a fresh ring, one page is allocated and two are received: the second is from an old lap. */
  lemma PhantomPage()
    ensures Fresh(OLD_LAP)
    ensures var s := Moves(Start(OLD_LAP), TAKING + FINISHING + READING + READING_AGAIN + [Consume]);
            s.h.received == [(1, 9), (0, 7)] && s.h.entries == [Entry(1, Some(9))]
  {
    hide Move;
    PhantomTaken();
    PhantomIncremented();
    PhantomReceived();
    MovesThen(Start(OLD_LAP), TAKING, FINISHING);
    MovesThen(Start(OLD_LAP), TAKING + FINISHING, READING);
    MovesThen(Start(OLD_LAP), TAKING + FINISHING + READING, READING_AGAIN);
    MovesThen(Start(OLD_LAP), TAKING + FINISHING + READING + READING_AGAIN, [Consume]);
  }
}
