/**
 The CCB ring refines a FIFO of capacity N-1.  `History` is what the two parties can observe of a run: the pages
 handed out in allocation order with the length each was completed with, the pages received, and how many of
 those were given back.  `Legal` is the FIFO itself, stated on histories without any index.
 */
module CcbFifo {
  import opened Common
  import opened CcbRing

  datatype Op = Take | Finish(page: nat, length: nat) | Lend | GiveBack | Attach

  datatype Entry = Entry(page: nat, length: Option<nat>)

  datatype History = History(entries: seq<Entry>, received: seq<(nat, nat)>, freed: nat)

  const EMPTY := History([], [], 0)

  /** Entries before the first one that is still being written. */
  function FinishedPrefix(entries: seq<Entry>): (k: nat)
    ensures k <= |entries|
  {
    if entries == [] || entries[0].length.None? then 0 else 1 + FinishedPrefix(entries[1..])
  }

  /** The replies a FIFO of n-1 pages may give after history h. */
  ghost predicate Legal(n: nat, h: History, op: Op, reply: Reply) {
    h.freed <= |h.received| <= FinishedPrefix(h.entries) &&
    match op
    case Take =>
      if |h.entries| - h.freed == n - 1 then reply == NoPage
      else reply.Handed? && reply.page < n && (forall e <- h.entries[h.freed..] :: e.page != reply.page)
    case Finish(page, length) =>
      reply == if Entry(page, None) in h.entries then Accepted else BadArgument
    case Lend =>
      if |h.received| == FinishedPrefix(h.entries) then reply == TryAgain
      else reply.Got? && h.entries[|h.received|] == Entry(reply.page, Some(reply.length))
    case GiveBack =>
      reply == if |h.received| - h.freed == 1 then Accepted else BadState
    case Attach =>
      reply == Accepted
  }

  function Complete(entries: seq<Entry>, page: nat, length: nat): (s: seq<Entry>)
    ensures |s| == |entries|
  {
    seq(|entries|, i requires 0 <= i < |entries| =>
      if entries[i] == Entry(page, None) then Entry(page, Some(length)) else entries[i])
  }

  /** The history after one more call and its reply. */
  function Observe(h: History, op: Op, reply: Reply): History {
    match op
    case Take => if reply.Handed? then h.(entries := h.entries + [Entry(reply.page, None)]) else h
    case Finish(page, length) => if reply.Accepted? then h.(entries := Complete(h.entries, page, length)) else h
    case Lend => if reply.Got? then h.(received := h.received + [(reply.page, reply.length)]) else h
    case GiveBack => if reply.Accepted? then h.(freed := h.freed + 1) else h
    case Attach => h.(freed := |h.received|)
  }

  predicate Fits(n: nat, op: Op) {
    op.Finish? ==> op.page < n
  }

  function Apply(r: Ring, op: Op): (res: (Ring, Reply))
    requires r.Valid() && Fits(|r.pages|, op)
    ensures res.0.Valid() && |res.0.pages| == |r.pages|
  {
    match op
    case Take => TakePage(r)
    case Finish(page, length) => FinishPage(r, page, length)
    case Lend => LendPage(r)
    case GiveBack => ReturnPage(r)
    case Attach => (AttachReader(r), Accepted)
  }

  // ---------- from counts to indices ----------

  /** The index reached after k steps from index b. */
  ghost function Index(n: nat, b: nat, k: nat): (i: nat)
    requires b < n
    ensures i < n
  {
    if k == 0 then b else Next(n, Index(n, b, k - 1))
  }

  lemma {:induction false} IndexGap(n: nat, b: nat, j: nat, k: nat)
    requires b < n && j <= k < j + n
    ensures Index(n, b, k) ==
            if Index(n, b, j) + (k - j) < n then Index(n, b, j) + (k - j) else Index(n, b, j) + (k - j) - n
  {
    if j < k {
      IndexGap(n, b, j, k - 1);
    }
  }

  // ---------- the coupling invariant ----------

  ghost predicate Holds(page: Page, e: Entry) {
    match e.length
    case None => page.status == Alloc
    case Some(length) => page == Page(Written, length)
  }

  /** Allocations walk around the ring, and entry k sits where the k-th step lands. */
  ghost predicate Placed(n: nat, b: nat, entries: seq<Entry>)
    requires b < n
  {
    forall k :: 0 <= k < |entries| ==> entries[k].page == Index(n, b, k)
  }

  /** Every page that has not been given back still holds what its entry says. */
  ghost predicate Stored(pages: seq<Page>, entries: seq<Entry>, freed: nat) {
    && (forall k :: freed <= k < |entries| ==> entries[k].page < |pages| && Holds(pages[entries[k].page], entries[k]))
    && (forall p :: 0 <= p < |pages| && pages[p].status == Alloc ==> Entry(p, None) in entries)
  }

  ghost predicate AllFinished(entries: seq<Entry>, published: nat)
    requires published <= |entries|
  {
    forall k :: 0 <= k < published ==> entries[k].length.Some?
  }

  /** The pages received are the first entries, in order, with their completed lengths. */
  ghost predicate InOrder(entries: seq<Entry>, received: seq<(nat, nat)>) {
    |received| <= |entries| &&
    forall k :: 0 <= k < |received| ==> entries[k] == Entry(received[k].0, Some(received[k].1))
  }

  /** Ring state r after history h, the first `published` entries being visible to the consumer. */
  ghost predicate Core(r: Ring, h: History, b: nat, published: nat) {
    var n := |r.pages|;
    && b < n && 2 <= n && Placed(n, b, h.entries) && Stored(r.pages, h.entries, h.freed)
    && h.freed <= |h.received| <= published <= |h.entries| && |h.entries| - h.freed <= n - 1
    && AllFinished(h.entries, published) && InOrder(h.entries, h.received)
    && r.free == Index(n, b, h.freed) && r.read == Index(n, b, |h.received|)
    && r.write == Index(n, b, published) && r.alloc == Index(n, b, |h.entries|)
  }

  /** Between calls the write index is maximal: it stands at the first page still being written. */
  ghost predicate Inv(r: Ring, h: History, b: nat) {
    Core(r, h, b, FinishedPrefix(h.entries))
  }

  lemma CoreBounds(r: Ring, h: History, b: nat, published: nat)
    requires Core(r, h, b, published)
    ensures b < |r.pages| && r.Valid() && h.freed <= |h.received| <= published <= |h.entries|
    ensures r.write == Index(|r.pages|, b, published)
  {
  }

  lemma InvBounds(r: Ring, h: History, b: nat)
    requires Inv(r, h, b)
    ensures h.freed <= |h.received| <= FinishedPrefix(h.entries) <= |h.entries| <= h.freed + |r.pages| - 1
    ensures 2 <= |r.pages| && r.Valid()
  {
  }

  lemma {:induction false} FinishedPrefixIs(entries: seq<Entry>, k: nat)
    requires k <= |entries| && (forall i :: 0 <= i < k ==> entries[i].length.Some?)
    requires k == |entries| || entries[k].length.None?
    ensures FinishedPrefix(entries) == k
  {
    if k > 0 {
      FinishedPrefixIs(entries[1..], k - 1);
    }
  }

  lemma {:induction false} FinishedPrefixStops(entries: seq<Entry>)
    ensures var k := FinishedPrefix(entries);
            (forall i :: 0 <= i < k ==> entries[i].length.Some?) && (k == |entries| || entries[k].length.None?)
  {
    if entries != [] && entries[0].length.Some? {
      FinishedPrefixStops(entries[1..]);
      forall i | 0 <= i < FinishedPrefix(entries)
        ensures entries[i].length.Some?
      {
        if i > 0 {
          assert entries[i] == entries[1..][i - 1];
        }
      }
    }
  }

  /** Pages that are not yet given back are pairwise different, and different from the one allocated next. */
  lemma WindowApart(n: nat, b: nat, entries: seq<Entry>, j: nat, k: nat)
    requires b < n && Placed(n, b, entries) && j < |entries| && j < k <= |entries| && k < j + n
    ensures entries[j].page != Index(n, b, k)
    ensures k < |entries| ==> entries[j].page != entries[k].page
  {
    IndexGap(n, b, j, k);
  }

  /** The space computation is exact whatever the wrap-around. */
  lemma SpaceIsFree(n: nat, b: nat, freed: nat, issued: nat)
    requires b < n && freed <= issued && issued - freed <= n - 1
    ensures Space(n, Index(n, b, issued), Index(n, b, freed)) == n - 1 - (issued - freed)
  {
    IndexGap(n, b, freed, issued);
  }

  /** The page at the allocate index is one the consumer has given back. */
  lemma NextPageIsFree(r: Ring, h: History, b: nat, published: nat)
    requires Core(r, h, b, published) && |h.entries| - h.freed < |r.pages| - 1
    ensures forall e <- h.entries[h.freed..] :: e.page != r.alloc
    ensures Entry(r.alloc, None) !in h.entries
  {
    forall k | h.freed <= k < |h.entries|
      ensures h.entries[k].page != r.alloc
    {
      WindowApart(|r.pages|, b, h.entries, k, |h.entries|);
    }
  }

  /** Marking that page and appending its entry keeps what is stored for all the others. */
  lemma TakeKeepsStored(r: Ring, h: History, b: nat, published: nat)
    requires Core(r, h, b, published) && |h.entries| - h.freed < |r.pages| - 1
    ensures Stored(r.pages[r.alloc := r.pages[r.alloc].(status := Alloc)], h.entries + [Entry(r.alloc, None)],
                   h.freed)
  {
    NextPageIsFree(r, h, b, published);
    var entries' := h.entries + [Entry(r.alloc, None)];
    var pages' := r.pages[r.alloc := r.pages[r.alloc].(status := Alloc)];
    forall k | h.freed <= k < |entries'|
      ensures entries'[k].page < |pages'| && Holds(pages'[entries'[k].page], entries'[k])
    {
      if k < |h.entries| {
        assert h.entries[k] in h.entries[h.freed..];
      }
    }
    forall p | 0 <= p < |pages'| && pages'[p].status == Alloc
      ensures Entry(p, None) in entries'
    {
      assert p == r.alloc ==> entries'[|h.entries|] == Entry(p, None);
    }
  }

  lemma TakeKeepsCore(r: Ring, h: History, b: nat, published: nat)
    requires Core(r, h, b, published) && |h.entries| - h.freed < |r.pages| - 1
    ensures Core(r.(pages := r.pages[r.alloc := r.pages[r.alloc].(status := Alloc)],
                    alloc := Next(|r.pages|, r.alloc)),
                 h.(entries := h.entries + [Entry(r.alloc, None)]), b, published)
  {
    TakeKeepsStored(r, h, b, published);
    var entries' := h.entries + [Entry(r.alloc, None)];
    assert Placed(|r.pages|, b, entries');
    assert Index(|r.pages|, b, |entries'|) == Next(|r.pages|, r.alloc);
  }

  lemma SpaceOf(r: Ring, h: History, b: nat, published: nat)
    requires Core(r, h, b, published)
    ensures r.Valid() && Space(|r.pages|, r.alloc, r.free) == |r.pages| - 1 - (|h.entries| - h.freed)
  {
    SpaceIsFree(|r.pages|, b, h.freed, |h.entries|);
  }

  lemma TakeStep(r: Ring, h: History, b: nat)
    requires Inv(r, h, b)
    ensures var (r', reply) := TakePage(r);
            Legal(|r.pages|, h, Take, reply) && Inv(r', Observe(h, Take, reply), b)
  {
    hide Core;
    var published := FinishedPrefix(h.entries);
    InvBounds(r, h, b);
    SpaceOf(r, h, b, published);
    if |h.entries| - h.freed < |r.pages| - 1 {
      NextPageIsFree(r, h, b, published);
      TakeKeepsCore(r, h, b, published);
      FinishedPrefixStops(h.entries);
      FinishedPrefixIs(h.entries + [Entry(r.alloc, None)], published);
    }
  }

  lemma PublishOneKeepsCore(r: Ring, h: History, b: nat, published: nat)
    requires Core(r, h, b, published) && published < |h.entries| && h.entries[published].length.Some?
    ensures Core(r.(write := Next(|r.pages|, r.write)), h, b, published + 1)
  {
    assert Index(|r.pages|, b, published + 1) == Next(|r.pages|, r.write);
  }

  /** The loop test on the ring is the test whether the next entry is finished. */
  lemma PublishTest(r: Ring, h: History, b: nat, published: nat)
    requires Core(r, h, b, published)
    ensures published <= |h.entries| && r.Valid() && forall k :: 0 <= k < published ==> h.entries[k].length.Some?
    ensures r.write != r.alloc && r.pages[r.write].status == Written <==>
            published < |h.entries| && h.entries[published].length.Some?
  {
    IndexGap(|r.pages|, b, published, |h.entries|);
    if published < |h.entries| {
      assert Holds(r.pages[h.entries[published].page], h.entries[published]);
    }
  }

  /** The advance loop of write_done stops exactly at the first unfinished page. */
  lemma {:induction false} PublishIsMaximal(r: Ring, h: History, b: nat, published: nat)
    requires Core(r, h, b, published)
    ensures Inv(Publish(r), h, b)
    decreases |h.entries| - published
  {
    hide Core;
    PublishTest(r, h, b, published);
    if published < |h.entries| && h.entries[published].length.Some? {
      PublishOneKeepsCore(r, h, b, published);
      PublishIsMaximal(r.(write := Next(|r.pages|, r.write)), h, b, published + 1);
    } else {
      FinishedPrefixIs(h.entries, published);
    }
  }

  lemma PendingOnce(r: Ring, h: History, b: nat, published: nat, j: nat, k: nat)
    requires Core(r, h, b, published) && j < |h.entries| && k < |h.entries|
    requires h.entries[j] == h.entries[k] && h.entries[k].length.None?
    ensures j == k
  {
    if j < k {
      WindowApart(|r.pages|, b, h.entries, j, k);
    } else if k < j {
      WindowApart(|r.pages|, b, h.entries, k, j);
    }
  }

  /** Completing a page in any order leaves what is stored for the others as it was. */
  lemma CompleteKeepsStored(r: Ring, h: History, b: nat, published: nat, k: nat, length: nat)
    requires Core(r, h, b, published) && k < |h.entries| && h.entries[k].length.None?
    ensures var page := h.entries[k].page;
            page < |r.pages| &&
            Stored(r.pages[page := Page(Written, length)], h.entries[k := Entry(page, Some(length))], h.freed)
  {
    var page := h.entries[k].page;
    var entries', pages' := h.entries[k := Entry(page, Some(length))], r.pages[page := Page(Written, length)];
    forall j | h.freed <= j < |entries'|
      ensures entries'[j].page < |pages'| && Holds(pages'[entries'[j].page], entries'[j])
    {
      if j < k {
        WindowApart(|r.pages|, b, h.entries, j, k);
      } else if k < j {
        WindowApart(|r.pages|, b, h.entries, k, j);
      }
    }
    forall p | 0 <= p < |pages'| && pages'[p].status == Alloc
      ensures Entry(p, None) in entries'
    {
      var j :| 0 <= j < |h.entries| && h.entries[j] == Entry(p, None);
      assert entries'[j] == Entry(p, None);
    }
  }

  /** A page is being written for one entry only, so completing it changes that entry and no other. */
  lemma CompleteIsOneUpdate(r: Ring, h: History, b: nat, published: nat, k: nat, length: nat)
    requires Core(r, h, b, published) && k < |h.entries| && h.entries[k].length.None?
    ensures Complete(h.entries, h.entries[k].page, length) ==
            h.entries[k := Entry(h.entries[k].page, Some(length))]
  {
    forall j | 0 <= j < |h.entries| && h.entries[j] == h.entries[k]
      ensures j == k
    {
      PendingOnce(r, h, b, published, j, k);
    }
  }

  lemma CompleteKeepsCore(r: Ring, h: History, b: nat, published: nat, page: nat, length: nat)
    requires Core(r, h, b, published) && Entry(page, None) in h.entries
    ensures page < |r.pages|
    ensures Core(r.(pages := r.pages[page := Page(Written, length)]),
                 h.(entries := Complete(h.entries, page, length)), b, published)
  {
    var k :| 0 <= k < |h.entries| && h.entries[k] == Entry(page, None);
    CompleteKeepsStored(r, h, b, published, k, length);
    CompleteIsOneUpdate(r, h, b, published, k, length);
    var entries' := h.entries[k := Entry(page, Some(length))];
    assert Placed(|r.pages|, b, entries') && AllFinished(entries', published) && InOrder(entries', h.received);
  }

  lemma PendingIsAlloc(r: Ring, h: History, b: nat, published: nat)
    requires Core(r, h, b, published)
    ensures forall k :: 0 <= k < |h.entries| && h.entries[k].length.None? ==>
              h.entries[k].page < |r.pages| && r.pages[h.entries[k].page].status == Alloc
  {
    forall k | 0 <= k < |h.entries| && h.entries[k].length.None?
      ensures h.entries[k].page < |r.pages| && r.pages[h.entries[k].page].status == Alloc
    {
      assert Holds(r.pages[h.entries[k].page], h.entries[k]);
    }
  }

  lemma FinishStep(r: Ring, h: History, b: nat, page: nat, length: nat)
    requires Inv(r, h, b) && page < |r.pages|
    ensures var (r', reply) := FinishPage(r, page, length);
            Legal(|r.pages|, h, Finish(page, length), reply) && Inv(r', Observe(h, Finish(page, length), reply), b)
  {
    var published := FinishedPrefix(h.entries);
    if r.pages[page].status == Alloc {
      CompleteKeepsCore(r, h, b, published, page, length);
      PublishIsMaximal(r.(pages := r.pages[page := Page(Written, length)]),
                       h.(entries := Complete(h.entries, page, length)), b, published);
    }
    PendingIsAlloc(r, h, b, published);
  }

  /** Lending the page at the read index keeps the received pages a prefix of the allocated ones. */
  lemma LendKeepsCore(r: Ring, h: History, b: nat, published: nat)
    requires Core(r, h, b, published) && |h.received| < published
    ensures var page := r.pages[r.read];
            && page.status == Written && h.entries[|h.received|] == Entry(r.read, Some(page.length))
            && Core(r.(read := Next(|r.pages|, r.read)), h.(received := h.received + [(r.read, page.length)]), b,
                    published)
  {
    var got := |h.received|;
    assert h.entries[got].length.Some? && h.entries[got].page == r.read;
    assert Holds(r.pages[r.read], h.entries[got]);
    assert Index(|r.pages|, b, got + 1) == Next(|r.pages|, r.read);
    assert InOrder(h.entries, h.received + [(r.read, r.pages[r.read].length)]);
  }

  lemma FreeKeepsCore(r: Ring, h: History, b: nat, published: nat)
    requires Core(r, h, b, published) && h.freed < |h.received|
    ensures Core(r.(free := Next(|r.pages|, r.free)), h.(freed := h.freed + 1), b, published)
  {
    assert Stored(r.pages, h.entries, h.freed + 1);
    assert Index(|r.pages|, b, h.freed + 1) == Next(|r.pages|, r.free);
  }

  lemma LendStep(r: Ring, h: History, b: nat)
    requires Inv(r, h, b)
    ensures var (r', reply) := LendPage(r);
            Legal(|r.pages|, h, Lend, reply) && Inv(r', Observe(h, Lend, reply), b)
  {
    var got, published := |h.received|, FinishedPrefix(h.entries);
    IndexGap(|r.pages|, b, got, published);
    assert ReadAvailable(r) == published - got;
    if got < published {
      LendKeepsCore(r, h, b, published);
    }
  }

  lemma OneLentIff(r: Ring, h: History, b: nat, published: nat)
    requires Core(r, h, b, published)
    ensures r.read == Next(|r.pages|, r.free) <==> |h.received| == h.freed + 1
  {
    hide Placed, Stored, AllFinished, InOrder;
    IndexGap(|r.pages|, b, h.freed, |h.received|);
  }

  lemma GiveBackStep(r: Ring, h: History, b: nat)
    requires Inv(r, h, b)
    ensures var (r', reply) := ReturnPage(r);
            Legal(|r.pages|, h, GiveBack, reply) && Inv(r', Observe(h, GiveBack, reply), b)
  {
    hide Core;
    InvBounds(r, h, b);
    OneLentIff(r, h, b, FinishedPrefix(h.entries));
    if |h.received| == h.freed + 1 {
      FreeKeepsCore(r, h, b, FinishedPrefix(h.entries));
    }
  }

  lemma ApplyStep(r: Ring, h: History, b: nat, op: Op)
    requires Inv(r, h, b) && Fits(|r.pages|, op)
    ensures var (r', reply) := Apply(r, op);
            Legal(|r.pages|, h, op, reply) && Inv(r', Observe(h, op, reply), b)
  {
    match op
    case Take => TakeStep(r, h, b);
    case Finish(page, length) => FinishStep(r, h, b, page, length);
    case Lend => LendStep(r, h, b);
    case GiveBack => GiveBackStep(r, h, b);
    case Attach =>
  }

  // ---------- whole runs ----------

  /** Ring and history after the calls ops. */
  function Run(r: Ring, h: History, ops: seq<Op>): (res: (Ring, History))
    requires r.Valid() && forall op <- ops :: Fits(|r.pages|, op)
    ensures res.0.Valid() && |res.0.pages| == |r.pages|
    decreases |ops|
  {
    if ops == [] then (r, h)
    else
      var (r', reply) := Apply(r, ops[0]);
      Run(r', Observe(h, ops[0], reply), ops[1..])
  }

  ghost predicate LegalRun(r: Ring, h: History, ops: seq<Op>)
    requires r.Valid() && forall op <- ops :: Fits(|r.pages|, op)
    decreases |ops|
  {
    ops != [] ==>
      var (r', reply) := Apply(r, ops[0]);
      Legal(|r.pages|, h, ops[0], reply) && LegalRun(r', Observe(h, ops[0], reply), ops[1..])
  }

  lemma {:induction false} RunsAreLegal(r: Ring, h: History, b: nat, ops: seq<Op>)
    requires Inv(r, h, b) && forall op <- ops :: Fits(|r.pages|, op)
    ensures LegalRun(r, h, ops)
    ensures Inv(Run(r, h, ops).0, Run(r, h, ops).1, b)
    decreases |ops|
  {
    if ops != [] {
      ApplyStep(r, h, b, ops[0]);
      var (r', reply) := Apply(r, ops[0]);
      RunsAreLegal(r', Observe(h, ops[0], reply), b, ops[1..]);
    }
  }

  /** An empty ring, with the indices anywhere and no page left over as being written. */
  predicate Fresh(r: Ring) {
    r.Valid() && r.free == r.read == r.write == r.alloc && forall p <- r.pages :: p.status != Alloc
  }

  lemma FreshInv(r: Ring)
    requires Fresh(r) && 2 <= |r.pages|
    ensures Inv(r, EMPTY, r.free)
  {
  }

  /**
   Main result.  From a fresh ring, in any interleaving of calls by the two parties: every reply is the one a FIFO
   of n-1 pages gives; the pages received are exactly the first pages issued, in allocation order, each with
   the length it was completed with; at most n-1 pages are out; and the indices are where the counts put them.
   */
  lemma RingIsFifo(r: Ring, ops: seq<Op>)
    requires Fresh(r) && 2 <= |r.pages| && forall op <- ops :: Fits(|r.pages|, op)
    ensures LegalRun(r, EMPTY, ops)
    ensures var (r', h) := Run(r, EMPTY, ops);
            && h.freed <= |h.received| <= |h.entries| <= h.freed + |r.pages| - 1
            && (forall k :: 0 <= k < |h.received| ==>
                 h.entries[k] == Entry(h.received[k].0, Some(h.received[k].1)))
            && Distance(|r.pages|, r'.free, r'.read) == |h.received| - h.freed
            && Distance(|r.pages|, r'.free, r'.write) == FinishedPrefix(h.entries) - h.freed
            && Distance(|r.pages|, r'.free, r'.alloc) == |h.entries| - h.freed
  {
    hide Run, LegalRun, Placed, Stored, AllFinished;
    var n, b := |r.pages|, r.free;
    FreshInv(r);
    RunsAreLegal(r, EMPTY, b, ops);
    var (r', h) := Run(r, EMPTY, ops);
    IndexGap(n, b, h.freed, |h.received|);
    IndexGap(n, b, h.freed, FinishedPrefix(h.entries));
    IndexGap(n, b, h.freed, |h.entries|);
  }

  /** Once every page handed out has been completed, nothing stays unpublished. */
  lemma NothingStaysUnpublished(r: Ring, h: History, b: nat)
    requires Inv(r, h, b) && forall p <- r.pages :: p.status != Alloc
    ensures r.write == r.alloc && FinishedPrefix(h.entries) == |h.entries|
  {
    FinishedPrefixStops(h.entries);
    PendingIsAlloc(r, h, b, FinishedPrefix(h.entries));
  }

  /** A page completed twice is refused the second time, until it is handed out again. */
  lemma SecondFinishRefused(r: Ring, page: nat, length: nat, length': nat)
    requires r.Valid() && page < |r.pages|
    ensures var r' := FinishPage(r, page, length).0;
            FinishPage(r', page, length').1 == BadArgument && FinishPage(r', page, length').0 == r'
  {
    assert Publish(r.(pages := r.pages[page := Page(Written, length)])).pages ==
           r.pages[page := Page(Written, length)];
  }

  /** What read_available reports is the number of published pages not yet received: poll and read_get agree on it. */
  lemma AvailableIsExact(r: Ring, h: History, b: nat)
    requires Inv(r, h, b)
    ensures ReadAvailable(r) == FinishedPrefix(h.entries) - |h.received|
    ensures LendPage(r).1.Got? <==> ReadAvailable(r) != 0
  {
    IndexGap(|r.pages|, b, |h.received|, FinishedPrefix(h.entries));
    LendStep(r, h, b);
  }

  /** Why two pages are the least: with one, read_done is accepted although nothing was ever lent. */
  lemma OnePageRingAcceptsReadDone(page: Page)
    ensures var r := Ring([page], 0, 0, 0, 0);
            ReturnPage(r) == (r, Accepted) && LendPage(r).1 == TryAgain && TakePage(r).1 == NoPage
  {
  }

  // ---------- pages lent to the consumer ----------

  predicate NoAttach(ops: seq<Op>) {
    forall op <- ops :: op != Attach
  }

  /**
   Two pages lent at once can never be given back: whatever follows, free stays where it is, every read_done is
   refused, and the producer gets only the room that was left.
   */
  lemma {:induction false} TwoLentPagesWedge(r: Ring, h: History, b: nat, ops: seq<Op>)
    requires Inv(r, h, b) && |h.received| - h.freed >= 2
    requires NoAttach(ops) && forall op <- ops :: Fits(|r.pages|, op)
    ensures var (r', h') := Run(r, h, ops);
            && r'.free == r.free && h'.freed == h.freed
            && ReturnPage(r').1 == BadState
            && |h'.entries| <= h.freed + |r.pages| - 1
    decreases |ops|
  {
    hide Core;
    InvBounds(r, h, b);
    if ops == [] {
      GiveBackStep(r, h, b);
    } else {
      ApplyStep(r, h, b, ops[0]);
      var (r', reply) := Apply(r, ops[0]);
      assert ops[0] in ops && forall op <- ops[1..] :: op in ops;
      TwoLentPagesWedge(r', Observe(h, ops[0], reply), b, ops[1..]);
    }
  }

  /** How far a ring is from lending the next page. */
  function ToLend(h: History): nat {
    if |h.received| < FinishedPrefix(h.entries) then 0 else if |h.received| < |h.entries| then 1 else 2
  }

  /** The call that brings it nearer: hand out a page, complete it, or lend it. */
  lemma NearerToLend(r: Ring, h: History, b: nat) returns (op: Op)
    requires Inv(r, h, b) && |h.received| - h.freed < |r.pages| - 1
    ensures op != Attach && Fits(|r.pages|, op)
    ensures var h' := Observe(h, op, Apply(r, op).1);
            && h'.freed == h.freed
            && (ToLend(h) == 0 ==> |h'.received| == |h.received| + 1)
            && (ToLend(h) > 0 ==> h'.received == h.received && ToLend(h') < ToLend(h))
  {
    hide Core;
    InvBounds(r, h, b);
    var got := |h.received|;
    if got < FinishedPrefix(h.entries) {
      op := Lend;
      LendStep(r, h, b);
    } else if got < |h.entries| {
      FinishedPrefixStops(h.entries);
      PendingIsAlloc(r, h, b, FinishedPrefix(h.entries));
      var page := h.entries[got].page;
      op := Finish(page, 0);
      FinishStep(r, h, b, page, 0);
      CompletedGrows(h.entries, page, got);
    } else {
      op := Take;
      TakeStep(r, h, b);
    }
  }

  lemma CompletedGrows(entries: seq<Entry>, page: nat, k: nat)
    requires k == FinishedPrefix(entries) < |entries| && entries[k] == Entry(page, None)
    ensures k < FinishedPrefix(Complete(entries, page, 0))
  {
    FinishedPrefixStops(entries);
    FinishedPrefixStops(Complete(entries, page, 0));
  }

  /** From any state with fewer than k pages lent, some run without a registration lends k of them. */
  lemma {:induction false} SomeRunLends(r: Ring, h: History, b: nat, k: nat) returns (ops: seq<Op>)
    requires Inv(r, h, b) && |h.received| - h.freed <= k <= |r.pages| - 1
    ensures NoAttach(ops) && (forall op <- ops :: Fits(|r.pages|, op))
    ensures var (r', h') := Run(r, h, ops);
            Inv(r', h', b) && |h'.received| - h'.freed == k
    decreases k - (|h.received| - h.freed), ToLend(h)
  {
    hide Core, Observe;
    InvBounds(r, h, b);
    if |h.received| - h.freed == k {
      return [];
    }
    var op := NearerToLend(r, h, b);
    ApplyStep(r, h, b, op);
    var (r', reply) := Apply(r, op);
    var rest := SomeRunLends(r', Observe(h, op, reply), b, k);
    ops := [op] + rest;
    assert ops[1..] == rest;
  }

  ghost predicate LegalCalls(r: Ring, ops: seq<Op>) {
    r.Valid() && NoAttach(ops) && forall op <- ops :: Fits(|r.pages|, op)
  }

  /** Two pages can come to be lent at once, from a fresh ring, exactly when it has three pages or more. */
  lemma WedgeReachableIff(r: Ring)
    requires Fresh(r) && 2 <= |r.pages|
    ensures (exists ops :: LegalCalls(r, ops) && Lent(Run(r, EMPTY, ops).1) >= 2) <==> |r.pages| >= 3
  {
    hide Inv, Run;
    FreshInv(r);
    if |r.pages| >= 3 {
      var ops := SomeRunLends(r, EMPTY, r.free, 2);
      assert LegalCalls(r, ops);
    }
    forall ops | LegalCalls(r, ops)
      ensures Lent(Run(r, EMPTY, ops).1) <= |r.pages| - 1
    {
      RunsAreLegal(r, EMPTY, r.free, ops);
      var (r', h') := Run(r, EMPTY, ops);
      InvBounds(r', h', r.free);
    }
  }

  function Lent(h: History): int {
    |h.received| - h.freed
  }

  /** read_done can succeed some time, without another registration, exactly while at most one page is lent. */
  lemma WedgedIff(r: Ring, h: History, b: nat)
    requires Inv(r, h, b)
    ensures (exists ops :: LegalCalls(r, ops) && ReturnPage(Run(r, h, ops).0).1 == Accepted) <==> Lent(h) <= 1
  {
    hide Core, Run, Observe;
    InvBounds(r, h, b);
    if Lent(h) <= 1 {
      var ops := SomeRunLends(r, h, b, 1);
      var (r', h') := Run(r, h, ops);
      GiveBackStep(r', h', b);
      assert LegalCalls(r, ops);
    } else {
      forall ops | LegalCalls(r, ops)
        ensures ReturnPage(Run(r, h, ops).0).1 != Accepted
      {
        TwoLentPagesWedge(r, h, b, ops);
      }
    }
  }

  /** Registering the reader again is what ends the wedge: nothing is lent any more, and nothing received changes. */
  lemma AttachEndsTheWedge(r: Ring, h: History, b: nat)
    requires Inv(r, h, b)
    ensures var (r', h') := (AttachReader(r), Observe(h, Attach, Accepted));
            && Inv(r', h', b) && h'.freed == |h'.received| && h'.received == h.received && h'.entries == h.entries
            && (LendPage(r').1.Got? ==> ReturnPage(LendPage(r').0).1 == Accepted)
  {
    hide Core;
    InvBounds(r, h, b);
    ApplyStep(r, h, b, Attach);
    var (r', h') := (AttachReader(r), Observe(h, Attach, Accepted));
    LendStep(r', h', b);
    var (r2, got) := LendPage(r');
    GiveBackStep(r2, Observe(h', Lend, got), b);
  }

  /** Write has reached allocate exactly when no page is being written. */
  lemma AllPublishedIff(r: Ring, h: History, b: nat)
    requires Inv(r, h, b)
    ensures r.write == r.alloc <==> forall p <- r.pages :: p.status != Alloc
  {
    var published := FinishedPrefix(h.entries);
    FinishedPrefixStops(h.entries);
    IndexGap(|r.pages|, b, published, |h.entries|);
    if forall p <- r.pages :: p.status != Alloc {
      NothingStaysUnpublished(r, h, b);
    } else {
      var i :| 0 <= i < |r.pages| && r.pages[i].status == Alloc;
      assert Entry(i, None) in h.entries;
    }
  }

  /**
   Registering the producer again moves write up to allocate.  The ring is then still a picture of some history
   exactly when no page was being written, and in that case nothing changes.
   */
  lemma AttachWriterSafeIffNothingPending(r: Ring, h: History, b: nat)
    requires Inv(r, h, b)
    ensures (exists h', b' :: Inv(AttachWriter(r), h', b')) <==> forall p <- r.pages :: p.status != Alloc
    ensures (forall p <- r.pages :: p.status != Alloc) ==> AttachWriter(r) == r
  {
    hide Inv;
    AllPublishedIff(r, h, b);
    if forall p <- r.pages :: p.status != Alloc {
      assert Inv(AttachWriter(r), h, b);
    }
    forall h', b' | Inv(AttachWriter(r), h', b')
      ensures forall p <- r.pages :: p.status != Alloc
    {
      AllPublishedIff(AttachWriter(r), h', b');
    }
  }

  /** What goes wrong otherwise: the consumer is sent into the unfinished page and gets -EFAULT instead of -EAGAIN. */
  lemma AttachWriterExposesPendingPage()
    ensures var r := TakePage(Ring([Page(Blank, 0), Page(Blank, 0)], 0, 0, 0, 0)).0;
            LendPage(r).1 == TryAgain && LendPage(AttachWriter(r)).1 == BadState
  {
  }
}
