/**
 One direction of a CCB buffer (ccci/ccci_lib.c): a ring of pages in memory shared by the application processor
 and the modem, with four indices.  The producer allocates pages and completes them in any order; the consumer
 gets pages and gives them back.  `Ring` is the abstract state, `Channel` the shared header that the C code
 updates in place.
 */
module CcbRing {
  import opened Common
  import opened CcbPages

  // Any status word that is neither PAGE_STATUS_ALLOC nor PAGE_STATUS_WRITE_DONE is `Blank`.
  datatype PageStatus = Blank | Alloc | Written

  datatype Page = Page(status: PageStatus, length: nat)

  datatype Ring = Ring(pages: seq<Page>, free: nat, read: nat, write: nat, alloc: nat)
  {
    predicate Valid() {
      free < |pages| && read < |pages| && write < |pages| && alloc < |pages|
    }
  }

  /** What a call gives back: a page handed out, a page received, or a return code. */
  datatype Reply =
    | Handed(page: nat)
    | NoPage
    | Got(page: nat, length: nat)
    | Accepted
    | TryAgain
    | BadArgument
    | BadState

  function Next(n: nat, i: nat): (j: nat)
    ensures i < n ==> j < n
  {
    if i + 1 >= n then 0 else i + 1
  }

  /** Steps from index i forward to index j around a ring of n. */
  function Distance(n: nat, i: nat, j: nat): nat
    requires i < n && j < n
  {
    if i <= j then j - i else j + n - i
  }

  /** The three-way space computation of write_alloc. */
  function Space(n: nat, alloc: nat, free: nat): nat
    requires alloc < n && free < n
  {
    if alloc == free then n - 1
    else if alloc > free then n - alloc + free - 1
    else free - alloc - 1
  }

  function TakePage(r: Ring): (res: (Ring, Reply))
    requires r.Valid()
    ensures res.0.Valid() && |res.0.pages| == |r.pages|
  {
    if Space(|r.pages|, r.alloc, r.free) == 0 then (r, NoPage)
    else
      (r.(pages := r.pages[r.alloc := r.pages[r.alloc].(status := Alloc)], alloc := Next(|r.pages|, r.alloc)),
       Handed(r.alloc))
  }

  /** Moves the write index over the finished prefix of the allocated pages. */
  function Publish(r: Ring): (r': Ring)
    requires r.Valid()
    ensures r'.Valid() && r' == r.(write := r'.write)
    decreases Distance(|r.pages|, r.write, r.alloc)
  {
    if r.write == r.alloc || r.pages[r.write].status != Written then r
    else Publish(r.(write := Next(|r.pages|, r.write)))
  }

  /** One turn of the loop. */
  lemma PublishOnce(r: Ring, r': Ring)
    requires r.Valid() && r' == r.(write := Next(|r.pages|, r.write))
    ensures r.write == r.alloc || r.pages[r.write].status != Written ==> Publish(r) == r
    ensures r.write != r.alloc && r.pages[r.write].status == Written ==> Publish(r) == Publish(r')
  {
  }

  function FinishPage(r: Ring, page: nat, length: nat): (res: (Ring, Reply))
    requires r.Valid() && page < |r.pages|
    ensures res.0.Valid() && |res.0.pages| == |r.pages|
  {
    if r.pages[page].status != Alloc then (r, BadArgument)
    else (Publish(r.(pages := r.pages[page := Page(Written, length)])), Accepted)
  }

  function ReadAvailable(r: Ring): nat
    requires r.Valid()
  {
    if r.write - r.read < 0 then r.write - r.read + |r.pages| else r.write - r.read
  }

  function LendPage(r: Ring): (res: (Ring, Reply))
    requires r.Valid()
    ensures res.0.Valid() && |res.0.pages| == |r.pages|
  {
    if ReadAvailable(r) == 0 then (r, TryAgain)
    else if r.pages[r.read].status != Written then (r, BadState)
    else (r.(read := Next(|r.pages|, r.read)), Got(r.read, r.pages[r.read].length))
  }

  function ReturnPage(r: Ring): (res: (Ring, Reply))
    requires r.Valid()
    ensures res.0.Valid() && |res.0.pages| == |r.pages|
  {
    if r.read != Next(|r.pages|, r.free) then (r, BadState)
    else (r.(free := Next(|r.pages|, r.free)), Accepted)
  }

  /** Registration of the consumer gives back every page it had been lent. */
  function AttachReader(r: Ring): Ring {
    r.(free := r.read)
  }

  /** Registration of the producer publishes every page it had allocated. */
  function AttachWriter(r: Ring): Ring {
    r.(write := r.alloc)
  }

  // ---------- the shared header, updated in place ----------

  const HEADER_MAGIC_AFTER: nat := 0xDDBBCCAA

  /**
   In any ring, the lengths that write_done lets through to a page being written are all accepted, and the payload
   is one that its page holds exactly when the length leaves the page header out.
   */
  lemma AcceptedPayloadFitsIff(base: nat, pageSize: nat, r: Ring, page: nat, length: nat)
    requires r.Valid() && page < |r.pages| && r.pages[page].status == Alloc && length <= pageSize
    ensures FinishPage(r, page, length).1 == Accepted && FinishPage(r, page, length).0.pages[page].length == length
    ensures BufferAddress(base, pageSize, page) + length > BufferAddress(base, pageSize, page + 1) - PAGE_HEADER_SIZE
            <==> length > pageSize - PAGE_HEADER_SIZE
  {
    PayloadStaysInPageIff(base, pageSize, page, length);
  }

  /** A payload as long as its page of 16 bytes: the consumer gets it, and it covers the next page's header. */
  lemma FullPageCoversNextHeader()
    ensures var (r, reply) := TakePage(Ring([Page(Blank, 0), Page(Blank, 0)], 0, 0, 0, 0));
            && reply == Handed(0) && LendPage(FinishPage(r, 0, 16).0).1 == Got(0, 16)
            && BufferAddress(0, 16, 0) + 16 == BufferAddress(0, 16, 1) == 16 * 1 + PAGE_HEADER_SIZE
  {
    var r := TakePage(Ring([Page(Blank, 0), Page(Blank, 0)], 0, 0, 0, 0)).0;
    var marked := r.(pages := r.pages[0 := Page(Written, 16)]);
    assert Publish(marked) == Publish(marked.(write := 1)) == marked.(write := 1);
  }

  /** With an address that is no page's, write_done is accepted exactly when the last page is being written. */
  lemma ForeignAddressAcceptedIff(base: nat, pageSize: nat, r: Ring, address: nat, p: nat, length: nat)
    requires r.Valid() && LocatedAt(base, pageSize, |r.pages|, address, p)
    requires Foreign(base, pageSize, |r.pages|, address)
    ensures FinishPage(r, p, length).1 == Accepted <==> r.pages[|r.pages| - 1].status == Alloc
  {
  }

  /** Page 1 of two is handed out; completing address 100, which nobody was given, sends it to the consumer. */
  lemma ForeignAddressCompletesAPage()
    ensures var (r, reply) := TakePage(Ring([Page(Blank, 0), Page(Blank, 0)], 1, 1, 1, 1));
            && reply == Handed(1) && BufferAddress(0, 16, 1) == 24 && LocatedAt(0, 16, 2, 100, 1)
            && LendPage(r).1 == TryAgain && LendPage(FinishPage(r, 1, 5).0).1 == Got(1, 5)
  {
    var r := TakePage(Ring([Page(Blank, 0), Page(Blank, 0)], 1, 1, 1, 1)).0;
    var marked := r.(pages := r.pages[1 := Page(Written, 5)]);
    assert Publish(marked) == Publish(marked.(write := 0)) == marked.(write := 0);
  }

  class Channel {
    const base: nat
    const pageSize: nat
    const pages: array<Page>
    var guardBand: nat
    var freeIndex: nat
    var readIndex: nat
    var writeIndex: nat
    var allocateIndex: nat

    ghost predicate Valid()
      reads this
    {
      0 < pageSize && freeIndex < pages.Length && readIndex < pages.Length &&
      writeIndex < pages.Length && allocateIndex < pages.Length
    }

    ghost function View(): (r: Ring)
      requires Valid()
      reads this, pages
      ensures r.Valid()
    {
      Ring(pages[..], freeIndex, readIndex, writeIndex, allocateIndex)
    }

    /** The page that write_done takes the address to be. */
    ghost predicate Located(address: nat, p: nat)
      reads this
    {
      LocatedAt(base, pageSize, pages.Length, address, p)
    }

    method WriteAlloc() returns (address: Option<nat>)
      requires Valid()
      modifies this`allocateIndex, pages
      ensures Valid()
      ensures guardBand != HEADER_MAGIC_AFTER ==> address == None && View() == old(View())
      ensures guardBand == HEADER_MAGIC_AFTER ==>
                var (r, reply) := TakePage(old(View()));
                View() == r &&
                address == if reply.Handed? then Some(BufferAddress(base, pageSize, reply.page)) else None
    {
      if guardBand != HEADER_MAGIC_AFTER {
        return None;
      }
      var total := pages.Length;
      var available;
      if allocateIndex == freeIndex {
        available := total - 1;
      } else if allocateIndex > freeIndex {
        available := total - allocateIndex + freeIndex - 1;
      } else {
        available := freeIndex - allocateIndex - 1;
      }
      if available != 0 {
        address := Some(BufferAddress(base, pageSize, allocateIndex));
        pages[allocateIndex] := pages[allocateIndex].(status := Alloc);
        allocateIndex := allocateIndex + 1;
        if allocateIndex >= total {
          allocateIndex := 0;
        }
      } else {
        address := None;
      }
    }

    method FindPage(address: nat) returns (p: nat)
      requires Valid()
      ensures p < pages.Length && Located(address, p)
    {
      var i := 0;
      p := 0;
      while i < pages.Length
        invariant i <= pages.Length && p < pages.Length && (0 < i ==> p == i - 1)
        invariant forall k :: 0 <= k < i ==> address != BufferAddress(base, pageSize, k)
      {
        p := i;
        if BufferAddress(base, pageSize, i) == address {
          return;
        }
        i := i + 1;
      }
    }

    /** The loop of write_done over the finished pages. */
    method PublishFinished()
      requires Valid()
      modifies this`writeIndex
      ensures Valid() && View() == Publish(old(View()))
    {
      hide Publish;
      var i := writeIndex;
      while i != allocateIndex
        invariant Valid() && i == writeIndex && pages[..] == old(pages[..])
        invariant Publish(View()) == Publish(old(View()))
        decreases Distance(pages.Length, i, allocateIndex), pages[i].status == Written
      {
        PublishOnce(View(), View().(write := Next(pages.Length, writeIndex)));
        if pages[i].status == Written {
          writeIndex := writeIndex + 1;
          if writeIndex >= pages.Length {
            writeIndex := 0;
          }
        } else {
          break;
        }
        i := i + 1;
        if i >= pages.Length {
          i := 0;
        }
      }
      PublishOnce(View(), View().(write := Next(pages.Length, writeIndex)));
    }

    /** notifyResult is what the transmit-notify ioctl returns. */
    method WriteDone(address: nat, length: nat, notifyResult: int) returns (ret: int)
      requires Valid()
      modifies this`writeIndex, pages
      ensures Valid()
      ensures guardBand != HEADER_MAGIC_AFTER || length > pageSize ==> ret == -EINVAL && View() == old(View())
      ensures guardBand == HEADER_MAGIC_AFTER && length <= pageSize ==>
                exists p :: Located(address, p) &&
                            var (r, reply) := FinishPage(old(View()), p, length);
                            View() == r && ret == if reply.Accepted? then notifyResult else -EINVAL
    {
      hide Publish, LocatedAt;
      if guardBand != HEADER_MAGIC_AFTER || length > pageSize {
        return -EINVAL;
      }
      var p := FindPage(address);
      if pages[p].status != Alloc {
        return -EINVAL;
      }
      pages[p] := Page(Written, length);
      assert View() == old(View()).(pages := old(View()).pages[p := Page(Written, length)]);
      PublishFinished();
      assert Located(address, p);
      return notifyResult;
    }

    /** On -EAGAIN the C code stores a null address and length 0; on -EFAULT it stores nothing. */
    method ReadGet() returns (ret: int, page: Option<(nat, nat)>)
      requires Valid()
      modifies this`readIndex
      ensures Valid()
      ensures var (r, reply) := LendPage(old(View()));
              View() == r &&
              (reply.Got? ==> ret == 0 && page == Some((BufferAddress(base, pageSize, reply.page), reply.length))) &&
              (reply.TryAgain? ==> ret == -EAGAIN && page == None) &&
              (reply.BadState? ==> ret == -EFAULT && page == None)
    {
      var available := writeIndex - readIndex;
      if available < 0 {
        available := available + pages.Length;
      }
      if available != 0 {
        if pages[readIndex].status != Written {
          return -EFAULT, None;
        }
        page := Some((BufferAddress(base, pageSize, readIndex), pages[readIndex].length));
        readIndex := readIndex + 1;
        if readIndex >= pages.Length {
          readIndex := 0;
        }
        return 0, page;
      }
      return -EAGAIN, None;
    }

    method ReadDone() returns (ret: int)
      requires Valid()
      modifies this`freeIndex
      ensures Valid()
      ensures var (r, reply) := ReturnPage(old(View()));
              View() == r && ret == if reply.Accepted? then 0 else -EFAULT
    {
      var freeIndexToBe := freeIndex + 1;
      if freeIndexToBe >= pages.Length {
        freeIndexToBe := 0;
      }
      if readIndex != freeIndexToBe {
        return -EFAULT;
      }
      freeIndex := freeIndexToBe;
      return 0;
    }
  }

  /** One scan of ccci_ccb_poll over the buffers of a user; the source blocks and scans again when none is ready. */
  method PollScan(channels: seq<Channel>, bitmask: seq<bool>) returns (ready: seq<bool>, retry: bool)
    requires |bitmask| == |channels| && forall c <- channels :: c.Valid()
    ensures |ready| == |channels|
    ensures forall i :: 0 <= i < |channels| ==> ready[i] == (bitmask[i] && ReadAvailable(channels[i].View()) != 0)
    ensures retry <==> forall i :: 0 <= i < |channels| ==> !ready[i]
  {
    ready, retry := [], true;
    for i := 0 to |channels|
      invariant |ready| == i
      invariant forall k :: 0 <= k < i ==> ready[k] == (bitmask[k] && ReadAvailable(channels[k].View()) != 0)
      invariant retry <==> forall k :: 0 <= k < i ==> !ready[k]
    {
      var available := channels[i].writeIndex - channels[i].readIndex;
      if available < 0 {
        available := available + channels[i].pages.Length;
      }
      var bit := bitmask[i] && available != 0;
      ready := ready + [bit];
      if bit {
        retry := false;
      }
    }
  }
}
