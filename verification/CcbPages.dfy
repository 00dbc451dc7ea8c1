/**
 Where the pages of a CCB buffer are (ccci/ccci_lib.c): one behind the other, each with its header before its payload.
 */
module CcbPages {
  const PAGE_HEADER_SIZE: nat := 8

  /** Address of the payload of page i when the page area starts at base. */
  function BufferAddress(base: nat, pageSize: nat, i: nat): nat {
    base + pageSize * i + PAGE_HEADER_SIZE
  }

  lemma {:induction false} AddressesApart(base: nat, pageSize: nat, i: nat, j: nat)
    requires i < j
    ensures BufferAddress(base, pageSize, i) + pageSize <= BufferAddress(base, pageSize, j)
  {
    assert pageSize * j == pageSize * (j - 1) + pageSize;
    if i + 1 < j {
      AddressesApart(base, pageSize, i, j - 1);
    }
  }

  /** With the page count of ccci_ccb_register, every page lies inside the data area. */
  lemma PagesInsideDataArea(dataSize: nat, pageSize: nat, i: nat)
    requires 0 < pageSize && i < dataSize / pageSize
    ensures pageSize * i + pageSize <= dataSize
  {
    assert pageSize * (i + 1) <= pageSize * (dataSize / pageSize);
    assert pageSize * (dataSize / pageSize) <= dataSize;
  }

  /**
   A completed payload ends inside its page exactly when its length leaves the page header out.  Lengths up to the
   page size are accepted, and one that does not leave it out reaches the address where the next page begins.
   */
  lemma PayloadStaysInPageIff(base: nat, pageSize: nat, i: nat, length: nat)
    ensures BufferAddress(base, pageSize, i) + length <= base + pageSize * (i + 1) <==>
            length + PAGE_HEADER_SIZE <= pageSize
    ensures base + pageSize * (i + 1) + PAGE_HEADER_SIZE == BufferAddress(base, pageSize, i + 1)
  {
    assert pageSize * (i + 1) == pageSize * i + pageSize;
  }

  /** No payload of n pages starts at the address. */
  predicate Foreign(base: nat, pageSize: nat, n: nat, address: nat) {
    forall i :: 0 <= i < n ==> address != BufferAddress(base, pageSize, i)
  }

  /** Where the search of write_done stops: at the page whose payload starts at the address, or at the last page. */
  predicate LocatedAt(base: nat, pageSize: nat, n: nat, address: nat, p: nat) {
    p < n && (address == BufferAddress(base, pageSize, p) || (p == n - 1 && Foreign(base, pageSize, n, address)))
  }

  /** Whatever the address, the search stops at one page: the one that the address belongs to, or the last one. */
  lemma LocatedIsUnique(base: nat, pageSize: nat, n: nat, address: nat, p: nat, q: nat)
    requires 0 < pageSize && LocatedAt(base, pageSize, n, address, p) && LocatedAt(base, pageSize, n, address, q)
    ensures p == q
  {
    if p < q {
      AddressesApart(base, pageSize, p, q);
    } else if q < p {
      AddressesApart(base, pageSize, q, p);
    }
  }
}
