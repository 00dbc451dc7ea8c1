/**
 The memory layout of the CCB area (ccci/ccci_lib.c): init_user writes it, check_user compares it, register walks
 it again from the sizes found in memory.  Memory is little-endian bytes; the three walks are methods over the same
 array, and `Walk` is the one list of slots they are proved to visit.
 */
module CcbLayout {
  import opened Common
  import CcbPages

  type byte = x: nat | x < 0x100

  type word = x: nat | x < 0x1_0000_0000

  datatype Port = Port(user: nat, core: nat, dlPageSize: word, ulPageSize: word, dlBuffSize: word, ulBuffSize: word)

  // Offsets inside struct buffer_header; the page area follows the header.
  const GUARD_BAND := 0
  const ALLOCATE_INDEX := 4
  const FREE_INDEX := 8
  const READ_INDEX := 12
  const WRITE_INDEX := 16
  const PAGE_SIZE := 20
  const DATA_BUFFER_SIZE := 24
  const HEADER_SIZE := 28
  const WORD_SIZE := 4

  const TAIL_MAGIC_BEFORE: word := 0xEEFF0011
  const TAIL_MAGIC_AFTER: word := 0x1100FFEE

  // ---------- words in byte memory ----------

  function Load(m: seq<byte>, a: nat): (v: word)
    requires a + WORD_SIZE <= |m|
  {
    m[a] as int + 0x100 * m[a + 1] as int + 0x1_0000 * m[a + 2] as int + 0x100_0000 * m[a + 3] as int
  }

  function Store(m: seq<byte>, a: nat, v: word): (m': seq<byte>)
    requires a + WORD_SIZE <= |m|
    ensures |m'| == |m|
  {
    m[a := v % 0x100][a + 1 := v / 0x100 % 0x100][a + 2 := v / 0x1_0000 % 0x100][a + 3 := v / 0x100_0000]
  }

  lemma FourBytes(v: word)
    ensures v as int == v % 0x100 + 0x100 * (v / 0x100 % 0x100) + 0x1_0000 * (v / 0x1_0000 % 0x100) +
                        0x100_0000 * (v / 0x100_0000)
  {
    var q := v / 0x100;
    var r := q / 0x100;
    assert r / 0x100 == v / 0x100_0000 && r == v / 0x1_0000;
  }

  lemma LoadStored(m: seq<byte>, a: nat, v: word)
    requires a + WORD_SIZE <= |m|
    ensures Load(Store(m, a, v), a) == v
  {
    FourBytes(v);
  }

  lemma LoadElsewhere(m: seq<byte>, a: nat, v: word, b: nat)
    requires a + WORD_SIZE <= |m| && b + WORD_SIZE <= |m|
    requires b + WORD_SIZE <= a || a + WORD_SIZE <= b
    ensures Load(Store(m, a, v), b) == Load(m, b)
  {
  }

  // ---------- the slots ----------

  datatype Size = Size(page: word, buffer: word)

  /** One header, its page area, and the guard word behind it. */
  datatype Slot = Slot(header: nat, size: Size)
  {
    function Pages(): nat { header + HEADER_SIZE }
    function Guard(): nat { header + HEADER_SIZE + size.buffer }
    function End(): nat { header + HEADER_SIZE + size.buffer + WORD_SIZE }
  }

  function Matching(ports: seq<Port>, user: nat): (s: seq<Port>)
    ensures |s| <= |ports|
  {
    if ports == [] then []
    else
      var last := ports[|ports| - 1];
      Matching(ports[..|ports| - 1], user) + if last.user == user then [last] else []
  }

  /** How many of the first i ports belong to the user. */
  function Rank(ports: seq<Port>, user: nat, i: nat): nat
    requires i <= |ports|
  {
    if i == 0 then 0 else Rank(ports, user, i - 1) + if ports[i - 1].user == user then 1 else 0
  }

  /** The ports of the user, all of them, in the order of the table. */
  lemma {:induction false} MatchingIsFilter(ports: seq<Port>, user: nat, n: nat)
    requires n <= |ports|
    ensures var own := Matching(ports[..n], user);
            && |own| == Rank(ports, user, n) && (forall port <- own :: port.user == user)
            && forall i :: 0 <= i < n && ports[i].user == user ==>
                 Rank(ports, user, i) < |own| && own[Rank(ports, user, i)] == ports[i]
  {
    if n > 0 {
      MatchingIsFilter(ports, user, n - 1);
      MatchingNext(ports, user, n - 1);
    }
  }

  function SizeOf(port: Port, up: bool): Size {
    if up then Size(port.ulPageSize, port.ulBuffSize) else Size(port.dlPageSize, port.dlBuffSize)
  }

  function DownSizes(ports: seq<Port>): (s: seq<Size>)
    ensures |s| == |ports|
  {
    seq(|ports|, i requires 0 <= i < |ports| => SizeOf(ports[i], false))
  }

  function UpSizes(ports: seq<Port>): (s: seq<Size>)
    ensures |s| == |ports|
  {
    seq(|ports|, i requires 0 <= i < |ports| => SizeOf(ports[i], true))
  }

  function EndOf(sizes: seq<Size>, at: nat): (end: nat)
    ensures at <= end
  {
    if sizes == [] then at
    else EndOf(sizes[..|sizes| - 1], at) + HEADER_SIZE + sizes[|sizes| - 1].buffer + WORD_SIZE
  }

  function Walk(sizes: seq<Size>, at: nat): (slots: seq<Slot>)
    ensures |slots| == |sizes|
  {
    if sizes == [] then []
    else Walk(sizes[..|sizes| - 1], at) + [Slot(EndOf(sizes[..|sizes| - 1], at), sizes[|sizes| - 1])]
  }

  /** Everything one user has in the mapping: all downlink slots, then all uplink slots, behind a reserved word. */
  function Sizes(ports: seq<Port>, user: nat): seq<Size> {
    DownSizes(Matching(ports, user)) + UpSizes(Matching(ports, user))
  }

  function Layout(ports: seq<Port>, user: nat): seq<Slot> {
    Walk(Sizes(ports, user), WORD_SIZE)
  }

  function Needed(ports: seq<Port>, user: nat): nat {
    EndOf(Sizes(ports, user), WORD_SIZE)
  }

  // ---------- the table in memory ----------

  /** A header at an address with the given page size and buffer size in it. */
  predicate HeaderHolds(m: seq<byte>, at: nat, pageSize: word, buffSize: word) {
    at + 28 + buffSize + 4 <= |m| && Load(m, at + 20) == pageSize && Load(m, at + 24) == buffSize
  }

  function BuffSize(own: seq<Port>, k: nat): word
    requires k < 2 * |own|
  {
    if k < |own| then own[k].dlBuffSize else own[k - |own|].ulBuffSize
  }

  /** Where the k-th header is: behind the reserved word and, for each header before it, 28 bytes, buffer and guard. */
  function HeaderAt(own: seq<Port>, k: nat): nat
    requires k <= 2 * |own|
  {
    if k == 0 then 4 else HeaderAt(own, k - 1) + 28 + BuffSize(own, k - 1) + 4
  }

  /** First a header for the downlink of every port, then one for the uplink of every port. */
  ghost predicate HoldsTable(m: seq<byte>, own: seq<Port>) {
    forall j :: 0 <= j < |own| ==>
      && HeaderHolds(m, HeaderAt(own, j), own[j].dlPageSize, own[j].dlBuffSize)
      && HeaderHolds(m, HeaderAt(own, |own| + j), own[j].ulPageSize, own[j].ulBuffSize)
  }

  /** The guard word behind every page area. */
  ghost predicate GuardsAre(m: seq<byte>, own: seq<Port>, guard: word) {
    forall k :: 0 <= k < 2 * |own| ==>
      var at := HeaderAt(own, k) + 28 + BuffSize(own, k);
      at + 4 <= |m| && Load(m, at) == guard
  }

  /** The slots of the layout are at those addresses, with the sizes of those fields. */
  lemma {:induction false} LayoutIsTable(ports: seq<Port>, user: nat, k: nat)
    requires k <= 2 * |Matching(ports, user)|
    ensures var (own, sizes, slots) := (Matching(ports, user), Sizes(ports, user), Layout(ports, user));
            && |sizes| == |slots| == 2 * |own|
            && EndOf(sizes[..k], WORD_SIZE) == HeaderAt(own, k)
            && (k < |own| ==> slots[k] == Slot(HeaderAt(own, k), Size(own[k].dlPageSize, own[k].dlBuffSize)))
            && (|own| <= k < 2 * |own| ==>
                 slots[k] == Slot(HeaderAt(own, k), Size(own[k - |own|].ulPageSize, own[k - |own|].ulBuffSize)))
    decreases k
  {
    hide Matching, Walk, EndOf;
    var (own, sizes) := (Matching(ports, user), Sizes(ports, user));
    if k == 0 {
      EmptyWalk(sizes, WORD_SIZE);
    } else {
      LayoutIsTable(ports, user, k - 1);
      EndOfNext(sizes, WORD_SIZE, k - 1);
    }
    if k < |sizes| {
      WalkAt(sizes, WORD_SIZE, k);
    }
  }

  lemma EndOfNext(sizes: seq<Size>, at: nat, k: nat)
    requires k < |sizes|
    ensures EndOf(sizes[..k + 1], at) == EndOf(sizes[..k], at) + HEADER_SIZE + sizes[k].buffer + WORD_SIZE
  {
    assert sizes[..k + 1][..k] == sizes[..k];
  }

  lemma AgreesIsTable(m: seq<byte>, ports: seq<Port>, user: nat)
    ensures (forall slot <- Layout(ports, user) :: Agrees(m, slot)) <==> HoldsTable(m, Matching(ports, user))
  {
    hide Load, Layout, HeaderAt;
    var (own, slots) := (Matching(ports, user), Layout(ports, user));
    var n := |own|;
    LayoutIsTable(ports, user, 0);
    forall k | 0 <= k < 2 * n
      ensures k < n ==>
                (Agrees(m, slots[k]) <==>
                 HeaderHolds(m, HeaderAt(own, k), own[k].dlPageSize, own[k].dlBuffSize))
      ensures n <= k ==>
                (Agrees(m, slots[k]) <==>
                 HeaderHolds(m, HeaderAt(own, k), own[k - n].ulPageSize, own[k - n].ulBuffSize))
    {
      LayoutIsTable(ports, user, k);
    }
    AgreesFrom(m, own, slots);
  }

  lemma AgreesFrom(m: seq<byte>, own: seq<Port>, slots: seq<Slot>)
    requires |slots| == 2 * |own|
    requires forall k :: 0 <= k < |own| ==>
               (Agrees(m, slots[k]) <==> HeaderHolds(m, HeaderAt(own, k), own[k].dlPageSize, own[k].dlBuffSize))
    requires forall k :: |own| <= k < 2 * |own| ==>
               (Agrees(m, slots[k]) <==>
                HeaderHolds(m, HeaderAt(own, k), own[k - |own|].ulPageSize, own[k - |own|].ulBuffSize))
    ensures (forall slot <- slots :: Agrees(m, slot)) <==> HoldsTable(m, own)
  {
    hide Agrees, HeaderHolds, HeaderAt;
    var n := |own|;
    if HoldsTable(m, own) {
      forall k | 0 <= k < 2 * n
        ensures Agrees(m, slots[k])
      {
        assert k >= n ==> HeaderHolds(m, HeaderAt(own, n + (k - n)), own[k - n].ulPageSize, own[k - n].ulBuffSize);
      }
    }
    if forall slot <- slots :: Agrees(m, slot) {
      forall j | 0 <= j < n
        ensures HeaderHolds(m, HeaderAt(own, j), own[j].dlPageSize, own[j].dlBuffSize)
        ensures HeaderHolds(m, HeaderAt(own, n + j), own[j].ulPageSize, own[j].ulBuffSize)
      {
        assert Agrees(m, slots[j]) && Agrees(m, slots[n + j]);
        assert n + j - n == j;
      }
    }
  }

  lemma InitialisedIsTable(m: seq<byte>, ports: seq<Port>, user: nat)
    requires forall i :: 0 <= i < |Layout(ports, user)| ==> Initialised(m, Layout(ports, user)[i])
    ensures HoldsTable(m, Matching(ports, user)) && GuardsAre(m, Matching(ports, user), TAIL_MAGIC_BEFORE)
  {
    hide Load, Layout, HeaderAt;
    AgreesIsTable(m, ports, user);
    var own := Matching(ports, user);
    forall k | 0 <= k < 2 * |own|
      ensures var at := HeaderAt(own, k) + 28 + BuffSize(own, k);
              at + 4 <= |m| && Load(m, at) == TAIL_MAGIC_BEFORE
    {
      LayoutIsTable(ports, user, k);
      assert Initialised(m, Layout(ports, user)[k]);
    }
  }

  lemma {:induction false} EndGrows(sizes: seq<Size>, at: nat, k: nat)
    requires k <= |sizes|
    ensures at <= EndOf(sizes[..k], at) <= EndOf(sizes, at)
  {
    if k < |sizes| {
      EndGrows(sizes[..|sizes| - 1], at, k);
      assert sizes[..|sizes| - 1][..k] == sizes[..k];
    } else {
      assert sizes[..k] == sizes;
    }
  }

  /** Slot i starts where the slots before it end, whatever follows it. */
  lemma {:induction false} WalkAt(sizes: seq<Size>, at: nat, i: nat)
    requires i < |sizes|
    ensures Walk(sizes, at)[i] == Slot(EndOf(sizes[..i], at), sizes[i])
    ensures Walk(sizes, at)[i].End() == EndOf(sizes[..i + 1], at) <= EndOf(sizes, at)
    ensures Walk(sizes[..i + 1], at) == Walk(sizes[..i], at) + [Walk(sizes, at)[i]]
  {
    EndGrows(sizes, at, i + 1);
    assert sizes[..i + 1][..i] == sizes[..i];
    if i < |sizes| - 1 {
      WalkAt(sizes[..|sizes| - 1], at, i);
      assert sizes[..|sizes| - 1][..i] == sizes[..i];
    } else {
      assert sizes[..i + 1] == sizes;
    }
  }

  /** Different slots never overlap, and all of them lie between the start of the walk and its end. */
  lemma SlotsApart(sizes: seq<Size>, at: nat, i: nat, j: nat)
    requires i < j < |sizes|
    ensures var slots := Walk(sizes, at);
            at <= slots[i].header < slots[i].Pages() <= slots[i].Guard() < slots[i].End() <= slots[j].header &&
            slots[j].End() <= EndOf(sizes, at)
  {
    WalkAt(sizes, at, i);
    WalkAt(sizes, at, j);
    EndGrows(sizes[..j], at, i + 1);
    assert sizes[..j][..i + 1] == sizes[..i + 1];
  }

  // ---------- what the walks do to one slot ----------

  predicate Inside(m: seq<byte>, slots: seq<Slot>) {
    forall slot <- slots :: slot.End() <= |m|
  }

  function InitSlot(m: seq<byte>, slot: Slot): (m': seq<byte>)
    requires slot.End() <= |m|
    ensures |m'| == |m|
  {
    Store(Store(Store(m, slot.header + PAGE_SIZE, slot.size.page), slot.header + DATA_BUFFER_SIZE, slot.size.buffer),
          slot.Guard(), TAIL_MAGIC_BEFORE)
  }

  function InitAll(m: seq<byte>, slots: seq<Slot>): (m': seq<byte>)
    requires Inside(m, slots)
    ensures |m'| == |m|
  {
    if slots == [] then m
    else InitSlot(InitAll(m, slots[..|slots| - 1]), slots[|slots| - 1])
  }

  /** The comparison that check_user makes in one header. */
  predicate Agrees(m: seq<byte>, slot: Slot) {
    slot.End() <= |m| &&
    Load(m, slot.header + PAGE_SIZE) == slot.size.page && Load(m, slot.header + DATA_BUFFER_SIZE) == slot.size.buffer
  }

  predicate Overlap(s: Slot, t: Slot) {
    s.header < t.End() && t.header < s.End()
  }

  /** What check_user accepts in one slot, and the guard word that init_user puts behind it. */
  predicate Initialised(m: seq<byte>, slot: Slot) {
    Agrees(m, slot) && Load(m, slot.Guard()) == TAIL_MAGIC_BEFORE
  }

  lemma InitSlotInitialises(m: seq<byte>, slot: Slot)
    requires slot.End() <= |m|
    ensures Initialised(InitSlot(m, slot), slot)
  {
    hide Store, Load;
    var m1 := Store(m, slot.header + PAGE_SIZE, slot.size.page);
    var m2 := Store(m1, slot.header + DATA_BUFFER_SIZE, slot.size.buffer);
    LoadStored(m, slot.header + PAGE_SIZE, slot.size.page);
    LoadStored(m1, slot.header + DATA_BUFFER_SIZE, slot.size.buffer);
    LoadStored(m2, slot.Guard(), TAIL_MAGIC_BEFORE);
    LoadElsewhere(m1, slot.header + DATA_BUFFER_SIZE, slot.size.buffer, slot.header + PAGE_SIZE);
    LoadElsewhere(m2, slot.Guard(), TAIL_MAGIC_BEFORE, slot.header + PAGE_SIZE);
    LoadElsewhere(m2, slot.Guard(), TAIL_MAGIC_BEFORE, slot.header + DATA_BUFFER_SIZE);
  }

  /** Initialising one slot leaves every word of another slot alone. */
  lemma InitSlotElsewhere(m: seq<byte>, slot: Slot, other: Slot, a: nat)
    requires slot.End() <= |m| && other.End() <= |m| && !Overlap(slot, other)
    requires other.header <= a && a + WORD_SIZE <= other.End()
    ensures Load(InitSlot(m, slot), a) == Load(m, a)
  {
    hide Store, Load;
    var m1 := Store(m, slot.header + PAGE_SIZE, slot.size.page);
    var m2 := Store(m1, slot.header + DATA_BUFFER_SIZE, slot.size.buffer);
    LoadElsewhere(m, slot.header + PAGE_SIZE, slot.size.page, a);
    LoadElsewhere(m1, slot.header + DATA_BUFFER_SIZE, slot.size.buffer, a);
    LoadElsewhere(m2, slot.Guard(), TAIL_MAGIC_BEFORE, a);
  }

  lemma InitSlotKeeps(m: seq<byte>, slot: Slot, other: Slot)
    requires slot.End() <= |m| && !Overlap(slot, other) && Initialised(m, other)
    ensures Initialised(InitSlot(m, slot), other)
  {
    hide InitSlot, Load;
    InitSlotElsewhere(m, slot, other, other.header + PAGE_SIZE);
    InitSlotElsewhere(m, slot, other, other.header + DATA_BUFFER_SIZE);
    InitSlotElsewhere(m, slot, other, other.Guard());
  }

  lemma WalkInside(m: seq<byte>, sizes: seq<Size>, at: nat)
    requires EndOf(sizes, at) <= |m|
    ensures Inside(m, Walk(sizes, at))
  {
    forall i | 0 <= i < |sizes|
      ensures Walk(sizes, at)[i].End() <= |m|
    {
      WalkAt(sizes, at, i);
    }
  }

  /** Initialising the last of a list of separate slots keeps all the earlier ones initialised. */
  lemma InitOneMore(m: seq<byte>, slots: seq<Slot>, k: nat)
    requires k < |slots| && slots[k].End() <= |m|
    requires forall i :: 0 <= i < k ==> slots[i].End() <= slots[k].header && Initialised(m, slots[i])
    ensures forall i :: 0 <= i <= k ==> Initialised(InitSlot(m, slots[k]), slots[i])
  {
    hide InitSlot, Initialised;
    InitSlotInitialises(m, slots[k]);
    forall i | 0 <= i < k
      ensures Initialised(InitSlot(m, slots[k]), slots[i])
    {
      InitSlotKeeps(m, slots[k], slots[i]);
    }
  }

  /** Memory just initialised along a walk is what check_user expects in every slot of that walk. */
  lemma {:induction false} InitAllInitialises(m: seq<byte>, sizes: seq<Size>, at: nat)
    requires EndOf(sizes, at) <= |m|
    ensures Inside(m, Walk(sizes, at))
    ensures forall i :: 0 <= i < |sizes| ==> Initialised(InitAll(m, Walk(sizes, at)), Walk(sizes, at)[i])
  {
    hide InitSlot, Initialised;
    WalkInside(m, sizes, at);
    if sizes != [] {
      var k, slots := |sizes| - 1, Walk(sizes, at);
      InitAllInitialises(m, sizes[..k], at);
      assert slots[..k] == Walk(sizes[..k], at);
      forall i | 0 <= i < k
        ensures slots[i].End() <= slots[k].header && Initialised(InitAll(m, slots[..k]), slots[i])
      {
        SlotsApart(sizes, at, i, k);
        assert slots[..k][i] == slots[i];
      }
      InitOneMore(InitAll(m, slots[..k]), slots, k);
    }
  }

  // ---------- walking the port table ----------

  lemma MatchingNext(ports: seq<Port>, user: nat, i: nat)
    requires i < |ports|
    ensures Matching(ports[..i + 1], user) ==
            Matching(ports[..i], user) + if ports[i].user == user then [ports[i]] else []
  {
    assert ports[..i + 1][..i] == ports[..i];
  }

  lemma {:induction false} MatchingPrefix(ports: seq<Port>, user: nat, i: nat)
    requires i <= |ports|
    ensures Matching(ports[..i], user) <= Matching(ports, user)
  {
    if i < |ports| {
      var k := |ports| - 1;
      MatchingPrefix(ports[..k], user, i);
      assert ports[..k][..i] == ports[..i];
    } else {
      assert ports[..i] == ports;
    }
  }

  /** The slots seen after i ports of the downlink pass, or after all of it and i ports of the uplink pass. */
  ghost function Seen(ports: seq<Port>, user: nat, i: nat, up: bool): seq<Size>
    requires i <= |ports|
  {
    if up then DownSizes(Matching(ports, user)) + UpSizes(Matching(ports[..i], user))
    else DownSizes(Matching(ports[..i], user))
  }

  lemma SeenIsPrefix(ports: seq<Port>, user: nat, i: nat, up: bool)
    requires i <= |ports|
    ensures Seen(ports, user, i, up) <= Sizes(ports, user)
    ensures EndOf(Seen(ports, user, i, up), WORD_SIZE) <= Needed(ports, user)
    ensures Seen(ports, user, 0, true) == Seen(ports, user, |ports|, false)
    ensures Seen(ports, user, |ports|, true) == Sizes(ports, user)
  {
    MatchingPrefix(ports, user, i);
    var seen, sizes := Seen(ports, user, i, up), Sizes(ports, user);
    assert seen <= sizes;
    assert sizes[..|seen|] == seen;
    EndGrows(sizes, WORD_SIZE, |seen|);
    assert ports[..0] == [] && ports[..|ports|] == ports;
  }

  /** One more port adds one slot at the walking pointer if it belongs to the user, and nothing otherwise. */
  lemma SeenNext(ports: seq<Port>, user: nat, i: nat, up: bool)
    requires i < |ports|
    ensures var seen, seen' := Seen(ports, user, i, up), Seen(ports, user, i + 1, up);
            var size := SizeOf(ports[i], up);
            if ports[i].user != user then seen' == seen
            else
              && seen' == seen + [size]
              && Walk(seen', WORD_SIZE) == Walk(seen, WORD_SIZE) + [Slot(EndOf(seen, WORD_SIZE), size)]
              && EndOf(seen', WORD_SIZE) == Slot(EndOf(seen, WORD_SIZE), size).End()
  {
    MatchingNext(ports, user, i);
    var seen, seen' := Seen(ports, user, i, up), Seen(ports, user, i + 1, up);
    if ports[i].user == user {
      assert seen' == seen + [seen'[|seen|]];
      assert seen'[..|seen|] == seen;
    }
  }

  lemma InitOnePort(m: seq<byte>, slots: seq<Slot>, slot: Slot)
    requires Inside(m, slots) && slot.End() <= |m|
    ensures Inside(m, slots + [slot]) && InitAll(m, slots + [slot]) == InitSlot(InitAll(m, slots), slot)
  {
    assert (slots + [slot])[..|slots|] == slots;
  }

  // The sum of all buffers of all users, in unsigned 32-bit arithmetic.
  function Request(ports: seq<Port>): word {
    if ports == [] then 0
    else
      var last := ports[|ports| - 1];
      (Request(ports[..|ports| - 1]) as int + last.dlBuffSize + last.ulBuffSize) % 0x1_0000_0000
  }

  const CCB_USER_OK := 1
  const CCB_USER_ERR := 2

  method StoreWord(mem: array<byte>, a: nat, v: word)
    requires a + WORD_SIZE <= mem.Length
    modifies mem
    ensures mem[..] == Store(old(mem[..]), a, v)
  {
    mem[a] := v % 0x100;
    mem[a + 1] := v / 0x100 % 0x100;
    mem[a + 2] := v / 0x1_0000 % 0x100;
    mem[a + 3] := v / 0x100_0000;
  }

  method InitHeader(mem: array<byte>, at: nat, size: Size) returns (next: nat)
    requires Slot(at, size).End() <= mem.Length
    modifies mem
    ensures mem[..] == InitSlot(old(mem[..]), Slot(at, size)) && next == Slot(at, size).End()
  {
    hide Store, Load;
    StoreWord(mem, at + PAGE_SIZE, size.page);
    StoreWord(mem, at + DATA_BUFFER_SIZE, size.buffer);
    next := at + HEADER_SIZE + size.buffer;
    StoreWord(mem, next, TAIL_MAGIC_BEFORE);
    next := next + WORD_SIZE;
  }

  /** One pass over the port table; the source has it twice, once for each direction. */
  method InitPass(mem: array<byte>, ports: seq<Port>, user: nat, up: bool, at: nat, ghost m: seq<byte>)
    returns (ptr: nat)
    requires mem.Length == |m| && Needed(ports, user) <= mem.Length
    requires at == EndOf(Seen(ports, user, 0, up), WORD_SIZE)
    requires Inside(m, Walk(Seen(ports, user, 0, up), WORD_SIZE))
    requires mem[..] == InitAll(m, Walk(Seen(ports, user, 0, up), WORD_SIZE))
    modifies mem
    ensures ptr == EndOf(Seen(ports, user, |ports|, up), WORD_SIZE)
    ensures Inside(m, Walk(Seen(ports, user, |ports|, up), WORD_SIZE))
    ensures mem[..] == InitAll(m, Walk(Seen(ports, user, |ports|, up), WORD_SIZE))
  {
    hide InitSlot, InitAll, Walk, EndOf, Seen, Inside;
    ptr := at;
    for i := 0 to |ports|
      invariant ptr == EndOf(Seen(ports, user, i, up), WORD_SIZE)
      invariant Inside(m, Walk(Seen(ports, user, i, up), WORD_SIZE))
      invariant mem[..] == InitAll(m, Walk(Seen(ports, user, i, up), WORD_SIZE))
    {
      SeenNext(ports, user, i, up);
      SeenIsPrefix(ports, user, i + 1, up);
      if ports[i].user == user {
        var size := SizeOf(ports[i], up);
        InitOnePort(m, Walk(Seen(ports, user, i, up), WORD_SIZE), Slot(ptr, size));
        ptr := InitHeader(mem, ptr, size);
      }
    }
  }

  /** The length check of init_user, which adds up the buffers of all users and nothing else. */
  predicate Accepts(ports: seq<Port>, length: nat) {
    Request(ports) <= length - WORD_SIZE
  }

  /**
   mem is the memory from the start of the mapping on, length the length of the mapping.  When the check accepts a
   mapping that is too short, the walk goes on in the memory behind it, which therefore has to be there.
   */
  method InitUser(mem: array<byte>, length: nat, ports: seq<Port>, user: nat) returns (ret: int, state: nat)
    requires WORD_SIZE <= length <= mem.Length
    requires Accepts(ports, length) ==> Needed(ports, user) <= mem.Length
    modifies mem
    ensures !Accepts(ports, length) ==> ret == -EFAULT && state == CCB_USER_ERR && mem[..] == old(mem[..])
    ensures Accepts(ports, length) ==>
              && ret == 0 && state == CCB_USER_OK
              && (forall i :: 0 <= i < |Layout(ports, user)| ==> Initialised(mem[..], Layout(ports, user)[i]))
              && HoldsTable(mem[..], Matching(ports, user))
              && GuardsAre(mem[..], Matching(ports, user), TAIL_MAGIC_BEFORE)
  {
    hide InitSlot, Initialised, HoldsTable, GuardsAre;
    var request := 0;
    for i := 0 to |ports|
      invariant request == Request(ports[..i])
    {
      request := (request + ports[i].dlBuffSize + ports[i].ulBuffSize) % 0x1_0000_0000;
      assert ports[..i + 1][..i] == ports[..i];
    }
    assert ports[..|ports|] == ports;
    if request > length - WORD_SIZE {
      return -EFAULT, CCB_USER_ERR;
    }
    ghost var m := mem[..];
    var ptr := InitPass(mem, ports, user, false, WORD_SIZE, m);
    SeenIsPrefix(ports, user, 0, true);
    ptr := InitPass(mem, ports, user, true, ptr, m);
    SeenIsPrefix(ports, user, |ports|, true);
    InitAllInitialises(m, Sizes(ports, user), WORD_SIZE);
    InitialisedIsTable(mem[..], ports, user);
    return 0, CCB_USER_OK;
  }

  method CheckHeader(mem: array<byte>, at: nat, size: Size) returns (agrees: bool, next: nat)
    requires Slot(at, size).End() <= mem.Length
    ensures agrees == Agrees(mem[..], Slot(at, size)) && next == Slot(at, size).End()
  {
    hide Load;
    agrees := Load(mem[..], at + PAGE_SIZE) == size.page && Load(mem[..], at + DATA_BUFFER_SIZE) == size.buffer;
    next := at + HEADER_SIZE + size.buffer + WORD_SIZE;
  }

  /** A slot met on the way is a slot of the layout. */
  lemma SeenInLayout(ports: seq<Port>, user: nat, i: nat, up: bool)
    requires i <= |ports|
    ensures forall slot <- Walk(Seen(ports, user, i, up), WORD_SIZE) :: slot in Layout(ports, user)
  {
    SeenIsPrefix(ports, user, i, up);
    WalkPrefix(Sizes(ports, user), Seen(ports, user, i, up), WORD_SIZE);
  }

  method CheckPass(mem: array<byte>, ports: seq<Port>, user: nat, up: bool, at: nat) returns (agrees: bool, ptr: nat)
    requires Needed(ports, user) <= mem.Length
    requires at == EndOf(Seen(ports, user, 0, up), WORD_SIZE)
    requires forall slot <- Walk(Seen(ports, user, 0, up), WORD_SIZE) :: Agrees(mem[..], slot)
    ensures agrees ==> ptr == EndOf(Seen(ports, user, |ports|, up), WORD_SIZE)
    ensures agrees ==> forall slot <- Walk(Seen(ports, user, |ports|, up), WORD_SIZE) :: Agrees(mem[..], slot)
    ensures !agrees ==> exists slot <- Layout(ports, user) :: !Agrees(mem[..], slot)
  {
    hide Agrees, Walk, EndOf, Seen, Layout;
    agrees, ptr := true, at;
    for i := 0 to |ports|
      invariant agrees && ptr == EndOf(Seen(ports, user, i, up), WORD_SIZE)
      invariant forall slot <- Walk(Seen(ports, user, i, up), WORD_SIZE) :: Agrees(mem[..], slot)
    {
      SeenNext(ports, user, i, up);
      SeenIsPrefix(ports, user, i + 1, up);
      if ports[i].user == user {
        ghost var slot := Slot(ptr, SizeOf(ports[i], up));
        agrees, ptr := CheckHeader(mem, ptr, SizeOf(ports[i], up));
        if !agrees {
          SeenInLayout(ports, user, i + 1, up);
          assert slot in Walk(Seen(ports, user, i + 1, up), WORD_SIZE);
          return;
        }
      }
    }
  }

  method CheckUser(mem: array<byte>, ports: seq<Port>, user: nat, state: nat) returns (ret: int, state': nat)
    requires Needed(ports, user) <= mem.Length
    ensures ret == 0 <==> state == CCB_USER_OK && HoldsTable(mem[..], Matching(ports, user))
    ensures ret == 0 || ret == -EINVAL
    ensures state' == if ret == 0 then CCB_USER_OK else CCB_USER_ERR
  {
    hide Agrees, HoldsTable;
    AgreesIsTable(mem[..], ports, user);
    if state != CCB_USER_OK {
      return -EINVAL, CCB_USER_ERR;
    }
    var agrees, ptr := CheckPass(mem, ports, user, false, WORD_SIZE);
    if !agrees {
      return -EINVAL, CCB_USER_ERR;
    }
    SeenIsPrefix(ports, user, 0, true);
    agrees, ptr := CheckPass(mem, ports, user, true, ptr);
    if !agrees {
      return -EINVAL, CCB_USER_ERR;
    }
    SeenIsPrefix(ports, user, |ports|, true);
    return 0, CCB_USER_OK;
  }

  lemma {:induction false} WalkPrefix(sizes: seq<Size>, seen: seq<Size>, at: nat)
    requires seen <= sizes
    ensures Walk(seen, at) <= Walk(sizes, at)
  {
    if |seen| < |sizes| {
      WalkPrefix(sizes[..|sizes| - 1], seen, at);
    } else {
      assert seen == sizes;
    }
  }

  // ---------- registration ----------

  /** What register does in one slot: index `to` takes the value of index `from`, and the guard word changes. */
  function AttachSlot(m: seq<byte>, slot: Slot, up: bool): (m': seq<byte>)
    requires slot.End() <= |m|
    ensures |m'| == |m|
  {
    var from := if up then ALLOCATE_INDEX else READ_INDEX;
    var to := if up then WRITE_INDEX else FREE_INDEX;
    Store(Store(m, slot.header + to, Load(m, slot.header + from)), slot.Guard(), TAIL_MAGIC_AFTER)
  }

  predicate HeaderField(f: nat) {
    f in {0, 4, 8, 12, 16, 20, 24}
  }

  /**
   A slot that register has been through, in terms of the memory m before: write (at 16) is allocate (at 4) in an
   uplink header, free (at 8) is read (at 12) in a downlink header, and every other field is as it was.
   */
  ghost predicate Attached(m: seq<byte>, m': seq<byte>, slot: Slot, up: bool) {
    var from, to := if up then 4 else 12, if up then 16 else 8;
    && slot.End() <= |m| == |m'|
    && Load(m', slot.header + 28 + slot.size.buffer) == TAIL_MAGIC_AFTER
    && Load(m', slot.header + to) == Load(m, slot.header + from)
    && forall f :: HeaderField(f) && f != to ==> Load(m', slot.header + f) == Load(m, slot.header + f)
  }

  /** A slot that register has not reached. */
  ghost predicate Untouched(m: seq<byte>, m': seq<byte>, slot: Slot) {
    && slot.End() <= |m| == |m'|
    && forall f :: HeaderField(f) ==> Load(m', slot.header + f) == Load(m, slot.header + f)
  }

  lemma AttachSlotAttaches(m: seq<byte>, m0: seq<byte>, slot: Slot, up: bool)
    requires Untouched(m0, m, slot)
    ensures Attached(m0, AttachSlot(m, slot, up), slot, up)
  {
    hide Store, Load;
    var from := if up then ALLOCATE_INDEX else READ_INDEX;
    var to := if up then WRITE_INDEX else FREE_INDEX;
    assert HeaderField(from);
    var v := Load(m, slot.header + from);
    var m1 := Store(m, slot.header + to, v);
    LoadStored(m, slot.header + to, v);
    LoadElsewhere(m1, slot.Guard(), TAIL_MAGIC_AFTER, slot.header + to);
    LoadStored(m1, slot.Guard(), TAIL_MAGIC_AFTER);
    forall f | HeaderField(f)
      ensures f != to ==> Load(m1, slot.header + f) == Load(m, slot.header + f)
      ensures Load(Store(m1, slot.Guard(), TAIL_MAGIC_AFTER), slot.header + f) == Load(m1, slot.header + f)
    {
      if f != to {
        LoadElsewhere(m, slot.header + to, v, slot.header + f);
      }
      LoadElsewhere(m1, slot.Guard(), TAIL_MAGIC_AFTER, slot.header + f);
    }
  }

  lemma AttachSlotElsewhere(m: seq<byte>, slot: Slot, up: bool, other: Slot, a: nat)
    requires slot.End() <= |m| && other.End() <= |m| && !Overlap(slot, other)
    requires other.header <= a && a + WORD_SIZE <= other.End()
    ensures Load(AttachSlot(m, slot, up), a) == Load(m, a)
  {
    hide Store, Load;
    var to := if up then WRITE_INDEX else FREE_INDEX;
    var v := Load(m, slot.header + if up then ALLOCATE_INDEX else READ_INDEX);
    LoadElsewhere(m, slot.header + to, v, a);
    LoadElsewhere(Store(m, slot.header + to, v), slot.Guard(), TAIL_MAGIC_AFTER, a);
  }

  lemma AttachSlotKeeps(m0: seq<byte>, m: seq<byte>, slot: Slot, up: bool, other: Slot, otherUp: bool)
    requires slot.End() <= |m| && !Overlap(slot, other)
    ensures Attached(m0, m, other, otherUp) ==> Attached(m0, AttachSlot(m, slot, up), other, otherUp)
    ensures Untouched(m0, m, other) ==> Untouched(m0, AttachSlot(m, slot, up), other)
  {
    hide AttachSlot, Load;
    if other.End() <= |m| {
      forall a | other.header <= a && a + WORD_SIZE <= other.End()
        ensures Load(AttachSlot(m, slot, up), a) == Load(m, a)
      {
        AttachSlotElsewhere(m, slot, up, other, a);
      }
    }
  }

  /** Register between slots: the first k slots of the layout are attached, the others as before. */
  ghost predicate Registered(m0: seq<byte>, m: seq<byte>, slots: seq<Slot>, downs: nat, k: nat) {
    && (forall i :: 0 <= i < k && i < |slots| ==> Attached(m0, m, slots[i], i >= downs))
    && (forall i :: k <= i < |slots| ==> Untouched(m0, m, slots[i]))
  }

  lemma RegisterOneMore(m0: seq<byte>, m: seq<byte>, sizes: seq<Size>, at: nat, downs: nat, k: nat)
    requires k < |sizes| && EndOf(sizes, at) <= |m| == |m0|
    requires Registered(m0, m, Walk(sizes, at), downs, k)
    ensures Walk(sizes, at)[k].End() <= |m|
    ensures Registered(m0, AttachSlot(m, Walk(sizes, at)[k], k >= downs), Walk(sizes, at), downs, k + 1)
  {
    hide Attached, Untouched, AttachSlot;
    var slots := Walk(sizes, at);
    WalkAt(sizes, at, k);
    AttachSlotAttaches(m, m0, slots[k], k >= downs);
    var m' := AttachSlot(m, slots[k], k >= downs);
    forall i | 0 <= i < |slots| && i != k
      ensures i < k ==> Attached(m0, m', slots[i], i >= downs)
      ensures i > k ==> Untouched(m0, m', slots[i])
    {
      SlotsApart(sizes, at, if i < k then i else k, if i < k then k else i);
      AttachSlotKeeps(m0, m, slots[k], k >= downs, slots[i], i >= downs);
    }
  }

  /** What register keeps about one direction of a buffer: where it is, and how many pages it has. */
  datatype Buff = Buff(header: nat, guard: nat, pageNum: nat)

  function BuffOf(slot: Slot): Buff
    requires 0 < slot.size.page
  {
    Buff(slot.header, slot.Guard(), slot.size.buffer / slot.size.page)
  }

  /**
   What register keeps about a slot: where header and guard word are, and as many pages as fit.  Every page, in the
   addresses that the ring calls use, ends before the guard word, and one more page would not.
   */
  ghost predicate PagesFill(buff: Buff, slot: Slot) {
    var (base, page) := (slot.header + 28, slot.size.page);
    && buff.header == slot.header && buff.guard == slot.header + 28 + slot.size.buffer
    && buff.pageNum * page <= slot.size.buffer < (buff.pageNum + 1) * page
    && forall p: nat :: p < buff.pageNum <==>
         CcbPages.BufferAddress(base, page, p) - CcbPages.PAGE_HEADER_SIZE + page <= buff.guard
  }

  lemma BuffFills(slot: Slot)
    requires 0 < slot.size.page
    ensures PagesFill(BuffOf(slot), slot)
  {
    var (page, buffer) := (slot.size.page as nat, slot.size.buffer as nat);
    var n := buffer / page;
    QuotientIs(buffer, page);
    forall p: nat
      ensures p < n <==> page * p + page <= buffer
    {
      ProductOrder(page, p, n);
    }
  }

  lemma QuotientIs(buffer: nat, page: nat)
    requires 0 < page
    ensures buffer / page * page <= buffer < (buffer / page + 1) * page
  {
  }

  lemma {:induction false} ProductGrows(page: nat, p: nat, n: nat)
    requires p <= n
    ensures p * page <= n * page
    decreases n - p
  {
    if p < n {
      ProductGrows(page, p, n - 1);
      assert n * page == (n - 1) * page + page;
    }
  }

  lemma ProductOrder(page: nat, p: nat, n: nat)
    ensures p < n ==> page * p + page <= n * page
    ensures p >= n ==> page * p + page >= (n + 1) * page
  {
    assert page * p + page == (p + 1) * page;
    if p < n {
      ProductGrows(page, p + 1, n);
    } else {
      ProductGrows(page, n + 1, p + 1);
    }
  }

  /** The body of either loop of register; false means that the modem has not put its mark into the header. */
  method AttachHeader(mem: array<byte>, ghost slot: Slot, at: nat, up: bool)
    returns (ready: bool, buff: Buff, next: nat)
    requires at == slot.header && Agrees(mem[..], slot) && 0 < slot.size.page
    modifies mem
    ensures ready == (Load(old(mem[..]), at + GUARD_BAND) != 0)
    ensures ready ==> mem[..] == AttachSlot(old(mem[..]), slot, up) && buff == BuffOf(slot) && next == slot.End()
  {
    hide Store, Load;
    ghost var m := mem[..];
    var from := if up then ALLOCATE_INDEX else READ_INDEX;
    var to := if up then WRITE_INDEX else FREE_INDEX;
    var v := Load(mem[..], at + from);
    StoreWord(mem, at + to, v);
    LoadElsewhere(m, at + to, v, at + GUARD_BAND);
    LoadElsewhere(m, at + to, v, at + PAGE_SIZE);
    LoadElsewhere(m, at + to, v, at + DATA_BUFFER_SIZE);
    var mark, pageSize := Load(mem[..], at), Load(mem[..], at + PAGE_SIZE);
    var buffSize := Load(mem[..], at + DATA_BUFFER_SIZE);
    assert pageSize == slot.size.page && buffSize == slot.size.buffer;
    next := at + HEADER_SIZE + buffSize;
    buff := Buff(at, next, 0);
    ready := mark != 0;
    if ready {
      buff := Buff(at, next, buffSize / pageSize);
      StoreWord(mem, next, TAIL_MAGIC_AFTER);
      next := next + WORD_SIZE;
    }
  }

  lemma StillAgrees(m0: seq<byte>, m: seq<byte>, slot: Slot)
    requires Untouched(m0, m, slot) && Agrees(m0, slot)
    ensures Agrees(m, slot) && Load(m, slot.header + GUARD_BAND) == Load(m0, slot.header + GUARD_BAND)
  {
    hide Load;
    assert HeaderField(GUARD_BAND) && HeaderField(PAGE_SIZE) && HeaderField(DATA_BUFFER_SIZE);
  }

  ghost predicate Ready(m: seq<byte>, slots: seq<Slot>) {
    forall slot <- slots :: slot.End() <= |m| && Load(m, slot.header + GUARD_BAND) != 0
  }

  /** Either loop of register: slots before `from` are done, and it goes on to `upTo` by the sizes found in memory. */
  method RegisterPass(mem: array<byte>, ghost slots: seq<Slot>, ghost sizes: seq<Size>, ghost m0: seq<byte>,
                      ghost downs: nat, from: nat, upTo: nat, up: bool, at: nat, done: seq<Buff>)
    returns (ready: bool, ptr: nat, buffs: seq<Buff>)
    requires EndOf(sizes, WORD_SIZE) <= mem.Length == |m0| && slots == Walk(sizes, WORD_SIZE)
    requires from <= upTo <= |sizes| && (if up then downs <= from else upTo <= downs)
    requires forall slot <- slots :: Agrees(m0, slot) && 0 < slot.size.page
    requires Registered(m0, mem[..], slots, downs, from) && Ready(m0, slots[..from])
    requires at == EndOf(sizes[..from], WORD_SIZE)
    requires |done| == from && forall i :: 0 <= i < from ==> done[i] == BuffOf(slots[i])
    modifies mem
    ensures ready <==> Ready(m0, slots[..upTo])
    ensures ready ==>
              && Registered(m0, mem[..], slots, downs, upTo) && ptr == EndOf(sizes[..upTo], WORD_SIZE)
              && |buffs| == upTo && forall i :: 0 <= i < upTo ==> buffs[i] == BuffOf(slots[i])
  {
    hide Agrees, Load, AttachSlot, Attached, Untouched, Walk, EndOf, BuffOf, Registered, Ready;
    ready, ptr, buffs := true, at, done;
    for i := from to upTo
      invariant ready && ptr == EndOf(sizes[..i], WORD_SIZE)
      invariant Registered(m0, mem[..], slots, downs, i) && Ready(m0, slots[..i])
      invariant |buffs| == i && forall k :: 0 <= k < i ==> buffs[k] == BuffOf(slots[k])
    {
      WalkAt(sizes, WORD_SIZE, i);
      RegisteredAgrees(m0, mem[..], slots, downs, i);
      RegisterOneMore(m0, mem[..], sizes, WORD_SIZE, downs, i);
      ReadyNext(m0, slots, i, upTo);
      var buff;
      ready, buff, ptr := AttachHeader(mem, slots[i], ptr, up);
      if !ready {
        return;
      }
      buffs := buffs + [buff];
    }
  }

  lemma RegisteredAgrees(m0: seq<byte>, m: seq<byte>, slots: seq<Slot>, downs: nat, k: nat)
    requires Registered(m0, m, slots, downs, k) && k < |slots| && Agrees(m0, slots[k])
    ensures Agrees(m, slots[k])
    ensures Load(m, slots[k].header + GUARD_BAND) == Load(m0, slots[k].header + GUARD_BAND)
  {
    hide Load;
    StillAgrees(m0, m, slots[k]);
  }

  lemma ReadyNext(m: seq<byte>, slots: seq<Slot>, i: nat, upTo: nat)
    requires i < upTo <= |slots| && slots[i].End() <= |m|
    ensures Ready(m, slots[..i + 1]) <==> Ready(m, slots[..i]) && Load(m, slots[i].header + GUARD_BAND) != 0
    ensures Ready(m, slots[..upTo]) ==> Ready(m, slots[..i + 1])
  {
    hide Load;
    assert slots[..i + 1] == slots[..i] + [slots[i]];
    assert slots[..upTo][..i + 1] == slots[..i + 1];
  }

  /**
   sizes are the sizes that the headers in memory hold, in the order of the walk; the source takes them from there and
   does not compare them with the port table.  After init and check they are those of the table, Sizes(ports, user).
   ENODEV, an earlier registration and a failing malloc are not part of this model.
   */
  method Register(mem: array<byte>, ports: seq<Port>, user: nat, state: nat, ghost sizes: seq<Size>)
    returns (ret: int, buffs: seq<Buff>)
    requires state == CCB_USER_OK ==>
               && |sizes| == 2 * |Matching(ports, user)| && EndOf(sizes, WORD_SIZE) <= mem.Length
               && forall slot <- Walk(sizes, WORD_SIZE) :: Agrees(mem[..], slot) && 0 < slot.size.page
    modifies mem
    ensures state != CCB_USER_OK || Matching(ports, user) == [] ==> ret == -EINVAL && mem[..] == old(mem[..])
    ensures state == CCB_USER_OK && Matching(ports, user) != [] ==>
              var slots, n := Walk(sizes, WORD_SIZE), |Matching(ports, user)|;
              && (ret == -EFAULT <==> !Ready(old(mem[..]), slots))
              && (ret != -EFAULT ==>
                   && ret == n && |buffs| == |slots| == 2 * n
                   && (forall i :: 0 <= i < 2 * n ==> PagesFill(buffs[i], slots[i]))
                   && (forall i :: 0 <= i < 2 * n ==> Attached(old(mem[..]), mem[..], slots[i], i >= n)))
  {
    hide Agrees, Load, AttachSlot, Attached, Walk, EndOf, BuffOf, Ready, PagesFill;
    buffs := [];
    if state != CCB_USER_OK {
      return -EINVAL, [];
    }
    var bufferNum := 0;
    for i := 0 to |ports|
      invariant bufferNum == |Matching(ports[..i], user)| && mem[..] == old(mem[..])
    {
      MatchingNext(ports, user, i);
      if ports[i].user == user {
        bufferNum := bufferNum + 1;
      }
    }
    assert ports[..|ports|] == ports;
    if bufferNum == 0 {
      return -EINVAL, [];
    }
    ghost var m0, slots := mem[..], Walk(sizes, WORD_SIZE);
    WalkInside(m0, sizes, WORD_SIZE);
    NothingRegistered(m0, slots, bufferNum);
    EmptyWalk(sizes, WORD_SIZE);
    assert slots[..0] == [] && Ready(m0, slots[..0]) by { ReadyNone(m0); }
    var ready, ptr;
    ready, ptr, buffs := RegisterPass(mem, slots, sizes, m0, bufferNum, 0, bufferNum, false, WORD_SIZE, []);
    if !ready {
      ReadyPrefix(m0, slots, bufferNum);
      return -EFAULT, [];
    }
    ready, ptr, buffs := RegisterPass(mem, slots, sizes, m0, bufferNum, bufferNum, 2 * bufferNum, true, ptr, buffs);
    assert slots[..2 * bufferNum] == slots;
    if !ready {
      return -EFAULT, [];
    }
    forall i | 0 <= i < 2 * bufferNum
      ensures PagesFill(buffs[i], slots[i])
    {
      BuffFills(slots[i]);
    }
    return bufferNum, buffs;
  }

  lemma NothingRegistered(m: seq<byte>, slots: seq<Slot>, downs: nat)
    requires Inside(m, slots)
    ensures Registered(m, m, slots, downs, 0)
  {
  }

  lemma EmptyWalk(sizes: seq<Size>, at: nat)
    ensures EndOf(sizes[..0], at) == at
  {
  }

  lemma ReadyNone(m: seq<byte>)
    ensures Ready(m, [])
  {
  }

  lemma ReadyPrefix(m: seq<byte>, slots: seq<Slot>, k: nat)
    requires k <= |slots|
    ensures Ready(m, slots) ==> Ready(m, slots[..k])
  {
  }

  // ---------- looking buffers up, and the length check ----------

  /** The loop of get_config, which counts with a post-increment inside the comparison. */
  method GetConfig(ports: seq<Port>, user: nat, bufferId: nat) returns (config: Option<Port>)
    ensures config == if bufferId < |Matching(ports, user)| then Some(Matching(ports, user)[bufferId]) else None
  {
    var count := 0;
    for i := 0 to |ports|
      invariant count == |Matching(ports[..i], user)| <= bufferId
    {
      MatchingNext(ports, user, i);
      MatchingPrefix(ports, user, i + 1);
      if ports[i].user == user {
        count := count + 1;
        if count - 1 == bufferId {
          return Some(ports[i]);
        }
      }
    }
    assert ports[..|ports|] == ports;
    return None;
  }

  /** The loop of query_config, which compares first and counts afterwards. */
  method QueryConfig(ports: seq<Port>, user: nat, bufferId: nat) returns (config: Option<Port>)
    ensures config == if bufferId < |Matching(ports, user)| then Some(Matching(ports, user)[bufferId]) else None
  {
    var bufferCount := 0;
    for i := 0 to |ports|
      invariant bufferCount == |Matching(ports[..i], user)| <= bufferId
    {
      MatchingNext(ports, user, i);
      MatchingPrefix(ports, user, i + 1);
      if ports[i].user == user {
        if bufferCount == bufferId {
          return Some(ports[i]);
        }
        bufferCount := bufferCount + 1;
      }
    }
    assert ports[..|ports|] == ports;
    return None;
  }

  function BufferTotal(ports: seq<Port>): nat {
    if ports == [] then 0
    else BufferTotal(ports[..|ports| - 1]) + ports[|ports| - 1].dlBuffSize + ports[|ports| - 1].ulBuffSize
  }

  /** The sum of the source wraps around in its 32 bits. */
  lemma {:induction false} RequestIsTotal(ports: seq<Port>)
    ensures Request(ports) == BufferTotal(ports) % 0x1_0000_0000
  {
    if ports != [] {
      var (k, last) := (|ports| - 1, ports[|ports| - 1]);
      RequestIsTotal(ports[..k]);
      WrapsOnce(BufferTotal(ports[..k]), last.dlBuffSize + last.ulBuffSize);
    }
  }

  lemma WrapsOnce(sum: nat, more: nat)
    ensures (sum % 0x1_0000_0000 + more) % 0x1_0000_0000 == (sum + more) % 0x1_0000_0000
  {
    var (q, r) := (sum / 0x1_0000_0000, (sum % 0x1_0000_0000 + more) / 0x1_0000_0000);
    assert (sum + more) / 0x1_0000_0000 == q + r;
  }

  function BufferSum(sizes: seq<Size>): nat {
    if sizes == [] then 0 else BufferSum(sizes[..|sizes| - 1]) + sizes[|sizes| - 1].buffer
  }

  lemma {:induction false} EndOfIsSum(sizes: seq<Size>, at: nat)
    ensures EndOf(sizes, at) == at + BufferSum(sizes) + (HEADER_SIZE + WORD_SIZE) * |sizes|
  {
    if sizes != [] {
      EndOfIsSum(sizes[..|sizes| - 1], at);
    }
  }

  lemma {:induction false} BufferSumAppends(a: seq<Size>, b: seq<Size>)
    ensures BufferSum(a + b) == BufferSum(a) + BufferSum(b)
  {
    if b == [] {
      assert a + b == a;
    } else {
      assert (a + b)[..|a + b| - 1] == a + b[..|b| - 1];
      BufferSumAppends(a, b[..|b| - 1]);
    }
  }

  lemma {:induction false} SizesSum(ports: seq<Port>)
    ensures BufferSum(DownSizes(ports)) + BufferSum(UpSizes(ports)) == BufferTotal(ports)
  {
    if ports != [] {
      var k := |ports| - 1;
      SizesSum(ports[..k]);
      assert DownSizes(ports)[..k] == DownSizes(ports[..k]) && UpSizes(ports)[..k] == UpSizes(ports[..k]);
    }
  }

  lemma {:induction false} AllMatch(ports: seq<Port>, user: nat)
    requires forall port <- ports :: port.user == user
    ensures Matching(ports, user) == ports
  {
    if ports != [] {
      AllMatch(ports[..|ports| - 1], user);
    }
  }

  /** What a user's layout takes: its buffers, and 64 bytes for each port, two headers and two guard words. */
  lemma NeededIs(ports: seq<Port>, user: nat)
    ensures Needed(ports, user) == WORD_SIZE + BufferTotal(Matching(ports, user)) + 64 * |Matching(ports, user)|
  {
    var own := Matching(ports, user);
    EndOfIsSum(Sizes(ports, user), WORD_SIZE);
    BufferSumAppends(DownSizes(own), UpSizes(own));
    SizesSum(own);
  }

  /**
   For which tables the check is good enough for a user: those whose buffer sum, as it comes out of 32 bits, covers
   the user's buffers and 64 bytes for each of the user's ports.
   */
  lemma LengthCheckEnoughIff(ports: seq<Port>, user: nat)
    ensures (forall length: nat :: Accepts(ports, length) ==> Needed(ports, user) <= length) <==>
            BufferTotal(Matching(ports, user)) + 64 * |Matching(ports, user)| <=
            BufferTotal(ports) % 0x1_0000_0000
  {
    NeededIs(ports, user);
    RequestIsTotal(ports);
    assert Accepts(ports, WORD_SIZE + Request(ports));
  }

  /** For which mappings of any table: the check accepts one that is too short exactly in this gap. */
  lemma LengthCheckGap(ports: seq<Port>, user: nat, length: nat)
    ensures Accepts(ports, length) && length < Needed(ports, user) <==>
            BufferTotal(ports) % 0x1_0000_0000 <= length - WORD_SIZE <
            BufferTotal(Matching(ports, user)) + 64 * |Matching(ports, user)|
  {
    NeededIs(ports, user);
    RequestIsTotal(ports);
  }

  /** A table of one user only is never covered, unless it is empty. */
  lemma OneUserIsNotCovered(ports: seq<Port>, user: nat)
    requires forall port <- ports :: port.user == user
    ensures (forall length: nat :: Accepts(ports, length) ==> Needed(ports, user) <= length) <==> ports == []
  {
    AllMatch(ports, user);
    LengthCheckEnoughIff(ports, user);
  }

  // The table the source compiles in.
  const USR_SMEM_CCB_DHL := 43
  const PORTS: seq<Port> := [
    Port(USR_SMEM_CCB_DHL, 0, 128 * 1024 + 8, 512, (128 * 1024 + 8) * 32, 1024),
    Port(USR_SMEM_CCB_DHL, 0, 2048, 128, 16384, 1024)]

  /** With the table of the source, a mapping 128 bytes too short passes the check. */
  lemma LengthCheckTooWeak()
    ensures Accepts(PORTS, Needed(PORTS, USR_SMEM_CCB_DHL) - 128)
  {
    assert PORTS[..1][..0] == [] && PORTS[..1] == [PORTS[0]];
    assert BufferTotal(PORTS[..1]) == (128 * 1024 + 8) * 32 + 1024;
    RequestIsTotal(PORTS);
    AllMatch(PORTS, USR_SMEM_CCB_DHL);
    NeededIs(PORTS, USR_SMEM_CCB_DHL);
  }

  // A table whose buffers add up to nothing in 32 bits.
  const WRAPPING: seq<Port> := [Port(USR_SMEM_CCB_DHL, 0, 2048, 2048, 0x8000_0000, 0x8000_0000)]

  /** With it, a mapping of the reserved word alone passes, although four gigabytes are needed. */
  lemma LengthCheckWraps()
    ensures Accepts(WRAPPING, WORD_SIZE) && Needed(WRAPPING, USR_SMEM_CCB_DHL) == WORD_SIZE + 0x1_0000_0000 + 64
  {
    assert WRAPPING[..0] == [];
    RequestIsTotal(WRAPPING);
    AllMatch(WRAPPING, USR_SMEM_CCB_DHL);
    NeededIs(WRAPPING, USR_SMEM_CCB_DHL);
  }
}
