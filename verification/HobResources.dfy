/** How the pre-PI phase splits and marks resource HOBs: for a firmware volume, for the region the
    HOB list moves to, and for boot allocations that lie in carveouts. */
module HobResources {
  import opened Machine

  const MINIMUM_INITIAL_MEMORY_SIZE: nat := 0x10000
  const EFI_RESOURCE_ATTRIBUTE_TESTED: bv32 := 4

  datatype ResourceType = SystemMemory | MemoryReserved | OtherResource(code: nat)

  datatype MemoryType = BootServicesCode | BootServicesData | ReservedMemory | OtherMemory(code: nat)

  datatype Hob =
    | Resource(rtype: ResourceType, attributes: bv32, start: nat, length: nat)
    | Allocation(base: nat, size: nat, mtype: MemoryType)
    | OtherHob(code: nat)

  // ---------- what the resource HOBs say of an address ----------

  predicate CoversWith(h: Hob, a: nat, t: ResourceType, attributes: bv32) {
    h.Resource? && h.rtype == t && h.attributes == attributes && h.start <= a < h.start + h.length
  }

  function One(h: Hob, a: nat, t: ResourceType, attributes: bv32): nat {
    if CoversWith(h, a, t, attributes) then 1 else 0
  }

  /** How many resource HOBs give an address a type and attributes. */
  function Cover(hobs: seq<Hob>, a: nat, t: ResourceType, attributes: bv32): nat {
    if hobs == [] then 0 else Cover(hobs[..|hobs| - 1], a, t, attributes) + One(hobs[|hobs| - 1], a, t, attributes)
  }

  /** The map of addresses to types and attributes is the same. */
  ghost predicate SameMap(hobs: seq<Hob>, hobs': seq<Hob>) {
    forall a: nat, t: ResourceType, attributes: bv32 :: Cover(hobs, a, t, attributes) == Cover(hobs', a, t, attributes)
  }

  /** No resource reaches beyond 64 bits. */
  predicate NoWrap(hobs: seq<Hob>) {
    forall i :: 0 <= i < |hobs| && hobs[i].Resource? ==> hobs[i].start + hobs[i].length <= MAX_UINT64
  }

  lemma {:induction false} CoverAppend(hobs: seq<Hob>, h: Hob, a: nat, t: ResourceType, attributes: bv32)
    ensures Cover(hobs + [h], a, t, attributes) == Cover(hobs, a, t, attributes) + One(h, a, t, attributes)
  {
    assert (hobs + [h])[..|hobs|] == hobs;
  }

  lemma {:induction false} CoverUpdate(hobs: seq<Hob>, k: nat, h: Hob, a: nat, t: ResourceType, attributes: bv32)
    requires k < |hobs|
    ensures Cover(hobs[k := h], a, t, attributes) + One(hobs[k], a, t, attributes) ==
      Cover(hobs, a, t, attributes) + One(h, a, t, attributes)
    decreases |hobs|
  {
    hide One;
    var n := |hobs| - 1;
    if k < n {
      assert hobs[k := h][..n] == hobs[..n][k := h];
      CoverUpdate(hobs[..n], k, h, a, t, attributes);
    } else {
      assert hobs[k := h][..n] == hobs[..n];
    }
  }

  // ---------- a firmware volume gets a resource of its own ----------

  /** The resource is memory and holds the volume. */
  predicate Holds(h: Hob, base: nat, size: nat) {
    h.Resource? && (h.rtype == SystemMemory || h.rtype == MemoryReserved) && base >= h.start
      && base + size <= h.start + h.length
  }

  /** The first resource from i on that holds the volume. */
  function Holder(hobs: seq<Hob>, base: nat, size: nat, i: nat): (k: nat)
    requires i <= |hobs|
    ensures i <= k <= |hobs| && (k < |hobs| ==> Holds(hobs[k], base, size))
    decreases |hobs| - i
  {
    if i == |hobs| || Holds(hobs[i], base, size) then i else Holder(hobs, base, size, i + 1)
  }

  lemma {:induction false} HolderIsFirst(hobs: seq<Hob>, base: nat, size: nat, i: nat)
    requires i <= |hobs|
    ensures forall j :: i <= j < Holder(hobs, base, size, i) ==> !Holds(hobs[j], base, size)
    decreases |hobs| - i
  {
    if i < |hobs| && !Holds(hobs[i], base, size) {
      HolderIsFirst(hobs, base, size, i + 1);
    }
  }

  function Piece(h: Hob, start: nat, length: nat): Hob
    requires h.Resource?
  {
    Resource(h.rtype, h.attributes, start, length)
  }

  function FvMemoryType(t: ResourceType): MemoryType {
    if t == MemoryReserved then ReservedMemory else BootServicesCode
  }

  /** The list once the volume has been split off resource k, before its allocation is added. */
  function SplitOff(hobs: seq<Hob>, k: nat, base: nat, size: nat): seq<Hob>
    requires k < |hobs| && Holds(hobs[k], base, size)
  {
    var h := hobs[k];
    var top, fvTop := h.start + h.length, base + size;
    if base == h.start then
      if top == fvTop then hobs else hobs[k := Piece(h, fvTop, h.length - size)] + [Piece(h, base, size)]
    else
      var two := hobs[k := Piece(h, h.start, base - h.start)] + [Piece(h, base, size)];
      if fvTop < top then two + [Piece(h, fvTop, top - fvTop)] else two
  }

  /** RegisterFirmwareVolume. */
  function Register(hobs: seq<Hob>, base: nat, size: nat): seq<Hob> {
    var k := Holder(hobs, base, size, 0);
    if k == |hobs| then hobs
    else SplitOff(hobs, k, base, size) + [Allocation(base, size, FvMemoryType(hobs[k].rtype))]
  }

  lemma {:induction false} OnePieces(h: Hob, base: nat, size: nat, a: nat, t: ResourceType, attributes: bv32)
    requires Holds(h, base, size)
    ensures One(h, a, t, attributes) ==
      One(Piece(h, h.start, base - h.start), a, t, attributes) + One(Piece(h, base, size), a, t, attributes)
      + One(Piece(h, base + size, h.start + h.length - (base + size)), a, t, attributes)
  {
  }

  lemma {:induction false} OneOfNothing(h: Hob, start: nat, a: nat, t: ResourceType, attributes: bv32)
    requires h.Resource?
    ensures One(Piece(h, start, 0), a, t, attributes) == 0
  {
  }

  lemma {:induction false} SplitOffCovers(hobs: seq<Hob>, k: nat, base: nat, size: nat, a: nat, t: ResourceType,
                                          attributes: bv32)
    requires k < |hobs| && Holds(hobs[k], base, size)
    ensures Cover(SplitOff(hobs, k, base, size), a, t, attributes) == Cover(hobs, a, t, attributes)
  {
    hide Cover, One, Piece;
    var h := hobs[k];
    var top, fvTop := h.start + h.length, base + size;
    OnePieces(h, base, size, a, t, attributes);
    OneOfNothing(h, h.start, a, t, attributes);
    OneOfNothing(h, fvTop, a, t, attributes);
    var low, fv, high := Piece(h, h.start, base - h.start), Piece(h, base, size), Piece(h, fvTop, top - fvTop);
    if base == h.start {
      CoverUpdate(hobs, k, high, a, t, attributes);
      CoverAppend(hobs[k := high], fv, a, t, attributes);
    } else {
      CoverUpdate(hobs, k, low, a, t, attributes);
      CoverAppend(hobs[k := low], fv, a, t, attributes);
      CoverAppend(hobs[k := low] + [fv], high, a, t, attributes);
    }
  }

  /** Registering a firmware volume leaves what the resources say of every address as it was. */
  lemma {:induction false} RegisterConserves(hobs: seq<Hob>, base: nat, size: nat)
    ensures SameMap(hobs, Register(hobs, base, size))
  {
    hide Cover, One, SplitOff, Holder;
    var k := Holder(hobs, base, size, 0);
    forall a: nat, t: ResourceType, attributes: bv32
      ensures Cover(hobs, a, t, attributes) == Cover(Register(hobs, base, size), a, t, attributes)
    {
      if k < |hobs| {
        SplitOffCovers(hobs, k, base, size, a, t, attributes);
        CoverAppend(SplitOff(hobs, k, base, size), Allocation(base, size, FvMemoryType(hobs[k].rtype)), a, t,
                    attributes);
        AllocationCoversNothing(base, size, FvMemoryType(hobs[k].rtype), a, t, attributes);
      }
    }
  }

  lemma {:induction false} AllocationCoversNothing(base: nat, size: nat, m: MemoryType, a: nat, t: ResourceType,
                                                   attributes: bv32)
    ensures One(Allocation(base, size, m), a, t, attributes) == 0
  {
  }

  /** The volume is held by some memory resource. */
  ghost predicate IsHeld(hobs: seq<Hob>, base: nat, size: nat) {
    exists k :: 0 <= k < |hobs| && Holds(hobs[k], base, size)
  }

  /** What the code takes for memory around the volume. */
  lemma {:induction false} HoldsIs(h: Hob, base: nat, size: nat)
    ensures Holds(h, base, size) <==>
      h.Resource? && h.rtype in {SystemMemory, MemoryReserved} && h.start <= base &&
      base + size <= h.start + h.length
  {
  }

  /** When a memory resource holds the volume, the volume gets one of the type and attributes of the
      first that does, exactly its own, and an allocation to match; every other HOB stays. Otherwise
      none changes. */
  lemma {:induction false} RegisterIsolates(hobs: seq<Hob>, base: nat, size: nat)
    ensures var r, k := Register(hobs, base, size), Holder(hobs, base, size, 0);
      && (forall j :: 0 <= j < |hobs| && j < k && hobs[j].Resource? ==>
            hobs[j].rtype.OtherResource? || base < hobs[j].start || hobs[j].start + hobs[j].length < base + size)
      && if k < |hobs| then
           && hobs[k].Resource? && !hobs[k].rtype.OtherResource?
           && hobs[k].start <= base && base + size <= hobs[k].start + hobs[k].length
           && |r| > |hobs| && Resource(hobs[k].rtype, hobs[k].attributes, base, size) in r
           && r[|r| - 1] == Allocation(base, size, if hobs[k].rtype == SystemMemory then BootServicesCode
                                                   else ReservedMemory)
           && forall j :: 0 <= j < |hobs| && j != k ==> r[j] == hobs[j]
         else k == |hobs| && r == hobs
  {
    HolderIsFirst(hobs, base, size, 0);
    var k := Holder(hobs, base, size, 0);
    forall j | 0 <= j < |hobs| {
      HoldsIs(hobs[j], base, size);
    }
    hide Holder, Holds;
    if k < |hobs| {
      SplitOffIsolates(hobs, k, base, size);
    }
  }

  lemma {:induction false} SplitOffIsolates(hobs: seq<Hob>, k: nat, base: nat, size: nat)
    requires k < |hobs| && Holds(hobs[k], base, size)
    ensures var r := SplitOff(hobs, k, base, size);
      && |r| >= |hobs| && Piece(hobs[k], base, size) in r
      && forall j :: 0 <= j < |hobs| && j != k ==> r[j] == hobs[j]
  {
    var r := SplitOff(hobs, k, base, size);
    if |r| > |hobs| {
      assert r[|hobs|] == Piece(hobs[k], base, size);
    } else {
      assert r[k] == Piece(hobs[k], base, size);
    }
  }

  // ---------- boot allocations in carveouts ----------

  /** A reserved resource that holds a range, as IsRangeInReservedResource asks it. */
  predicate Reserves(h: Hob, base: nat, size: nat) {
    && h.Resource? && h.rtype == MemoryReserved && h.length != 0 && h.start + h.length <= MAX_UINT64
    && base >= h.start && base + size <= h.start + h.length
  }

  /** A range lies inside a single reserved resource. */
  ghost predicate InReserved(hobs: seq<Hob>, base: nat, size: nat) {
    size > 0 && base + size <= MAX_UINT64 && exists k :: 0 <= k < |hobs| && Reserves(hobs[k], base, size)
  }

  predicate IsBoot(m: MemoryType) {
    m == BootServicesCode || m == BootServicesData
  }

  /** What the pass makes of one HOB. */
  ghost function Marked(hobs: seq<Hob>, h: Hob): Hob {
    if h.Allocation? && IsBoot(h.mtype) && InReserved(hobs, h.base, h.size) then h.(mtype := ReservedMemory) else h
  }

  /** ReserveBootAllocationsInReservedResources. */
  ghost function MarkAll(hobs: seq<Hob>): (r: seq<Hob>)
    ensures |r| == |hobs|
  {
    seq(|hobs|, i requires 0 <= i < |hobs| => Marked(hobs, hobs[i]))
  }

  /** Two lists with the same resources at the same places reserve the same ranges. */
  lemma {:induction false} SameResources(hobs: seq<Hob>, hobs': seq<Hob>, base: nat, size: nat)
    requires |hobs| == |hobs'|
    requires forall i :: 0 <= i < |hobs| ==> (hobs[i].Resource? || hobs'[i].Resource? ==> hobs[i] == hobs'[i])
    ensures InReserved(hobs, base, size) <==> InReserved(hobs', base, size)
  {
    forall k | 0 <= k < |hobs|
      ensures Reserves(hobs[k], base, size) <==> Reserves(hobs'[k], base, size)
    {
    }
  }

  /** Exactly the boot allocations that lie inside a single reserved resource are turned, and into
      reserved memory; all else stays. */
  lemma {:induction false} MarkAllIs(hobs: seq<Hob>, i: nat)
    requires i < |hobs|
    ensures var h := hobs[i];
      MarkAll(hobs)[i] ==
        if && h.Allocation? && h.mtype in {BootServicesCode, BootServicesData} && 0 < h.size
           && h.base + h.size <= MAX_UINT64
           && exists j :: 0 <= j < |hobs| && hobs[j].Resource? && hobs[j].rtype == MemoryReserved &&
                          0 < hobs[j].length && hobs[j].start + hobs[j].length <= MAX_UINT64 &&
                          hobs[j].start <= h.base && h.base + h.size <= hobs[j].start + hobs[j].length
        then Allocation(h.base, h.size, ReservedMemory)
        else h
  {
    var h := hobs[i];
    if h.Allocation? {
      forall j | 0 <= j < |hobs| {
        ReservesIs(hobs[j], h.base, h.size);
      }
      hide Reserves;
      assert InReserved(hobs, h.base, h.size) ==> exists j :: 0 <= j < |hobs| && Reserves(hobs[j], h.base, h.size);
    }
  }

  lemma {:induction false} ReservesIs(h: Hob, base: nat, size: nat)
    ensures Reserves(h, base, size) <==>
      h.Resource? && h.rtype == MemoryReserved && 0 < h.length && h.start + h.length <= MAX_UINT64 &&
      h.start <= base && base + size <= h.start + h.length
  {
  }

  /** The pass changes no resource, so the map of addresses stays, and a second pass does nothing. */
  lemma {:induction false} MarkAllKeeps(hobs: seq<Hob>)
    ensures SameMap(hobs, MarkAll(hobs)) && MarkAll(MarkAll(hobs)) == MarkAll(hobs)
  {
    var r := MarkAll(hobs);
    forall a: nat, t: ResourceType, attributes: bv32
      ensures Cover(hobs, a, t, attributes) == Cover(r, a, t, attributes)
    {
      CoverSameResources(hobs, r, a, t, attributes);
    }
    forall i | 0 <= i < |hobs|
      ensures Marked(r, r[i]) == r[i]
    {
      if r[i].Allocation? {
        SameResources(hobs, r, r[i].base, r[i].size);
      }
    }
  }

  lemma {:induction false} CoverSameResources(hobs: seq<Hob>, hobs': seq<Hob>, a: nat, t: ResourceType,
                                              attributes: bv32)
    requires |hobs| == |hobs'|
    requires forall i :: 0 <= i < |hobs| ==> (hobs[i].Resource? || hobs'[i].Resource? ==> hobs[i] == hobs'[i])
    ensures Cover(hobs, a, t, attributes) == Cover(hobs', a, t, attributes)
    decreases |hobs|
  {
    if hobs != [] {
      CoverSameResources(hobs[..|hobs| - 1], hobs'[..|hobs| - 1], a, t, attributes);
    }
  }

  // ---------- the split and the carveouts ----------

  /** A range lies across one of the volume's ends. */
  predicate Straddles(b: nat, n: nat, base: nat, size: nat) {
    b < base < b + n || b < base + size < b + n
  }

  /** A range was reserved by a resource other than k, or by k and clear of the volume's ends. */
  ghost predicate StillReserved(hobs: seq<Hob>, k: nat, base: nat, size: nat, b: nat, n: nat) {
    n > 0 && b + n <= MAX_UINT64
    && exists j :: 0 <= j < |hobs| && Reserves(hobs[j], b, n) && (j != k || !Straddles(b, n, base, size))
  }

  lemma {:induction false} PiecesReserve(h: Hob, base: nat, size: nat, b: nat, n: nat)
    requires Holds(h, base, size) && h.start + h.length <= MAX_UINT64 && n > 0
    ensures Reserves(h, b, n) && !Straddles(b, n, base, size) <==>
      || Reserves(Piece(h, h.start, base - h.start), b, n) || Reserves(Piece(h, base, size), b, n)
      || Reserves(Piece(h, base + size, h.start + h.length - (base + size)), b, n)
  {
  }

  lemma {:induction false} ReservedSplit(hobs: seq<Hob>, k: nat, base: nat, size: nat, b: nat, n: nat)
    requires NoWrap(hobs) && k < |hobs| && Holds(hobs[k], base, size) && n > 0 && b + n <= MAX_UINT64
    ensures var r := SplitOff(hobs, k, base, size);
      InReserved(r, b, n) <==> StillReserved(hobs, k, base, size, b, n)
  {
    SplitOffIsolates(hobs, k, base, size);
    PiecesReserve(hobs[k], base, size, b, n);
    SplitPieces(hobs, k, base, size);
    hide Holds, Piece, Straddles, SplitOff;
    var r, h := SplitOff(hobs, k, base, size), hobs[k];
    NothingReserves(h, h.start, b, n);
    NothingReserves(h, base + size, b, n);
    hide Reserves;
    if InReserved(r, b, n) {
      var i :| 0 <= i < |r| && Reserves(r[i], b, n);
      if i < |hobs| && i != k {
        assert Reserves(hobs[i], b, n);
      } else {
        assert Reserves(hobs[k], b, n);
      }
    }
    if StillReserved(hobs, k, base, size, b, n) {
      var j :| 0 <= j < |hobs| && Reserves(hobs[j], b, n) && (j != k || !Straddles(b, n, base, size));
      if j != k {
        assert Reserves(r[j], b, n);
      } else {
        assert exists i :: 0 <= i < |r| && Reserves(r[i], b, n);
      }
    }
  }

  lemma {:induction false} NothingReserves(h: Hob, start: nat, b: nat, n: nat)
    requires h.Resource?
    ensures !Reserves(Piece(h, start, 0), b, n)
  {
  }

  /** What stands at k and past the old end: the pieces, but for those that are empty. */
  lemma {:induction false} SplitPieces(hobs: seq<Hob>, k: nat, base: nat, size: nat)
    requires k < |hobs| && Holds(hobs[k], base, size)
    ensures var r, h := SplitOff(hobs, k, base, size), hobs[k];
      var low, fv := Piece(h, h.start, base - h.start), Piece(h, base, size);
      var high := Piece(h, base + size, h.start + h.length - (base + size));
      && |r| >= |hobs| && fv in r && (low in r || base == h.start) && (high in r || base + size == h.start + h.length)
      && forall i :: 0 <= i < |r| && (i == k || i >= |hobs|) ==> r[i] == low || r[i] == fv || r[i] == high
  {
    SplitOffIsolates(hobs, k, base, size);
    var r, h := SplitOff(hobs, k, base, size), hobs[k];
    if |r| > |hobs| {
      assert r[k] == r[k] && r[|hobs|] == Piece(h, base, size);
    }
    if |r| > |hobs| + 1 {
      assert r[|hobs| + 1] == Piece(h, base + size, h.start + h.length - (base + size));
    }
  }

  /** After a volume has been registered, a range is found in a reserved resource exactly when it was
      before, and not only in the one that was split with the range across the split. */
  lemma {:induction false} RegisterReserves(hobs: seq<Hob>, base: nat, size: nat, b: nat, n: nat)
    requires NoWrap(hobs)
    ensures InReserved(Register(hobs, base, size), b, n)
      <==> StillReserved(hobs, Holder(hobs, base, size, 0), base, size, b, n)
  {
    hide SplitOff, Holder, Reserves, Straddles;
    var k := Holder(hobs, base, size, 0);
    if k < |hobs| && n > 0 && b + n <= MAX_UINT64 {
      ReservedSplit(hobs, k, base, size, b, n);
      AllocationReservesNothing(SplitOff(hobs, k, base, size), Allocation(base, size, FvMemoryType(hobs[k].rtype)), b,
                                n);
    }
  }

  lemma {:induction false} AllocationReservesNothing(hobs: seq<Hob>, h: Hob, b: nat, n: nat)
    requires h.Allocation?
    ensures InReserved(hobs + [h], b, n) <==> InReserved(hobs, b, n)
  {
    if InReserved(hobs, b, n) {
      var k :| 0 <= k < |hobs| && Reserves(hobs[k], b, n);
      assert Reserves((hobs + [h])[k], b, n);
    }
  }

  // ---------- the HOB list moves to a larger region ----------

  /** The system memory resource an address lies in, as FindMemoryHob asks it. */
  predicate IsMemoryAt(h: Hob, a: nat) {
    h.Resource? && h.rtype == SystemMemory && a >= h.start && a <= (h.start + h.length + MAX_UINT64) % (MAX_UINT64 + 1)
  }

  lemma {:induction false} MemoryAtIsFirst(hobs: seq<Hob>, a: nat, i: nat)
    requires i <= |hobs| && NoWrap(hobs)
    ensures var k := MemoryAt(hobs, a, i);
      && (forall j :: i <= j < k ==>
            !(hobs[j].Resource? && hobs[j].rtype == SystemMemory &&
              hobs[j].start <= a < hobs[j].start + hobs[j].length))
      && (k < |hobs| ==> hobs[k].Resource? && hobs[k].rtype == SystemMemory && hobs[k].start <= a &&
                         (hobs[k].start + hobs[k].length > 0 ==> a < hobs[k].start + hobs[k].length))
    decreases |hobs| - i
  {
    if i < |hobs| && !IsMemoryAt(hobs[i], a) {
      MemoryAtIsFirst(hobs, a, i + 1);
    }
  }

  function MemoryAt(hobs: seq<Hob>, a: nat, i: nat): (k: nat)
    requires i <= |hobs|
    ensures i <= k <= |hobs| && (k < |hobs| ==> IsMemoryAt(hobs[k], a))
    decreases |hobs| - i
  {
    if i == |hobs| || IsMemoryAt(hobs[i], a) then i else MemoryAt(hobs, a, i + 1)
  }

  function Tested(h: Hob): Hob
    requires h.Resource?
  {
    h.(attributes := h.attributes | EFI_RESOURCE_ATTRIBUTE_TESTED)
  }

  /** The resource of a region marked as tested, and split if only the first part of it is needed. */
  function MarkTested(hobs: seq<Hob>, k: nat, regionStart: nat, regionSize: nat, needed: nat): seq<Hob>
    requires k < |hobs| && hobs[k].Resource?
  {
    var h := hobs[k];
    if regionSize > needed then
      hobs[k := Tested(h.(length := needed))]
        + [Resource(SystemMemory, h.attributes, regionStart + needed, regionSize - needed)]
    else hobs[k := Tested(h)]
  }

  /** The tested attribute is set, and no other changes. */
  lemma {:induction false} TestedSets(h: Hob)
    requires h.Resource?
    ensures Tested(h) == h.(attributes := Tested(h).attributes) && Tested(h).attributes & 4 == 4
    ensures Tested(h).attributes & 0xFFFF_FFFB == h.attributes & 0xFFFF_FFFB
  {
  }

  /** The map of addresses is the same but for the tested attribute in one part of a resource. */
  ghost predicate TestedOnly(hobs: seq<Hob>, hobs': seq<Hob>, part: Hob)
    requires part.Resource?
  {
    forall a: nat, t: ResourceType, attributes: bv32 ::
      Cover(hobs', a, t, attributes) + One(part, a, t, attributes) ==
        Cover(hobs, a, t, attributes) + One(Tested(part), a, t, attributes)
  }

  /** What MarkTested adds to an address, and what it takes away. */
  lemma {:induction false} MarkTestedCovers(hobs: seq<Hob>, k: nat, regionStart: nat, regionSize: nat, needed: nat,
                                            a: nat, t: ResourceType, attributes: bv32)
    requires k < |hobs| && hobs[k].Resource? && hobs[k].rtype == SystemMemory && hobs[k].start == regionStart
    ensures var h := hobs[k];
      var r := MarkTested(hobs, k, regionStart, regionSize, needed);
      if regionSize > needed then
        Cover(r, a, t, attributes) + One(h, a, t, attributes) == Cover(hobs, a, t, attributes)
          + One(Tested(Piece(h, regionStart, needed)), a, t, attributes)
            + One(Piece(h, regionStart + needed, regionSize - needed), a, t, attributes)
      else
        Cover(r, a, t, attributes) + One(h, a, t, attributes) ==
          Cover(hobs, a, t, attributes) + One(Tested(h), a, t, attributes)
  {
    hide Cover, One, Tested;
    var h := hobs[k];
    if regionSize > needed {
      var first := Tested(h.(length := needed));
      assert h.(length := needed) == Piece(h, regionStart, needed);
      CoverUpdate(hobs, k, first, a, t, attributes);
      CoverAppend(hobs[k := first], Piece(h, regionStart + needed, regionSize - needed), a, t, attributes);
    } else {
      CoverUpdate(hobs, k, Tested(h), a, t, attributes);
    }
  }

  lemma {:induction false} OneTwo(h: Hob, needed: nat, a: nat, t: ResourceType, attributes: bv32)
    requires h.Resource? && needed <= h.length
    ensures One(h, a, t, attributes) ==
      One(Piece(h, h.start, needed), a, t, attributes)
        + One(Piece(h, h.start + needed, h.length - needed), a, t, attributes)
  {
  }

  lemma {:induction false} OneAt(h: Hob, start: nat, length: nat, a: nat)
    requires h.Resource?
    ensures One(Piece(h, start, length), a, h.rtype, h.attributes) == if start <= a < start + length then 1 else 0
  {
  }

  /** The part of a region's resource that is marked. */
  function TestedPart(h: Hob, regionSize: nat, needed: nat): (part: Hob)
    requires h.Resource?
    ensures part.Resource?
  {
    if regionSize > needed then Piece(h, h.start, needed) else h
  }

  /** Marking a region changes nothing but the tested attribute of its first part exactly when the
      region is not split, or its size is that of its resource. */
  lemma {:induction false} MarkTestedMarksOnly(hobs: seq<Hob>, k: nat, regionStart: nat, regionSize: nat, needed: nat)
    requires k < |hobs| && hobs[k].Resource? && hobs[k].rtype == SystemMemory && hobs[k].start == regionStart
    ensures TestedOnly(hobs, MarkTested(hobs, k, regionStart, regionSize, needed),
                       TestedPart(hobs[k], regionSize, needed))
      <==> regionSize <= needed || hobs[k].length == regionSize
  {
    hide Cover, One, MarkTested, Tested, Piece;
    var h, r := hobs[k], MarkTested(hobs, k, regionStart, regionSize, needed);
    if regionSize <= needed || h.length == regionSize {
      forall a: nat, t: ResourceType, attributes: bv32
        ensures Cover(r, a, t, attributes) + One(TestedPart(h, regionSize, needed), a, t, attributes)
          == Cover(hobs, a, t, attributes) + One(Tested(TestedPart(h, regionSize, needed)), a, t, attributes)
      {
        MarkTestedCovers(hobs, k, regionStart, regionSize, needed, a, t, attributes);
        if regionSize > needed {
          OneTwo(h, needed, a, t, attributes);
        }
      }
    } else {
      var a := if h.length < regionSize then regionStart + regionSize - 1 else regionStart + regionSize;
      MarkTestedCovers(hobs, k, regionStart, regionSize, needed, a, h.rtype, h.attributes);
      OneAt(h, regionStart, needed, a);
      OneAt(h, regionStart + needed, regionSize - needed, a);
      OneAt(h, regionStart, h.length, a);
      WholePiece(h);
    }
  }

  lemma {:induction false} WholePiece(h: Hob)
    requires h.Resource?
    ensures Piece(h, h.start, h.length) == h
  {
  }

  // ---------- the pre-PI code ----------

  function PageRound(n: nat): (r: nat)
    ensures r % PAGE_SIZE == 0 && n <= r < n + PAGE_SIZE
  {
    (n + PAGE_SIZE - 1) / PAGE_SIZE * PAGE_SIZE
  }

  /** The hand-off table of a HOB list. */
  datatype Handoff = Handoff(address: nat, endOfHobList: nat, freeBottom: nat, freeTop: nat, memoryBottom: nat,
                             memoryTop: nat)

  predicate HandoffOk(h: Handoff) {
    h.freeTop >= h.freeBottom > h.address && h.endOfHobList > h.address && h.memoryTop >= h.memoryBottom
  }

  /** The table after the list has moved to take a full region. */
  function Moved(h: Handoff, regionStart: nat, regionSize: nat): Handoff
    requires HandoffOk(h)
  {
    var top := regionStart + regionSize;
    Handoff(regionStart, regionStart + (h.endOfHobList - h.address), regionStart + (h.freeBottom - h.address), top,
            regionStart, top)
  }

  /** The list moves only to where there is more room: what is in use keeps its place in the list
      and still fits, and the room left is larger by what the region has more. */
  lemma {:induction false} MovedHasRoom(h: Handoff, regionStart: nat, regionSize: nat)
    requires HandoffOk(h)
    ensures var m := Moved(h, regionStart, regionSize);
      && m.address == m.memoryBottom == regionStart && m.freeTop == m.memoryTop == regionStart + regionSize
      && m.endOfHobList - m.address == h.endOfHobList - h.address
      && m.freeBottom - m.address == h.freeBottom - h.address
      && (m.freeTop - m.freeBottom > h.freeTop - h.freeBottom <==> regionSize > h.freeTop - h.address)
      && (regionSize > h.freeTop - h.address ==> HandoffOk(m))
  {
  }

  /** The bytes the HOB list is to have. */
  function Needed(expected: nat, bins: nat): nat {
    PageRound(expected + bins + MINIMUM_INITIAL_MEMORY_SIZE)
  }

  /** The region is looked up and split: a size is expected, and the list has less. */
  predicate Splits(t: Handoff, expected: nat, bins: nat)
    requires HandoffOk(t)
  {
    expected != 0 && t.memoryTop - t.memoryBottom < Needed(expected, bins)
  }

  /** A list that has moved to as much as is needed has what is needed: to migrate again does
      nothing. */
  lemma {:induction false} MovedSuffices(t: Handoff, regionStart: nat, expected: nat, bins: nat)
    requires HandoffOk(t) && Splits(t, expected, bins)
    ensures var m := Moved(t, regionStart, Needed(expected, bins));
      && m.memoryTop - m.memoryBottom >= expected + bins + 0x10000
      && (HandoffOk(m) ==> !Splits(m, expected, bins))
      && t.memoryTop - t.memoryBottom < Needed(expected, bins)
  {
  }

  /** There is a system memory resource that starts where the region does. */
  predicate HasRegion(hobs: seq<Hob>, regionStart: nat) {
    var k := MemoryAt(hobs, regionStart, 0);
    k < |hobs| && hobs[k].start == regionStart
  }

  class HobList {
    var hobs: seq<Hob>
    var table: Handoff

    method RegisterFirmwareVolume(base: nat, size: nat) returns (found: bool)
      requires NoWrap(hobs) && base + size <= MAX_UINT64
      modifies this`hobs
      ensures hobs == Register(old(hobs), base, size) && found == IsHeld(old(hobs), base, size)
    {
      var k := FindHolder(base, size);
      HolderIsFirst(hobs, base, size, 0);
      hide Holder, Holds, SplitOff;
      found := k < |hobs|;
      if found {
        var mtype := if hobs[k].rtype == MemoryReserved then ReservedMemory else BootServicesCode;
        SplitHob(k, base, size);
        hobs := hobs + [Allocation(base, size, mtype)];
      }
    }

    method FindHolder(base: nat, size: nat) returns (k: nat)
      ensures k == Holder(hobs, base, size, 0)
    {
      k := 0;
      var fvTop := base + size;
      while k < |hobs|
        invariant k <= |hobs| && Holder(hobs, base, size, 0) == Holder(hobs, base, size, k)
      {
        var h := hobs[k];
        if h.Resource? && (h.rtype == SystemMemory || h.rtype == MemoryReserved) && base >= h.start
          && fvTop <= h.start + h.length {
          return;
        }
        k := k + 1;
      }
    }

    method SplitHob(k: nat, base: nat, size: nat)
      requires k < |hobs| && Holds(hobs[k], base, size)
      modifies this`hobs
      ensures hobs == SplitOff(old(hobs), k, base, size)
    {
      var rtype, attributes, length := hobs[k].rtype, hobs[k].attributes, hobs[k].length;
      var top, fvTop := hobs[k].start + length, base + size;
      if base == hobs[k].start {
        if top != fvTop {
          BuildResourceDescriptorHob(rtype, attributes, base, size);
          hobs := hobs[k := hobs[k].(start := hobs[k].start + size, length := hobs[k].length - size)];
        }
      } else {
        BuildResourceDescriptorHob(rtype, attributes, base, size);
        hobs := hobs[k := hobs[k].(length := base - hobs[k].start)];
        if fvTop < hobs[k].start + length {
          BuildResourceDescriptorHob(rtype, attributes, fvTop, top - fvTop);
        }
      }
    }

    method BuildResourceDescriptorHob(rtype: ResourceType, attributes: bv32, start: nat, length: nat)
      modifies this`hobs
      ensures hobs == old(hobs) + [Resource(rtype, attributes, start, length)]
    {
      hobs := hobs + [Resource(rtype, attributes, start, length)];
    }

    method IsRangeInReservedResource(base: nat, length: nat) returns (found: bool)
      requires length <= MAX_UINT64
      ensures found <==> InReserved(hobs, base, length)
    {
      if length == 0 || base > MAX_UINT64 - length {
        return false;
      }
      var k := 0;
      while k < |hobs|
        invariant k <= |hobs| && forall j :: 0 <= j < k ==> !Reserves(hobs[j], base, length)
      {
        var h := hobs[k];
        if h.Resource? && !(h.rtype != MemoryReserved || h.length == 0 || h.start > MAX_UINT64 - h.length) {
          if base >= h.start && base + length <= h.start + h.length {
            return true;
          }
        }
        k := k + 1;
      }
      return false;
    }

    method ReserveBootAllocationsInReservedResources()
      requires forall i :: 0 <= i < |hobs| && hobs[i].Allocation? ==> hobs[i].size <= MAX_UINT64
      modifies this`hobs
      ensures hobs == MarkAll(old(hobs))
    {
      ghost var was := hobs;
      var k := 0;
      hide InReserved;
      while k < |hobs|
        invariant k <= |hobs| == |was|
        invariant forall i :: 0 <= i < |hobs| ==> hobs[i] == if i < k then Marked(was, was[i]) else was[i]
      {
        if hobs[k].Allocation? && (hobs[k].mtype == BootServicesCode || hobs[k].mtype == BootServicesData) {
          var reserved := IsRangeInReservedResource(hobs[k].base, hobs[k].size);
          SameResources(was, hobs, hobs[k].base, hobs[k].size);
          if reserved {
            hobs := hobs[k := hobs[k].(mtype := ReservedMemory)];
          }
        }
        k := k + 1;
      }
    }

    method FindMemoryHob(a: nat) returns (k: nat)
      ensures k == MemoryAt(hobs, a, 0)
    {
      k := 0;
      while k < |hobs|
        invariant k <= |hobs| && MemoryAt(hobs, a, 0) == MemoryAt(hobs, a, k)
      {
        if IsMemoryAt(hobs[k], a) {
          return;
        }
        k := k + 1;
      }
    }

    /** expected is the memory use expected of the pre-EFI phase, and bins the size of the memory
        bins. What the code asserts where it gets there is required. */
    method MigrateHobList(regionStart: nat, regionSize: nat, expected: nat, bins: nat)
      requires HandoffOk(table)
      requires Splits(table, expected, bins) ==> HasRegion(hobs, regionStart)
      modifies this
      ensures HandoffOk(table)
      ensures old(HandoffOk(table) && (Splits(table, expected, bins) ==> HasRegion(hobs, regionStart)))
      ensures var t := old(table);
        var size := if expected != 0 && regionSize > Needed(expected, bins) then Needed(expected, bins) else regionSize;
        var marked := if !Splits(t, expected, bins) then old(hobs)
          else MarkTested(old(hobs), MemoryAt(old(hobs), regionStart, 0), regionStart, regionSize,
                          Needed(expected, bins));
        if expected != 0 && !Splits(t, expected, bins) then hobs == old(hobs) && table == t
        else if size <= t.freeTop - t.address then hobs == marked && table == t
        else table == Moved(t, regionStart, size)
             && hobs == marked + [Allocation(t.memoryBottom, PageRound(t.endOfHobList - t.address), BootServicesData)]
    {
      hide PageRound, MemoryAt, MarkTested, Moved, HandoffOk;
      var needed, size := Needed(expected, bins), regionSize;
      if expected != 0 {
        if table.memoryTop - table.memoryBottom >= needed {
          return;
        }
        size := SplitRegion(regionStart, regionSize, needed);
      }
      MoveTo(regionStart, size);
    }

    /** Marks the region as tested, or the part of it that is needed. */
    method SplitRegion(regionStart: nat, regionSize: nat, needed: nat) returns (size: nat)
      requires HasRegion(hobs, regionStart)
      modifies this`hobs
      ensures hobs == MarkTested(old(hobs), MemoryAt(old(hobs), regionStart, 0), regionStart, regionSize, needed)
      ensures size == if regionSize > needed then needed else regionSize
    {
      size := regionSize;
      var k := FindMemoryHob(regionStart);
      hide MemoryAt;
      if size > needed {
        hobs := hobs[k := hobs[k].(length := needed)];
        BuildResourceDescriptorHob(SystemMemory, hobs[k].attributes, regionStart + needed, size - needed);
        size := needed;
      }
      hobs := hobs[k := hobs[k].(attributes := hobs[k].attributes | EFI_RESOURCE_ATTRIBUTE_TESTED)];
    }

    /** Moves the list, if the region is larger than what the list has, and guards what it had. */
    method MoveTo(regionStart: nat, size: nat)
      requires HandoffOk(table)
      modifies this
      ensures HandoffOk(table)
      ensures var t := old(table);
        if size <= t.freeTop - t.address then hobs == old(hobs) && table == t
        else table == Moved(t, regionStart, size)
             && hobs == old(hobs)
               + [Allocation(t.memoryBottom, PageRound(t.endOfHobList - t.address), BootServicesData)]
    {
      hide PageRound;
      if size <= table.freeTop - table.address {
        return;
      }
      var t := table;
      table := Handoff(regionStart, regionStart + (t.endOfHobList - t.address),
                       regionStart + (t.freeBottom - t.address), regionStart + size, regionStart, regionStart + size);
      hobs := hobs + [Allocation(t.memoryBottom, PageRound(t.endOfHobList - t.address), BootServicesData)];
    }
  }
}
