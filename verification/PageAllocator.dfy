/** The page allocator as the code keeps it: global lists, the temporary descriptor stack and
    its depth, all updated in place. Every method is proved against the functions of
    FreePages, MemoryMap and PageServices. */
module PageAllocator {
  import opened Machine
  import opened Wrappers
  import opened FreePages
  import opened MemoryMap
  import opened PageServices

  class Allocator {
    var mMmMemoryMap: seq<Node>
    var gMemoryMap: seq<Entry>
    var mMapDepth: nat
    /** For each slot of the descriptor stack, whether its descriptor is linked in the map. */
    var mMapStack: array<bool>
    var mFreeMapStack: nat
    /** The length of the list of free heap descriptors. */
    var mFreeMemoryMapEntryList: nat

    function Mem(): Mapped
      reads this
    {
      Mapped(gMemoryMap, mMapDepth, mFreeMemoryMapEntryList)
    }

    function Current(): State
      reads this
    {
      State(mMmMemoryMap, Mem())
    }

    ghost predicate Valid()
      reads this, mMapStack
    {
      && WellFormed(mMmMemoryMap) && SlotsOk(Mem())
      && mMapStack.Length == MAX_MAP_DEPTH && mMapDepth < MAX_MAP_DEPTH
      && forall k | 0 <= k < mMapDepth :: mMapStack[k] <==> OnStack(gMemoryMap, k)
    }

    constructor ()
      ensures Valid() && Current() == EMPTY.s && mFreeMapStack == 0
    {
      mMmMemoryMap, gMemoryMap, mMapDepth := [], [], 0;
      mMapStack := new bool[MAX_MAP_DEPTH];
      mFreeMapStack, mFreeMemoryMapEntryList := 0, 0;
    }

    // ---------- the memory map ----------

    /** Links a descriptor from the stack before index i; the requires is the code's ASSERT. */
    method InsertNewEntry(i: nat, start: nat, end: nat, typ: MemType)
      requires Valid() && i <= |gMemoryMap| && mMapDepth + 1 < MAX_MAP_DEPTH
      modifies this`gMemoryMap, this`mMapDepth, mMapStack
      ensures Valid() && Mem() == InsertNew(old(Mem()), i, start, end, typ)
    {
      var entry := Entry(start, end, typ, mMapDepth);
      mMapStack[mMapDepth] := true;
      mMapDepth := mMapDepth + 1;
      InsertNewSlots(old(Mem()), i, start, end, typ);
      InsertOnStack(gMemoryMap, i, entry);
      gMemoryMap := gMemoryMap[..i] + [entry] + gMemoryMap[i..];
    }

    /** Unlinks entry i; a heap descriptor goes back to the free list. */
    method RemoveOldEntry(i: nat)
      requires Valid() && i < |gMemoryMap|
      modifies this`gMemoryMap, this`mFreeMemoryMapEntryList, mMapStack
      ensures Valid() && gMemoryMap == old(gMemoryMap[..i] + gMemoryMap[i + 1..])
      ensures mFreeMemoryMapEntryList ==
        old(if gMemoryMap[i].slot == HEAP then mFreeMemoryMapEntryList + 1 else mFreeMemoryMapEntryList)
    {
      var entry := gMemoryMap[i];
      RemoveOnStack(Mem(), i);
      gMemoryMap := gMemoryMap[..i] + gMemoryMap[i + 1..];
      if entry.slot == HEAP {
        mFreeMemoryMapEntryList := mFreeMemoryMapEntryList + 1;
      } else {
        mMapStack[entry.slot] := false;
      }
    }

    /** Overwrites the bounds and type of entry i. */
    method SetEntry(i: nat, start: nat, end: nat, typ: MemType)
      requires Valid() && i < |gMemoryMap|
      modifies this`gMemoryMap
      ensures Valid() && gMemoryMap == old(gMemoryMap)[i := Entry(start, end, typ, old(gMemoryMap)[i].slot)]
    {
      var entry := Entry(start, end, typ, gMemoryMap[i].slot);
      SetEntrySlots(Mem(), i, entry);
      SetOnStack(gMemoryMap, i, entry);
      gMemoryMap := gMemoryMap[i := entry];
    }

    /** Entry i takes over what follows it when the two are mergeable. */
    method AbsorbNext(i: int)
      requires Valid()
      modifies this`gMemoryMap, this`mFreeMemoryMapEntryList, mMapStack
      ensures Valid() && Mem() == Absorb(old(Mem()), i)
    {
      if 0 <= i < |gMemoryMap| - 1 {
        var entry, next := gMemoryMap[i], gMemoryMap[i + 1];
        if entry.typ == next.typ && entry.end + 1 == next.start {
          SetEntry(i, entry.start, next.end, entry.typ);
          RemoveOldEntry(i + 1);
          assert gMemoryMap == old(gMemoryMap)[..i] + [entry.(end := next.end)] + old(gMemoryMap)[i + 2..];
        }
      }
    }

    method ConvertMmMemoryMapEntry(typ: MemType, lo: nat, hi: nat)
      requires Valid() && mMapDepth + 2 < MAX_MAP_DEPTH
      modifies this`gMemoryMap, this`mMapDepth, this`mFreeMemoryMapEntryList, mMapStack
      ensures Valid() && Mem() == Convert(old(Mem()), typ, lo, hi)
    {
      hide WellFormed, SlotsOk, Absorb, Split, InsertNew, OnStack;
      var i := 0;
      while i < |gMemoryMap|
        invariant i <= |gMemoryMap| && Mem() == old(Mem()) && Valid()
        invariant FirstHit(gMemoryMap, lo, hi, 0) == FirstHit(gMemoryMap, lo, hi, i)
      {
        var entry := gMemoryMap[i];
        if entry.start > hi {
          if entry.start == hi + 1 && entry.typ == typ {
            SetEntry(i, lo, entry.end, typ);
            return;
          }
          InsertNewEntry(i, lo, hi, typ);
          return;
        }
        if entry.start <= lo && entry.end >= hi {
          if entry.typ != typ {
            SplitEntry(i, lo, hi, typ);
            var j: int := if entry.start < lo then i + 1 else i;
            AbsorbNext(j);
            AbsorbNext(j - 1);
          }
          return;
        }
        i := i + 1;
      }
      if 0 < |gMemoryMap| {
        var last := gMemoryMap[|gMemoryMap| - 1];
        if last.end + 1 == lo && last.typ == typ {
          SetEntry(|gMemoryMap| - 1, last.start, hi, typ);
          return;
        }
      }
      InsertNewEntry(|gMemoryMap|, lo, hi, typ);
    }

    method SplitEntry(i: nat, lo: nat, hi: nat, typ: MemType)
      requires Valid() && i < |gMemoryMap| && gMemoryMap[i].Contains(lo, hi) && mMapDepth + 2 < MAX_MAP_DEPTH
      modifies this`gMemoryMap, this`mMapDepth, mMapStack
      ensures Valid() && Mem() == Split(old(Mem()), i, lo, hi, typ)
    {
      hide WellFormed, SlotsOk, OnStack, Split;
      var entry := gMemoryMap[i];
      var j := i;
      if entry.start < lo {
        InsertNewEntry(i, entry.start, lo - 1, entry.typ);
        j := i + 1;
      }
      if entry.end > hi {
        InsertNewEntry(j + 1, hi + 1, entry.end, entry.typ);
      }
      SetEntry(j, lo, hi, typ);
      SplitInSteps(old(Mem()), i, lo, hi, typ);
    }

    // ---------- taking pages ----------

    /** Takes n pages from node i, the highest that end at or below max. */
    method InternalAllocPagesOnOneNode(i: nat, n: nat, max: nat) returns (page: nat)
      requires WellFormed(mMmMemoryMap) && i < |mMmMemoryMap| && 0 < n && max < WORD && Fits(mMmMemoryMap[i], n, max)
      modifies this`mMmMemoryMap
      ensures (mMmMemoryMap, page) == AllocOnOneNode(old(mMmMemoryMap), i, n, max)
      ensures WellFormed(mMmMemoryMap)
    {
      var node := mMmMemoryMap[i];
      hide *;
      AllocOnOneNodeIs(mMmMemoryMap, i, n, max);
      var top := TopPages(node, max);
      var bottom := top - n;
      RemainsIs(node, top, n, mMmMemoryMap[i + 1..]);
      var rest := mMmMemoryMap[i + 1..];
      if top < node.pages {
        rest := [Node(node.first + top, node.pages - top)] + rest;
      }
      if bottom > 0 {
        rest := [Node(node.first, bottom)] + rest;
      }
      mMmMemoryMap := mMmMemoryMap[..i] + rest;
      page := node.first + bottom;
    }

    method InternalAllocMaxAddress(n: nat, max: nat) returns (page: Option<nat>)
      requires WellFormed(mMmMemoryMap) && 0 < n && max < WORD
      modifies this`mMmMemoryMap
      ensures match AllocMax(old(mMmMemoryMap), n, max)
        case None => page == None && mMmMemoryMap == old(mMmMemoryMap)
        case Some((l, b)) => page == Some(b) && mMmMemoryMap == l
      ensures WellFormed(mMmMemoryMap)
    {
      hide WellFormed, AllocOnOneNode;
      var i := |mMmMemoryMap|;
      while 0 < i
        invariant 0 <= i <= |mMmMemoryMap| && mMmMemoryMap == old(mMmMemoryMap)
        invariant forall j | i <= j < |mMmMemoryMap| :: !Fits(mMmMemoryMap[j], n, max)
      {
        i := i - 1;
        var node := mMmMemoryMap[i];
        if node.pages >= n && node.Address() + n * PAGE_SIZE - 1 <= max {
          var p := InternalAllocPagesOnOneNode(i, n, max);
          return Some(p);
        }
      }
      return None;
    }

    /** Takes the n pages at address a when they are all free. */
    method InternalAllocAddress(n: nat, a: nat) returns (page: Option<nat>)
      requires WellFormed(mMmMemoryMap) && RequestOk(AtAddress, n, a)
      modifies this`mMmMemoryMap
      ensures match TakePages(old(mMmMemoryMap), AtAddress, n, a)
        case None => page == None && mMmMemoryMap == old(mMmMemoryMap)
        case Some((l, b)) => page == Some(b) && mMmMemoryMap == l
      ensures WellFormed(mMmMemoryMap)
    {
      hide WellFormed, AllocOnOneNode;
      if a % PAGE_SIZE != 0 {
        return None;
      }
      var p := a / PAGE_SIZE;
      var i := |mMmMemoryMap|;
      while 0 < i
        invariant 0 <= i <= |mMmMemoryMap| && mMmMemoryMap == old(mMmMemoryMap)
        invariant forall j | i <= j < |mMmMemoryMap| :: p < mMmMemoryMap[j].first
      {
        i := i - 1;
        var node := mMmMemoryMap[i];
        if node.first <= p {
          if node.End() < p + n {
            return None;
          }
          var b := InternalAllocPagesOnOneNode(i, n, (p + n) * PAGE_SIZE);
          return Some(b);
        }
      }
      return None;
    }

    // ---------- giving pages back ----------

    /** Joins node i with the next one when they touch; gives the index of the node to go on with. */
    method InternalMergeNodes(i: nat) returns (j: nat)
      requires i + 1 < |mMmMemoryMap|
      modifies this`mMmMemoryMap
      ensures mMmMemoryMap == MergeAt(old(mMmMemoryMap), i)
      ensures j == if |mMmMemoryMap| < old(|mMmMemoryMap|) then i else i + 1
    {
      var first, next := mMmMemoryMap[i], mMmMemoryMap[i + 1];
      j := i + 1;
      if next.first - first.first == first.pages {
        mMmMemoryMap := mMmMemoryMap[..i] + [Node(first.first, first.pages + next.pages)] + mMmMemoryMap[i + 2..];
        j := i;
      }
    }

    /** Puts the n pages from page p on into the free list. */
    method ReturnPages(p: nat, n: nat) returns (ok: bool)
      requires WellFormed(mMmMemoryMap) && NodeOk(Node(p, n))
      modifies this`mMmMemoryMap
      ensures match FreeRange(old(mMmMemoryMap), p, n)
        case None => !ok && mMmMemoryMap == old(mMmMemoryMap)
        case Some(l) => ok && mMmMemoryMap == l
      ensures WellFormed(mMmMemoryMap)
    {
      hide WellFormed, MergeAt;
      var k := 0;
      while k < |mMmMemoryMap| && mMmMemoryMap[k].first <= p
        invariant k <= |mMmMemoryMap| && mMmMemoryMap == old(mMmMemoryMap)
        invariant forall j | 0 <= j < k :: mMmMemoryMap[j].first <= p
      {
        k := k + 1;
      }
      if k < |mMmMemoryMap| && p + n > mMmMemoryMap[k].first {
        return false;
      }
      if k > 0 && mMmMemoryMap[k - 1].End() > p {
        return false;
      }
      assert FreeRange(mMmMemoryMap, p, n).Some?;
      FreeRangeIsExact(mMmMemoryMap, p, n);
      var last := k == |mMmMemoryMap|;
      mMmMemoryMap := mMmMemoryMap[..k] + [Node(p, n)] + mMmMemoryMap[k..];
      var j := k;
      if k > 0 {
        j := InternalMergeNodes(k - 1);
      }
      if !last {
        MergeAtLength(old(mMmMemoryMap)[..k] + [Node(p, n)] + old(mMmMemoryMap)[k..], k);
        var _ := InternalMergeNodes(j);
      }
      return true;
    }

    // ---------- the services ----------

    /** Takes a free heap descriptor, refuelling the list when it is empty; false when that
        fails, where the code asserts. */
    method AllocateMemoryMapEntry() returns (ok: bool, ghost refuel: Option<nat>)
      requires Valid() && (mFreeMemoryMapEntryList == 0 ==> mMapDepth <= 2)
      modifies this`mMmMemoryMap, this`gMemoryMap, this`mMapDepth, this`mFreeMemoryMapEntryList, mMapStack
      ensures old(mFreeMemoryMapEntryList) == 0 ==> (ok <==> Refuel(old(Current())).Some?)
      ensures old(mFreeMemoryMapEntryList) == 0 && ok ==>
        var (r, b) := Refuel(old(Current())).value;
        Valid() && refuel == Some(b) && Current() == r.(mem := r.mem.(spare := r.mem.spare - 1))
      ensures old(mFreeMemoryMapEntryList) != 0 ==>
        ok && Valid() && refuel == None
          && Current() == old(Current()).(mem := old(Mem()).(spare := old(mFreeMemoryMapEntryList) - 1))
    {
      hide WellFormed, OnStack, AllocRaw;
      refuel := None;
      if mFreeMemoryMapEntryList == 0 {
        var status, b := TakeAndType(AnyPages, RuntimeData, REFUEL_PAGES, 0);
        if status != Success {
          return false, None;
        }
        refuel := Some(b);
        mFreeMemoryMapEntryList := mFreeMemoryMapEntryList + REFUEL_ENTRIES;
      }
      mFreeMemoryMapEntryList := mFreeMemoryMapEntryList - 1;
      ok := true;
    }

    /** The part of an allocation before the descriptor stack is emptied. */
    method TakeAndType(kind: AllocateType, typ: MemType, n: nat, request: nat) returns (status: Status, page: nat)
      requires Valid() && RequestOk(kind, n, request) && mMapDepth <= 3
      modifies this`mMmMemoryMap, this`gMemoryMap, this`mMapDepth, this`mFreeMemoryMapEntryList, mMapStack
      ensures Valid()
      ensures status == Success ==> kind != OtherType
      ensures match AllocRaw(old(Current()), kind, typ, n, request)
        case None => status ==
          (if kind == AtAddress then NotFound else if kind == OtherType then InvalidParameter else OutOfResources)
          && Current() == old(Current())
        case Some((r, b)) => status == Success && page == b && Current() == r
    {
      hide WellFormed, SlotsOk, OnStack, AllocMax, Convert;
      var b: Option<nat> := None;
      page := 0;
      if kind == OtherType {
        return InvalidParameter, 0;
      } else if kind == AtAddress {
        b := InternalAllocAddress(n, request);
        if b == None {
          return NotFound, 0;
        }
      } else {
        b := InternalAllocMaxAddress(n, if kind == AnyPages then WORD - 1 else request);
        if b == None {
          return OutOfResources, 0;
        }
      }
      page := b.value;
      ConvertMmMemoryMapEntry(typ, page, page + n - 1);
      status := Success;
    }

    /** Moves every descriptor from the stack to the heap. The stack stays below its limit and
        the loop ends with it empty; ok is false when a refuel failed. */
    method CoreFreeMemoryMapStack() returns (ok: bool, ghost refuels: seq<nat>)
      requires Valid() && Drains(Mem()) && mFreeMapStack == 0
      modifies this, mMapStack
      ensures mMapStack == old(mMapStack)
      ensures ok <==> FreeStack(old(Current())).Some?
      ensures ok ==> Valid() && mFreeMapStack == 0 && FreeStack(old(Current())).value == Freed(Current(), refuels)
    {
      hide WellFormed, SlotsOk, OnStack, FreeStack;
      mFreeMapStack := mFreeMapStack + 1;
      refuels := [];
      AfterNone(FreeStack(Current()));
      while mMapDepth != 0
        invariant Valid() && mMapStack == old(mMapStack) && Drains(Mem()) && mFreeMapStack == 1
        invariant FreeStack(old(Current())) == AfterRefuels(refuels, FreeStack(Current()))
        decreases Rounds(mMapDepth, mFreeMemoryMapEntryList)
      {
        ghost var more;
        ok, more := FreeTop();
        if !ok {
          return;
        }
        AfterBoth(refuels, more, FreeStack(Current()));
        refuels := refuels + more;
      }
      mFreeMapStack := mFreeMapStack - 1;
      ok := true;
      FreeStackEmpty(Current());
      assert refuels + [] == refuels;
    }

    /** One round: a heap descriptor, if need be after a refuel, takes the place of the top one. */
    method FreeTop() returns (got: bool, ghost refuels: seq<nat>)
      requires Valid() && Drains(Mem()) && mFreeMapStack == 1 && mMapDepth > 0
      modifies this, mMapStack
      ensures mMapStack == old(mMapStack)
      ensures !got ==> FreeStack(old(Current())).None?
      ensures got ==>
        && Valid() && Drains(Mem()) && mFreeMapStack == 1
        && FreeStack(old(Current())) == AfterRefuels(refuels, FreeStack(Current()))
        && Rounds(mMapDepth, mFreeMemoryMapEntryList) < old(Rounds(mMapDepth, mFreeMemoryMapEntryList))
    {
      hide *;
      Parts();
      ghost var before := Current();
      FreeStackRound(before);
      RoundMeans(before, before);
      if before.mem.spare == 0 && Refuel(before).Some? {
        RoundMeans(before, Refuel(before).value.0);
      }
      ghost var refuel;
      got, refuel := AllocateMemoryMapEntry();
      refuels := [];
      if !got {
        return;
      }
      Parts();
      ghost var full := if refuel == None then before else Refuel(before).value.0;
      refuels := if refuel == None then [] else [refuel.value];
      PopSlot(full.mem);
      Parts();
      AfterNone(FreeStack(Current()));
    }

    lemma {:induction false} Parts()
      ensures Mem() == Mapped(gMemoryMap, mMapDepth, mFreeMemoryMapEntryList) && Current() == State(mMmMemoryMap, Mem())
      ensures Valid() ==> WellFormed(mMmMemoryMap)
    {
      hide WellFormed, SlotsOk, OnStack;
    }

    /** Drops the top slot; its descriptor is copied to the heap if it is still linked. The
        heap descriptor was taken off the free list before, so the list was one longer. */
    method PopSlot(ghost full: Mapped)
      requires Valid() && 0 < mMapDepth && 0 < full.spare && Mem() == full.(spare := full.spare - 1)
      modifies this`gMemoryMap, this`mMapDepth, mMapStack
      ensures Valid() && Mem() == Unstack(full)
    {
      hide WellFormed, SlotsOk, OnStack;
      var k := mMapDepth - 1;
      SlotsIgnoreSpare(Mem(), full.spare);
      UnstackSlots(full);
      SlotIndexOnStack(gMemoryMap, k);
      if mMapStack[k] {
        var i := 0;
        while i < |gMemoryMap| && gMemoryMap[i].slot != k
          invariant 0 <= i <= |gMemoryMap|
          invariant forall j | 0 <= j < i :: gMemoryMap[j].slot != k
        {
          i := i + 1;
        }
        HomeOnStack(gMemoryMap, i);
        gMemoryMap := gMemoryMap[i := gMemoryMap[i].(slot := HEAP)];
        mMapStack[k] := false;
      }
      mMapDepth := k;
    }

    /** The allocation service; halted means that a refuel failed and the code asserts.
        TakeAndType alone is what the code does when the caller empties the stack itself. */
    method MmInternalAllocatePages(kind: AllocateType, typ: MemType, n: nat, request: nat)
      returns (status: Status, page: nat, halted: bool, ghost refuels: seq<nat>)
      requires Valid() && RequestOk(kind, n, request) && mMapDepth == 0 && mFreeMapStack == 0
      modifies this, mMapStack
      ensures mMapStack == old(mMapStack)
      ensures halted <==> AllocatePages(old(Current()), kind, typ, n, request) == None
      ensures !halted ==>
        Valid() && mFreeMapStack == 0
          && AllocatePages(old(Current()), kind, typ, n, request) == Some((status, page, Freed(Current(), refuels)))
    {
      hide WellFormed, SlotsOk, OnStack, AllocRaw, FreeStack;
      if typ != RuntimeCode && typ != RuntimeData {
        return InvalidParameter, 0, false, [];
      }
      if n > WORD_PAGES {
        return OutOfResources, 0, false, [];
      }
      ghost var before := Current();
      status, page := TakeAndType(kind, typ, n, request);
      if status != Success {
        return status, 0, false, [];
      }
      AllocRawDrains(before, kind, typ, n, request);
      var ok;
      ok, refuels := CoreFreeMemoryMapStack();
      halted := !ok;
    }

    /** The free service. */
    method MmInternalFreePagesEx(a: nat, n: nat, addRegion: bool)
      returns (status: Status, halted: bool, ghost refuels: seq<nat>)
      requires Valid() && NodeOk(Node(a / PAGE_SIZE, n)) && mMapDepth == 0 && mFreeMapStack == 0
      modifies this, mMapStack
      ensures mMapStack == old(mMapStack)
      ensures addRegion ==> !halted && Valid() && mFreeMapStack == 0 && (a % PAGE_SIZE == 0 ==>
        FreeRaw(old(Current()), a / PAGE_SIZE, n) == (status, Current()))
      ensures !addRegion ==> (halted <==> ReleaseAddress(old(Current()), a, n) == None)
      ensures !addRegion && !halted ==>
        Valid() && mFreeMapStack == 0
          && ReleaseAddress(old(Current()), a, n) == Some((status, Freed(Current(), refuels)))
    {
      hide WellFormed, SlotsOk, OnStack, FreeRange, Convert, FreeStack;
      halted, refuels := false, [];
      if a % PAGE_SIZE != 0 {
        return InvalidParameter, false, [];
      }
      var p := a / PAGE_SIZE;
      FreeRawDrains(Current(), p, n);
      var accepted := ReturnPages(p, n);
      if !accepted {
        return InvalidParameter, false, [];
      }
      ConvertMmMemoryMapEntry(Conventional, p, p + n - 1);
      status := Success;
      if !addRegion {
        var ok;
        ok, refuels := CoreFreeMemoryMapStack();
        halted := !ok;
      }
    }

    /** Adds the whole pages of a region; inUse stands for the allocated, needs-testing and
        needs-ECC attribute bits. */
    method MmAddMemoryRegion(base: nat, length: nat, inUse: bool) returns (halted: bool, ghost refuels: seq<nat>)
      requires Valid() && mMapDepth == 0 && mFreeMapStack == 0
      requires 0 < RegionPages(base, length) && NodeOk(Node(RegionFirst(base), RegionPages(base, length)))
      modifies this, mMapStack
      ensures mMapStack == old(mMapStack)
      ensures var r := AddPagesAt(old(Current()), RegionFirst(base), RegionPages(base, length), inUse);
        && (halted <==> r == None)
        && (!halted ==> Valid() && mFreeMapStack == 0 && r == Some(Freed(Current(), refuels)))
    {
      hide WellFormed, SlotsOk, OnStack, FreeRaw, Convert, FreeStack, RegionPages, RegionFirst;
      var p, n := RegionFirst(base), RegionPages(base, length);
      if inUse {
        ConvertDepth(Mem(), RuntimeData, p, p + n - 1);
        ConvertMmMemoryMapEntry(RuntimeData, p, p + n - 1);
      } else {
        FreeRawDrains(Current(), p, n);
        var status, h, rs := MmInternalFreePagesEx(p * PAGE_SIZE, n, true);
      }
      var ok;
      ok, refuels := CoreFreeMemoryMapStack();
      halted := !ok;
    }
  }

  /** What emptying the stack gives when refuels came before. */
  ghost function AfterRefuels(refuels: seq<nat>, f: Option<Freed>): Option<Freed> {
    if f.None? then None else Some(Freed(f.value.s, refuels + f.value.refuels))
  }

  lemma {:induction false} AfterNone(f: Option<Freed>)
    ensures AfterRefuels([], f) == f
  {
    if f.Some? {
      assert [] + f.value.refuels == f.value.refuels;
    }
  }

  lemma {:induction false} AfterBoth(a: seq<nat>, b: seq<nat>, f: Option<Freed>)
    ensures AfterRefuels(a, AfterRefuels(b, f)) == AfterRefuels(a + b, f)
  {
    if f.Some? {
      assert a + (b + f.value.refuels) == a + b + f.value.refuels;
    }
  }

  /** How many rounds emptying the stack can take yet. */
  function Rounds(depth: nat, spare: nat): nat {
    if depth <= spare then depth else depth + 3
  }

  lemma {:induction false} FreeStackEmpty(s: State)
    requires WellFormed(s.free) && Drains(s.mem)
    ensures s.mem.depth == 0 ==> FreeStack(s) == Some(Freed(s, []))
  {
    hide WellFormed, Refuel, Unstack;
  }

  /** One round of the loop that empties the stack. */
  lemma {:induction false} FreeStackRound(s: State)
    requires WellFormed(s.free) && Drains(s.mem) && s.mem.depth > 0
    ensures s.mem.spare == 0 ==> s.mem.depth <= 2
    ensures s.mem.spare == 0 && Refuel(s).None? ==> FreeStack(s).None?
    ensures s.mem.spare == 0 && Refuel(s).Some? ==>
      var (r, b) := Refuel(s).value;
      && RoundEnds(s, r)
      && FreeStack(s) == AfterRefuels([b], FreeStack(State(r.free, Unstack(r.mem))))
    ensures s.mem.spare > 0 ==> RoundEnds(s, s) && FreeStack(s) == FreeStack(State(s.free, Unstack(s.mem)))
  {
    if s.mem.spare == 0 && Refuel(s).Some? {
      RefuelDrains(s);
      UnstackCounts(Refuel(s).value.0.mem);
    } else if s.mem.spare > 0 {
      UnstackCounts(s.mem);
    }
    hide WellFormed, Refuel, Unstack;
  }

  /** From s, with the descriptors of r, the round can be made, and leaves fewer to be made. */
  ghost predicate RoundEnds(s: State, r: State) {
    && 0 < r.mem.depth && 0 < r.mem.spare && WellFormed(r.free) && Drains(Unstack(r.mem))
    && Rounds(Unstack(r.mem).depth, Unstack(r.mem).spare) < Rounds(s.mem.depth, s.mem.spare)
  }

  lemma {:induction false} RoundMeans(s: State, r: State)
    ensures RoundEnds(s, r) ==>
      && 0 < r.mem.depth && 0 < r.mem.spare && WellFormed(r.free) && Drains(Unstack(r.mem))
      && Rounds(Unstack(r.mem).depth, Unstack(r.mem).spare) < Rounds(s.mem.depth, s.mem.spare)
  {
    hide WellFormed, Drains, Unstack, Rounds;
  }

  lemma {:induction false} AllocOnOneNodeIs(l: seq<Node>, i: nat, n: nat, max: nat)
    requires WellFormed(l) && i < |l| && 0 < n && max < WORD && Fits(l[i], n, max)
    ensures NodeOk(l[i]) && n <= TopPages(l[i], max) <= l[i].pages
    ensures WellFormed(AllocOnOneNode(l, i, n, max).0)
    ensures AllocOnOneNode(l, i, n, max) ==
      (l[..i] + (Remains(l[i], TopPages(l[i], max), n) + l[i + 1..]), l[i].first + (TopPages(l[i], max) - n))
  {
    NodeIsOk(l, i);
    FitsTop(l[i], n, max);
    AllocOnOneNodeIsExact(l, i, n, max);
    hide TopPages, Remains, WellFormed;
    Regroup(l[..i], Remains(l[i], TopPages(l[i], max), n), l[i + 1..]);
  }

  lemma {:induction false} Regroup(a: seq<Node>, b: seq<Node>, c: seq<Node>)
    ensures a + b + c == a + (b + c)
  {
  }

  lemma {:induction false} RemainsIs(x: Node, top: nat, n: nat, rest: seq<Node>)
    requires n <= top <= x.pages
    ensures var r := if top < x.pages then [Node(x.first + top, x.pages - top)] + rest else rest;
      Remains(x, top, n) + rest == if top - n > 0 then [Node(x.first, top - n)] + r else r
  {
  }

  /** Splitting is pushing the two outer pieces and then narrowing the entry itself. */
  lemma {:induction false} SplitInSteps(s: Mapped, i: nat, lo: nat, hi: nat, typ: MemType)
    requires i < |s.m| && s.m[i].Contains(lo, hi)
    ensures var x := s.m[i];
      var s1 := if x.start < lo then InsertNew(s, i, x.start, lo - 1, x.typ) else s;
      var j := SplitIndex(s, i, lo);
      var s2 := if hi < x.end then InsertNew(s1, j + 1, hi + 1, x.end, x.typ) else s1;
      s2.(m := s2.m[j := Entry(lo, hi, typ, x.slot)]) == Split(s, i, lo, hi, typ)
  {
    var x := s.m[i];
    var pre, post := s.m[..i], s.m[i + 1..];
    var left, right := LeftPiece(s, i, lo), RightPiece(s, i, lo, hi);
    var s1 := if x.start < lo then InsertNew(s, i, x.start, lo - 1, x.typ) else s;
    var j := SplitIndex(s, i, lo);
    PushLeft(s.m, i, left);
    assert s1.m == (pre + left) + [x] + post && j == |pre + left|;
    var s2 := if hi < x.end then InsertNew(s1, j + 1, hi + 1, x.end, x.typ) else s1;
    PushRight(pre + left, x, post, right);
    assert s2.m == (pre + left) + [x] + (right + post);
    Narrow(pre, left, x, right, post, Entry(lo, hi, typ, x.slot));
  }

  lemma {:induction false} PushLeft(m: seq<Entry>, i: nat, left: seq<Entry>)
    requires i < |m|
    ensures m[..i] + left + m[i..] == (m[..i] + left) + [m[i]] + m[i + 1..]
    ensures m == (m[..i] + []) + [m[i]] + m[i + 1..]
  {
  }

  lemma {:induction false} PushRight(a: seq<Entry>, x: Entry, b: seq<Entry>, right: seq<Entry>)
    ensures var m := a + [x] + b; m[..|a| + 1] + right + m[|a| + 1..] == a + [x] + (right + b)
    ensures a + [x] + b == a + [x] + ([] + b)
  {
    var m := a + [x] + b;
    assert m[..|a| + 1] == a + [x] && m[|a| + 1..] == b;
  }

  lemma {:induction false} Narrow(pre: seq<Entry>, left: seq<Entry>, x: Entry, right: seq<Entry>, post: seq<Entry>,
                                  y: Entry)
    ensures ((pre + left) + [x] + (right + post))[|pre + left| := y] == pre + (left + [y] + right) + post
  {
  }

  // ---------- which stack slots are linked ----------

  ghost predicate OnStack(m: seq<Entry>, k: int) {
    exists i | 0 <= i < |m| :: m[i].slot == k
  }

  lemma {:induction false} InsertOnStack(m: seq<Entry>, i: nat, x: Entry)
    requires i <= |m|
    ensures forall k :: OnStack(m[..i] + [x] + m[i..], k) <==> k == x.slot || OnStack(m, k)
  {
    var r := m[..i] + [x] + m[i..];
    forall k ensures OnStack(r, k) <==> k == x.slot || OnStack(m, k) {
      assert r[i].slot == x.slot;
      if OnStack(m, k) {
        var j :| 0 <= j < |m| && m[j].slot == k;
        assert r[if j < i then j else j + 1].slot == k;
      }
    }
  }

  lemma {:induction false} RemoveOnStack(s: Mapped, i: nat)
    requires SlotsOk(s) && i < |s.m|
    ensures SlotsOk(s.(m := s.m[..i] + s.m[i + 1..]))
    ensures forall k | k != HEAP :: OnStack(s.m[..i] + s.m[i + 1..], k) <==> k != s.m[i].slot && OnStack(s.m, k)
  {
    var r := s.m[..i] + s.m[i + 1..];
    forall k | k != HEAP ensures OnStack(r, k) <==> k != s.m[i].slot && OnStack(s.m, k) {
      if OnStack(s.m, k) && k != s.m[i].slot {
        var j :| 0 <= j < |s.m| && s.m[j].slot == k;
        assert r[if j < i then j else j - 1].slot == k;
      }
    }
  }

  lemma {:induction false} SetOnStack(m: seq<Entry>, i: nat, x: Entry)
    requires i < |m| && x.slot == m[i].slot
    ensures forall k :: OnStack(m[i := x], k) <==> OnStack(m, k)
  {
    forall k ensures OnStack(m[i := x], k) <==> OnStack(m, k) {
      if OnStack(m, k) {
        var j :| 0 <= j < |m| && m[j].slot == k;
        assert m[i := x][j].slot == k;
      }
    }
  }

  /** Moving entry i to the heap frees its slot and no other. */
  lemma {:induction false} HomeOnStack(m: seq<Entry>, i: nat)
    requires i < |m|
    ensures forall k | 0 <= k && k != m[i].slot :: OnStack(m[i := m[i].(slot := HEAP)], k) <==> OnStack(m, k)
  {
    var r := m[i := m[i].(slot := HEAP)];
    forall k | 0 <= k && k != m[i].slot ensures OnStack(r, k) <==> OnStack(m, k) {
      if OnStack(m, k) {
        var j :| 0 <= j < |m| && m[j].slot == k;
        assert r[j].slot == k;
      }
    }
  }

  lemma {:induction false} NodeIsOk(l: seq<Node>, i: nat)
    requires WellFormed(l) && i < |l|
    ensures NodeOk(l[i])
  {
  }

  lemma {:induction false} MergeAtLength(l: seq<Node>, k: nat)
    requires k < |l|
    ensures 0 < k ==> |l| - 1 <= |MergeAt(l, k - 1)| <= |l|
  {
  }

  lemma {:induction false} SlotsIgnoreSpare(s: Mapped, spare: nat)
    requires SlotsOk(s)
    ensures SlotsOk(s.(spare := spare))
  {
  }

  lemma {:induction false} SlotIndexOnStack(m: seq<Entry>, k: int)
    ensures SlotIndex(m, k) < |m| <==> OnStack(m, k)
  {
  }
}
