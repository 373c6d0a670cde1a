/** The pool as it is written: the free lists and headers in memory, over the page allocator that
    others use as well. */
module PoolAllocator {
  import opened Machine
  import opened Wrappers
  import opened Pool
  import opened PoolServices
  import opened MemoryMap
  import F = FreePages
  import P = PageServices
  import A = PageAllocator

  class Allocator {
    const mMmPoolLists: array<seq<Place>>
    /** The headers in memory. */
    var headers: map<Place, Header>
    const pages: A.Allocator
    ghost var heap: Heap

    /** The ghost heap is what the fields hold. */
    ghost predicate Mirrors()
      reads this, mMmPoolLists, pages, pages.mMapStack
    {
      && pages.Valid() && pages.mMapDepth == 0 && pages.mFreeMapStack == 0
      && heap.w.s == pages.Current() && heap.pool.lists == mMmPoolLists[..] && heap.pool.headers == headers
    }

    ghost predicate Valid()
      reads this, mMmPoolLists, pages, pages.mMapStack
    {
      Mirrors() && HeapOk(heap)
    }

    lemma {:induction false} Opens()
      requires Valid()
      ensures pages.Valid() && pages.mMapDepth == 0 && pages.mFreeMapStack == 0 && heap.w.s == pages.Current()
      ensures heap.pool.lists == mMmPoolLists[..] && heap.pool.headers == headers
      ensures HeapOk(heap) && P.WorldOk(heap.w) && |heap.pool.lists| == MAX_POOL_INDEX
    {
      HeapParts(heap);
    }

    lemma {:induction false} Closes()
      requires pages.Valid() && heap.w.s.mem.depth == 0 && pages.mFreeMapStack == 0 && heap.w.s == pages.Current()
      requires heap.pool.lists == mMmPoolLists[..] && heap.pool.headers == headers && HeapOk(heap)
      ensures Valid()
    {
    }

    /** Starts with empty lists, on an allocator that has handed out what held says. */
    constructor (pages: A.Allocator, ghost w: P.World)
      requires pages.Valid() && pages.mMapDepth == 0 && pages.mFreeMapStack == 0
      requires P.WorldOk(w) && w.s == pages.Current()
      ensures Valid() && Settled(heap) && heap == Heap(w, NO_POOL, []) && fresh(mMmPoolLists) && this.pages == pages
    {
      mMmPoolLists := new seq<Place>[MAX_POOL_INDEX](i => []);
      headers := map[];
      this.pages := pages;
      heap := Heap(w, NO_POOL, []);
      new;
      EmptyPool();
    }

    /** Pages from the page allocator. */
    method TakeFromPages(typ: MemType, n: nat) returns (status: P.Status, page: nat, halted: bool, ghost w: P.World)
      requires Valid() && n > 0
      modifies pages, pages.mMapStack
      ensures pages.mMapStack == old(pages.mMapStack)
      ensures halted <==> TakePages(heap.w, typ, n).None?
      ensures !halted ==> pages.Valid() && pages.mMapDepth == 0 && pages.mFreeMapStack == 0 && w.s == pages.Current()
      ensures !halted ==> TakePages(heap.w, typ, n) == Some((status, page, w))
    {
      ghost var refuels;
      HeapParts(heap);
      P.SyncedIsWellFormed(heap.w.s);
      status, page, halted, refuels := pages.MmInternalAllocatePages(P.AnyPages, typ, n, 0);
      w := heap.w;
      if !halted {
        w := TakePages(heap.w, typ, n).value.2;
        TakePagesOk(heap.w, typ, n);
      }
    }

    /** The header of a page that becomes one block. */
    method MarkPage(page: nat, ghost w: P.World) returns (place: Place)
      requires pages.Valid() && pages.mMapDepth == 0 && pages.mFreeMapStack == 0 && w.s == pages.Current()
      requires heap.pool.lists == mMmPoolLists[..] && heap.pool.headers == headers
      modifies this
      ensures Mirrors() && heap == Heap(w, Carve(old(heap).pool, page), old(heap).large) && LastPlace(heap.pool, place)
    {
      place := Place(page, 0);
      headers := headers[place := Header(PAGE_UNITS, false)];
      heap := Heap(w, Carve(heap.pool, page), heap.large);
    }

    /** A new page as one block. */
    method CarvePage() returns (status: P.Status, place: Place, halted: bool)
      requires Valid()
      modifies this, pages, pages.mMapStack
      ensures pages.mMapStack == old(pages.mMapStack)
      ensures halted <==> AllocBlock(old(heap), MAX_POOL_INDEX).None?
      ensures !halted ==> Mirrors() && AllocBlock(old(heap), MAX_POOL_INDEX) == Some((status, heap))
      ensures !halted && status == P.Success ==> LastPlace(heap.pool, place)
    {
      HeapParts(heap);
      AllocBlockTop(heap);
      hide HeapOk, P.WorldOk, PoolOk, TakePages, AllocBlock, AllocByIndex, PagesFor, Carve;
      ghost var w;
      var page;
      place := Place(0, 0);
      status, page, halted, w := TakeFromPages(RuntimeData, PagesFor(MAX_POOL_SIZE * 2));
      if !halted {
        if status == P.Success {
          place := MarkPage(page, w);
        } else {
          status := P.OutOfResources;
        }
      }
    }

    /** The first block of a list. */
    method TakeFree(i: nat) returns (place: Place)
      requires Mirrors() && i < mMmPoolLists.Length && mMmPoolLists[i] != []
      modifies this, mMmPoolLists
      ensures Mirrors() && old(i < |heap.pool.lists| && heap.pool.lists[i] != [])
      ensures heap == old(heap).(pool := TakeFirst(old(heap).pool, i)) && LastPlace(heap.pool, place)
    {
      heap := heap.(pool := TakeFirst(heap.pool, i));
      place := mMmPoolLists[i][0];
      mMmPoolLists[i] := mMmPoolLists[i][1..];
      headers := headers[place := Header(Units(i), false)];
    }

    /** Halves the block just taken: the lower half goes onto the list. */
    method Split(i: nat, x: Place) returns (place: Place)
      requires Mirrors() && i < mMmPoolLists.Length && LastPlace(heap.pool, x)
      modifies this, mMmPoolLists
      ensures Mirrors() && old(i < |heap.pool.lists|)
      ensures heap == old(heap).(pool := Halve(old(heap).pool, i)) && LastPlace(heap.pool, place)
    {
      heap := heap.(pool := Halve(heap.pool, i));
      var half := headers[x].size / 2;
      headers := headers[x := Header(half, true)];
      mMmPoolLists[i] := [x] + mMmPoolLists[i];
      place := Place(x.page, x.unit + half);
      headers := headers[place := Header(Units(i), false)];
    }

    method InternalAllocPoolByIndex(i: nat) returns (status: P.Status, place: Place, halted: bool)
      requires Valid() && i <= MAX_POOL_INDEX
      modifies this, mMmPoolLists, pages, pages.mMapStack
      ensures pages.mMapStack == old(pages.mMapStack)
      ensures halted <==> AllocBlock(old(heap), i).None?
      ensures !halted ==> Valid() && AllocBlock(old(heap), i) == Some((status, heap))
      ensures !halted && status == P.Success ==> LastPlace(heap.pool, place)
      decreases MAX_POOL_INDEX - i
    {
      HeapParts(heap);
      ghost var h := heap;
      hide HeapOk, P.WorldOk, PoolOk, AllocBlock, LastPlace, Halve, TakeFirst;
      if i == MAX_POOL_INDEX {
        status, place, halted := CarvePage();
      } else if mMmPoolLists[i] != [] {
        AllocBlockFirst(h, i);
        status, halted := P.Success, false;
        place := TakeFree(i);
      } else {
        AllocBlockNext(h, i);
        status, place, halted := InternalAllocPoolByIndex(i + 1);
        if !halted && status == P.Success {
          LastIsLast(heap.pool, place);
          place := Split(i, place);
        }
      }
      if !halted {
        AllocBlockKeeps(h, i);
      }
    }

    /** The place returned is that of the header; the buffer starts HEADER_SIZE bytes on. halted:
        the page allocator halts, or the size wraps to nothing and the code asserts. */
    method MmInternalAllocatePool(typ: MemType, size: nat) returns (status: P.Status, place: Place, halted: bool)
      requires Valid() && Settled(heap)
      modifies this, mMmPoolLists, pages, pages.mMapStack
      ensures pages.mMapStack == old(pages.mMapStack)
      ensures halted <==> AllocatePool(old(heap), typ, size).None?
      ensures !halted ==> Valid() && Settled(heap) && AllocatePool(old(heap), typ, size) == Some((status, heap))
      ensures !halted && status == P.Success ==>
        place == if |heap.large| > |old(heap).large| then Place(heap.large[|heap.large| - 1].first, 0)
                 else if heap.pool.busy != [] then heap.pool.busy[|heap.pool.busy| - 1].place else Place(0, 0)
    {
      hide *;
      Opens();
      AllocatePoolCases(heap, typ, size);
      place, halted := Place(0, 0), false;
      if typ != RuntimeCode && typ != RuntimeData {
        status := P.InvalidParameter;
        return;
      }
      var n := WithHeader(size);
      if n > MAX_POOL_SIZE {
        status, place, halted := AllocateLarge(typ, PagesFor(n));
      } else {
        var i := PoolIndex(n);
        if i < 0 {
          status, halted := P.OutOfResources, true;
          return;
        }
        status, place, halted := InternalAllocPoolByIndex(i);
        if !halted && status == P.Success {
          LastIsLast(heap.pool, place);
        }
      }
    }

    method AllocateLarge(typ: MemType, n: nat) returns (status: P.Status, place: Place, halted: bool)
      requires Valid() && n > 0
      modifies this, pages, pages.mMapStack
      ensures pages.mMapStack == old(pages.mMapStack)
      ensures halted <==> AllocLarge(old(heap), typ, n).None?
      ensures !halted ==> Valid() && AllocLarge(old(heap), typ, n) == Some((status, heap))
      ensures !halted && status == P.Success ==>
        heap.large != [] && place == Place(heap.large[|heap.large| - 1].first, 0)
    {
      hide *;
      Opens();
      ghost var h := heap;
      ghost var w;
      var page;
      place := Place(0, 0);
      status, page, halted, w := TakeFromPages(typ, n);
      AllocLargeIs(h, typ, n);
      if !halted {
        TakePagesHeld(h.w, typ, n);
        AllocLargeKeeps(h, typ, n);
        if status == P.Success {
          place := Place(page, 0);
          headers := headers[place := Header(PAGE_UNITS * n, false)];
          heap := AllocLarge(h, typ, n).value.1;
        }
        HeapParts(heap);
        WorldDepth(heap.w);
        Closes();
      }
    }

    /** Puts a block on the list its header leads to. k is its number among the blocks in use. */
    method InternalFreePoolByIndex(x: Place, ghost k: nat)
      requires Valid() && Settled(heap) && k < |heap.pool.busy| && heap.pool.busy[k].place == x
      modifies this, mMmPoolLists
      ensures Valid() && Settled(heap) && k < |old(heap).pool.busy|
      ensures old(k < |heap.pool.busy| && x in heap.pool.headers
                  && ClassOf(heap.pool.headers[x].size) < |heap.pool.lists|)
      ensures heap == old(heap).(pool := Free(old(heap).pool, k))
    {
      ghost var h := heap;
      HeapParts(h);
      FreeBlockKeeps(h, k);
      hide HeapOk, PoolOk, ClassOf;
      var i := ClassOf(headers[x].size);
      headers := headers[x := headers[x].(available := true)];
      mMmPoolLists[i] := [x] + mMmPoolLists[i];
      heap := h.(pool := Free(h.pool, k));
    }

    /** Frees a buffer in use: number k of the runs of pages when it is large, else number k of
        the blocks. The header tells which. */
    method MmInternalFreePool(buffer: Option<Place>, ghost large: bool, ghost k: nat)
      returns (status: P.Status, halted: bool)
      requires Valid() && Settled(heap)
      requires buffer.Some? ==> InUse(heap, buffer.value, large, k)
      modifies this, mMmPoolLists, pages, pages.mMapStack
      ensures pages.mMapStack == old(pages.mMapStack)
      ensures buffer.None? ==> !halted && status == P.InvalidParameter && Valid() && heap == old(heap)
      ensures buffer.Some? ==> old(InUse(heap, buffer.value, large, k))
      ensures buffer.Some? ==> (halted <==> FreeBuffer(old(heap), buffer.value, large, k).None?)
      ensures buffer.Some? && !halted ==>
        Valid() && Settled(heap) && status == P.Success && FreeBuffer(old(heap), buffer.value, large, k) == Some(heap)
    {
      status, halted := P.InvalidParameter, false;
      if buffer.None? {
        return;
      }
      var x := buffer.value;
      ghost var h := heap;
      HeaderTells(h, x, large, k);
      hide HeapOk, P.WorldOk, PoolOk, FreeLarge, Free;
      if headers[x].size > MAX_POOL_SIZE / MIN_POOL_SIZE {
        status, halted := FreeRun(x, headers[x].size / PAGE_UNITS, k);
      } else {
        InternalFreePoolByIndex(x, k);
        status := P.Success;
      }
    }

    /** Gives a run of pages back. */
    method FreeRun(x: Place, n: nat, ghost k: nat) returns (status: P.Status, halted: bool)
      requires Valid() && Settled(heap) && k < |heap.large|
      requires x == Place(heap.large[k].first, 0) && n == heap.large[k].pages
      modifies this, pages, pages.mMapStack
      ensures pages.mMapStack == old(pages.mMapStack)
      ensures old(InUse(heap, x, true, k))
      ensures halted <==> FreeBuffer(old(heap), x, true, k).None?
      ensures !halted ==>
        Valid() && Settled(heap) && status == P.Success && FreeBuffer(old(heap), x, true, k) == Some(heap)
    {
      hide *;
      Opens();
      ghost var h := heap;
      FreeLargeParts(h, k);
      FreeLargeKeeps(h, k);
      FreeBufferLarge(h, x, k);
      status, halted := ReturnPages(x.page, n);
      if !halted {
        heap := FreeLarge(h, k).value.1;
        Closes();
      }
    }

    method ReturnPages(p: nat, n: nat) returns (status: P.Status, halted: bool)
      requires pages.Valid() && pages.mMapDepth == 0 && pages.mFreeMapStack == 0 && F.NodeOk(F.Node(p, n))
      modifies pages, pages.mMapStack
      ensures pages.mMapStack == old(pages.mMapStack)
      ensures old(F.WellFormed(pages.Current().free) && pages.Current().mem.depth == 0)
      ensures halted <==> P.ReleasePages(old(pages.Current()), p, n).None?
      ensures !halted ==> pages.Valid() && pages.mFreeMapStack == 0
      ensures !halted ==> var r := P.ReleasePages(old(pages.Current()), p, n);
        status == r.value.0 && pages.Current() == r.value.1.s
    {
      ghost var refuels;
      ByteAddress(p);
      hide P.ReleasePages, F.WellFormed, F.NodeOk;
      status, halted, refuels := pages.MmInternalFreePagesEx(p * PAGE_SIZE, n, false);
    }

    // ---------- the page services, as others call them beside the pool ----------

    /** After a call of the page services by somebody else, the ghost heap follows. */
    ghost method Follow(a: P.Action)
      requires HeapOk(heap) && HeapLegal(heap, UsePages(a)) && HeapStep(heap, UsePages(a)).Some?
      requires pages.Valid() && pages.mFreeMapStack == 0
      requires pages.Current() == HeapStep(heap, UsePages(a)).value.w.s
      requires heap.pool.lists == mMmPoolLists[..] && heap.pool.headers == headers
      modifies this`heap
      ensures old(HeapOk(heap) && HeapLegal(heap, UsePages(a)))
      ensures Valid() && HeapStep(old(heap), UsePages(a)) == Some(heap)
      ensures old(Settled(heap)) ==> Settled(heap)
    {
      hide *;
      ghost var h := heap;
      HeapStepKeeps(h, UsePages(a));
      if Settled(h) {
        HeapStepSettled(h, UsePages(a));
      }
      UsePagesIs(h, a);
      heap := HeapStep(h, UsePages(a)).value;
      HeapParts(heap);
      WorldDepth(heap.w);
      Closes();
    }

    method MmAllocatePages(kind: P.AllocateType, typ: MemType, n: nat, request: nat)
      returns (status: P.Status, page: nat, halted: bool)
      requires Valid() && P.RequestOk(kind, n, request)
      modifies this`heap, pages, pages.mMapStack
      ensures pages.mMapStack == old(pages.mMapStack)
      ensures old(HeapOk(heap) && HeapLegal(heap, UsePages(P.Allocate(kind, typ, n, request))))
      ensures old(F.WellFormed(heap.w.s.free)) && old(heap.w.s.mem.depth) == 0
      ensures halted <==> HeapStep(old(heap), UsePages(P.Allocate(kind, typ, n, request))).None?
      ensures !halted ==>
        var r := P.AllocatePages(old(heap.w.s), kind, typ, n, request);
        r.Some? && r.value.0 == status && r.value.1 == page
      ensures !halted ==> Valid() && HeapStep(old(heap), UsePages(P.Allocate(kind, typ, n, request))) == Some(heap)
      ensures !halted && old(Settled(heap)) ==> Settled(heap)
    {
      hide *;
      Opens();
      ghost var refuels;
      ghost var a := P.Allocate(kind, typ, n, request);
      AllocateIs(heap, kind, typ, n, request);
      status, page, halted, refuels := pages.MmInternalAllocatePages(kind, typ, n, request);
      if !halted {
        Follow(a);
      }
    }

    /** Pages that are not the pool's, or that the allocator refuses. */
    method MmFreePages(address: nat, n: nat) returns (status: P.Status, halted: bool)
      requires Valid() && HeapLegal(heap, UsePages(P.Release(address / PAGE_SIZE, n)))
      modifies this`heap, pages, pages.mMapStack
      ensures pages.mMapStack == old(pages.mMapStack)
      ensures old(HeapOk(heap) && HeapLegal(heap, UsePages(P.Release(address / PAGE_SIZE, n))))
      ensures old(F.WellFormed(heap.w.s.free)) && old(heap.w.s.mem.depth) == 0
      ensures F.NodeOk(F.Node(address / PAGE_SIZE, n))
      ensures !halted ==>
        var r := P.ReleaseAddress(old(heap.w.s), address, n); r.Some? && r.value.0 == status
      ensures address % PAGE_SIZE != 0 ==> !halted && status == P.InvalidParameter && Valid() && heap == old(heap)
      ensures address % PAGE_SIZE == 0 ==>
        (halted <==> HeapStep(old(heap), UsePages(P.Release(address / PAGE_SIZE, n))).None?)
      ensures address % PAGE_SIZE == 0 && !halted ==>
        Valid() && HeapStep(old(heap), UsePages(P.Release(address / PAGE_SIZE, n))) == Some(heap)
      ensures !halted && old(Settled(heap)) ==> Settled(heap)
    {
      ghost var p := address / PAGE_SIZE;
      hide *;
      Opens();
      ghost var refuels;
      ReleaseIs(heap, address, n);
      status, halted, refuels := pages.MmInternalFreePagesEx(address, n, false);
      if address % PAGE_SIZE == 0 {
        if !halted {
          Follow(P.Release(p, n));
        }
      } else {
        HeapParts(heap);
        WorldDepth(heap.w);
        Closes();
      }
    }
  }

  /** The cases of a pool allocation, and what each leaves alone. */
  lemma {:induction false} AllocatePoolCases(h: Heap, typ: MemType, size: nat)
    requires P.WorldOk(h.w) && |h.pool.lists| == MAX_POOL_INDEX && Settled(h)
    ensures var n := WithHeader(size);
      var i := PoolIndex(n);
      var r := AllocatePool(h, typ, size);
      && (r.Some? ==> Settled(r.value.1))
      && (r.Some? && r.value.0 == P.Success && n > MAX_POOL_SIZE ==> |r.value.1.large| > |h.large|)
      && (r.Some? && n <= MAX_POOL_SIZE ==> |r.value.1.large| == |h.large|)
      && if typ != RuntimeCode && typ != RuntimeData then r == Some((P.InvalidParameter, h))
         else if n > MAX_POOL_SIZE then PagesFor(n) > 0 && r == AllocLarge(h, typ, PagesFor(n))
         else if i < 0 then r == None
         else i < MAX_POOL_INDEX && r == AllocBlock(h, i)
  {
    var n := WithHeader(size);
    if n > MAX_POOL_SIZE {
      PagesPositive(n);
    } else {
      PoolIndexInRange(n);
    }
    hide P.WorldOk, AllocLarge, AllocBlock, PagesFor, WithHeader, PoolIndex, Settled;
    if typ == RuntimeCode || typ == RuntimeData {
      if n > MAX_POOL_SIZE {
        if AllocLarge(h, typ, PagesFor(n)).Some? {
          AllocLargeParts(h, typ, PagesFor(n));
        }
      } else if PoolIndex(n) >= 0 && AllocBlock(h, PoolIndex(n)).Some? {
        AllocBlockParts(h, PoolIndex(n));
      }
    }
  }

  lemma {:induction false} UsePagesIs(h: Heap, a: P.Action)
    requires HeapOk(h) && HeapLegal(h, UsePages(a))
    ensures P.WorldOk(h.w) && P.Legal(h.w, a) && (HeapStep(h, UsePages(a)).None? <==> P.Step(h.w, a).None?)
    ensures P.Step(h.w, a).Some? ==> HeapStep(h, UsePages(a)).value == h.(w := P.Step(h.w, a).value)
  {
    hide P.WorldOk, P.Legal, P.Step;
  }

  lemma {:induction false} AllocateIs(h: Heap, kind: P.AllocateType, typ: MemType, n: nat, request: nat)
    requires HeapOk(h) && P.RequestOk(kind, n, request)
    ensures var a := UsePages(P.Allocate(kind, typ, n, request));
      && F.WellFormed(h.w.s.free) && h.w.s.mem.depth == 0 && HeapLegal(h, a)
      && var r := P.AllocatePages(h.w.s, kind, typ, n, request);
      && (HeapStep(h, a).None? <==> r.None?)
      && (r.Some? ==> HeapStep(h, a).value.w.s == r.value.2.s && HeapStep(h, a).value.pool == h.pool)
  {
    WorldDepth(h.w);
    P.WorldIsSynced(h.w);
    P.SyncedIsWellFormed(h.w.s);
    hide P.WorldOk, P.AllocatePages, P.RequestOk, F.WellFormed;
  }

  lemma {:induction false} ReleaseIs(h: Heap, address: nat, n: nat)
    requires HeapOk(h) && HeapLegal(h, UsePages(P.Release(address / PAGE_SIZE, n)))
    ensures var p := address / PAGE_SIZE;
      var a := UsePages(P.Release(p, n));
      && F.NodeOk(F.Node(p, n)) && F.WellFormed(h.w.s.free) && h.w.s.mem.depth == 0
      && var r := P.ReleaseAddress(h.w.s, address, n);
      && (address % PAGE_SIZE == 0 ==> (HeapStep(h, a).None? <==> r.None?))
      && (address % PAGE_SIZE == 0 && r.Some? ==>
          HeapStep(h, a).value.w.s == r.value.1.s && HeapStep(h, a).value.pool == h.pool)
      && (address % PAGE_SIZE != 0 ==> r == Some((P.InvalidParameter, P.Freed(h.w.s, []))))
  {
    WorldDepth(h.w);
    P.WorldIsSynced(h.w);
    P.SyncedIsWellFormed(h.w.s);
    hide P.WorldOk, P.ReleasePages, F.WellFormed, P.AfterRelease, NotOurs, F.Overlaps, P.Owned;
  }
}
