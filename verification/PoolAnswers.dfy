/** What the pool answers: when a buffer is granted, which, and what a free gives back. */
module PoolAnswers {
  import opened Machine
  import opened Wrappers
  import opened Pool
  import opened PoolServices
  import opened MemoryMap
  import F = FreePages
  import P = PageServices

  lemma {:induction false} NeedsPageIs(lists: seq<seq<Place>>, i: nat)
    ensures NeedsPage(lists, i) <==> forall c :: i <= c < |lists| ==> lists[c] == []
    decreases |lists| - i
  {
    if i < |lists| {
      NeedsPageIs(lists, i + 1);
    }
  }

  /** Somewhere n free pages follow each other. */
  ghost predicate HasRun(w: P.World, n: nat) {
    exists p: nat :: F.RunFree(w.s.free, p, n)
  }

  /** Pages are granted, or the machine halts for want of a descriptor, exactly when there are that
      many in a row; a refusal changes nothing. */
  lemma {:induction false} TakePagesAnswers(w: P.World, typ: MemType, n: nat)
    requires P.WorldOk(w) && 0 < n <= WORD_PAGES && (typ == RuntimeCode || typ == RuntimeData)
    ensures var r := TakePages(w, typ, n);
      && (r.None? || r.value.0 == P.Success <==> HasRun(w, n))
      && (r.Some? && r.value.0 != P.Success ==> r.value == (P.OutOfResources, r.value.1, w))
  {
    P.WorldIsSynced(w);
    P.SyncedIsWellFormed(w.s);
    WorldDepth(w);
    P.AllocateAnswers(w.s, P.AnyPages, typ, n, 0);
    assert (exists p: nat :: P.Suits(w.s, P.AnyPages, n, 0, p)) <==> HasRun(w, n) by {
      forall p: nat ensures P.Suits(w.s, P.AnyPages, n, 0, p) <==> F.RunFree(w.s.free, p, n) {
      }
    }
    hide P.WorldOk, P.Suits, P.AllocatePages, HasRun, F.WellFormed, P.Synced;
    if TakePages(w, typ, n).Some? {
      TakePagesFresh(w, typ, n);
    }
  }

  lemma {:induction false} WorldDepth(w: P.World)
    requires P.WorldOk(w)
    ensures w.s.mem.depth == 0
  {
  }

  /** The pool adds one block of the class, and takes a page exactly when no list from there on has a
      block. */
  lemma {:induction false} BlockAnswers(h: Heap, i: nat)
    requires HeapOk(h) && i < MAX_POOL_INDEX
    ensures P.WorldOk(h.w) && |h.pool.lists| == MAX_POOL_INDEX
    ensures var r := AllocBlock(h, i);
      var stocked := exists c :: i <= c < MAX_POOL_INDEX && h.pool.lists[c] != [];
      && (r.None? || r.value.0 == P.Success <==> stocked || HasRun(h.w, 1))
      && (r.Some? && r.value.0 != P.Success ==> r.value == (P.OutOfResources, h))
      && (r.Some? && r.value.0 == P.Success ==>
            var a, b := h.pool, r.value.1.pool;
            && |b.busy| == |a.busy| + 1 && b.busy[..|a.busy|] == a.busy && b.busy[|a.busy|].class_ == i
            && r.value.1.large == h.large
            && (if stocked then r.value.1.w == h.w && b.carved == a.carved else |b.carved - a.carved| <= 1))
  {
    HeapParts(h);
    NeedsPageIs(h.pool.lists, i);
    hide HeapOk, P.WorldOk, AllocByIndex, NeedsPage, TakePages, HasRun, PoolOk;
    if NeedsPage(h.pool.lists, i) {
      TakePagesAnswers(h.w, RuntimeData, 1);
      if TakePages(h.w, RuntimeData, 1).Some? {
        OnePage(h.pool.carved, TakePages(h.w, RuntimeData, 1).value.1);
      }
    }
  }

  lemma {:induction false} OnePage(carved: set<nat>, page: nat)
    ensures |carved + {page} - carved| <= 1
  {
    if page in carved {
      assert carved + {page} - carved == {};
    } else {
      assert carved + {page} - carved == {page};
    }
  }

  /** A large buffer is of the type asked for. */
  lemma {:induction false} LargeAnswers(h: Heap, typ: MemType, n: nat)
    requires HeapOk(h) && 0 < n <= WORD_PAGES && (typ == RuntimeCode || typ == RuntimeData)
    ensures P.WorldOk(h.w)
    ensures var r := AllocLarge(h, typ, n);
      && (r.None? || r.value.0 == P.Success <==> HasRun(h.w, n))
      && (r.Some? && r.value.0 != P.Success ==> r.value == (P.OutOfResources, h))
      && (r.Some? && r.value.0 == P.Success ==>
            var b := r.value.1;
            && |b.large| == |h.large| + 1 && b.large[..|h.large|] == h.large
            && b.large[|h.large|].pages == n && b.large[|h.large|].typ == typ
            && b.pool.busy == h.pool.busy && b.pool.carved == h.pool.carved && b.pool.lists == h.pool.lists)
  {
    HeapParts(h);
    TakePagesAnswers(h.w, typ, n);
    hide HeapOk, P.WorldOk, TakePages, HasRun, PoolOk;
  }

  /** There is a free block of n bytes or more. */
  ghost predicate Stocked(s: Pool, n: nat) {
    exists c :: 0 <= c < |s.lists| && n <= 64 * Units(c) && s.lists[c] != []
  }

  lemma {:induction false} UnitsGrow(c: nat, d: nat)
    requires c <= d
    ensures Units(c) <= Units(d)
    decreases d
  {
    if c < d {
      UnitsGrow(c, d - 1);
    }
  }

  lemma {:induction false} StockedFrom(s: Pool, n: nat, i: nat)
    requires n <= 64 * Units(i) && forall c: nat :: c < i ==> 64 * Units(c) < n
    ensures Stocked(s, n) <==> exists c :: i <= c < |s.lists| && s.lists[c] != []
  {
    hide Units;
    forall c: nat ensures n <= 64 * Units(c) <==> i <= c {
      if i <= c {
        UnitsGrow(i, c);
      }
    }
  }

  lemma {:induction false} PoolCases(h: Heap, typ: MemType, size: nat)
    requires P.WorldOk(h.w) && |h.pool.lists| == MAX_POOL_INDEX
    ensures var r, n := AllocatePool(h, typ, size), WithHeader(size);
      if typ != RuntimeCode && typ != RuntimeData then r == Some((P.InvalidParameter, h))
      else if n > MAX_POOL_SIZE then PagesFor(n) > 0 && r == AllocLarge(h, typ, PagesFor(n))
      else if PoolIndex(n) < 0 then r == None
      else PoolIndex(n) <= MAX_POOL_INDEX && r == AllocBlock(h, PoolIndex(n))
  {
    var n := WithHeader(size);
    if n > MAX_POOL_SIZE {
      PagesPositive(n);
    } else {
      PoolIndexInRange(n);
    }
    hide P.WorldOk, AllocLarge, AllocBlock, WithHeader, PoolIndex, PagesFor;
  }

  /** The pool allocates two types of memory only. And a size that wraps to nothing with its header
      stops the machine. */
  lemma {:induction false} AllocateRefuses(h: Heap, typ: MemType, size: nat)
    requires HeapOk(h) && size < WORD
    ensures P.WorldOk(h.w) && |h.pool.lists| == MAX_POOL_INDEX
    ensures typ != RuntimeCode && typ != RuntimeData ==> AllocatePool(h, typ, size) == Some((P.InvalidParameter, h))
    ensures (typ == RuntimeCode || typ == RuntimeData) && WithHeader(size) == 0 ==> AllocatePool(h, typ, size) == None
  {
    HeapParts(h);
    PoolCases(h, typ, size);
    PoolIndexInRange(0);
    hide *;
  }

  /** A buffer that fits the pool with its header, where that sum wraps at 64 bits, is granted exactly
      when there is a block large enough, which it then comes from, or a page; a halt is for want of
      a descriptor. It is one block more in use, and no buffer changes. */
  lemma {:induction false} AllocateSmallAnswers(h: Heap, typ: MemType, size: nat)
    requires HeapOk(h) && size < WORD && (typ == RuntimeCode || typ == RuntimeData)
    requires 0 < WithHeader(size) <= MAX_POOL_SIZE
    ensures P.WorldOk(h.w) && |h.pool.lists| == MAX_POOL_INDEX
    ensures var r, stocked := AllocatePool(h, typ, size), Stocked(h.pool, WithHeader(size));
      && (r.None? || r.value.0 == P.Success <==> stocked || HasRun(h.w, 1))
      && (r.Some? && r.value.0 != P.Success ==> r.value == (P.OutOfResources, h))
      && (r.Some? && r.value.0 == P.Success ==>
            var a, b := h.pool, r.value.1.pool;
            && |b.busy| == |a.busy| + 1 && b.busy[..|a.busy|] == a.busy && r.value.1.large == h.large
            && (if stocked then r.value.1.w == h.w && b.carved == a.carved else |b.carved - a.carved| <= 1))
  {
    var n := WithHeader(size);
    HeapParts(h);
    PoolCases(h, typ, size);
    PoolIndexIsSmallest(n);
    PoolIndexInRange(n);
    StockedFrom(h.pool, n, PoolIndex(n));
    hide *;
    BlockAnswers(h, PoolIndex(n));
  }

  /** A larger one is granted exactly when there are pages enough in a row, and is of the type asked
      for. */
  lemma {:induction false} AllocateLargeAnswers(h: Heap, typ: MemType, size: nat)
    requires HeapOk(h) && size < WORD && (typ == RuntimeCode || typ == RuntimeData) && WithHeader(size) > MAX_POOL_SIZE
    ensures P.WorldOk(h.w) && |h.pool.lists| == MAX_POOL_INDEX
    ensures var r, k := AllocatePool(h, typ, size), PagesFor(WithHeader(size));
      && (r.None? || r.value.0 == P.Success <==> HasRun(h.w, k))
      && (r.Some? && r.value.0 != P.Success ==> r.value == (P.OutOfResources, h))
      && (r.Some? && r.value.0 == P.Success ==>
            var b := r.value.1;
            && |b.large| == |h.large| + 1 && b.large[..|h.large|] == h.large
            && b.large[|h.large|].pages == k && b.large[|h.large|].typ == typ
            && b.pool.busy == h.pool.busy && b.pool.carved == h.pool.carved && b.pool.lists == h.pool.lists)
  {
    HeapParts(h);
    PoolCases(h, typ, size);
    WithHeaderIs(size);
    PagesWithin(WithHeader(size));
    hide *;
    LargeAnswers(h, typ, PagesFor(WithHeader(size)));
  }

  lemma {:induction false} PagesWithin(n: nat)
    requires 0 < n < WORD
    ensures 0 < PagesFor(n) <= WORD_PAGES
  {
  }

  // ---------- freeing ----------

  /** The pages of a large buffer are free again, but for those a refuel takes; the buffer is gone
      from the list, and the pool is as it was. */
  lemma {:induction false} FreeLargeAnswers(h: Heap, k: nat, q: int)
    requires HeapOk(h) && k < |h.large|
    requires InUse(h, Place(h.large[k].first, 0), true, k)
    requires FreeBuffer(h, Place(h.large[k].first, 0), true, k).Some?
    ensures var r := FreeBuffer(h, Place(h.large[k].first, 0), true, k).value;
      && r.pool == h.pool && r.large == h.large[..k] + h.large[k + 1..]
      && (h.large[k].Meets(q, q) ==>
            F.IsFree(r.w.s.free, q) || exists y :: y in r.w.held && y.descriptor && y.Meets(q, q))
  {
    var x := h.large[k];
    HeapParts(h);
    LargeOwned(h, k);
    hide *;
    FreeBufferLarge(h, Place(x.first, 0), k);
    FreeLargeIs(h, k);
    if x.Meets(q, q) {
      ReleasedFree(h.w, x, q);
    }
  }

  /** What the pages of a block are once it is released. */
  lemma {:induction false} ReleasedFree(w: P.World, x: P.Block, q: int)
    requires P.WorldOk(w) && F.NodeOk(F.Node(x.first, x.pages)) && P.Owned(w, x.first, x.pages)
    requires P.Step(w, P.Release(x.first, x.pages)).Some? && x.Meets(q, q)
    ensures var r := P.Step(w, P.Release(x.first, x.pages)).value;
      F.IsFree(r.s.free, q) || exists y :: y in r.held && y.descriptor && y.Meets(q, q)
  {
    P.SyncedIsWellFormed(w.s);
    P.ReleaseMap(w, x.first, x.pages, q);
    ReleaseSteps(w, x.first, x.pages);
    P.ReleaseStepKeeps(w, x.first, x.pages);
    var r := P.Step(w, P.Release(x.first, x.pages)).value;
    var f := P.ReleasePages(w.s, x.first, x.pages).value.1;
    P.WorldIsSynced(r);
    AgreeAt(r.s, q);
    hide P.WorldOk, P.Synced, P.Owned, P.ReleasePages, P.AfterRelease, F.IsFree;
    if P.InRefuel(f, q) {
      var y := P.RefuelBlocks(f.refuels)[0];
      assert y in P.RefuelBlocks(f.refuels);
      assert y in r.held && y.descriptor && y.Meets(q, q);
    }
  }

  lemma {:induction false} AgreeAt(s: P.State, q: int)
    requires P.Synced(s)
    ensures F.IsFree(s.free, q) <==> TypeAt(s.mem.m, q) == At(Conventional)
  {
  }

  /** A small buffer freed is the first on the list of its class, and nothing else changes. */
  lemma {:induction false} FreeBlockAnswers(h: Heap, k: nat)
    requires HeapOk(h) && k < |h.pool.busy| && h.pool.busy[k].class_ < MAX_POOL_INDEX
    requires InUse(h, h.pool.busy[k].place, false, k) && |h.pool.lists| == MAX_POOL_INDEX
    ensures var b, r := h.pool.busy[k], FreeBuffer(h, h.pool.busy[k].place, false, k);
      && r.Some? && r.value.w == h.w && r.value.large == h.large && r.value.pool.carved == h.pool.carved
      && r.value.pool.busy == h.pool.busy[..k] + h.pool.busy[k + 1..]
      && r.value.pool.lists == h.pool.lists[b.class_ := [b.place] + h.pool.lists[b.class_]]
  {
    FreeBlockKeeps(h, k);
    hide HeapOk, ClassOf;
  }
}
