/** The pool on top of the page allocator: allocating and freeing buffers, with the pages they
    come from. */
module PoolServices {
  import opened Machine
  import opened Wrappers
  import opened Pool
  import opened MemoryMap
  import F = FreePages
  import P = PageServices

  /** The page allocator's world, the pool, and the buffers that are whole pages. */
  datatype Heap = Heap(w: P.World, pool: Pool, large: seq<P.Block>)

  function Carved(p: nat): P.Block {
    P.Block(p, 1, RuntimeData, false)
  }

  /** The header of a buffer that is whole pages. */
  function LargeHeader(x: P.Block): Header {
    Header(PAGE_UNITS * x.pages, false)
  }

  ghost predicate LargeOk(x: P.Block, held: seq<P.Block>, headers: map<Place, Header>, carved: set<nat>) {
    && x in held && x.pages > 0 && !x.descriptor
    && Place(x.first, 0) in headers && headers[Place(x.first, 0)] == LargeHeader(x)
    && (forall p :: p in carved ==> !x.Meets(p, p))
  }

  ghost predicate Backed(carved: set<nat>, held: seq<P.Block>) {
    forall p :: p in carved ==> Carved(p) in held
  }

  ghost predicate LargesOk(large: seq<P.Block>, held: seq<P.Block>, headers: map<Place, Header>, carved: set<nat>) {
    forall i :: 0 <= i < |large| ==> LargeOk(large[i], held, headers, carved)
  }

  ghost predicate Apart(large: seq<P.Block>) {
    forall i, j :: 0 <= i < j < |large| ==> !large[i].Meets(large[j].first, large[j].first + large[j].pages - 1)
  }

  /** Carved pages and large buffers are pages the allocator has handed out, no page twice. */
  ghost predicate HeapOk(h: Heap) {
    && P.WorldOk(h.w) && PoolOk(h.pool)
    && Backed(h.pool.carved, h.w.held)
    && LargesOk(h.large, h.w.held, h.pool.headers, h.pool.carved) && Apart(h.large)
  }

  // ---------- the services ----------

  function TakePages(w: P.World, typ: MemType, n: nat): Option<(P.Status, nat, P.World)>
    requires P.WorldOk(w) && n > 0
  {
    P.SyncedIsWellFormed(w.s);
    match P.AllocatePages(w.s, P.AnyPages, typ, n, 0)
    case None => None
    case Some((status, page, _)) => Some((status, page, P.Step(w, P.Allocate(P.AnyPages, typ, n, 0)).value))
  }

  /** InternalAllocPoolByIndex. None: the page allocator halts. */
  function AllocBlock(h: Heap, i: nat): Option<(P.Status, Heap)>
    requires P.WorldOk(h.w) && |h.pool.lists| == MAX_POOL_INDEX && i <= MAX_POOL_INDEX
  {
    if NeedsPage(h.pool.lists, i) then
      match TakePages(h.w, RuntimeData, 1)
      case None => None
      case Some((status, page, w)) =>
        if status == P.Success then Some((P.Success, Heap(w, AllocByIndex(h.pool, i, page), h.large)))
        else Some((P.OutOfResources, h))
    else Some((P.Success, h.(pool := AllocByIndex(h.pool, i, 0))))
  }

  /** What taking pages does to the blocks handed out. */
  lemma {:induction false} TakePagesHeld(w: P.World, typ: MemType, n: nat)
    requires P.WorldOk(w) && n > 0 && TakePages(w, typ, n).Some?
    ensures var (status, page, w') := TakePages(w, typ, n).value;
      && (status != P.Success ==> w' == w)
      && (status == P.Success ==> exists more :: w'.held == w.held + [P.Block(page, n, typ, false)] + more)
  {
    P.SyncedIsWellFormed(w.s);
    var (status, page, f) := P.AllocatePages(w.s, P.AnyPages, typ, n, 0).value;
    hide P.WorldOk, P.AllocRaw, P.FreeStack, P.RequestOk;
    var w' := TakePages(w, typ, n).value.2;
    if status == P.Success {
      assert w'.held == w.held + [P.Block(page, n, typ, false)] + P.RefuelBlocks(f.refuels);
    } else {
      assert f.refuels == [] && w.held + P.RefuelBlocks([]) == w.held;
    }
  }

  lemma {:induction false} TakePagesOk(w: P.World, typ: MemType, n: nat)
    requires P.WorldOk(w) && n > 0 && TakePages(w, typ, n).Some?
    ensures P.WorldOk(TakePages(w, typ, n).value.2)
  {
    P.SyncedIsWellFormed(w.s);
    P.AllocateKeeps(w, P.AnyPages, typ, n, 0);
    hide P.WorldOk, P.AllocatePages, P.Step;
  }

  /** Pages that meet nothing handed out. */
  ghost predicate Fresh(held: seq<P.Block>, page: nat, n: nat) {
    forall x :: x in held ==> !x.Meets(page, page + n - 1)
  }

  /** The new pages meet nothing that was handed out before, and nothing is taken back. */
  lemma {:induction false} TakePagesFresh(w: P.World, typ: MemType, n: nat)
    requires P.WorldOk(w) && n > 0 && TakePages(w, typ, n).Some?
    ensures var (status, page, w') := TakePages(w, typ, n).value;
      && P.WorldOk(w') && (status != P.Success ==> w' == w)
      && (status == P.Success ==> P.Block(page, n, typ, false) in w'.held && Fresh(w.held, page, n))
      && (forall x :: x in w.held ==> x in w'.held)
  {
    hide *;
    TakePagesOk(w, typ, n);
    TakePagesHeld(w, typ, n);
    var (status, page, w') := TakePages(w, typ, n).value;
    if status == P.Success {
      var more :| w'.held == w.held + [P.Block(page, n, typ, false)] + more;
      HeldFresh(w', w.held, P.Block(page, n, typ, false), more);
    }
  }

  lemma {:induction false} HeldFresh(w: P.World, held: seq<P.Block>, b: P.Block, more: seq<P.Block>)
    requires P.WorldOk(w) && w.held == held + [b] + more
    ensures b in w.held && Fresh(held, b.first, b.pages) && forall x :: x in held ==> x in w.held
  {
    var n := |held|;
    assert w.held[n] == b;
    assert P.HeldOk(w.s.mem.m, w.held);
    forall x | x in held ensures x in w.held && !x.Meets(b.first, b.first + b.pages - 1) {
      var i :| 0 <= i < n && held[i] == x;
      assert w.held[i] == x;
      assert !w.held[i].Meets(w.held[n].first, w.held[n].first + w.held[n].pages - 1);
    }
  }

  ghost predicate SameHeader(a: map<Place, Header>, b: map<Place, Header>, x: Place) {
    (x in b <==> x in a) && (x in a ==> b[x] == a[x])
  }

  lemma {:induction false} HalveHeaders(s: Pool, i: nat, x: Place)
    requires i < |s.lists| && s.busy != [] && s.busy[|s.busy| - 1].place in s.headers
    requires x.page != s.busy[|s.busy| - 1].place.page
    ensures SameHeader(s.headers, Halve(s, i).headers, x)
  {
  }

  /** The pool writes headers only into pages it has carved. */
  lemma {:induction false} AllocHeaders(s: Pool, i: nat, page: nat, x: Place)
    requires PoolOk(s) && i <= MAX_POOL_INDEX && x.page !in s.carved
      && (NeedsPage(s.lists, i) ==> page !in s.carved && x.page != page)
    ensures SameHeader(s.headers, AllocByIndex(s, i, page).headers, x)
    decreases MAX_POOL_INDEX - i
  {
    hide Tiled, Units, Halve;
    if i == MAX_POOL_INDEX {
    } else if s.lists[i] != [] {
      assert FreeOk(s.lists[i][0], i, s.headers, s.carved);
    } else {
      AllocHeaders(s, i + 1, page, x);
      AllocKeeps(s, i + 1, page);
      var r := AllocByIndex(s, i + 1, page);
      assert BusyOk(r.busy[|s.busy|], r.headers, r.carved);
      HalveHeaders(r, i, x);
    }
  }

  lemma {:induction false} LargeKeeps(x: P.Block, held: seq<P.Block>, s: Pool, held': seq<P.Block>, i: nat, page: nat)
    requires LargeOk(x, held, s.headers, s.carved) && PoolOk(s) && i <= MAX_POOL_INDEX
    requires NeedsPage(s.lists, i) ==> page !in s.carved && forall y :: y in held ==> !y.Meets(page, page)
    requires forall y :: y in held ==> y in held'
    ensures var r := AllocByIndex(s, i, page); LargeOk(x, held', r.headers, r.carved)
  {
    assert x.first !in s.carved by {
      assert x.Meets(x.first, x.first);
    }
    assert NeedsPage(s.lists, i) ==> x.first != page;
    hide PoolOk;
    AllocHeaders(s, i, page, Place(x.first, 0));
  }

  lemma {:induction false} FreshNotCarved(carved: set<nat>, held: seq<P.Block>, page: nat)
    requires Backed(carved, held) && Fresh(held, page, 1)
    ensures page !in carved
  {
    assert page in carved ==> Carved(page) in held && Carved(page).Meets(page, page);
  }

  lemma {:induction false} BackedGrows(carved: set<nat>, held: seq<P.Block>, carved': set<nat>, held': seq<P.Block>,
                                       page: nat)
    requires Backed(carved, held) && (forall x :: x in held ==> x in held')
    requires carved' == carved || (carved' == carved + {page} && Carved(page) in held')
    ensures Backed(carved', held')
  {
  }

  lemma {:induction false} LargesKeep(large: seq<P.Block>, held: seq<P.Block>, s: Pool, held': seq<P.Block>, i: nat,
                                      page: nat)
    requires LargesOk(large, held, s.headers, s.carved) && PoolOk(s) && i <= MAX_POOL_INDEX
    requires NeedsPage(s.lists, i) ==> page !in s.carved && forall y :: y in held ==> !y.Meets(page, page)
    requires forall y :: y in held ==> y in held'
    ensures var r := AllocByIndex(s, i, page); LargesOk(large, held', r.headers, r.carved)
  {
    hide Tiled, AllFreeOk, AllBusyOk, AllocByIndex, NeedsPage, LargeOk;
    forall k | 0 <= k < |large|
      ensures LargeOk(large[k], held', AllocByIndex(s, i, page).headers, AllocByIndex(s, i, page).carved)
    {
      LargeKeeps(large[k], held, s, held', i, page);
    }
  }

  lemma {:induction false} PoolGrows(h: Heap, w: P.World, i: nat, page: nat)
    requires HeapOk(h) && P.WorldOk(w) && i <= MAX_POOL_INDEX && (forall x :: x in h.w.held ==> x in w.held)
    requires NeedsPage(h.pool.lists, i) ==> Carved(page) in w.held && Fresh(h.w.held, page, 1)
    ensures HeapOk(Heap(w, AllocByIndex(h.pool, i, page), h.large))
  {
    hide Tiled, AllFreeOk, AllBusyOk, P.WorldOk, AllocByIndex, LargesOk, NeedsPage, Backed, Apart;
    if NeedsPage(h.pool.lists, i) {
      FreshNotCarved(h.pool.carved, h.w.held, page);
    }
    AllocKeeps(h.pool, i, page);
    var r := AllocByIndex(h.pool, i, page);
    BackedGrows(h.pool.carved, h.w.held, r.carved, w.held, page);
    LargesKeep(h.large, h.w.held, h.pool, w.held, i, page);
  }

  lemma {:induction false} AllocBlockKeeps(h: Heap, i: nat)
    requires HeapOk(h) && i <= MAX_POOL_INDEX && AllocBlock(h, i).Some?
    ensures HeapOk(AllocBlock(h, i).value.1)
  {
    hide HeapOk, P.WorldOk, AllocByIndex, NeedsPage, TakePages;
    HeapParts(h);
    if NeedsPage(h.pool.lists, i) {
      TakePagesFresh(h.w, RuntimeData, 1);
      var (status, page, w) := TakePages(h.w, RuntimeData, 1).value;
      if status == P.Success {
        PoolGrows(h, w, i, page);
      }
    } else {
      PoolGrows(h, h.w, i, 0);
    }
  }

  lemma {:induction false} HeapParts(h: Heap)
    requires HeapOk(h)
    ensures P.WorldOk(h.w) && PoolOk(h.pool) && |h.pool.lists| == MAX_POOL_INDEX
  {
    hide P.WorldOk, Tiled;
  }

  // ---------- buffers of whole pages ----------

  function PagesFor(bytes: nat): nat {
    (bytes + PAGE_SIZE - 1) / PAGE_SIZE
  }

  /** A request too large for the pool takes pages and marks their start. */
  function AllocLarge(h: Heap, typ: MemType, n: nat): Option<(P.Status, Heap)>
    requires P.WorldOk(h.w) && n > 0
  {
    match TakePages(h.w, typ, n)
    case None => None
    case Some((status, page, w)) =>
      if status != P.Success then Some((status, h))
      else
        var x := P.Block(page, n, typ, false);
        Some((P.Success, Heap(w, h.pool.(headers := h.pool.headers[Place(page, 0) := LargeHeader(x)]), h.large + [x])))
  }

  lemma {:induction false} FreshNotLarge(large: seq<P.Block>, held: seq<P.Block>, s: Pool, x: P.Block)
    requires LargesOk(large, held, s.headers, s.carved) && Apart(large) && Fresh(held, x.first, x.pages) && x.pages > 0
    ensures Apart(large + [x]) && forall i :: 0 <= i < |large| ==> large[i].first != x.first
  {
    forall i | 0 <= i < |large| ensures !large[i].Meets(x.first, x.first + x.pages - 1) {
      assert LargeOk(large[i], held, s.headers, s.carved);
    }
    forall i | 0 <= i < |large| ensures large[i].first != x.first {
      assert LargeOk(large[i], held, s.headers, s.carved) && !large[i].Meets(x.first, x.first + x.pages - 1);
    }
    hide LargeOk;
  }

  lemma {:induction false} LargesGrow(large: seq<P.Block>, held: seq<P.Block>, s: Pool, held': seq<P.Block>, x: P.Block)
    requires LargesOk(large, held, s.headers, s.carved) && (forall y :: y in held ==> y in held') && x in held'
    requires Backed(s.carved, held) && Fresh(held, x.first, x.pages) && x.pages > 0 && !x.descriptor
    requires forall i :: 0 <= i < |large| ==> large[i].first != x.first
    ensures LargesOk(large + [x], held', s.headers[Place(x.first, 0) := LargeHeader(x)], s.carved)
  {
    forall p | p in s.carved ensures !x.Meets(p, p) {
      assert Carved(p) in held && !Carved(p).Meets(x.first, x.first + x.pages - 1);
    }
    forall i | 0 <= i < |large|
      ensures LargeOk(large[i], held', s.headers[Place(x.first, 0) := LargeHeader(x)], s.carved)
    {
      assert LargeOk(large[i], held, s.headers, s.carved);
    }
  }

  /** A header outside the carved pages is no concern of the pool. */
  lemma {:induction false} OtherHeader(s: Pool, x: Place, v: Header)
    requires PoolOk(s) && x.page !in s.carved
    ensures PoolOk(s.(headers := s.headers[x := v]))
  {
    var r := s.(headers := s.headers[x := v]);
    forall p: nat, u: nat | u < PAGE_UNITS ensures Count(r, p, u) == if p in r.carved then 1 else 0 {
      assert Count(s, p, u) == if p in s.carved then 1 else 0;
    }
    hide Tiled;
    forall c, k | 0 <= c < |s.lists| && 0 <= k < |s.lists[c]| ensures FreeOk(s.lists[c][k], c, r.headers, s.carved) {
      assert FreeOk(s.lists[c][k], c, s.headers, s.carved);
    }
    forall k | 0 <= k < |s.busy| ensures BusyOk(s.busy[k], r.headers, s.carved) {
      assert BusyOk(s.busy[k], s.headers, s.carved);
    }
  }

  lemma {:induction false} AllocLargeKeeps(h: Heap, typ: MemType, n: nat)
    requires HeapOk(h) && n > 0 && AllocLarge(h, typ, n).Some?
    ensures HeapOk(AllocLarge(h, typ, n).value.1)
  {
    hide P.WorldOk, TakePages, PoolOk, Backed, LargesOk, Apart;
    TakePagesFresh(h.w, typ, n);
    var (status, page, w) := TakePages(h.w, typ, n).value;
    if status == P.Success {
      var x := P.Block(page, n, typ, false);
      BackedGrows(h.pool.carved, h.w.held, h.pool.carved, w.held, 0);
      FreshNotLarge(h.large, h.w.held, h.pool, x);
      LargesGrow(h.large, h.w.held, h.pool, w.held, x);
      FreshPage(h.pool.carved, h.w.held, page, n);
      OtherHeader(h.pool, Place(page, 0), LargeHeader(x));
    }
  }

  lemma {:induction false} FreshPage(carved: set<nat>, held: seq<P.Block>, page: nat, n: nat)
    requires Backed(carved, held) && Fresh(held, page, n) && n > 0
    ensures page !in carved
  {
    assert page in carved ==> Carved(page) in held && Carved(page).Meets(page, page + n - 1);
  }

  // ---------- MmInternalAllocatePool ----------

  /** None: the page allocator halts, or the size wraps to nothing and the code asserts. */
  function AllocatePool(h: Heap, typ: MemType, size: nat): Option<(P.Status, Heap)>
    requires P.WorldOk(h.w) && |h.pool.lists| == MAX_POOL_INDEX
  {
    if typ != RuntimeCode && typ != RuntimeData then Some((P.InvalidParameter, h))
    else
      var n := WithHeader(size);
      if n > MAX_POOL_SIZE then AllocLarge(h, typ, PagesFor(n))
      else
        var i := PoolIndex(n);
        if i < 0 then None
        else
          PoolIndexInRange(n);
          AllocBlock(h, i)
  }

  lemma {:induction false} PoolIndexInRange(n: nat)
    requires n <= MAX_POOL_SIZE
    ensures PoolIndex(n) < MAX_POOL_INDEX && (n == 0 <==> PoolIndex(n) < 0)
  {
    if n > 0 {
      PoolIndexIsSmallest(n);
    }
  }

  /** Allocating a buffer of any type and size keeps everything in order. */
  lemma {:induction false} AllocatePoolKeeps(h: Heap, typ: MemType, size: nat)
    requires HeapOk(h) && AllocatePool(h, typ, size).Some?
    ensures HeapOk(AllocatePool(h, typ, size).value.1)
  {
    HeapParts(h);
    hide HeapOk, P.WorldOk, PoolOk, AllocBlock, AllocLarge, PoolIndex, PagesFor, WithHeader;
    if typ == RuntimeCode || typ == RuntimeData {
      var n := WithHeader(size);
      if n > MAX_POOL_SIZE {
        assert PagesFor(n) > 0 by {
          PagesPositive(n);
        }
        AllocLargeKeeps(h, typ, PagesFor(n));
      } else if PoolIndex(n) >= 0 {
        PoolIndexInRange(n);
        AllocBlockKeeps(h, PoolIndex(n));
      }
    }
  }

  lemma {:induction false} PagesPositive(n: nat)
    requires n > 0
    ensures PagesFor(n) > 0 && n <= PAGE_SIZE * PagesFor(n) < n + PAGE_SIZE
  {
  }

  /** The bytes of the buffer last allocated, header included. */
  function LastBytes(h: Heap, r: Heap): nat {
    if |r.large| > |h.large| then PAGE_SIZE * r.large[|r.large| - 1].pages
    else if r.pool.busy != [] then MIN_POOL_SIZE * Units(r.pool.busy[|r.pool.busy| - 1].class_)
    else 0
  }

  lemma {:induction false} AllocBlockLast(h: Heap, i: nat)
    requires P.WorldOk(h.w) && |h.pool.lists| == MAX_POOL_INDEX && i <= MAX_POOL_INDEX
    requires AllocBlock(h, i).Some? && AllocBlock(h, i).value.0 == P.Success
    ensures LastBytes(h, AllocBlock(h, i).value.1) == MIN_POOL_SIZE * Units(i)
      && AllocBlock(h, i).value.1.large == h.large
    ensures var bs := AllocBlock(h, i).value.1.pool.busy; bs != [] && bs[|bs| - 1].class_ == i
  {
    hide P.WorldOk, AllocByIndex, TakePages, NeedsPage, Units;
  }

  lemma {:induction false} AllocLargeLast(h: Heap, typ: MemType, n: nat)
    requires P.WorldOk(h.w) && n > 0 && AllocLarge(h, typ, n).Some? && AllocLarge(h, typ, n).value.0 == P.Success
    ensures LastBytes(h, AllocLarge(h, typ, n).value.1) == PAGE_SIZE * n
    ensures |AllocLarge(h, typ, n).value.1.large| > |h.large|
  {
    hide P.WorldOk, TakePages, Units;
  }

  lemma {:induction false} WithHeaderIs(size: nat)
    requires size < WORD
    ensures WithHeader(size) == if size + HEADER_SIZE < WORD then size + HEADER_SIZE else size + HEADER_SIZE - WORD
  {
  }

  /** A buffer from the pool holds what was asked for and its header exactly when their sum is a
      UINTN, and is then the smallest block that does. */
  lemma {:induction false} BlockHolds(h: Heap, typ: MemType, size: nat)
    requires P.WorldOk(h.w) && |h.pool.lists| == MAX_POOL_INDEX && size < WORD && WithHeader(size) <= MAX_POOL_SIZE
    requires AllocatePool(h, typ, size).Some? && AllocatePool(h, typ, size).value.0 == P.Success
    ensures var r := AllocatePool(h, typ, size).value.1;
      && r.large == h.large && r.pool.busy != []
      && (size + HEADER_SIZE <= LastBytes(h, r) <==> size + HEADER_SIZE < WORD)
      && (size + HEADER_SIZE < WORD ==>
            forall c: nat :: c < r.pool.busy[|r.pool.busy| - 1].class_ ==>
              MIN_POOL_SIZE * Units(c) < size + HEADER_SIZE)
  {
    var n := WithHeader(size);
    WithHeaderIs(size);
    PoolIndexInRange(n);
    PoolIndexIsSmallest(n);
    UnitsBelow(PoolIndex(n), MAX_POOL_INDEX);
    UnitsTable();
    hide P.WorldOk, AllocBlock, LastBytes, PoolIndex, Units, WithHeader, AllocLarge;
    AllocBlockLast(h, PoolIndex(n));
  }

  /** A buffer of whole pages always holds them, with less than a page to spare. */
  lemma {:induction false} PagesHold(h: Heap, typ: MemType, size: nat)
    requires P.WorldOk(h.w) && |h.pool.lists| == MAX_POOL_INDEX && size < WORD && WithHeader(size) > MAX_POOL_SIZE
    requires AllocatePool(h, typ, size).Some? && AllocatePool(h, typ, size).value.0 == P.Success
    ensures var r := AllocatePool(h, typ, size).value.1;
      |r.large| > |h.large| && size + HEADER_SIZE <= LastBytes(h, r) < size + HEADER_SIZE + PAGE_SIZE
  {
    var n := WithHeader(size);
    WithHeaderIs(size);
    PagesPositive(n);
    hide P.WorldOk, PagesFor, LastBytes, WithHeader, AllocLarge, AllocBlock;
    AllocLargeLast(h, typ, PagesFor(n));
  }

  // ---------- MmInternalFreePool ----------

  /** Giving a buffer of whole pages back. */
  function FreeLarge(h: Heap, j: nat): Option<(P.Status, Heap)>
    requires P.WorldOk(h.w) && j < |h.large| && F.NodeOk(F.Node(h.large[j].first, h.large[j].pages))
    requires P.Owned(h.w, h.large[j].first, h.large[j].pages)
  {
    var x := h.large[j];
    P.SyncedIsWellFormed(h.w.s);
    match P.ReleasePages(h.w.s, x.first, x.pages)
    case None => None
    case Some((status, _)) =>
      var w := P.Step(h.w, P.Release(x.first, x.pages)).value;
      Some((status, Heap(w, h.pool, if status == P.Success then h.large[..j] + h.large[j + 1..] else h.large)))
  }

  lemma {:induction false} LargeOwned(h: Heap, j: nat)
    requires HeapOk(h) && j < |h.large|
    ensures F.NodeOk(F.Node(h.large[j].first, h.large[j].pages)) && P.Owned(h.w, h.large[j].first, h.large[j].pages)
  {
    var x := h.large[j];
    assert LargeOk(x, h.w.held, h.pool.headers, h.pool.carved);
    var i :| 0 <= i < |h.w.held| && h.w.held[i] == x;
    assert P.OwnedBy(h.w.held[i], x.first, x.pages);
    P.EntriesInRange(h.w.s.mem.m);
    assert P.BlockOk(h.w.s.mem.m, h.w.held[i]);
  }

  /** Releasing a whole block takes that block back, and no other. */
  lemma {:induction false} ReleaseWhole(m: seq<Entry>, held: seq<P.Block>, x: P.Block)
    requires P.HeldOk(m, held) && x in held && !x.descriptor
    ensures forall y :: y in held && y != x ==> y in P.AfterRelease(held, x.first, x.pages)
  {
    var k :| 0 <= k < |held| && held[k] == x;
    assert P.OwnedBy(held[k], x.first, x.pages);
    var i := P.OwnerIndex(held, x.first, x.pages);
    assert P.BlockOk(m, held[k]) && P.BlockOk(m, held[i]);
    assert i == k && P.Cut(held[i], x.first, x.pages) == [];
    var r := P.AfterRelease(held, x.first, x.pages);
    assert r == held[..i] + held[i + 1..];
    forall y | y in held && y != x ensures y in r {
      var q :| 0 <= q < |held| && held[q] == y;
      assert r[if q < i then q else q - 1] == y;
    }
  }

  lemma {:induction false} BackedStays(carved: set<nat>, held: seq<P.Block>, held': seq<P.Block>, x: P.Block)
    requires Backed(carved, held) && (forall y :: y in held && y != x ==> y in held') && forall p :: p in carved ==>
      !x.Meets(p, p)
    ensures Backed(carved, held')
  {
    forall p | p in carved ensures Carved(p) in held' {
      assert Carved(p).Meets(p, p);
    }
  }

  lemma {:induction false} LargesStay(large: seq<P.Block>, held: seq<P.Block>, held': seq<P.Block>, headers: map<Place,
                                      Header>, carved: set<nat>, j: nat)
    requires LargesOk(large, held, headers, carved) && Apart(large) && j < |large|
    requires forall y :: y in held && y != large[j] ==> y in held'
    ensures LargesOk(large[..j] + large[j + 1..], held', headers, carved) && Apart(large[..j] + large[j + 1..])
  {
    var r := large[..j] + large[j + 1..];
    assert forall i :: 0 <= i < |r| ==> r[i] == large[if i < j then i else i + 1];
    forall i | 0 <= i < |r| ensures LargeOk(r[i], held', headers, carved) {
      var k := if i < j then i else i + 1;
      assert LargeOk(large[k], held, headers, carved) && LargeOk(large[j], held, headers, carved);
      var a, b := if k < j then k else j, if k < j then j else k;
      assert !large[a].Meets(large[b].first, large[b].first + large[b].pages - 1);
    }
    hide LargeOk;
  }

  lemma {:induction false} FreeLargeWorld(w: P.World, x: P.Block)
    requires P.WorldOk(w) && x in w.held && !x.descriptor
    requires F.NodeOk(F.Node(x.first, x.pages)) && P.Owned(w, x.first, x.pages)
    requires P.Step(w, P.Release(x.first, x.pages)).Some?
    ensures var w' := P.Step(w, P.Release(x.first, x.pages)).value;
      P.WorldOk(w') && forall y :: y in w.held && y != x ==> y in w'.held
  {
    P.ReleaseStepKeeps(w, x.first, x.pages);
    ReleaseWhole(w.s.mem.m, w.held, x);
    hide P.WorldOk, P.Owned, P.AfterRelease, F.NodeOk;
    ReleaseHeld(w, x.first, x.pages);
  }

  /** What a release by an owner leaves of the blocks. */
  lemma {:induction false} ReleaseHeld(w: P.World, p: nat, n: nat)
    requires P.WorldOk(w) && F.NodeOk(F.Node(p, n)) && P.Owned(w, p, n) && P.Step(w, P.Release(p, n)).Some?
    ensures forall y :: y in P.AfterRelease(w.held, p, n) ==> y in P.Step(w, P.Release(p, n)).value.held
  {
    P.SyncedIsWellFormed(w.s);
    ReleaseSteps(w, p, n);
    hide P.WorldOk, P.Owned, P.ReleasePages, P.AfterRelease, F.NodeOk, F.WellFormed;
  }

  lemma {:induction false} FreeLargeIs(h: Heap, j: nat)
    requires P.WorldOk(h.w) && j < |h.large| && F.NodeOk(F.Node(h.large[j].first, h.large[j].pages))
    requires P.Owned(h.w, h.large[j].first, h.large[j].pages) && FreeLarge(h, j).Some?
    ensures var x := h.large[j];
      && P.Step(h.w, P.Release(x.first, x.pages)).Some?
      && FreeLarge(h, j).value ==
        (P.Success, Heap(P.Step(h.w, P.Release(x.first, x.pages)).value, h.pool, h.large[..j] + h.large[j + 1..]))
  {
    P.WorldIsSynced(h.w);
    P.SyncedIsWellFormed(h.w.s);
    ReleaseSteps(h.w, h.large[j].first, h.large[j].pages);
    hide P.WorldOk, P.Owned, P.ReleasePages, P.AfterRelease, P.RefuelBlocks;
  }

  /** Freeing a buffer of whole pages is always accepted, and keeps everything in order. */
  lemma {:induction false} FreeLargeKeeps(h: Heap, j: nat)
    requires HeapOk(h) && j < |h.large|
    ensures F.NodeOk(F.Node(h.large[j].first, h.large[j].pages)) && P.Owned(h.w, h.large[j].first, h.large[j].pages)
    ensures FreeLarge(h, j).Some? ==> FreeLarge(h, j).value.0 == P.Success && HeapOk(FreeLarge(h, j).value.1)
  {
    LargeOwned(h, j);
    var x := h.large[j];
    assert LargeOk(x, h.w.held, h.pool.headers, h.pool.carved) && P.WorldOk(h.w);
    if FreeLarge(h, j).Some? {
      hide P.WorldOk, PoolOk, Backed, LargesOk, Apart, P.Owned, FreeLarge, P.Step, F.NodeOk;
      FreeLargeIs(h, j);
      FreeLargeWorld(h.w, x);
      var w := P.Step(h.w, P.Release(x.first, x.pages)).value;
      BackedStays(h.pool.carved, h.w.held, w.held, x);
      LargesStay(h.large, h.w.held, w.held, h.pool.headers, h.pool.carved, j);
    }
  }

  /** A release by an owner that does not halt is accepted. */
  lemma {:induction false} ReleaseSteps(w: P.World, p: nat, n: nat)
    requires P.WorldOk(w) && F.NodeOk(F.Node(p, n)) && P.Owned(w, p, n)
    ensures P.Step(w, P.Release(p, n)).Some? ==> P.ReleasePages(w.s, p, n).value.0 == P.Success
  {
    P.SyncedIsWellFormed(w.s);
    hide P.FreeStack, P.FreeRaw, P.Synced, P.HeldOk, P.HeldPages, F.TotalPages, P.AfterRelease, P.RefuelBlocks;
    assert P.OwnerIndex(w.held, p, n) < |w.held|;
    P.ReleaseKeeps(w.s, w.held, p, n);
  }

  /** Buffers in use never share memory: not two blocks, not two runs of pages, not a block and a
      run of pages. */
  lemma {:induction false} BuffersApart(h: Heap, p: nat, u: nat)
    requires HeapOk(h) && u < PAGE_UNITS
    ensures forall j, k :: 0 <= j < k < |h.pool.busy| ==>
      !(Covers(h.pool.busy[j].place, h.pool.busy[j].class_, p, u)
        && Covers(h.pool.busy[k].place, h.pool.busy[k].class_, p, u))
    ensures forall j, k :: 0 <= j < |h.pool.busy| && 0 <= k < |h.large| ==>
      !(Covers(h.pool.busy[j].place, h.pool.busy[j].class_, p, u) && h.large[k].Meets(p, p))
    ensures forall j, k :: 0 <= j < k < |h.large| ==> !(h.large[j].Meets(p, p) && h.large[k].Meets(p, p))
  {
    hide P.WorldOk, Tiled;
    forall j | 0 <= j < |h.pool.busy| && Covers(h.pool.busy[j].place, h.pool.busy[j].class_, p, u)
      ensures p in h.pool.carved && forall k :: 0 <= k < |h.pool.busy| && k != j ==>
        !Covers(h.pool.busy[k].place, h.pool.busy[k].class_, p, u)
    {
      BlocksApart(h.pool, j, p, u);
      assert BusyOk(h.pool.busy[j], h.pool.headers, h.pool.carved);
    }
    forall k | 0 <= k < |h.large| ensures p in h.pool.carved ==> !h.large[k].Meets(p, p) {
      assert LargeOk(h.large[k], h.w.held, h.pool.headers, h.pool.carved);
    }
  }

  lemma {:induction false} FreeHeader(s: Pool, k: nat, x: Place)
    requires PoolOk(s) && k < |s.busy| && s.busy[k].class_ < MAX_POOL_INDEX && x.page !in s.carved
    ensures s.busy[k].place in s.headers && ClassOf(s.headers[s.busy[k].place].size) == s.busy[k].class_
    ensures SameHeader(s.headers, Free(s, k).headers, x) && Free(s, k).carved == s.carved
  {
    FreeKeeps(s, k);
    assert BusyOk(s.busy[k], s.headers, s.carved);
    hide ClassOf;
  }

  /** Freeing a block keeps everything in order. */
  lemma {:induction false} FreeBlockKeeps(h: Heap, k: nat)
    requires HeapOk(h) && k < |h.pool.busy| && h.pool.busy[k].class_ < MAX_POOL_INDEX
    ensures h.pool.busy[k].place in h.pool.headers
    ensures ClassOf(h.pool.headers[h.pool.busy[k].place].size) == h.pool.busy[k].class_
    ensures HeapOk(h.(pool := Free(h.pool, k)))
  {
    FreeKeeps(h.pool, k);
    hide P.WorldOk, Tiled, AllFreeOk, AllBusyOk, Free, ClassOf, Backed, Apart;
    assert Free(h.pool, k).carved == h.pool.carved by {
      FreeCarved(h.pool, k);
    }
    forall i | 0 <= i < |h.large| ensures LargeOk(h.large[i], h.w.held, Free(h.pool, k).headers, h.pool.carved) {
      var x := h.large[i];
      assert LargeOk(x, h.w.held, h.pool.headers, h.pool.carved);
      assert x.Meets(x.first, x.first);
      FreeHeader(h.pool, k, Place(x.first, 0));
    }
  }

  lemma {:induction false} FreeCarved(s: Pool, k: nat)
    requires k < |s.busy| && s.busy[k].place in s.headers && ClassOf(s.headers[s.busy[k].place].size) < |s.lists|
    ensures Free(s, k).carved == s.carved
  {
  }

  /** Every buffer from the pool is smaller than a page. */
  ghost predicate Settled(h: Heap) {
    forall k :: 0 <= k < |h.pool.busy| ==> h.pool.busy[k].class_ < MAX_POOL_INDEX
  }

  ghost predicate InUse(h: Heap, x: Place, large: bool, k: nat) {
    HeapOk(h) &&
    if large then k < |h.large| && x == Place(h.large[k].first, 0)
    else k < |h.pool.busy| && h.pool.busy[k].class_ < MAX_POOL_INDEX && x == h.pool.busy[k].place
  }

  /** MmInternalFreePool on a buffer in use. None: the page allocator halts. */
  ghost function FreeBuffer(h: Heap, x: Place, large: bool, k: nat): Option<Heap>
    requires InUse(h, x, large, k)
  {
    if large then
      FreeLargeKeeps(h, k);
      if FreeLarge(h, k).None? then None else Some(FreeLarge(h, k).value.1)
    else
      FreeBlockKeeps(h, k);
      Some(h.(pool := Free(h.pool, k)))
  }

  lemma {:induction false} FreeBufferLarge(h: Heap, x: Place, k: nat)
    requires HeapOk(h) && k < |h.large| && x == Place(h.large[k].first, 0)
    ensures F.NodeOk(F.Node(h.large[k].first, h.large[k].pages)) && P.Owned(h.w, h.large[k].first, h.large[k].pages)
    ensures P.WorldOk(h.w) && InUse(h, x, true, k)
    ensures FreeBuffer(h, x, true, k) == if FreeLarge(h, k).None? then None else Some(FreeLarge(h, k).value.1)
  {
    FreeLargeKeeps(h, k);
    HeapParts(h);
    hide HeapOk, FreeLarge;
  }

  lemma {:induction false} ByteAddress(p: nat)
    ensures p * PAGE_SIZE / PAGE_SIZE == p && p * PAGE_SIZE % PAGE_SIZE == 0
  {
  }

  lemma {:induction false} FreeLargeParts(h: Heap, j: nat)
    requires HeapOk(h) && j < |h.large|
    ensures F.NodeOk(F.Node(h.large[j].first, h.large[j].pages)) && P.Owned(h.w, h.large[j].first, h.large[j].pages)
    ensures F.WellFormed(h.w.s.free) && h.w.s.mem.depth == 0
    ensures var x := h.large[j]; var r := P.ReleasePages(h.w.s, x.first, x.pages);
      && (FreeLarge(h, j).None? <==> r.None?)
      && (Settled(h) && r.Some? ==> Settled(FreeLarge(h, j).value.1))
      && (r.Some? ==> r.value.0 == P.Success && r.value.1.s.mem.depth == 0 && FreeLarge(h, j).value.1.w.s == r.value.1.s
                      && FreeLarge(h, j).value.1.pool == h.pool)
  {
    FreeLargeKeeps(h, j);
    HeapParts(h);
    hide HeapOk, P.Owned, F.NodeOk, Settled;
    WorldDepth(h.w);
    P.WorldIsSynced(h.w);
    P.SyncedIsWellFormed(h.w.s);
    ReleaseSteps(h.w, h.large[j].first, h.large[j].pages);
    FreeLargeResult(h, j);
  }

  lemma {:induction false} FreeLargeResult(h: Heap, j: nat)
    requires P.WorldOk(h.w) && F.WellFormed(h.w.s.free) && h.w.s.mem.depth == 0
    requires j < |h.large| && F.NodeOk(F.Node(h.large[j].first, h.large[j].pages))
    requires P.Owned(h.w, h.large[j].first, h.large[j].pages)
    requires P.Step(h.w, P.Release(h.large[j].first, h.large[j].pages)).Some? ==>
      P.ReleasePages(h.w.s, h.large[j].first, h.large[j].pages).value.0 == P.Success
    ensures var x := h.large[j]; var r := P.ReleasePages(h.w.s, x.first, x.pages);
      && (FreeLarge(h, j).None? <==> r.None?)
      && (Settled(h) && r.Some? ==> Settled(FreeLarge(h, j).value.1))
      && (r.Some? ==> r.value.0 == P.Success && r.value.1.s.mem.depth == 0 && FreeLarge(h, j).value.1.w.s == r.value.1.s
                      && FreeLarge(h, j).value.1.pool == h.pool)
  {
    if FreeLarge(h, j).Some? {
      P.ReleaseStepKeeps(h.w, h.large[j].first, h.large[j].pages);
      WorldDepth(P.Step(h.w, P.Release(h.large[j].first, h.large[j].pages)).value);
    }
    hide P.WorldOk, P.Owned, P.ReleasePages, P.AfterRelease, F.NodeOk, F.WellFormed;
  }

  /** A header larger than a block says that the buffer is whole pages, and how many. */
  lemma {:induction false} HeaderTells(h: Heap, x: Place, large: bool, k: nat)
    requires InUse(h, x, large, k)
    ensures x in h.pool.headers
    ensures large <==> h.pool.headers[x].size > MAX_POOL_SIZE / MIN_POOL_SIZE
    ensures large ==> h.pool.headers[x].size / PAGE_UNITS == h.large[k].pages
  {
    if large {
      assert LargeOk(h.large[k], h.w.held, h.pool.headers, h.pool.carved);
    } else {
      var b := h.pool.busy[k];
      assert BusyOk(b, h.pool.headers, h.pool.carved);
      if b.class_ < MAX_POOL_INDEX - 1 {
        UnitsGrow(b.class_, MAX_POOL_INDEX - 1);
      }
      UnitsTable();
    }
  }

  lemma {:induction false} WorldDepth(w: P.World)
    requires P.WorldOk(w)
    ensures w.s.mem.depth == 0
  {
  }

  lemma {:induction false} AllocLargeIs(h: Heap, typ: MemType, n: nat)
    requires P.WorldOk(h.w) && n > 0
    ensures var t := TakePages(h.w, typ, n);
      && (AllocLarge(h, typ, n).None? <==> t.None?)
      && (t.Some? && t.value.0 != P.Success ==> AllocLarge(h, typ, n) == Some((t.value.0, h)))
      && (t.Some? && t.value.0 == P.Success ==> AllocLarge(h, typ, n) == Some((P.Success,
            Heap(t.value.2, h.pool.(headers := h.pool.headers[Place(t.value.1, 0) := Header(PAGE_UNITS * n, false)]),
                 h.large + [P.Block(t.value.1, n, typ, false)]))))
  {
    hide P.WorldOk, TakePages;
  }

  lemma {:induction false} AllocLargeParts(h: Heap, typ: MemType, n: nat)
    requires P.WorldOk(h.w) && n > 0 && AllocLarge(h, typ, n).Some?
    ensures var (status, r) := AllocLarge(h, typ, n).value;
      && r.pool.busy == h.pool.busy && (Settled(h) ==> Settled(r))
      && (status == P.Success ==> |r.large| > |h.large|)
  {
    hide P.WorldOk, TakePages;
  }

  lemma {:induction false} AllocBlockParts(h: Heap, i: nat)
    requires P.WorldOk(h.w) && |h.pool.lists| == MAX_POOL_INDEX && i < MAX_POOL_INDEX && AllocBlock(h, i).Some?
    ensures var (status, r) := AllocBlock(h, i).value;
      && r.large == h.large && (Settled(h) ==> Settled(r))
      && (status == P.Success ==> r.pool.busy != [])
  {
    hide P.WorldOk, TakePages, AllocByIndex, NeedsPage;
    var (status, r) := AllocBlock(h, i).value;
    if status == P.Success {
      assert r.pool.busy[..|h.pool.busy|] == h.pool.busy;
      forall k | Settled(h) && 0 <= k < |r.pool.busy| ensures r.pool.busy[k].class_ < MAX_POOL_INDEX {
        if k < |h.pool.busy| {
          assert r.pool.busy[k] == h.pool.busy[k];
        }
      }
    }
  }

  ghost predicate LastPlace(s: Pool, x: Place) {
    s.busy != [] && x == s.busy[|s.busy| - 1].place && x in s.headers
  }

  lemma {:induction false} LastIsLast(s: Pool, x: Place)
    requires LastPlace(s, x)
    ensures s.busy != [] && x == s.busy[|s.busy| - 1].place && x in s.headers
  {
  }

  lemma {:induction false} AllocBlockTop(h: Heap)
    requires P.WorldOk(h.w) && |h.pool.lists| == MAX_POOL_INDEX
    ensures var t := TakePages(h.w, RuntimeData, PagesFor(MAX_POOL_SIZE * 2));
      AllocBlock(h, MAX_POOL_INDEX) ==
        if t.None? then None
        else if t.value.0 == P.Success then Some((P.Success, Heap(t.value.2, Carve(h.pool, t.value.1), h.large)))
        else Some((P.OutOfResources, h))
    ensures var t := TakePages(h.w, RuntimeData, PagesFor(MAX_POOL_SIZE * 2));
      t.Some? && t.value.0 != P.Success ==> t.value.2 == h.w
  {
    assert PagesFor(MAX_POOL_SIZE * 2) == 1;
    hide P.WorldOk, TakePages, Carve, AllocByIndex, NeedsPage, PagesFor;
    var t := TakePages(h.w, RuntimeData, 1);
    if t.Some? {
      TakePagesHeld(h.w, RuntimeData, 1);
      AllocTop(h.pool, t.value.1);
    } else {
      AllocTop(h.pool, 0);
    }
  }

  lemma {:induction false} AllocTop(s: Pool, page: nat)
    requires |s.lists| == MAX_POOL_INDEX
    ensures AllocByIndex(s, MAX_POOL_INDEX, page) == Carve(s, page) && NeedsPage(s.lists, MAX_POOL_INDEX)
  {
  }

  lemma {:induction false} AllocBlockFirst(h: Heap, i: nat)
    requires P.WorldOk(h.w) && |h.pool.lists| == MAX_POOL_INDEX && i < MAX_POOL_INDEX && h.pool.lists[i] != []
    ensures AllocBlock(h, i) == Some((P.Success, h.(pool := TakeFirst(h.pool, i))))
  {
    hide P.WorldOk, TakePages, TakeFirst;
  }

  lemma {:induction false} AllocBlockNext(h: Heap, i: nat)
    requires P.WorldOk(h.w) && |h.pool.lists| == MAX_POOL_INDEX && i < MAX_POOL_INDEX && h.pool.lists[i] == []
    ensures AllocBlock(h, i).None? <==> AllocBlock(h, i + 1).None?
    ensures AllocBlock(h, i).Some? ==> AllocBlock(h, i).value.0 == AllocBlock(h, i + 1).value.0
    ensures AllocBlock(h, i).Some? ==> var (status, r) := AllocBlock(h, i + 1).value;
      if status == P.Success
      then r.pool.busy != [] && r.pool.busy[|r.pool.busy| - 1].place in r.pool.headers
        && |r.pool.lists| == MAX_POOL_INDEX &&
           AllocBlock(h, i).value.1 == r.(pool := Halve(r.pool, i))
      else AllocBlock(h, i).value.1 == r
  {
    hide P.WorldOk, TakePages, Halve;
  }

  const NO_POOL: Pool := Pool([[], [], [], [], [], []], map[], [], {})

  lemma {:induction false} EmptyPool()
    ensures PoolOk(NO_POOL)
  {
    forall p: nat, u: nat ensures Count(NO_POOL, p, u) == 0 {
      NothingCounted(NO_POOL.lists, 0, p, u);
    }
  }

  lemma {:induction false} NothingCounted(lists: seq<seq<Place>>, c: nat, p: nat, u: nat)
    requires forall i :: 0 <= i < |lists| ==> lists[i] == []
    ensures CountLists(lists, c, p, u) == 0
    decreases |lists| - c
  {
    if c < |lists| {
      NothingCounted(lists, c + 1, p, u);
    }
  }

  // ---------- whole runs, with the page services used by others as well ----------

  /** A call of the pool, or a call of the page services by somebody else. */
  datatype HeapAction =
    | AllocateBuffer(typ: MemType, size: nat)
    | FreeInUse(place: Place, large: bool, k: nat)
    | UsePages(a: P.Action)

  /** What a release by somebody else leaves alone: the carved pages and the buffers. */
  ghost predicate NotOurs(h: Heap, p: nat, n: nat) {
    && (forall q :: q in h.pool.carved ==> !Carved(q).Meets(p, p + n - 1))
    && (forall i :: 0 <= i < |h.large| ==> !h.large[i].Meets(p, p + n - 1))
  }

  /** What callers owe: a buffer freed is in use; pages released are not the pool's, or else the
      allocator refuses them. */
  ghost predicate HeapLegal(h: Heap, a: HeapAction) {
    match a
    case AllocateBuffer(_, _) => true
    case FreeInUse(place, large, k) => InUse(h, place, large, k)
    case UsePages(b) =>
      && P.Legal(h.w, b)
      && (b.Release? ==> F.Overlaps(h.w.s.free, b.page, b.pages) || NotOurs(h, b.page, b.pages))
  }

  /** One call. None: the machine halts. */
  ghost function HeapStep(h: Heap, a: HeapAction): Option<Heap>
    requires HeapOk(h) && HeapLegal(h, a)
  {
    HeapParts(h);
    match a
    case AllocateBuffer(typ, size) =>
      if AllocatePool(h, typ, size).None? then None else Some(AllocatePool(h, typ, size).value.1)
    case FreeInUse(place, large, k) => FreeBuffer(h, place, large, k)
    case UsePages(b) => if P.Step(h.w, b).None? then None else Some(h.(w := P.Step(h.w, b).value))
  }

  lemma {:induction false} LargesFollow(h: Heap, w: P.World)
    requires LargesOk(h.large, h.w.held, h.pool.headers, h.pool.carved)
    requires forall i :: 0 <= i < |h.large| ==> h.large[i] in w.held
    ensures LargesOk(h.large, w.held, h.pool.headers, h.pool.carved)
  {
    forall i | 0 <= i < |h.large| ensures LargeOk(h.large[i], w.held, h.pool.headers, h.pool.carved) {
      assert LargeOk(h.large[i], h.w.held, h.pool.headers, h.pool.carved);
    }
  }

  /** As long as the pool's pages stay handed out, all is in order. */
  lemma {:induction false} WorldFollows(h: Heap, w: P.World)
    requires HeapOk(h) && P.WorldOk(w)
    requires forall q :: q in h.pool.carved ==> Carved(q) in w.held
    requires forall i :: 0 <= i < |h.large| ==> h.large[i] in w.held
    ensures HeapOk(h.(w := w))
  {
    hide P.WorldOk, PoolOk, LargesOk, Apart;
    LargesFollow(h, w);
  }

  /** A release keeps every block it does not meet. */
  lemma {:induction false} ReleaseSpares(held: seq<P.Block>, p: nat, n: nat, y: P.Block)
    requires n > 0 && y in held && !y.Meets(p, p + n - 1)
    ensures y in P.AfterRelease(held, p, n)
  {
    var i := P.OwnerIndex(held, p, n);
    hide P.Cut;
    if i < |held| {
      assert held[i] != y;
      InOthers(held, i, P.Cut(held[i], p, n), y);
    }
  }

  lemma {:induction false} InOthers(held: seq<P.Block>, i: nat, mid: seq<P.Block>, y: P.Block)
    requires i < |held| && y in held && held[i] != y
    ensures y in held[..i] + mid + held[i + 1..]
  {
    var k :| 0 <= k < |held| && held[k] == y;
    var r := held[..i] + mid + held[i + 1..];
    if k < i {
      assert r[k] == y;
    } else {
      assert r[k - (i + 1) + i + |mid|] == y;
    }
  }

  lemma {:induction false} StepSpares(w: P.World, a: P.Action, y: P.Block)
    requires P.WorldOk(w) && P.Legal(w, a) && P.Step(w, a).Some? && y in w.held
    requires a.Release? ==> F.Overlaps(w.s.free, a.page, a.pages) || !y.Meets(a.page, a.page + a.pages - 1)
    ensures y in P.Step(w, a).value.held
  {
    P.SyncedIsWellFormed(w.s);
    if a.Release? {
      F.FreeRangeAccepts(w.s.free, a.page, a.pages);
      if !F.Overlaps(w.s.free, a.page, a.pages) {
        ReleaseSpares(w.held, a.page, a.pages, y);
      }
    }
    hide P.WorldOk, P.Synced, P.AllocRaw, P.FreeStack, P.AfterRelease, P.AddPagesAt, F.WellFormed, F.FreeRange;
  }

  /** Whatever others do with the page services, the pool stays in order. */
  lemma {:induction false} UsePagesKeeps(h: Heap, a: P.Action)
    requires HeapOk(h) && HeapLegal(h, UsePages(a)) && P.Step(h.w, a).Some?
    ensures HeapOk(h.(w := P.Step(h.w, a).value))
  {
    hide P.WorldOk, P.Legal, P.Step, PoolOk, Apart;
    P.StepKeeps(h.w, a);
    var w := P.Step(h.w, a).value;
    forall q | q in h.pool.carved ensures Carved(q) in w.held {
      StepSpares(h.w, a, Carved(q));
    }
    forall i | 0 <= i < |h.large| ensures h.large[i] in w.held {
      assert LargeOk(h.large[i], h.w.held, h.pool.headers, h.pool.carved);
      StepSpares(h.w, a, h.large[i]);
    }
    WorldFollows(h, w);
  }

  lemma {:induction false} FreeBufferKeeps(h: Heap, place: Place, large: bool, k: nat)
    requires InUse(h, place, large, k) && FreeBuffer(h, place, large, k).Some?
    ensures HeapOk(FreeBuffer(h, place, large, k).value)
  {
    hide HeapOk, FreeLarge, Free;
    if large {
      FreeLargeKeeps(h, k);
    } else {
      FreeBlockKeeps(h, k);
    }
  }

  lemma {:induction false} AllocatePoolSettled(h: Heap, typ: MemType, size: nat)
    requires P.WorldOk(h.w) && |h.pool.lists| == MAX_POOL_INDEX && Settled(h) && AllocatePool(h, typ, size).Some?
    ensures Settled(AllocatePool(h, typ, size).value.1)
  {
    hide P.WorldOk, Settled, AllocBlock, AllocLarge, PoolIndex, PagesFor, WithHeader;
    var n := WithHeader(size);
    if typ == RuntimeCode || typ == RuntimeData {
      if n > MAX_POOL_SIZE {
        PagesPositive(n);
        AllocLargeParts(h, typ, PagesFor(n));
      } else if PoolIndex(n) >= 0 {
        PoolIndexInRange(n);
        AllocBlockParts(h, PoolIndex(n));
      }
    }
  }

  lemma {:induction false} FreeBufferSettled(h: Heap, place: Place, large: bool, k: nat)
    requires InUse(h, place, large, k) && Settled(h) && FreeBuffer(h, place, large, k).Some?
    ensures Settled(FreeBuffer(h, place, large, k).value)
  {
    if large {
      FreeLargeParts(h, k);
      hide HeapOk, FreeLarge;
    } else {
      FreeBlockKeeps(h, k);
      hide HeapOk, ClassOf;
    }
  }

  /** No buffer ever is a block of a whole page, so every one can be freed. */
  lemma {:induction false} HeapStepSettled(h: Heap, a: HeapAction)
    requires HeapOk(h) && HeapLegal(h, a) && HeapStep(h, a).Some? && Settled(h)
    ensures Settled(HeapStep(h, a).value)
  {
    HeapParts(h);
    hide HeapOk, AllocatePool, FreeBuffer, InUse, P.Step, P.WorldOk, PoolOk, P.Legal;
    match a
    case AllocateBuffer(typ, size) => AllocatePoolSettled(h, typ, size);
    case FreeInUse(place, large, k) => FreeBufferSettled(h, place, large, k);
    case UsePages(b) =>
  }

  /** Every call keeps everything in order. */
  lemma {:induction false} HeapStepKeeps(h: Heap, a: HeapAction)
    requires HeapOk(h) && HeapLegal(h, a) && HeapStep(h, a).Some?
    ensures HeapOk(HeapStep(h, a).value)
  {
    HeapParts(h);
    hide HeapOk, AllocatePool, FreeBuffer, InUse, P.Step, P.WorldOk, PoolOk, P.Legal;
    match a
    case AllocateBuffer(typ, size) => AllocatePoolKeeps(h, typ, size);
    case FreeInUse(place, large, k) => FreeBufferKeeps(h, place, large, k);
    case UsePages(b) => UsePagesKeeps(h, b);
  }

  /** The heaps that a run of legal calls goes through, from the start; a halt ends the run. */
  ghost predicate IsHeapRun(hs: seq<Heap>, acts: seq<HeapAction>) {
    && |hs| == |acts| + 1 && hs[0] == Heap(P.EMPTY, NO_POOL, [])
    && forall i | 0 <= i < |acts| :: IsHeapStep(hs[i], acts[i], hs[i + 1])
  }

  ghost predicate IsHeapStep(h: Heap, a: HeapAction, h': Heap) {
    HeapOk(h) ==> HeapLegal(h, a) && HeapStep(h, a) == Some(h')
  }

  lemma {:induction false} EmptyHeapOk()
    ensures HeapOk(Heap(P.EMPTY, NO_POOL, [])) && Settled(Heap(P.EMPTY, NO_POOL, []))
  {
    EmptyPool();
    P.EmptyIsOk();
    hide PoolOk, P.WorldOk;
  }

  /** The main theorem: over every run of pool calls and of page calls by anybody, carved pages
      stay tiled, headers and lists in step, carved pages and large buffers handed out, and the
      page allocator itself in order. */
  lemma {:induction false} RunKeepsHeap(hs: seq<Heap>, acts: seq<HeapAction>, k: nat)
    requires IsHeapRun(hs, acts) && k <= |acts|
    ensures HeapOk(hs[k]) && Settled(hs[k])
  {
    hide HeapOk, HeapLegal, HeapStep, Settled;
    if k == 0 {
      EmptyHeapOk();
    } else {
      RunKeepsHeap(hs, acts, k - 1);
      assert IsHeapStep(hs[k - 1], acts[k - 1], hs[k]);
      HeapStepKeeps(hs[k - 1], acts[k - 1]);
      HeapStepSettled(hs[k - 1], acts[k - 1]);
    }
  }

  /** So at no time of any run do two buffers in use share memory. */
  lemma {:induction false} RunBuffersApart(hs: seq<Heap>, acts: seq<HeapAction>, k: nat, p: nat, u: nat)
    requires IsHeapRun(hs, acts) && k <= |acts| && u < PAGE_UNITS
    ensures var h := hs[k];
      && (forall i, j :: 0 <= i < j < |h.pool.busy| ==>
            !(Covers(h.pool.busy[i].place, h.pool.busy[i].class_, p, u)
              && Covers(h.pool.busy[j].place, h.pool.busy[j].class_, p, u)))
      && (forall i, j :: 0 <= i < |h.pool.busy| && 0 <= j < |h.large| ==>
            !(Covers(h.pool.busy[i].place, h.pool.busy[i].class_, p, u) && h.large[j].Meets(p, p)))
      && (forall i, j :: 0 <= i < j < |h.large| ==> !(h.large[i].Meets(p, p) && h.large[j].Meets(p, p)))
  {
    hide HeapOk, Covers;
    RunKeepsHeap(hs, acts, k);
    BuffersApart(hs[k], p, u);
  }
}
