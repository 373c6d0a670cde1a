/** The page allocator over whole runs: region adds, the three kinds of allocation, frees,
    and the descriptor refuels they trigger. A state is the free list together with the
    memory map; the theorem at the end holds in every state a run can reach. */
module PageServices {
  import opened Machine
  import opened Wrappers
  import opened FreePages
  import opened MemoryMap

  /** Pages taken to refuel the descriptor list, and the descriptors they hold
      (64 KiB granularity, 48 bytes for a descriptor). */
  const REFUEL_PAGES: nat := 16
  const REFUEL_ENTRIES: nat := 1365
  const MAX_MAP_DEPTH: nat := 6

  datatype State = State(free: seq<Node>, mem: Mapped)

  datatype AllocateType = AnyPages | MaxAddress | AtAddress | OtherType
  datatype Status = Success | InvalidParameter | OutOfResources | NotFound

  // ---------- free list and map agree ----------

  /** Mapped pages have addresses that are neither zero nor the last page of the word. */
  ghost predicate InRange(m: seq<Entry>) {
    forall p | TypeAt(m, p) != Hole :: 0 < p < WORD_PAGES - 1
  }

  ghost predicate Agree(l: seq<Node>, m: seq<Entry>) {
    forall p :: IsFree(l, p) <==> TypeAt(m, p) == At(Conventional)
  }

  ghost predicate Synced(s: State) {
    && WellFormed(s.free) && Sorted(s.mem.m) && Coalesced(s.mem.m, Conventional)
    && InRange(s.mem.m) && Agree(s.free, s.mem.m) && SlotsOk(s.mem)
  }

  /** The Conventional entries of the map, in order, as page runs. */
  function ConventionalNodes(m: seq<Entry>): seq<Node> {
    if m == [] then []
    else if m[0].typ == Conventional && m[0].start <= m[0].end
    then [Node(m[0].start, m[0].end + 1 - m[0].start)] + ConventionalNodes(m[1..])
    else ConventionalNodes(m[1..])
  }

  lemma {:induction false} ConventionalNodesFree(m: seq<Entry>, p: int)
    requires Sorted(m)
    ensures IsFree(ConventionalNodes(m), p) <==> TypeAt(m, p) == At(Conventional)
  {
    if m != [] {
      ConventionalNodesFree(m[1..], p);
      var rest := ConventionalNodes(m[1..]);
      if m[0].typ == Conventional {
        FreeInReplaced(ConventionalNodes(m), 0, 1, [ConventionalNodes(m)[0]], p);
        FreeInSplit(ConventionalNodes(m), 0, p);
        assert ConventionalNodes(m)[1..] == rest;
      } else if m[0].Covers(p) {
        TypeAtHole(m[1..], p);
      }
    }
  }

  lemma {:induction false} ConventionalNodesAbove(m: seq<Entry>, b: int)
    requires Sorted(m) && forall i | 0 <= i < |m| :: b < m[i].start
    ensures forall k | 0 <= k < |ConventionalNodes(m)| :: b < ConventionalNodes(m)[k].first
  {
    if m != [] {
      ConventionalNodesAbove(m[1..], b);
    }
  }

  lemma {:induction false} ConventionalNodesWellFormed(m: seq<Entry>)
    requires Sorted(m) && Coalesced(m, Conventional)
    requires forall i | 0 <= i < |m| :: 0 < m[i].start && m[i].end < WORD_PAGES - 1
    ensures WellFormed(ConventionalNodes(m))
  {
    if m != [] {
      var t := m[1..];
      assert Coalesced(t, Conventional) by {
        forall k | 0 <= k < |t| - 1 && t[k].typ == Conventional ensures !Mergeable(t[k], t[k + 1]) {
          assert !Mergeable(m[k + 1], m[k + 2]);
        }
      }
      ConventionalNodesWellFormed(t);
      if m[0].typ == Conventional {
        ConventionalNodesGap(m);
      }
    }
  }

  /** After a Conventional entry the next Conventional entry does not touch it. */
  lemma {:induction false} ConventionalNodesGap(m: seq<Entry>)
    requires Sorted(m) && Coalesced(m, Conventional) && m != [] && m[0].typ == Conventional
    ensures forall k | 0 <= k < |ConventionalNodes(m[1..])| :: m[0].end + 1 < ConventionalNodes(m[1..])[k].first
  {
    var t := m[1..];
    if t != [] {
      assert !Mergeable(m[0], m[1]);
      if t[0].typ == Conventional {
        ConventionalNodesAbove(t, m[0].end + 1);
      } else {
        ConventionalNodesAbove(t[1..], t[0].end);
      }
    }
  }

  lemma {:induction false} EntriesInRange(m: seq<Entry>)
    requires Sorted(m) && InRange(m)
    ensures forall i | 0 <= i < |m| :: 0 < m[i].start && m[i].end < WORD_PAGES - 1
  {
    forall i | 0 <= i < |m| ensures 0 < m[i].start && m[i].end < WORD_PAGES - 1 {
      TypeAtIndex(m, i, m[i].start);
      TypeAtIndex(m, i, m[i].end);
    }
  }

  /** In a synced state the free list is exactly the list of Conventional entries: the same
      bases, the same lengths, the same order. */
  lemma {:induction false} SyncedListsAreEqual(s: State)
    requires Synced(s)
    ensures s.free == ConventionalNodes(s.mem.m)
  {
    EntriesInRange(s.mem.m);
    ConventionalNodesWellFormed(s.mem.m);
    forall p ensures IsFree(s.free, p) <==> IsFree(ConventionalNodes(s.mem.m), p) {
      ConventionalNodesFree(s.mem.m, p);
    }
    Canonical(s.free, ConventionalNodes(s.mem.m));
  }

  /** The page after an entry of type t is not of type t. */
  lemma {:induction false} PageAfterEntry(m: seq<Entry>, t: MemType, i: nat)
    requires Sorted(m) && Coalesced(m, t) && i < |m| && m[i].typ == t
    ensures TypeAt(m, m[i].end + 1) != At(t)
  {
    var p := m[i].end + 1;
    TypeAtHole(m, p);
    if TypeAt(m, p) != Hole {
      var j :| 0 <= j < |m| && m[j].Covers(p);
      TypeAtIndex(m, j, p);
      assert i + 1 < |m| && !Mergeable(m[i], m[i + 1]);
    }
  }

  /** Pages of one type that follow each other lie in one entry. */
  lemma {:induction false} RunInOneEntry(m: seq<Entry>, t: MemType, lo: int, hi: int)
    requires Sorted(m) && Coalesced(m, t) && lo <= hi
    requires forall p | lo <= p <= hi :: TypeAt(m, p) == At(t)
    ensures Inside(m, lo, hi, t)
  {
    assert TypeAt(m, lo) == At(t);
    TypeAtHole(m, lo);
    var i :| 0 <= i < |m| && m[i].Covers(lo);
    TypeAtIndex(m, i, lo);
    PageAfterEntry(m, t, i);
  }

  lemma {:induction false} InsideHasType(m: seq<Entry>, lo: int, hi: int, t: MemType, p: int)
    requires Sorted(m) && Inside(m, lo, hi, t) && lo <= p <= hi
    ensures TypeAt(m, p) == At(t)
  {
    var i :| 0 <= i < |m| && m[i].typ == t && m[i].Contains(lo, hi);
    TypeAtIndex(m, i, p);
  }

  // ---------- the operations ----------

  ghost predicate RequestOk(kind: AllocateType, n: nat, request: nat) {
    0 < n && request < WORD && (kind == AtAddress ==> request / PAGE_SIZE + n < WORD_PAGES)
  }

  function TakePages(l: seq<Node>, kind: AllocateType, n: nat, request: nat): Option<(seq<Node>, nat)>
    requires WellFormed(l) && RequestOk(kind, n, request)
  {
    match kind
    case AnyPages => AllocMax(l, n, WORD - 1)
    case MaxAddress => AllocMax(l, n, request)
    case AtAddress => if request % PAGE_SIZE != 0 then None else AllocAt(l, n, request / PAGE_SIZE)
    case OtherType => None
  }

  /** Takes pages off the free list and gives them their type in the map. */
  function AllocRaw(s: State, kind: AllocateType, typ: MemType, n: nat, request: nat): Option<(State, nat)>
    requires WellFormed(s.free) && RequestOk(kind, n, request)
  {
    match TakePages(s.free, kind, n, request)
    case None => None
    case Some((l, b)) => Some((State(l, Convert(s.mem, typ, b, b + n - 1)), b))
  }

  /** What a descriptor request does to an empty descriptor list: the pages are taken and
      their descriptors are queued. None: out of memory, where the code asserts. */
  function Refuel(s: State): Option<(State, nat)>
    requires WellFormed(s.free)
  {
    match AllocRaw(s, AnyPages, RuntimeData, REFUEL_PAGES, 0)
    case None => None
    case Some((r, b)) => Some((r.(mem := r.mem.(spare := r.mem.spare + REFUEL_ENTRIES)), b))
  }

  /** The index of the entry whose descriptor is in stack slot k, or the length of the map. */
  function SlotIndex(m: seq<Entry>, k: int): (i: nat)
    ensures i <= |m|
    ensures i < |m| ==> m[i].slot == k
    ensures forall j | 0 <= j < i :: m[j].slot != k
  {
    if m == [] || m[0].slot == k then 0 else 1 + SlotIndex(m[1..], k)
  }

  /** Pops the top stack slot; its entry, if it is still in the map, moves to a heap descriptor. */
  function Unstack(s: Mapped): Mapped
    requires 0 < s.depth && 0 < s.spare
  {
    var i := SlotIndex(s.m, s.depth - 1);
    Mapped(if i < |s.m| then s.m[i := s.m[i].(slot := HEAP)] else s.m, s.depth - 1, s.spare - 1)
  }

  /** The stack is emptied before it can overflow: either it is at most two deep, or the free
      descriptors suffice. */
  predicate Drains(s: Mapped) {
    s.depth <= 2 || (s.depth < MAX_MAP_DEPTH && s.depth <= s.spare)
  }

  datatype Freed = Freed(s: State, refuels: seq<nat>)

  /** Moves the descriptors on the stack to the heap, refuelling when there are none left. */
  function FreeStack(s: State): Option<Freed>
    requires WellFormed(s.free) && Drains(s.mem)
    decreases if s.mem.depth <= s.mem.spare then s.mem.depth else s.mem.depth + 3
  {
    if s.mem.depth == 0 then Some(Freed(s, []))
    else if s.mem.spare == 0 then
      match Refuel(s)
      case None => None
      case Some((r, b)) =>
        RefuelDrains(s);
        match FreeStack(State(r.free, Unstack(r.mem)))
        case None => None
        case Some(f) => Some(Freed(f.s, [b] + f.refuels))
    else
      FreeStack(State(s.free, Unstack(s.mem)))
  }

  /** The public allocation: status, first page, and the state with the stack emptied. */
  function AllocatePages(s: State, kind: AllocateType, typ: MemType, n: nat, request: nat): Option<(Status, nat, Freed)>
    requires WellFormed(s.free) && s.mem.depth == 0 && RequestOk(kind, n, request)
  {
    if typ != RuntimeCode && typ != RuntimeData then Some((InvalidParameter, 0, Freed(s, [])))
    else if n > WORD_PAGES then Some((OutOfResources, 0, Freed(s, [])))
    else if kind == OtherType then Some((InvalidParameter, 0, Freed(s, [])))
    else
      match AllocRaw(s, kind, typ, n, request)
      case None => Some((if kind == AtAddress then NotFound else OutOfResources, 0, Freed(s, [])))
      case Some((r, b)) =>
        AllocRawDrains(s, kind, typ, n, request);
        match FreeStack(r)
        case None => None
        case Some(f) => Some((Success, b, f))
  }

  /** Giving pages back, before the stack is emptied. */
  function FreeRaw(s: State, p: nat, n: nat): (Status, State)
    requires WellFormed(s.free) && 0 < n
  {
    match FreeRange(s.free, p, n)
    case None => (InvalidParameter, s)
    case Some(l) => (Success, State(l, Convert(s.mem, Conventional, p, p + n - 1)))
  }

  /** The public free of the n pages from page p on. */
  function ReleasePages(s: State, p: nat, n: nat): Option<(Status, Freed)>
    requires WellFormed(s.free) && s.mem.depth == 0 && NodeOk(Node(p, n))
  {
    var (status, r) := FreeRaw(s, p, n);
    if status != Success then Some((status, Freed(s, [])))
    else
      FreeRawDrains(s, p, n);
      match FreeStack(r)
      case None => None
      case Some(f) => Some((Success, f))
  }

  /** The public free: a misaligned address is refused. */
  function ReleaseAddress(s: State, a: nat, n: nat): Option<(Status, Freed)>
    requires WellFormed(s.free) && s.mem.depth == 0 && NodeOk(Node(a / PAGE_SIZE, n))
  {
    if a % PAGE_SIZE != 0 then Some((InvalidParameter, Freed(s, []))) else ReleasePages(s, a / PAGE_SIZE, n)
  }

  /** The first whole page of a region and the number of whole pages in it. */
  function RegionFirst(base: nat): nat { (base + PAGE_SIZE - 1) / PAGE_SIZE }

  function RegionPages(base: nat, length: nat): int { (length - (RegionFirst(base) * PAGE_SIZE - base)) / PAGE_SIZE }

  /** The whole pages of a region become free pages, or a reserved entry when already in use. */
  function AddPagesAt(s: State, p: nat, n: nat, inUse: bool): Option<Freed>
    requires WellFormed(s.free) && s.mem.depth == 0 && NodeOk(Node(p, n))
  {
    if inUse then
      ConvertDepth(s.mem, RuntimeData, p, p + n - 1);
      FreeStack(State(s.free, Convert(s.mem, RuntimeData, p, p + n - 1)))
    else
      FreeRawDrains(s, p, n);
      FreeStack(FreeRaw(s, p, n).1)
  }

  lemma {:induction false} AllocRawDrains(s: State, kind: AllocateType, typ: MemType, n: nat, request: nat)
    requires WellFormed(s.free) && RequestOk(kind, n, request) && s.mem.depth == 0
    requires AllocRaw(s, kind, typ, n, request).Some?
    ensures var r := AllocRaw(s, kind, typ, n, request).value.0; WellFormed(r.free) && Drains(r.mem)
  {
    hide AllocRaw, Convert, TakePages, WellFormed;
    var (r, b) := AllocRaw(s, kind, typ, n, request).value;
    AllocRawShape(s, kind, typ, n, request);
    TakePagesIsExact(s.free, kind, n, request);
    ConvertDepth(s.mem, typ, b, b + n - 1);
  }

  lemma {:induction false} FreeRawDrains(s: State, p: nat, n: nat)
    requires WellFormed(s.free) && s.mem.depth == 0 && NodeOk(Node(p, n))
    ensures var r := FreeRaw(s, p, n).1; WellFormed(r.free) && Drains(r.mem)
  {
    hide Convert, FreeRange, WellFormed;
    if FreeRange(s.free, p, n).Some? { FreeRangeIsExact(s.free, p, n); }
    ConvertDepth(s.mem, Conventional, p, p + n - 1);
  }

  // ---------- the operations keep the two structures in step ----------

  /** A contained conversion that follows the free list keeps the state synced. */
  lemma {:induction false} ConvertInSynced(s: State, l: seq<Node>, typ: MemType, lo: nat, hi: nat)
    requires Synced(s) && WellFormed(l) && lo <= hi && InOneEntry(s.mem.m, lo, hi)
    requires forall p :: IsFree(l, p) <==> if lo <= p <= hi then typ == Conventional else IsFree(s.free, p)
    ensures Synced(State(l, Convert(s.mem, typ, lo, hi)))
  {
    var r := Convert(s.mem, typ, lo, hi).m;
    ConvertInSorted(s.mem, typ, lo, hi);
    ConvertInCoalesced(s.mem, typ, lo, hi, Conventional);
    ConvertSlots(s.mem, typ, lo, hi);
    assert InRange(r) by {
      forall p | TypeAt(r, p) != Hole ensures 0 < p < WORD_PAGES - 1 {
        ConvertInTypeAt(s.mem, typ, lo, hi, p);
        ContainedIsMapped(s.mem.m, lo, hi, p);
      }
    }
    assert Agree(l, r) by {
      forall p ensures IsFree(l, p) <==> TypeAt(r, p) == At(Conventional) {
        ConvertInTypeAt(s.mem, typ, lo, hi, p);
      }
    }
  }

  lemma {:induction false} ContainedIsMapped(m: seq<Entry>, lo: int, hi: int, p: int)
    requires Sorted(m) && InOneEntry(m, lo, hi)
    ensures lo <= p <= hi ==> TypeAt(m, p) != Hole
  {
    var i :| 0 <= i < |m| && m[i].Contains(lo, hi);
    if lo <= p <= hi { TypeAtIndex(m, i, p); }
  }

  lemma {:induction false} TakePagesIsExact(l: seq<Node>, kind: AllocateType, n: nat, request: nat)
    requires WellFormed(l) && RequestOk(kind, n, request) && TakePages(l, kind, n, request).Some?
    ensures var (r, b) := TakePages(l, kind, n, request).value;
      && WellFormed(r) && TotalPages(r) == TotalPages(l) - n
      && NodeOk(Node(b, n)) && RunFree(l, b, n)
      && forall p :: IsFree(r, p) <==> IsFree(l, p) && !(b <= p < b + n)
  {
    match kind
    case AnyPages => AllocMaxIsExact(l, n, WORD - 1);
    case MaxAddress => AllocMaxIsExact(l, n, request);
    case AtAddress => AllocAtIsExact(l, n, request / PAGE_SIZE);
  }

  /** Free pages lie in one Conventional entry. */
  lemma {:induction false} FreeRunInOneEntry(s: State, b: nat, n: nat)
    requires Synced(s) && 0 < n && RunFree(s.free, b, n)
    ensures Inside(s.mem.m, b, b + n - 1, Conventional) && InOneEntry(s.mem.m, b, b + n - 1)
  {
    forall p | b <= p <= b + n - 1 ensures TypeAt(s.mem.m, p) == At(Conventional) {
      assert IsFree(s.free, p);
    }
    RunInOneEntry(s.mem.m, Conventional, b, b + n - 1);
  }

  lemma {:induction false} TakenSynced(s: State, l: seq<Node>, typ: MemType, b: nat, n: nat)
    requires Synced(s) && WellFormed(l) && 0 < n && RunFree(s.free, b, n) && typ != Conventional
    requires forall p :: IsFree(l, p) <==> IsFree(s.free, p) && !(b <= p < b + n)
    ensures Synced(State(l, Convert(s.mem, typ, b, b + n - 1)))
  {
    hide Convert;
    FreeRunInOneEntry(s, b, n);
    ConvertInSynced(s, l, typ, b, b + n - 1);
  }

  lemma {:induction false} AllocRawShape(s: State, kind: AllocateType, typ: MemType, n: nat, request: nat)
    requires WellFormed(s.free) && RequestOk(kind, n, request) && AllocRaw(s, kind, typ, n, request).Some?
    ensures var (r, b) := AllocRaw(s, kind, typ, n, request).value;
      TakePages(s.free, kind, n, request) == Some((r.free, b)) && r.mem == Convert(s.mem, typ, b, b + n - 1)
  {
    hide TakePages, Convert, WellFormed;
  }

  lemma {:induction false} AllocRawSynced(s: State, kind: AllocateType, typ: MemType, n: nat, request: nat)
    requires Synced(s) && RequestOk(kind, n, request) && typ != Conventional
    requires AllocRaw(s, kind, typ, n, request).Some?
    ensures Synced(AllocRaw(s, kind, typ, n, request).value.0)
  {
    hide AllocRaw, Convert, TakePages, WellFormed, Agree, InRange, SlotsOk, Sorted;
    var (r, b) := AllocRaw(s, kind, typ, n, request).value;
    AllocRawShape(s, kind, typ, n, request);
    TakePagesIsExact(s.free, kind, n, request);
    TakenSynced(s, r.free, typ, b, n);
  }

  lemma {:induction false} RefuelSynced(s: State)
    requires Synced(s) && Refuel(s).Some?
    ensures Synced(Refuel(s).value.0)
  {
    AllocRawSynced(s, AnyPages, RuntimeData, REFUEL_PAGES, 0);
  }

  /** A refuel pushes at most two descriptors and makes plenty available. */
  lemma {:induction false} RefuelDrains(s: State)
    requires WellFormed(s.free) && Refuel(s).Some?
    ensures var r := Refuel(s).value.0;
      WellFormed(r.free) && s.mem.depth <= r.mem.depth <= s.mem.depth + 2 && s.mem.spare + REFUEL_ENTRIES <= r.mem.spare
  {
    hide AllocRaw, Convert, TakePages, WellFormed;
    var (r, b) := AllocRaw(s, AnyPages, RuntimeData, REFUEL_PAGES, 0).value;
    AllocRawShape(s, AnyPages, RuntimeData, REFUEL_PAGES, 0);
    TakePagesIsExact(s.free, AnyPages, REFUEL_PAGES, 0);
    ConvertDepth(s.mem, RuntimeData, b, b + REFUEL_PAGES - 1);
  }

  lemma {:induction false} SetSlot(m: seq<Entry>, i: nat)
    requires i < |m|
    ensures var r := m[i := m[i].(slot := HEAP)];
      && (Sorted(m) ==> Sorted(r)) && (Coalesced(m, Conventional) ==> Coalesced(r, Conventional))
  {
    var r := m[i := m[i].(slot := HEAP)];
    if Coalesced(m, Conventional) {
      forall k | 0 <= k < |r| - 1 && r[k].typ == Conventional ensures !Mergeable(r[k], r[k + 1]) {
        assert !Mergeable(m[k], m[k + 1]);
      }
    }
  }

  /** Moving a descriptor changes no bounds and no type. */
  lemma {:induction false} UnstackMap(s: Mapped, p: int)
    requires 0 < s.depth && 0 < s.spare
    ensures TypeAt(Unstack(s).m, p) == TypeAt(s.m, p)
  {
    var i := SlotIndex(s.m, s.depth - 1);
    if i < |s.m| {
      var x := s.m[i].(slot := HEAP);
      TypeAtReplace(s.m, i, i + 1, [x], p);
      assert s.m[i := x] == s.m[..i] + [x] + s.m[i + 1..];
      assert s.m[i..i + 1] == [s.m[i]];
      TypeAtOne(x, p);
      TypeAtOne(s.m[i], p);
    }
  }

  lemma {:induction false} UnstackSlots(s: Mapped)
    requires 0 < s.depth && 0 < s.spare && SlotsOk(s)
    ensures SlotsOk(Unstack(s))
  {
  }

  lemma {:induction false} UnstackInside(s: Mapped, lo: int, hi: int, t: MemType)
    requires 0 < s.depth && 0 < s.spare && Inside(s.m, lo, hi, t)
    ensures Inside(Unstack(s).m, lo, hi, t)
  {
    var k :| 0 <= k < |s.m| && s.m[k].typ == t && s.m[k].Contains(lo, hi);
    assert Unstack(s).m[k].typ == t && Unstack(s).m[k].Contains(lo, hi);
  }

  lemma {:induction false} UnstackSynced(s: State)
    requires Synced(s) && 0 < s.mem.depth && 0 < s.mem.spare
    ensures Synced(State(s.free, Unstack(s.mem)))
  {
    var i := SlotIndex(s.mem.m, s.mem.depth - 1);
    if i < |s.mem.m| { SetSlot(s.mem.m, i); }
    UnstackSlots(s.mem);
    forall p ensures TypeAt(Unstack(s.mem).m, p) == TypeAt(s.mem.m, p) { UnstackMap(s.mem, p); }
  }

  // ---------- what the allocator has handed out ----------

  /** Pages in use: an allocation, or a descriptor page when descriptor is set. */
  datatype Block = Block(first: nat, pages: nat, typ: MemType, descriptor: bool) {
    predicate Meets(lo: int, hi: int) { first <= hi && lo < first + pages }
  }

  ghost predicate BlockOk(m: seq<Entry>, x: Block) {
    0 < x.pages && x.typ != Conventional && Inside(m, x.first, x.first + x.pages - 1, x.typ)
  }

  /** Every block lies inside a single entry of its own type, and no two blocks meet. */
  ghost predicate HeldOk(m: seq<Entry>, held: seq<Block>) {
    && (forall i | 0 <= i < |held| :: BlockOk(m, held[i]))
    && (forall i, j | 0 <= i < j < |held| :: !held[i].Meets(held[j].first, held[j].first + held[j].pages - 1))
  }

  function HeldPages(held: seq<Block>): nat {
    if held == [] then 0 else held[0].pages + HeldPages(held[1..])
  }

  lemma {:induction false} HeldPagesConcat(x: seq<Block>, y: seq<Block>)
    ensures HeldPages(x + y) == HeldPages(x) + HeldPages(y)
  {
    if x == [] {
      assert x + y == y;
    } else {
      HeldPagesConcat(x[1..], y);
      assert (x + y)[1..] == x[1..] + y;
    }
  }

  /** A block in use does not meet free pages. */
  lemma {:induction false} BlockNotFree(s: State, x: Block, b: nat, n: nat)
    requires Synced(s) && BlockOk(s.mem.m, x) && RunFree(s.free, b, n) && 0 < n
    ensures !x.Meets(b, b + n - 1)
  {
    var p := if x.first <= b then b else x.first;
    if x.Meets(b, b + n - 1) {
      assert IsFree(s.free, p);
      InsideHasType(s.mem.m, x.first, x.first + x.pages - 1, x.typ, p);
    }
  }

  /** A conversion inside one entry keeps the blocks it does not meet. */
  lemma {:induction false} ConvertKeepsHeld(s: Mapped, typ: MemType, lo: nat, hi: nat, held: seq<Block>)
    requires Sorted(s.m) && lo <= hi && InOneEntry(s.m, lo, hi) && HeldOk(s.m, held)
    requires forall i | 0 <= i < |held| :: !held[i].Meets(lo, hi)
    ensures HeldOk(Convert(s, typ, lo, hi).m, held)
  {
    hide Convert, InOneEntry, Sorted, Inside;
    forall i | 0 <= i < |held| ensures BlockOk(Convert(s, typ, lo, hi).m, held[i]) {
      var x := held[i];
      assert BlockOk(s.m, x) && !x.Meets(lo, hi);
      ConvertInInside(s, typ, lo, hi, x.first, x.first + x.pages - 1, x.typ);
    }
  }

  /** Pages that were free become one more block. */
  lemma {:induction false} TakenHeld(s: State, typ: MemType, b: nat, n: nat, held: seq<Block>, d: bool)
    requires Synced(s) && 0 < n && RunFree(s.free, b, n) && typ != Conventional && HeldOk(s.mem.m, held)
    ensures HeldOk(Convert(s.mem, typ, b, b + n - 1).m, held + [Block(b, n, typ, d)])
  {
    hide Convert, WellFormed, Agree, InRange, SlotsOk, Sorted, Coalesced, RunFree, Inside, InOneEntry;
    forall i | 0 <= i < |held| ensures !held[i].Meets(b, b + n - 1) {
      assert BlockOk(s.mem.m, held[i]);
      BlockNotFree(s, held[i], b, n);
    }
    FreeRunInOneEntry(s, b, n);
    ConvertKeepsHeld(s.mem, typ, b, b + n - 1, held);
    ConvertInRange(s.mem, typ, b, b + n - 1);
  }

  lemma {:induction false} AllocRawHeld(s: State, kind: AllocateType, typ: MemType, n: nat, request: nat,
                                        held: seq<Block>, d: bool)
    requires Synced(s) && RequestOk(kind, n, request) && typ != Conventional && HeldOk(s.mem.m, held)
    requires AllocRaw(s, kind, typ, n, request).Some?
    ensures var (r, b) := AllocRaw(s, kind, typ, n, request).value;
      && HeldOk(r.mem.m, held + [Block(b, n, typ, d)])
      && TotalPages(r.free) + HeldPages(held + [Block(b, n, typ, d)]) == TotalPages(s.free) + HeldPages(held)
  {
    hide AllocRaw, Convert, TakePages, WellFormed, Agree, InRange, SlotsOk, Sorted, Coalesced, HeldOk;
    var (r, b) := AllocRaw(s, kind, typ, n, request).value;
    AllocRawShape(s, kind, typ, n, request);
    TakePagesIsExact(s.free, kind, n, request);
    TakenHeld(s, typ, b, n, held, d);
    HeldPagesConcat(held, [Block(b, n, typ, d)]);
  }

  function RefuelBlocks(bs: seq<nat>): seq<Block> {
    seq(|bs|, i requires 0 <= i < |bs| => Block(bs[i], REFUEL_PAGES, RuntimeData, true))
  }

  lemma {:induction false} UnstackHeld(s: Mapped, held: seq<Block>)
    requires 0 < s.depth && 0 < s.spare && HeldOk(s.m, held)
    ensures HeldOk(Unstack(s).m, held)
  {
    hide Unstack, Inside;
    forall i | 0 <= i < |held| ensures BlockOk(Unstack(s).m, held[i]) {
      var x := held[i];
      assert BlockOk(s.m, x);
      UnstackInside(s, x.first, x.first + x.pages - 1, x.typ);
    }
  }

  /** Emptying the descriptor stack terminates with the stack empty; it refuels at most once,
      the refuel takes its pages like any allocation, and all blocks are kept. */
  lemma {:induction false} FreeStackKeeps(s: State, held: seq<Block>)
    requires Synced(s) && Drains(s.mem) && HeldOk(s.mem.m, held) && FreeStack(s).Some?
    ensures var f := FreeStack(s).value; var held' := held + RefuelBlocks(f.refuels);
      && Synced(f.s) && f.s.mem.depth == 0 && HeldOk(f.s.mem.m, held')
      && TotalPages(f.s.free) + HeldPages(held') == TotalPages(s.free) + HeldPages(held)
      && |f.refuels| <= 1 && (s.mem.depth <= s.mem.spare ==> f.refuels == [])
    decreases if s.mem.depth <= s.mem.spare then s.mem.depth else s.mem.depth + 3
  {
    hide Convert, WellFormed, Agree, InRange, SlotsOk, Sorted, Coalesced, HeldOk, Refuel, Unstack, HeldPages,
      TotalPages;
    if s.mem.depth == 0 {
      assert held + RefuelBlocks([]) == held;
    } else if s.mem.spare == 0 {
      var (r, b) := Refuel(s).value;
      RefuelSynced(s);
      RefuelDrains(s);
      RefuelHeld(s, held);
      UnstackSynced(r);
      var held1 := held + [Block(b, REFUEL_PAGES, RuntimeData, true)];
      UnstackHeld(r.mem, held1);
      UnstackCounts(r.mem);
      var t := State(r.free, Unstack(r.mem));
      FreeStackKeeps(t, held1);
      var f := FreeStack(t).value;
      assert f.refuels == [] && FreeStack(s).value == Freed(f.s, [b] + f.refuels);
      assert held1 + RefuelBlocks(f.refuels) == held + RefuelBlocks([b] + f.refuels);
    } else {
      UnstackSynced(s);
      UnstackHeld(s.mem, held);
      UnstackCounts(s.mem);
      FreeStackKeeps(State(s.free, Unstack(s.mem)), held);
    }
  }

  lemma {:induction false} UnstackCounts(s: Mapped)
    requires 0 < s.depth && 0 < s.spare
    ensures Unstack(s).depth == s.depth - 1 && Unstack(s).spare == s.spare - 1 && |Unstack(s).m| == |s.m|
  {
  }

  lemma {:induction false} RefuelHeld(s: State, held: seq<Block>)
    requires Synced(s) && HeldOk(s.mem.m, held) && Refuel(s).Some?
    ensures var (r, b) := Refuel(s).value; var held' := held + [Block(b, REFUEL_PAGES, RuntimeData, true)];
      && HeldOk(r.mem.m, held')
      && TotalPages(r.free) + HeldPages(held') == TotalPages(s.free) + HeldPages(held)
  {
    hide AllocRaw, HeldOk;
    AllocRawHeld(s, AnyPages, RuntimeData, REFUEL_PAGES, 0, held, true);
  }

  /** Emptying the stack changes the map only by the refuel block, if there is one, and
      leaves no entry on the stack. */
  lemma {:induction false} FreeStackMap(s: State, p: int)
    requires Synced(s) && Drains(s.mem) && FreeStack(s).Some?
    ensures var f := FreeStack(s).value;
      && TypeAt(f.s.mem.m, p) ==
        (if f.refuels != [] && f.refuels[0] <= p < f.refuels[0] + REFUEL_PAGES then At(RuntimeData)
         else TypeAt(s.mem.m, p))
      && |f.refuels| <= 1
      && forall i | 0 <= i < |f.s.mem.m| :: f.s.mem.m[i].slot == HEAP
    decreases if s.mem.depth <= s.mem.spare then s.mem.depth else s.mem.depth + 3
  {
    hide Convert, WellFormed, Agree, InRange, Sorted, Coalesced, Refuel, Unstack;
    FreeStackKeeps(s, []);
    if s.mem.depth == 0 {
    } else if s.mem.spare == 0 {
      var (r, b) := Refuel(s).value;
      RefuelSynced(s);
      RefuelDrains(s);
      RefuelMap(s, p);
      UnstackSynced(r);
      UnstackCounts(r.mem);
      UnstackMap(r.mem, p);
      var t := State(r.free, Unstack(r.mem));
      FreeStackMap(t, p);
      FreeStackKeeps(t, []);
      assert FreeStack(s).value.refuels == [b] + FreeStack(t).value.refuels;
    } else {
      UnstackSynced(s);
      UnstackCounts(s.mem);
      UnstackMap(s.mem, p);
      FreeStackMap(State(s.free, Unstack(s.mem)), p);
    }
  }

  lemma {:induction false} RefuelMap(s: State, p: int)
    requires Synced(s) && Refuel(s).Some?
    ensures var (r, b) := Refuel(s).value;
      TypeAt(r.mem.m, p) == if b <= p < b + REFUEL_PAGES then At(RuntimeData) else TypeAt(s.mem.m, p)
  {
    hide AllocRaw, Convert, TakePages, WellFormed, Agree, InRange, SlotsOk, Sorted, Coalesced;
    var (r, b) := AllocRaw(s, AnyPages, RuntimeData, REFUEL_PAGES, 0).value;
    AllocRawShape(s, AnyPages, RuntimeData, REFUEL_PAGES, 0);
    TakePagesIsExact(s.free, AnyPages, REFUEL_PAGES, 0);
    FreeRunInOneEntry(s, b, REFUEL_PAGES);
    ConvertInTypeAt(s.mem, RuntimeData, b, b + REFUEL_PAGES - 1, p);
  }

  /** Emptying the stack takes one descriptor off the heap for each on the stack. A refuel adds
      its own, less at most the two its own merges abandon on the stack. */
  lemma {:induction false} FreeStackDescriptors(s: State)
    requires WellFormed(s.free) && Drains(s.mem) && FreeStack(s).Some?
    ensures var f := FreeStack(s).value; var all := Descriptors(s.mem) + REFUEL_ENTRIES * |f.refuels|;
      all - 2 * |f.refuels| <= Descriptors(f.s.mem) <= all
    decreases if s.mem.depth <= s.mem.spare then s.mem.depth else s.mem.depth + 3
  {
    hide Convert, WellFormed, Refuel, Unstack;
    if s.mem.depth == 0 {
    } else if s.mem.spare == 0 {
      var (r, b) := Refuel(s).value;
      RefuelDrains(s);
      RefuelDescriptors(s);
      UnstackCounts(r.mem);
      var t := State(r.free, Unstack(r.mem));
      FreeStackDescriptors(t);
      assert FreeStack(s).value.refuels == [b] + FreeStack(t).value.refuels;
    } else {
      UnstackCounts(s.mem);
      FreeStackDescriptors(State(s.free, Unstack(s.mem)));
    }
  }

  lemma {:induction false} RefuelDescriptors(s: State)
    requires WellFormed(s.free) && Refuel(s).Some?
    ensures var d := Descriptors(Refuel(s).value.0.mem);
      Descriptors(s.mem) + REFUEL_ENTRIES - 2 <= d <= Descriptors(s.mem) + REFUEL_ENTRIES
  {
    hide AllocRaw, Convert, TakePages, WellFormed;
    var (r, b) := AllocRaw(s, AnyPages, RuntimeData, REFUEL_PAGES, 0).value;
    AllocRawShape(s, AnyPages, RuntimeData, REFUEL_PAGES, 0);
    ConvertDescriptors(s.mem, RuntimeData, b, b + REFUEL_PAGES - 1);
  }

  // ---------- runs ----------

  /** The allocator with what it has handed out and how many free pages it was ever given. */
  datatype World = World(s: State, held: seq<Block>, added: nat)

  datatype Action =
    | AddPages(page: nat, pages: nat, inUse: bool)
    | Allocate(kind: AllocateType, typ: MemType, pages: nat, request: nat)
    | Release(page: nat, pages: nat)

  const EMPTY: World := World(State([], Mapped([], 0, 0)), [], 0)

  ghost predicate WorldOk(w: World) {
    && Synced(w.s) && w.s.mem.depth == 0 && HeldOk(w.s.mem.m, w.held)
    && TotalPages(w.s.free) + HeldPages(w.held) == w.added
  }

  /** The n pages from page p on are part of an allocation that is not a descriptor page. */
  ghost predicate Owned(w: World, p: nat, n: nat) {
    exists i | 0 <= i < |w.held| :: OwnedBy(w.held[i], p, n)
  }

  predicate OwnedBy(x: Block, p: nat, n: nat) {
    !x.descriptor && x.first <= p && p + n <= x.first + x.pages
  }

  /** What callers owe: regions are disjoint from what is mapped, and a free one does not touch a
      Conventional entry below it that has an entry above; a released range is part of one
      allocation, or else one the allocator refuses. */
  ghost predicate Legal(w: World, a: Action) {
    match a
    case AddPages(p, n, inUse) =>
      && NodeOk(Node(p, n))
      && InHole(w.s.mem.m, p, p + n - 1)
      && (inUse || !LeavesMergeable(w.s.mem.m, Conventional, p))
    case Allocate(kind, typ, n, request) => RequestOk(kind, n, request)
    case Release(p, n) => NodeOk(Node(p, n)) && (Overlaps(w.s.free, p, n) || Owned(w, p, n))
  }

  /** What is left of a block when n pages from p on are released. */
  function Cut(x: Block, p: nat, n: nat): seq<Block>
    requires OwnedBy(x, p, n)
  {
    (if x.first < p then [x.(pages := p - x.first)] else [])
    + (if p + n < x.first + x.pages then [x.(first := p + n, pages := x.first + x.pages - (p + n))] else [])
  }

  /** The first block that owns the range, or the number of blocks. */
  function OwnerIndex(held: seq<Block>, p: nat, n: nat): (i: nat)
    ensures i <= |held|
    ensures i < |held| ==> OwnedBy(held[i], p, n)
    ensures forall j | 0 <= j < i :: !OwnedBy(held[j], p, n)
  {
    if held == [] || OwnedBy(held[0], p, n) then 0 else 1 + OwnerIndex(held[1..], p, n)
  }

  function AfterRelease(held: seq<Block>, p: nat, n: nat): seq<Block> {
    var i := OwnerIndex(held, p, n);
    if i == |held| then held else held[..i] + Cut(held[i], p, n) + held[i + 1..]
  }

  /** One service call. None: the descriptor refuel ran out of memory and the code halts. */
  function Step(w: World, a: Action): Option<World>
    requires WorldOk(w) && Legal(w, a)
  {
    match a
    case AddPages(p, n, inUse) =>
      (match AddPagesAt(w.s, p, n, inUse)
       case None => None
       case Some(f) => Some(World(f.s, w.held + RefuelBlocks(f.refuels), if inUse then w.added else w.added + n)))
    case Allocate(kind, typ, n, request) =>
      (match AllocatePages(w.s, kind, typ, n, request)
       case None => None
       case Some((status, b, f)) =>
         Some(World(f.s, (if status == Success then w.held + [Block(b, n, typ, false)] else w.held)
                    + RefuelBlocks(f.refuels), w.added)))
    case Release(p, n) =>
      (match ReleasePages(w.s, p, n)
       case None => None
       case Some((status, f)) =>
         Some(World(f.s, (if status == Success then AfterRelease(w.held, p, n) else w.held) + RefuelBlocks(f.refuels),
                    w.added)))
  }

  // ---------- every step keeps the world in order ----------

  lemma {:induction false} SubrangeInside(m: seq<Entry>, lo: int, hi: int, t: MemType, lo': int, hi': int)
    requires Inside(m, lo, hi, t) && lo <= lo' && hi' <= hi
    ensures Inside(m, lo', hi', t)
  {
    var i :| 0 <= i < |m| && m[i].typ == t && m[i].Contains(lo, hi);
    assert m[i].Contains(lo', hi');
  }

  lemma {:induction false} CutPieces(m: seq<Entry>, x: Block, p: nat, n: nat)
    requires BlockOk(m, x) && OwnedBy(x, p, n) && 0 < n
    ensures HeldOk(m, Cut(x, p, n))
    ensures forall k | 0 <= k < |Cut(x, p, n)| ::
      var y := Cut(x, p, n)[k]; !y.Meets(p, p + n - 1) && x.first <= y.first && y.first + y.pages <= x.first + x.pages
    ensures HeldPages(Cut(x, p, n)) == x.pages - n
  {
    var left := if x.first < p then [x.(pages := p - x.first)] else [];
    var right := if p + n < x.first + x.pages then [x.(first := p + n, pages := x.first + x.pages - (p + n))] else [];
    HeldPagesConcat(left, right);
    HeldPagesOne(x.(pages := if x.first < p then p - x.first else 0));
    HeldPagesOne(x.(first := p + n, pages := x.first + x.pages - (p + n)));
    if x.first < p {
      SubrangeInside(m, x.first, x.first + x.pages - 1, x.typ, x.first, p - 1);
    }
    if p + n < x.first + x.pages {
      SubrangeInside(m, x.first, x.first + x.pages - 1, x.typ, p + n, x.first + x.pages - 1);
    }
    hide HeldPages, Inside;
  }

  lemma {:induction false} HeldPagesOne(x: Block)
    ensures HeldPages([x]) == x.pages && HeldPages([]) == 0
  {
  }

  /** Replacing a block by blocks within its bounds. */
  lemma {:induction false} HeldReplace(m: seq<Entry>, held: seq<Block>, i: nat, mid: seq<Block>)
    requires HeldOk(m, held) && i < |held| && HeldOk(m, mid)
    requires forall k | 0 <= k < |mid| ::
      held[i].first <= mid[k].first && mid[k].first + mid[k].pages <= held[i].first + held[i].pages
    ensures HeldOk(m, held[..i] + mid + held[i + 1..])
  {
    hide BlockOk;
    var r := held[..i] + mid + held[i + 1..];
    forall k | 0 <= k < |r| ensures BlockOk(m, r[k]) {
      assert r[k] in held || r[k] in mid;
    }
  }

  lemma {:induction false} HeldReplacePages(held: seq<Block>, i: nat, mid: seq<Block>)
    requires i < |held|
    ensures HeldPages(held[..i] + mid + held[i + 1..]) == HeldPages(held) - held[i].pages + HeldPages(mid)
  {
    assert held == held[..i] + ([held[i]] + held[i + 1..]);
    HeldPagesConcat(held[..i], [held[i]] + held[i + 1..]);
    HeldPagesConcat([held[i]], held[i + 1..]);
    HeldPagesConcat(held[..i] + mid, held[i + 1..]);
    HeldPagesConcat(held[..i], mid);
  }

  /** After the cut, the blocks still in use are in order and none meets the released range. */
  lemma {:induction false} AfterReleaseHeld(m: seq<Entry>, held: seq<Block>, p: nat, n: nat)
    requires HeldOk(m, held) && 0 < n && OwnerIndex(held, p, n) < |held|
    ensures var held' := AfterRelease(held, p, n);
      && HeldOk(m, held') && HeldPages(held') == HeldPages(held) - n
      && forall k | 0 <= k < |held'| :: !held'[k].Meets(p, p + n - 1)
  {
    var i := OwnerIndex(held, p, n);
    var mid := Cut(held[i], p, n);
    assert BlockOk(m, held[i]);
    CutPieces(m, held[i], p, n);
    HeldReplace(m, held, i, mid);
    HeldReplacePages(held, i, mid);
    OthersMissRange(m, held, i, mid, p, n);
  }

  lemma {:induction false} OthersMissRange(m: seq<Entry>, held: seq<Block>, i: nat, mid: seq<Block>, p: nat, n: nat)
    requires HeldOk(m, held) && i < |held| && OwnedBy(held[i], p, n) && 0 < n
    requires forall k | 0 <= k < |mid| :: !mid[k].Meets(p, p + n - 1)
    ensures var r := held[..i] + mid + held[i + 1..]; forall k | 0 <= k < |r| :: !r[k].Meets(p, p + n - 1)
  {
    hide BlockOk;
    var r := held[..i] + mid + held[i + 1..];
    forall k | 0 <= k < |r| ensures !r[k].Meets(p, p + n - 1) {
      if k < i {
        assert r[k] == held[k];
      } else if i + |mid| <= k {
        assert r[k] == held[k - |mid| + 1];
      }
    }
  }

  /** Owned pages lie in one entry, which is not Conventional; none of them is free. */
  lemma {:induction false} OwnedInOneEntry(s: State, x: Block, p: nat, n: nat)
    requires Synced(s) && BlockOk(s.mem.m, x) && OwnedBy(x, p, n) && 0 < n
    ensures InOneEntry(s.mem.m, p, p + n - 1) && !Overlaps(s.free, p, n)
  {
    SubrangeInside(s.mem.m, x.first, x.first + x.pages - 1, x.typ, p, p + n - 1);
    forall q | p <= q < p + n ensures !IsFree(s.free, q) {
      InsideHasType(s.mem.m, x.first, x.first + x.pages - 1, x.typ, q);
    }
  }

  /** Releasing owned pages: accepted, in step, and the rest of the blocks stay as they were. */
  lemma {:induction false} ReleaseKeeps(s: State, held: seq<Block>, p: nat, n: nat)
    requires Synced(s) && HeldOk(s.mem.m, held) && NodeOk(Node(p, n))
    requires OwnerIndex(held, p, n) < |held|
    ensures var (status, r) := FreeRaw(s, p, n); var held' := AfterRelease(held, p, n);
      && status == Success && Synced(r) && HeldOk(r.mem.m, held')
      && TotalPages(r.free) + HeldPages(held') == TotalPages(s.free) + HeldPages(held)
  {
    hide Convert, WellFormed, Agree, InRange, SlotsOk, Sorted, Coalesced, FreeRange, AfterRelease;
    assert BlockOk(s.mem.m, held[OwnerIndex(held, p, n)]);
    OwnedInOneEntry(s, held[OwnerIndex(held, p, n)], p, n);
    FreeRangeAccepts(s.free, p, n);
    FreeRangeIsExact(s.free, p, n);
    ConvertInSynced(s, FreeRange(s.free, p, n).value, Conventional, p, p + n - 1);
    AfterReleaseHeld(s.mem.m, held, p, n);
    ConvertKeepsHeld(s.mem, Conventional, p, p + n - 1, AfterRelease(held, p, n));
  }

  /** A hole becomes an entry; a Conventional one must leave no mergeable neighbours. */
  lemma {:induction false} ConvertHoleSynced(s: State, l: seq<Node>, typ: MemType, lo: nat, hi: nat)
    requires Synced(s) && WellFormed(l) && 0 < lo <= hi < WORD_PAGES - 1 && InHole(s.mem.m, lo, hi)
    requires typ == Conventional ==> !LeavesMergeable(s.mem.m, typ, lo)
    requires forall p :: IsFree(l, p) <==> if lo <= p <= hi then typ == Conventional else IsFree(s.free, p)
    ensures Synced(State(l, Convert(s.mem, typ, lo, hi)))
  {
    hide Convert, WellFormed, SlotsOk;
    var r := Convert(s.mem, typ, lo, hi).m;
    ConvertHoleSorted(s.mem, typ, lo, hi);
    ConvertSlots(s.mem, typ, lo, hi);
    if typ == Conventional {
      ConvertHoleCoalesced(s.mem, typ, lo, hi);
    } else {
      ConvertHoleOther(s.mem, typ, lo, hi, Conventional);
    }
    forall p ensures TypeAt(r, p) == if lo <= p <= hi then At(typ) else TypeAt(s.mem.m, p) {
      ConvertHoleTypeAt(s.mem, typ, lo, hi, p);
    }
  }

  lemma {:induction false} ConvertHoleHeld(s: Mapped, typ: MemType, lo: nat, hi: nat, held: seq<Block>)
    requires Sorted(s.m) && lo <= hi && InHole(s.m, lo, hi) && HeldOk(s.m, held)
    ensures HeldOk(Convert(s, typ, lo, hi).m, held)
  {
    hide Convert, InHole, Sorted, Inside;
    forall i | 0 <= i < |held| ensures BlockOk(Convert(s, typ, lo, hi).m, held[i]) {
      var x := held[i];
      assert BlockOk(s.m, x);
      ConvertHoleInside(s, typ, lo, hi, x.first, x.first + x.pages - 1, x.typ);
    }
  }

  /** What the map does not know is not free. */
  lemma {:induction false} UnmappedNotFree(s: State, lo: nat, n: nat)
    requires Synced(s) && 0 < n && InHole(s.mem.m, lo, lo + n - 1)
    ensures !Overlaps(s.free, lo, n)
  {
    forall q | lo <= q < lo + n ensures !IsFree(s.free, q) {
      TypeAtHole(s.mem.m, q);
    }
  }

  lemma {:induction false} AddFreeKeeps(s: State, held: seq<Block>, p: nat, n: nat)
    requires Synced(s) && HeldOk(s.mem.m, held) && NodeOk(Node(p, n))
    requires InHole(s.mem.m, p, p + n - 1) && !LeavesMergeable(s.mem.m, Conventional, p)
    ensures var (status, r) := FreeRaw(s, p, n);
      && status == Success && Synced(r) && HeldOk(r.mem.m, held) && TotalPages(r.free) == TotalPages(s.free) + n
  {
    hide Convert, WellFormed, Agree, InRange, SlotsOk, Sorted, Coalesced, FreeRange, HeldOk;
    UnmappedNotFree(s, p, n);
    FreeRangeAccepts(s.free, p, n);
    FreeRangeIsExact(s.free, p, n);
    ConvertHoleSynced(s, FreeRange(s.free, p, n).value, Conventional, p, p + n - 1);
    ConvertHoleHeld(s.mem, Conventional, p, p + n - 1, held);
  }

  lemma {:induction false} AddReservedKeeps(s: State, held: seq<Block>, p: nat, n: nat)
    requires Synced(s) && HeldOk(s.mem.m, held) && NodeOk(Node(p, n)) && InHole(s.mem.m, p, p + n - 1)
    ensures var m := Convert(s.mem, RuntimeData, p, p + n - 1); Synced(State(s.free, m)) && HeldOk(m.m, held)
  {
    hide Convert, WellFormed, InRange, SlotsOk, Sorted, Coalesced, HeldOk;
    UnmappedNotFree(s, p, n);
    ConvertHoleSynced(s, s.free, RuntimeData, p, p + n - 1);
    ConvertHoleHeld(s.mem, RuntimeData, p, p + n - 1, held);
  }

  lemma {:induction false} AddPagesKeeps(w: World, p: nat, n: nat, inUse: bool)
    requires WorldOk(w) && Legal(w, AddPages(p, n, inUse)) && Step(w, AddPages(p, n, inUse)).Some?
    ensures WorldOk(Step(w, AddPages(p, n, inUse)).value)
  {
    hide Convert, WellFormed, Synced, HeldOk, HeldPages, TotalPages, FreeRaw, FreeStack, InHole;
    SyncedIsWellFormed(w.s);
    if inUse {
      AddReservedKeeps(w.s, w.held, p, n);
      ConvertDepth(w.s.mem, RuntimeData, p, p + n - 1);
      FreeStackKeeps(State(w.s.free, Convert(w.s.mem, RuntimeData, p, p + n - 1)), w.held);
    } else {
      AddFreeKeeps(w.s, w.held, p, n);
      FreeRawDrains(w.s, p, n);
      FreeStackKeeps(FreeRaw(w.s, p, n).1, w.held);
    }
  }

  lemma {:induction false} SyncedIsWellFormed(s: State)
    requires Synced(s)
    ensures WellFormed(s.free)
  {
  }

  lemma {:induction false} AllocateKeeps(w: World, kind: AllocateType, typ: MemType, n: nat, request: nat)
    requires WorldOk(w) && RequestOk(kind, n, request) && Step(w, Allocate(kind, typ, n, request)).Some?
    ensures WorldOk(Step(w, Allocate(kind, typ, n, request)).value)
  {
    hide WellFormed, Synced, HeldOk, HeldPages, TotalPages, AllocRaw, FreeStack;
    SyncedIsWellFormed(w.s);
    var (status, b, f) := AllocatePages(w.s, kind, typ, n, request).value;
    if status == Success {
      var (r, b) := AllocRaw(w.s, kind, typ, n, request).value;
      AllocRawSynced(w.s, kind, typ, n, request);
      AllocRawHeld(w.s, kind, typ, n, request, w.held, false);
      AllocRawDrains(w.s, kind, typ, n, request);
      FreeStackKeeps(r, w.held + [Block(b, n, typ, false)]);
    } else {
      assert w.held + RefuelBlocks([]) == w.held;
    }
  }

  // ---------- what is asked for, and what is answered ----------

  /** The n pages from page p on are free, and where the caller wants them. */
  ghost predicate Suits(s: State, kind: AllocateType, n: nat, request: nat, p: nat) {
    && RunFree(s.free, p, n) && kind != OtherType
    && (kind == MaxAddress ==> (p + n) * PAGE_SIZE <= request + 1)
    && (kind == AtAddress ==> p * PAGE_SIZE == request)
  }

  ghost predicate Permitted(kind: AllocateType, typ: MemType, n: nat) {
    (typ == RuntimeCode || typ == RuntimeData) && kind != OtherType && n <= WORD_PAGES
  }

  /** The pages taken off the free list are the highest that suit; none are taken exactly when
      none suit. */
  lemma {:induction false} TakePagesSuits(s: State, kind: AllocateType, n: nat, request: nat)
    requires Synced(s) && RequestOk(kind, n, request)
    ensures TakePages(s.free, kind, n, request).Some? <==> exists p: nat :: Suits(s, kind, n, request, p)
    ensures TakePages(s.free, kind, n, request).Some? ==>
      var b := TakePages(s.free, kind, n, request).value.1;
      Suits(s, kind, n, request, b) && forall p: nat | Suits(s, kind, n, request, p) :: p <= b
  {
    SyncedIsWellFormed(s);
    hide RunFree, Synced, WellFormed, AllocMax, AllocAt;
    if kind == AnyPages {
      AllocMaxIsHighest(s.free, n, WORD - 1);
      AnyPagesFit(s.free, n);
    } else if kind == MaxAddress {
      AllocMaxIsHighest(s.free, n, request);
    } else if kind == AtAddress {
      AllocAtFinds(s.free, n, request / PAGE_SIZE);
      RequestPage(request);
    }
    if TakePages(s.free, kind, n, request).Some? {
      assert Suits(s, kind, n, request, TakePages(s.free, kind, n, request).value.1);
    }
  }

  lemma {:induction false} RequestPage(request: nat)
    ensures request % PAGE_SIZE == 0 <==> request / PAGE_SIZE * PAGE_SIZE == request
    ensures forall p: nat :: p * PAGE_SIZE == request ==> p == request / PAGE_SIZE
  {
  }

  /** Free pages end below the last page of the word. */
  lemma {:induction false} AnyPagesFit(l: seq<Node>, n: nat)
    requires WellFormed(l) && 0 < n
    ensures forall p: nat | RunFree(l, p, n) :: (p + n) * PAGE_SIZE <= WORD
  {
    forall p: nat | RunFree(l, p, n) ensures (p + n) * PAGE_SIZE <= WORD {
      var j := RunInOneNode(l, p, n);
    }
  }

  /** An allocation is granted, or halts for want of a descriptor, exactly when free pages suit the
      request; it gives the highest such pages. It is refused with a status that says why, and then
      changes nothing. */
  lemma {:induction false} AllocateAnswers(s: State, kind: AllocateType, typ: MemType, n: nat, request: nat)
    requires Synced(s) && s.mem.depth == 0 && RequestOk(kind, n, request)
    ensures var r := AllocatePages(s, kind, typ, n, request);
      && (r.None? || r.value.0 == Success
          <==> Permitted(kind, typ, n) && exists p: nat :: Suits(s, kind, n, request, p))
      && (r.Some? && r.value.0 == Success ==>
            && Suits(s, kind, n, request, r.value.1)
            && forall p: nat | Suits(s, kind, n, request, p) :: p <= r.value.1)
      && (r.Some? && r.value.0 != Success ==>
            && r.value.2 == Freed(s, [])
            && r.value.0 == if typ != RuntimeCode && typ != RuntimeData then InvalidParameter
                            else if n > WORD_PAGES then OutOfResources
                            else if kind == OtherType then InvalidParameter
                            else if kind == AtAddress then NotFound
                            else OutOfResources)
  {
    SyncedIsWellFormed(s);
    TakePagesSuits(s, kind, n, request);
    AllocRawTakes(s, kind, typ, n, request);
    hide Suits, AllocRaw, FreeStack, WellFormed, Synced;
  }

  lemma {:induction false} AllocRawTakes(s: State, kind: AllocateType, typ: MemType, n: nat, request: nat)
    requires WellFormed(s.free) && RequestOk(kind, n, request)
    ensures var r, t := AllocRaw(s, kind, typ, n, request), TakePages(s.free, kind, n, request);
      (r.Some? <==> t.Some?) && (r.Some? ==> r.value.1 == t.value.1)
  {
    hide TakePages, Convert, WellFormed;
  }

  // ---------- what each service does to the map ----------

  predicate InRefuel(f: Freed, q: int) {
    f.refuels != [] && f.refuels[0] <= q < f.refuels[0] + REFUEL_PAGES
  }

  /** What page q is when the stack has been emptied, when it was t before. */
  function Then(f: Freed, q: int, t: Lookup): Lookup {
    if InRefuel(f, q) then At(RuntimeData) else t
  }

  /** An allocation gives its pages their type, and with a refuel the refuel's; no other page
      changes. */
  lemma {:induction false} AllocateMap(s: State, kind: AllocateType, typ: MemType, n: nat, request: nat, q: int)
    requires Synced(s) && s.mem.depth == 0 && RequestOk(kind, n, request)
    requires var r := AllocatePages(s, kind, typ, n, request); r.Some? && r.value.0 == Success
    ensures var (_, b, f) := AllocatePages(s, kind, typ, n, request).value;
      TypeAt(f.s.mem.m, q) == Then(f, q, if b <= q < b + n then At(typ) else TypeAt(s.mem.m, q))
  {
    hide AllocRaw, FreeStack, Convert, TakePages, Synced, WellFormed, RunFree;
    SyncedIsWellFormed(s);
    var (_, b, f) := AllocatePages(s, kind, typ, n, request).value;
    var r := AllocRaw(s, kind, typ, n, request).value.0;
    AllocRawSynced(s, kind, typ, n, request);
    AllocRawDrains(s, kind, typ, n, request);
    AllocRawShape(s, kind, typ, n, request);
    TakePagesIsExact(s.free, kind, n, request);
    FreeRunInOneEntry(s, b, n);
    SyncedIsSorted(s);
    ConvertInTypeAt(s.mem, typ, b, b + n - 1, q);
    FreeStackMap(r, q);
  }

  lemma {:induction false} SyncedIsSorted(s: State)
    requires Synced(s)
    ensures Sorted(s.mem.m)
  {
  }

  /** A release is accepted exactly when none of its pages is free; then they are Conventional, and
      no other page changes but those of a refuel. */
  lemma {:induction false} ReleaseMap(w: World, p: nat, n: nat, q: int)
    requires WorldOk(w) && Legal(w, Release(p, n))
    ensures var r := ReleasePages(w.s, p, n);
      && (r.Some? && r.value.0 != Success <==> Overlaps(w.s.free, p, n))
      && (r.Some? && r.value.0 != Success ==> r.value == (InvalidParameter, Freed(w.s, [])))
      && (r.Some? && r.value.0 == Success ==> var f := r.value.1;
            TypeAt(f.s.mem.m, q) == Then(f, q, if p <= q < p + n then At(Conventional) else TypeAt(w.s.mem.m, q)))
  {
    hide FreeStack, Convert, Synced, WellFormed, FreeRange, AfterRelease, HeldOk, HeldPages, TotalPages;
    SyncedIsWellFormed(w.s);
    SyncedIsSorted(w.s);
    FreeRangeAccepts(w.s.free, p, n);
    if !Overlaps(w.s.free, p, n) {
      OwnerFound(w.held, p, n);
      var i := OwnerIndex(w.held, p, n);
      HeldBlockOk(w.s.mem.m, w.held, i);
      OwnedInOneEntry(w.s, w.held[i], p, n);
      ReleaseKeeps(w.s, w.held, p, n);
      FreeRawDrains(w.s, p, n);
      ConvertInTypeAt(w.s.mem, Conventional, p, p + n - 1, q);
      if FreeStack(FreeRaw(w.s, p, n).1).Some? {
        FreeStackMap(FreeRaw(w.s, p, n).1, q);
      }
    }
  }

  /** A release by address is refused exactly when the address is not that of a page, or some page is
      free already. */
  lemma {:induction false} ReleaseAnswers(w: World, a: nat, n: nat)
    requires WorldOk(w) && Legal(w, Release(a / PAGE_SIZE, n))
    ensures var r := ReleaseAddress(w.s, a, n);
      && (r.Some? && r.value.0 != Success <==> a % 4096 != 0 || Overlaps(w.s.free, a / PAGE_SIZE, n))
      && (r.Some? && r.value.0 != Success ==> r.value == (InvalidParameter, Freed(w.s, [])))
  {
    ReleaseMap(w, a / PAGE_SIZE, n, 0);
    hide WorldOk, ReleasePages, Overlaps;
  }

  lemma {:induction false} OwnerFound(held: seq<Block>, p: nat, n: nat)
    requires exists i | 0 <= i < |held| :: OwnedBy(held[i], p, n)
    ensures OwnerIndex(held, p, n) < |held|
  {
  }

  lemma {:induction false} HeldBlockOk(m: seq<Entry>, held: seq<Block>, i: nat)
    requires HeldOk(m, held) && i < |held|
    ensures BlockOk(m, held[i])
  {
  }

  /** A region gets its type, Conventional or RuntimeData, and no other page changes but those of a
      refuel. */
  lemma {:induction false} RegionMap(w: World, p: nat, n: nat, inUse: bool, q: int)
    requires WorldOk(w) && Legal(w, AddPages(p, n, inUse)) && AddPagesAt(w.s, p, n, inUse).Some?
    ensures var f := AddPagesAt(w.s, p, n, inUse).value;
      TypeAt(f.s.mem.m, q) ==
        Then(f, q, if p <= q < p + n then At(if inUse then RuntimeData else Conventional) else TypeAt(w.s.mem.m, q))
  {
    hide FreeStack, Convert, Synced, WellFormed, FreeRange, HeldOk, HeldPages, TotalPages, InHole;
    SyncedIsWellFormed(w.s);
    SyncedIsSorted(w.s);
    if inUse {
      AddReservedKeeps(w.s, w.held, p, n);
      ConvertDepth(w.s.mem, RuntimeData, p, p + n - 1);
      ConvertHoleTypeAt(w.s.mem, RuntimeData, p, p + n - 1, q);
      FreeStackMap(State(w.s.free, Convert(w.s.mem, RuntimeData, p, p + n - 1)), q);
    } else {
      AddFreeKeeps(w.s, w.held, p, n);
      FreeRawDrains(w.s, p, n);
      ConvertHoleTypeAt(w.s.mem, Conventional, p, p + n - 1, q);
      FreeStackMap(FreeRaw(w.s, p, n).1, q);
    }
  }

  /** The pages of a region are those that lie wholly in it. */
  lemma {:induction false} RegionIsWhole(base: nat, length: nat, q: nat)
    ensures base <= q * PAGE_SIZE && (q + 1) * PAGE_SIZE <= base + length
      <==> RegionFirst(base) <= q < RegionFirst(base) + RegionPages(base, length)
  {
  }

  lemma {:induction false} ReleaseStepKeeps(w: World, p: nat, n: nat)
    requires WorldOk(w) && Legal(w, Release(p, n)) && Step(w, Release(p, n)).Some?
    ensures WorldOk(Step(w, Release(p, n)).value)
  {
    hide WellFormed, Synced, HeldOk, HeldPages, TotalPages, FreeRaw, FreeStack, AfterRelease;
    SyncedIsWellFormed(w.s);
    if FreeRaw(w.s, p, n).0 == Success {
      ReleaseIsOwned(w, p, n);
      ReleaseKeeps(w.s, w.held, p, n);
      FreeRawDrains(w.s, p, n);
      FreeStackKeeps(FreeRaw(w.s, p, n).1, AfterRelease(w.held, p, n));
    } else {
      assert w.held + RefuelBlocks([]) == w.held;
    }
  }

  lemma {:induction false} ReleaseIsOwned(w: World, p: nat, n: nat)
    requires WorldOk(w) && Legal(w, Release(p, n)) && FreeRaw(w.s, p, n).0 == Success
    ensures OwnerIndex(w.held, p, n) < |w.held|
  {
    hide Convert, HeldOk;
    FreeRangeAccepts(w.s.free, p, n);
    assert Owned(w, p, n);
  }

  /** Every service call keeps the free list and the map in step, every block inside one
      entry of its type, and the page count. */
  lemma {:induction false} StepKeeps(w: World, a: Action)
    requires WorldOk(w) && Legal(w, a) && Step(w, a).Some?
    ensures WorldOk(Step(w, a).value)
  {
    hide WorldOk, Legal, Step;
    match a
    case AddPages(p, n, inUse) => AddPagesKeeps(w, p, n, inUse);
    case Allocate(kind, typ, n, request) => LegalAllocate(w, a); AllocateKeeps(w, kind, typ, n, request);
    case Release(p, n) => ReleaseStepKeeps(w, p, n);
  }

  lemma {:induction false} LegalAllocate(w: World, a: Action)
    requires Legal(w, a) && a.Allocate?
    ensures RequestOk(a.kind, a.pages, a.request)
  {
  }

  // ---------- descriptors over a run ----------

  /** How many refuels there have been: their pages stay in use. */
  function Refuels(held: seq<Block>): nat {
    if held == [] then 0 else (if held[0].descriptor then 1 else 0) + Refuels(held[1..])
  }

  lemma {:induction false} RefuelsConcat(x: seq<Block>, y: seq<Block>)
    ensures Refuels(x + y) == Refuels(x) + Refuels(y)
  {
    if x == [] {
      assert x + y == y;
    } else {
      RefuelsConcat(x[1..], y);
      assert (x + y)[1..] == x[1..] + y;
    }
  }

  lemma {:induction false} RefuelsOf(held: seq<Block>, bs: seq<nat>)
    requires |bs| <= 1
    ensures Refuels(held + RefuelBlocks(bs)) == Refuels(held) + |bs|
  {
    RefuelsConcat(held, RefuelBlocks(bs));
    if bs != [] {
      assert RefuelBlocks(bs) == [Block(bs[0], REFUEL_PAGES, RuntimeData, true)];
    }
  }

  lemma {:induction false} RefuelsOfAllocation(held: seq<Block>, x: Block)
    requires !x.descriptor
    ensures Refuels(held + [x]) == Refuels(held)
  {
    RefuelsConcat(held, [x]);
  }

  lemma {:induction false} RefuelsOfOne(x: Block)
    ensures Refuels([]) == 0 && Refuels([x]) == if x.descriptor then 1 else 0
  {
  }

  lemma {:induction false} RefuelsOfCut(x: Block, p: nat, n: nat)
    requires OwnedBy(x, p, n)
    ensures Refuels(Cut(x, p, n)) == 0 && Refuels([x]) == 0
  {
    hide Refuels;
    RefuelsOfOne(x);
    var left := if x.first < p then [x.(pages := p - x.first)] else [];
    var right := if p + n < x.first + x.pages then [x.(first := p + n, pages := x.first + x.pages - (p + n))] else [];
    RefuelsConcat(left, right);
    RefuelsOfOne(if left == [] then x else left[0]);
    RefuelsOfOne(if right == [] then x else right[0]);
  }

  lemma {:induction false} RefuelsAfterRelease(held: seq<Block>, p: nat, n: nat)
    ensures Refuels(AfterRelease(held, p, n)) == Refuels(held)
  {
    var i := OwnerIndex(held, p, n);
    if i < |held| {
      var mid := Cut(held[i], p, n);
      RefuelsOfCut(held[i], p, n);
      assert held == held[..i] + [held[i]] + held[i + 1..];
      RefuelsConcat(held[..i] + mid, held[i + 1..]);
      RefuelsConcat(held[..i], mid);
      RefuelsConcat(held[..i] + [held[i]], held[i + 1..]);
      RefuelsConcat(held[..i], [held[i]]);
    }
  }

  /** No entry is on the stack, and map entries and free descriptors add up to what the refuels
      gave, but for at most two lost in each. */
  ghost predicate Banked(s: State, refuels: nat) {
    && OnHeap(s.mem.m) && s.mem.depth == 0
    && (REFUEL_ENTRIES - 2) * refuels <= |s.mem.m| + s.mem.spare <= REFUEL_ENTRIES * refuels
  }

  lemma {:induction false} StackBanked(s: State, r: State, refuels: nat)
    requires Banked(s, refuels) && Descriptors(r.mem) == Descriptors(s.mem)
    requires Synced(r) && Drains(r.mem) && FreeStack(r).Some?
    ensures var f := FreeStack(r).value; |f.refuels| <= 1 && Banked(f.s, refuels + |f.refuels|)
  {
    hide Synced, Drains, FreeStack;
    SyncedIsWellFormed(r);
    FreeStackDescriptors(r);
    FreeStackKeeps(r, []);
    FreeStackMap(r, 0);
  }

  lemma {:induction false} StepBanked(w: World, a: Action)
    requires WorldOk(w) && Legal(w, a) && Step(w, a).Some? && Banked(w.s, Refuels(w.held))
    ensures var r := Step(w, a).value; Banked(r.s, Refuels(r.held))
  {
    hide WellFormed, Synced, HeldOk, HeldPages, TotalPages, AllocRaw, FreeRaw, FreeStack, AfterRelease, Refuels,
      Convert, InHole, Descriptors;
    SyncedIsWellFormed(w.s);
    match a
    case AddPages(p, n, inUse) => AddPagesBanked(w, p, n, inUse);
    case Allocate(kind, typ, n, request) => AllocateBanked(w, kind, typ, n, request);
    case Release(p, n) => ReleaseBanked(w, p, n);
  }

  lemma {:induction false} AddPagesBanked(w: World, p: nat, n: nat, inUse: bool)
    requires WorldOk(w) && Legal(w, AddPages(p, n, inUse)) && Banked(w.s, Refuels(w.held))
    requires AddPagesAt(w.s, p, n, inUse).Some?
    ensures var f := AddPagesAt(w.s, p, n, inUse).value; Banked(f.s, Refuels(w.held + RefuelBlocks(f.refuels)))
  {
    hide WellFormed, Synced, HeldOk, HeldPages, TotalPages, FreeStack, Refuels, Convert, InHole, Descriptors, FreeRange;
    SyncedIsWellFormed(w.s);
    ConvertDescriptors(w.s.mem, if inUse then RuntimeData else Conventional, p, p + n - 1);
    if inUse {
      AddReservedKeeps(w.s, w.held, p, n);
      ConvertDepth(w.s.mem, RuntimeData, p, p + n - 1);
      StackBanked(w.s, State(w.s.free, Convert(w.s.mem, RuntimeData, p, p + n - 1)), Refuels(w.held));
    } else {
      AddFreeKeeps(w.s, w.held, p, n);
      FreeRawDrains(w.s, p, n);
      StackBanked(w.s, FreeRaw(w.s, p, n).1, Refuels(w.held));
    }
    RefuelsOf(w.held, AddPagesAt(w.s, p, n, inUse).value.refuels);
  }

  lemma {:induction false} AllocateBanked(w: World, kind: AllocateType, typ: MemType, n: nat, request: nat)
    requires WorldOk(w) && RequestOk(kind, n, request) && Banked(w.s, Refuels(w.held))
    requires Step(w, Allocate(kind, typ, n, request)).Some?
    ensures var r := Step(w, Allocate(kind, typ, n, request)).value; Banked(r.s, Refuels(r.held))
  {
    hide WellFormed, Synced, HeldOk, HeldPages, TotalPages, AllocRaw, FreeStack, Refuels, Convert, Descriptors;
    SyncedIsWellFormed(w.s);
    var (status, b, f) := AllocatePages(w.s, kind, typ, n, request).value;
    if status == Success {
      var r := AllocRaw(w.s, kind, typ, n, request).value.0;
      AllocRawSynced(w.s, kind, typ, n, request);
      AllocRawDrains(w.s, kind, typ, n, request);
      AllocRawShape(w.s, kind, typ, n, request);
      ConvertDescriptors(w.s.mem, typ, b, b + n - 1);
      StackBanked(w.s, r, Refuels(w.held));
      RefuelsOfAllocation(w.held, Block(b, n, typ, false));
      RefuelsOf(w.held + [Block(b, n, typ, false)], f.refuels);
    } else {
      RefuelsOf(w.held, []);
    }
  }

  lemma {:induction false} ReleaseBanked(w: World, p: nat, n: nat)
    requires WorldOk(w) && Legal(w, Release(p, n)) && Banked(w.s, Refuels(w.held))
    requires Step(w, Release(p, n)).Some?
    ensures var r := Step(w, Release(p, n)).value; Banked(r.s, Refuels(r.held))
  {
    hide WellFormed, Synced, HeldOk, HeldPages, TotalPages, FreeStack, AfterRelease, Refuels, Convert, Descriptors,
      FreeRange;
    SyncedIsWellFormed(w.s);
    if FreeRaw(w.s, p, n).0 == Success {
      ReleaseIsOwned(w, p, n);
      ReleaseKeeps(w.s, w.held, p, n);
      FreeRawDrains(w.s, p, n);
      ConvertDescriptors(w.s.mem, Conventional, p, p + n - 1);
      StackBanked(w.s, FreeRaw(w.s, p, n).1, Refuels(w.held));
      RefuelsAfterRelease(w.held, p, n);
      RefuelsOf(AfterRelease(w.held, p, n), ReleasePages(w.s, p, n).value.1.refuels);
    } else {
      RefuelsOf(w.held, []);
    }
  }

  /** The worlds that a run of legal calls goes through; a halt ends the run. */
  ghost predicate IsRun(ws: seq<World>, acts: seq<Action>) {
    && |ws| == |acts| + 1 && ws[0] == EMPTY
    && forall i | 0 <= i < |acts| :: IsStep(ws[i], acts[i], ws[i + 1])
  }

  ghost predicate IsStep(w: World, a: Action, w': World) {
    WorldOk(w) ==> Legal(w, a) && Step(w, a) == Some(w')
  }

  /** The main theorem: in every state a run reaches, the Conventional entries of the map are
      exactly the nodes of the free list, every block in use lies inside a single entry of its
      own type and meets no other, and free, used and descriptor pages add up to the pages
      that were added. */
  lemma {:induction false} RunKeepsWorld(ws: seq<World>, acts: seq<Action>, k: nat)
    requires IsRun(ws, acts) && k <= |acts|
    ensures WorldOk(ws[k])
    ensures ws[k].s.free == ConventionalNodes(ws[k].s.mem.m)
  {
    hide WorldOk, Legal, Step;
    if k == 0 {
      EmptyIsOk();
    } else {
      RunKeepsWorld(ws, acts, k - 1);
      assert IsStep(ws[k - 1], acts[k - 1], ws[k]);
      StepKeeps(ws[k - 1], acts[k - 1]);
    }
    WorldIsSynced(ws[k]);
    SyncedListsAreEqual(ws[k].s);
  }

  /** And over a run descriptors are neither made nor lost, but for at most two in a refuel: those
      in the map and the free ones add up to what the refuels gave. */
  lemma {:induction false} RunKeepsDescriptors(ws: seq<World>, acts: seq<Action>, k: nat)
    requires IsRun(ws, acts) && k <= |acts|
    ensures Banked(ws[k].s, Refuels(ws[k].held))
  {
    hide WorldOk, Legal, Step;
    if k > 0 {
      RunKeepsDescriptors(ws, acts, k - 1);
      RunKeepsWorld(ws, acts, k - 1);
      assert IsStep(ws[k - 1], acts[k - 1], ws[k]);
      StepBanked(ws[k - 1], acts[k - 1]);
    }
  }

  lemma {:induction false} WorldIsSynced(w: World)
    requires WorldOk(w)
    ensures Synced(w.s)
  {
  }

  lemma {:induction false} EmptyIsOk()
    ensures WorldOk(EMPTY)
  {
  }
}
