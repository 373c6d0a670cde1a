/** The pool: pages carved into blocks of a power of two, kept on one free list a size. Places
    and sizes are counted in units of MIN_POOL_SIZE, 64 bytes, so a page is 64 units. */
module Pool {
  import opened Machine

  const MIN_POOL_SIZE: nat := 64
  const MAX_POOL_SIZE: nat := 2048
  const MAX_POOL_INDEX: nat := 6
  const PAGE_UNITS: nat := 64
  const HEADER_SIZE: nat := 16

  /** MIN_POOL_SIZE << c, in units. */
  function Units(c: nat): (n: nat)
    ensures n >= 1
  {
    if c == 0 then 1 else 2 * Units(c - 1)
  }

  /** Where a block starts: a page and a unit of that page. */
  datatype Place = Place(page: nat, unit: nat)

  /** A block header; size is in units. */
  datatype Header = Header(size: nat, available: bool)

  datatype Block = Block(place: Place, class_: nat)

  predicate Covers(x: Place, c: nat, p: nat, u: nat) {
    x.page == p && x.unit <= u < x.unit + Units(c)
  }

  /** The free lists, the headers in memory, the blocks in use, and the pages carved so far. */
  datatype Pool = Pool(lists: seq<seq<Place>>, headers: map<Place, Header>, busy: seq<Block>, carved: set<nat>)

  // ---------- how often a unit is covered ----------

  function CountList(l: seq<Place>, c: nat, p: nat, u: nat): nat {
    if l == [] then 0 else (if Covers(l[0], c, p, u) then 1 else 0) + CountList(l[1..], c, p, u)
  }

  function CountLists(lists: seq<seq<Place>>, c: nat, p: nat, u: nat): nat
    decreases |lists| - c
  {
    if c >= |lists| then 0 else CountList(lists[c], c, p, u) + CountLists(lists, c + 1, p, u)
  }

  function CountBusy(bs: seq<Block>, p: nat, u: nat): nat {
    if bs == [] then 0 else CountBusy(bs[..|bs| - 1], p, u) + if Covers(bs[|bs| - 1].place, bs[|bs| - 1].class_, p, u)
      then 1 else 0
  }

  function Count(s: Pool, p: nat, u: nat): nat {
    CountLists(s.lists, 0, p, u) + CountBusy(s.busy, p, u)
  }

  // ---------- what holds at all times ----------

  /** Inside a carved page, and aligned to its size. */
  predicate InPage(x: Place, c: nat, carved: set<nat>) {
    c <= MAX_POOL_INDEX && x.page in carved && x.unit % Units(c) == 0 && x.unit + Units(c) <= PAGE_UNITS
  }

  predicate FreeOk(x: Place, c: nat, headers: map<Place, Header>, carved: set<nat>) {
    InPage(x, c, carved) && x in headers && headers[x] == Header(Units(c), true)
  }

  predicate BusyOk(b: Block, headers: map<Place, Header>, carved: set<nat>) {
    InPage(b.place, b.class_, carved) && b.place in headers && headers[b.place] == Header(Units(b.class_), false)
  }

  ghost predicate AllFreeOk(lists: seq<seq<Place>>, headers: map<Place, Header>, carved: set<nat>) {
    forall c, k :: 0 <= c < |lists| && 0 <= k < |lists[c]| ==> FreeOk(lists[c][k], c, headers, carved)
  }

  ghost predicate AllBusyOk(bs: seq<Block>, headers: map<Place, Header>, carved: set<nat>) {
    forall k :: 0 <= k < |bs| ==> BusyOk(bs[k], headers, carved)
  }

  /** Every unit of every carved page is covered by exactly one block, free or in use, and no
      other unit by any. */
  ghost predicate Tiled(s: Pool) {
    forall p: nat, u: nat :: u < PAGE_UNITS ==> Count(s, p, u) == if p in s.carved then 1 else 0
  }

  ghost predicate PoolOk(s: Pool) {
    && |s.lists| == MAX_POOL_INDEX
    && AllFreeOk(s.lists, s.headers, s.carved) && AllBusyOk(s.busy, s.headers, s.carved)
    && Tiled(s)
  }

  // ---------- allocation and free ----------

  /** No list from i on has a block. */
  predicate NeedsPage(lists: seq<seq<Place>>, i: nat)
    decreases |lists| - i
  {
    i >= |lists| || (lists[i] == [] && NeedsPage(lists, i + 1))
  }

  /** A new page is one block. */
  function Carve(s: Pool, page: nat): Pool {
    Pool(s.lists, s.headers[Place(page, 0) := Header(PAGE_UNITS, false)],
         s.busy + [Block(Place(page, 0), MAX_POOL_INDEX)], s.carved + {page})
  }

  function TakeFirst(s: Pool, i: nat): Pool
    requires i < |s.lists| && s.lists[i] != []
  {
    var x := s.lists[i][0];
    Pool(s.lists[i := s.lists[i][1..]], s.headers[x := Header(Units(i), false)], s.busy + [Block(x, i)], s.carved)
  }

  /** The block last taken is halved: the lower half becomes free, the upper half is the block. */
  function Halve(s: Pool, i: nat): Pool
    requires i < |s.lists| && s.busy != [] && s.busy[|s.busy| - 1].place in s.headers
  {
    var x := s.busy[|s.busy| - 1].place;
    var half := s.headers[x].size / 2;
    var y := Place(x.page, x.unit + half);
    Pool(s.lists[i := [x] + s.lists[i]],
         s.headers[x := Header(half, true)][y := Header(Units(i), false)],
         s.busy[..|s.busy| - 1] + [Block(y, i)], s.carved)
  }

  /** InternalAllocPoolByIndex when it succeeds; page is the page it gets if it needs one. */
  function AllocByIndex(s: Pool, i: nat, page: nat): (r: Pool)
    requires |s.lists| == MAX_POOL_INDEX && i <= MAX_POOL_INDEX
    ensures |r.lists| == MAX_POOL_INDEX && |r.busy| == |s.busy| + 1 && r.busy[|s.busy|].place in r.headers
    ensures r.busy[..|s.busy|] == s.busy && r.busy[|s.busy|].class_ == i
    ensures r.carved == if NeedsPage(s.lists, i) then s.carved + {page} else s.carved
    decreases MAX_POOL_INDEX - i
  {
    if i == MAX_POOL_INDEX then Carve(s, page)
    else if s.lists[i] != [] then TakeFirst(s, i)
    else Halve(AllocByIndex(s, i + 1, page), i)
  }

  /** InternalFreePoolByIndex on the block in use number k: the header says which list. */
  function Free(s: Pool, k: nat): Pool
    requires k < |s.busy| && s.busy[k].place in s.headers && ClassOf(s.headers[s.busy[k].place].size) < |s.lists|
  {
    var x := s.busy[k].place;
    var i := ClassOf(s.headers[x].size);
    Pool(s.lists[i := [x] + s.lists[i]], s.headers[x := s.headers[x].(available := true)],
         s.busy[..k] + s.busy[k + 1..], s.carved)
  }

  /** HighBitSet32 of the size, less MIN_POOL_SHIFT. */
  function ClassOf(size: nat): nat {
    if size <= 1 then 0 else 1 + ClassOf(size / 2)
  }

  lemma {:induction false} ClassOfUnits(c: nat)
    ensures ClassOf(Units(c)) == c
  {
    if c > 0 {
      ClassOfUnits(c - 1);
    }
  }

  // ---------- counting ----------

  function One(x: Place, c: nat, p: nat, u: nat): nat {
    if Covers(x, c, p, u) then 1 else 0
  }

  lemma {:induction false} CountReplace(lists: seq<seq<Place>>, i: nat, l: seq<Place>, c: nat, p: nat, u: nat)
    requires i < |lists|
    ensures CountLists(lists[i := l], c, p, u) + (if c <= i then CountList(lists[i], i, p, u) else 0) ==
      CountLists(lists, c, p, u) + (if c <= i then CountList(l, i, p, u) else 0)
    decreases |lists| - c
  {
    hide CountList;
    if c < |lists| {
      CountReplace(lists, i, l, c + 1, p, u);
    }
  }

  lemma {:induction false} CountBusyStep(bs: seq<Block>, p: nat, u: nat)
    ensures bs != [] ==>
      CountBusy(bs, p, u) == CountBusy(bs[..|bs| - 1], p, u) + One(bs[|bs| - 1].place, bs[|bs| - 1].class_, p, u)
  {
  }

  lemma {:induction false} CountRemove(bs: seq<Block>, k: nat, p: nat, u: nat)
    requires k < |bs|
    ensures CountBusy(bs[..k] + bs[k + 1..], p, u) + One(bs[k].place, bs[k].class_, p, u) == CountBusy(bs, p, u)
  {
    var n, r := |bs| - 1, bs[..k] + bs[k + 1..];
    CountBusyStep(bs, p, u);
    CountBusyStep(r, p, u);
    hide CountBusy, One;
    if k == n {
      assert r == bs[..n];
    } else {
      CountRemove(bs[..n], k, p, u);
      assert r[..|r| - 1] == bs[..n][..k] + bs[..n][k + 1..];
      assert r[|r| - 1] == bs[n];
    }
  }

  lemma {:induction false} ListHas(l: seq<Place>, c: nat, k: nat, p: nat, u: nat)
    requires k < |l| && Covers(l[k], c, p, u)
    ensures CountList(l, c, p, u) > 0
  {
    if k > 0 {
      ListHas(l[1..], c, k - 1, p, u);
    }
  }

  lemma {:induction false} ListsHave(lists: seq<seq<Place>>, c0: nat, c: nat, k: nat, p: nat, u: nat)
    requires c0 <= c < |lists| && k < |lists[c]| && Covers(lists[c][k], c, p, u)
    ensures CountLists(lists, c0, p, u) > 0
    decreases |lists| - c0
  {
    if c0 == c {
      ListHas(lists[c], c, k, p, u);
    } else {
      ListsHave(lists, c0 + 1, c, k, p, u);
    }
  }

  lemma {:induction false} BusyHas(bs: seq<Block>, k: nat, p: nat, u: nat)
    requires k < |bs| && Covers(bs[k].place, bs[k].class_, p, u)
    ensures CountBusy(bs, p, u) > 0
  {
    CountRemove(bs, k, p, u);
  }

  /** In a tiled pool, a unit of a block in use is covered by no other block. */
  lemma {:induction false} OnlyBusy(s: Pool, k: nat, p: nat, u: nat)
    requires Tiled(s) && u < PAGE_UNITS && k < |s.busy| && Covers(s.busy[k].place, s.busy[k].class_, p, u)
    ensures forall c, j :: 0 <= c < |s.lists| && 0 <= j < |s.lists[c]| ==> !Covers(s.lists[c][j], c, p, u)
    ensures forall j :: 0 <= j < |s.busy| && j != k ==> !Covers(s.busy[j].place, s.busy[j].class_, p, u)
  {
    assert Count(s, p, u) <= 1;
    BusyHas(s.busy, k, p, u);
    CountRemove(s.busy, k, p, u);
    forall c, j | 0 <= c < |s.lists| && 0 <= j < |s.lists[c]| ensures !Covers(s.lists[c][j], c, p, u) {
      if Covers(s.lists[c][j], c, p, u) {
        ListsHave(s.lists, 0, c, j, p, u);
      }
    }
    var rest := s.busy[..k] + s.busy[k + 1..];
    forall j | 0 <= j < |s.busy| && j != k ensures !Covers(s.busy[j].place, s.busy[j].class_, p, u) {
      var j' := if j < k then j else j - 1;
      assert rest[j'] == s.busy[j];
      if Covers(s.busy[j].place, s.busy[j].class_, p, u) {
        BusyHas(rest, j', p, u);
      }
    }
  }

  /** So no other block starts there. */
  lemma {:induction false} OnlyPlace(s: Pool, k: nat, x: Place)
    requires Tiled(s) && x.unit < PAGE_UNITS && k < |s.busy|
    requires Covers(s.busy[k].place, s.busy[k].class_, x.page, x.unit)
    ensures forall c, j :: 0 <= c < |s.lists| && 0 <= j < |s.lists[c]| ==> s.lists[c][j] != x
    ensures forall j :: 0 <= j < |s.busy| && j != k ==> s.busy[j].place != x
  {
    OnlyBusy(s, k, x.page, x.unit);
    forall c, j | 0 <= c < |s.lists| && 0 <= j < |s.lists[c]| ensures s.lists[c][j] != x {
      assert !Covers(s.lists[c][j], c, x.page, x.unit);
    }
    forall j | 0 <= j < |s.busy| && j != k ensures s.busy[j].place != x {
      assert !Covers(s.busy[j].place, s.busy[j].class_, x.page, x.unit);
    }
  }

  // ---------- every step keeps the tiling ----------

  lemma {:induction false} CarveTiled(s: Pool, page: nat, p: nat, u: nat)
    requires Tiled(s) && page !in s.carved && u < PAGE_UNITS
    ensures Count(Carve(s, page), p, u) == if p in s.carved + {page} then 1 else 0
  {
    var r := Carve(s, page);
    assert r.busy[..|s.busy|] == s.busy;
    assert Units(MAX_POOL_INDEX) == PAGE_UNITS by {
      UnitsOfPage();
    }
    assert Count(s, p, u) == if p in s.carved then 1 else 0;
  }

  lemma {:induction false} UnitsOfPage()
    ensures Units(MAX_POOL_INDEX) == PAGE_UNITS
  {
    assert Units(2) == 4 && Units(4) == 4 * Units(2);
  }

  lemma {:induction false} CarveKeeps(s: Pool, page: nat)
    requires PoolOk(s) && page !in s.carved
    ensures PoolOk(Carve(s, page))
  {
    UnitsOfPage();
    forall p: nat, u: nat | u < PAGE_UNITS
      ensures Count(Carve(s, page), p, u) == if p in Carve(s, page).carved then 1 else 0
    {
      CarveTiled(s, page, p, u);
    }
    hide Tiled, Units;
    forall c, k | 0 <= c < |s.lists| && 0 <= k < |s.lists[c]|
      ensures FreeOk(s.lists[c][k], c, Carve(s, page).headers, Carve(s, page).carved)
    {
      assert FreeOk(s.lists[c][k], c, s.headers, s.carved);
    }
    assert 0 % PAGE_UNITS == 0;
  }

  lemma {:induction false} TakeFirstKeeps(s: Pool, i: nat)
    requires PoolOk(s) && i < |s.lists| && s.lists[i] != []
    ensures PoolOk(TakeFirst(s, i))
  {
    var r, x := TakeFirst(s, i), s.lists[i][0];
    assert FreeOk(x, i, s.headers, s.carved);
    forall p: nat, u: nat | u < PAGE_UNITS ensures Count(r, p, u) == Count(s, p, u) {
      CountReplace(s.lists, i, s.lists[i][1..], 0, p, u);
      assert r.busy[..|s.busy|] == s.busy;
    }
    assert Tiled(r);
    OnlyPlace(r, |s.busy|, x);
    TakeFirstHeaders(s, i);
  }

  lemma {:induction false} TakeFirstHeaders(s: Pool, i: nat)
    requires PoolOk(s) && i < |s.lists| && s.lists[i] != []
    requires var r, x := TakeFirst(s, i), s.lists[i][0];
      && (forall c, j :: 0 <= c < |r.lists| && 0 <= j < |r.lists[c]| ==> r.lists[c][j] != x)
      && (forall j :: 0 <= j < |s.busy| ==> r.busy[j].place != x)
    ensures var r := TakeFirst(s, i);
      AllFreeOk(r.lists, r.headers, r.carved) && AllBusyOk(r.busy, r.headers, r.carved)
  {
    var r, x := TakeFirst(s, i), s.lists[i][0];
    assert FreeOk(x, i, s.headers, s.carved);
    hide Tiled, Units;
    forall c, k | 0 <= c < |r.lists| && 0 <= k < |r.lists[c]| ensures FreeOk(r.lists[c][k], c, r.headers, r.carved) {
      assert r.lists[c][k] == s.lists[c][if c == i then k + 1 else k];
      assert FreeOk(r.lists[c][k], c, s.headers, s.carved);
    }
    forall k | 0 <= k < |r.busy| ensures BusyOk(r.busy[k], r.headers, r.carved) {
      if k < |s.busy| {
        assert r.busy[k] == s.busy[k];
        assert BusyOk(s.busy[k], s.headers, s.carved);
      }
    }
  }

  lemma {:induction false} UnitsTable()
    ensures Units(0) == 1 && Units(1) == 2 && Units(2) == 4 && Units(3) == 8
    ensures Units(4) == 16 && Units(5) == 32 && Units(6) == 64
  {
    UnitsOfPage();
  }

  lemma {:induction false} Multiple(a: int, n: nat, q: int)
    requires n > 0 && a == n * q
    ensures a % n == 0
  {
    var d := q - a / n;
    assert n * d == a % n by {
      assert a == n * (a / n) + a % n;
    }
  }

  lemma {:induction false} AlignedHalves(a: nat, i: nat)
    requires a % Units(i + 1) == 0
    ensures a % Units(i) == 0 && (a + Units(i)) % Units(i) == 0
  {
    var n := Units(i);
    var q := a / (2 * n);
    assert a == n * (2 * q) by {
      assert a == (2 * n) * q;
    }
    Multiple(a, n, 2 * q);
    Multiple(a + n, n, 2 * q + 1);
  }

  /** The block last taken and its two halves. */
  ghost predicate Halves(s: Pool, i: nat, x: Place, y: Place) {
    && i < |s.lists| == MAX_POOL_INDEX && s.busy != [] && s.busy[|s.busy| - 1] == Block(x, i + 1)
    && x in s.headers && s.headers[x].size / 2 == Units(i)
    && y == Place(x.page, x.unit + Units(i)) && InPage(x, i, s.carved) && InPage(y, i, s.carved)
  }

  lemma {:induction false} HalvesOf(s: Pool, i: nat)
    requires PoolOk(s) && i < MAX_POOL_INDEX && s.busy != [] && s.busy[|s.busy| - 1].class_ == i + 1
    ensures var x := s.busy[|s.busy| - 1].place; Halves(s, i, x, Place(x.page, x.unit + Units(i)))
  {
    var b := s.busy[|s.busy| - 1];
    assert BusyOk(b, s.headers, s.carved);
    AlignedHalves(b.place.unit, i);
  }

  lemma {:induction false} HalveTiled(s: Pool, i: nat, x: Place, y: Place)
    requires Tiled(s) && Halves(s, i, x, y)
    ensures Tiled(Halve(s, i))
  {
    var r := Halve(s, i);
    assert Units(i + 1) == 2 * Units(i);
    forall p: nat, u: nat | u < PAGE_UNITS ensures Count(r, p, u) == Count(s, p, u) {
      CountReplace(s.lists, i, [x] + s.lists[i], 0, p, u);
      assert r.busy[..|r.busy| - 1] == s.busy[..|s.busy| - 1];
      assert One(x, i + 1, p, u) == One(x, i, p, u) + One(y, i, p, u);
    }
  }

  lemma {:induction false} HalveFree(s: Pool, i: nat, x: Place, y: Place)
    requires PoolOk(s) && Halves(s, i, x, y)
    requires forall c, j :: 0 <= c < |s.lists| && 0 <= j < |s.lists[c]| ==> s.lists[c][j] != x && s.lists[c][j] != y
    ensures AllFreeOk(Halve(s, i).lists, Halve(s, i).headers, s.carved)
  {
    var r := Halve(s, i);
    hide Tiled, Units, AllBusyOk;
    forall c, k | 0 <= c < |r.lists| && 0 <= k < |r.lists[c]| ensures FreeOk(r.lists[c][k], c, r.headers, s.carved) {
      if c == i && k == 0 {
        assert x != y by {
          UnitsPositive(i);
        }
      } else {
        var k' := if c == i then k - 1 else k;
        assert r.lists[c][k] == s.lists[c][k'];
        assert FreeOk(s.lists[c][k'], c, s.headers, s.carved);
      }
    }
  }

  lemma {:induction false} UnitsPositive(i: nat)
    ensures Units(i) > 0
  {
  }

  lemma {:induction false} HalveBusy(s: Pool, i: nat, x: Place, y: Place)
    requires PoolOk(s) && Halves(s, i, x, y)
    requires forall j :: 0 <= j < |s.busy| - 1 ==> s.busy[j].place != x && s.busy[j].place != y
    ensures AllBusyOk(Halve(s, i).busy, Halve(s, i).headers, s.carved)
  {
    var r := Halve(s, i);
    hide Tiled, Units, AllFreeOk;
    forall k | 0 <= k < |r.busy| ensures BusyOk(r.busy[k], r.headers, s.carved) {
      if k < |r.busy| - 1 {
        assert r.busy[k] == s.busy[k];
        assert BusyOk(s.busy[k], s.headers, s.carved);
      }
    }
  }

  lemma {:induction false} HalveKeeps(s: Pool, i: nat)
    requires PoolOk(s) && i < MAX_POOL_INDEX && s.busy != [] && s.busy[|s.busy| - 1].class_ == i + 1
    ensures s.busy[|s.busy| - 1].place in s.headers && PoolOk(Halve(s, i))
  {
    var x := s.busy[|s.busy| - 1].place;
    var y := Place(x.page, x.unit + Units(i));
    HalvesOf(s, i);
    assert Units(i + 1) == 2 * Units(i);
    HalveTiled(s, i, x, y);
    OnlyPlace(s, |s.busy| - 1, x);
    OnlyPlace(s, |s.busy| - 1, y);
    hide Tiled, Units, InPage, AllFreeOk, AllBusyOk;
    HalveFree(s, i, x, y);
    HalveBusy(s, i, x, y);
  }

  /** Allocating a block, with a page the pool does not have yet if it needs one, keeps every
      carved page exactly tiled, headers and lists in step, and the blocks in use as they were. */
  lemma {:induction false} AllocKeeps(s: Pool, i: nat, page: nat)
    requires PoolOk(s) && i <= MAX_POOL_INDEX && (NeedsPage(s.lists, i) ==> page !in s.carved)
    ensures PoolOk(AllocByIndex(s, i, page))
    decreases MAX_POOL_INDEX - i
  {
    hide Tiled, Carve, TakeFirst, Halve, AllFreeOk, AllBusyOk;
    if i == MAX_POOL_INDEX {
      CarveKeeps(s, page);
    } else if s.lists[i] != [] {
      TakeFirstKeeps(s, i);
    } else {
      AllocKeeps(s, i + 1, page);
      HalveKeeps(AllocByIndex(s, i + 1, page), i);
    }
  }

  // ---------- freeing ----------

  lemma {:induction false} FreeTiled(s: Pool, k: nat)
    requires PoolOk(s) && k < |s.busy| && s.busy[k].class_ < MAX_POOL_INDEX
    requires s.busy[k].place in s.headers && ClassOf(s.headers[s.busy[k].place].size) == s.busy[k].class_
    ensures Tiled(Free(s, k))
  {
    var r, b := Free(s, k), s.busy[k];
    forall p: nat, u: nat | u < PAGE_UNITS ensures Count(r, p, u) == Count(s, p, u) {
      CountReplace(s.lists, b.class_, [b.place] + s.lists[b.class_], 0, p, u);
      CountRemove(s.busy, k, p, u);
    }
  }

  lemma {:induction false} FreeHeaders(s: Pool, k: nat)
    requires PoolOk(s) && k < |s.busy| && s.busy[k].class_ < MAX_POOL_INDEX
    requires s.busy[k].place in s.headers && ClassOf(s.headers[s.busy[k].place].size) == s.busy[k].class_
    requires var x := s.busy[k].place;
      && (forall c, j :: 0 <= c < |s.lists| && 0 <= j < |s.lists[c]| ==> s.lists[c][j] != x)
      && (forall j :: 0 <= j < |s.busy| && j != k ==> s.busy[j].place != x)
    ensures AllFreeOk(Free(s, k).lists, Free(s, k).headers, s.carved)
      && AllBusyOk(Free(s, k).busy, Free(s, k).headers, s.carved)
  {
    var r, b := Free(s, k), s.busy[k];
    hide Tiled, Units, ClassOf;
    assert BusyOk(b, s.headers, s.carved);
    forall c, j | 0 <= c < |r.lists| && 0 <= j < |r.lists[c]| ensures FreeOk(r.lists[c][j], c, r.headers, s.carved) {
      if !(c == b.class_ && j == 0) {
        var j' := if c == b.class_ then j - 1 else j;
        assert r.lists[c][j] == s.lists[c][j'];
        assert FreeOk(s.lists[c][j'], c, s.headers, s.carved);
      }
    }
    forall j | 0 <= j < |r.busy| ensures BusyOk(r.busy[j], r.headers, s.carved) {
      var j' := if j < k then j else j + 1;
      assert r.busy[j] == s.busy[j'];
      assert BusyOk(s.busy[j'], s.headers, s.carved);
    }
  }

  /** Freeing a block in use: the header leads to the list of its size, and the tiling stays. */
  lemma {:induction false} FreeKeeps(s: Pool, k: nat)
    requires PoolOk(s) && k < |s.busy| && s.busy[k].class_ < MAX_POOL_INDEX
    ensures s.busy[k].place in s.headers && ClassOf(s.headers[s.busy[k].place].size) == s.busy[k].class_
    ensures PoolOk(Free(s, k))
  {
    var b := s.busy[k];
    assert BusyOk(b, s.headers, s.carved);
    ClassOfUnits(b.class_);
    FreeTiled(s, k);
    OnlyPlace(s, k, b.place);
    hide Tiled, Units, InPage, AllFreeOk, AllBusyOk, ClassOf;
    FreeHeaders(s, k);
  }

  /** Two blocks in use never share a unit, nor does a block in use share one with a free block. */
  lemma {:induction false} BlocksApart(s: Pool, k: nat, p: nat, u: nat)
    requires PoolOk(s) && k < |s.busy| && Covers(s.busy[k].place, s.busy[k].class_, p, u)
    ensures forall c, j :: 0 <= c < |s.lists| && 0 <= j < |s.lists[c]| ==> !Covers(s.lists[c][j], c, p, u)
    ensures forall j :: 0 <= j < |s.busy| && j != k ==> !Covers(s.busy[j].place, s.busy[j].class_, p, u)
  {
    assert BusyOk(s.busy[k], s.headers, s.carved);
    OnlyBusy(s, k, p, u);
  }

  // ---------- which size ----------

  function HighBit(n: nat): int {
    if n == 0 then -1 else if n == 1 then 0 else 1 + HighBit(n / 2)
  }

  /** Size with the header added, as UINTN. */
  function WithHeader(size: nat): nat {
    (size + HEADER_SIZE) % WORD
  }

  /** The list for a request of n bytes, header included. */
  function PoolIndex(n: nat): int {
    var units := (n + MIN_POOL_SIZE - 1) / MIN_POOL_SIZE;
    var high := HighBit(units);
    if high >= 0 && Units(high) != units then high + 1 else high
  }

  lemma {:induction false} HighBitIs(n: nat)
    requires n > 0
    ensures HighBit(n) >= 0 && Units(HighBit(n)) <= n < 2 * Units(HighBit(n))
  {
    if n > 1 {
      HighBitIs(n / 2);
    }
  }

  lemma {:induction false} UnitsGrow(c: nat, d: nat)
    requires c < d
    ensures 2 * Units(c) <= Units(d)
    decreases d
  {
    if c < d - 1 {
      UnitsGrow(c, d - 1);
    }
  }

  lemma {:induction false} UnitsBelow(c: nat, d: nat)
    ensures c < d <==> Units(c) < Units(d)
  {
    if c < d {
      UnitsGrow(c, d);
    } else if d < c {
      UnitsGrow(d, c);
    }
  }

  /** The chosen block is the smallest that holds the bytes asked for and the header. */
  lemma {:induction false} PoolIndexIsSmallest(n: nat)
    requires 0 < n <= MAX_POOL_SIZE
    ensures 0 <= PoolIndex(n) < MAX_POOL_INDEX
    ensures n <= MIN_POOL_SIZE * Units(PoolIndex(n))
    ensures forall c: nat :: c < PoolIndex(n) ==> MIN_POOL_SIZE * Units(c) < n
  {
    var units := (n + MIN_POOL_SIZE - 1) / MIN_POOL_SIZE;
    assert MIN_POOL_SIZE * (units - 1) < n <= MIN_POOL_SIZE * units && 0 < units <= 32;
    HighBitIs(units);
    UnitsTable();
    var i, high := PoolIndex(n), HighBit(units);
    UnitsBelow(high, 6);
    UnitsBelow(high, 5);
    forall c: nat | c < i ensures MIN_POOL_SIZE * Units(c) < n {
      UnitsGrow(c, i);
    }
  }
}
