/** The typed interval map that is published as the memory map, and the conversion of a
    range to a type: hole insertion, split, and the two merges. Ranges are page aligned, so
    bounds are page numbers; like the code's End, end is inclusive. */
module MemoryMap {
  datatype MemType = Conventional | RuntimeCode | RuntimeData | Other(code: nat)

  /** slot is the index in the temporary descriptor stack, or -1 for a heap descriptor. */
  datatype Entry = Entry(start: nat, end: nat, typ: MemType, slot: int) {
    predicate Covers(p: int) { start <= p <= end }
    predicate Contains(lo: int, hi: int) { start <= lo && hi <= end }
  }

  const HEAP: int := -1

  /** The map, the depth of the descriptor stack and the number of free heap descriptors. */
  datatype Mapped = Mapped(m: seq<Entry>, depth: nat, spare: nat)

  ghost predicate Sorted(m: seq<Entry>) {
    && (forall i | 0 <= i < |m| :: m[i].start <= m[i].end)
    && (forall i, j | 0 <= i < j < |m| :: m[i].end < m[j].start)
  }

  datatype Lookup = Hole | At(typ: MemType)

  /** The type of page p: the map as a function of addresses. */
  function TypeAt(m: seq<Entry>, p: int): Lookup {
    if m == [] then Hole
    else if m[0].Covers(p) then At(m[0].typ)
    else TypeAt(m[1..], p)
  }

  predicate Mergeable(x: Entry, y: Entry) {
    x.typ == y.typ && x.end + 1 == y.start
  }

  /** No neighbours of type t touch, except possibly the pairs starting at p and q. */
  ghost predicate CoalescedExcept(m: seq<Entry>, t: MemType, p: int, q: int) {
    forall k | 0 <= k < |m| - 1 && k != p && k != q ::
      m[k].typ == t && m[k + 1].typ == t ==> m[k].end + 1 != m[k + 1].start
  }

  ghost predicate Coalesced(m: seq<Entry>, t: MemType) {
    forall k | 0 <= k < |m| - 1 :: m[k].typ == t && m[k + 1].typ == t ==> m[k].end + 1 != m[k + 1].start
  }

  /** The range lies inside a single entry of type t. */
  ghost predicate Inside(m: seq<Entry>, lo: int, hi: int, t: MemType) {
    exists i | 0 <= i < |m| :: m[i].typ == t && m[i].Contains(lo, hi)
  }

  /** No entry meets the range. */
  ghost predicate InHole(m: seq<Entry>, lo: int, hi: int) {
    forall i | 0 <= i < |m| :: m[i].end < lo || hi < m[i].start
  }

  ghost predicate InOneEntry(m: seq<Entry>, lo: int, hi: int) {
    exists i | 0 <= i < |m| :: m[i].Contains(lo, hi)
  }

  // ---------- the conversion ----------

  /** The first entry, from index i on, that lies above the range or contains it. */
  function FirstHit(m: seq<Entry>, lo: nat, hi: nat, i: nat): (r: nat)
    requires i <= |m|
    ensures i <= r <= |m|
    ensures r < |m| ==> hi < m[r].start || m[r].Contains(lo, hi)
    ensures forall j | i <= j < r :: m[j].start <= hi && !m[j].Contains(lo, hi)
    decreases |m| - i
  {
    if i == |m| || hi < m[i].start || m[i].Contains(lo, hi) then i else FirstHit(m, lo, hi, i + 1)
  }

  /** Inserts a descriptor taken from the stack before index i. */
  function InsertNew(s: Mapped, i: nat, start: nat, end: nat, typ: MemType): Mapped
    requires i <= |s.m|
  {
    Mapped(s.m[..i] + [Entry(start, end, typ, s.depth)] + s.m[i..], s.depth + 1, s.spare)
  }

  /** Entry i absorbs entry i+1 when both exist and are mergeable. A heap descriptor of the
      absorbed entry returns to the free list; a stack slot is abandoned. */
  function Absorb(s: Mapped, i: int): Mapped {
    if 0 <= i < |s.m| - 1 && Mergeable(s.m[i], s.m[i + 1])
    then Mapped(s.m[..i] + [s.m[i].(end := s.m[i + 1].end)] + s.m[i + 2..], s.depth,
                if s.m[i + 1].slot == HEAP then s.spare + 1 else s.spare)
    else s
  }

  function LeftPiece(s: Mapped, i: nat, lo: nat): seq<Entry>
    requires i < |s.m|
  {
    var x := s.m[i];
    if x.start < lo then [Entry(x.start, lo - 1, x.typ, s.depth)] else []
  }

  function RightPiece(s: Mapped, i: nat, lo: nat, hi: nat): seq<Entry>
    requires i < |s.m|
  {
    var x := s.m[i];
    if hi < x.end then [Entry(hi + 1, x.end, x.typ, if x.start < lo then s.depth + 1 else s.depth)] else []
  }

  /** What Split puts in place of entry i. */
  function Pieces(s: Mapped, i: nat, lo: nat, hi: nat, typ: MemType): seq<Entry>
    requires i < |s.m|
  {
    LeftPiece(s, i, lo) + [Entry(lo, hi, typ, s.m[i].slot)] + RightPiece(s, i, lo, hi)
  }

  /** The pieces of entry i outside the range get descriptors of their own; entry i itself
      becomes the range with its new type. */
  function Split(s: Mapped, i: nat, lo: nat, hi: nat, typ: MemType): Mapped
    requires i < |s.m| && s.m[i].Contains(lo, hi)
  {
    Mapped(s.m[..i] + Pieces(s, i, lo, hi, typ) + s.m[i + 1..],
           s.depth + |LeftPiece(s, i, lo)| + |RightPiece(s, i, lo, hi)|, s.spare)
  }

  /** Where Split leaves the range. */
  function SplitIndex(s: Mapped, i: nat, lo: nat): nat
    requires i < |s.m|
  {
    if s.m[i].start < lo then i + 1 else i
  }

  /** Entry j absorbs its next neighbour, then the previous neighbour absorbs it. */
  function MergeBoth(s: Mapped, j: int): Mapped {
    Absorb(Absorb(s, j), j - 1)
  }

  /** Gives the range [lo, hi] the type typ. */
  function Convert(s: Mapped, typ: MemType, lo: nat, hi: nat): Mapped {
    var i := FirstHit(s.m, lo, hi, 0);
    if i < |s.m| && hi < s.m[i].start then
      if s.m[i].start == hi + 1 && s.m[i].typ == typ
      then s.(m := s.m[i := s.m[i].(start := lo)])
      else InsertNew(s, i, lo, hi, typ)
    else if i < |s.m| then
      if s.m[i].typ == typ then s
      else MergeBoth(Split(s, i, lo, hi, typ), SplitIndex(s, i, lo))
    else
      var k := |s.m| - 1;
      if 0 <= k && s.m[k].end + 1 == lo && s.m[k].typ == typ
      then s.(m := s.m[k := s.m[k].(end := hi)])
      else InsertNew(s, |s.m|, lo, hi, typ)
  }

  // ---------- TypeAt over pieces of a map ----------

  lemma {:induction false} TypeAtConcat(x: seq<Entry>, y: seq<Entry>, p: int)
    ensures TypeAt(x + y, p) == if TypeAt(x, p) != Hole then TypeAt(x, p) else TypeAt(y, p)
  {
    if x == [] {
      assert x + y == y;
    } else {
      TypeAtConcat(x[1..], y, p);
      assert (x + y)[1..] == x[1..] + y;
    }
  }

  lemma {:induction false} TypeAtHole(m: seq<Entry>, p: int)
    ensures TypeAt(m, p) == Hole <==> forall i | 0 <= i < |m| :: !m[i].Covers(p)
  {
    if m != [] {
      TypeAtHole(m[1..], p);
      assert forall i | 0 <= i < |m| - 1 :: m[1..][i] == m[i + 1];
    }
  }

  lemma {:induction false} TypeAtIndex(m: seq<Entry>, i: nat, p: int)
    requires Sorted(m) && i < |m| && m[i].Covers(p)
    ensures TypeAt(m, p) == At(m[i].typ)
  {
    if i != 0 {
      TypeAtIndex(m[1..], i - 1, p);
    }
  }

  lemma {:induction false} TypeAtOne(x: Entry, p: int)
    ensures TypeAt([x], p) == if x.Covers(p) then At(x.typ) else Hole
  {
  }

  lemma {:induction false} TypeAtThree(x: seq<Entry>, y: seq<Entry>, z: seq<Entry>, p: int)
    ensures TypeAt(x + y + z, p) ==
      if TypeAt(x, p) != Hole then TypeAt(x, p) else if TypeAt(y, p) != Hole then TypeAt(y, p) else TypeAt(z, p)
  {
    TypeAtConcat(x + y, z, p);
    TypeAtConcat(x, y, p);
  }

  /** Replacing a stretch of the map by one that looks the same leaves the map looking the same. */
  lemma {:induction false} TypeAtReplace(m: seq<Entry>, i: nat, j: nat, mid: seq<Entry>, p: int)
    requires i <= j <= |m|
    ensures TypeAt(mid, p) == TypeAt(m[i..j], p) ==> TypeAt(m[..i] + mid + m[j..], p) == TypeAt(m, p)
    ensures TypeAt(m[..i], p) == Hole && TypeAt(mid, p) != Hole ==> TypeAt(m[..i] + mid + m[j..], p) == TypeAt(mid, p)
  {
    TypeAtThree(m[..i], mid, m[j..], p);
    TypeAtThree(m[..i], m[i..j], m[j..], p);
    assert m == m[..i] + m[i..j] + m[j..];
  }

  // ---------- Absorb ----------

  lemma {:induction false} AbsorbSorted(s: Mapped, i: int)
    requires Sorted(s.m)
    ensures Sorted(Absorb(s, i).m)
  {
  }

  lemma {:induction false} AbsorbTypeAt(s: Mapped, i: int, p: int)
    requires Sorted(s.m)
    ensures TypeAt(Absorb(s, i).m, p) == TypeAt(s.m, p)
  {
    if Absorb(s, i).m != s.m {
      var x, y := s.m[i], s.m[i + 1];
      TypeAtReplace(s.m, i, i + 2, [x.(end := y.end)], p);
      assert s.m[i..i + 2] == [x] + [y];
      TypeAtConcat([x], [y], p);
    }
  }

  lemma {:induction false} AbsorbInside(s: Mapped, i: int, lo: int, hi: int, t: MemType)
    requires Sorted(s.m) && Inside(s.m, lo, hi, t)
    ensures Inside(Absorb(s, i).m, lo, hi, t)
  {
    var k :| 0 <= k < |s.m| && s.m[k].typ == t && s.m[k].Contains(lo, hi);
    var r := Absorb(s, i).m;
    if r == s.m {
    } else if k < i {
      assert r[k] == s.m[k];
    } else if k <= i + 1 {
      assert s.m[i].start <= s.m[i].end && s.m[i + 1].start <= s.m[i + 1].end;
      assert r[i].typ == t && r[i].Contains(lo, hi);
    } else {
      assert r[k - 1] == s.m[k];
    }
  }

  lemma {:induction false} AbsorbCoalesces(s: Mapped, i: int, t: MemType, q: int)
    requires Sorted(s.m) && CoalescedExcept(s.m, t, i, q) && q < i
    ensures CoalescedExcept(Absorb(s, i).m, t, q, q)
  {
  }

  lemma {:induction false} MergeBothSorted(s: Mapped, j: int)
    requires Sorted(s.m)
    ensures Sorted(MergeBoth(s, j).m)
  {
    AbsorbSorted(s, j);
    AbsorbSorted(Absorb(s, j), j - 1);
  }

  lemma {:induction false} MergeBothTypeAt(s: Mapped, j: int, p: int)
    requires Sorted(s.m)
    ensures TypeAt(MergeBoth(s, j).m, p) == TypeAt(s.m, p)
  {
    AbsorbSorted(s, j);
    AbsorbTypeAt(s, j, p);
    AbsorbTypeAt(Absorb(s, j), j - 1, p);
  }

  lemma {:induction false} MergeBothInside(s: Mapped, j: int, lo: int, hi: int, t: MemType)
    requires Sorted(s.m) && Inside(s.m, lo, hi, t)
    ensures Inside(MergeBoth(s, j).m, lo, hi, t)
  {
    AbsorbSorted(s, j);
    AbsorbInside(s, j, lo, hi, t);
    AbsorbInside(Absorb(s, j), j - 1, lo, hi, t);
  }

  lemma {:induction false} MergeBothCoalesces(s: Mapped, j: int, t: MemType)
    requires Sorted(s.m) && 0 <= j && CoalescedExcept(s.m, t, j, j - 1)
    ensures Coalesced(MergeBoth(s, j).m, t)
  {
    AbsorbCoalesces(s, j, t, j - 1);
    AbsorbSorted(s, j);
    AbsorbCoalesces(Absorb(s, j), j - 1, t, -2);
  }

  lemma {:induction false} AbsorbSlots(s: Mapped, i: int)
    requires SlotsOk(s)
    ensures SlotsOk(Absorb(s, i))
  {
  }

  lemma {:induction false} MergeBothSlots(s: Mapped, j: int)
    requires SlotsOk(s)
    ensures SlotsOk(MergeBoth(s, j))
  {
    AbsorbSlots(s, j);
    AbsorbSlots(Absorb(s, j), j - 1);
  }

  // ---------- Split ----------

  lemma {:induction false} PiecesSorted(s: Mapped, i: nat, lo: nat, hi: nat, typ: MemType)
    requires i < |s.m| && s.m[i].Contains(lo, hi) && lo <= hi
    ensures var mid := Pieces(s, i, lo, hi, typ);
      Sorted(mid) && forall k | 0 <= k < |mid| :: s.m[i].start <= mid[k].start && mid[k].end <= s.m[i].end
  {
  }

  /** Replacing an entry by pieces within its bounds. */
  lemma {:induction false} SortedReplace(m: seq<Entry>, i: nat, mid: seq<Entry>)
    requires Sorted(m) && i < |m| && Sorted(mid)
    requires forall k | 0 <= k < |mid| :: m[i].start <= mid[k].start && mid[k].end <= m[i].end
    ensures Sorted(m[..i] + mid + m[i + 1..])
  {
  }

  lemma {:induction false} SplitSorted(s: Mapped, i: nat, lo: nat, hi: nat, typ: MemType)
    requires Sorted(s.m) && i < |s.m| && s.m[i].Contains(lo, hi) && lo <= hi
    ensures Sorted(Split(s, i, lo, hi, typ).m)
  {
    var mid := Pieces(s, i, lo, hi, typ);
    PiecesSorted(s, i, lo, hi, typ);
    SortedReplace(s.m, i, mid);
  }

  lemma {:induction false} PiecesTypeAt(s: Mapped, i: nat, lo: nat, hi: nat, typ: MemType, p: int)
    requires i < |s.m| && s.m[i].Contains(lo, hi) && lo <= hi
    ensures TypeAt(Pieces(s, i, lo, hi, typ), p) == if lo <= p <= hi then At(typ) else TypeAt([s.m[i]], p)
  {
    TypeAtThree(LeftPiece(s, i, lo), [Entry(lo, hi, typ, s.m[i].slot)], RightPiece(s, i, lo, hi), p);
  }

  lemma {:induction false} SplitTypeAt(s: Mapped, i: nat, lo: nat, hi: nat, typ: MemType, p: int)
    requires Sorted(s.m) && i < |s.m| && s.m[i].Contains(lo, hi) && lo <= hi
    ensures TypeAt(Split(s, i, lo, hi, typ).m, p) == if lo <= p <= hi then At(typ) else TypeAt(s.m, p)
  {
    PiecesTypeAt(s, i, lo, hi, typ, p);
    TypeAtReplace(s.m, i, i + 1, Pieces(s, i, lo, hi, typ), p);
    assert s.m[i..i + 1] == [s.m[i]];
    TypeAtHole(s.m[..i], p);
  }

  lemma {:induction false} SplitInside(s: Mapped, i: nat, lo: nat, hi: nat, typ: MemType, b: int, e: int, t: MemType)
    requires i < |s.m| && s.m[i].Contains(lo, hi) && b <= e
    requires Inside(s.m, b, e, t) && (e < lo || hi < b)
    ensures Inside(Split(s, i, lo, hi, typ).m, b, e, t)
  {
    var left, right := LeftPiece(s, i, lo), RightPiece(s, i, lo, hi);
    var mid := Pieces(s, i, lo, hi, typ);
    var r := s.m[..i] + mid + s.m[i + 1..];
    var k :| 0 <= k < |s.m| && s.m[k].typ == t && s.m[k].Contains(b, e);
    if k < i {
      assert r[k] == s.m[k];
    } else if k > i {
      assert r[k - 1 + |mid|] == s.m[k];
    } else if e < lo {
      assert r[i] == mid[0] == left[0];
    } else {
      assert r[i + |mid| - 1] == mid[|mid| - 1] == right[0];
    }
  }

  lemma {:induction false} SplitInsideRange(s: Mapped, i: nat, lo: nat, hi: nat, typ: MemType)
    requires i < |s.m| && s.m[i].Contains(lo, hi)
    ensures Inside(Split(s, i, lo, hi, typ).m, lo, hi, typ)
  {
    var j := i + |LeftPiece(s, i, lo)|;
    assert Split(s, i, lo, hi, typ).m[j] == Entry(lo, hi, typ, s.m[i].slot);
  }

  /** Below and above the pieces, neighbours have the bounds and types they had before. */
  lemma {:induction false} SplitPairBelow(s: Mapped, i: nat, lo: nat, hi: nat, typ: MemType, k: nat)
    requires i < |s.m| && s.m[i].Contains(lo, hi) && k < i && k + 1 != SplitIndex(s, i, lo)
    ensures var r := Split(s, i, lo, hi, typ).m;
      k + 1 < |r| && r[k].typ == s.m[k].typ && (Mergeable(r[k], r[k + 1]) <==> Mergeable(s.m[k], s.m[k + 1]))
  {
    var r := s.m[..i] + Pieces(s, i, lo, hi, typ) + s.m[i + 1..];
    assert r[k] == s.m[k];
    if k + 1 < i {
      assert r[k + 1] == s.m[k + 1];
    } else {
      assert r[k + 1] == LeftPiece(s, i, lo)[0];
    }
  }

  lemma {:induction false} SplitPairAbove(s: Mapped, i: nat, lo: nat, hi: nat, typ: MemType, k: nat)
    requires i < |s.m| && s.m[i].Contains(lo, hi)
    requires SplitIndex(s, i, lo) < k < |Split(s, i, lo, hi, typ).m| - 1
    ensures var r := Split(s, i, lo, hi, typ).m; var k' := k - (|r| - |s.m|);
      i <= k' < |s.m| - 1 && r[k].typ == s.m[k'].typ && (Mergeable(r[k], r[k + 1]) <==> Mergeable(s.m[k'], s.m[k' + 1]))
  {
    var mid := Pieces(s, i, lo, hi, typ);
    var r := s.m[..i] + mid + s.m[i + 1..];
    var k' := k - (|r| - |s.m|);
    if k' == i {
      assert r[k] == mid[|mid| - 1] == RightPiece(s, i, lo, hi)[0];
    } else {
      assert r[k] == s.m[k'];
    }
    assert r[k + 1] == s.m[k' + 1];
  }

  lemma {:induction false} SplitCoalesced(s: Mapped, i: nat, lo: nat, hi: nat, typ: MemType, t: MemType)
    requires i < |s.m| && s.m[i].Contains(lo, hi) && Coalesced(s.m, t)
    ensures var j: int := SplitIndex(s, i, lo); CoalescedExcept(Split(s, i, lo, hi, typ).m, t, j, j - 1)
  {
    var j: int := SplitIndex(s, i, lo);
    var r := Split(s, i, lo, hi, typ).m;
    forall k | 0 <= k < |r| - 1 && k != j && k != j - 1 && r[k].typ == t ensures !Mergeable(r[k], r[k + 1]) {
      if k < j {
        SplitPairBelow(s, i, lo, hi, typ, k);
      } else {
        SplitPairAbove(s, i, lo, hi, typ, k);
      }
    }
  }

  // ---------- descriptor slots ----------

  /** Every descriptor is on the heap or in a stack slot of its own below the depth. */
  ghost predicate SlotsOk(s: Mapped) {
    && (forall i | 0 <= i < |s.m| :: s.m[i].slot == HEAP || 0 <= s.m[i].slot < s.depth)
    && (forall i, j | 0 <= i < j < |s.m| :: s.m[i].slot != HEAP ==> s.m[i].slot != s.m[j].slot)
  }

  lemma {:induction false} InsertNewSlots(s: Mapped, i: nat, start: nat, end: nat, typ: MemType)
    requires i <= |s.m| && SlotsOk(s)
    ensures SlotsOk(InsertNew(s, i, start, end, typ))
  {
  }

  lemma {:induction false} SetEntrySlots(s: Mapped, i: nat, x: Entry)
    requires i < |s.m| && SlotsOk(s) && x.slot == s.m[i].slot
    ensures SlotsOk(s.(m := s.m[i := x]))
  {
  }

  lemma {:induction false} SplitSlots(s: Mapped, i: nat, lo: nat, hi: nat, typ: MemType)
    requires i < |s.m| && s.m[i].Contains(lo, hi) && SlotsOk(s)
    ensures SlotsOk(Split(s, i, lo, hi, typ))
  {
    var mid := Pieces(s, i, lo, hi, typ);
    var d := s.depth + |LeftPiece(s, i, lo)| + |RightPiece(s, i, lo, hi)|;
    PiecesSlots(s, i, lo, hi, typ);
    SlotsReplace(s, i, mid, d);
  }

  /** The pieces use the slot of the entry they replace and fresh ones. */
  lemma {:induction false} PiecesSlots(s: Mapped, i: nat, lo: nat, hi: nat, typ: MemType)
    requires i < |s.m| && SlotsOk(s)
    ensures var mid := Pieces(s, i, lo, hi, typ); var d := s.depth + |LeftPiece(s, i, lo)| + |RightPiece(s, i, lo, hi)|;
      && (forall k | 0 <= k < |mid| :: mid[k].slot == s.m[i].slot || s.depth <= mid[k].slot < d)
      && (forall k, j | 0 <= k < j < |mid| :: mid[k].slot != HEAP ==> mid[k].slot != mid[j].slot)
  {
  }

  lemma {:induction false} SlotsReplace(s: Mapped, i: nat, mid: seq<Entry>, d: nat)
    requires i < |s.m| && SlotsOk(s) && s.depth <= d
    requires forall k | 0 <= k < |mid| :: mid[k].slot == s.m[i].slot || s.depth <= mid[k].slot < d
    requires forall k, j | 0 <= k < j < |mid| :: mid[k].slot != HEAP ==> mid[k].slot != mid[j].slot
    ensures SlotsOk(Mapped(s.m[..i] + mid + s.m[i + 1..], d, s.spare))
  {
  }

  // ---------- Convert on a range inside one entry ----------

  /** The entry that contains the range is the first one Convert stops at. */
  lemma {:induction false} ContainingIsFirst(m: seq<Entry>, i: nat, lo: nat, hi: nat)
    requires Sorted(m) && i < |m| && m[i].Contains(lo, hi) && lo <= hi
    ensures FirstHit(m, lo, hi, 0) == i
  {
  }

  lemma {:induction false} ConvertInSorted(s: Mapped, typ: MemType, lo: nat, hi: nat)
    requires Sorted(s.m) && lo <= hi && InOneEntry(s.m, lo, hi)
    ensures Sorted(Convert(s, typ, lo, hi).m)
  {
    var i :| 0 <= i < |s.m| && s.m[i].Contains(lo, hi);
    ContainingIsFirst(s.m, i, lo, hi);
    if s.m[i].typ != typ {
      SplitSorted(s, i, lo, hi, typ);
      MergeBothSorted(Split(s, i, lo, hi, typ), SplitIndex(s, i, lo));
    }
  }

  lemma {:induction false} ConvertInTypeAt(s: Mapped, typ: MemType, lo: nat, hi: nat, p: int)
    requires Sorted(s.m) && lo <= hi && InOneEntry(s.m, lo, hi)
    ensures TypeAt(Convert(s, typ, lo, hi).m, p) == if lo <= p <= hi then At(typ) else TypeAt(s.m, p)
  {
    var i :| 0 <= i < |s.m| && s.m[i].Contains(lo, hi);
    ContainingIsFirst(s.m, i, lo, hi);
    if s.m[i].typ != typ {
      SplitSorted(s, i, lo, hi, typ);
      SplitTypeAt(s, i, lo, hi, typ, p);
      MergeBothTypeAt(Split(s, i, lo, hi, typ), SplitIndex(s, i, lo), p);
    } else if lo <= p <= hi {
      TypeAtIndex(s.m, i, p);
    }
  }

  /** A map without mergeable neighbours stays that way through the split and both merges. */
  lemma {:induction false} ConvertInCoalesced(s: Mapped, typ: MemType, lo: nat, hi: nat, t: MemType)
    requires Sorted(s.m) && lo <= hi && InOneEntry(s.m, lo, hi) && Coalesced(s.m, t)
    ensures Coalesced(Convert(s, typ, lo, hi).m, t)
  {
    var i :| 0 <= i < |s.m| && s.m[i].Contains(lo, hi);
    ContainingIsFirst(s.m, i, lo, hi);
    if s.m[i].typ != typ {
      SplitSorted(s, i, lo, hi, typ);
      SplitCoalesced(s, i, lo, hi, typ, t);
      MergeBothCoalesces(Split(s, i, lo, hi, typ), SplitIndex(s, i, lo), t);
    }
  }

  /** A range away from the converted one that lay inside one entry of its type still does. */
  lemma {:induction false} ConvertInInside(s: Mapped, typ: MemType, lo: nat, hi: nat, b: int, e: int, t: MemType)
    requires Sorted(s.m) && lo <= hi && InOneEntry(s.m, lo, hi)
    requires Inside(s.m, b, e, t) && b <= e && (e < lo || hi < b)
    ensures Inside(Convert(s, typ, lo, hi).m, b, e, t)
  {
    var i :| 0 <= i < |s.m| && s.m[i].Contains(lo, hi);
    ContainingIsFirst(s.m, i, lo, hi);
    if s.m[i].typ != typ {
      SplitSorted(s, i, lo, hi, typ);
      SplitInside(s, i, lo, hi, typ, b, e, t);
      MergeBothInside(Split(s, i, lo, hi, typ), SplitIndex(s, i, lo), b, e, t);
    }
  }

  /** The converted range lies inside one entry of its new type. */
  lemma {:induction false} ConvertInRange(s: Mapped, typ: MemType, lo: nat, hi: nat)
    requires Sorted(s.m) && lo <= hi && InOneEntry(s.m, lo, hi)
    ensures Inside(Convert(s, typ, lo, hi).m, lo, hi, typ)
  {
    var i :| 0 <= i < |s.m| && s.m[i].Contains(lo, hi);
    ContainingIsFirst(s.m, i, lo, hi);
    if s.m[i].typ != typ {
      SplitSorted(s, i, lo, hi, typ);
      SplitInsideRange(s, i, lo, hi, typ);
      MergeBothInside(Split(s, i, lo, hi, typ), SplitIndex(s, i, lo), lo, hi, typ);
    }
  }

  /** Whatever the range, descriptors keep slots of their own, and at most two are pushed. */
  lemma {:induction false} ConvertSlots(s: Mapped, typ: MemType, lo: nat, hi: nat)
    requires SlotsOk(s)
    ensures SlotsOk(Convert(s, typ, lo, hi))
  {
    var i := FirstHit(s.m, lo, hi, 0);
    if i < |s.m| && hi < s.m[i].start {
      InsertNewSlots(s, i, lo, hi, typ);
      SetEntrySlots(s, i, s.m[i].(start := lo));
    } else if i < |s.m| {
      SplitSlots(s, i, lo, hi, typ);
      MergeBothSlots(Split(s, i, lo, hi, typ), SplitIndex(s, i, lo));
    } else {
      InsertNewSlots(s, |s.m|, lo, hi, typ);
      if s.m != [] { SetEntrySlots(s, |s.m| - 1, s.m[|s.m| - 1].(end := hi)); }
    }
  }

  lemma {:induction false} MergeBothDepth(s: Mapped, j: int)
    ensures MergeBoth(s, j).depth == s.depth && s.spare <= MergeBoth(s, j).spare
  {
  }

  /** At most two descriptors are pushed, and none is taken off the free list. */
  lemma {:induction false} ConvertDepth(s: Mapped, typ: MemType, lo: nat, hi: nat)
    ensures var r := Convert(s, typ, lo, hi);
      s.depth <= r.depth <= s.depth + 2 && s.spare <= r.spare
  {
    var i := FirstHit(s.m, lo, hi, 0);
    if i < |s.m| && s.m[i].Contains(lo, hi) {
        MergeBothDepth(Split(s, i, lo, hi, typ), SplitIndex(s, i, lo));
    }
  }

  // ---------- descriptors ----------

  /** The descriptors the heap has given, when those on the stack are to get one each. */
  function Descriptors(s: Mapped): int { |s.m| + s.spare - s.depth }

  predicate OnHeap(m: seq<Entry>) {
    forall i | 0 <= i < |m| :: m[i].slot == HEAP
  }

  lemma {:induction false} AbsorbDescriptors(s: Mapped, i: int)
    ensures var r := Absorb(s, i);
      Descriptors(r) == Descriptors(s) - if r != s && s.m[i + 1].slot != HEAP then 1 else 0
  {
  }

  lemma {:induction false} AbsorbKeeps(s: Mapped, i: int)
    requires 0 <= i < |s.m|
    ensures i < |Absorb(s, i).m| && Absorb(s, i).m[i].slot == s.m[i].slot && Absorb(s, i).m[i].typ == s.m[i].typ
  {
  }

  lemma {:induction false} SplitDescriptors(s: Mapped, i: nat, lo: nat, hi: nat, typ: MemType)
    requires i < |s.m| && s.m[i].Contains(lo, hi) && s.m[i].typ != typ
    ensures var r := Split(s, i, lo, hi, typ); var t := MergeBoth(r, SplitIndex(s, i, lo));
      && Descriptors(r) == Descriptors(s)
      && Descriptors(s) - 2 <= Descriptors(t) <= Descriptors(s)
      && (OnHeap(s.m) ==> Descriptors(t) == Descriptors(s))
  {
    var r := Split(s, i, lo, hi, typ);
    var j: int := SplitIndex(s, i, lo);
    SplitNeighbours(s, i, lo, hi, typ);
    hide Split, Pieces, SplitIndex;
    AbsorbDescriptors(r, j);
    AbsorbKeeps(r, j);
    AbsorbDescriptors(Absorb(r, j), j - 1);
  }

  /** Neither neighbour of the range that it could be merged with has just been pushed. */
  lemma {:induction false} SplitNeighbours(s: Mapped, i: nat, lo: nat, hi: nat, typ: MemType)
    requires i < |s.m| && s.m[i].Contains(lo, hi) && s.m[i].typ != typ
    ensures var r, j := Split(s, i, lo, hi, typ), SplitIndex(s, i, lo);
      && j < |r.m| && r.m[j] == Entry(lo, hi, typ, s.m[i].slot)
      && Descriptors(r) == Descriptors(s)
      && (j + 1 < |r.m| && r.m[j + 1].typ == typ ==> i + 1 < |s.m| && r.m[j + 1] == s.m[i + 1])
  {
    var r, j := Split(s, i, lo, hi, typ), SplitIndex(s, i, lo);
    var mid := Pieces(s, i, lo, hi, typ);
    assert r.m[j] == mid[j - i];
    if j + 1 < |r.m| {
      if j + 1 < i + |mid| {
        assert r.m[j + 1] == mid[j + 1 - i];
      } else {
        assert r.m[j + 1] == s.m[i + 1];
      }
    }
  }

  /** A conversion loses no descriptor when none in the map is on the stack, and never more than
      the two that its merges can find there. */
  lemma {:induction false} ConvertDescriptors(s: Mapped, typ: MemType, lo: nat, hi: nat)
    ensures Descriptors(s) - 2 <= Descriptors(Convert(s, typ, lo, hi)) <= Descriptors(s)
    ensures OnHeap(s.m) ==> Descriptors(Convert(s, typ, lo, hi)) == Descriptors(s)
  {
    var i := FirstHit(s.m, lo, hi, 0);
    if i < |s.m| && s.m[i].Contains(lo, hi) && s.m[i].typ != typ {
      SplitDescriptors(s, i, lo, hi, typ);
    }
  }

  // ---------- Convert on a range in a hole ----------

  /** A range in a hole comes before all entries from the first hit on, and after the others. */
  lemma {:induction false} HoleSplitsMap(m: seq<Entry>, lo: nat, hi: nat)
    requires Sorted(m) && lo <= hi && InHole(m, lo, hi)
    ensures var i := FirstHit(m, lo, hi, 0);
      && (forall j | 0 <= j < i :: m[j].end < lo)
      && (forall j | i <= j < |m| :: hi < m[j].start)
  {
    var i := FirstHit(m, lo, hi, 0);
    assert i < |m| ==> hi < m[i].start;
  }

  /** The three things that can happen to a range in a hole. */
  datatype HoleCase = Inserted(i: nat) | GrownDown(i: nat) | GrownUp(i: nat)

  function HoleOutcome(m: seq<Entry>, typ: MemType, lo: nat, hi: nat): HoleCase {
    var i := FirstHit(m, lo, hi, 0);
    if i < |m| && hi < m[i].start && m[i].start == hi + 1 && m[i].typ == typ then GrownDown(i)
    else if i == |m| && 0 < i && m[i - 1].end + 1 == lo && m[i - 1].typ == typ then GrownUp(i - 1)
    else Inserted(i)
  }

  lemma {:induction false} ConvertHoleShape(s: Mapped, typ: MemType, lo: nat, hi: nat)
    requires Sorted(s.m) && lo <= hi && InHole(s.m, lo, hi)
    ensures var r := Convert(s, typ, lo, hi).m; var f := FirstHit(s.m, lo, hi, 0);
      var o := HoleOutcome(s.m, typ, lo, hi);
      && (o.Inserted? ==> o.i == f && r == s.m[..f] + [Entry(lo, hi, typ, s.depth)] + s.m[f..])
      && (o.GrownDown? ==>
          o.i == f && f < |s.m| && s.m[f].start == hi + 1 && s.m[f].typ == typ && r == s.m[f := s.m[f].(start := lo)])
      && (o.GrownUp? ==>
          o.i + 1 == f && f == |s.m| && s.m[o.i].end + 1 == lo && s.m[o.i].typ == typ &&
          r == s.m[o.i := s.m[o.i].(end := hi)])
  {
    hide Split, MergeBoth, SplitIndex;
    HoleSplitsMap(s.m, lo, hi);
  }

  lemma {:induction false} SortedInsert(m: seq<Entry>, i: nat, x: Entry)
    requires Sorted(m) && i <= |m| && x.start <= x.end
    requires forall j | 0 <= j < i :: m[j].end < x.start
    requires forall j | i <= j < |m| :: x.end < m[j].start
    ensures Sorted(m[..i] + [x] + m[i..])
  {
  }

  lemma {:induction false} SortedSet(m: seq<Entry>, i: nat, x: Entry)
    requires Sorted(m) && i < |m| && x.start <= x.end
    requires forall j | 0 <= j < i :: m[j].end < x.start
    requires forall j | i < j < |m| :: x.end < m[j].start
    ensures Sorted(m[i := x])
  {
  }

  lemma {:induction false} ConvertHoleSorted(s: Mapped, typ: MemType, lo: nat, hi: nat)
    requires Sorted(s.m) && lo <= hi && InHole(s.m, lo, hi)
    ensures Sorted(Convert(s, typ, lo, hi).m)
  {
    hide Convert, HoleOutcome;
    ConvertHoleShape(s, typ, lo, hi);
    HoleSplitsMap(s.m, lo, hi);
    match HoleOutcome(s.m, typ, lo, hi)
    case Inserted(i) => SortedInsert(s.m, i, Entry(lo, hi, typ, s.depth));
    case GrownDown(i) => SortedSet(s.m, i, s.m[i].(start := lo));
    case GrownUp(i) => SortedSet(s.m, i, s.m[i].(end := hi));
  }

  lemma {:induction false} ConvertHoleInside(s: Mapped, typ: MemType, lo: nat, hi: nat, b: int, e: int, t: MemType)
    requires Sorted(s.m) && lo <= hi && InHole(s.m, lo, hi) && Inside(s.m, b, e, t)
    ensures Inside(Convert(s, typ, lo, hi).m, b, e, t)
  {
    hide Convert, HoleOutcome, Sorted, InHole;
    ConvertHoleShape(s, typ, lo, hi);
    var o := HoleOutcome(s.m, typ, lo, hi);
    var r := Convert(s, typ, lo, hi).m;
    var k :| 0 <= k < |s.m| && s.m[k].typ == t && s.m[k].Contains(b, e);
    var k' := if o.Inserted? && o.i <= k then k + 1 else k;
    assert r[k'].typ == t && r[k'].Contains(b, e);
  }

  lemma {:induction false} TypeAtInsert(m: seq<Entry>, i: nat, x: Entry, p: int)
    requires i <= |m| && (x.Covers(p) ==> forall j | 0 <= j < i :: !m[j].Covers(p))
    ensures TypeAt(m[..i] + [x] + m[i..], p) == if x.Covers(p) then At(x.typ) else TypeAt(m, p)
  {
    hide TypeAt;
    assert m == m[..i] + m[i..];
    TypeAtThree(m[..i], [x], m[i..], p);
    TypeAtConcat(m[..i], m[i..], p);
    TypeAtOne(x, p);
    if x.Covers(p) {
      TypeAtHole(m[..i], p);
    }
  }

  lemma {:induction false} TypeAtSet(m: seq<Entry>, i: nat, x: Entry, p: int)
    requires i < |m| && x.typ == m[i].typ && (m[i].Covers(p) ==> x.Covers(p))
    requires x.Covers(p) ==> forall j | 0 <= j < i :: !m[j].Covers(p)
    ensures TypeAt(m[i := x], p) == if x.Covers(p) then At(x.typ) else TypeAt(m, p)
  {
    assert m[i := x] == m[..i] + [x] + m[i + 1..];
    TypeAtReplace(m, i, i + 1, [x], p);
    assert m[i..i + 1] == [m[i]];
    TypeAtOne(x, p);
    TypeAtOne(m[i], p);
    TypeAtHole(m[..i], p);
  }

  lemma {:induction false} ConvertHoleTypeAt(s: Mapped, typ: MemType, lo: nat, hi: nat, p: int)
    requires Sorted(s.m) && lo <= hi && InHole(s.m, lo, hi)
    ensures TypeAt(Convert(s, typ, lo, hi).m, p) == if lo <= p <= hi then At(typ) else TypeAt(s.m, p)
  {
    hide Convert, HoleOutcome;
    ConvertHoleShape(s, typ, lo, hi);
    HoleSplitsMap(s.m, lo, hi);
    match HoleOutcome(s.m, typ, lo, hi)
    case Inserted(i) =>
      TypeAtInsert(s.m, i, Entry(lo, hi, typ, s.depth), p);
    case GrownDown(i) =>
      TypeAtSet(s.m, i, s.m[i].(start := lo), p);
      if s.m[i].Covers(p) { TypeAtIndex(s.m, i, p); }
    case GrownUp(i) =>
      TypeAtSet(s.m, i, s.m[i].(end := hi), p);
      if s.m[i].Covers(p) { TypeAtIndex(s.m, i, p); }
  }

  // ---------- when the conversion is right ----------

  ghost predicate PointwiseUpdate(m: seq<Entry>, r: seq<Entry>, typ: MemType, lo: int, hi: int) {
    forall p :: TypeAt(r, p) == if lo <= p <= hi then At(typ) else TypeAt(m, p)
  }

  /** A range that meets an entry without lying in it leaves a map with overlapping entries. */
  lemma {:induction false} ConvertStraddling(s: Mapped, typ: MemType, lo: nat, hi: nat)
    requires Sorted(s.m) && lo <= hi && !InHole(s.m, lo, hi) && !InOneEntry(s.m, lo, hi)
    ensures !Sorted(Convert(s, typ, lo, hi).m)
  {
    hide Split, MergeBoth, SplitIndex;
    var k :| 0 <= k < |s.m| && s.m[k].end >= lo && hi >= s.m[k].start;
    var r := Convert(s, typ, lo, hi).m;
    var i := FirstHit(s.m, lo, hi, 0);
    assert k < i;
    assert r[k] == s.m[k];
    assert r[i].Contains(lo, hi);
  }

  /** The conversion is a pointwise update that keeps the map sorted and disjoint exactly when
      the range lies in one entry or in a hole. */
  lemma {:induction false} ConvertIsExact(s: Mapped, typ: MemType, lo: nat, hi: nat)
    requires Sorted(s.m) && lo <= hi
    ensures var r := Convert(s, typ, lo, hi).m;
      Sorted(r) && PointwiseUpdate(s.m, r, typ, lo, hi) <==> InOneEntry(s.m, lo, hi) || InHole(s.m, lo, hi)
  {
    if InOneEntry(s.m, lo, hi) {
      ConvertInSorted(s, typ, lo, hi);
      forall p { ConvertInTypeAt(s, typ, lo, hi, p); }
    } else if InHole(s.m, lo, hi) {
      ConvertHoleSorted(s, typ, lo, hi);
      forall p { ConvertHoleTypeAt(s, typ, lo, hi, p); }
    } else {
      ConvertStraddling(s, typ, lo, hi);
    }
  }

  /** A range from page lo on touches a predecessor of its type that has another entry above: the
      code looks at the next entry only, except at the end of the list. */
  ghost predicate LeavesMergeable(m: seq<Entry>, typ: MemType, lo: nat) {
    exists k | 0 <= k < |m| - 1 :: m[k].typ == typ && m[k].end + 1 == lo
  }

  lemma {:induction false} LeavesMergeableAt(m: seq<Entry>, typ: MemType, lo: nat, hi: nat)
    requires Sorted(m) && lo <= hi && InHole(m, lo, hi)
    ensures var i := FirstHit(m, lo, hi, 0);
      LeavesMergeable(m, typ, lo) <==> 0 < i < |m| && m[i - 1].typ == typ && m[i - 1].end + 1 == lo
  {
    HoleSplitsMap(m, lo, hi);
    var i := FirstHit(m, lo, hi, 0);
    if k :| 0 <= k < |m| - 1 && m[k].typ == typ && m[k].end + 1 == lo {
      TouchesLast(m, i, k, lo);
    }
  }

  lemma {:induction false} TouchesLast(m: seq<Entry>, i: nat, k: nat, lo: nat)
    requires Sorted(m) && i <= |m| && k < |m| && m[k].end + 1 == lo
    requires (forall j | 0 <= j < i :: m[j].end < lo) && (forall j | i <= j < |m| :: lo <= m[j].start)
    ensures k == i - 1
  {
    if k < i - 1 {
      SortedEnds(m, k, i - 1);
    } else {
      SortedEnds(m, k, k);
    }
  }

  lemma {:induction false} SortedEnds(m: seq<Entry>, a: nat, b: nat)
    requires Sorted(m) && a <= b < |m|
    ensures m[b].start <= m[b].end && (a < b ==> m[a].end < m[b].end)
  {
  }

  /** A hole insertion leaves no mergeable neighbours of its type exactly when it does not touch
      such a predecessor. */
  lemma {:induction false} ConvertHoleCoalesced(s: Mapped, typ: MemType, lo: nat, hi: nat)
    requires Sorted(s.m) && lo <= hi && InHole(s.m, lo, hi) && Coalesced(s.m, typ)
    ensures Coalesced(Convert(s, typ, lo, hi).m, typ) <==> !LeavesMergeable(s.m, typ, lo)
  {
    LeavesMergeableAt(s.m, typ, lo, hi);
    hide Convert, LeavesMergeable;
    ConvertHoleShape(s, typ, lo, hi);
    HoleSplitsMap(s.m, lo, hi);
    var i := FirstHit(s.m, lo, hi, 0);
    var r := Convert(s, typ, lo, hi).m;
    if LeavesMergeable(s.m, typ, lo) {
      assert Mergeable(r[i - 1], r[i]);
    } else {
      ConvertHolePairs(s, typ, lo, hi);
    }
  }

  lemma {:induction false} InsertCoalesced(m: seq<Entry>, i: nat, x: Entry, t: MemType)
    requires i <= |m| && Coalesced(m, t)
    requires 0 < i && m[i - 1].typ == t ==> !Mergeable(m[i - 1], x)
    requires i < |m| && x.typ == t ==> !Mergeable(x, m[i])
    ensures Coalesced(m[..i] + [x] + m[i..], t)
  {
    var r := m[..i] + [x] + m[i..];
    forall k | 0 <= k < |r| - 1 && r[k].typ == t ensures !Mergeable(r[k], r[k + 1]) {
      if k < i - 1 {
        assert !Mergeable(m[k], m[k + 1]);
      } else if k > i {
        assert !Mergeable(m[k - 1], m[k]);
      }
    }
  }

  lemma {:induction false} SetCoalesced(m: seq<Entry>, i: nat, x: Entry, t: MemType)
    requires i < |m| && Coalesced(m, t) && x.typ == m[i].typ
    requires 0 < i ==> (Mergeable(m[i - 1], x) ==> m[i - 1].typ != t || Mergeable(m[i - 1], m[i]))
    requires i < |m| - 1 ==> x.end == m[i].end
    ensures Coalesced(m[i := x], t)
  {
    var r := m[i := x];
    forall k | 0 <= k < |r| - 1 && r[k].typ == t ensures !Mergeable(r[k], r[k + 1]) {
      assert !Mergeable(m[k], m[k + 1]);
    }
  }

  lemma {:induction false} ConvertHolePairs(s: Mapped, typ: MemType, lo: nat, hi: nat)
    requires Sorted(s.m) && lo <= hi && InHole(s.m, lo, hi) && Coalesced(s.m, typ)
    requires !LeavesMergeable(s.m, typ, lo)
    ensures Coalesced(Convert(s, typ, lo, hi).m, typ)
  {
    LeavesMergeableAt(s.m, typ, lo, hi);
    hide Convert, Sorted, InHole, LeavesMergeable;
    ConvertHoleShape(s, typ, lo, hi);
    match HoleOutcome(s.m, typ, lo, hi)
    case Inserted(i) => InsertCoalesced(s.m, i, Entry(lo, hi, typ, s.depth), typ);
    case GrownDown(i) => SetCoalesced(s.m, i, s.m[i].(start := lo), typ);
    case GrownUp(i) => SetCoalesced(s.m, i, s.m[i].(end := hi), typ);
  }

  /** Neighbours of another type are never made mergeable by a hole insertion. */
  lemma {:induction false} ConvertHoleOther(s: Mapped, typ: MemType, lo: nat, hi: nat, t: MemType)
    requires Sorted(s.m) && lo <= hi && InHole(s.m, lo, hi) && Coalesced(s.m, t) && t != typ
    ensures Coalesced(Convert(s, typ, lo, hi).m, t)
  {
    hide Convert, HoleOutcome, Sorted, InHole;
    ConvertHoleShape(s, typ, lo, hi);
    match HoleOutcome(s.m, typ, lo, hi)
    case Inserted(i) => InsertCoalesced(s.m, i, Entry(lo, hi, typ, s.depth), t);
    case GrownDown(i) => SetCoalesced(s.m, i, s.m[i].(start := lo), t);
    case GrownUp(i) => SetCoalesced(s.m, i, s.m[i].(end := hi), t);
  }
}
