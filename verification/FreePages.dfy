/** The list of free page nodes kept by the page allocator: taking pages from the top of
    one node, finding the node to take them from, and giving pages back. Node addresses
    are page aligned, so a node is described by page numbers; addresses that a caller may
    choose freely (a maximum, a requested address) are in bytes. */
module FreePages {
  import opened Machine
  import opened Wrappers

  /** A run of free pages; the node itself is stored in its first page. */
  datatype Node = Node(first: nat, pages: nat) {
    function End(): nat { first + pages }
    /** The address of the node. */
    function Address(): nat { first * PAGE_SIZE }
  }

  ghost predicate NodeOk(x: Node) {
    0 < x.first && 0 < x.pages && x.End() < WORD_PAGES
  }

  /** Sorted by address, pairwise disjoint, and no two nodes touch. */
  ghost predicate WellFormed(l: seq<Node>) {
    && (forall i | 0 <= i < |l| :: NodeOk(l[i]))
    && (forall i, j | 0 <= i < j < |l| :: l[i].End() < l[j].first)
  }

  /** Page p is free. */
  ghost predicate IsFree(l: seq<Node>, p: int) {
    exists i | 0 <= i < |l| :: l[i].first <= p < l[i].End()
  }

  /** The n pages from p on are free. */
  ghost predicate RunFree(l: seq<Node>, p: int, n: nat) {
    forall q | p <= q < p + n :: IsFree(l, q)
  }

  function TotalPages(l: seq<Node>): nat {
    if l == [] then 0 else l[0].pages + TotalPages(l[1..])
  }

  // ---------- taking pages ----------

  /** How many pages of x end at or below address max; UINTN arithmetic wraps. */
  function TopPages(x: Node, max: nat): nat {
    var top := ((max + 1 - x.Address()) % WORD) / PAGE_SIZE;
    if top > x.pages then x.pages else top
  }

  /** What is left of x when n pages ending before its page number top are taken. */
  function Remains(x: Node, top: nat, n: nat): seq<Node>
    requires n <= top <= x.pages
  {
    var lower := if top > n then [Node(x.first, top - n)] else [];
    var upper := if top < x.pages then [Node(x.first + top, x.pages - top)] else [];
    lower + upper
  }

  /** Takes n pages ending before page number top out of node i. */
  function TakeFromNode(l: seq<Node>, i: nat, top: nat, n: nat): (seq<Node>, nat)
    requires i < |l| && n <= top <= l[i].pages
  {
    (l[..i] + Remains(l[i], top, n) + l[i + 1..], l[i].first + (top - n))
  }

  predicate Fits(x: Node, n: nat, max: nat) {
    x.pages >= n && x.Address() + n * PAGE_SIZE - 1 <= max
  }

  /** The last of the first k nodes that can hold n pages at or below max, or -1. */
  function LastFit(l: seq<Node>, k: nat, n: nat, max: nat): (r: int)
    requires k <= |l|
    ensures -1 <= r < k
    ensures 0 <= r ==> Fits(l[r], n, max)
    ensures forall j | r < j < k :: !Fits(l[j], n, max)
  {
    if k == 0 then -1 else if Fits(l[k - 1], n, max) then k - 1 else LastFit(l, k - 1, n, max)
  }

  /** The last of the first k nodes that starts at or below page p, or -1. */
  function LastAtOrBelow(l: seq<Node>, k: nat, p: nat): (r: int)
    requires k <= |l|
    ensures -1 <= r < k
    ensures 0 <= r ==> l[r].first <= p
    ensures forall j | r < j < k :: p < l[j].first
  {
    if k == 0 then -1 else if l[k - 1].first <= p then k - 1 else LastAtOrBelow(l, k - 1, p)
  }

  lemma {:induction false} FitsTop(x: Node, n: nat, max: nat)
    requires NodeOk(x) && max < WORD && Fits(x, n, max)
    ensures n <= TopPages(x, max) <= x.pages
    ensures (x.first + TopPages(x, max)) * PAGE_SIZE <= max + 1
    ensures TopPages(x, max) < x.pages ==> max + 1 < (x.first + TopPages(x, max) + 1) * PAGE_SIZE
  {
    var d := max + 1 - x.Address();
    assert 0 <= d < WORD && d % WORD == d;
    assert (d / PAGE_SIZE) * PAGE_SIZE <= d < (d / PAGE_SIZE + 1) * PAGE_SIZE;
  }

  /** Takes from node i the n highest pages at or below address max. */
  function AllocOnOneNode(l: seq<Node>, i: nat, n: nat, max: nat): (seq<Node>, nat)
    requires i < |l| && NodeOk(l[i]) && max < WORD && Fits(l[i], n, max)
  {
    FitsTop(l[i], n, max);
    TakeFromNode(l, i, TopPages(l[i], max), n)
  }

  /** Allocation at or below a maximum address. */
  function AllocMax(l: seq<Node>, n: nat, max: nat): Option<(seq<Node>, nat)>
    requires WellFormed(l) && max < WORD
  {
    var i := LastFit(l, |l|, n, max);
    if i < 0 then None else Some(AllocOnOneNode(l, i, n, max))
  }

  /** Allocation of the n pages from page p on. */
  function AllocAt(l: seq<Node>, n: nat, p: nat): Option<(seq<Node>, nat)>
    requires WellFormed(l) && p + n < WORD_PAGES
  {
    var i := LastAtOrBelow(l, |l|, p);
    if i < 0 || l[i].End() < p + n then None else Some(AllocOnOneNode(l, i, n, (p + n) * PAGE_SIZE))
  }

  // ---------- lemmas about lists of nodes ----------

  lemma {:induction false} TotalPagesConcat(x: seq<Node>, y: seq<Node>)
    ensures TotalPages(x + y) == TotalPages(x) + TotalPages(y)
  {
    if x == [] {
      assert x + y == y;
    } else {
      TotalPagesConcat(x[1..], y);
      assert (x + y)[1..] == x[1..] + y;
    }
  }

  lemma {:induction false} TotalPagesReplace(l: seq<Node>, i: nat, j: nat, mid: seq<Node>)
    requires i <= j <= |l|
    ensures TotalPages(l[..i] + mid + l[j..]) == TotalPages(l) - TotalPages(l[i..j]) + TotalPages(mid)
  {
    assert l == l[..i] + l[i..j] + l[j..];
    TotalPagesConcat(l[..i] + l[i..j], l[j..]);
    TotalPagesConcat(l[..i], l[i..j]);
    TotalPagesConcat(l[..i] + mid, l[j..]);
    TotalPagesConcat(l[..i], mid);
  }

  lemma {:induction false} FreeInReplaced(l: seq<Node>, i: nat, j: nat, mid: seq<Node>, p: int)
    requires i <= j <= |l|
    ensures IsFree(l[..i] + mid + l[j..], p) <==> IsFree(l[..i], p) || IsFree(mid, p) || IsFree(l[j..], p)
  {
    var r := l[..i] + mid + l[j..];
    if IsFree(l[..i], p) {
      var k :| 0 <= k < |l[..i]| && l[..i][k].first <= p < l[..i][k].End();
      assert r[k] == l[..i][k];
    }
    if IsFree(mid, p) {
      var k :| 0 <= k < |mid| && mid[k].first <= p < mid[k].End();
      assert r[i + k] == mid[k];
    }
    if IsFree(l[j..], p) {
      var k :| 0 <= k < |l[j..]| && l[j..][k].first <= p < l[j..][k].End();
      assert r[i + |mid| + k] == l[j..][k];
    }
  }

  lemma {:induction false} FreeInSplit(l: seq<Node>, i: nat, p: int)
    requires i < |l|
    ensures IsFree(l, p) <==> IsFree(l[..i], p) || l[i].first <= p < l[i].End() || IsFree(l[i + 1..], p)
  {
    assert l == l[..i] + [l[i]] + l[i + 1..];
    FreeInReplaced(l, i, i + 1, [l[i]], p);
    assert [l[i]][0] == l[i];
  }

  lemma {:induction false} EndIsNotFree(l: seq<Node>, i: nat)
    requires WellFormed(l) && i < |l|
    ensures !IsFree(l, l[i].End())
  {
  }

  /** A contiguous free range lies in one node: no free run spans two nodes. */
  lemma {:induction false} RunInOneNode(l: seq<Node>, p: nat, n: nat) returns (i: nat)
    requires WellFormed(l) && 0 < n && RunFree(l, p, n)
    ensures i < |l| && l[i].first <= p && p + n <= l[i].End()
  {
    assert IsFree(l, p);
    i :| 0 <= i < |l| && l[i].first <= p < l[i].End();
    EndIsNotFree(l, i);
  }

  // ---------- taking pages is exact ----------

  lemma {:induction false} RemainsForm(x: Node, top: nat, n: nat)
    requires NodeOk(x) && 0 < n <= top <= x.pages
    ensures var mid := Remains(x, top, n);
      && WellFormed(mid)
      && forall k | 0 <= k < |mid| :: x.first <= mid[k].first && mid[k].End() <= x.End()
  {
  }

  lemma {:induction false} RemainsFree(x: Node, top: nat, n: nat, p: int)
    requires n <= top <= x.pages
    ensures IsFree(Remains(x, top, n), p) <==> x.first <= p < x.first + (top - n) || x.first + top <= p < x.End()
  {
    var mid := Remains(x, top, n);
    assert top > n ==> mid[0] == Node(x.first, top - n);
    assert top < x.pages ==> mid[|mid| - 1] == Node(x.first + top, x.pages - top);
  }

  lemma {:induction false} RemainsCount(x: Node, top: nat, n: nat)
    requires n <= top <= x.pages
    ensures TotalPages(Remains(x, top, n)) == x.pages - n
  {
    TotalPagesConcat(if top > n then [Node(x.first, top - n)] else [],
                     if top < x.pages then [Node(x.first + top, x.pages - top)] else []);
  }

  lemma {:induction false} TakeCount(l: seq<Node>, i: nat, top: nat, n: nat)
    requires i < |l| && n <= top <= l[i].pages
    ensures TotalPages(TakeFromNode(l, i, top, n).0) == TotalPages(l) - n
  {
    TotalPagesReplace(l, i, i + 1, Remains(l[i], top, n));
    RemainsCount(l[i], top, n);
    TotalPagesSingle(l, i);
  }

  lemma {:induction false} TotalPagesSingle(l: seq<Node>, i: nat)
    requires i < |l|
    ensures TotalPages(l[i..i + 1]) == l[i].pages
  {
    assert l[i..i + 1] == [l[i]];
  }

  lemma {:induction false} TakeForm(l: seq<Node>, i: nat, top: nat, n: nat)
    requires WellFormed(l) && i < |l| && 0 < n <= top <= l[i].pages
    ensures WellFormed(TakeFromNode(l, i, top, n).0)
  {
    RemainsForm(l[i], top, n);
  }

  lemma {:induction false} TakeFree(l: seq<Node>, i: nat, top: nat, n: nat, p: int)
    requires WellFormed(l) && i < |l| && 0 < n <= top <= l[i].pages
    ensures var (r, b) := TakeFromNode(l, i, top, n); IsFree(r, p) <==> IsFree(l, p) && !(b <= p < b + n)
  {
    FreeInReplaced(l, i, i + 1, Remains(l[i], top, n), p);
    FreeInSplit(l, i, p);
    RemainsFree(l[i], top, n, p);
  }

  /** Taking n pages from a node: exactly they stop being free, and the list keeps its form. */
  lemma {:induction false} TakeIsExact(l: seq<Node>, i: nat, top: nat, n: nat)
    requires WellFormed(l) && i < |l| && 0 < n <= top <= l[i].pages
    ensures var (r, b) := TakeFromNode(l, i, top, n);
      && WellFormed(r)
      && (forall p :: IsFree(r, p) <==> IsFree(l, p) && !(b <= p < b + n))
      && TotalPages(r) == TotalPages(l) - n
  {
    TakeCount(l, i, top, n);
    TakeForm(l, i, top, n);
    forall p { TakeFree(l, i, top, n, p); }
  }

  /** The page AllocOnOneNode gives: in the node, below the limit, and no page p above it would do. */
  lemma {:induction false} AllocOnOneNodeIsHighest(l: seq<Node>, i: nat, n: nat, max: nat, p: nat)
    requires i < |l| && NodeOk(l[i]) && 0 < n && max < WORD && Fits(l[i], n, max)
    ensures var b := AllocOnOneNode(l, i, n, max).1;
      && l[i].first <= b && b + n <= l[i].End() && (b + n) * PAGE_SIZE <= max + 1
      && (b < p && p + n <= l[i].End() ==> max + 1 < (p + n) * PAGE_SIZE)
  {
    FitsTop(l[i], n, max);
  }

  lemma {:induction false} AllocOnOneNodeIsExact(l: seq<Node>, i: nat, n: nat, max: nat)
    requires WellFormed(l) && i < |l| && 0 < n && max < WORD && Fits(l[i], n, max)
    ensures var (r, b) := AllocOnOneNode(l, i, n, max);
      && WellFormed(r) && TotalPages(r) == TotalPages(l) - n
      && NodeOk(Node(b, n)) && RunFree(l, b, n)
      && forall p :: IsFree(r, p) <==> IsFree(l, p) && !(b <= p < b + n)
  {
    FitsTop(l[i], n, max);
    TakeIsExact(l, i, TopPages(l[i], max), n);
  }

  /** Allocation below a maximum address is complete and highest-fit: it fails only if no run
      of n free pages ends at or below the limit, and otherwise gives the greatest such run. */
  lemma {:induction false} AllocMaxIsHighest(l: seq<Node>, n: nat, max: nat)
    requires WellFormed(l) && 0 < n && max < WORD
    ensures AllocMax(l, n, max).None? <==>
      forall p: nat | RunFree(l, p, n) :: max + 1 < (p + n) * PAGE_SIZE
    ensures AllocMax(l, n, max).Some? ==>
      var b := AllocMax(l, n, max).value.1;
      && RunFree(l, b, n) && (b + n) * PAGE_SIZE <= max + 1
      && forall p: nat | RunFree(l, p, n) && (p + n) * PAGE_SIZE <= max + 1 :: p <= b
  {
    var i := LastFit(l, |l|, n, max);
    if 0 <= i {
      AllocOnOneNodeIsHighest(l, i, n, max, 0);
      assert RunFree(l, AllocOnOneNode(l, i, n, max).1, n);
    }
    forall p: nat | RunFree(l, p, n) && (p + n) * PAGE_SIZE <= max + 1
      ensures 0 <= i && p <= AllocOnOneNode(l, i, n, max).1
    {
      var j := RunInOneNode(l, p, n);
      assert Fits(l[j], n, max);
      AllocOnOneNodeIsHighest(l, i, n, max, p);
    }
  }

  /** What allocation below a maximum leaves behind. */
  lemma {:induction false} AllocMaxIsExact(l: seq<Node>, n: nat, max: nat)
    requires WellFormed(l) && 0 < n && max < WORD && AllocMax(l, n, max).Some?
    ensures var (r, b) := AllocMax(l, n, max).value;
      && WellFormed(r) && TotalPages(r) == TotalPages(l) - n
      && NodeOk(Node(b, n)) && RunFree(l, b, n)
      && forall p :: IsFree(r, p) <==> IsFree(l, p) && !(b <= p < b + n)
  {
    AllocOnOneNodeIsExact(l, LastFit(l, |l|, n, max), n, max);
  }

  /** Allocation at an address succeeds exactly when the pages are all free, and gives that
      address. */
  lemma {:induction false} AllocAtFinds(l: seq<Node>, n: nat, p: nat)
    requires WellFormed(l) && 0 < n && p + n < WORD_PAGES
    ensures AllocAt(l, n, p).Some? <==> RunFree(l, p, n)
    ensures AllocAt(l, n, p).Some? ==> AllocAt(l, n, p).value.1 == p
  {
    hide AllocOnOneNode;
    var i := LastAtOrBelow(l, |l|, p);
    if RunFree(l, p, n) {
      var j := RunInOneNode(l, p, n);
      assert i == j;
    }
    if AllocAt(l, n, p).Some? {
      AllocOnOneNodeIsHighest(l, i, n, (p + n) * PAGE_SIZE, p);
    }
  }

  /** What allocation at an address leaves behind. */
  lemma {:induction false} AllocAtIsExact(l: seq<Node>, n: nat, p: nat)
    requires WellFormed(l) && 0 < n && p + n < WORD_PAGES && AllocAt(l, n, p).Some?
    ensures var (r, b) := AllocAt(l, n, p).value;
      && WellFormed(r) && TotalPages(r) == TotalPages(l) - n
      && NodeOk(Node(b, n)) && RunFree(l, b, n)
      && forall q :: IsFree(r, q) <==> IsFree(l, q) && !(b <= q < b + n)
  {
    hide AllocOnOneNode;
    AllocOnOneNodeIsExact(l, LastAtOrBelow(l, |l|, p), n, (p + n) * PAGE_SIZE);
  }

  // ---------- giving pages back ----------

  /** The number of leading nodes that start at or below page p. */
  function FirstAbove(l: seq<Node>, p: nat): (k: nat)
    ensures k <= |l|
    ensures forall j | 0 <= j < k :: l[j].first <= p
    ensures k < |l| ==> p < l[k].first
  {
    if l == [] || p < l[0].first then 0 else 1 + FirstAbove(l[1..], p)
  }

  /** Joins nodes i and i+1 when the second starts where the first ends. */
  function MergeAt(l: seq<Node>, i: nat): seq<Node>
    requires i + 1 < |l|
  {
    if l[i + 1].first - l[i].first == l[i].pages
    then l[..i] + [Node(l[i].first, l[i].pages + l[i + 1].pages)] + l[i + 2..]
    else l
  }

  /** Puts the n pages from p on at position k and joins them with what they touch. */
  function InsertAndMerge(l: seq<Node>, k: nat, p: nat, n: nat): seq<Node>
    requires k <= |l|
  {
    var l1 := l[..k] + [Node(p, n)] + l[k..];
    var l2 := if k > 0 then MergeAt(l1, k - 1) else l1;
    if k == |l| then l2 else MergeAt(l2, if |l2| < |l1| then k - 1 else k)
  }

  /** Frees the n pages from page p on; None when the range meets a neighbour. */
  function FreeRange(l: seq<Node>, p: nat, n: nat): Option<seq<Node>>
  {
    var k := FirstAbove(l, p);
    if k < |l| && p + n > l[k].first then None
    else if k > 0 && l[k - 1].End() > p then None
    else Some(InsertAndMerge(l, k, p, n))
  }

  /** Like WellFormed, but nodes may touch. */
  ghost predicate Ordered(l: seq<Node>) {
    && (forall i | 0 <= i < |l| :: NodeOk(l[i]))
    && (forall i, j | 0 <= i < j < |l| :: l[i].End() <= l[j].first)
  }

  /** Consecutive nodes do not touch, except possibly the pairs that start at p and q. */
  ghost predicate ApartExcept(l: seq<Node>, p: int, q: int) {
    forall i | 0 <= i < |l| - 1 && i != p && i != q :: l[i].End() != l[i + 1].first
  }

  lemma {:induction false} OrderedApartIsWellFormed(l: seq<Node>)
    requires Ordered(l) && ApartExcept(l, -1, -1)
    ensures WellFormed(l)
  {
    forall i, j | 0 <= i < j < |l| ensures l[i].End() < l[j].first {
      assert l[i].End() != l[i + 1].first;
      assert i + 1 < j ==> l[i + 1].End() <= l[j].first;
    }
  }

  lemma {:induction false} MergeAtCount(l: seq<Node>, i: nat)
    requires i + 1 < |l|
    ensures TotalPages(MergeAt(l, i)) == TotalPages(l) && |l| - 1 <= |MergeAt(l, i)| <= |l|
  {
    TotalPagesReplace(l, i, i + 2, [Node(l[i].first, l[i].pages + l[i + 1].pages)]);
    assert l[i..i + 2] == [l[i]] + [l[i + 1]];
    TotalPagesConcat([l[i]], [l[i + 1]]);
  }

  lemma {:induction false} MergeAtOrdered(l: seq<Node>, i: nat)
    requires Ordered(l) && i + 1 < |l|
    ensures Ordered(MergeAt(l, i))
  {
  }

  lemma {:induction false} MergeAtApart(l: seq<Node>, i: nat, p: int)
    requires i + 1 < |l| && ApartExcept(l, i, p) && p != i
    ensures var r := MergeAt(l, i);
      && (l[i].End() != l[i + 1].first ==> r == l && ApartExcept(r, p, -1))
      && (l[i].End() == l[i + 1].first ==> |r| == |l| - 1 && ApartExcept(r, if p > i then p - 1 else p, -1))
  {
    var r := MergeAt(l, i);
    var q := if p > i then p - 1 else p;
    if l[i].End() == l[i + 1].first {
      forall k | 0 <= k < |r| - 1 && k != q ensures r[k].End() != r[k + 1].first {
        var k' := if k < i then k else k + 1;
        assert r[k].End() == l[k'].End() && r[k + 1].first == l[k' + 1].first;
        assert k' != i && k' != p;
      }
    }
  }

  lemma {:induction false} MergeAtForm(l: seq<Node>, i: nat, p: int)
    requires Ordered(l) && i + 1 < |l| && ApartExcept(l, i, p) && p != i
    ensures var r := MergeAt(l, i);
      && Ordered(r) && |r| <= |l|
      && (|r| == |l| ==> r == l && ApartExcept(r, p, -1))
      && (|r| < |l| ==> |r| == |l| - 1 && ApartExcept(r, if p > i then p - 1 else p, -1))
  {
    MergeAtOrdered(l, i);
    MergeAtApart(l, i, p);
  }

  lemma {:induction false} MergeAtFree(l: seq<Node>, i: nat, q: int)
    requires i + 1 < |l|
    ensures IsFree(MergeAt(l, i), q) <==> IsFree(l, q)
  {
    if l[i + 1].first - l[i].first == l[i].pages {
      var mid := [Node(l[i].first, l[i].pages + l[i + 1].pages)];
      FreeInReplaced(l, i, i + 2, mid, q);
      FreeInReplaced(l, i, i + 2, l[i..i + 2], q);
      assert l == l[..i] + l[i..i + 2] + l[i + 2..];
      assert l[i..i + 2][0] == l[i] && l[i..i + 2][1] == l[i + 1] && mid[0].End() == l[i + 1].End();
    }
  }

  lemma {:induction false} InsertOrdered(l: seq<Node>, k: nat, p: nat, n: nat)
    requires Ordered(l) && NodeOk(Node(p, n)) && k <= |l|
    requires forall j | 0 <= j < k :: l[j].End() <= p
    requires forall j | k <= j < |l| :: p + n <= l[j].first
    ensures Ordered(l[..k] + [Node(p, n)] + l[k..])
  {
  }

  lemma {:induction false} InsertApart(l: seq<Node>, k: nat, p: nat, n: nat)
    requires WellFormed(l) && k <= |l|
    ensures ApartExcept(l[..k] + [Node(p, n)] + l[k..], k - 1, k)
  {
  }

  lemma {:induction false} InsertFree(l: seq<Node>, k: nat, p: nat, n: nat, q: int)
    requires k <= |l|
    ensures IsFree(l[..k] + [Node(p, n)] + l[k..], q) <==> IsFree(l, q) || p <= q < p + n
  {
    FreeInReplaced(l, k, k, [Node(p, n)], q);
    FreeInReplaced(l, k, k, [], q);
    assert l == l[..k] + [] + l[k..];
    assert [Node(p, n)][0].End() == p + n;
  }

  ghost predicate Overlaps(l: seq<Node>, p: int, n: nat) {
    exists q | p <= q < p + n :: IsFree(l, q)
  }

  /** A free is accepted exactly when none of the range is free already. */
  lemma {:induction false} FreeRangeAccepts(l: seq<Node>, p: nat, n: nat)
    requires WellFormed(l) && 0 < n
    ensures FreeRange(l, p, n).Some? <==> !Overlaps(l, p, n)
  {
    var k := FirstAbove(l, p);
    if k < |l| && p + n > l[k].first {
      assert IsFree(l, l[k].first);
    } else if k > 0 && l[k - 1].End() > p {
      assert IsFree(l, p);
    }
  }

  lemma {:induction false} InsertAndMergeForm(l: seq<Node>, k: nat, p: nat, n: nat)
    requires WellFormed(l) && NodeOk(Node(p, n)) && k <= |l|
    requires k > 0 ==> l[k - 1].End() <= p
    requires k < |l| ==> p + n <= l[k].first
    ensures WellFormed(InsertAndMerge(l, k, p, n))
  {
    var l1 := l[..k] + [Node(p, n)] + l[k..];
    InsertOrdered(l, k, p, n);
    InsertApart(l, k, p, n);
    MergeTwiceForm(l1, k);
  }

  lemma {:induction false} MergeTwiceForm(l1: seq<Node>, k: nat)
    requires Ordered(l1) && ApartExcept(l1, k - 1, k) && k < |l1|
    ensures var l2 := if k > 0 then MergeAt(l1, k - 1) else l1;
      WellFormed(if k == |l1| - 1 then l2 else MergeAt(l2, if |l2| < |l1| then k - 1 else k))
  {
    hide MergeAt, Ordered, WellFormed;
    var l2 := if k > 0 then MergeAt(l1, k - 1) else l1;
    if k > 0 { MergeAtForm(l1, k - 1, k); }
    var j := if |l2| < |l1| then k - 1 else k;
    assert Ordered(l2) && ApartExcept(l2, j, -1);
    if k == |l1| - 1 {
      OrderedApartIsWellFormed(l2);
    } else {
      MergeAtForm(l2, j, -1);
      OrderedApartIsWellFormed(MergeAt(l2, j));
    }
  }

  lemma {:induction false} InsertAndMergeFree(l: seq<Node>, k: nat, p: nat, n: nat, q: int)
    requires k <= |l|
    ensures IsFree(InsertAndMerge(l, k, p, n), q) <==> IsFree(l, q) || p <= q < p + n
  {
    var l1 := l[..k] + [Node(p, n)] + l[k..];
    InsertFree(l, k, p, n, q);
    if k > 0 {
      MergeAtFree(l1, k - 1, q);
      var l2 := MergeAt(l1, k - 1);
      if k < |l| { MergeAtFree(l2, if |l2| < |l1| then k - 1 else k, q); }
    } else if k < |l| {
      MergeAtFree(l1, k, q);
    }
  }

  lemma {:induction false} InsertCount(l: seq<Node>, k: nat, p: nat, n: nat)
    requires k <= |l|
    ensures TotalPages(l[..k] + [Node(p, n)] + l[k..]) == TotalPages(l) + n
  {
    TotalPagesReplace(l, k, k, [Node(p, n)]);
  }

  lemma {:induction false} InsertAndMergeCount(l: seq<Node>, k: nat, p: nat, n: nat)
    requires k <= |l|
    ensures TotalPages(InsertAndMerge(l, k, p, n)) == TotalPages(l) + n
  {
    hide MergeAt, TotalPages;
    var l1 := l[..k] + [Node(p, n)] + l[k..];
    InsertCount(l, k, p, n);
    if k > 0 {
      MergeAtCount(l1, k - 1);
      var l2 := MergeAt(l1, k - 1);
      if k < |l| { MergeAtCount(l2, if |l2| < |l1| then k - 1 else k); }
    } else if k < |l| {
      MergeAtCount(l1, k);
    }
  }

  /** An accepted free adds exactly its pages and restores the coalesced form. */
  lemma {:induction false} FreeRangeIsExact(l: seq<Node>, p: nat, n: nat)
    requires WellFormed(l) && NodeOk(Node(p, n)) && FreeRange(l, p, n).Some?
    ensures var r := FreeRange(l, p, n).value;
      && WellFormed(r) && TotalPages(r) == TotalPages(l) + n
      && forall q :: IsFree(r, q) <==> IsFree(l, q) || p <= q < p + n
  {
    hide InsertAndMerge;
    var k := FirstAbove(l, p);
    InsertAndMergeForm(l, k, p, n);
    InsertAndMergeCount(l, k, p, n);
    forall q { InsertAndMergeFree(l, k, p, n, q); }
  }

  // ---------- one list per set of free pages ----------

  /** A well-formed list is determined by the pages it calls free. */
  lemma {:induction false} Canonical(x: seq<Node>, y: seq<Node>)
    requires WellFormed(x) && WellFormed(y)
    requires forall p :: IsFree(x, p) <==> IsFree(y, p)
    ensures x == y
  {
    if x != [] { assert IsFree(x, x[0].first); }
    if y != [] { assert IsFree(y, y[0].first); }
    if x != [] && y != [] {
      EndIsNotFree(x, 0);
      EndIsNotFree(y, 0);
      assert x[0] == y[0];
      forall p ensures IsFree(x[1..], p) <==> IsFree(y[1..], p) {
        TailFree(x, p);
        TailFree(y, p);
      }
      Canonical(x[1..], y[1..]);
      assert x == [x[0]] + x[1..] && y == [y[0]] + y[1..];
    }
  }

  lemma {:induction false} TailFree(x: seq<Node>, p: int)
    requires WellFormed(x) && x != []
    ensures IsFree(x[1..], p) <==> IsFree(x, p) && x[0].End() <= p
  {
    FreeInSplit(x, 0, p);
  }
}
