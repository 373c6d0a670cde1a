/** Scheduling a driver with those that go before and after it, for any list of drivers: what the
    recursion does, and exactly when it ends. */
module Scheduling {
  import opened Sequences
  import opened Wrappers
  import Depex

  type Guid = Depex.Guid

  /** What lies at a driver's Depex pointer; mem extends a GUID and an opcode past size. */
  datatype Image = Image(mem: seq<Depex.Byte>, size: nat)

  datatype Driver = Driver(name: Guid, depex: Option<Image>, before: bool, after: bool, target: Guid)

  /** A driver with the flags that say how far it has got. */
  datatype DriverEntry = DriverEntry(driver: Driver, dependent: bool, scheduled: bool, initialized: bool)

  predicate Plain(d: Driver) {
    !d.before && !d.after
  }

  lemma {:induction false} Pigeonhole(s: seq<nat>, n: nat)
    requires NoDup(s) && forall j :: 0 <= j < |s| ==> s[j] < n
    ensures |s| <= n
    decreases n
  {
    if s == [] {
      return;
    }
    assert s[0] < n;
    if p :| 0 <= p < |s| && s[p] == n - 1 {
      Pigeonhole(s[..p] + s[p + 1..], n - 1);
    } else {
      Pigeonhole(s, n - 1);
    }
  }

  // ---------- flags ----------

  ghost predicate SameDrivers(ds: seq<DriverEntry>, es: seq<DriverEntry>) {
    |ds| == |es| && forall j :: 0 <= j < |ds| ==> ds[j].driver == es[j].driver
  }

  /** The list after the drivers of s have gone from Dependent to Scheduled. */
  function Mark(ds: seq<DriverEntry>, s: seq<nat>): (es: seq<DriverEntry>)
    ensures |es| == |ds|
    ensures forall j :: 0 <= j < |ds| ==>
      es[j] == if j in s then ds[j].(dependent := false, scheduled := true) else ds[j]
  {
    seq(|ds|, j requires 0 <= j < |ds| => if j in s then ds[j].(dependent := false, scheduled := true) else ds[j])
  }

  lemma {:induction false} MarkSame(ds: seq<DriverEntry>, s: seq<nat>)
    ensures SameDrivers(ds, Mark(ds, s))
  {
  }

  lemma {:induction false} MarkTwice(ds: seq<DriverEntry>, s: seq<nat>, t: seq<nat>)
    ensures Mark(Mark(ds, s), t) == Mark(ds, s + t)
  {
  }

  ghost function Waiting(ds: seq<DriverEntry>): set<nat> {
    set j: nat | j < |ds| && ds[j].dependent
  }

  // ---------- the recursion ----------

  /** Driver k names driver i as the one to go before (or after). */
  predicate Calls(ds: seq<DriverEntry>, before: bool, i: nat, k: nat) {
    && i < |ds| && k < |ds| && k != i
    && (if before then ds[k].driver.before else ds[k].driver.after)
    && ds[k].driver.target == ds[i].driver.name
  }

  /** The test in the two loops. */
  predicate Guard(ds: seq<DriverEntry>, before: bool, i: nat, k: nat) {
    Calls(ds, before, i, k) && ds[k].dependent
  }

  /** What scheduling driver i puts on the queue, which is what it marks. None: the recursion has
      gone deeper than fuel. */
  ghost function Insert(ds: seq<DriverEntry>, i: nat, fuel: nat): Option<seq<nat>>
    decreases fuel, 0
  {
    if fuel == 0 then None
    else
      match Loop(ds, true, i, 0, fuel - 1)
      case None => None
      case Some(front) =>
        match Loop(Mark(ds, front + [i]), false, i, 0, fuel - 1)
        case None => None
        case Some(back) => Some(front + [i] + back)
  }

  /** The Before loop, or the After loop, from driver k on. */
  ghost function Loop(ds: seq<DriverEntry>, before: bool, i: nat, k: nat, fuel: nat): Option<seq<nat>>
    decreases fuel, |ds| + 1 - k
  {
    if k >= |ds| then Some([])
    else if Guard(ds, before, i, k) then
      match Insert(ds, k, fuel)
      case None => None
      case Some(q) =>
        match Loop(Mark(ds, q), before, i, k + 1, fuel)
        case None => None
        case Some(rest) => Some(q + rest)
    else Loop(ds, before, i, k + 1, fuel)
  }

  /** The After loop, once the Before loop has put front on the queue. */
  ghost function AfterLoop(ds: seq<DriverEntry>, i: nat, front: seq<nat>, fuel: nat): Option<seq<nat>> {
    Loop(Mark(ds, front + [i]), false, i, 0, fuel)
  }

  lemma {:induction false} AfterLoopIs(ds: seq<DriverEntry>, i: nat, front: seq<nat>, fuel: nat)
    ensures AfterLoop(ds, i, front, fuel) == Loop(Mark(ds, front + [i]), false, i, 0, fuel)
  {
    hide Loop, Mark;
  }

  lemma {:induction false} InsertIs(ds: seq<DriverEntry>, i: nat, fuel: nat, front: seq<nat>, back: seq<nat>)
    requires fuel > 0 && Loop(ds, true, i, 0, fuel - 1) == Some(front)
    requires AfterLoop(ds, i, front, fuel - 1) == Some(back)
    ensures Insert(ds, i, fuel) == Some(front + [i] + back)
  {
    hide Loop, Mark;
  }

  lemma {:induction false} InsertMore(ds: seq<DriverEntry>, i: nat, fuel: nat, more: nat)
    requires Insert(ds, i, fuel).Some? && fuel <= more
    ensures Insert(ds, i, more) == Insert(ds, i, fuel)
    decreases fuel, 0
  {
    LoopMore(ds, true, i, 0, fuel - 1, more - 1);
    var front := Loop(ds, true, i, 0, fuel - 1).value;
    LoopMore(Mark(ds, front + [i]), false, i, 0, fuel - 1, more - 1);
  }

  lemma {:induction false} LoopMore(ds: seq<DriverEntry>, before: bool, i: nat, k: nat, fuel: nat, more: nat)
    requires Loop(ds, before, i, k, fuel).Some? && fuel <= more
    ensures Loop(ds, before, i, k, more) == Loop(ds, before, i, k, fuel)
    decreases fuel, |ds| + 1 - k
  {
    if k < |ds| {
      if Guard(ds, before, i, k) {
        InsertMore(ds, k, fuel, more);
        LoopMore(Mark(ds, Insert(ds, k, fuel).value), before, i, k + 1, fuel, more);
      } else {
        LoopMore(ds, before, i, k + 1, fuel, more);
      }
    }
  }

  // ---------- when it ends ----------

  /** Each driver of p after the first is waiting, and names the one before it in p. */
  ghost predicate IsWalk(ds: seq<DriverEntry>, i: nat, p: seq<nat>) {
    && p != [] && p[0] == i
    && forall t :: 0 < t < |p| ==> Guard(ds, true, p[t - 1], p[t]) || Guard(ds, false, p[t - 1], p[t])
  }

  /** Waiting drivers, each to go before the one ahead of it, that come back to the first. */
  ghost predicate IsCycle(ds: seq<DriverEntry>, c: seq<nat>) {
    && |c| > 1 && c[0] == c[|c| - 1]
    && forall t :: 0 < t < |c| ==> Guard(ds, true, c[t - 1], c[t])
  }

  /** Waiting drivers lead from driver i to such a cycle. */
  ghost predicate Entangled(ds: seq<DriverEntry>, i: nat) {
    exists p, c :: IsWalk(ds, i, p) && IsCycle(ds, c) && p[|p| - 1] == c[0]
  }

  // ---------- a recursion that ends meets no cycle ----------

  function First(q: seq<nat>, j: nat): (n: nat)
    ensures n <= |q|
  {
    if q == [] || q[0] == j then 0 else 1 + First(q[1..], j)
  }

  lemma {:induction false} FirstIn(q: seq<nat>, j: nat)
    ensures j in q <==> First(q, j) < |q|
  {
    if q != [] && q[0] != j {
      FirstIn(q[1..], j);
      assert q == [q[0]] + q[1..];
    }
  }

  lemma {:induction false} FirstConcat(a: seq<nat>, b: seq<nat>, j: nat)
    ensures First(a + b, j) == if j in a then First(a, j) else |a| + First(b, j)
  {
    if a == [] {
      assert a + b == b;
    } else {
      assert (a + b)[1..] == a[1..] + b && a == [a[0]] + a[1..];
      FirstConcat(a[1..], b, j);
    }
  }

  /** Whatever names a driver of q, before or after, is in q. */
  ghost predicate Closed(ds: seq<DriverEntry>, q: seq<nat>) {
    forall b, j, k :: j in q && Guard(ds, b, j, k) ==> k in q
  }

  /** A driver to go before one of q is there, and ahead of it when each is first met. */
  ghost predicate Ahead(ds: seq<DriverEntry>, q: seq<nat>) {
    forall j, k :: j in q && Guard(ds, true, j, k) ==> First(q, k) < First(q, j)
  }

  lemma {:induction false} GuardMarked(ds: seq<DriverEntry>, q: seq<nat>, before: bool, i: nat, k: nat)
    ensures Guard(Mark(ds, q), before, i, k) <==> Guard(ds, before, i, k) && k !in q
  {
  }

  lemma {:induction false} ClosedConcat(ds: seq<DriverEntry>, a: seq<nat>, b: seq<nat>)
    requires Closed(ds, a) && Closed(Mark(ds, a), b)
    ensures Closed(ds, a + b)
  {
    hide Guard, Mark;
    forall c, j, k | j in a + b && Guard(ds, c, j, k) ensures k in a + b {
      GuardMarked(ds, a, c, j, k);
    }
  }

  lemma {:induction false} AheadConcat(ds: seq<DriverEntry>, a: seq<nat>, b: seq<nat>)
    requires Ahead(ds, a) && Ahead(Mark(ds, a), b)
    ensures Ahead(ds, a + b)
  {
    hide Guard, Mark, First;
    forall j, k | j in a + b && Guard(ds, true, j, k) ensures First(a + b, k) < First(a + b, j) {
      GuardMarked(ds, a, true, j, k);
      FirstConcat(a, b, j);
      FirstConcat(a, b, k);
      FirstIn(a, j);
      FirstIn(a, k);
    }
  }

  /** All that the loop is to call, it has called, or had been called before. */
  lemma {:induction false} LoopClosed(ds: seq<DriverEntry>, before: bool, i: nat, k: nat, fuel: nat)
    requires Loop(ds, before, i, k, fuel).Some?
    ensures var q := Loop(ds, before, i, k, fuel).value;
      && Closed(ds, q) && Ahead(ds, q)
      && forall c :: k <= c && Guard(ds, before, i, c) ==> c in q
    decreases fuel, |ds| + 1 - k
  {
    hide Closed, Ahead, Mark;
    if k >= |ds| {
      NothingClosed(ds);
    } else if Guard(ds, before, i, k) {
      InsertClosed(ds, k, fuel);
      var q := Insert(ds, k, fuel).value;
      LoopClosed(Mark(ds, q), before, i, k + 1, fuel);
      var rest := Loop(Mark(ds, q), before, i, k + 1, fuel).value;
      ClosedConcat(ds, q, rest);
      AheadConcat(ds, q, rest);
      forall c | k <= c && Guard(ds, before, i, c) ensures c in q + rest {
        GuardMarked(ds, q, before, i, c);
      }
    } else {
      LoopClosed(ds, before, i, k + 1, fuel);
    }
  }

  lemma {:induction false} NothingClosed(ds: seq<DriverEntry>)
    ensures Closed(ds, []) && Ahead(ds, [])
  {
  }

  lemma {:induction false} InsertClosed(ds: seq<DriverEntry>, i: nat, fuel: nat)
    requires Insert(ds, i, fuel).Some?
    ensures var q := Insert(ds, i, fuel).value; i in q && Closed(ds, q) && Ahead(ds, q)
    decreases fuel, 0
  {
    hide Closed, Ahead, Mark;
    LoopClosed(ds, true, i, 0, fuel - 1);
    var front := Loop(ds, true, i, 0, fuel - 1).value;
    var es := Mark(ds, front + [i]);
    LoopClosed(es, false, i, 0, fuel - 1);
    var back := Loop(es, false, i, 0, fuel - 1).value;
    hide Insert, Loop;
    AheadOne(ds, front, i);
    AheadConcat(ds, front + [i], back);
    ClosedAround(ds, front, i, back);
  }

  lemma {:induction false} AheadOne(ds: seq<DriverEntry>, front: seq<nat>, i: nat)
    requires Ahead(ds, front) && forall c: nat :: Guard(ds, true, i, c) ==> c in front
    ensures Ahead(ds, front + [i])
  {
    hide Guard, First;
    forall j, k | j in front + [i] && Guard(ds, true, j, k) ensures First(front + [i], k) < First(front + [i], j) {
      FirstConcat(front, [i], j);
      FirstConcat(front, [i], k);
      FirstIn(front, j);
      FirstIn(front, k);
    }
  }

  lemma {:induction false} ClosedAround(ds: seq<DriverEntry>, front: seq<nat>, i: nat, back: seq<nat>)
    requires Closed(ds, front) && forall c: nat :: Guard(ds, true, i, c) ==> c in front
    requires Closed(Mark(ds, front + [i]), back) && forall c: nat :: Guard(Mark(ds, front + [i]), false, i, c) ==>
      c in back
    ensures Closed(ds, front + [i] + back)
  {
    hide Guard, Mark;
    forall b, j, k | j in front + [i] + back && Guard(ds, b, j, k) ensures k in front + [i] + back {
      GuardMarked(ds, front + [i], b, j, k);
    }
  }

  lemma {:induction false} WalkInside(ds: seq<DriverEntry>, q: seq<nat>, p: seq<nat>, t: nat)
    requires Closed(ds, q) && p != [] && p[0] in q && t < |p|
    requires forall t :: 0 < t < |p| ==> Guard(ds, true, p[t - 1], p[t]) || Guard(ds, false, p[t - 1], p[t])
    ensures p[t] in q
  {
    if t > 0 {
      WalkInside(ds, q, p, t - 1);
    }
  }

  lemma {:induction false} CycleAhead(ds: seq<DriverEntry>, q: seq<nat>, c: seq<nat>, t: nat)
    requires Closed(ds, q) && Ahead(ds, q) && IsCycle(ds, c) && c[0] in q && t < |c|
    ensures c[t] in q && First(q, c[t]) + t <= First(q, c[0])
  {
    if t > 0 {
      CycleAhead(ds, q, c, t - 1);
    }
  }

  lemma {:induction false} EndsUntangled(ds: seq<DriverEntry>, i: nat, fuel: nat)
    requires Insert(ds, i, fuel).Some?
    ensures !Entangled(ds, i)
  {
    InsertClosed(ds, i, fuel);
    var q := Insert(ds, i, fuel).value;
    hide Insert, Closed, Ahead, Guard;
    if p, c :| IsWalk(ds, i, p) && IsCycle(ds, c) && p[|p| - 1] == c[0] {
      WalkInside(ds, q, p, |p| - 1);
      CycleAhead(ds, q, c, |c| - 1);
    }
  }

  // ---------- without a cycle in reach it ends ----------

  /** There are n waiting drivers in a row, each to go before the one ahead of it, the first before j. */
  ghost predicate HasWalk(ds: seq<DriverEntry>, j: nat, n: nat)
    decreases n
  {
    n == 0 || exists k: nat :: Guard(ds, true, j, k) && HasWalk(ds, k, n - 1)
  }

  ghost function Longest(ds: seq<DriverEntry>, j: nat, n: nat): (r: nat)
    ensures r <= n && HasWalk(ds, j, r)
  {
    if n == 0 || HasWalk(ds, j, n) then n else Longest(ds, j, n - 1)
  }

  lemma {:induction false} LongestIsLongest(ds: seq<DriverEntry>, j: nat, n: nat, m: nat)
    requires m <= n && HasWalk(ds, j, m)
    ensures m <= Longest(ds, j, n)
  {
    hide HasWalk;
    if m < n && !HasWalk(ds, j, n) {
      LongestIsLongest(ds, j, n - 1, m);
    }
  }

  ghost function Rank(ds: seq<DriverEntry>, j: nat): nat {
    Longest(ds, j, |ds|)
  }

  ghost predicate IsBeforeWalk(ds: seq<DriverEntry>, c: seq<nat>) {
    c != [] && forall t :: 0 < t < |c| ==> Guard(ds, true, c[t - 1], c[t])
  }

  lemma {:induction false} WalkNodes(ds: seq<DriverEntry>, j: nat, n: nat) returns (c: seq<nat>)
    requires HasWalk(ds, j, n)
    ensures |c| == n + 1 && c[0] == j && IsBeforeWalk(ds, c)
    decreases n
  {
    hide Guard;
    if n == 0 {
      c := [j];
    } else {
      var k: nat :| Guard(ds, true, j, k) && HasWalk(ds, k, n - 1);
      var rest := WalkNodes(ds, k, n - 1);
      c := [j] + rest;
      forall t | 0 < t < |c| ensures Guard(ds, true, c[t - 1], c[t]) {
        if t > 1 {
          assert c[t - 1] == rest[t - 2] && c[t] == rest[t - 1];
        }
      }
    }
  }

  /** A walk goes on along a row of Before drivers. */
  lemma {:induction false} WalkOn(ds: seq<DriverEntry>, i: nat, p: seq<nat>, c: seq<nat>, a: nat)
    requires IsWalk(ds, i, p) && IsBeforeWalk(ds, c) && p[|p| - 1] == c[0] && a < |c|
    ensures IsWalk(ds, i, p + c[1..a + 1]) && (p + c[1..a + 1])[|p| + a - 1] == c[a]
  {
    hide Guard;
    var w := p + c[1..a + 1];
    forall t | 0 < t < |w| ensures Guard(ds, true, w[t - 1], w[t]) || Guard(ds, false, w[t - 1], w[t]) {
      if t >= |p| {
        assert w[t] == c[t - |p| + 1] && w[t - 1] == c[t - |p|];
        assert Guard(ds, true, c[t - |p|], c[t - |p| + 1]);
      }
    }
  }

  /** A row of more Before drivers than there are comes back to itself. */
  lemma {:induction false} LongWalkEntangles(ds: seq<DriverEntry>, i: nat, p: seq<nat>, j: nat)
    requires IsWalk(ds, i, p) && p[|p| - 1] == j && j < |ds| && HasWalk(ds, j, |ds|)
    ensures Entangled(ds, i)
  {
    hide Guard, HasWalk, IsWalk, NoDup;
    var c := WalkNodes(ds, j, |ds|);
    NodesInRange(ds, c);
    if NoDup(c) {
      Pigeonhole(c, |ds|);
    }
    var a, b := TwoAlike(c);
    WalkOn(ds, i, p, c, a);
    ComesBack(ds, c, a, b);
  }

  lemma {:induction false} NodesInRange(ds: seq<DriverEntry>, c: seq<nat>)
    requires IsBeforeWalk(ds, c) && c[0] < |ds|
    ensures forall t :: 0 <= t < |c| ==> c[t] < |ds|
  {
    forall t | 0 <= t < |c| ensures c[t] < |ds| {
      assert t > 0 ==> Guard(ds, true, c[t - 1], c[t]);
    }
  }

  lemma {:induction false} TwoAlike(c: seq<nat>) returns (a: nat, b: nat)
    requires !NoDup(c)
    ensures a < b < |c| && c[a] == c[b]
  {
    a, b :| 0 <= a < b < |c| && c[a] == c[b];
  }

  lemma {:induction false} ComesBack(ds: seq<DriverEntry>, c: seq<nat>, a: nat, b: nat)
    requires IsBeforeWalk(ds, c) && a < b < |c| && c[a] == c[b]
    ensures IsCycle(ds, c[a..b + 1]) && c[a..b + 1][0] == c[a]
  {
    hide Guard;
    var cycle := c[a..b + 1];
    forall t | 0 < t < |cycle| ensures Guard(ds, true, cycle[t - 1], cycle[t]) {
      assert Guard(ds, true, c[a + t - 1], c[a + t]);
    }
  }

  ghost predicate InReach(ds: seq<DriverEntry>, i: nat, j: nat) {
    exists p :: IsWalk(ds, i, p) && p[|p| - 1] == j
  }

  lemma {:induction false} ReachOn(ds: seq<DriverEntry>, i: nat, j: nat, before: bool, k: nat)
    requires InReach(ds, i, j) && Guard(ds, before, j, k)
    ensures InReach(ds, i, k)
  {
    hide Guard;
    var p :| IsWalk(ds, i, p) && p[|p| - 1] == j;
    var w := p + [k];
    forall t | 0 < t < |w| ensures Guard(ds, true, w[t - 1], w[t]) || Guard(ds, false, w[t - 1], w[t]) {
    }
    assert IsWalk(ds, i, w) && w[|w| - 1] == k;
  }

  /** A driver to go before another has a smaller rank. */
  lemma {:induction false} RankFalls(ds: seq<DriverEntry>, i: nat, j: nat, k: nat)
    requires !Entangled(ds, i) && InReach(ds, i, j) && Guard(ds, true, j, k)
    ensures Rank(ds, k) < Rank(ds, j)
  {
    ReachOn(ds, i, j, true, k);
    var p :| IsWalk(ds, i, p) && p[|p| - 1] == k;
    var r := Rank(ds, k);
    assert HasWalk(ds, j, r + 1);
    if r == |ds| {
      LongWalkEntangles(ds, i, p, k);
    } else {
      LongestIsLongest(ds, j, |ds|, r + 1);
    }
  }

  lemma {:induction false} WaitingMarked(ds: seq<DriverEntry>, q: seq<nat>)
    ensures Waiting(Mark(ds, q)) <= Waiting(ds) && |Waiting(Mark(ds, q))| <= |Waiting(ds)|
    ensures forall i :: i in q && i in Waiting(ds) ==> |Waiting(Mark(ds, q))| < |Waiting(ds)|
  {
    var a, b := Waiting(Mark(ds, q)), Waiting(ds);
    Fewer(a, b);
    forall i | i in q && i in b ensures |a| < |b| {
      Fewer(a, b - {i});
    }
  }

  lemma {:induction false} Fewer(a: set<nat>, b: set<nat>)
    requires a <= b
    ensures |a| <= |b|
  {
    assert b == a + (b - a);
  }

  /** How deep the recursion can go from here: each After call, and each call into it, leaves one
      driver fewer waiting, and each Before call in between lowers the rank. */
  ghost function Room(ds: seq<DriverEntry>, rank: nat): nat {
    Times(|Waiting(ds)|, |ds| + 1) + rank
  }

  function Times(a: nat, b: nat): nat {
    if a == 0 then 0 else Times(a - 1, b) + b
  }

  lemma {:induction false} TimesGrow(a: nat, c: nat, b: nat)
    requires a <= c
    ensures Times(a, b) <= Times(c, b)
    ensures a < c ==> Times(a, b) + b <= Times(c, b)
    decreases c
  {
    if a < c {
      TimesGrow(a, c - 1, b);
    }
  }

  lemma {:induction false} RoomShrinks(ds: seq<DriverEntry>, q: seq<nat>, rank: nat)
    ensures Room(Mark(ds, q), rank) <= Room(ds, rank)
    ensures forall i :: i in q && i in Waiting(ds) ==> Room(Mark(ds, q), |ds| + 1) <= Room(ds, 0)
  {
    hide Times, Waiting, Mark;
    WaitingMarked(ds, q);
    TimesGrow(|Waiting(Mark(ds, q))|, |Waiting(ds)|, |ds| + 1);
    assert |Mark(ds, q)| == |ds|;
  }

  /** ds is where the run from ds0 has got to; i is in reach of the root. */
  ghost predicate OnTheWay(ds0: seq<DriverEntry>, root: nat, ds: seq<DriverEntry>, i: nat) {
    && !Entangled(ds0, root) && InReach(ds0, root, i) && |ds| == |ds0|
    && forall b: bool, j: nat, k: nat :: Guard(ds, b, j, k) ==> Guard(ds0, b, j, k)
  }

  lemma {:induction false} OnTheWayMarked(ds0: seq<DriverEntry>, root: nat, ds: seq<DriverEntry>, i: nat, q: seq<nat>)
    requires OnTheWay(ds0, root, ds, i)
    ensures OnTheWay(ds0, root, Mark(ds, q), i)
  {
    hide Guard, Entangled, InReach;
    forall b: bool, j: nat, k: nat | Guard(Mark(ds, q), b, j, k) ensures Guard(ds0, b, j, k) {
      GuardMarked(ds, q, b, j, k);
    }
  }

  lemma {:induction false} OnTheWayChild(ds0: seq<DriverEntry>, root: nat, ds: seq<DriverEntry>, i: nat, before: bool,
                                         k: nat)
    requires OnTheWay(ds0, root, ds, i) && Guard(ds, before, i, k)
    ensures OnTheWay(ds0, root, ds, k) && k < |ds| && ds[k].dependent
    ensures Rank(ds0, k) <= |ds| && (before ==> Rank(ds0, k) < Rank(ds0, i))
  {
    hide Entangled, InReach;
    ReachOn(ds0, root, i, before, k);
    if before {
      RankFalls(ds0, root, i, k);
    }
  }

  lemma {:induction false} InsertEnds(ds0: seq<DriverEntry>, root: nat, ds: seq<DriverEntry>, i: nat, fuel: nat)
    requires OnTheWay(ds0, root, ds, i) && i < |ds| && ds[i].dependent
    requires fuel > Room(ds, Rank(ds0, i))
    ensures Insert(ds, i, fuel).Some?
    decreases fuel, 0
  {
    hide OnTheWay, Rank, Mark;
    assert i in Waiting(ds);
    hide Waiting;
    LoopEnds(ds0, root, ds, true, i, 0, fuel - 1);
    var front := Loop(ds, true, i, 0, fuel - 1).value;
    OnTheWayMarked(ds0, root, ds, i, front + [i]);
    RoomShrinks(ds, front + [i], 0);
    assert i in front + [i];
    assert Room(Mark(ds, front + [i]), |ds| + 1) <= Room(ds, 0) <= Room(ds, Rank(ds0, i));
    LoopEnds(ds0, root, Mark(ds, front + [i]), false, i, 0, fuel - 1);
  }

  lemma {:induction false} LoopEnds(ds0: seq<DriverEntry>, root: nat, ds: seq<DriverEntry>, before: bool, i: nat,
                                    k: nat, fuel: nat)
    requires OnTheWay(ds0, root, ds, i)
    requires fuel >= Room(ds, if before then Rank(ds0, i) else |ds| + 1)
    ensures Loop(ds, before, i, k, fuel).Some?
    decreases fuel, |ds| + 1 - k
  {
    hide OnTheWay, Rank, Mark, Insert;
    if k < |ds| {
      if Guard(ds, before, i, k) {
        OnTheWayChild(ds0, root, ds, i, before, k);
        assert Room(ds, Rank(ds0, k)) < Room(ds, if before then Rank(ds0, i) else |ds| + 1);
        InsertEnds(ds0, root, ds, k, fuel);
        var q := Insert(ds, k, fuel).value;
        OnTheWayMarked(ds0, root, ds, i, q);
        RoomShrinks(ds, q, if before then Rank(ds0, i) else |ds| + 1);
        LoopEnds(ds0, root, Mark(ds, q), before, i, k + 1, fuel);
      } else {
        LoopEnds(ds0, root, ds, before, i, k + 1, fuel);
      }
    }
  }

  /** Scheduling a waiting driver ends exactly when waiting drivers do not lead from it to a cycle
      of waiting Before drivers. */
  lemma {:induction false} EndsExactly(ds: seq<DriverEntry>, i: nat)
    requires i < |ds| && ds[i].dependent
    ensures (exists fuel: nat :: Insert(ds, i, fuel).Some?) <==> !Entangled(ds, i)
  {
    if fuel: nat :| Insert(ds, i, fuel).Some? {
      EndsUntangled(ds, i, fuel);
    }
    if !Entangled(ds, i) {
      assert IsWalk(ds, i, [i]) && [i][|[i]| - 1] == i;
      assert OnTheWay(ds, i, ds, i);
      var fuel := Room(ds, Rank(ds, i)) + 1;
      InsertEnds(ds, i, ds, i, fuel);
    }
  }

  // ---------- a list that does not end ----------

  const NAME_A: Guid := seq(16, _ => 1)
  const NAME_B: Guid := seq(16, _ => 2)

  /** A driver, one to go before it, and one to go before that one which has the name of the first. */
  const TANGLED: seq<DriverEntry> := [
    DriverEntry(Driver(NAME_A, None, false, false, NAME_A), true, false, false),
    DriverEntry(Driver(NAME_B, None, true, false, NAME_A), true, false, false),
    DriverEntry(Driver(NAME_A, None, true, false, NAME_B), true, false, false)]

  lemma {:induction false} TangledNeverEnds(fuel: nat)
    ensures Entangled(TANGLED, 0) && Insert(TANGLED, 0, fuel).None?
  {
    assert IsWalk(TANGLED, 0, [0, 1]);
    assert IsCycle(TANGLED, [1, 2, 1]);
    assert [0, 1][|[0, 1]| - 1] == [1, 2, 1][0];
    if Insert(TANGLED, 0, fuel).Some? {
      EndsUntangled(TANGLED, 0, fuel);
    }
  }
}
