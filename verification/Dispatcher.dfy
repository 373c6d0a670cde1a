/** The driver dispatcher: the Before/After scheduling recursion, the dispatch loop, and what
    holds of a run of it. */
module Dispatcher {
  import opened Wrappers
  import opened Scheduling
  import opened Sequences
  import Depex

  // ---------- chains of targets ----------

  ghost predicate Distinct(ds: seq<DriverEntry>) {
    forall a, b :: 0 <= a < b < |ds| ==> ds[a].driver.name != ds[b].driver.name
  }

  predicate Links(d: Driver, parent: Driver) {
    !Plain(d) && d.target == parent.name
  }

  /** A driver that is neither Before nor After, then a driver targeting it, and so on. */
  ghost predicate IsChain(ds: seq<DriverEntry>, path: seq<nat>) {
    && path != []
    && (forall j :: 0 <= j < |path| ==> path[j] < |ds|)
    && Plain(ds[path[0]].driver)
    && (forall j :: 0 < j < |path| ==> Links(ds[path[j]].driver, ds[path[j - 1]].driver))
  }

  function Last(path: seq<nat>): nat
    requires path != []
  {
    path[|path| - 1]
  }

  lemma {:induction false} ChainPrefix(ds: seq<DriverEntry>, path: seq<nat>, n: nat)
    requires IsChain(ds, path) && 0 < n <= |path|
    ensures IsChain(ds, path[..n])
  {
    forall j | 0 < j < n ensures Links(ds[path[..n][j]].driver, ds[path[..n][j - 1]].driver) {
      assert Links(ds[path[j]].driver, ds[path[j - 1]].driver);
    }
  }

  /** The chain a driver is at the end of is unique, since names are. */
  lemma {:induction false} ChainUnique(ds: seq<DriverEntry>, p: seq<nat>, q: seq<nat>)
    requires Distinct(ds) && IsChain(ds, p) && IsChain(ds, q) && Last(p) == Last(q)
    ensures p == q
    decreases |p|
  {
    var m, n := |p|, |q|;
    LastLinks(ds, p);
    LastLinks(ds, q);
    assert m > 1 <==> n > 1;
    if m > 1 {
      ChainPrefix(ds, p, m - 1);
      ChainPrefix(ds, q, n - 1);
      ChainUnique(ds, p[..m - 1], q[..n - 1]);
      assert p == p[..m - 1] + [p[m - 1]] && q == q[..n - 1] + [q[n - 1]];
    } else {
      assert p == [Last(p)] && q == [Last(q)];
    }
  }

  lemma {:induction false} LastLinks(ds: seq<DriverEntry>, p: seq<nat>)
    requires IsChain(ds, p)
    ensures |p| > 1 <==> !Plain(ds[Last(p)].driver)
    ensures |p| > 1 ==> Links(ds[Last(p)].driver, ds[p[|p| - 2]].driver)
  {
    var n := |p| - 1;
    assert n > 0 ==> Links(ds[p[n]].driver, ds[p[n - 1]].driver);
  }

  lemma {:induction false} ChainShort(ds: seq<DriverEntry>, path: seq<nat>)
    requires Distinct(ds) && IsChain(ds, path)
    ensures NoDup(path) && |path| <= |ds| && Last(path) < |ds|
  {
    forall a, b | 0 <= a < b < |path| ensures path[a] != path[b] {
      if path[a] == path[b] {
        ChainPrefix(ds, path, a + 1);
        ChainPrefix(ds, path, b + 1);
        ChainUnique(ds, path[..a + 1], path[..b + 1]);
      }
    }
    Pigeonhole(path, |ds|);
  }

  // ---------- the order drivers are scheduled in ----------

  /** Driver k is still waiting and names the end of the chain as the one to go before (or after). */
  ghost predicate IsChild(ds: seq<DriverEntry>, path: seq<nat>, before: bool, k: nat)
    requires IsChain(ds, path)
  {
    && k < |ds|
    && (if before then ds[k].driver.before else !ds[k].driver.before && ds[k].driver.after)
    && ds[k].dependent
    && ds[k].driver.target == ds[Last(path)].driver.name
  }

  lemma {:induction false} ChainChild(ds: seq<DriverEntry>, path: seq<nat>, before: bool, k: nat)
    requires IsChain(ds, path) && IsChild(ds, path, before, k)
    ensures IsChain(ds, path + [k]) && Last(path + [k]) == k
  {
    var p := path + [k];
    forall j | 0 < j < |p| ensures Links(ds[p[j]].driver, ds[p[j - 1]].driver) {
      if j < |path| {
        assert Links(ds[path[j]].driver, ds[path[j - 1]].driver);
      }
    }
  }

  /** What scheduling the end of the chain puts on the queue: what goes before it, the driver,
      what goes after it. */
  ghost function Order(ds: seq<DriverEntry>, path: seq<nat>): (r: seq<nat>)
    requires Distinct(ds) && IsChain(ds, path)
    ensures forall x :: 0 <= x < |r| ==> r[x] < |ds|
    decreases |ds| - |path|, |ds| + 1
  {
    Children(ds, path, true, |ds|) + [Last(path)] + Children(ds, path, false, |ds|)
  }

  /** The same for the waiting drivers below k that name the end of the chain. */
  ghost function Children(ds: seq<DriverEntry>, path: seq<nat>, before: bool, k: nat): (r: seq<nat>)
    requires Distinct(ds) && IsChain(ds, path) && k <= |ds|
    ensures forall x :: 0 <= x < |r| ==> r[x] < |ds|
    decreases |ds| - |path|, k
  {
    if k == 0 then []
    else Children(ds, path, before, k - 1) + Subtree(ds, path, before, k - 1)
  }

  ghost function Subtree(ds: seq<DriverEntry>, path: seq<nat>, before: bool, k: nat): (r: seq<nat>)
    requires Distinct(ds) && IsChain(ds, path) && k < |ds|
    ensures forall x :: 0 <= x < |r| ==> r[x] < |ds|
    decreases |ds| - |path|, k
  {
    if IsChild(ds, path, before, k) then
      ChainShort(ds, path); ChainChild(ds, path, before, k); Order(ds, path + [k])
    else []
  }

  /** The drivers of q, each waiting, lead from the end of the chain to j. */
  ghost predicate Reaches(ds: seq<DriverEntry>, path: seq<nat>, q: seq<nat>, j: nat) {
    && IsChain(ds, path + q) && Last(path + q) == j
    && forall c :: |path| <= c < |path + q| ==> ds[(path + q)[c]].dependent
  }

  lemma {:induction false} ReachesChild(ds: seq<DriverEntry>, path: seq<nat>, before: bool, k: nat, q: seq<nat>, j: nat)
    requires IsChain(ds, path) && IsChild(ds, path, before, k) && Reaches(ds, path + [k], q, j)
    ensures Reaches(ds, path, [k] + q, j)
  {
    assert path + [k] + q == path + ([k] + q);
  }

  lemma {:induction false} ReachesFirst(ds: seq<DriverEntry>, path: seq<nat>, q: seq<nat>, j: nat)
    returns (before: bool)
    requires Distinct(ds) && IsChain(ds, path) && Reaches(ds, path, q, j) && q != []
    ensures IsChild(ds, path, before, q[0]) && Reaches(ds, path + [q[0]], q[1..], j)
  {
    assert path + [q[0]] + q[1..] == path + q;
    assert (path + q)[|path|] == q[0] && (path + q)[|path| - 1] == Last(path);
    assert Links(ds[(path + q)[|path|]].driver, ds[(path + q)[|path| - 1]].driver);
    before := ds[q[0]].driver.before;
  }

  lemma {:induction false} ChildrenStep(ds: seq<DriverEntry>, path: seq<nat>, before: bool, k: nat, j: nat)
    requires Distinct(ds) && IsChain(ds, path) && k < |ds|
    ensures j in Children(ds, path, before, k + 1) <==>
      j in Children(ds, path, before, k) || j in Subtree(ds, path, before, k)
  {
    hide Subtree;
  }

  lemma {:induction false} ChildrenMembers(ds: seq<DriverEntry>, path: seq<nat>, before: bool, k: nat, j: nat)
    requires Distinct(ds) && IsChain(ds, path) && k <= |ds|
    ensures j in Children(ds, path, before, k) <==> exists c :: 0 <= c < k && j in Subtree(ds, path, before, c)
    decreases k
  {
    hide Subtree;
    if k > 0 {
      ChildrenMembers(ds, path, before, k - 1, j);
      ChildrenStep(ds, path, before, k - 1, j);
      hide Children;
      if j in Children(ds, path, before, k - 1) {
        var c :| 0 <= c < k - 1 && j in Subtree(ds, path, before, c);
        assert 0 <= c < k;
      }
    }
  }

  /** Whatever is scheduled has a chain of waiting drivers to the end of the path. */
  lemma {:induction false} OrderSound(ds: seq<DriverEntry>, path: seq<nat>, j: nat) returns (q: seq<nat>)
    requires Distinct(ds) && IsChain(ds, path) && j in Order(ds, path)
    ensures Reaches(ds, path, q, j)
    decreases |ds| - |path|
  {
    hide Children, Subtree;
    if j == Last(path) {
      q := [];
      assert path + q == path;
    } else {
      var before := j in Children(ds, path, true, |ds|);
      hide Order;
      ChildrenMembers(ds, path, before, |ds|, j);
      var k :| 0 <= k < |ds| && j in Subtree(ds, path, before, k);
      SubtreeOrder(ds, path, before, k, j);
      var rest := OrderSound(ds, path + [k], j);
      ReachesChild(ds, path, before, k, rest, j);
      q := [k] + rest;
    }
  }

  lemma {:induction false} SubtreeOrder(ds: seq<DriverEntry>, path: seq<nat>, before: bool, k: nat, j: nat)
    requires Distinct(ds) && IsChain(ds, path) && k < |ds| && j in Subtree(ds, path, before, k)
    ensures |path| <= |ds| && IsChild(ds, path, before, k) && IsChain(ds, path + [k]) && j in Order(ds, path + [k])
  {
    ChainShort(ds, path);
    ChainChild(ds, path, before, k);
    hide Order;
  }

  lemma {:induction false} OrderComplete(ds: seq<DriverEntry>, path: seq<nat>, q: seq<nat>, j: nat)
    requires Distinct(ds) && IsChain(ds, path) && Reaches(ds, path, q, j)
    ensures j in Order(ds, path)
    decreases |q|
  {
    if q == [] {
      assert path + q == path;
    } else {
      var before := ReachesFirst(ds, path, q, j);
      ChainChild(ds, path, before, q[0]);
      OrderComplete(ds, path + [q[0]], q[1..], j);
      ChildrenMembers(ds, path, before, |ds|, j);
      assert j in Subtree(ds, path, before, q[0]);
    }
  }

  /** Scheduling a driver schedules exactly the waiting drivers whose chain of targets reaches
      it through waiting drivers. */
  lemma {:induction false} OrderIsExact(ds: seq<DriverEntry>, path: seq<nat>, j: nat)
    requires Distinct(ds) && IsChain(ds, path)
    ensures j in Order(ds, path) <==> exists q :: Reaches(ds, path, q, j)
  {
    if j in Order(ds, path) {
      var q := OrderSound(ds, path, j);
    }
    forall q | Reaches(ds, path, q, j) ensures j in Order(ds, path) {
      OrderComplete(ds, path, q, j);
    }
  }

  // ---------- each once, and in the right order ----------

  lemma {:induction false} ReachesUnique(ds: seq<DriverEntry>, path: seq<nat>, q: seq<nat>, r: seq<nat>, j: nat)
    requires Distinct(ds) && Reaches(ds, path, q, j) && Reaches(ds, path, r, j)
    ensures q == r
  {
    ChainUnique(ds, path + q, path + r);
    assert (path + q)[|path|..] == q && (path + r)[|path|..] == r;
  }

  /** Different children have nothing in common, and none contains the end of the path. */
  lemma {:induction false} SubtreesApart(ds: seq<DriverEntry>, path: seq<nat>, b: bool, c: nat, b': bool, c': nat,
                                         j: nat)
    requires Distinct(ds) && IsChain(ds, path) && c < |ds| && c' < |ds|
    requires j in Subtree(ds, path, b, c) && j in Subtree(ds, path, b', c')
    ensures c == c' && b == b' && j != Last(path)
  {
    ChainChild(ds, path, b, c);
    ChainChild(ds, path, b', c');
    var q := OrderSound(ds, path + [c], j);
    var r := OrderSound(ds, path + [c'], j);
    ReachesChild(ds, path, b, c, q, j);
    ReachesChild(ds, path, b', c', r, j);
    ReachesUnique(ds, path, [c] + q, [c'] + r, j);
    assert ([c] + q)[0] == ([c'] + r)[0];
    if j == Last(path) {
      assert path + [] == path;
      ReachesUnique(ds, path, [], [c] + q, j);
    }
  }

  lemma {:induction false} NoDupConcat(s: seq<nat>, t: seq<nat>)
    requires NoDup(s) && NoDup(t) && forall j :: j in s ==> j !in t
    ensures NoDup(s + t)
  {
    forall a, b | 0 <= a < b < |s + t| ensures (s + t)[a] != (s + t)[b] {
      if a < |s| && b >= |s| {
        assert s[a] in s && t[b - |s|] in t;
      }
    }
  }

  lemma {:induction false} ChildrenNoDup(ds: seq<DriverEntry>, path: seq<nat>, before: bool, k: nat)
    requires Distinct(ds) && IsChain(ds, path) && k <= |ds|
    ensures NoDup(Children(ds, path, before, k))
    decreases |ds| - |path|, k
  {
    if k > 0 {
      ChildrenNoDup(ds, path, before, k - 1);
      var front, sub := Children(ds, path, before, k - 1), Subtree(ds, path, before, k - 1);
      if IsChild(ds, path, before, k - 1) {
        ChainShort(ds, path);
        ChainChild(ds, path, before, k - 1);
        OrderNoDup(ds, path + [k - 1]);
      }
      forall j | j in front ensures j !in sub {
        LaterApart(ds, path, before, k - 1, j);
      }
      NoDupConcat(front, sub);
    }
  }

  lemma {:induction false} LaterApart(ds: seq<DriverEntry>, path: seq<nat>, before: bool, k: nat, j: nat)
    requires Distinct(ds) && IsChain(ds, path) && k < |ds| && j in Children(ds, path, before, k)
    ensures j !in Subtree(ds, path, before, k)
  {
    hide Children;
    ChildrenMembers(ds, path, before, k, j);
    var c :| 0 <= c < k && j in Subtree(ds, path, before, c);
    if j in Subtree(ds, path, before, k) {
      SubtreesApart(ds, path, before, c, before, k, j);
    }
  }

  /** No driver is scheduled twice. */
  lemma {:induction false} OrderNoDup(ds: seq<DriverEntry>, path: seq<nat>)
    requires Distinct(ds) && IsChain(ds, path)
    ensures NoDup(Order(ds, path))
    decreases |ds| - |path|, |ds| + 1
  {
    var n, i := |ds|, Last(path);
    var front, back := Children(ds, path, true, n), Children(ds, path, false, n);
    ChildrenNoDup(ds, path, true, n);
    ChildrenNoDup(ds, path, false, n);
    forall j ensures !(j in front && j in back) && (j in front || j in back ==> j != i) {
      ChildrenMembers(ds, path, true, n, j);
      ChildrenMembers(ds, path, false, n, j);
      if c :| 0 <= c < n && j in Subtree(ds, path, true, c) {
        SubtreesApart(ds, path, true, c, true, c, j);
        if c' :| 0 <= c' < n && j in Subtree(ds, path, false, c') {
          SubtreesApart(ds, path, true, c, false, c', j);
        }
      } else if c :| 0 <= c < n && j in Subtree(ds, path, false, c) {
        SubtreesApart(ds, path, false, c, false, c, j);
      }
    }
    NoDupConcat(front, [i]);
    NoDupConcat(front + [i], back);
  }

  /** A driver linked to another has that other's chain, one longer. */
  lemma {:induction false} ParentChain(ds: seq<DriverEntry>, path: seq<nat>, q: seq<nat>, p: nat, r: seq<nat>, c: nat)
    requires Distinct(ds) && IsChain(ds, path) && Reaches(ds, path, q, p) && Reaches(ds, path, r, c)
    requires Links(ds[c].driver, ds[p].driver)
    ensures r == q + [c]
  {
    var long := path + r;
    var n := |long| - 1;
    LastLinks(ds, long);
    ChainPrefix(ds, long, n);
    assert ds[long[n - 1]].driver.name == ds[p].driver.name;
    ChainUnique(ds, long[..n], path + q);
    assert long == path + q + [c];
    assert (path + q + [c])[|path|..] == q + [c] && long[|path|..] == r;
  }

  /** The drivers of a subtree stand together. */
  lemma {:induction false} ChildrenSegment(ds: seq<DriverEntry>, path: seq<nat>, before: bool, k: nat, n: nat)
    returns (u: seq<nat>, v: seq<nat>)
    requires Distinct(ds) && IsChain(ds, path) && k < n <= |ds|
    ensures Children(ds, path, before, n) == u + Subtree(ds, path, before, k) + v
    decreases n
  {
    hide Subtree;
    if k == n - 1 {
      u, v := Children(ds, path, before, k), [];
    } else {
      u, v := ChildrenSegment(ds, path, before, k, n - 1);
      v := v + Subtree(ds, path, before, n - 1);
    }
  }

  lemma {:induction false} OrderSegment(ds: seq<DriverEntry>, path: seq<nat>, before: bool, k: nat)
    returns (u: seq<nat>, v: seq<nat>)
    requires Distinct(ds) && IsChain(ds, path) && k < |ds|
    ensures Order(ds, path) == u + Subtree(ds, path, before, k) + v
    ensures before ==> Last(path) in v
    ensures !before ==> Last(path) in u
  {
    var n, i := |ds|, [Last(path)];
    u, v := ChildrenSegment(ds, path, before, k, n);
    hide Children, Subtree;
    if before {
      v := v + i + Children(ds, path, false, n);
    } else {
      u := Children(ds, path, true, n) + i + u;
    }
  }

  lemma {:induction false} SamePlace(u: seq<nat>, s: seq<nat>, v: seq<nat>, x: nat, c: nat) returns (x': nat)
    requires NoDup(u + s + v) && x < |u + s + v| && (u + s + v)[x] == c && c in s
    ensures x' < |s| && s[x'] == c && x == |u| + x'
  {
    x' :| 0 <= x' < |s| && s[x'] == c;
    assert (u + s + v)[|u| + x'] == c;
  }

  lemma {:induction false} SplitPlace(u: seq<nat>, s: seq<nat>, v: seq<nat>, x: nat, y: nat)
    requires var o := u + s + v; NoDup(o) && x < |o| && y < |o| && o[x] in s
    ensures (u + s + v)[y] in v ==> x < y
    ensures (u + s + v)[y] in u ==> y < x
  {
    var o := u + s + v;
    var x' := SamePlace(u, s, v, x, o[x]);
    if o[y] in v {
      var y' :| 0 <= y' < |v| && v[y'] == o[y];
      assert o[|u| + |s| + y'] == o[y];
    }
    if o[y] in u {
      var y' :| 0 <= y' < |u| && u[y'] == o[y];
      assert o[y'] == o[y];
    }
  }

  /** A Before driver is scheduled ahead of its target, an After driver behind it. */
  lemma {:induction false} OrderPlaces(ds: seq<DriverEntry>, path: seq<nat>, x: nat, y: nat)
    requires Distinct(ds) && IsChain(ds, path) && x < |Order(ds, path)| && y < |Order(ds, path)|
    requires Links(ds[Order(ds, path)[x]].driver, ds[Order(ds, path)[y]].driver)
    ensures if ds[Order(ds, path)[x]].driver.before then x < y else y < x
    decreases |ds| - |path|
  {
    var o := Order(ds, path);
    var c, p := o[x], o[y];
    OrderNoDup(ds, path);
    var q := OrderSound(ds, path, p);
    var r := OrderSound(ds, path, c);
    ParentChain(ds, path, q, p, r, c);
    hide Order, Children, Subtree;
    var side := ReachesFirst(ds, path, r, c);
    var k := r[0];
    ChainShort(ds, path);
    ChainChild(ds, path, side, k);
    var below := Order(ds, path + [k]);
    var u, v := OrderSegment(ds, path, side, k);
    ChildSubtree(ds, path, side, k);
    OrderComplete(ds, path + [k], r[1..], c);
    if q == [] {
      assert path + q == path;
      SplitPlace(u, below, v, x, y);
    } else {
      assert q[0] == k && r[1..] == q[1..] + [c];
      var _ := ReachesFirst(ds, path, q, p);
      OrderComplete(ds, path + [k], q[1..], p);
      var x' := SamePlace(u, below, v, x, c);
      var y' := SamePlace(u, below, v, y, p);
      OrderPlaces(ds, path + [k], x', y');
    }
  }

  lemma {:induction false} ChildSubtree(ds: seq<DriverEntry>, path: seq<nat>, before: bool, k: nat)
    requires Distinct(ds) && IsChain(ds, path) && IsChild(ds, path, before, k)
    ensures IsChain(ds, path + [k]) && Subtree(ds, path, before, k) == Order(ds, path + [k])
    ensures k in Subtree(ds, path, before, k)
  {
    ChainChild(ds, path, before, k);
  }

  // ---------- what a change of flags leaves as it was ----------

  /** The drivers strictly below the end of the chain are waiting in both or in neither. */
  ghost predicate SameBelow(ds: seq<DriverEntry>, es: seq<DriverEntry>, path: seq<nat>)
    requires SameDrivers(ds, es)
  {
    forall q: seq<nat> :: q != [] && IsChain(ds, path + q) ==>
      ds[Last(path + q)].dependent == es[Last(path + q)].dependent
  }

  lemma {:induction false} SameChain(ds: seq<DriverEntry>, es: seq<DriverEntry>, path: seq<nat>)
    requires SameDrivers(ds, es) && IsChain(ds, path)
    ensures IsChain(es, path)
  {
    forall j | 0 < j < |path| ensures Links(es[path[j]].driver, es[path[j - 1]].driver) {
      assert Links(ds[path[j]].driver, ds[path[j - 1]].driver);
    }
  }

  lemma {:induction false} SameChild(ds: seq<DriverEntry>, es: seq<DriverEntry>, path: seq<nat>, before: bool, k: nat)
    requires SameDrivers(ds, es) && IsChain(ds, path) && IsChain(es, path) && SameBelow(ds, es, path)
    ensures IsChild(ds, path, before, k) <==> IsChild(es, path, before, k)
  {
    if IsChild(ds, path, before, k) {
      ChainChild(ds, path, before, k);
    } else if IsChild(es, path, before, k) {
      ChainChild(es, path, before, k);
      SameChain(es, ds, path + [k]);
    }
  }

  lemma {:induction false} SameBelowChild(ds: seq<DriverEntry>, es: seq<DriverEntry>, path: seq<nat>, k: nat)
    requires SameDrivers(ds, es) && SameBelow(ds, es, path)
    ensures SameBelow(ds, es, path + [k])
  {
    forall q: seq<nat> | q != [] && IsChain(ds, path + [k] + q)
      ensures ds[Last(path + [k] + q)].dependent == es[Last(path + [k] + q)].dependent
    {
      assert path + [k] + q == path + ([k] + q);
    }
  }

  /** What scheduling a driver does depends only on the flags of the drivers below it. */
  lemma {:induction false} OrderFrame(ds: seq<DriverEntry>, es: seq<DriverEntry>, path: seq<nat>)
    requires SameDrivers(ds, es) && Distinct(ds) && IsChain(ds, path) && SameBelow(ds, es, path)
    ensures Distinct(es) && IsChain(es, path) && Order(es, path) == Order(ds, path)
    decreases |ds| - |path|, |ds| + 1
  {
    SameChain(ds, es, path);
    ChildrenFrame(ds, es, path, true, |ds|);
    ChildrenFrame(ds, es, path, false, |ds|);
  }

  lemma {:induction false} ChildrenFrame(ds: seq<DriverEntry>, es: seq<DriverEntry>, path: seq<nat>, before: bool,
                                         k: nat)
    requires SameDrivers(ds, es) && Distinct(ds) && IsChain(ds, path) && SameBelow(ds, es, path)
    requires Distinct(es) && IsChain(es, path) && k <= |ds|
    ensures Children(es, path, before, k) == Children(ds, path, before, k)
    decreases |ds| - |path|, k
  {
    hide Subtree, SameBelow, SameDrivers, IsChain, Distinct;
    if k > 0 {
      ChildrenFrame(ds, es, path, before, k - 1);
      SubtreeFrame(ds, es, path, before, k - 1);
    }
  }

  lemma {:induction false} SubtreeFrame(ds: seq<DriverEntry>, es: seq<DriverEntry>, path: seq<nat>, before: bool,
                                        k: nat)
    requires SameDrivers(ds, es) && Distinct(ds) && IsChain(ds, path) && SameBelow(ds, es, path)
    requires Distinct(es) && IsChain(es, path) && k < |ds|
    ensures Subtree(es, path, before, k) == Subtree(ds, path, before, k)
    decreases |ds| - |path|, k
  {
    SameChild(ds, es, path, before, k);
    hide SameBelow, Order;
    if IsChild(ds, path, before, k) {
      ChainShort(ds, path);
      ChainChild(ds, path, before, k);
      SameBelowChild(ds, es, path, k);
      OrderFrame(ds, es, path + [k]);
    }
  }

  /** j is the end of the path or in another subtree than that of k. */
  ghost predicate InOther(ds: seq<DriverEntry>, path: seq<nat>, before: bool, k: nat, j: nat)
    requires Distinct(ds) && IsChain(ds, path)
  {
    || j == Last(path)
    || exists b, c :: 0 <= c < |ds| && (b != before || c != k) && j in Subtree(ds, path, b, c)
  }

  ghost predicate Elsewhere(ds: seq<DriverEntry>, path: seq<nat>, before: bool, k: nat, s: seq<nat>)
    requires Distinct(ds) && IsChain(ds, path)
  {
    forall j :: j in s ==> InOther(ds, path, before, k, j)
  }

  lemma {:induction false} BelowApart(ds: seq<DriverEntry>, path: seq<nat>, before: bool, k: nat, q: seq<nat>, b: bool,
                                      c: nat)
    requires Distinct(ds) && IsChain(ds, path) && IsChild(ds, path, before, k)
    requires IsChain(ds, path + ([k] + q))
    requires c < |ds| && Last(path + ([k] + q)) in Subtree(ds, path, b, c)
    ensures b == before && c == k
  {
    var j := Last(path + ([k] + q));
    ChainChild(ds, path, b, c);
    var r := OrderSound(ds, path + [c], j);
    assert path + [c] + r == path + ([c] + r);
    ChainUnique(ds, path + ([c] + r), path + ([k] + q));
    assert (path + ([c] + r))[|path|] == c && (path + ([k] + q))[|path|] == k;
  }

  lemma {:induction false} MarkElsewhere(ds: seq<DriverEntry>, path: seq<nat>, before: bool, k: nat, s: seq<nat>)
    requires Distinct(ds) && IsChain(ds, path) && IsChild(ds, path, before, k) && Elsewhere(ds, path, before, k, s)
    ensures k !in s && k != Last(path)
    ensures SameBelow(ds, Mark(ds, s), path + [k])
  {
    forall q | IsChain(ds, path + ([k] + q))
      ensures Last(path + ([k] + q)) !in s && Last(path + ([k] + q)) != Last(path)
    {
      var j := Last(path + ([k] + q));
      if j == Last(path) {
        ChainUnique(ds, path + ([k] + q), path);
      } else if j in s {
        var b, c :| 0 <= c < |ds| && (b != before || c != k) && j in Subtree(ds, path, b, c);
        BelowApart(ds, path, before, k, q, b, c);
      }
    }
    ChainChild(ds, path, before, k);
    assert path + [k] == path + ([k] + []);
    forall q: seq<nat> | q != [] && IsChain(ds, path + [k] + q)
      ensures Last(path + [k] + q) !in s
    {
      assert path + [k] + q == path + ([k] + q);
    }
  }

  /** What has been scheduled when the Before loop, or the After loop, reaches driver k. */
  ghost function Sofar(ds: seq<DriverEntry>, path: seq<nat>, before: bool, k: nat): seq<nat>
    requires Distinct(ds) && IsChain(ds, path) && k <= |ds|
  {
    if before then Children(ds, path, true, k)
    else Children(ds, path, true, |ds|) + [Last(path)] + Children(ds, path, false, k)
  }

  lemma {:induction false} SofarElsewhere(ds: seq<DriverEntry>, path: seq<nat>, before: bool, k: nat)
    requires Distinct(ds) && IsChain(ds, path) && k < |ds|
    ensures Elsewhere(ds, path, before, k, Sofar(ds, path, before, k))
  {
    hide Subtree, Children;
    forall j | j in Sofar(ds, path, before, k) ensures InOther(ds, path, before, k, j) {
      ChildrenMembers(ds, path, before, k, j);
      ChildrenMembers(ds, path, true, |ds|, j);
      if j != Last(path) {
        if c :| 0 <= c < k && j in Subtree(ds, path, before, c) {
        } else {
          var c :| 0 <= c < |ds| && j in Subtree(ds, path, true, c);
        }
      }
    }
  }

  ghost predicate Exclusive(ds: seq<DriverEntry>) {
    forall j :: 0 <= j < |ds| ==> !(ds[j].driver.before && ds[j].driver.after)
  }

  /** One step of the Before loop, or of the After loop, when driver k is to be scheduled. */
  lemma {:induction false} LoopStep(ds: seq<DriverEntry>, path: seq<nat>, before: bool, k: nat)
    requires Distinct(ds) && IsChain(ds, path) && k < |ds| && IsChild(ds, path, before, k)
    ensures var s, es := Sofar(ds, path, before, k), Mark(ds, Sofar(ds, path, before, k));
      && k != Last(path) && es[k].dependent && Last(path + [k]) == k && (Exclusive(ds) ==> Exclusive(es))
      && Distinct(es) && IsChain(es, path + [k])
      && Sofar(ds, path, before, k + 1) == s + Order(es, path + [k])
      && Mark(ds, Sofar(ds, path, before, k + 1)) == Mark(es, Order(es, path + [k]))
  {
    hide Sofar, Order, Subtree, Elsewhere, SameBelow, IsChain;
    var s := Sofar(ds, path, before, k);
    SofarElsewhere(ds, path, before, k);
    MarkElsewhere(ds, path, before, k, s);
    ChildSubtree(ds, path, before, k);
    OrderFrame(ds, Mark(ds, s), path + [k]);
    SofarStep(ds, path, before, k);
    MarkTwice(ds, s, Order(ds, path + [k]));
  }

  lemma {:induction false} SofarStep(ds: seq<DriverEntry>, path: seq<nat>, before: bool, k: nat)
    requires Distinct(ds) && IsChain(ds, path) && k < |ds|
    ensures Sofar(ds, path, before, k + 1) == Sofar(ds, path, before, k) + Subtree(ds, path, before, k)
  {
    assert Children(ds, path, before, k + 1) == Children(ds, path, before, k) + Subtree(ds, path, before, k);
    hide Children, Subtree;
    if !before {
      var u := Children(ds, path, true, |ds|) + [Last(path)];
      assert u + (Children(ds, path, false, k) + Subtree(ds, path, false, k)) ==
        u + Children(ds, path, false, k) + Subtree(ds, path, false, k);
    }
  }

  lemma {:induction false} LoopSkip(ds: seq<DriverEntry>, path: seq<nat>, before: bool, k: nat)
    requires Distinct(ds) && IsChain(ds, path) && k < |ds| && !IsChild(ds, path, before, k)
    ensures Sofar(ds, path, before, k + 1) == Sofar(ds, path, before, k)
  {
    SofarStep(ds, path, before, k);
  }

  /** The test in the two loops picks exactly the children. */
  lemma {:induction false} LoopGuard(ds: seq<DriverEntry>, path: seq<nat>, before: bool, k: nat)
    requires Distinct(ds) && IsChain(ds, path) && k < |ds| && Exclusive(ds)
    ensures var e := Mark(ds, Sofar(ds, path, before, k))[k];
      (if before then e.driver.before else e.driver.after) && e.dependent && k != Last(path) &&
      ds[Last(path)].driver.name == e.driver.target
      <==> IsChild(ds, path, before, k)
  {
    hide Sofar;
    if IsChild(ds, path, before, k) {
      LoopStep(ds, path, before, k);
    }
  }

  /** The step between the two loops. */
  lemma {:induction false} MarkRoot(ds: seq<DriverEntry>, path: seq<nat>)
    requires Distinct(ds) && IsChain(ds, path)
    ensures var i, es := Last(path), Mark(ds, Sofar(ds, path, true, |ds|));
      && Sofar(ds, path, false, 0) == Sofar(ds, path, true, |ds|) + [i]
      && Mark(ds, Sofar(ds, path, false, 0)) == es[i := es[i].(dependent := false, scheduled := true)]
  {
    hide Subtree;
    var s, i := Sofar(ds, path, true, |ds|), Last(path);
    assert s + [i] + [] == s + [i];
    hide Sofar;
    MarkTwice(ds, s, [i]);
  }

  lemma {:induction false} SofarStart(ds: seq<DriverEntry>, path: seq<nat>)
    requires Distinct(ds) && IsChain(ds, path)
    ensures Sofar(ds, path, true, 0) == [] && Mark(ds, []) == ds
  {
  }

  lemma {:induction false} SofarEnd(ds: seq<DriverEntry>, path: seq<nat>)
    requires Distinct(ds) && IsChain(ds, path)
    ensures Sofar(ds, path, false, |ds|) == Order(ds, path)
  {
  }

  // ---------- the recursion ends, and this is what it does ----------

  /** With distinct names, scheduling the end of a chain takes no more calls in each other than
      there are drivers off the chain, and puts its order on the queue. */
  lemma {:induction false} InsertIsOrder(ds: seq<DriverEntry>, path: seq<nat>, fuel: nat)
    requires Distinct(ds) && Exclusive(ds) && IsChain(ds, path) && fuel + |path| > |ds|
    ensures Insert(ds, Last(path), fuel) == Some(Order(ds, path))
    decreases |ds| - |path|, |ds| + 2, 1
  {
    hide *;
    var front, back := LoopsAre(ds, path, fuel);
    InsertIs(ds, Last(path), fuel, front, back);
  }

  lemma {:induction false} FuelLeft(ds: seq<DriverEntry>, path: seq<nat>, fuel: nat)
    requires Distinct(ds) && IsChain(ds, path) && fuel + |path| > |ds|
    ensures path != [] && |path| <= |ds| && fuel > 0
  {
    ChainShort(ds, path);
  }

  lemma {:induction false} LoopsAre(ds: seq<DriverEntry>, path: seq<nat>, fuel: nat)
    returns (front: seq<nat>, back: seq<nat>)
    requires Distinct(ds) && Exclusive(ds) && IsChain(ds, path) && fuel + |path| > |ds|
    ensures path != [] && fuel > 0
    ensures Loop(ds, true, Last(path), 0, fuel - 1) == Some(front)
    ensures AfterLoop(ds, Last(path), front, fuel - 1) == Some(back)
    ensures front + [Last(path)] + back == Order(ds, path)
    decreases |ds| - |path|, |ds| + 2, 0
  {
    hide *;
    FuelLeft(ds, path, fuel);
    front := FrontIs(ds, path, fuel - 1);
    back := BackIs(ds, path, front, fuel - 1);
  }

  lemma {:induction false} FrontIs(ds: seq<DriverEntry>, path: seq<nat>, fuel: nat) returns (front: seq<nat>)
    requires Distinct(ds) && Exclusive(ds) && IsChain(ds, path) && fuel + |path| >= |ds|
    ensures path != [] && Loop(ds, true, Last(path), 0, fuel) == Some(front) && front == Sofar(ds, path, true, |ds|)
    decreases |ds| - |path|, |ds| + 1
  {
    ChainShort(ds, path);
    hide *;
    SofarStart(ds, path);
    LoopIsSofar(ds, path, true, 0, fuel);
    front := Loop(ds, true, Last(path), 0, fuel).value;
    assert [] + front == front;
  }

  lemma {:induction false} BackIs(ds: seq<DriverEntry>, path: seq<nat>, front: seq<nat>, fuel: nat)
    returns (back: seq<nat>)
    requires Distinct(ds) && Exclusive(ds) && IsChain(ds, path) && fuel + |path| >= |ds|
    requires front == Sofar(ds, path, true, |ds|)
    ensures path != [] && AfterLoop(ds, Last(path), front, fuel) == Some(back)
    ensures front + [Last(path)] + back == Order(ds, path)
    decreases |ds| - |path|, |ds| + 1
  {
    ChainShort(ds, path);
    AfterLoopIs(ds, Last(path), front, fuel);
    hide *;
    MarkRoot(ds, path);
    LoopIsSofar(ds, path, false, 0, fuel);
    SofarEnd(ds, path);
    back := AfterLoop(ds, Last(path), front, fuel).value;
  }

  lemma {:induction false} LoopIsSofar(ds: seq<DriverEntry>, path: seq<nat>, before: bool, k: nat, fuel: nat)
    requires Distinct(ds) && Exclusive(ds) && IsChain(ds, path) && k <= |ds| && fuel + |path| >= |ds|
    ensures var rest := Loop(Mark(ds, Sofar(ds, path, before, k)), before, Last(path), k, fuel);
      rest.Some? && Sofar(ds, path, before, k) + rest.value == Sofar(ds, path, before, |ds|)
    decreases |ds| - |path|, |ds| - k
  {
    hide Sofar, IsChild, IsChain, Distinct, Order, Exclusive, Insert, Mark;
    if k < |ds| {
      GuardIsChild(ds, path, before, k);
      if IsChild(ds, path, before, k) {
        ChainShort(ds, path);
        LoopStep(ds, path, before, k);
        InsertIsOrder(Mark(ds, Sofar(ds, path, before, k)), path + [k], fuel);
      } else {
        LoopSkip(ds, path, before, k);
      }
      LoopIsSofar(ds, path, before, k + 1, fuel);
    }
  }

  lemma {:induction false} GuardIsChild(ds: seq<DriverEntry>, path: seq<nat>, before: bool, k: nat)
    requires Distinct(ds) && IsChain(ds, path) && k < |ds| && Exclusive(ds)
    ensures Guard(Mark(ds, Sofar(ds, path, before, k)), before, Last(path), k) <==> IsChild(ds, path, before, k)
  {
    LoopGuard(ds, path, before, k);
    hide Sofar, IsChild;
  }

  /** So with distinct names no driver that is neither Before nor After is ever entangled. */
  lemma {:induction false} DistinctIsUntangled(ds: seq<DriverEntry>, i: nat)
    requires Distinct(ds) && Exclusive(ds) && i < |ds| && Plain(ds[i].driver)
    ensures !Entangled(ds, i)
  {
    assert IsChain(ds, [i]);
    InsertIsOrder(ds, [i], |ds|);
    EndsUntangled(ds, i, |ds|);
  }

  // ---------- the dispatcher ----------

  const NO_GUID: Guid := [0, 0, 0, 0, 0, 0, 0, 0, 0, 0, 0, 0, 0, 0, 0, 0]

  ghost predicate Readable(depex: Option<Image>) {
    depex.Some? ==> depex.value.size + 17 <= |depex.value.mem|
  }

  /** The first opcode says whether the driver is a Before, an After or neither. */
  function MmPreProcessDepex(name: Guid, depex: Option<Image>): (d: Driver)
    requires Readable(depex)
    ensures d.name == name && d.depex == depex && !(d.before && d.after)
    ensures d.before <==> depex.Some? && depex.value.mem[0] == Depex.BEFORE
    ensures d.after <==> depex.Some? && depex.value.mem[0] == Depex.AFTER
    ensures !Plain(d) ==> d.target == depex.value.mem[1..17]
  {
    if depex.None? then Driver(name, depex, false, false, NO_GUID)
    else
      var op := depex.value.mem[0];
      if op == Depex.BEFORE || op == Depex.AFTER then
        Driver(name, depex, op == Depex.BEFORE, op == Depex.AFTER, depex.value.mem[1..17])
      else
        Driver(name, depex, false, false, NO_GUID)
  }

  ghost predicate Preprocessed(d: Driver) {
    Readable(d.depex) && d == MmPreProcessDepex(d.name, d.depex)
  }

  /** The driver may be scheduled when the interfaces of db are installed. */
  ghost predicate Ready(d: Driver, db: set<Guid>, cap: nat) {
    Plain(d) && d.depex.Some? && Readable(d.depex) && Depex.Run(d.depex.value.mem, d.depex.value.size, db, cap, 0, [])
  }

  /** That is: it is neither Before nor After, has an expression, and that is a list of well-formed
      expressions that fit, the last one true. */
  lemma {:induction false} ReadyIs(d: Driver, db: set<Guid>, cap: nat)
    ensures Ready(d, db, cap) <==>
      && !d.before && !d.after && d.depex.Some? && Readable(d.depex)
      && exists p :: Depex.IsProgram(p, d.depex.value.mem, d.depex.value.size) && Depex.Fits(p, cap) &&
                     Depex.Truth(p[|p| - 1], db)
  {
    if d.depex.Some? && Readable(d.depex) {
      Depex.RunIsExact(d.depex.value.mem, d.depex.value.size, db, cap);
    }
    hide Depex.Run, Depex.Fits, Depex.Truth;
  }

  /** Exactly one of waiting, queued and done. */
  predicate OneState(e: DriverEntry) {
    if e.dependent then !e.scheduled && !e.initialized else e.scheduled != e.initialized
  }

  /** The driver's chain of targets starts at one that was ready when some search was made. */
  ghost predicate Warranted(ds: seq<DriverEntry>, searched: seq<set<Guid>>, cap: nat, j: nat) {
    exists path, t :: IsChain(ds, path) && Last(path) == j && 0 <= t < |searched| &&
                      Ready(ds[path[0]].driver, searched[t], cap)
  }

  /** What holds of the lists at all times. */
  ghost predicate Consistent(ds: seq<DriverEntry>, queue: seq<nat>, started: seq<nat>) {
    && Distinct(ds)
    && (forall j :: 0 <= j < |ds| ==> Preprocessed(ds[j].driver) && OneState(ds[j]))
    && NoDup(queue) && NoDup(started)
    && (forall j :: j in queue ==> j < |ds|)
    && (forall j :: 0 <= j < |ds| ==> (ds[j].scheduled <==> j in queue))
    && (forall j :: j in started ==> j < |ds| && ds[j].initialized)
  }

  ghost predicate AllWarranted(ds: seq<DriverEntry>, searched: seq<set<Guid>>, cap: nat) {
    forall j: nat :: j < |ds| && !ds[j].dependent ==> Warranted(ds, searched, cap, j)
  }

  ghost predicate AtFixpoint(ds: seq<DriverEntry>, db: set<Guid>, cap: nat) {
    forall j :: 0 <= j < |ds| && ds[j].dependent ==> !Ready(ds[j].driver, db, cap)
  }

  lemma {:induction false} OrderWaiting(ds: seq<DriverEntry>, path: seq<nat>, j: nat)
    requires Distinct(ds) && IsChain(ds, path) && ds[Last(path)].dependent && j in Order(ds, path)
    ensures j < |ds| && ds[j].dependent
  {
    var q := OrderSound(ds, path, j);
    hide Order;
    if q == [] {
      assert path + q == path;
    } else {
      assert ds[(path + q)[|path + q| - 1]].dependent;
    }
  }

  lemma {:induction false} ScheduleKeeps(ds: seq<DriverEntry>, queue: seq<nat>, started: seq<nat>, path: seq<nat>)
    requires Consistent(ds, queue, started) && IsChain(ds, path) && ds[Last(path)].dependent
    ensures Consistent(Mark(ds, Order(ds, path)), queue + Order(ds, path), started)
  {
    hide IsChain, Order;
    var o := Order(ds, path);
    OrderNoDup(ds, path);
    forall j | j in o ensures j < |ds| && ds[j].dependent {
      OrderWaiting(ds, path, j);
    }
    NoDupConcat(queue, o);
    MarkConsistent(ds, queue, started, o);
  }

  lemma {:induction false} MarkConsistent(ds: seq<DriverEntry>, queue: seq<nat>, started: seq<nat>, o: seq<nat>)
    requires Consistent(ds, queue, started) && NoDup(queue + o) && forall j :: j in o ==> j < |ds| && ds[j].dependent
    ensures Consistent(Mark(ds, o), queue + o, started)
  {
    hide Preprocessed, NoDup;
  }

  lemma {:induction false} DequeueKeeps(ds: seq<DriverEntry>, queue: seq<nat>, started: seq<nat>, runs: bool)
    requires Consistent(ds, queue, started) && queue != []
    ensures queue[0] < |ds|
    ensures var i := queue[0];
      Consistent(ds[i := ds[i].(scheduled := false, initialized := true)], queue[1..],
                 if runs then started + [i] else started)
  {
    var i := queue[0];
    assert i in queue;
    TailMembers(queue);
    hide Preprocessed, Distinct;
    DistinctFlags(ds, ds[i := ds[i].(scheduled := false, initialized := true)]);
    assert OneState(ds[i]);
    NoDupAppend(started, i);
  }

  lemma {:induction false} TailMembers(queue: seq<nat>)
    requires queue != [] && NoDup(queue)
    ensures NoDup(queue[1..]) && forall j :: j in queue[1..] <==> j in queue && j != queue[0]
  {
    forall j | j in queue && j != queue[0] ensures j in queue[1..] {
      var x :| 0 <= x < |queue| && queue[x] == j;
      assert queue[1..][x - 1] == j;
    }
  }

  lemma {:induction false} NoDupAppend(s: seq<nat>, i: nat)
    requires NoDup(s) && i !in s
    ensures NoDup(s + [i])
  {
  }

  lemma {:induction false} DistinctFlags(ds: seq<DriverEntry>, es: seq<DriverEntry>)
    requires Distinct(ds) && SameDrivers(ds, es)
    ensures Distinct(es)
  {
  }

  lemma {:induction false} FlagsWarranted(ds: seq<DriverEntry>, es: seq<DriverEntry>, searched: seq<set<Guid>>,
                                          cap: nat)
    requires AllWarranted(ds, searched, cap) && SameDrivers(ds, es)
    requires forall j :: 0 <= j < |ds| ==> es[j].dependent == ds[j].dependent
    ensures AllWarranted(es, searched, cap)
  {
    forall j: nat | j < |es| && !es[j].dependent ensures Warranted(es, searched, cap, j) {
      var p, u :| IsChain(ds, p) && Last(p) == j && 0 <= u < |searched| &&
        Ready(ds[p[0]].driver, searched[u], cap);
      hide Ready;
      SameChain(ds, es, p);
    }
  }

  lemma {:induction false} SearchWarranted(ds: seq<DriverEntry>, searched: seq<set<Guid>>, cap: nat, db: set<Guid>)
    requires AllWarranted(ds, searched, cap)
    ensures AllWarranted(ds, searched + [db], cap)
  {
    forall j: nat | j < |ds| && !ds[j].dependent ensures Warranted(ds, searched + [db], cap, j) {
      var p, u :| IsChain(ds, p) && Last(p) == j && 0 <= u < |searched| &&
        Ready(ds[p[0]].driver, searched[u], cap);
      assert (searched + [db])[u] == searched[u];
    }
  }

  lemma {:induction false} ScheduleProgress(ds: seq<DriverEntry>, path: seq<nat>)
    requires Distinct(ds) && IsChain(ds, path) && ds[Last(path)].dependent
    ensures Waiting(Mark(ds, Order(ds, path))) < Waiting(ds)
  {
    hide Children;
    assert Last(path) in Order(ds, path);
    hide Order;
    assert Last(path) in Waiting(ds);
  }

  /** A driver scheduled along with a ready one. */
  lemma {:induction false} OrderWarranted(ds: seq<DriverEntry>, path: seq<nat>, searched: seq<set<Guid>>, cap: nat,
                                          t: nat, j: nat)
    requires Distinct(ds) && IsChain(ds, path) && |path| == 1 && j in Order(ds, path)
    requires t < |searched| && Ready(ds[path[0]].driver, searched[t], cap)
    ensures Warranted(ds, searched, cap, j)
  {
    var q := OrderSound(ds, path, j);
    hide Order, Ready;
    assert (path + q)[0] == path[0];
  }

  lemma {:induction false} SameWarranted(ds: seq<DriverEntry>, es: seq<DriverEntry>, searched: seq<set<Guid>>, cap: nat,
                                         j: nat)
    requires SameDrivers(ds, es) && Warranted(ds, searched, cap, j)
    ensures Warranted(es, searched, cap, j)
  {
    hide Ready;
    var p, u :| IsChain(ds, p) && Last(p) == j && 0 <= u < |searched| && Ready(ds[p[0]].driver, searched[u], cap);
    SameChain(ds, es, p);
  }

  lemma {:induction false} ScheduleWarranted(ds: seq<DriverEntry>, path: seq<nat>, searched: seq<set<Guid>>, cap: nat,
                                             t: nat)
    requires Distinct(ds) && IsChain(ds, path) && AllWarranted(ds, searched, cap)
    requires t < |searched| && |path| == 1 && Ready(ds[path[0]].driver, searched[t], cap)
    ensures AllWarranted(Mark(ds, Order(ds, path)), searched, cap)
  {
    hide Order, Ready, Warranted, IsChain;
    var es := Mark(ds, Order(ds, path));
    forall j: nat | j < |es| && !es[j].dependent ensures Warranted(es, searched, cap, j) {
      if j in Order(ds, path) {
        OrderWarranted(ds, path, searched, cap, t, j);
      }
      SameWarranted(ds, es, searched, cap, j);
    }
  }

  lemma {:induction false} ReadyIsPlain(d: Driver, db: set<Guid>, cap: nat)
    requires Ready(d, db, cap)
    ensures Plain(d)
  {
  }

  lemma {:induction false} LastOfOne(i: nat)
    ensures Last([i]) == i
  {
  }

  /** Scheduling a driver that was just found ready. */
  lemma {:induction false} ScheduleRootKeeps(ds: seq<DriverEntry>, queue: seq<nat>, started: seq<nat>,
                                             searched: seq<set<Guid>>, cap: nat, i: nat)
    requires Consistent(ds, queue, started) && AllWarranted(ds, searched, cap) && i < |ds| && ds[i].dependent
    requires searched != [] && Ready(ds[i].driver, searched[|searched| - 1], cap)
    ensures Exclusive(ds) && Distinct(ds) && IsChain(ds, [i])
    ensures var es := Mark(ds, Order(ds, [i]));
      && Consistent(es, queue + Order(ds, [i]), started) && AllWarranted(es, searched, cap)
      && SameDrivers(ds, es) && Waiting(es) < Waiting(ds)
  {
    hide *;
    ReadyIsPlain(ds[i].driver, searched[|searched| - 1], cap);
    LastOfOne(i);
    RootChain(ds, queue, started, i);
    MarkSame(ds, Order(ds, [i]));
    ScheduleKeeps(ds, queue, started, [i]);
    ScheduleWarranted(ds, [i], searched, cap, |searched| - 1);
    ScheduleProgress(ds, [i]);
  }

  lemma {:induction false} ConsistentDriver(ds: seq<DriverEntry>, queue: seq<nat>, started: seq<nat>, i: nat)
    requires Consistent(ds, queue, started) && i < |ds|
    ensures Preprocessed(ds[i].driver) && Exclusive(ds)
  {
    forall j | 0 <= j < |ds| ensures !(ds[j].driver.before && ds[j].driver.after) {
      assert Preprocessed(ds[j].driver);
    }
  }

  lemma {:induction false} QueuedNotWaiting(ds: seq<DriverEntry>, queue: seq<nat>, started: seq<nat>, i: nat)
    requires Consistent(ds, queue, started) && i in queue
    ensures i < |ds| && !ds[i].dependent
  {
    assert OneState(ds[i]);
  }

  lemma {:induction false} RootChain(ds: seq<DriverEntry>, queue: seq<nat>, started: seq<nat>, i: nat)
    requires Consistent(ds, queue, started) && i < |ds| && Plain(ds[i].driver)
    ensures Distinct(ds) && IsChain(ds, [i]) && Exclusive(ds)
  {
    ConsistentDriver(ds, queue, started, i);
  }

  lemma {:induction false} MarkOne(ds: seq<DriverEntry>, front: seq<nat>, i: nat)
    requires i < |ds|
    ensures var es := Mark(ds, front);
      Mark(ds, front + [i]) == es[i := es[i].(dependent := false, scheduled := true)]
  {
  }

  lemma {:induction false} MarkNone(ds: seq<DriverEntry>)
    ensures Mark(ds, []) == ds
  {
  }

  lemma {:induction false} AddKeeps(ds: seq<DriverEntry>, queue: seq<nat>, started: seq<nat>, searched: seq<set<Guid>>,
                                    cap: nat, d: Driver)
    requires Consistent(ds, queue, started) && AllWarranted(ds, searched, cap) && Preprocessed(d)
    requires forall j :: 0 <= j < |ds| ==> ds[j].driver.name != d.name
    ensures Consistent(ds + [DriverEntry(d, true, false, false)], queue, started)
    ensures AllWarranted(ds + [DriverEntry(d, true, false, false)], searched, cap)
  {
    var es := ds + [DriverEntry(d, true, false, false)];
    forall j: nat | j < |es| && !es[j].dependent ensures Warranted(es, searched, cap, j) {
      assert es[j] == ds[j];
      var p, u :| IsChain(ds, p) && Last(p) == j && 0 <= u < |searched| &&
        Ready(ds[p[0]].driver, searched[u], cap);
      hide Ready;
      LongerChain(ds, es, p);
    }
  }

  lemma {:induction false} LongerChain(ds: seq<DriverEntry>, es: seq<DriverEntry>, path: seq<nat>)
    requires ds <= es && IsChain(ds, path)
    ensures IsChain(es, path)
  {
    forall j | 0 < j < |path| ensures Links(es[path[j]].driver, es[path[j - 1]].driver) {
      assert Links(ds[path[j]].driver, ds[path[j - 1]].driver);
    }
  }
}
