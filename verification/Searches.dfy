/** What one search of the discovered drivers schedules: with every ready driver, those that go
    before and after it. */
module Searches {
  import opened Sequences
  import opened Scheduling
  import opened Dispatcher

  lemma {:induction false} ReadyRoot(ds: seq<DriverEntry>, db: set<Guid>, cap: nat, k: nat)
    requires k < |ds| && Ready(ds[k].driver, db, cap)
    ensures IsChain(ds, [k]) && Last([k]) == k
  {
  }

  /** The drivers that come with driver k, when it is waiting and ready. */
  ghost function Part(ds: seq<DriverEntry>, db: set<Guid>, cap: nat, k: nat): (r: seq<nat>)
    requires Distinct(ds) && k < |ds|
    ensures forall x :: 0 <= x < |r| ==> r[x] < |ds|
  {
    if ds[k].dependent && Ready(ds[k].driver, db, cap) then
      ReadyRoot(ds, db, cap, k);
      Order(ds, [k])
    else []
  }

  /** The drivers that come with the first n, in the order in which they are queued. */
  ghost function Batch(ds: seq<DriverEntry>, db: set<Guid>, cap: nat, n: nat): (r: seq<nat>)
    requires Distinct(ds) && n <= |ds|
    ensures forall x :: 0 <= x < |r| ==> r[x] < |ds|
  {
    if n == 0 then [] else Batch(ds, db, cap, n - 1) + Part(ds, db, cap, n - 1)
  }

  /** Waiting drivers lead from a ready one to driver j. */
  ghost predicate Due(ds: seq<DriverEntry>, db: set<Guid>, cap: nat, path: seq<nat>, j: nat) {
    && IsChain(ds, path) && Last(path) == j && Ready(ds[path[0]].driver, db, cap)
    && forall t :: 0 <= t < |path| ==> ds[path[t]].dependent
  }

  ghost predicate DueFrom(ds: seq<DriverEntry>, db: set<Guid>, cap: nat, k: nat, j: nat) {
    exists path :: Due(ds, db, cap, path, j) && path[0] == k
  }

  ghost predicate DueBelow(ds: seq<DriverEntry>, db: set<Guid>, cap: nat, n: nat, j: nat) {
    exists path :: Due(ds, db, cap, path, j) && path[0] < n
  }

  lemma {:induction false} DueBelowStep(ds: seq<DriverEntry>, db: set<Guid>, cap: nat, n: nat, j: nat)
    ensures DueBelow(ds, db, cap, n + 1, j) <==> DueBelow(ds, db, cap, n, j) || DueFrom(ds, db, cap, n, j)
    ensures !DueBelow(ds, db, cap, 0, j)
  {
    hide Ready;
  }

  lemma {:induction false} PartIsExact(ds: seq<DriverEntry>, db: set<Guid>, cap: nat, k: nat, j: nat)
    requires Distinct(ds) && k < |ds|
    ensures j in Part(ds, db, cap, k) <==> DueFrom(ds, db, cap, k, j)
  {
    if ds[k].dependent && Ready(ds[k].driver, db, cap) {
      ReadyRoot(ds, db, cap, k);
      OrderIsExact(ds, [k], j);
      hide Order, Ready, IsChain;
      if q :| Reaches(ds, [k], q, j) {
        ReachesIsDue(ds, db, cap, k, q, j);
      }
      if path :| Due(ds, db, cap, path, j) && path[0] == k {
        DueReaches(ds, db, cap, path, j);
      }
    }
  }

  lemma {:induction false} ReachesIsDue(ds: seq<DriverEntry>, db: set<Guid>, cap: nat, k: nat, q: seq<nat>, j: nat)
    requires k < |ds| && ds[k].dependent && Ready(ds[k].driver, db, cap) && Reaches(ds, [k], q, j)
    ensures Due(ds, db, cap, [k] + q, j) && ([k] + q)[0] == k
  {
    hide Ready;
    var path := [k] + q;
    forall t | 0 <= t < |path| ensures ds[path[t]].dependent {
      if t > 0 {
        assert |[k]| <= t;
      }
    }
  }

  lemma {:induction false} DueReaches(ds: seq<DriverEntry>, db: set<Guid>, cap: nat, path: seq<nat>, j: nat)
    requires Due(ds, db, cap, path, j)
    ensures Reaches(ds, [path[0]], path[1..], j)
  {
    hide Ready;
    assert [path[0]] + path[1..] == path;
  }

  /** A search schedules exactly the drivers that waiting drivers lead to from a ready one. */
  lemma {:induction false} BatchIsExact(ds: seq<DriverEntry>, db: set<Guid>, cap: nat, n: nat, j: nat)
    requires Distinct(ds) && n <= |ds|
    ensures j in Batch(ds, db, cap, n) <==> DueBelow(ds, db, cap, n, j)
  {
    hide DueBelow, DueFrom, Part;
    if n > 0 {
      BatchIsExact(ds, db, cap, n - 1, j);
      PartIsExact(ds, db, cap, n - 1, j);
    }
    DueBelowStep(ds, db, cap, if n > 0 then n - 1 else 0, j);
  }

  /** What came with earlier drivers is neither k nor below it. */
  lemma {:induction false} BatchElsewhere(ds: seq<DriverEntry>, db: set<Guid>, cap: nat, k: nat)
    requires Distinct(ds) && k < |ds| && Plain(ds[k].driver)
    ensures k !in Batch(ds, db, cap, k)
    ensures SameDrivers(ds, Mark(ds, Batch(ds, db, cap, k))) && SameBelow(ds, Mark(ds, Batch(ds, db, cap, k)), [k])
  {
    var b := Batch(ds, db, cap, k);
    MarkSame(ds, b);
    forall q | IsChain(ds, [k] + q) ensures Last([k] + q) !in b {
      NotInBatch(ds, db, cap, k, q);
    }
    assert IsChain(ds, [k] + []) && [k] + [] == [k];
  }

  lemma {:induction false} NotInBatch(ds: seq<DriverEntry>, db: set<Guid>, cap: nat, k: nat, q: seq<nat>)
    requires Distinct(ds) && k < |ds| && IsChain(ds, [k] + q)
    ensures Last([k] + q) !in Batch(ds, db, cap, k)
  {
    var j := Last([k] + q);
    BatchIsExact(ds, db, cap, k, j);
    hide Batch, Ready;
    if path :| Due(ds, db, cap, path, j) && path[0] < k {
      ChainUnique(ds, path, [k] + q);
    }
  }

  /** Whether a driver is ready, and what comes with it, does not depend on what the search has
      scheduled before. */
  lemma {:induction false} BatchStep(ds: seq<DriverEntry>, db: set<Guid>, cap: nat, k: nat)
    requires Distinct(ds) && k < |ds|
    ensures var b, es := Batch(ds, db, cap, k), Mark(ds, Batch(ds, db, cap, k));
      && Batch(ds, db, cap, k + 1) == b + Part(ds, db, cap, k)
      && Mark(ds, Batch(ds, db, cap, k + 1)) == Mark(es, Part(ds, db, cap, k))
      && (if es[k].dependent && Ready(es[k].driver, db, cap)
          then IsChain(es, [k]) && Distinct(es) && Part(ds, db, cap, k) == Order(es, [k]) != []
          else Part(ds, db, cap, k) == [])
  {
    var b := Batch(ds, db, cap, k);
    hide Batch, Order;
    MarkTwice(ds, b, Part(ds, db, cap, k));
    if Ready(ds[k].driver, db, cap) {
      ReadyRoot(ds, db, cap, k);
      BatchElsewhere(ds, db, cap, k);
      OrderFrame(ds, Mark(ds, b), [k]);
      OrderNotEmpty(Mark(ds, b), [k]);
    }
  }

  lemma {:induction false} OrderNotEmpty(ds: seq<DriverEntry>, path: seq<nat>)
    requires Distinct(ds) && IsChain(ds, path)
    ensures Order(ds, path) != []
  {
  }

  /** A driver and the one it names have the same root. */
  lemma {:induction false} SameRoot(ds: seq<DriverEntry>, path: seq<nat>, parent: seq<nat>)
    requires Distinct(ds) && IsChain(ds, path) && IsChain(ds, parent)
    requires Links(ds[Last(path)].driver, ds[Last(parent)].driver)
    ensures path[0] == parent[0]
  {
    var longer := parent + [Last(path)];
    forall j | 0 < j < |longer| ensures Links(ds[longer[j]].driver, ds[longer[j - 1]].driver) {
      if j < |parent| {
        assert Links(ds[parent[j]].driver, ds[parent[j - 1]].driver);
      }
    }
    ChainUnique(ds, path, longer);
  }

  /** The root a scheduled driver came with is one of the first n. */
  lemma {:induction false} RootOf(ds: seq<DriverEntry>, db: set<Guid>, cap: nat, n: nat, x: nat)
    returns (path: seq<nat>)
    requires Distinct(ds) && 0 < n <= |ds| && x < |Batch(ds, db, cap, n)|
    ensures IsChain(ds, path) && Last(path) == Batch(ds, db, cap, n)[x]
    ensures if x < |Batch(ds, db, cap, n - 1)| then path[0] < n - 1 else path[0] == n - 1
  {
    var j, m := Batch(ds, db, cap, n)[x], n - 1;
    var b, part := Batch(ds, db, cap, m), Part(ds, db, cap, m);
    assert Batch(ds, db, cap, n) == b + part;
    hide Batch, Part, Ready;
    if x < |b| {
      assert j == b[x] && j in b;
      BatchIsExact(ds, db, cap, m, j);
      path :| Due(ds, db, cap, path, j) && path[0] < m;
    } else {
      assert j == part[x - |b|] && j in part;
      PartIsExact(ds, db, cap, m, j);
      path :| Due(ds, db, cap, path, j) && path[0] == m;
    }
  }

  ghost predicate Placed(ds: seq<DriverEntry>, s: seq<nat>, x: nat, y: nat)
    requires x < |s| && y < |s| && s[x] < |ds| && s[y] < |ds|
  {
    Links(ds[s[x]].driver, ds[s[y]].driver) ==> if ds[s[x]].driver.before then x < y else y < x
  }

  /** In the batch too, a Before driver comes ahead of its target and an After driver behind it. */
  lemma {:induction false} BatchPlaces(ds: seq<DriverEntry>, db: set<Guid>, cap: nat, n: nat, x: nat, y: nat)
    requires Distinct(ds) && n <= |ds| && x < |Batch(ds, db, cap, n)| && y < |Batch(ds, db, cap, n)|
    ensures Placed(ds, Batch(ds, db, cap, n), x, y)
    decreases n
  {
    if n > 0 {
      var m := n - 1;
      var b, part := Batch(ds, db, cap, m), Part(ds, db, cap, m);
      assert Batch(ds, db, cap, n) == b + part;
      SameSide(ds, db, cap, n, x, y);
      if x < |b| && y < |b| {
        BatchPlaces(ds, db, cap, m, x, y);
      }
      if x >= |b| && y >= |b| {
        PartPlaces(ds, db, cap, m, x - |b|, y - |b|);
      }
      hide *;
      PlacedConcat(ds, b, part, x, y);
    }
  }

  /** A driver and the one it names come with the same root. */
  lemma {:induction false} SameSide(ds: seq<DriverEntry>, db: set<Guid>, cap: nat, n: nat, x: nat, y: nat)
    requires Distinct(ds) && 0 < n <= |ds| && x < |Batch(ds, db, cap, n)| && y < |Batch(ds, db, cap, n)|
    ensures Links(ds[Batch(ds, db, cap, n)[x]].driver, ds[Batch(ds, db, cap, n)[y]].driver) ==>
      (x < |Batch(ds, db, cap, n - 1)| <==> y < |Batch(ds, db, cap, n - 1)|)
  {
    hide *;
    if Links(ds[Batch(ds, db, cap, n)[x]].driver, ds[Batch(ds, db, cap, n)[y]].driver) {
      var p := RootOf(ds, db, cap, n, x);
      var q := RootOf(ds, db, cap, n, y);
      SameRoot(ds, p, q);
    }
  }

  lemma {:induction false} PlacedConcat(ds: seq<DriverEntry>, b: seq<nat>, part: seq<nat>, x: nat, y: nat)
    requires x < |b + part| && y < |b + part| && (b + part)[x] < |ds| && (b + part)[y] < |ds|
    requires Links(ds[(b + part)[x]].driver, ds[(b + part)[y]].driver) ==> (x < |b| <==> y < |b|)
    requires x < |b| && y < |b| ==> Placed(ds, b, x, y)
    requires x >= |b| && y >= |b| ==> part[x - |b|] < |ds| && part[y - |b|] < |ds| &&
                                      Placed(ds, part, x - |b|, y - |b|)
    ensures Placed(ds, b + part, x, y)
  {
    hide Links;
  }

  lemma {:induction false} PartPlaces(ds: seq<DriverEntry>, db: set<Guid>, cap: nat, k: nat, x: nat, y: nat)
    requires Distinct(ds) && k < |ds|
    requires x < |Part(ds, db, cap, k)| && y < |Part(ds, db, cap, k)|
    ensures Placed(ds, Part(ds, db, cap, k), x, y)
  {
    hide Links, Ready, IsChain, Order;
    ReadyRoot(ds, db, cap, k);
    if Links(ds[Part(ds, db, cap, k)[x]].driver, ds[Part(ds, db, cap, k)[y]].driver) {
      OrderPlaces(ds, [k], x, y);
    }
  }
}
