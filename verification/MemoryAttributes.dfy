/** The compaction of a memory map: neighbours that continue each other with the same type and
    attributes become one descriptor, in the array they are read from. */
module MemoryAttributes {
  import opened Machine

  datatype Descriptor = Descriptor(typ: nat, start: nat, virtualStart: nat, pages: nat, attribute: nat)

  /** The address n pages on, as a UINT64. */
  function Advance(start: nat, n: nat): nat {
    (start + n * PAGE_SIZE % WORD) % WORD
  }

  predicate Mergeable(x: Descriptor, y: Descriptor) {
    x.typ == y.typ && x.attribute == y.attribute && Advance(x.start, x.pages) == y.start
  }

  function Join(x: Descriptor, y: Descriptor): Descriptor {
    x.(pages := (x.pages + y.pages) % WORD)
  }

  /** The map with each run of descriptors that continue each other as one. */
  function Merged(ms: seq<Descriptor>): seq<Descriptor>
    decreases |ms|
  {
    if |ms| <= 1 then ms
    else if Mergeable(ms[0], ms[1]) then Merged([Join(ms[0], ms[1])] + ms[2..])
    else [ms[0]] + Merged(ms[1..])
  }

  // ---------- what the map says of each page ----------

  datatype Page = Page(address: nat, typ: nat, attribute: nat)

  function PagesOf(d: Descriptor): (ps: seq<Page>)
    ensures |ps| == d.pages
    ensures forall i :: 0 <= i < d.pages ==> ps[i] == Page(Advance(d.start, i), d.typ, d.attribute)
  {
    seq(d.pages, i requires 0 <= i < d.pages => Page(Advance(d.start, i), d.typ, d.attribute))
  }

  function Flatten(ms: seq<Descriptor>): seq<Page> {
    if ms == [] then [] else PagesOf(ms[0]) + Flatten(ms[1..])
  }

  /** No addition of page counts overflows on the way. */
  predicate Fits(ms: seq<Descriptor>)
    decreases |ms|
  {
    if |ms| <= 1 then true
    else if Mergeable(ms[0], ms[1]) then ms[0].pages + ms[1].pages < WORD && Fits([Join(ms[0], ms[1])] + ms[2..])
    else Fits(ms[1..])
  }

  lemma {:induction false} AdvanceTwice(start: nat, n: nat, k: nat)
    ensures Advance(Advance(start, n), k) == Advance(start, n + k)
  {
    AdvanceIs(start, n);
    AdvanceIs(Advance(start, n), k);
    AdvanceIs(start, n + k);
    ModAdd(start + n * PAGE_SIZE, k * PAGE_SIZE);
  }

  lemma {:induction false} ModAdd(a: nat, b: nat)
    ensures (a % WORD + b) % WORD == (a + b) % WORD
  {
  }

  lemma {:induction false} AdvanceIs(start: nat, n: nat)
    ensures Advance(start, n) == (start + n * PAGE_SIZE) % WORD
  {
    ModAdd(n * PAGE_SIZE, start);
  }

  lemma {:induction false} JoinPages(x: Descriptor, y: Descriptor)
    requires Mergeable(x, y) && x.pages + y.pages < WORD
    ensures PagesOf(Join(x, y)) == PagesOf(x) + PagesOf(y)
  {
    var d, n := Join(x, y), x.pages;
    assert d.pages == n + y.pages;
    hide Advance;
    forall i | 0 <= i < d.pages ensures PagesOf(d)[i] == (PagesOf(x) + PagesOf(y))[i] {
      if i >= n {
        AdvanceTwice(x.start, n, i - n);
      }
    }
  }

  lemma {:induction false} MergedJoin(x: Descriptor, y: Descriptor, rest: seq<Descriptor>)
    requires Mergeable(x, y)
    ensures Merged([x] + ([y] + rest)) == Merged([Join(x, y)] + rest)
    ensures Fits([x] + ([y] + rest)) <==> x.pages + y.pages < WORD && Fits([Join(x, y)] + rest)
  {
    var ms := [x] + ([y] + rest);
    assert ms[2..] == rest && ms[0] == x && ms[1] == y;
    hide Mergeable, Join;
  }

  lemma {:induction false} MergedStop(x: Descriptor, rest: seq<Descriptor>)
    requires rest != [] ==> !Mergeable(x, rest[0])
    ensures Merged([x] + rest) == [x] + Merged(rest)
    ensures Fits([x] + rest) <==> Fits(rest)
  {
    assert ([x] + rest)[1..] == rest;
    assert rest == [] ==> [x] + rest == [x] + Merged(rest);
    hide Mergeable;
  }

  lemma {:induction false} SamePrefix(p: seq<Page>, a: seq<Page>, b: seq<Page>)
    ensures p + a == p + b <==> a == b
  {
    assert (p + a)[|p|..] == a && (p + b)[|p|..] == b;
  }

  lemma {:induction false} Parts(ms: seq<Descriptor>)
    requires |ms| > 1
    ensures ms == [ms[0]] + ([ms[1]] + ms[2..]) && ms == [ms[0]] + ms[1..]
  {
  }

  /** The compacted map says the same of every page, in the same order, exactly when no count of
      pages overflows; otherwise pages are lost. */
  lemma {:induction false} MergedFlattens(ms: seq<Descriptor>)
    ensures |Flatten(Merged(ms))| <= |Flatten(ms)|
    ensures Flatten(Merged(ms)) == Flatten(ms) <==> Fits(ms)
    decreases |ms|
  {
    if |ms| > 1 {
      var x, y, rest := ms[0], ms[1], ms[2..];
      Parts(ms);
      hide Merged, Fits, Flatten, PagesOf, Mergeable;
      if Mergeable(x, y) {
        MergedJoin(x, y, rest);
        MergedFlattens([Join(x, y)] + rest);
        FlattenTwo(ms);
        FlattenOne(Join(x, y), rest);
        if x.pages + y.pages < WORD {
          JoinPages(x, y);
        }
      } else {
        MergedStop(x, ms[1..]);
        MergedFlattens(ms[1..]);
        FlattenOne(x, Merged(ms[1..]));
        FlattenOne(x, ms[1..]);
        SamePrefix(PagesOf(x), Flatten(Merged(ms[1..])), Flatten(ms[1..]));
      }
    }
  }

  lemma {:induction false} FlattenOne(d: Descriptor, rest: seq<Descriptor>)
    ensures Flatten([d] + rest) == PagesOf(d) + Flatten(rest)
  {
    assert ([d] + rest)[1..] == rest;
  }

  lemma {:induction false} FlattenTwo(ms: seq<Descriptor>)
    requires |ms| > 1
    ensures Flatten(ms) == PagesOf(ms[0]) + PagesOf(ms[1]) + Flatten(ms[2..])
  {
    assert ms[1..][1..] == ms[2..];
    hide PagesOf;
    assert PagesOf(ms[0]) + (PagesOf(ms[1]) + Flatten(ms[2..])) == PagesOf(ms[0]) + PagesOf(ms[1]) + Flatten(ms[2..]);
  }

  // ---------- nothing left to merge ----------

  /** No descriptor starts where the one ahead of it ends, with its type and attributes. */
  predicate Compact(ms: seq<Descriptor>) {
    forall i :: 0 <= i < |ms| - 1 ==>
      ms[i].typ != ms[i + 1].typ || ms[i].attribute != ms[i + 1].attribute ||
      (ms[i].start + ms[i].pages * PAGE_SIZE) % WORD != ms[i + 1].start
  }

  lemma {:induction false} MergeableIs(x: Descriptor, y: Descriptor)
    ensures Mergeable(x, y)
      <==> x.typ == y.typ && x.attribute == y.attribute && (x.start + x.pages * PAGE_SIZE) % WORD == y.start
  {
    AdvanceIs(x.start, x.pages);
  }

  lemma {:induction false} MergedHead(ms: seq<Descriptor>)
    requires ms != []
    ensures Merged(ms) != []
    ensures var d := Merged(ms)[0]; d.typ == ms[0].typ && d.attribute == ms[0].attribute && d.start == ms[0].start
    decreases |ms|
  {
    if |ms| > 1 && Mergeable(ms[0], ms[1]) {
      MergedHead([Join(ms[0], ms[1])] + ms[2..]);
    }
  }

  lemma {:induction false} MergedIsCompact(ms: seq<Descriptor>)
    ensures Compact(Merged(ms))
    decreases |ms|
  {
    if |ms| > 1 {
      if Mergeable(ms[0], ms[1]) {
        MergedIsCompact([Join(ms[0], ms[1])] + ms[2..]);
      } else {
        MergedIsCompact(ms[1..]);
        MergedHead(ms[1..]);
        var r := Merged(ms[1..]);
        MergeableIs(ms[0], r[0]);
        assert !Mergeable(ms[0], r[0]);
        CompactCons(ms[0], r);
      }
    }
  }

  lemma {:induction false} CompactCons(x: Descriptor, r: seq<Descriptor>)
    requires Compact(r) && (r != [] ==> !Mergeable(x, r[0]))
    ensures Compact([x] + r)
  {
    if r != [] {
      MergeableIs(x, r[0]);
    }
    hide Mergeable;
    var s := [x] + r;
    forall i | 0 <= i < |s| - 1
      ensures s[i].typ != s[i + 1].typ || s[i].attribute != s[i + 1].attribute ||
        (s[i].start + s[i].pages * PAGE_SIZE) % WORD != s[i + 1].start
    {
      if i > 0 {
        assert s[i] == r[i - 1] && s[i + 1] == r[i];
      }
    }
  }

  lemma {:induction false} CompactTail(ms: seq<Descriptor>)
    requires Compact(ms) && |ms| > 1
    ensures Compact(ms[1..]) && !Mergeable(ms[0], ms[1])
  {
    MergeableIs(ms[0], ms[1]);
    assert forall i :: 0 <= i < |ms[1..]| ==> ms[1..][i] == ms[i + 1];
  }

  lemma {:induction false} CompactIsMerged(ms: seq<Descriptor>)
    requires Compact(ms)
    ensures Merged(ms) == ms
  {
    if |ms| > 1 {
      CompactTail(ms);
      hide Mergeable, Compact;
      CompactIsMerged(ms[1..]);
    }
  }

  /** Compacting a second time changes nothing. */
  lemma {:induction false} MergedTwice(ms: seq<Descriptor>)
    ensures Merged(Merged(ms)) == Merged(ms)
  {
    MergedIsCompact(ms);
    CompactIsMerged(Merged(ms));
  }

  // ---------- what becomes of each descriptor ----------

  function SumPages(ms: seq<Descriptor>): nat {
    if ms == [] then 0 else ms[0].pages + SumPages(ms[1..])
  }

  /** A stretch of descriptors of one type and with the same attributes, each starting where those
      ahead of it end. */
  ghost predicate Stretch(ms: seq<Descriptor>) {
    ms != [] && forall k :: 0 < k < |ms| ==>
      ms[k].typ == ms[0].typ && ms[k].attribute == ms[0].attribute &&
      ms[k].start == (ms[0].start + SumPages(ms[..k]) * PAGE_SIZE) % WORD
  }

  /** d is the first of the stretch, with the pages of all. */
  ghost predicate StandsFor(d: Descriptor, ms: seq<Descriptor>) {
    ms != [] && d == ms[0].(pages := if |ms| == 1 then ms[0].pages else SumPages(ms) % WORD)
  }

  function Joined(parts: seq<seq<Descriptor>>): seq<Descriptor> {
    if parts == [] then [] else parts[0] + Joined(parts[1..])
  }

  ghost predicate Covers(parts: seq<seq<Descriptor>>, rs: seq<Descriptor>) {
    && |parts| == |rs|
    && forall i :: 0 <= i < |rs| ==> Stretch(parts[i]) && StandsFor(rs[i], parts[i])
  }

  lemma {:induction false} SumPagesTwo(x: Descriptor, y: Descriptor, rest: seq<Descriptor>)
    ensures SumPages([x] + ([y] + rest)) == x.pages + y.pages + SumPages(rest)
    ensures SumPages([x]) == x.pages && SumPages([x] + rest) == x.pages + SumPages(rest)
  {
    assert ([x] + ([y] + rest))[1..] == [y] + rest && ([y] + rest)[1..] == rest && ([x] + rest)[1..] == rest;
  }

  lemma {:induction false} ModSum(start: nat, n: nat, k: nat)
    ensures (n % WORD + k) % WORD == (n + k) % WORD
    ensures (start + (n % WORD + k) * PAGE_SIZE) % WORD == (start + (n + k) * PAGE_SIZE) % WORD
  {
    var q := n / WORD;
    assert n == q * WORD + n % WORD;
    assert start + (n + k) * PAGE_SIZE == start + (n % WORD + k) * PAGE_SIZE + WORD * (q * PAGE_SIZE);
    ModMultiple(start + (n % WORD + k) * PAGE_SIZE, q * PAGE_SIZE);
    ModMultiple(n % WORD + k, q);
  }

  lemma {:induction false} ModMultiple(a: nat, q: nat)
    ensures (a + WORD * q) % WORD == a % WORD
  {
  }

  /** A stretch that begins with two joined is a stretch that begins with the two. */
  lemma {:induction false} StretchUnjoined(x: Descriptor, y: Descriptor, rest: seq<Descriptor>, d: Descriptor)
    requires Mergeable(x, y) && Stretch([Join(x, y)] + rest) && StandsFor(d, [Join(x, y)] + rest)
    ensures Stretch([x] + ([y] + rest)) && StandsFor(d, [x] + ([y] + rest))
  {
    StandsForUnjoined(x, y, rest, d);
    var s := [x] + ([y] + rest);
    hide StandsFor, Mergeable, SumPages, Join;
    forall k | 0 < k < |s| {
      StretchUnjoinedAt(x, y, rest, k);
    }
  }

  lemma {:induction false} StandsForUnjoined(x: Descriptor, y: Descriptor, rest: seq<Descriptor>, d: Descriptor)
    requires StandsFor(d, [Join(x, y)] + rest)
    ensures StandsFor(d, [x] + ([y] + rest))
  {
    SumPagesTwo(x, y, rest);
    SumPagesTwo(Join(x, y), y, rest);
    ModSum(x.start, x.pages + y.pages, SumPages(rest));
  }

  lemma {:induction false} StretchUnjoinedAt(x: Descriptor, y: Descriptor, rest: seq<Descriptor>, k: nat)
    requires Mergeable(x, y) && Stretch([Join(x, y)] + rest) && 0 < k < |rest| + 2
    ensures var s := [x] + ([y] + rest);
      && s[k].typ == x.typ && s[k].attribute == x.attribute
      && s[k].start == (x.start + SumPages(s[..k]) * PAGE_SIZE) % WORD
  {
    var s, t := [x] + ([y] + rest), [Join(x, y)] + rest;
    if k == 1 {
      MergeableIs(x, y);
      assert s[..1] == [x];
      SumPagesTwo(x, y, []);
    } else {
      var head := rest[..k - 2];
      assert s[..k] == [x] + ([y] + head) && t[..k - 1] == [Join(x, y)] + head && s[k] == t[k - 1];
      StretchAt(t, k - 1);
      SumsAre(x, y, head);
      hide *;
      ModSum(x.start, x.pages + y.pages, SumPages(head));
    }
  }

  lemma {:induction false} StretchAt(ms: seq<Descriptor>, k: nat)
    requires Stretch(ms) && 0 < k < |ms|
    ensures ms[k].typ == ms[0].typ && ms[k].attribute == ms[0].attribute
    ensures ms[k].start == (ms[0].start + SumPages(ms[..k]) * PAGE_SIZE) % WORD
  {
    hide SumPages;
  }

  lemma {:induction false} SumsAre(x: Descriptor, y: Descriptor, head: seq<Descriptor>)
    ensures SumPages([x] + ([y] + head)) == x.pages + y.pages + SumPages(head)
    ensures SumPages([Join(x, y)] + head) == (x.pages + y.pages) % WORD + SumPages(head)
  {
    SumPagesTwo(x, y, head);
    SumPagesTwo(Join(x, y), y, head);
    hide SumPages;
  }

  lemma {:induction false} JoinedCons(p: seq<Descriptor>, parts: seq<seq<Descriptor>>)
    ensures Joined([p] + parts) == p + Joined(parts)
  {
    assert ([p] + parts)[1..] == parts;
  }

  /** The map falls into stretches, and each descriptor of the result stands for one, in order. */
  lemma {:induction false} MergedStandsFor(ms: seq<Descriptor>) returns (parts: seq<seq<Descriptor>>)
    ensures Joined(parts) == ms && Covers(parts, Merged(ms))
    decreases |ms|
  {
    hide Stretch, StandsFor, Mergeable;
    if |ms| <= 1 {
      parts := if ms == [] then [] else [ms];
      if ms != [] {
        StretchOne(ms[0]);
        assert ms == [ms[0]] && parts[0] == ms && parts[1..] == [];
      }
    } else if Mergeable(ms[0], ms[1]) {
      var x, y, rest := ms[0], ms[1], ms[2..];
      Parts(ms);
      var j := [Join(x, y)] + rest;
      var ps := MergedStandsFor(j);
      parts := Unjoined(x, y, rest, ps, Merged(j));
    } else {
      var ps := MergedStandsFor(ms[1..]);
      parts := [[ms[0]]] + ps;
      StretchOne(ms[0]);
      JoinedCons([ms[0]], ps);
      CoversCons(ms[0], ps, Merged(ms[1..]));
    }
  }

  lemma {:induction false} StretchOne(x: Descriptor)
    ensures Stretch([x]) && StandsFor(x, [x])
  {
  }

  lemma {:induction false} CoversCons(x: Descriptor, parts: seq<seq<Descriptor>>, rs: seq<Descriptor>)
    requires Covers(parts, rs)
    ensures Covers([[x]] + parts, [x] + rs)
  {
    StretchOne(x);
    hide Stretch, StandsFor;
  }

  lemma {:induction false} Unjoined(x: Descriptor, y: Descriptor, rest: seq<Descriptor>, ps: seq<seq<Descriptor>>,
                                    rs: seq<Descriptor>) returns (parts: seq<seq<Descriptor>>)
    requires Mergeable(x, y) && Joined(ps) == [Join(x, y)] + rest && Covers(ps, rs)
    ensures Joined(parts) == [x] + ([y] + rest) && Covers(parts, rs)
  {
    var p, others := ps[0], ps[1..];
    assert ps == [p] + others;
    JoinedCons(p, others);
    assert Stretch(p);
    var tail := p[1..];
    assert p == [Join(x, y)] + tail by {
      assert p[0] == Joined(ps)[0];
    }
    assert tail + Joined(others) == Joined(ps)[1..] == rest;
    StretchUnjoined(x, y, tail, rs[0]);
    var q := [x] + ([y] + tail);
    parts := [q] + others;
    JoinedCons(q, others);
    assert q + Joined(others) == [x] + ([y] + rest);
  }

  // ---------- in place ----------

  /** The inner loop: takes in the descriptors that continue the one at entry, which has been
      copied to newEntry. Both copies grow, since the one at entry is what the next is held
      against. */
  method MergeRun(memoryMap: array<Descriptor>, size: nat, entry: nat, newEntry: nat) returns (next: nat)
    requires newEntry <= entry < size <= memoryMap.Length && memoryMap[newEntry] == memoryMap[entry]
    modifies memoryMap
    ensures entry < next <= size
    ensures forall k :: 0 <= k < memoryMap.Length && k != newEntry && k != entry ==> memoryMap[k] == old(memoryMap[k])
    ensures Merged(old(memoryMap[entry..size])) == [memoryMap[newEntry]] + Merged(old(memoryMap[next..size]))
  {
    hide Merged, Mergeable, Join;
    ghost var was := memoryMap[..size];
    next := entry + 1;
    MergedFrom(was, entry);
    assert memoryMap[entry..size] == was[entry..];
    while true
      invariant entry < next <= size && memoryMap[newEntry] == memoryMap[entry]
      invariant forall k :: 0 <= k < memoryMap.Length && k != newEntry && k != entry ==>
        memoryMap[k] == old(memoryMap[k])
      invariant Merged(was[entry..]) == Merged([memoryMap[entry]] + was[next..])
      decreases size - next
    {
      ghost var x := memoryMap[entry];
      if next < size {
        MergedFrom(was, next);
      }
      if next < size && Mergeable(memoryMap[entry], memoryMap[next]) {
        MergedJoin(x, was[next], was[next + 1..]);
        memoryMap[entry] := Join(memoryMap[entry], memoryMap[next]);
        if newEntry != entry {
          memoryMap[newEntry] := Join(memoryMap[newEntry], memoryMap[next]);
        }
        next := next + 1;
      } else {
        MergedStop(x, was[next..]);
        assert was[next..] == old(memoryMap[next..size]);
        return;
      }
    }
  }

  /** size is the number of descriptors in use; the new number is returned. */
  method MergeMemoryMap(memoryMap: array<Descriptor>, size: nat) returns (newSize: nat)
    requires size <= memoryMap.Length
    modifies memoryMap
    ensures newSize <= size
    ensures memoryMap[..newSize] == Merged(old(memoryMap[..size]))
    ensures memoryMap[size..] == old(memoryMap[size..])
  {
    hide Merged;
    ghost var was := memoryMap[..];
    var entry := 0;
    newSize := 0;
    while entry < size
      invariant newSize <= entry <= size
      invariant forall k :: entry <= k < memoryMap.Length ==> memoryMap[k] == was[k]
      invariant Merged(was[..size]) == memoryMap[..newSize] + Merged(was[entry..size])
    {
      memoryMap[newSize] := memoryMap[entry];
      ghost var done := memoryMap[..newSize];
      assert memoryMap[entry..size] == was[entry..size];
      label Run:
      var next := MergeRun(memoryMap, size, entry, newSize);
      assert old@Run(memoryMap[next..size]) == was[next..size];
      Append(done, memoryMap[newSize], Merged(was[next..size]));
      assert memoryMap[..newSize + 1] == done + [memoryMap[newSize]];
      entry := next;
      newSize := newSize + 1;
    }
    MergedNone(was[entry..size]);
    assert was[..size] == old(memoryMap[..size]);
  }

  lemma {:induction false} Append(a: seq<Descriptor>, x: Descriptor, b: seq<Descriptor>)
    ensures a + ([x] + b) == a + [x] + b
  {
  }

  lemma {:induction false} MergedFrom(ms: seq<Descriptor>, i: nat)
    requires i < |ms|
    ensures ms[i..] == [ms[i]] + ms[i + 1..]
  {
  }

  lemma {:induction false} MergedNone(ms: seq<Descriptor>)
    requires ms == []
    ensures Merged(ms) == []
  {
  }
}
