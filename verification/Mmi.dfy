/** The MMI handler lists: handlers that, while they run, may register and unregister handlers and
    manage further MMIs, and whose removal is put off until the outermost call returns. */
module Mmi {
  import opened Wrappers
  import Depex

  type Guid = Depex.Guid

  datatype Handler = Handler(id: nat, toRemove: bool)
  datatype MmiEntry = MmiEntry(typ: Guid, handlers: seq<Handler>)

  /** depth is mMmiManageCallingDepth; misses counts the calls made on types nobody handles. */
  datatype State = State(root: seq<Handler>, entries: seq<MmiEntry>, depth: nat, next: nat, misses: nat)

  datatype Status =
    Success | InterruptPending | SourceQuiesced | SourcePending | NotFound | InvalidParameter | OtherStatus

  /** What one invocation of a handler does: some calls, then a status. The k-th handler that a
      MmiManage call invokes does as responses[k] says, and nothing when there is none. */
  datatype Script = Script(calls: seq<Call>, status: Status)
  datatype Call =
    | Register(typ: Option<Guid>)
    | UnRegister(id: nat)
    | Manage(typ: Option<Guid>, responses: seq<Script>)

  const IDLE: Script := Script([], SourceQuiesced)

  // ---------- the lists ----------

  function Find(es: seq<MmiEntry>, g: Guid): (i: nat)
    ensures i <= |es|
    ensures i < |es| ==> es[i].typ == g
    ensures forall j :: 0 <= j < i ==> es[j].typ != g
  {
    if es == [] then 0 else if es[0].typ == g then 0 else 1 + Find(es[1..], g)
  }

  predicate Handled(s: State, typ: Option<Guid>) {
    typ.None? || Find(s.entries, typ.value) < |s.entries|
  }

  function Handlers(s: State, typ: Option<Guid>): seq<Handler>
    requires Handled(s, typ)
  {
    if typ.None? then s.root else s.entries[Find(s.entries, typ.value)].handlers
  }

  /** A new handler goes to the tail of its list, in a new entry if there is none. */
  function Add(s: State, typ: Option<Guid>): State {
    var h := Handler(s.next, false);
    if typ.None? then s.(root := s.root + [h], next := s.next + 1)
    else
      var i := Find(s.entries, typ.value);
      if i < |s.entries| then
        s.(entries := s.entries[i := s.entries[i].(handlers := s.entries[i].handlers + [h])], next := s.next + 1)
      else s.(entries := s.entries + [MmiEntry(typ.value, [h])], next := s.next + 1)
  }

  /** Where a handler is: on the root list, or on that of an entry. */
  datatype Where = Root(k: nat) | Entry(i: nat, k: nat)

  function IndexOf(hs: seq<Handler>, id: nat): (k: nat)
    ensures k <= |hs|
    ensures k < |hs| ==> hs[k].id == id
    ensures forall j :: 0 <= j < k ==> hs[j].id != id
  {
    if hs == [] then 0 else if hs[0].id == id then 0 else 1 + IndexOf(hs[1..], id)
  }

  function EntryOf(es: seq<MmiEntry>, id: nat): (i: nat)
    ensures i <= |es|
    ensures i < |es| ==> IndexOf(es[i].handlers, id) < |es[i].handlers|
    ensures forall j :: 0 <= j < i ==> IndexOf(es[j].handlers, id) == |es[j].handlers|
  {
    if es == [] then 0 else if IndexOf(es[0].handlers, id) < |es[0].handlers| then 0 else 1 + EntryOf(es[1..], id)
  }

  function Locate(s: State, id: nat): (w: Option<Where>)
    ensures w.Some? ==> Points(s, w.value)
  {
    var k, i := IndexOf(s.root, id), EntryOf(s.entries, id);
    if k < |s.root| then Some(Root(k))
    else if i < |s.entries| then Some(Entry(i, IndexOf(s.entries[i].handlers, id)))
    else None
  }

  predicate Points(s: State, w: Where) {
    match w
    case Root(k) => k < |s.root|
    case Entry(i, k) => i < |s.entries| && k < |s.entries[i].handlers|
  }

  function MarkAt(s: State, w: Where): State
    requires Points(s, w)
  {
    match w
    case Root(k) => s.(root := s.root[k := s.root[k].(toRemove := true)])
    case Entry(i, k) =>
      var hs := s.entries[i].handlers;
      s.(entries := s.entries[i := s.entries[i].(handlers := hs[k := hs[k].(toRemove := true)])])
  }

  /** RemoveMmiHandler: an entry goes with its last handler. */
  function RemoveAt(s: State, w: Where): State
    requires Points(s, w)
  {
    match w
    case Root(k) => s.(root := s.root[..k] + s.root[k + 1..])
    case Entry(i, k) =>
      var hs := s.entries[i].handlers[..k] + s.entries[i].handlers[k + 1..];
      if hs == [] then s.(entries := s.entries[..i] + s.entries[i + 1..])
      else s.(entries := s.entries[i := s.entries[i].(handlers := hs)])
  }

  /** The handlers not marked, in order. */
  function Keep(hs: seq<Handler>): seq<Handler> {
    if hs == [] then [] else (if hs[0].toRemove then [] else [hs[0]]) + Keep(hs[1..])
  }

  /** An entry goes with its last handler. */
  function KeepEntries(es: seq<MmiEntry>): seq<MmiEntry> {
    if es == [] then []
    else
      var k := Keep(es[0].handlers);
      (if k == [] && es[0].handlers != [] then [] else [MmiEntry(es[0].typ, k)]) + KeepEntries(es[1..])
  }

  /** Frees every handler that is marked. */
  function Sweep(s: State): State {
    s.(root := Keep(s.root), entries := KeepEntries(s.entries))
  }

  /** The handler is marked, and freed at once when the depth is zero. */
  function Drop(s: State, id: nat): (State, Status) {
    var w := Locate(s, id);
    if w.None? then (s, InvalidParameter)
    else if s.depth > 0 then (MarkAt(s, w.value), Success)
    else (RemoveAt(s, w.value), Success)
  }

  // ---------- running handlers ----------

  function ScriptSize(c: Script): nat {
    1 + CallsSize(c.calls)
  }

  function CallsSize(cs: seq<Call>): nat {
    if cs == [] then 0 else CallSize(cs[0]) + CallsSize(cs[1..])
  }

  function CallSize(c: Call): (n: nat)
    ensures n > 0
  {
    match c
    case Register(_) => 1
    case UnRegister(_) => 1
    case Manage(_, rs) => 2 + ScriptsSize(rs)
  }

  function ScriptsSize(rs: seq<Script>): nat {
    if rs == [] then 0 else ScriptSize(rs[0]) + ScriptsSize(rs[1..])
  }

  lemma {:induction false} SizeSteps(rs: seq<Script>)
    requires rs != []
    ensures CallsSize(rs[0].calls) < ScriptsSize(rs) && ScriptsSize(rs[1..]) < ScriptsSize(rs)
  {
    assert ScriptSize(rs[0]) == 1 + CallsSize(rs[0].calls);
  }

  function RunCalls(s: State, cs: seq<Call>): (r: State)
    decreases CallsSize(cs), 3, 0
  {
    if cs == [] then s else RunCalls(RunCall(s, cs[0]), cs[1..])
  }

  function RunCall(s: State, c: Call): State
    decreases CallSize(c), 2, 0
  {
    match c
    case Register(typ) => Add(s, typ)
    case UnRegister(id) => Drop(s, id).0
    case Manage(typ, rs) => ManageOne(s, typ, rs).0
  }

  /** How the status of one handler changes the status to return, and whether it ends the
      traversal. */
  function Combine(root: bool, ret: Status, status: Status): (Status, bool) {
    match status
    case InterruptPending => if !root then (InterruptPending, true)
      else (if ret == Success then Success else InterruptPending, false)
    case Success => (Success, !root)
    case SourceQuiesced => (Success, false)
    case SourcePending => (if ret == Success then Success else SourcePending, false)
    case _ => (ret, false)
  }

  function Response(rs: seq<Script>): Script {
    if rs == [] then IDLE else rs[0]
  }

  /** The traversal from handler i on: each is invoked, marked or not, down to the end the list
      then has. The entry stays throughout, as EntryStays shows. */
  function Traverse(s: State, typ: Option<Guid>, i: nat, rs: seq<Script>, ret: Status): (State, Status)
    decreases ScriptsSize(rs), 0, if Handled(s, typ) then |Handlers(s, typ)| - i else 0
  {
    if !Handled(s, typ) || i >= |Handlers(s, typ)| then (s, ret)
    else
      var (ret', ends) := Combine(typ.None?, ret, Response(rs).status);
      if rs == [] then
        if ends then (s, ret') else Traverse(s, typ, i + 1, rs, ret')
      else
        SizeSteps(rs);
        var t := RunCalls(s, rs[0].calls);
        if ends then (t, ret') else Traverse(t, typ, i + 1, rs[1..], ret')
  }

  /** MmiManage. On a type nobody handles it returns with the depth one too high. */
  function ManageOne(s: State, typ: Option<Guid>, rs: seq<Script>): (State, Status)
    decreases 1 + ScriptsSize(rs), 1, 0
  {
    if !Handled(s, typ) then (s.(depth := s.depth + 1, misses := s.misses + 1), NotFound)
    else
      var (t, ret) := Traverse(s.(depth := s.depth + 1), typ, 0, rs, NotFound);
      (Leave(t), ret)
  }

  /** One traversal fewer; what is marked goes when it was the last. */
  function Leave(t: State): State {
    if t.depth == 0 then t
    else
      var u := t.(depth := t.depth - 1);
      if u.depth == 0 then Sweep(u) else u
  }

  // ---------- nothing is freed while a traversal is active ----------

  /** Only marks and additions at the end. */
  ghost predicate ListGrows(a: seq<Handler>, b: seq<Handler>) {
    |a| <= |b| && forall k :: 0 <= k < |a| ==> b[k].id == a[k].id && (a[k].toRemove ==> b[k].toRemove)
  }

  ghost predicate EntriesGrow(a: seq<MmiEntry>, b: seq<MmiEntry>) {
    |a| <= |b| && forall k :: 0 <= k < |a| ==> b[k].typ == a[k].typ && ListGrows(a[k].handlers, b[k].handlers)
  }

  ghost predicate Grows(a: State, b: State) {
    && ListGrows(a.root, b.root) && EntriesGrow(a.entries, b.entries)
    && a.next <= b.next && a.misses <= b.misses && b.depth - b.misses == a.depth - a.misses
  }

  lemma {:induction false} GrowsTwice(a: State, b: State, c: State)
    requires Grows(a, b) && Grows(b, c)
    ensures Grows(a, c)
  {
    forall k | 0 <= k < |a.entries|
      ensures c.entries[k].typ == a.entries[k].typ && ListGrows(a.entries[k].handlers, c.entries[k].handlers)
    {
      assert ListGrows(a.entries[k].handlers, b.entries[k].handlers)
        && ListGrows(b.entries[k].handlers, c.entries[k].handlers);
    }
  }

  lemma {:induction false} GrowsRefl(s: State)
    ensures Grows(s, s)
  {
  }

  lemma {:induction false} AddGrows(s: State, typ: Option<Guid>)
    ensures Grows(s, Add(s, typ))
  {
  }

  lemma {:induction false} DropGrows(s: State, id: nat)
    requires s.depth > 0
    ensures Grows(s, Drop(s, id).0)
  {
    hide IndexOf, EntryOf;
  }

  /** A type that is handled stays handled, by the same entry. */
  lemma {:induction false} EntryStays(s: State, t: State, typ: Option<Guid>)
    requires Grows(s, t) && Handled(s, typ)
    ensures Handled(t, typ) && ListGrows(Handlers(s, typ), Handlers(t, typ))
  {
    if typ.Some? {
      var i := Find(s.entries, typ.value);
      assert t.entries[i].typ == typ.value;
      var j := Find(t.entries, typ.value);
      assert j <= i && t.entries[j].typ == s.entries[j].typ;
    }
  }

  lemma {:induction false} RunCallsGrow(s: State, cs: seq<Call>)
    requires s.depth >= s.misses && s.depth > 0
    ensures Grows(s, RunCalls(s, cs))
    decreases CallsSize(cs), 3, 0
  {
    hide Grows;
    if cs == [] {
      GrowsRefl(s);
    } else {
      RunCallGrows(s, cs[0]);
      var t := RunCall(s, cs[0]);
      GrowsDepth(s, t);
      RunCallsGrow(t, cs[1..]);
      GrowsTwice(s, t, RunCalls(t, cs[1..]));
    }
  }

  lemma {:induction false} GrowsDepth(a: State, b: State)
    requires Grows(a, b)
    ensures b.depth - b.misses == a.depth - a.misses && a.misses <= b.misses
  {
  }

  lemma {:induction false} RunCallGrows(s: State, c: Call)
    requires s.depth >= s.misses && s.depth > 0
    ensures Grows(s, RunCall(s, c))
    decreases CallSize(c), 2, 0
  {
    hide Grows, Add, Drop;
    match c
    case Register(typ) => AddGrows(s, typ);
    case UnRegister(id) => DropGrows(s, id);
    case Manage(typ, rs) => ManageGrows(s, typ, rs);
  }

  lemma {:induction false} TraverseGrows(s: State, typ: Option<Guid>, i: nat, rs: seq<Script>, ret: Status)
    requires s.depth >= s.misses && s.depth > 0
    ensures Grows(s, Traverse(s, typ, i, rs, ret).0)
    decreases ScriptsSize(rs), 0, if Handled(s, typ) then |Handlers(s, typ)| - i else 0
  {
    hide Grows;
    GrowsRefl(s);
    if Handled(s, typ) && i < |Handlers(s, typ)| {
      var (ret', ends) := Combine(typ.None?, ret, Response(rs).status);
      if rs == [] {
        if !ends {
          TraverseGrows(s, typ, i + 1, rs, ret');
        }
      } else {
        SizeSteps(rs);
        var t := RunCalls(s, rs[0].calls);
        RunCallsGrow(s, rs[0].calls);
        if !ends {
          GrowsDepth(s, t);
          TraverseGrows(t, typ, i + 1, rs[1..], ret');
          GrowsTwice(s, t, Traverse(t, typ, i + 1, rs[1..], ret').0);
        }
      }
    }
  }

  lemma {:induction false} ManageGrows(s: State, typ: Option<Guid>, rs: seq<Script>)
    requires s.depth >= s.misses && s.depth > 0
    ensures Grows(s, ManageOne(s, typ, rs).0)
    decreases 1 + ScriptsSize(rs), 1, 0
  {
    if Handled(s, typ) {
      TraverseGrows(s.(depth := s.depth + 1), typ, 0, rs, NotFound);
    }
  }

  // ---------- what the sweep frees ----------

  lemma {:induction false} Regroup(a: seq<Handler>, b: seq<Handler>, c: seq<Handler>)
    ensures a + (b + c) == a + b + c
  {
  }

  lemma {:induction false} KeepConcat(a: seq<Handler>, b: seq<Handler>)
    ensures Keep(a + b) == Keep(a) + Keep(b)
  {
    if a == [] {
      assert a + b == b;
    } else {
      KeepConcat(a[1..], b);
      assert (a + b)[1..] == a[1..] + b;
      var k := if a[0].toRemove then [] else [a[0]];
      assert Keep(a) == k + Keep(a[1..]) && Keep(a + b) == k + Keep(a[1..] + b);
      hide Keep;
      Regroup(k, Keep(a[1..]), Keep(b));
    }
  }

  /** Exactly the marked handlers go. */
  lemma {:induction false} KeepMembers(hs: seq<Handler>, h: Handler)
    ensures h in Keep(hs) <==> h in hs && !h.toRemove
  {
    if hs != [] {
      KeepMembers(hs[1..], h);
    }
  }

  /** With no mark there is nothing to free. */
  lemma {:induction false} KeepAll(hs: seq<Handler>)
    requires forall h :: h in hs ==> !h.toRemove
    ensures Keep(hs) == hs
  {
    if hs != [] {
      KeepAll(hs[1..]);
    }
  }

  /** An entry stays exactly when it keeps a handler, with the handlers it keeps. */
  lemma {:induction false} KeepEntriesMembers(es: seq<MmiEntry>, e: MmiEntry)
    requires forall x :: x in es ==> x.handlers != []
    ensures e in KeepEntries(es) <==>
      e.handlers != [] && exists x :: x in es && x.typ == e.typ && Keep(x.handlers) == e.handlers
  {
    if es != [] {
      KeepEntriesMembers(es[1..], e);
      var k := MmiEntry(es[0].typ, Keep(es[0].handlers));
      assert e in KeepEntries(es) <==> (e == k && k.handlers != []) || e in KeepEntries(es[1..]);
      hide KeepEntries;
      if e == k && k.handlers != [] {
        assert es[0] in es;
      }
    }
  }

  // ---------- what holds at all times ----------

  function Ids(hs: seq<Handler>): multiset<nat> {
    if hs == [] then multiset{} else multiset{hs[0].id} + Ids(hs[1..])
  }

  function EntryIds(es: seq<MmiEntry>): multiset<nat> {
    if es == [] then multiset{} else Ids(es[0].handlers) + EntryIds(es[1..])
  }

  function AllIds(s: State): multiset<nat> {
    Ids(s.root) + EntryIds(s.entries)
  }

  ghost predicate Unique(ids: multiset<nat>, next: nat) {
    forall id :: ids[id] <= 1 && (id in ids ==> id < next)
  }

  predicate NoMarks(s: State) {
    && (forall k :: 0 <= k < |s.root| ==> !s.root[k].toRemove)
    && (forall i, k :: 0 <= i < |s.entries| && 0 <= k < |s.entries[i].handlers| ==> !s.entries[i].handlers[k].toRemove)
  }

  ghost predicate EntriesOk(es: seq<MmiEntry>) {
    && (forall i :: 0 <= i < |es| ==> es[i].handlers != [])
    && (forall i, j :: 0 <= i < j < |es| ==> es[i].typ != es[j].typ)
  }

  /** Identifiers are not shared, no entry is empty, no type has two entries; and when no
      traversal is active and none was lost count of, no handler is marked. */
  ghost predicate Ok(s: State) {
    Unique(AllIds(s), s.next) && EntriesOk(s.entries) && s.depth >= s.misses && (s.depth == 0 ==> NoMarks(s))
  }

  lemma {:induction false} IdsAdd(hs: seq<Handler>, h: Handler)
    ensures Ids(hs + [h]) == Ids(hs) + multiset{h.id}
  {
    if hs == [] {
      assert hs + [h] == [h];
      assert Ids([h]) == multiset{h.id} + Ids([]);
    } else {
      IdsAdd(hs[1..], h);
      assert (hs + [h])[1..] == hs[1..] + [h];
    }
  }

  lemma {:induction false} EntryIdsAdd(es: seq<MmiEntry>, e: MmiEntry)
    ensures EntryIds(es + [e]) == EntryIds(es) + Ids(e.handlers)
  {
    hide Ids;
    if es == [] {
      assert es + [e] == [e];
      assert EntryIds([e]) == Ids(e.handlers) + EntryIds([]);
    } else {
      EntryIdsAdd(es[1..], e);
      assert (es + [e])[1..] == es[1..] + [e];
    }
  }

  lemma {:induction false} Exchange(a: multiset<nat>, x: multiset<nat>, y: multiset<nat>, z: multiset<nat>,
                                    w: multiset<nat>)
    requires x + y == z + w
    ensures a + x + y == a + z + w
  {
    assert a + x + y == a + (x + y) && a + z + w == a + (z + w);
  }

  lemma {:induction false} Cancel(x: multiset<nat>, y: multiset<nat>, z: multiset<nat>, w: multiset<nat>)
    requires x + y == z + (y + w)
    ensures x == z + w
  {
    forall id ensures x[id] == (z + w)[id] {
      assert (x + y)[id] == (z + (y + w))[id];
    }
  }

  lemma {:induction false} EntryIdsReplace(es: seq<MmiEntry>, i: nat, e: MmiEntry)
    requires i < |es|
    ensures EntryIds(es[i := e]) + Ids(es[i].handlers) == EntryIds(es) + Ids(e.handlers)
  {
    hide Ids;
    if i == 0 {
      assert es[i := e][1..] == es[1..];
    } else {
      EntryIdsReplace(es[1..], i - 1, e);
      assert es[i := e][1..] == es[1..][i - 1 := e] && es[i := e][0] == es[0] && es[1..][i - 1] == es[i];
      assert EntryIds(es[i := e]) == Ids(es[0].handlers) + EntryIds(es[1..][i - 1 := e]);
      assert EntryIds(es) == Ids(es[0].handlers) + EntryIds(es[1..]);
      Exchange(Ids(es[0].handlers), EntryIds(es[1..][i - 1 := e]), Ids(es[i].handlers), EntryIds(es[1..]),
               Ids(e.handlers));
    }
  }

  lemma {:induction false} IdsSame(a: seq<Handler>, b: seq<Handler>)
    requires |a| == |b| && forall k :: 0 <= k < |a| ==> a[k].id == b[k].id
    ensures Ids(a) == Ids(b)
  {
    if a != [] {
      IdsSame(a[1..], b[1..]);
    }
  }

  lemma {:induction false} IdsStep(hs: seq<Handler>)
    requires hs != []
    ensures Ids(hs) == multiset{hs[0].id} + Ids(hs[1..])
  {
  }

  lemma {:induction false} Associate(x: multiset<nat>, y: multiset<nat>, z: multiset<nat>)
    ensures x + (y + z) == x + y + z
  {
  }

  lemma {:induction false} IdsNothing()
    ensures Ids([]) == multiset{}
  {
  }

  lemma {:induction false} TailOfSum(a: seq<Handler>, b: seq<Handler>)
    requires a != []
    ensures a + b != [] && (a + b)[0] == a[0] && (a + b)[1..] == a[1..] + b
  {
  }

  lemma {:induction false} IdsSplit(a: seq<Handler>, b: seq<Handler>)
    ensures Ids(a + b) == Ids(a) + Ids(b)
  {
    hide Ids;
    if a == [] {
      assert a + b == b;
      IdsNothing();
    } else {
      IdsSplit(a[1..], b);
      TailOfSum(a, b);
      IdsStep(a);
      IdsStep(a + b);
      Associate(multiset{a[0].id}, Ids(a[1..]), Ids(b));
    }
  }

  lemma {:induction false} TakeDrop(hs: seq<Handler>, k: nat)
    requires k < |hs|
    ensures hs[..k] + hs[k..] == hs && hs[k..][1..] == hs[k + 1..] && hs[k..][0] == hs[k]
  {
  }

  lemma {:induction false} IdsRemove(hs: seq<Handler>, k: nat)
    requires k < |hs|
    ensures Ids(hs[..k] + hs[k + 1..]) + multiset{hs[k].id} == Ids(hs)
  {
    IdsSplit(hs[..k], hs[k + 1..]);
    IdsSplit(hs[..k], hs[k..]);
    IdsStep(hs[k..]);
    TakeDrop(hs, k);
    hide Ids;
  }

  lemma {:induction false} ReplacedLess(es: seq<MmiEntry>, i: nat, e: MmiEntry)
    requires i < |es| && Ids(e.handlers) <= Ids(es[i].handlers)
    ensures EntryIds(es[i := e]) <= EntryIds(es)
    ensures Ids(e.handlers) == Ids(es[i].handlers) ==> EntryIds(es[i := e]) == EntryIds(es)
  {
    EntryIdsReplace(es, i, e);
    hide Ids, EntryIds;
    var x, y := EntryIds(es[i := e]), EntryIds(es);
    forall id ensures x[id] <= y[id] && (Ids(e.handlers) == Ids(es[i].handlers) ==> x[id] == y[id]) {
      assert (x + Ids(es[i].handlers))[id] == (y + Ids(e.handlers))[id];
    }
  }

  lemma {:induction false} EntryIdsRemove(es: seq<MmiEntry>, i: nat)
    requires i < |es|
    ensures EntryIds(es[..i] + es[i + 1..]) + Ids(es[i].handlers) == EntryIds(es)
  {
    hide Ids;
    if i == 0 {
      assert es[..0] + es[1..] == es[1..];
    } else {
      EntryIdsRemove(es[1..], i - 1);
      var r := es[..i] + es[i + 1..];
      assert r[1..] == es[1..][..i - 1] + es[1..][i..] && es[1..][i - 1] == es[i];
    }
  }

  lemma {:induction false} IdsKeep(hs: seq<Handler>)
    ensures Ids(Keep(hs)) <= Ids(hs)
  {
    if hs != [] {
      IdsKeep(hs[1..]);
      var k := if hs[0].toRemove then [] else [hs[0]];
      assert Keep(hs) == k + Keep(hs[1..]);
      assert (k + Keep(hs[1..]))[|k|..] == Keep(hs[1..]);
    }
  }

  lemma {:induction false} EntryIdsKeep(es: seq<MmiEntry>)
    ensures EntryIds(KeepEntries(es)) <= EntryIds(es)
  {
    if es != [] {
      EntryIdsKeep(es[1..]);
      var k := Keep(es[0].handlers);
      IdsKeep(es[0].handlers);
      hide Ids, Keep;
      var r := KeepEntries(es[1..]);
      assert ([MmiEntry(es[0].typ, k)] + r)[1..] == r;
      assert [] + r == r;
    }
  }

  // ---------- every call keeps it ----------

  lemma {:induction false} AddIds(s: State, typ: Option<Guid>)
    ensures AllIds(Add(s, typ)) == AllIds(s) + multiset{s.next}
  {
    var h := Handler(s.next, false);
    if typ.None? {
      IdsAdd(s.root, h);
      hide Ids, EntryIds;
    } else {
      var i := Find(s.entries, typ.value);
      if i < |s.entries| {
        AddedIds(s.entries, i, h);
      } else {
        EntryIdsAdd(s.entries, MmiEntry(typ.value, [h]));
        assert Ids([h]) == multiset{h.id} + Ids([]);
      }
      hide Ids, EntryIds;
    }
  }

  lemma {:induction false} AddedIds(es: seq<MmiEntry>, i: nat, h: Handler)
    requires i < |es|
    ensures EntryIds(es[i := es[i].(handlers := es[i].handlers + [h])]) == EntryIds(es) + multiset{h.id}
  {
    var hs := es[i].handlers;
    EntryIdsReplace(es, i, es[i].(handlers := hs + [h]));
    IdsAdd(hs, h);
    hide Ids, EntryIds;
    Cancel(EntryIds(es[i := es[i].(handlers := hs + [h])]), Ids(hs), EntryIds(es), multiset{h.id});
  }

  lemma {:induction false} AddOk(s: State, typ: Option<Guid>)
    requires Ok(s)
    ensures Ok(Add(s, typ))
  {
    AddIds(s, typ);
    hide AllIds;
  }

  lemma {:induction false} MarkIds(s: State, w: Where)
    requires Points(s, w)
    ensures AllIds(MarkAt(s, w)) == AllIds(s)
  {
    if w.Root? {
      IdsSame(s.root, MarkAt(s, w).root);
    } else {
      var e := MarkAt(s, w).entries[w.i];
      IdsSame(s.entries[w.i].handlers, e.handlers);
      ReplacedLess(s.entries, w.i, e);
    }
    hide Ids, EntryIds;
  }

  lemma {:induction false} RemoveIds(s: State, w: Where)
    requires Points(s, w)
    ensures AllIds(RemoveAt(s, w)) <= AllIds(s)
  {
    if w.Root? {
      RootLess(s, w.k);
    } else {
      RemoveEntryIds(s.entries, w.i, w.k);
      EntriesLess(s, RemoveAt(s, w));
    }
  }

  lemma {:induction false} RootLess(s: State, k: nat)
    requires k < |s.root|
    ensures AllIds(RemoveAt(s, Root(k))) <= AllIds(s)
  {
    IdsRemove(s.root, k);
    hide Ids, EntryIds;
  }

  lemma {:induction false} EntriesLess(s: State, t: State)
    requires t.root == s.root && EntryIds(t.entries) <= EntryIds(s.entries)
    ensures AllIds(t) <= AllIds(s)
  {
    hide Ids, EntryIds;
  }

  lemma {:induction false} RemoveEntryIds(es: seq<MmiEntry>, i: nat, k: nat)
    requires i < |es| && k < |es[i].handlers|
    ensures EntryIds(es[..i] + es[i + 1..]) <= EntryIds(es)
    ensures EntryIds(es[i := es[i].(handlers := es[i].handlers[..k] + es[i].handlers[k + 1..])]) <= EntryIds(es)
  {
    IdsRemove(es[i].handlers, k);
    EntryIdsRemove(es, i);
    hide Ids, EntryIds;
    ReplacedLess(es, i, es[i].(handlers := es[i].handlers[..k] + es[i].handlers[k + 1..]));
  }

  lemma {:induction false} DropOk(s: State, id: nat)
    requires Ok(s)
    ensures Ok(Drop(s, id).0)
  {
    var w := Locate(s, id);
    hide Locate;
    if w.Some? {
      MarkIds(s, w.value);
      RemoveIds(s, w.value);
      hide AllIds;
      MarkedOk(s, w.value);
      RemovedOk(s, w.value);
    }
  }

  lemma {:induction false} MarkedOk(s: State, w: Where)
    requires Ok(s) && Points(s, w) && AllIds(MarkAt(s, w)) == AllIds(s)
    ensures s.depth > 0 ==> Ok(MarkAt(s, w))
  {
    hide AllIds, NoMarks;
  }

  lemma {:induction false} RemovedOk(s: State, w: Where)
    requires Ok(s) && Points(s, w) && AllIds(RemoveAt(s, w)) <= AllIds(s)
    ensures Ok(RemoveAt(s, w))
  {
    hide AllIds;
    var r := RemoveAt(s, w);
    assert EntriesOk(r.entries) by {
      hide NoMarks, Unique;
    }
    assert Unique(AllIds(r), r.next) by {
      hide NoMarks, EntriesOk;
    }
    hide Unique, EntriesOk;
  }

  lemma {:induction false} KeepTyps(es: seq<MmiEntry>, i: nat)
    requires EntriesOk(es) && i < |KeepEntries(es)|
    ensures KeepEntries(es)[i].handlers != [] && exists k :: 0 <= k < |es| && es[k].typ == KeepEntries(es)[i].typ
  {
    var e := KeepEntries(es)[i];
    KeepEntriesMembers(es, e);
    var x :| x in es && x.typ == e.typ && Keep(x.handlers) == e.handlers;
    var k :| 0 <= k < |es| && es[k] == x;
  }

  lemma {:induction false} KeepEntriesOk(es: seq<MmiEntry>)
    requires EntriesOk(es)
    ensures EntriesOk(KeepEntries(es))
  {
    var r := KeepEntries(es);
    if es != [] {
      KeepEntriesOk(es[1..]);
      var rest := KeepEntries(es[1..]);
      forall i | 0 <= i < |rest| ensures rest[i].typ != es[0].typ {
        KeepTyps(es[1..], i);
        var k :| 0 <= k < |es[1..]| && es[1..][k].typ == rest[i].typ;
        assert es[k + 1].typ != es[0].typ;
      }
    }
  }

  lemma {:induction false} SweepUnmarked(s: State)
    requires EntriesOk(s.entries)
    ensures NoMarks(Sweep(s))
  {
    var r := Sweep(s);
    hide Keep, KeepEntries;
    forall k | 0 <= k < |r.root| ensures !r.root[k].toRemove {
      KeepMembers(s.root, r.root[k]);
    }
    forall i, k | 0 <= i < |r.entries| && 0 <= k < |r.entries[i].handlers| ensures !r.entries[i].handlers[k].toRemove {
      KeepEntriesMembers(s.entries, r.entries[i]);
      var x :| x in s.entries && x.typ == r.entries[i].typ && Keep(x.handlers) == r.entries[i].handlers;
      KeepMembers(x.handlers, r.entries[i].handlers[k]);
    }
  }

  lemma {:induction false} SweepIds(s: State)
    ensures AllIds(Sweep(s)) <= AllIds(s)
  {
    IdsKeep(s.root);
    EntryIdsKeep(s.entries);
    hide Ids, EntryIds, Keep, KeepEntries;
  }

  lemma {:induction false} SweepOk(s: State)
    requires Unique(AllIds(s), s.next) && EntriesOk(s.entries) && s.depth >= s.misses
    ensures Ok(Sweep(s))
  {
    SweepIds(s);
    SweepUnmarked(s);
    KeepEntriesOk(s.entries);
    hide AllIds, Keep, KeepEntries, EntriesOk, NoMarks;
  }

  lemma {:induction false} RunCallsOk(s: State, cs: seq<Call>)
    requires Ok(s)
    ensures Ok(RunCalls(s, cs))
    decreases CallsSize(cs), 3, 0
  {
    hide Ok;
    if cs != [] {
      RunCallOk(s, cs[0]);
      RunCallsOk(RunCall(s, cs[0]), cs[1..]);
    }
  }

  lemma {:induction false} RunCallOk(s: State, c: Call)
    requires Ok(s)
    ensures Ok(RunCall(s, c))
    decreases CallSize(c), 2, 0
  {
    hide Ok, Add, Drop;
    match c
    case Register(typ) => AddOk(s, typ);
    case UnRegister(id) => DropOk(s, id);
    case Manage(typ, rs) => ManageOk(s, typ, rs);
  }

  lemma {:induction false} TraverseOk(s: State, typ: Option<Guid>, i: nat, rs: seq<Script>, ret: Status)
    requires Ok(s)
    ensures Ok(Traverse(s, typ, i, rs, ret).0)
    decreases ScriptsSize(rs), 0, if Handled(s, typ) then |Handlers(s, typ)| - i else 0
  {
    hide Ok;
    if Handled(s, typ) && i < |Handlers(s, typ)| {
      var (ret', ends) := Combine(typ.None?, ret, Response(rs).status);
      if rs == [] {
        if !ends {
          TraverseOk(s, typ, i + 1, rs, ret');
        }
      } else {
        SizeSteps(rs);
        RunCallsOk(s, rs[0].calls);
        if !ends {
          TraverseOk(RunCalls(s, rs[0].calls), typ, i + 1, rs[1..], ret');
        }
      }
    }
  }

  lemma {:induction false} DeeperOk(s: State, d: nat, misses: nat)
    requires Ok(s) && d >= misses && d > 0
    ensures Ok(s.(depth := d, misses := misses))
  {
  }

  lemma {:induction false} ManageOk(s: State, typ: Option<Guid>, rs: seq<Script>)
    requires Ok(s)
    ensures Ok(ManageOne(s, typ, rs).0)
    decreases 1 + ScriptsSize(rs), 1, 0
  {
    assert s.depth >= s.misses;
    DeeperOk(s, s.depth + 1, if Handled(s, typ) then s.misses else s.misses + 1);
    if Handled(s, typ) {
      var s1 := s.(depth := s.depth + 1);
      var t := Traverse(s1, typ, 0, rs, NotFound).0;
      assert ManageOne(s, typ, rs).0 == Leave(t);
      hide *;
      TraverseOk(s1, typ, 0, rs, NotFound);
      TraverseGrows(s1, typ, 0, rs, NotFound);
      GrowsDepth(s1, t);
      LeaveOk(t);
    }
  }

  lemma {:induction false} LeaveOk(t: State)
    requires Ok(t) && t.depth > t.misses
    ensures Ok(Leave(t))
  {
    hide Unique, EntriesOk;
    SweepOk(t.(depth := t.depth - 1));
  }

  // ---------- the outermost call ----------

  /** When the outermost call returns: nothing has been freed before; if every type managed on the
      way was handled, exactly the marked handlers go now; and if not, the depth stays above zero
      by the number of the others, and nothing is freed. */
  lemma {:induction false} OutermostFrees(s: State, typ: Option<Guid>, rs: seq<Script>)
    requires Ok(s) && s.depth == 0 && Handled(s, typ)
    ensures var t, r := Traverse(s.(depth := 1), typ, 0, rs, NotFound).0, ManageOne(s, typ, rs).0;
      && Grows(s.(depth := 1), t) && Ok(r)
      && r.depth == t.misses - s.misses
      && r == if t.misses == s.misses then Sweep(t.(depth := 0)) else t.(depth := t.misses - s.misses)
  {
    TraverseGrows(s.(depth := 1), typ, 0, rs, NotFound);
    GrowsDepth(s.(depth := 1), Traverse(s.(depth := 1), typ, 0, rs, NotFound).0);
    ManageOk(s, typ, rs);
  }

  /** The code's depth counter after a call for a type nobody handles: from then on no handler is
      ever freed, whatever is called. */
  lemma {:induction false} MissedTypeStopsFreeing(s: State, g: Guid, rs: seq<Script>, cs: seq<Call>)
    requires Ok(s) && !Handled(s, Some(g))
    ensures var r := ManageOne(s, Some(g), rs).0;
      r.depth > 0 && Grows(r, RunCalls(r, cs)) && RunCalls(r, cs).depth > 0
  {
    var r := ManageOne(s, Some(g), rs).0;
    RunCallsGrow(r, cs);
    GrowsDepth(r, RunCalls(r, cs));
  }

  const EMPTY: State := State([], [], 0, 0, 0)

  lemma {:induction false} LeaveDepth(t: State)
    ensures Leave(t).misses == t.misses && (t.depth > 0 ==> Leave(t).depth == t.depth - 1)
  {
    hide Keep, KeepEntries;
  }

  /** A call that has returned leaves the depth above the number of missed calls by as much as it
      was. */
  lemma {:induction false} RunCallDepth(s: State, c: Call)
    requires s.depth >= s.misses
    ensures RunCall(s, c).depth - RunCall(s, c).misses == s.depth - s.misses
  {
    hide Traverse, Leave, Locate, Find;
    if c.Manage? && Handled(s, c.typ) {
      var s1 := s.(depth := s.depth + 1);
      TraverseGrows(s1, c.typ, 0, c.responses, NotFound);
      GrowsDepth(s1, Traverse(s1, c.typ, 0, c.responses, NotFound).0);
      LeaveDepth(Traverse(s1, c.typ, 0, c.responses, NotFound).0);
    }
  }

  lemma {:induction false} RunCallsDepth(s: State, cs: seq<Call>)
    requires s.depth >= s.misses
    ensures RunCalls(s, cs).depth - RunCalls(s, cs).misses == s.depth - s.misses
    decreases |cs|
  {
    hide RunCall;
    if cs != [] {
      RunCallDepth(s, cs[0]);
      RunCallsDepth(RunCall(s, cs[0]), cs[1..]);
    }
  }

  /** Over every run of calls from the start: identifiers, entries and marks are in order, and the
      depth is the number of calls made on types nobody handled. */
  lemma {:induction false} RunKeeps(cs: seq<Call>)
    ensures Ok(RunCalls(EMPTY, cs))
    ensures RunCalls(EMPTY, cs).depth == RunCalls(EMPTY, cs).misses
  {
    assert Ok(EMPTY);
    RunCallsOk(EMPTY, cs);
    RunCallsDepth(EMPTY, cs);
  }

  // ---------- the status returned ----------

  /** The statuses of the handlers a traversal invokes, in order. */
  function Invoked(s: State, typ: Option<Guid>, i: nat, rs: seq<Script>): seq<Status>
    decreases ScriptsSize(rs), 0, if Handled(s, typ) then |Handlers(s, typ)| - i else 0
  {
    if !Handled(s, typ) || i >= |Handlers(s, typ)| then []
    else
      var st := Response(rs).status;
      var ends := Combine(typ.None?, NotFound, st).1;
      if ends then [st]
      else if rs == [] then [st] + Invoked(s, typ, i + 1, rs)
      else
        SizeSteps(rs);
        [st] + Invoked(RunCalls(s, rs[0].calls), typ, i + 1, rs[1..])
  }

  predicate Served(st: Status) {
    st == Success || st == SourceQuiesced
  }

  predicate AnyServed(sts: seq<Status>) {
    exists k :: 0 <= k < |sts| && Served(sts[k])
  }

  lemma {:induction false} AnyServedCons(st: Status, sts: seq<Status>)
    ensures AnyServed([st] + sts) <==> Served(st) || AnyServed(sts)
  {
    if AnyServed(sts) {
      var k :| 0 <= k < |sts| && Served(sts[k]);
      assert ([st] + sts)[k + 1] == sts[k];
    }
    assert ([st] + sts)[0] == st;
  }

  /** Ends with an interrupt still pending. */
  predicate EndsPending(sts: seq<Status>) {
    sts != [] && sts[|sts| - 1] == InterruptPending
  }

  predicate Pending(st: Status) {
    st == InterruptPending || st == SourcePending
  }

  /** The last status that says that something is still pending. */
  function LastPending(sts: seq<Status>): Option<Status> {
    if sts == [] then None
    else if Pending(sts[|sts| - 1]) then Some(sts[|sts| - 1])
    else LastPending(sts[..|sts| - 1])
  }

  lemma {:induction false} LastPendingCons(st: Status, sts: seq<Status>)
    ensures LastPending([st] + sts) ==
      if LastPending(sts).Some? then LastPending(sts) else if Pending(st) then Some(st) else None
  {
    var all := [st] + sts;
    if sts == [] {
      assert all == [st] && all[..0] == [];
    } else {
      assert all[..|all| - 1] == [st] + sts[..|sts| - 1];
      LastPendingCons(st, sts[..|sts| - 1]);
    }
  }

  /** The status in terms of those of all handlers invoked, when nothing they say would make it
      ret. For a handler type, an EFI_INTERRUPT_PENDING at the end goes before everything; then
      EFI_SUCCESS, once any handler returned it or quiesced its source; then what the last handler
      with something pending returned. */
  ghost function Verdict(root: bool, ret: Status, sts: seq<Status>): Status {
    if !root && EndsPending(sts) then InterruptPending
    else if ret == Success || AnyServed(sts) then Success
    else if LastPending(sts).Some? then LastPending(sts).value
    else ret
  }

  /** The traversal returns that status. */
  lemma {:induction false} TraverseStatus(s: State, typ: Option<Guid>, i: nat, rs: seq<Script>, ret: Status)
    ensures Traverse(s, typ, i, rs, ret).1 == Verdict(typ.None?, ret, Invoked(s, typ, i, rs))
    decreases ScriptsSize(rs), 0, if Handled(s, typ) then |Handlers(s, typ)| - i else 0
  {
    TraverseUnfold(s, typ, i, rs, ret);
    InvokedUnfold(s, typ, i, rs);
    VerdictOfNone(typ.None?, ret);
    hide Traverse, Invoked, RunCalls, AnyServed, Combine, Verdict;
    if Handled(s, typ) && i < |Handlers(s, typ)| {
      var st := Response(rs).status;
      var (ret', ends) := Combine(typ.None?, ret, st);
      CombineStep(typ.None?, ret, st);
      if ends {
        VerdictOfLast(typ.None?, ret, st);
      } else {
        var t, rest := s, rs;
        if rs != [] {
          SizeSteps(rs);
          t, rest := RunCalls(s, rs[0].calls), rs[1..];
        }
        TraverseStatus(t, typ, i + 1, rest, ret');
        VerdictOfMore(typ.None?, ret, st, Invoked(t, typ, i + 1, rest));
      }
    }
  }

  ghost predicate NothingSaid(sts: seq<Status>) {
    forall k :: 0 <= k < |sts| ==> !Served(sts[k]) && !Pending(sts[k])
  }

  /** So MmiManage answers EFI_NOT_FOUND exactly when no handler invoked returned any status that
      the call takes notice of. */
  lemma {:induction false} ManageStatus(s: State, typ: Option<Guid>, rs: seq<Script>)
    ensures Handled(s, typ) ==>
      ManageOne(s, typ, rs).1 == Verdict(typ.None?, NotFound, Invoked(s.(depth := s.depth + 1), typ, 0, rs))
    ensures ManageOne(s, typ, rs).1 == NotFound
      <==> !Handled(s, typ) || NothingSaid(Invoked(s.(depth := s.depth + 1), typ, 0, rs))
  {
    var sts := Invoked(s.(depth := s.depth + 1), typ, 0, rs);
    TraverseStatus(s.(depth := s.depth + 1), typ, 0, rs, NotFound);
    hide Traverse, Invoked, Leave, LastPending;
    LastPendingIs(sts);
  }

  lemma {:induction false} LastPendingIs(sts: seq<Status>)
    ensures LastPending(sts).None? <==> forall k :: 0 <= k < |sts| ==> !Pending(sts[k])
    ensures LastPending(sts).Some? ==> Pending(LastPending(sts).value)
  {
    if sts != [] {
      LastPendingIs(sts[..|sts| - 1]);
      if LastPending(sts).Some? && !Pending(sts[|sts| - 1]) {
        var k :| 0 <= k < |sts| - 1 && Pending(sts[..|sts| - 1][k]);
        assert Pending(sts[k]);
      }
    }
  }

  lemma {:induction false} VerdictOfNone(root: bool, ret: Status)
    ensures Verdict(root, ret, []) == ret
  {
  }

  lemma {:induction false} CombineStep(root: bool, ret: Status, st: Status)
    ensures Combine(root, ret, st).1 == Combine(root, NotFound, st).1
  {
  }

  lemma {:induction false} VerdictOfLast(root: bool, ret: Status, st: Status)
    requires Combine(root, ret, st).1
    ensures Verdict(root, ret, [st]) == Combine(root, ret, st).0
  {
    AnyServedCons(st, []);
    assert [st] + [] == [st];
  }

  lemma {:induction false} VerdictOfMore(root: bool, ret: Status, st: Status, sts: seq<Status>)
    requires !Combine(root, ret, st).1
    ensures Verdict(root, ret, [st] + sts) == Verdict(root, Combine(root, ret, st).0, sts)
  {
    AnyServedCons(st, sts);
    LastPendingCons(st, sts);
    assert sts != [] ==> ([st] + sts)[|[st] + sts| - 1] == sts[|sts| - 1];
    hide AnyServed, LastPending;
  }

  lemma {:induction false} InvokedUnfold(s: State, typ: Option<Guid>, i: nat, rs: seq<Script>)
    ensures Invoked(s, typ, i, rs) ==
      if !Handled(s, typ) || i >= |Handlers(s, typ)| then []
      else
        var st := Response(rs).status;
        if Combine(typ.None?, NotFound, st).1 then [st]
        else [st] + Invoked(if rs == [] then s else RunCalls(s, rs[0].calls), typ, i + 1,
                            if rs == [] then rs else rs[1..])
  {
    hide RunCalls, Handlers, Combine;
  }

  // ---------- the services as they are written ----------

  class MmiServices {
    var mRootMmiHandlerList: seq<Handler>
    var mMmiEntryList: seq<MmiEntry>
    var mMmiManageCallingDepth: nat
    var next: nat
    ghost var misses: nat

    ghost function Current(): State
      reads this
    {
      State(mRootMmiHandlerList, mMmiEntryList, mMmiManageCallingDepth, next, misses)
    }

    constructor ()
      ensures Current() == EMPTY
    {
      mRootMmiHandlerList, mMmiEntryList, mMmiManageCallingDepth, next := [], [], 0, 0;
      misses := 0;
    }

    /** The entry's place in the list; the length of the list when there is none. */
    method SearchEntries(typ: Guid) returns (i: nat)
      ensures i == Find(mMmiEntryList, typ)
    {
      i := 0;
      while i < |mMmiEntryList| && mMmiEntryList[i].typ != typ
        invariant i <= |mMmiEntryList| && forall j :: 0 <= j < i ==> mMmiEntryList[j].typ != typ
      {
        i := i + 1;
      }
      FindIs(mMmiEntryList, typ, i);
    }

    /** The entry's place, with a new entry at the end if there is none and create says so; None
        when there is none still. */
    method MmCoreFindMmiEntry(typ: Guid, create: bool) returns (entry: Option<nat>)
      modifies this`mMmiEntryList
      ensures var i, n := Find(old(mMmiEntryList), typ), |old(mMmiEntryList)|;
        && entry == (if i < n || create then Some(i) else None)
        && mMmiEntryList == if i == n && create then old(mMmiEntryList) + [MmiEntry(typ, [])] else old(mMmiEntryList)
    {
      hide Find;
      var i := SearchEntries(typ);
      if i == |mMmiEntryList| {
        if !create {
          return None;
        }
        mMmiEntryList := mMmiEntryList + [MmiEntry(typ, [])];
      }
      return Some(i);
    }

    method MmiHandlerRegister(typ: Option<Guid>) returns (handle: nat)
      modifies this`mRootMmiHandlerList, this`mMmiEntryList, this`next
      ensures Current() == Add(old(Current()), typ) && handle == old(next)
    {
      handle := next;
      var handler := Handler(handle, false);
      next := next + 1;
      if typ.None? {
        mRootMmiHandlerList := mRootMmiHandlerList + [handler];
      } else {
        hide Find;
        var entry := MmCoreFindMmiEntry(typ.value, true);
        var i := entry.value;
        mMmiEntryList := mMmiEntryList[i := mMmiEntryList[i].(handlers := mMmiEntryList[i].handlers + [handler])];
        assert [] + [handler] == [handler];
        assert i == |old(mMmiEntryList)| ==> mMmiEntryList == old(mMmiEntryList) + [MmiEntry(typ.value, [handler])];
      }
    }

    /** Frees a handler; returns whether its entry went with it. */
    method RemoveMmiHandler(w: Where) returns (removed: bool)
      requires Points(Current(), w)
      modifies this`mRootMmiHandlerList, this`mMmiEntryList
      ensures old(Points(Current(), w)) && Current() == RemoveAt(old(Current()), w)
      ensures removed <==> w.Entry? && |mMmiEntryList| < |old(mMmiEntryList)|
    {
      match w
      case Root(k) =>
        mRootMmiHandlerList := mRootMmiHandlerList[..k] + mRootMmiHandlerList[k + 1..];
        removed := false;
      case Entry(i, k) =>
        var hs := mMmiEntryList[i].handlers[..k] + mMmiEntryList[i].handlers[k + 1..];
        removed := hs == [];
        if removed {
          mMmiEntryList := mMmiEntryList[..i] + mMmiEntryList[i + 1..];
        } else {
          mMmiEntryList := mMmiEntryList[i := mMmiEntryList[i].(handlers := hs)];
        }
    }

    method MmiHandlerUnRegister(handle: nat) returns (status: Status)
      modifies this`mRootMmiHandlerList, this`mMmiEntryList
      ensures (Current(), status) == Drop(old(Current()), handle)
    {
      var w := FindHandler(handle);
      hide Locate;
      if w.None? {
        return InvalidParameter;
      }
      if mMmiManageCallingDepth > 0 {
        MarkHandler(w.value);
        return Success;
      }
      var _ := RemoveMmiHandler(w.value);
      return Success;
    }

    /** The handler a handle stands for. */
    method FindHandler(handle: nat) returns (w: Option<Where>)
      ensures w == Locate(Current(), handle)
    {
      hide IndexOf, EntryOf;
      var k, i := IndexOf(mRootMmiHandlerList, handle), EntryOf(mMmiEntryList, handle);
      w := if k < |mRootMmiHandlerList| then Some(Root(k))
           else if i < |mMmiEntryList| then Some(Entry(i, IndexOf(mMmiEntryList[i].handlers, handle)))
           else None;
    }

    method MarkHandler(w: Where)
      requires Points(Current(), w)
      modifies this`mRootMmiHandlerList, this`mMmiEntryList
      ensures old(Points(Current(), w)) && Current() == MarkAt(old(Current()), w)
    {
      match w
      case Root(k) =>
        mRootMmiHandlerList := mRootMmiHandlerList[k := mRootMmiHandlerList[k].(toRemove := true)];
      case Entry(i, k) =>
        var hs := mMmiEntryList[i].handlers;
        mMmiEntryList := mMmiEntryList[i := mMmiEntryList[i].(handlers := hs[k := hs[k].(toRemove := true)])];
    }

    /** The calls a handler makes while it runs. */
    method Invoke(cs: seq<Call>)
      modifies this
      ensures Current() == RunCalls(old(Current()), cs)
      decreases CallsSize(cs), 3, 0
    {
      if cs == [] {
        return;
      }
      match cs[0] {
        case Register(typ) =>
          var _ := MmiHandlerRegister(typ);
        case UnRegister(id) =>
          var _ := MmiHandlerUnRegister(id);
        case Manage(typ, rs) =>
          assert CallSize(cs[0]) == 2 + ScriptsSize(rs);
          var _ := MmiManage(typ, rs);
      }
      Invoke(cs[1..]);
    }

    method MmiManage(typ: Option<Guid>, rs: seq<Script>) returns (status: Status)
      modifies this
      ensures (Current(), status) == ManageOne(old(Current()), typ, rs)
      decreases 1 + ScriptsSize(rs), 1, 0
    {
      hide Find, Traverse, Sweep;
      ghost var s := Current();
      mMmiManageCallingDepth := mMmiManageCallingDepth + 1;
      if typ.Some? {
        var entry := MmCoreFindMmiEntry(typ.value, false);
        if entry.None? {
          misses := misses + 1;
          return NotFound;
        }
      }
      status := InvokeAll(typ, rs);
      if mMmiManageCallingDepth > 0 {
        mMmiManageCallingDepth := mMmiManageCallingDepth - 1;
        if mMmiManageCallingDepth == 0 {
          FreeMarked();
        }
      }
    }

    /** The traversal loop. */
    method InvokeAll(typ: Option<Guid>, rs: seq<Script>) returns (status: Status)
      modifies this
      ensures (Current(), status) == Traverse(old(Current()), typ, 0, rs, NotFound)
      decreases ScriptsSize(rs), 4, 0
    {
      hide Combine, RunCalls, Find;
      ghost var start := Current();
      status := NotFound;
      var i, rest, ends := 0, rs, false;
      while true
        invariant ScriptsSize(rest) <= ScriptsSize(rs)
        invariant Traverse(start, typ, 0, rs, NotFound) ==
          if ends then (Current(), status) else Traverse(Current(), typ, i, rest, status)
        decreases !ends, ScriptsSize(rest), if Handled(Current(), typ) then |Handlers(Current(), typ)| - i else 0
      {
        TraverseUnfold(Current(), typ, i, rest, status);
        if ends {
          return;
        }
        var n := CountHandlers(typ);
        if i >= n {
          return;
        }
        var c := Response(rest);
        if rest != [] {
          SizeSteps(rest);
          Invoke(rest[0].calls);
          rest := rest[1..];
        }
        var combined := Combine(typ.None?, status, c.status);
        status, ends := combined.0, combined.1;
        i := i + 1;
      }
    }

    method CountHandlers(typ: Option<Guid>) returns (n: nat)
      ensures n == if Handled(Current(), typ) then |Handlers(Current(), typ)| else 0
    {
      if typ.None? {
        return |mRootMmiHandlerList|;
      }
      hide Find;
      var i := SearchEntries(typ.value);
      n := if i < |mMmiEntryList| then |mMmiEntryList[i].handlers| else 0;
    }

    /** The loops over all lists when the outermost call returns. */
    method FreeMarked()
      modifies this`mRootMmiHandlerList, this`mMmiEntryList
      ensures Current() == Sweep(old(Current()))
    {
      hide Keep, KeepEntries;
      var i := 0;
      KeepNothing();
      while i < |mRootMmiHandlerList|
        invariant i <= |mRootMmiHandlerList| && mMmiEntryList == old(mMmiEntryList)
        invariant Keep(old(mRootMmiHandlerList)) == mRootMmiHandlerList[..i] + Keep(mRootMmiHandlerList[i..])
        decreases |mRootMmiHandlerList| - i
      {
        KeepStep(mRootMmiHandlerList, i);
        if mRootMmiHandlerList[i].toRemove {
          var _ := RemoveMmiHandler(Root(i));
        } else {
          i := i + 1;
        }
      }
      assert mRootMmiHandlerList[i..] == [];
      var j := 0;
      while j < |mMmiEntryList|
        invariant j <= |mMmiEntryList| && mRootMmiHandlerList == Keep(old(mRootMmiHandlerList))
        invariant KeepEntries(old(mMmiEntryList)) == mMmiEntryList[..j] + KeepEntries(mMmiEntryList[j..])
        decreases |mMmiEntryList| - j
      {
        KeepEntriesStep(mMmiEntryList, j);
        var removed := FreeMarkedIn(j);
        if !removed {
          j := j + 1;
        }
      }
      assert mMmiEntryList[j..] == [];
    }

    /** The inner loop, over the handlers of one entry; it ends early when the entry goes. */
    method FreeMarkedIn(j: nat) returns (removed: bool)
      requires j < |mMmiEntryList|
      modifies this`mRootMmiHandlerList, this`mMmiEntryList
      ensures mRootMmiHandlerList == old(mRootMmiHandlerList)
      ensures var es, k := old(mMmiEntryList), Keep(old(mMmiEntryList[j].handlers));
        && (removed <==> k == [] && es[j].handlers != [])
        && mMmiEntryList == if removed then es[..j] + es[j + 1..] else es[j := MmiEntry(es[j].typ, k)]
    {
      hide Keep;
      ghost var es := mMmiEntryList;
      KeepNothing();
      removed := false;
      var i := 0;
      while i < |mMmiEntryList[j].handlers|
        invariant mRootMmiHandlerList == old(mRootMmiHandlerList) && j < |mMmiEntryList| && !removed
        invariant i <= |mMmiEntryList[j].handlers|
        invariant mMmiEntryList == es[j := MmiEntry(es[j].typ, mMmiEntryList[j].handlers)]
        invariant Keep(es[j].handlers) == mMmiEntryList[j].handlers[..i] + Keep(mMmiEntryList[j].handlers[i..])
        invariant es[j].handlers != [] ==> mMmiEntryList[j].handlers != []
        invariant es[j].handlers == [] ==> mMmiEntryList[j].handlers == []
        decreases |mMmiEntryList[j].handlers| - i
      {
        KeepStep(mMmiEntryList[j].handlers, i);
        if mMmiEntryList[j].handlers[i].toRemove {
          ghost var hs := mMmiEntryList[j].handlers;
          removed := RemoveMmiHandler(Entry(j, i));
          if removed {
            assert hs[..i] + hs[i + 1..] == [] && mMmiEntryList == es[..j] + es[j + 1..];
            return;
          }
        } else {
          i := i + 1;
        }
      }
      assert mMmiEntryList[j].handlers[i..] == [] && mMmiEntryList[j].handlers[..i] == mMmiEntryList[j].handlers;
      assert Keep(es[j].handlers) == mMmiEntryList[j].handlers + [] == mMmiEntryList[j].handlers;
    }
  }

  lemma {:induction false} KeepNothing()
    ensures Keep([]) == [] && KeepEntries([]) == []
  {
  }

  /** Looking at handler i: it goes, or it stays and is passed. */
  lemma {:induction false} KeepStep(hs: seq<Handler>, i: nat)
    requires i < |hs|
    ensures hs[i].toRemove ==>
      hs[..i] + Keep(hs[i..]) == (hs[..i] + hs[i + 1..])[..i] + Keep((hs[..i] + hs[i + 1..])[i..])
    ensures !hs[i].toRemove ==> hs[..i] + Keep(hs[i..]) == hs[..i + 1] + Keep(hs[i + 1..])
  {
    assert hs[i..][1..] == hs[i + 1..];
    if hs[i].toRemove {
      assert (hs[..i] + hs[i + 1..])[i..] == hs[i + 1..] && [] + Keep(hs[i + 1..]) == Keep(hs[i + 1..]);
    } else {
      hide Keep;
      assert hs[..i] + ([hs[i]] + Keep(hs[i + 1..])) == hs[..i + 1] + Keep(hs[i + 1..]);
    }
  }

  lemma {:induction false} KeepEntriesStep(es: seq<MmiEntry>, j: nat)
    requires j < |es|
    ensures var k := Keep(es[j].handlers);
      if k == [] && es[j].handlers != []
      then es[..j] + KeepEntries(es[j..]) == (es[..j] + es[j + 1..])[..j] + KeepEntries((es[..j] + es[j + 1..])[j..])
      else var e := MmiEntry(es[j].typ, k);
        es[..j] + KeepEntries(es[j..]) == es[j := e][..j + 1] + KeepEntries(es[j := e][j + 1..])
  {
    assert es[j..][1..] == es[j + 1..];
    var k := Keep(es[j].handlers);
    hide Keep;
    if k == [] && es[j].handlers != [] {
      assert (es[..j] + es[j + 1..])[j..] == es[j + 1..] && [] + KeepEntries(es[j + 1..]) == KeepEntries(es[j + 1..]);
    } else {
      var e := MmiEntry(es[j].typ, k);
      assert KeepEntries(es[j..]) == [e] + KeepEntries(es[j + 1..]) && es[j := e][j + 1..] == es[j + 1..];
      hide KeepEntries;
      assert es[..j] + ([e] + KeepEntries(es[j + 1..])) == es[j := e][..j + 1] + KeepEntries(es[j + 1..]);
    }
  }

  lemma {:induction false} TraverseUnfold(s: State, typ: Option<Guid>, i: nat, rs: seq<Script>, ret: Status)
    ensures Traverse(s, typ, i, rs, ret) ==
      if !Handled(s, typ) || i >= |Handlers(s, typ)| then (s, ret)
      else
        var (ret', ends) := Combine(typ.None?, ret, Response(rs).status);
        var t := if rs == [] then s else RunCalls(s, rs[0].calls);
        if ends then (t, ret') else Traverse(t, typ, i + 1, if rs == [] then rs else rs[1..], ret')
  {
    hide RunCalls, Handlers, Combine;
  }

  lemma {:induction false} FindIs(es: seq<MmiEntry>, g: Guid, i: nat)
    requires i <= |es| && (i < |es| ==> es[i].typ == g) && forall j :: 0 <= j < i ==> es[j].typ != g
    ensures Find(es, g) == i
  {
    assert Find(es, g) <= |es|;
  }
}
