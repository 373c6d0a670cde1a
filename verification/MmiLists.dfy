/** The MMI handlers list by list: what each call does to the list of each type, and which handlers
    are registered after any calls, however nested. */
module MmiLists {
  import opened Wrappers
  import opened Mmi

  /** The handlers of a type, oldest first. */
  function ListOf(s: State, typ: Option<Guid>): seq<Handler> {
    if Handled(s, typ) then Handlers(s, typ) else []
  }

  function Marked(hs: seq<Handler>, id: nat): (r: seq<Handler>)
    ensures |r| == |hs|
    ensures forall k :: 0 <= k < |hs| ==> r[k] == if hs[k].id == id then hs[k].(toRemove := true) else hs[k]
  {
    seq(|hs|, k requires 0 <= k < |hs| => if hs[k].id == id then hs[k].(toRemove := true) else hs[k])
  }

  function Others(hs: seq<Handler>, id: nat): seq<Handler> {
    if hs == [] then [] else (if hs[0].id == id then [] else [hs[0]]) + Others(hs[1..], id)
  }

  // ---------- finding entries ----------

  lemma {:induction false} FindOwn(es: seq<MmiEntry>, i: nat)
    requires EntriesOk(es) && i < |es|
    ensures Find(es, es[i].typ) == i
  {
  }

  /** The list of a type after the handlers of entry i have changed. */
  lemma {:induction false} ListReplaced(s: State, t: State, i: nat, e: MmiEntry, typ: Option<Guid>)
    requires i < |s.entries| && e.typ == s.entries[i].typ && t.root == s.root && t.entries == s.entries[i := e]
    requires EntriesOk(s.entries)
    ensures ListOf(t, typ) == if typ == Some(e.typ) then e.handlers else ListOf(s, typ)
    ensures ListOf(s, Some(e.typ)) == s.entries[i].handlers
  {
    FindOwn(s.entries, i);
    if typ.Some? {
      SameFind(s.entries, t.entries, typ.value);
    }
  }

  lemma {:induction false} SameFind(es: seq<MmiEntry>, fs: seq<MmiEntry>, g: Guid)
    requires |es| == |fs| && forall k :: 0 <= k < |es| ==> es[k].typ == fs[k].typ
    ensures Find(fs, g) == Find(es, g)
  {
    var f := Find(es, g);
    if f < |es| {
      assert fs[f].typ == g;
    }
  }

  /** The list of a type after entry i has gone. */
  lemma {:induction false} ListRemoved(s: State, t: State, i: nat, typ: Option<Guid>)
    requires i < |s.entries| && t.root == s.root && t.entries == s.entries[..i] + s.entries[i + 1..]
    requires EntriesOk(s.entries)
    ensures ListOf(t, typ) == if typ == Some(s.entries[i].typ) then [] else ListOf(s, typ)
    ensures ListOf(s, Some(s.entries[i].typ)) == s.entries[i].handlers
  {
    FindOwn(s.entries, i);
    if typ.Some? {
      FindRemoved(s.entries, i, typ.value);
    }
    hide Find, EntriesOk;
  }

  lemma {:induction false} FindRemoved(es: seq<MmiEntry>, i: nat, g: Guid)
    requires i < |es| && EntriesOk(es)
    ensures var fs, f := es[..i] + es[i + 1..], Find(es, g);
      && Find(fs, g) == (if f == i || f == |es| then |fs| else if f < i then f else f - 1)
      && (f != i && f < |es| ==> fs[Find(fs, g)] == es[f])
  {
    var fs, f := es[..i] + es[i + 1..], Find(es, g);
    assert forall k :: 0 <= k < |fs| ==> fs[k] == es[if k < i then k else k + 1];
    EntriesOkRemoved(es, i);
    hide Find;
    if f != i && f < |es| {
      var k := if f < i then f else f - 1;
      assert fs[k] == es[f];
      FindOwn(fs, k);
    } else {
      forall k | 0 <= k < |fs| ensures fs[k].typ != g {
        FindOwn(es, if k < i then k else k + 1);
      }
    }
  }

  lemma {:induction false} EntriesOkRemoved(es: seq<MmiEntry>, i: nat)
    requires i < |es| && EntriesOk(es)
    ensures EntriesOk(es[..i] + es[i + 1..])
  {
  }

  // ---------- registering ----------

  /** A new handler goes to the end of the list of its type, and no other list changes. */
  lemma {:induction false} AddLists(s: State, typ: Option<Guid>, t: Option<Guid>)
    requires EntriesOk(s.entries)
    ensures ListOf(Add(s, typ), t) == ListOf(s, t) + if t == typ then [Handler(s.next, false)] else []
    ensures Add(s, typ) == s.(root := Add(s, typ).root, entries := Add(s, typ).entries, next := s.next + 1)
  {
    var h, r := Handler(s.next, false), Add(s, typ);
    if typ.Some? {
      var i := Find(s.entries, typ.value);
      if i < |s.entries| {
        ListReplaced(s, r, i, s.entries[i].(handlers := s.entries[i].handlers + [h]), t);
      } else if t.Some? {
        var f := Find(s.entries, t.value);
        if f < |s.entries| {
          assert r.entries[f] == s.entries[f] && Find(r.entries, t.value) == f;
        } else if t == typ {
          assert r.entries[i].typ == t.value && Find(r.entries, t.value) == i;
        }
      }
    }
  }

  // ---------- unregistering ----------

  lemma {:induction false} IdsHas(hs: seq<Handler>, id: nat)
    ensures id in Ids(hs) <==> IndexOf(hs, id) < |hs|
  {
    if hs != [] {
      IdsHas(hs[1..], id);
      IdsStep(hs);
    }
  }

  lemma {:induction false} EntryIdsHas(es: seq<MmiEntry>, id: nat)
    ensures id in EntryIds(es) <==> EntryOf(es, id) < |es|
  {
    if es != [] {
      EntryIdsHas(es[1..], id);
      IdsHas(es[0].handlers, id);
      hide Ids, IndexOf;
    }
  }

  lemma {:induction false} EntryIdsAt(es: seq<MmiEntry>, i: nat, id: nat)
    requires i < |es|
    ensures Ids(es[i].handlers)[id] <= EntryIds(es)[id]
    ensures forall j :: 0 <= j < |es| && j != i ==>
      Ids(es[i].handlers)[id] + Ids(es[j].handlers)[id] <= EntryIds(es)[id]
  {
    hide Ids;
    if i > 0 {
      EntryIdsAt(es[1..], i - 1, id);
    }
    forall j | 0 <= j < |es| && j != i
      ensures Ids(es[i].handlers)[id] + Ids(es[j].handlers)[id] <= EntryIds(es)[id]
    {
      if i == 0 {
        EntryIdsAt(es[1..], j - 1, id);
        assert es[1..][j - 1] == es[j];
      } else if j > 0 {
        assert es[1..][i - 1] == es[i] && es[1..][j - 1] == es[j];
      } else {
        assert es[1..][i - 1] == es[i];
        EntryIdsAt(es[1..], i - 1, id);
      }
    }
  }

  /** A handler is on its list once. */
  lemma {:induction false} IdsOnce(hs: seq<Handler>, k: nat)
    requires k < |hs| && Ids(hs)[hs[k].id] <= 1
    ensures forall j :: 0 <= j < |hs| && j != k ==> hs[j].id != hs[k].id
  {
    IdsRemove(hs, k);
    var r, id := hs[..k] + hs[k + 1..], hs[k].id;
    assert id !in Ids(r);
    IdsHas(r, id);
    hide Ids;
    forall j | 0 <= j < |hs| && j != k ensures hs[j].id != id {
      assert r[if j < k then j else j - 1] == hs[j];
    }
  }

  lemma {:induction false} IdsNot(hs: seq<Handler>, id: nat)
    requires id !in Ids(hs)
    ensures Marked(hs, id) == hs && Others(hs, id) == hs
  {
    IdsHas(hs, id);
    assert forall j :: 0 <= j < |hs| ==> hs[j].id != id;
    hide Ids, IndexOf;
    OthersNone(hs, id);
  }

  lemma {:induction false} ListIds(s: State, typ: Option<Guid>, id: nat)
    ensures id in Ids(ListOf(s, typ)) ==> id in AllIds(s)
  {
    if typ.Some? && Handled(s, typ) {
      EntryIdsAt(s.entries, Find(s.entries, typ.value), id);
    }
    hide Ids, EntryIds;
    IdsNothing();
  }

  lemma {:induction false} OthersAt(hs: seq<Handler>, k: nat)
    requires k < |hs| && forall j :: 0 <= j < |hs| && j != k ==> hs[j].id != hs[k].id
    ensures Others(hs, hs[k].id) == hs[..k] + hs[k + 1..]
    ensures Marked(hs, hs[k].id) == hs[k := hs[k].(toRemove := true)]
  {
    if k > 0 {
      var t := hs[1..];
      assert forall j :: 0 <= j < |t| ==> t[j] == hs[j + 1];
      OthersAt(t, k - 1);
      assert hs[..k] + hs[k + 1..] == [hs[0]] + (t[..k - 1] + t[k..]);
    } else {
      OthersNone(hs[1..], hs[0].id);
    }
  }

  lemma {:induction false} OthersNone(hs: seq<Handler>, id: nat)
    requires forall j :: 0 <= j < |hs| ==> hs[j].id != id
    ensures Others(hs, id) == hs
  {
    if hs != [] {
      OthersNone(hs[1..], id);
      assert hs == [hs[0]] + hs[1..];
    }
  }

  /** Where a registered handler is, it is alone. */
  lemma {:induction false} LocateAlone(s: State, id: nat)
    requires Ok(s)
    ensures Locate(s, id).Some? <==> id in AllIds(s)
    ensures match Locate(s, id)
      case None => true
      case Some(Root(k)) => s.root[k].id == id && Ids(s.root)[id] == 1 && EntryIds(s.entries)[id] == 0
      case Some(Entry(i, k)) =>
        && s.entries[i].handlers[k].id == id && Ids(s.root)[id] == 0 && Ids(s.entries[i].handlers)[id] == 1
        && forall j :: 0 <= j < |s.entries| && j != i ==> Ids(s.entries[j].handlers)[id] == 0
  {
    IdsHas(s.root, id);
    EntryIdsHas(s.entries, id);
    var i := EntryOf(s.entries, id);
    if i < |s.entries| {
      EntryIdsAt(s.entries, i, id);
      IdsHas(s.entries[i].handlers, id);
    }
    assert AllIds(s)[id] <= 1;
    hide Ids, EntryIds, EntriesOk, NoMarks, Unique;
  }

  /** The lists of all types after what is at one place has been dealt with. */
  lemma {:induction false} ListsAt(s: State, id: nat, typ: Option<Guid>)
    requires Ok(s) && Locate(s, id).Some?
    ensures ListOf(MarkAt(s, Locate(s, id).value), typ) == Marked(ListOf(s, typ), id)
    ensures ListOf(RemoveAt(s, Locate(s, id).value), typ) == Others(ListOf(s, typ), id)
  {
    LocateAlone(s, id);
    assert EntriesOk(s.entries);
    hide Locate, IndexOf, EntryOf, Ok, EntriesOk, MarkAt, RemoveAt, Ids, EntryIds;
    match Locate(s, id).value
    case Root(k) => RootAt(s, k, id, typ);
    case Entry(i, k) => EntryAt(s, i, k, id, typ);
  }

  lemma {:induction false} RootAt(s: State, k: nat, id: nat, typ: Option<Guid>)
    requires k < |s.root| && s.root[k].id == id && Ids(s.root)[id] == 1 && EntryIds(s.entries)[id] == 0
    ensures ListOf(MarkAt(s, Root(k)), typ) == Marked(ListOf(s, typ), id)
    ensures ListOf(RemoveAt(s, Root(k)), typ) == Others(ListOf(s, typ), id)
  {
    IdsOnce(s.root, k);
    OthersAt(s.root, k);
    hide Ids, EntryIds, Find;
    if typ.Some? {
      RootNot(s, typ, id);
    }
  }

  lemma {:induction false} EntryAt(s: State, i: nat, k: nat, id: nat, typ: Option<Guid>)
    requires EntriesOk(s.entries) && Points(s, Entry(i, k)) && s.entries[i].handlers[k].id == id
    requires Ids(s.root)[id] == 0 && Ids(s.entries[i].handlers)[id] == 1
    requires forall j :: 0 <= j < |s.entries| && j != i ==> Ids(s.entries[j].handlers)[id] == 0
    ensures ListOf(MarkAt(s, Entry(i, k)), typ) == Marked(ListOf(s, typ), id)
    ensures ListOf(RemoveAt(s, Entry(i, k)), typ) == Others(ListOf(s, typ), id)
  {
    var hs := s.entries[i].handlers;
    IdsOnce(hs, k);
    OthersAt(hs, k);
    EntriesNot(s, i, typ, id);
    hide Ids, EntriesOk, ListOf;
    var m, r := MarkAt(s, Entry(i, k)), RemoveAt(s, Entry(i, k));
    ListReplaced(s, m, i, m.entries[i], typ);
    if Others(hs, id) == [] {
      ListRemoved(s, r, i, typ);
    } else {
      ListReplaced(s, r, i, r.entries[i], typ);
    }
  }

  lemma {:induction false} RootNot(s: State, typ: Option<Guid>, id: nat)
    requires EntryIds(s.entries)[id] == 0 && typ.Some?
    ensures Marked(ListOf(s, typ), id) == ListOf(s, typ) && Others(ListOf(s, typ), id) == ListOf(s, typ)
  {
    if Handled(s, typ) {
      EntryIdsAt(s.entries, Find(s.entries, typ.value), id);
    }
    IdsNothing();
    hide Ids, EntryIds;
    IdsNot(ListOf(s, typ), id);
  }

  lemma {:induction false} EntriesNot(s: State, i: nat, typ: Option<Guid>, id: nat)
    requires EntriesOk(s.entries) && i < |s.entries| && Ids(s.root)[id] == 0
    requires forall j :: 0 <= j < |s.entries| && j != i ==> Ids(s.entries[j].handlers)[id] == 0
    ensures typ != Some(s.entries[i].typ) ==>
      Marked(ListOf(s, typ), id) == ListOf(s, typ) && Others(ListOf(s, typ), id) == ListOf(s, typ)
  {
    IdsNothing();
    hide Ids, EntriesOk;
    if typ != Some(s.entries[i].typ) {
      IdsNot(ListOf(s, typ), id);
    }
  }

  /** Unregistering a handler that is registered marks it, and nothing else, while a traversal is
      active; otherwise it goes at once, and nothing else. An unknown one is refused. */
  lemma {:induction false} DropLists(s: State, id: nat, typ: Option<Guid>)
    requires Ok(s)
    ensures var (r, status) := Drop(s, id);
      && status == (if id in AllIds(s) then Success else InvalidParameter)
      && r == s.(root := r.root, entries := r.entries)
      && ListOf(r, typ) == if id !in AllIds(s) then ListOf(s, typ)
                           else if s.depth > 0 then Marked(ListOf(s, typ), id)
                           else Others(ListOf(s, typ), id)
  {
    LocateAlone(s, id);
    hide Ok, Locate, AllIds, MarkAt, RemoveAt;
    if Locate(s, id).Some? {
      ListsAt(s, id, typ);
      SameRest(s, Locate(s, id).value);
    }
  }

  lemma {:induction false} SameRest(s: State, w: Where)
    requires Points(s, w)
    ensures MarkAt(s, w) == s.(root := MarkAt(s, w).root, entries := MarkAt(s, w).entries)
    ensures RemoveAt(s, w) == s.(root := RemoveAt(s, w).root, entries := RemoveAt(s, w).entries)
  {
  }

  // ---------- the sweep ----------

  /** The sweep takes the marked handlers off each list, and keeps the others in order. */
  lemma {:induction false} SweepLists(s: State, typ: Option<Guid>)
    requires EntriesOk(s.entries)
    ensures ListOf(Sweep(s), typ) == Keep(ListOf(s, typ))
  {
    if typ.Some? {
      KeepEntriesList(s.entries, typ.value);
    }
    hide KeepEntries, Find;
  }

  function EntryList(es: seq<MmiEntry>, g: Guid): seq<Handler> {
    if Find(es, g) < |es| then es[Find(es, g)].handlers else []
  }

  lemma {:induction false} KeepEntriesList(es: seq<MmiEntry>, g: Guid)
    requires EntriesOk(es)
    ensures EntryList(KeepEntries(es), g) == Keep(EntryList(es, g))
  {
    if es != [] {
      KeepEntriesList(es[1..], g);
      EntryListCons(es[0], es[1..], g);
      assert es == [es[0]] + es[1..];
      var e := MmiEntry(es[0].typ, Keep(es[0].handlers));
      EntryListCons(e, KeepEntries(es[1..]), g);
      assert KeepEntries(es) == if e.handlers == [] then KeepEntries(es[1..]) else [e] + KeepEntries(es[1..]);
      if g == es[0].typ {
        NoOther(es, g);
      }
      hide Find, KeepEntries;
    }
  }

  lemma {:induction false} NoOther(es: seq<MmiEntry>, g: Guid)
    requires EntriesOk(es) && es != [] && g == es[0].typ
    ensures EntryList(es[1..], g) == []
  {
    forall k | 0 <= k < |es[1..]| ensures es[1..][k].typ != g {
      assert es[1..][k] == es[k + 1];
    }
  }

  lemma {:induction false} EntryListCons(e: MmiEntry, es: seq<MmiEntry>, g: Guid)
    ensures EntryList([e] + es, g) == if e.typ == g then e.handlers else EntryList(es, g)
  {
    assert ([e] + es)[1..] == es;
  }

  // ---------- who is registered ----------

  ghost predicate On(s: State, h: Handler) {
    exists typ :: h in ListOf(s, typ)
  }

  ghost predicate Registered(s: State, id: nat) {
    On(s, Handler(id, false)) || On(s, Handler(id, true))
  }

  lemma {:induction false} InIds(hs: seq<Handler>, id: nat)
    ensures id in Ids(hs) <==> Handler(id, false) in hs || Handler(id, true) in hs
  {
    if hs != [] {
      InIds(hs[1..], id);
      IdsStep(hs);
      assert hs == [hs[0]] + hs[1..];
      hide Ids;
    }
  }

  /** Whoever is on a list is on one that a type, or none, leads to. */
  lemma {:induction false} RegisteredIs(s: State, id: nat)
    requires EntriesOk(s.entries)
    ensures id in AllIds(s) <==> Registered(s, id)
  {
    if Registered(s, id) {
      var typ :| Handler(id, false) in ListOf(s, typ) || Handler(id, true) in ListOf(s, typ);
      InIds(ListOf(s, typ), id);
      ListIds(s, typ, id);
    }
    if id in Ids(s.root) {
      InIds(s.root, id);
      assert ListOf(s, None) == s.root;
    } else if id in EntryIds(s.entries) {
      EntryIdsHas(s.entries, id);
      var i := EntryOf(s.entries, id);
      IdsHas(s.entries[i].handlers, id);
      InIds(s.entries[i].handlers, id);
      FindOwn(s.entries, i);
      assert ListOf(s, Some(s.entries[i].typ)) == s.entries[i].handlers;
    }
  }

  /** No handler is on a list both marked and not. */
  lemma {:induction false} OnOnce(s: State, id: nat)
    requires Ok(s)
    ensures !(On(s, Handler(id, false)) && On(s, Handler(id, true)))
  {
    if On(s, Handler(id, false)) && On(s, Handler(id, true)) {
      var a :| Handler(id, false) in ListOf(s, a);
      var b :| Handler(id, true) in ListOf(s, b);
      InIds(ListOf(s, a), id);
      InIds(ListOf(s, b), id);
      assert Unique(AllIds(s), s.next);
      hide Ok, EntriesOk, ListOf;
      if a == b {
        OneOnList(s, a, id);
      } else {
        TwoLists(s, a, b, id);
      }
    }
  }

  lemma {:induction false} OneOnList(s: State, typ: Option<Guid>, id: nat)
    requires AllIds(s)[id] <= 1 && Handler(id, false) in ListOf(s, typ)
    ensures Handler(id, true) !in ListOf(s, typ)
  {
    if typ.Some? {
      EntryIdsAt(s.entries, Find(s.entries, typ.value), id);
    }
    var hs := ListOf(s, typ);
    assert Ids(hs)[id] <= 1;
    hide Ids, EntryIds, ListOf;
    var k :| 0 <= k < |hs| && hs[k] == Handler(id, false);
    IdsOnce(hs, k);
  }

  lemma {:induction false} TwoLists(s: State, a: Option<Guid>, b: Option<Guid>, id: nat)
    requires AllIds(s)[id] <= 1 && a != b && id in Ids(ListOf(s, a))
    ensures id !in Ids(ListOf(s, b))
  {
    IdsNothing();
    if Handled(s, a) && a.Some? {
      EntryIdsAt(s.entries, Find(s.entries, a.value), id);
    }
    if Handled(s, b) && b.Some? {
      EntryIdsAt(s.entries, Find(s.entries, b.value), id);
    }
    hide Ids, EntryIds;
  }

  lemma {:induction false} InMarked(hs: seq<Handler>, id: nat, h: Handler)
    ensures h in Marked(hs, id)
      <==> if h.id == id then h.toRemove && (Handler(id, false) in hs || Handler(id, true) in hs) else h in hs
  {
    var r := Marked(hs, id);
    if h in hs && h.id != id {
      var k :| 0 <= k < |hs| && hs[k] == h;
      assert r[k] == h;
    }
    if b :| Handler(id, b) in hs && h == Handler(id, true) {
      var k :| 0 <= k < |hs| && hs[k] == Handler(id, b);
      assert r[k] == h;
    }
  }

  lemma {:induction false} InOthers(hs: seq<Handler>, id: nat, h: Handler)
    ensures h in Others(hs, id) <==> h in hs && h.id != id
  {
    if hs != [] {
      InOthers(hs[1..], id, h);
      assert hs == [hs[0]] + hs[1..];
    }
  }

  /** A new handler is the next number, not marked. */
  lemma {:induction false} OnAdd(s: State, typ: Option<Guid>, h: Handler)
    requires EntriesOk(s.entries)
    ensures On(Add(s, typ), h) <==> On(s, h) || h == Handler(s.next, false)
  {
    hide EntriesOk, ListOf, Add;
    forall t ensures ListOf(Add(s, typ), t) == ListOf(s, t) + if t == typ then [Handler(s.next, false)] else [] {
      AddLists(s, typ, t);
    }
    assert Handler(s.next, false) in ListOf(Add(s, typ), typ);
    assert forall t :: h in ListOf(s, t) ==> h in ListOf(Add(s, typ), t);
  }

  lemma {:induction false} OnDrop(s: State, id: nat, h: Handler)
    requires Ok(s)
    ensures On(Drop(s, id).0, h)
      <==> if h.id != id || id !in AllIds(s) then On(s, h) else s.depth > 0 && h.toRemove
  {
    var r := Drop(s, id).0;
    RegisteredIs(s, id);
    hide Ok, EntriesOk, ListOf, Drop, AllIds;
    forall t
      ensures h in ListOf(r, t) <==>
        if h.id != id || id !in AllIds(s) then h in ListOf(s, t)
        else s.depth > 0 && h.toRemove && (Handler(id, false) in ListOf(s, t) || Handler(id, true) in ListOf(s, t))
    {
      DropLists(s, id, t);
      InMarked(ListOf(s, t), id, h);
      InOthers(ListOf(s, t), id, h);
    }
  }

  lemma {:induction false} OnSweep(s: State, h: Handler)
    requires EntriesOk(s.entries)
    ensures On(Sweep(s), h) <==> On(s, h) && !h.toRemove
  {
    hide EntriesOk, ListOf, Sweep, Keep;
    forall t ensures h in ListOf(Sweep(s), t) <==> h in ListOf(s, t) && !h.toRemove {
      SweepLists(s, t);
      KeepMembers(ListOf(s, t), h);
    }
  }

  // ---------- any calls, however nested ----------

  /** The handlers that some calls unregister while they are registered. */
  function DroppedCalls(s: State, cs: seq<Call>): set<nat>
    decreases CallsSize(cs), 3, 0
  {
    if cs == [] then {} else DroppedCall(s, cs[0]) + DroppedCalls(RunCall(s, cs[0]), cs[1..])
  }

  function DroppedCall(s: State, c: Call): set<nat>
    decreases CallSize(c), 2, 0
  {
    match c
    case Register(_) => {}
    case UnRegister(id) => if id in AllIds(s) then {id} else {}
    case Manage(typ, rs) => if Handled(s, typ) then Dropped(s.(depth := s.depth + 1), typ, 0, rs) else {}
  }

  /** Those that the handlers invoked by a traversal unregister. */
  function Dropped(s: State, typ: Option<Guid>, i: nat, rs: seq<Script>): set<nat>
    decreases ScriptsSize(rs), 0, if Handled(s, typ) then |Handlers(s, typ)| - i else 0
  {
    if !Handled(s, typ) || i >= |Handlers(s, typ)| || rs == [] then {}
    else
      SizeSteps(rs);
      DroppedCalls(s, rs[0].calls) +
      if Combine(typ.None?, NotFound, rs[0].status).1 then {}
      else Dropped(RunCalls(s, rs[0].calls), typ, i + 1, rs[1..])
  }

  /** From s to r new handlers have come, none has gone, and the marks are those of the ones
      unregistered. */
  ghost predicate Follows(s: State, r: State, dropped: set<nat>) {
    && s.next <= r.next
    && (forall id: nat :: Registered(r, id) <==> Registered(s, id) || s.next <= id < r.next)
    && (forall id: nat :: On(r, Handler(id, true)) <==> On(s, Handler(id, true)) || id in dropped)
  }

  lemma {:induction false} FollowsTwice(s: State, t: State, r: State, a: set<nat>, b: set<nat>)
    requires Follows(s, t, a) && Follows(t, r, b)
    ensures Follows(s, r, a + b)
  {
    hide Registered, On;
  }

  lemma {:induction false} SameOn(s: State, r: State)
    requires s.root == r.root && s.entries == r.entries
    ensures forall h :: On(r, h) <==> On(s, h)
    ensures s.next == r.next ==> Follows(s, r, {})
  {
    hide Find;
    assert forall typ :: ListOf(r, typ) == ListOf(s, typ);
  }

  lemma {:induction false} AddFollows(s: State, typ: Option<Guid>)
    requires Ok(s)
    ensures Follows(s, Add(s, typ), {})
  {
    AddLists(s, typ, None);
    assert EntriesOk(s.entries);
    hide Ok, EntriesOk, Add, On;
    forall h ensures On(Add(s, typ), h) <==> On(s, h) || h == Handler(s.next, false) {
      OnAdd(s, typ, h);
    }
  }

  lemma {:induction false} DropFollows(s: State, id: nat)
    requires Ok(s) && s.depth > 0
    ensures Follows(s, Drop(s, id).0, if id in AllIds(s) then {id} else {})
  {
    DropLists(s, id, None);
    hide Ok, EntriesOk, Drop, On, Registered, AllIds, ListOf;
    forall x: nat {
      DropAt(s, id, x);
    }
  }

  lemma {:induction false} DropAt(s: State, id: nat, x: nat)
    requires Ok(s) && s.depth > 0
    ensures Registered(Drop(s, id).0, x) <==> Registered(s, x)
    ensures On(Drop(s, id).0, Handler(x, true))
      <==> On(s, Handler(x, true)) || x in (if id in AllIds(s) then {id} else {})
  {
    RegisteredIs(s, id);
    hide Ok, EntriesOk, Drop, On, AllIds;
    OnDrop(s, id, Handler(x, false));
    OnDrop(s, id, Handler(x, true));
  }

  /** While a traversal is active, whatever calls are made. */
  lemma {:induction false} CallsFollow(s: State, cs: seq<Call>)
    requires Ok(s) && s.depth > 0
    ensures Follows(s, RunCalls(s, cs), DroppedCalls(s, cs))
    decreases CallsSize(cs), 3, 0
  {
    hide Ok, Follows;
    OkDepth(s);
    if cs == [] {
      SameOn(s, s);
    } else {
      var t := RunCall(s, cs[0]);
      CallFollows(s, cs[0]);
      RunCallOk(s, cs[0]);
      RunCallGrows(s, cs[0]);
      GrowsDepth(s, t);
      CallsFollow(t, cs[1..]);
      FollowsTwice(s, t, RunCalls(t, cs[1..]), DroppedCall(s, cs[0]), DroppedCalls(t, cs[1..]));
    }
  }

  lemma {:induction false} OkDepth(s: State)
    requires Ok(s)
    ensures s.depth >= s.misses && EntriesOk(s.entries)
  {
  }

  lemma {:induction false} CallFollows(s: State, c: Call)
    requires Ok(s) && s.depth > 0
    ensures Follows(s, RunCall(s, c), DroppedCall(s, c))
    decreases CallSize(c), 2, 0
  {
    hide Ok, Follows, Add, Drop, AllIds;
    match c
    case Register(typ) => AddFollows(s, typ);
    case UnRegister(id) => DropFollows(s, id);
    case Manage(typ, rs) => ManageFollows(s, typ, rs);
  }

  lemma {:induction false} ManageFollows(s: State, typ: Option<Guid>, rs: seq<Script>)
    requires Ok(s) && s.depth > 0
    ensures Follows(s, ManageOne(s, typ, rs).0, DroppedCall(s, Manage(typ, rs)))
    decreases 1 + ScriptsSize(rs), 1, 0
  {
    hide Ok, Follows, Dropped;
    OkDepth(s);
    if !Handled(s, typ) {
      SameOn(s, ManageOne(s, typ, rs).0);
    } else {
      var s1 := s.(depth := s.depth + 1);
      var t := Traverse(s1, typ, 0, rs, NotFound).0;
      DeeperOk(s, s.depth + 1, s.misses);
      TraverseFollows(s1, typ, 0, rs, NotFound);
      TraverseGrows(s1, typ, 0, rs, NotFound);
      GrowsDepth(s1, t);
      SameOn(s, s1);
      SameOn(t, t.(depth := t.depth - 1));
      FollowsTwice(s, s1, t, {}, Dropped(s1, typ, 0, rs));
      FollowsTwice(s, t, t.(depth := t.depth - 1), {} + Dropped(s1, typ, 0, rs), {});
      assert {} + Dropped(s1, typ, 0, rs) + {} == Dropped(s1, typ, 0, rs);
    }
  }

  lemma {:induction false} TraverseFollows(s: State, typ: Option<Guid>, i: nat, rs: seq<Script>, ret: Status)
    requires Ok(s) && s.depth > 0
    ensures Follows(s, Traverse(s, typ, i, rs, ret).0, Dropped(s, typ, i, rs))
    decreases ScriptsSize(rs), 0, if Handled(s, typ) then |Handlers(s, typ)| - i else 0
  {
    hide Ok, Follows, DroppedCalls, RunCalls;
    OkDepth(s);
    SameOn(s, s);
    if Handled(s, typ) && i < |Handlers(s, typ)| {
      var (ret', ends) := Combine(typ.None?, ret, Response(rs).status);
      CombineStep(typ.None?, ret, Response(rs).status);
      if rs == [] {
        if !ends {
          TraverseFollows(s, typ, i + 1, rs, ret');
        }
      } else {
        SizeSteps(rs);
        var t := RunCalls(s, rs[0].calls);
        CallsFollow(s, rs[0].calls);
        if !ends {
          RunCallsOk(s, rs[0].calls);
          RunCallsGrow(s, rs[0].calls);
          GrowsDepth(s, t);
          TraverseFollows(t, typ, i + 1, rs[1..], ret');
          FollowsTwice(s, t, Traverse(t, typ, i + 1, rs[1..], ret').0, DroppedCalls(s, rs[0].calls),
                       Dropped(t, typ, i + 1, rs[1..]));
        } else {
          assert DroppedCalls(s, rs[0].calls) + {} == DroppedCalls(s, rs[0].calls);
        }
      }
    }
  }

  /** A handler is registered after an outermost call for a handled type exactly when it was before or
      came during the call, and was not unregistered during it; if some type managed on the way was
      not handled, those unregistered are marked and stay. */
  lemma {:induction false} OutermostKeeps(s: State, typ: Option<Guid>, rs: seq<Script>, id: nat)
    requires Ok(s) && s.depth == 0 && Handled(s, typ)
    ensures var r, gone := ManageOne(s, typ, rs).0, DroppedCall(s, Manage(typ, rs));
      && s.next <= r.next && s.misses <= r.misses
      && (id in AllIds(r) <==>
            (id in AllIds(s) || s.next <= id < r.next) && (r.misses == s.misses ==> id !in gone))
      && (On(r, Handler(id, true)) <==> r.misses > s.misses && id in gone)
      && (id in gone ==> id < r.next)
  {
    OutermostFollows(s, typ, rs);
    OutermostIs(s, typ, rs);
    hide *;
    EndOfOutermost(s, Traverse(s.(depth := 1), typ, 0, rs, NotFound).0, ManageOne(s, typ, rs).0,
                   DroppedCall(s, Manage(typ, rs)), id);
  }

  lemma {:induction false} EndOfOutermost(s: State, t: State, r: State, gone: set<nat>, id: nat)
    requires Ok(s) && s.depth == 0 && Ok(t) && Ok(r) && Follows(s, t, gone)
    requires r.next == t.next && r.misses == t.misses && s.misses <= t.misses
    requires r == if t.misses == s.misses then Sweep(t.(depth := 0)) else t.(depth := t.misses - s.misses)
    ensures s.next <= r.next
    ensures id in AllIds(r) <==> (id in AllIds(s) || s.next <= id < r.next) && (r.misses == s.misses ==> id !in gone)
    ensures On(r, Handler(id, true)) <==> r.misses > s.misses && id in gone
    ensures id in gone ==> id < r.next
  {
    hide *;
    OkDepth(s);
    OkDepth(r);
    UnmarkedNone(s, id);
    SweptAt(s, t, gone, id);
    RegisteredIs(r, id);
    if t.misses > s.misses {
      SameOn(t, r);
      RegisteredAt(t, r, id);
    }
  }

  lemma {:induction false} RegisteredAt(s: State, r: State, id: nat)
    requires forall h :: On(r, h) <==> On(s, h)
    ensures Registered(r, id) <==> Registered(s, id)
  {
    hide On;
  }

  lemma {:induction false} OutermostFollows(s: State, typ: Option<Guid>, rs: seq<Script>)
    requires Ok(s) && s.depth == 0 && Handled(s, typ)
    ensures var t := Traverse(s.(depth := 1), typ, 0, rs, NotFound).0;
      Ok(t) && Follows(s, t, DroppedCall(s, Manage(typ, rs)))
  {
    var s1 := s.(depth := 1);
    OkDepth(s);
    hide Ok, Traverse, Follows, Dropped, AllIds;
    DeeperOk(s, 1, s.misses);
    TraverseOk(s1, typ, 0, rs, NotFound);
    TraverseFollows(s1, typ, 0, rs, NotFound);
    SameOn(s, s1);
    FollowsTwice(s, s1, Traverse(s1, typ, 0, rs, NotFound).0, {}, Dropped(s1, typ, 0, rs));
    assert {} + Dropped(s1, typ, 0, rs) == Dropped(s1, typ, 0, rs);
  }

  lemma {:induction false} OutermostIs(s: State, typ: Option<Guid>, rs: seq<Script>)
    requires Ok(s) && s.depth == 0 && Handled(s, typ)
    ensures var t, r := Traverse(s.(depth := 1), typ, 0, rs, NotFound).0, ManageOne(s, typ, rs).0;
      && Ok(r) && r.next == t.next && r.misses == t.misses && s.misses <= t.misses
      && r == if t.misses == s.misses then Sweep(t.(depth := 0)) else t.(depth := t.misses - s.misses)
  {
    OutermostFrees(s, typ, rs);
    hide Ok, Traverse, ManageOne;
  }

  lemma {:induction false} UnmarkedNone(s: State, id: nat)
    requires Ok(s) && s.depth == 0
    ensures !On(s, Handler(id, true))
  {
    assert NoMarks(s);
    hide Ok;
    forall typ ensures Handler(id, true) !in ListOf(s, typ) {
    }
  }

  /** What is registered when t follows s, and after a sweep then. */
  lemma {:induction false} SweptAt(s: State, t: State, gone: set<nat>, id: nat)
    requires Follows(s, t, gone) && !On(s, Handler(id, true)) && Ok(t) && EntriesOk(s.entries)
    ensures s.next <= t.next
    ensures Registered(t, id) <==> id in AllIds(s) || s.next <= id < t.next
    ensures On(t, Handler(id, true)) <==> id in gone
    ensures id in gone ==> id < t.next
    ensures var r := Sweep(t.(depth := 0));
      && (Registered(r, id) <==> (id in AllIds(s) || s.next <= id < t.next) && id !in gone)
      && !On(r, Handler(id, true))
  {
    OkDepth(t);
    RegisteredIs(s, id);
    RegisteredIs(t, id);
    OkUnique(t, id);
    OnOnce(t, id);
    SameOn(t, t.(depth := 0));
    hide Ok, EntriesOk, AllIds, Sweep, On;
    OnSweep(t.(depth := 0), Handler(id, false));
    OnSweep(t.(depth := 0), Handler(id, true));
  }

  /** Over any calls made from outside, when every type managed was handled: registered is whoever
      was, or came since, and was not unregistered. */
  lemma {:induction false} RunIsExact(s: State, cs: seq<Call>, id: nat)
    requires Ok(s) && s.depth == 0 && RunCalls(s, cs).misses == s.misses
    ensures var r := RunCalls(s, cs);
      && r.depth == 0 && s.next <= r.next
      && (id in AllIds(r) <==> (id in AllIds(s) || s.next <= id < r.next) && id !in DroppedCalls(s, cs))
    decreases |cs|
  {
    hide Ok, RunCall, AllIds, DroppedCall;
    if cs != [] {
      var t := RunCall(s, cs[0]);
      OkDepth(s);
      RunCallOk(s, cs[0]);
      CallMisses(s, cs[0]);
      RunMisses(t, cs[1..]);
      RunCallDepth(s, cs[0]);
      OutsideCall(s, cs[0], id);
      RunIsExact(t, cs[1..], id);
    } else {
      OkUnique(s, id);
    }
  }

  lemma {:induction false} OkUnique(s: State, id: nat)
    requires Ok(s)
    ensures id in AllIds(s) ==> id < s.next
  {
    hide AllIds, EntriesOk;
  }

  lemma {:induction false} CallMisses(s: State, c: Call)
    requires Ok(s)
    ensures s.misses <= RunCall(s, c).misses
  {
    OkDepth(s);
    hide Ok, Traverse, Leave, Locate, Find;
    if c.Manage? && Handled(s, c.typ) {
      var s1 := s.(depth := s.depth + 1);
      TraverseGrows(s1, c.typ, 0, c.responses, NotFound);
      GrowsDepth(s1, Traverse(s1, c.typ, 0, c.responses, NotFound).0);
      LeaveDepth(Traverse(s1, c.typ, 0, c.responses, NotFound).0);
    }
  }

  lemma {:induction false} RunMisses(s: State, cs: seq<Call>)
    requires Ok(s)
    ensures s.misses <= RunCalls(s, cs).misses
    decreases |cs|
  {
    hide Ok, RunCall;
    if cs != [] {
      CallMisses(s, cs[0]);
      RunCallOk(s, cs[0]);
      RunMisses(RunCall(s, cs[0]), cs[1..]);
    }
  }

  /** One call from outside, when every type managed is handled. */
  lemma {:induction false} OutsideCall(s: State, c: Call, id: nat)
    requires Ok(s) && s.depth == 0 && RunCall(s, c).misses == s.misses
    ensures var t := RunCall(s, c);
      && s.next <= t.next
      && (id in AllIds(t) <==> (id in AllIds(s) || s.next <= id < t.next) && id !in DroppedCall(s, c))
      && (id in DroppedCall(s, c) ==> id < t.next)
  {
    OkUnique(s, id);
    OkDepth(s);
    hide Ok, AllIds, Add, Drop, ManageOne, Dropped, EntriesOk, Registered;
    match c
    case Register(typ) =>
      AddIds(s, typ);
      AddLists(s, typ, None);
    case UnRegister(x) =>
      DropLists(s, x, None);
      DropRegistered(s, x, id);
    case Manage(typ, rs) =>
      if Handled(s, typ) {
        OutermostKeeps(s, typ, rs, id);
      } else {
        MissedOne(s, typ, rs);
      }
  }

  lemma {:induction false} MissedOne(s: State, typ: Option<Guid>, rs: seq<Script>)
    requires !Handled(s, typ)
    ensures ManageOne(s, typ, rs).0.misses == s.misses + 1
  {
  }

  lemma {:induction false} DropRegistered(s: State, x: nat, id: nat)
    requires Ok(s) && s.depth == 0
    ensures id in AllIds(Drop(s, x).0) <==> id in AllIds(s) && id != x
  {
    DropOk(s, x);
    OkDepth(s);
    OkDepth(Drop(s, x).0);
    RegisteredIs(s, id);
    RegisteredIs(Drop(s, x).0, id);
    RegisteredIs(s, x);
    hide Ok, AllIds, Drop, On, EntriesOk;
    OnDrop(s, x, Handler(id, false));
    OnDrop(s, x, Handler(id, true));
  }

  // ---------- which handlers are invoked ----------

  /** A typed traversal ends behind EFI_INTERRUPT_PENDING and EFI_SUCCESS, one of the root never. */
  lemma {:induction false} CombineEnds(root: bool, ret: Status, st: Status)
    ensures Combine(root, ret, st).1 <==> !root && (st == InterruptPending || st == Success)
  {
  }

  /** A traversal invokes the handlers of its list one after the other, with those that join at the
      end while it goes, each once and each with the next response; it stops early only behind an
      answer that ends it. */
  lemma {:induction false} InvokedAll(s: State, typ: Option<Guid>, i: nat, rs: seq<Script>, ret: Status)
    requires s.depth >= s.misses && s.depth > 0 && Handled(s, typ) && i <= |Handlers(s, typ)|
    ensures var t, sts := Traverse(s, typ, i, rs, ret).0, Invoked(s, typ, i, rs);
      && (forall k :: 0 <= k < |sts| ==> sts[k] == if k < |rs| then rs[k].status else IDLE.status)
      && (forall k :: 0 <= k < |sts| - 1 ==> typ.None? || (sts[k] != InterruptPending && sts[k] != Success))
      && Handled(t, typ)
      && (if sts != [] && typ.Some? && (sts[|sts| - 1] == InterruptPending || sts[|sts| - 1] == Success)
          then i + |sts| <= |Handlers(t, typ)|
          else i + |sts| == |Handlers(t, typ)|)
    decreases ScriptsSize(rs), 0, |Handlers(s, typ)| - i
  {
    InvokedUnfold(s, typ, i, rs);
    TraverseUnfold(s, typ, i, rs, ret);
    hide Traverse, Invoked, RunCalls, Combine, Handled, Handlers;
    if i < |Handlers(s, typ)| {
      var st := Response(rs).status;
      CombineStep(typ.None?, ret, st);
      CombineEnds(typ.None?, ret, st);
      var t, rest := s, rs;
      if rs != [] {
        SizeSteps(rs);
        t, rest := RunCalls(s, rs[0].calls), rs[1..];
        RunCallsGrow(s, rs[0].calls);
        GrowsDepth(s, t);
        EntryStays(s, t, typ);
      }
      if !Combine(typ.None?, ret, st).1 {
        InvokedAll(t, typ, i + 1, rest, Combine(typ.None?, ret, st).0);
      }
    }
  }
}
