/** The protocol database: one relation between handles, GUIDs and interfaces kept in two sets
    of lists, and the notification records whose cursors run along one of them. */
module ProtocolDatabase {
  import opened Sequences
  import opened Wrappers
  import Depex

  type Guid = Depex.Guid

  /** A PROTOCOL_INTERFACE; id stands for its address, which is never given out twice. */
  datatype Prot = Prot(id: nat, handle: nat, guid: Guid, iface: int)

  datatype IHandle = IHandle(protocols: seq<Prot>, locateRequest: nat)

  datatype ProtocolEntry = ProtocolEntry(guid: Guid, protocols: seq<Prot>, notify: seq<nat>)

  /** The last interface already returned, or None for the head of the list. */
  datatype ProtocolNotify = ProtocolNotify(guid: Guid, callback: nat, position: Option<Prot>)

  /** Handles and notification records are found by their addresses; next is an address nothing
      has had yet. */
  datatype Database = Database(
    handleList: seq<nat>, handles: map<nat, IHandle>,
    entries: seq<ProtocolEntry>, notifies: map<nat, ProtocolNotify>, next: nat)

  datatype Status = Success | InvalidParameter | NotFound | Unsupported | BufferTooSmall

  // ---------- searching the lists ----------

  function Find(es: seq<ProtocolEntry>, g: Guid): (i: nat)
    ensures i <= |es|
    ensures i < |es| ==> es[i].guid == g
    ensures forall j :: 0 <= j < i ==> es[j].guid != g
  {
    if es == [] then 0 else if es[0].guid == g then 0 else 1 + Find(es[1..], g)
  }

  /** The interfaces installed for a GUID, oldest first. */
  function Protocols(es: seq<ProtocolEntry>, g: Guid): seq<Prot> {
    if Find(es, g) < |es| then es[Find(es, g)].protocols else []
  }

  function Records(es: seq<ProtocolEntry>, g: Guid): seq<nat> {
    if Find(es, g) < |es| then es[Find(es, g)].notify else []
  }

  /** The interface a handle has for a GUID. */
  function Lookup(ps: seq<Prot>, g: Guid): (r: Option<Prot>)
    ensures r.Some? ==> r.value in ps && r.value.guid == g
    ensures r.None? ==> forall p :: p in ps ==> p.guid != g
  {
    if ps == [] then None else if ps[0].guid == g then Some(ps[0]) else Lookup(ps[1..], g)
  }

  function IndexOf<T(==)>(ps: seq<T>, p: T): (i: nat)
    ensures i <= |ps|
    ensures i < |ps| <==> p in ps
    ensures i < |ps| ==> ps[i] == p
    ensures forall j :: 0 <= j < i ==> ps[j] != p
  {
    if ps == [] then 0 else if ps[0] == p then 0 else 1 + IndexOf(ps[1..], p)
  }

  function Without<T(==)>(ps: seq<T>, p: T): (r: seq<T>)
    ensures p !in ps ==> r == ps
  {
    var i := IndexOf(ps, p);
    if i < |ps| then ps[..i] + ps[i + 1..] else ps
  }

  // ---------- the services, as functions of the database ----------

  function WithEntry(es: seq<ProtocolEntry>, g: Guid): (r: seq<ProtocolEntry>)
    ensures Find(r, g) < |r|
  {
    if Find(es, g) < |es| then es
    else
      FindAppend(es, ProtocolEntry(g, [], [])); es + [ProtocolEntry(g, [], [])]
  }

  ghost predicate SameLists(es: seq<ProtocolEntry>, fs: seq<ProtocolEntry>) {
    forall k :: Protocols(fs, k) == Protocols(es, k) && Records(fs, k) == Records(es, k)
  }

  lemma {:induction false} WithEntryLists(es: seq<ProtocolEntry>, g: Guid)
    ensures SameLists(es, WithEntry(es, g))
  {
    if Find(es, g) == |es| {
      FindAppend(es, ProtocolEntry(g, [], []));
    }
  }

  lemma {:induction false} FindIs(es: seq<ProtocolEntry>, g: Guid, i: nat)
    requires i < |es| && es[i].guid == g && forall j :: 0 <= j < i ==> es[j].guid != g
    ensures Find(es, g) == i
  {
    assert Find(es, g) <= i;
  }

  lemma {:induction false} FindAppend(es: seq<ProtocolEntry>, e: ProtocolEntry)
    requires Find(es, e.guid) == |es| && e.protocols == [] && e.notify == []
    ensures Find(es + [e], e.guid) == |es|
    ensures forall h :: Protocols(es + [e], h) == Protocols(es, h) && Records(es + [e], h) == Records(es, h)
  {
    FindIs(es + [e], e.guid, |es|);
    forall h ensures Protocols(es + [e], h) == Protocols(es, h) && Records(es + [e], h) == Records(es, h) {
      var f := Find(es, h);
      if f < |es| {
        FindIs(es + [e], h, f);
      } else if h != e.guid {
        assert forall j :: 0 <= j < |es| ==> (es + [e])[j].guid == es[j].guid;
      }
    }
  }

  /** The list of entries with the entry of one GUID replaced. */
  function Put(es: seq<ProtocolEntry>, g: Guid, protocols: seq<Prot>, notify: seq<nat>): (r: seq<ProtocolEntry>)
    requires Find(es, g) < |es|
    ensures |r| == |es|
  {
    es[Find(es, g) := ProtocolEntry(g, protocols, notify)]
  }

  /** The lists of no other GUID change. */
  ghost predicate OnlyChanged(es: seq<ProtocolEntry>, fs: seq<ProtocolEntry>, g: Guid) {
    forall k :: k != g ==> Protocols(fs, k) == Protocols(es, k) && Records(fs, k) == Records(es, k)
  }

  lemma {:induction false} PutLists(es: seq<ProtocolEntry>, g: Guid, ps: seq<Prot>, ks: seq<nat>)
    requires Find(es, g) < |es|
    ensures var r := Put(es, g, ps, ks);
      Protocols(r, g) == ps && Records(r, g) == ks && OnlyChanged(es, r, g)
  {
    var r := Put(es, g, ps, ks);
    SameFind(es, r);
    hide Find;
    forall k | k != g ensures Protocols(r, k) == Protocols(es, k) && Records(r, k) == Records(es, k) {
      assert Find(r, k) == Find(es, k);
    }
  }

  lemma {:induction false} SameFind(es: seq<ProtocolEntry>, fs: seq<ProtocolEntry>)
    requires |es| == |fs| && forall j :: 0 <= j < |es| ==> fs[j].guid == es[j].guid
    ensures forall h :: Find(fs, h) == Find(es, h)
  {
    forall h ensures Find(fs, h) == Find(es, h) {
      var f := Find(es, h);
      if f < |es| {
        FindIs(fs, h, f);
      }
    }
  }

  function Present(db: Database, h: nat, g: Guid): Option<Prot> {
    if h in db.handles then Lookup(db.handles[h].protocols, g) else None
  }

  /** MmInstallProtocolInterfaceNotify, without the calls it makes to notify. */
  function Install(db: Database, handle: Option<nat>, g: Guid, iface: int): (Database, Status, Option<Prot>) {
    if handle.Some? && Present(db, handle.value, g).Some? then (db, InvalidParameter, None)
    else
      var es := WithEntry(db.entries, g);
      if handle.Some? && handle.value !in db.handles then (db.(entries := es), InvalidParameter, None)
      else
        var h := if handle.Some? then handle.value else db.next;
        var was := if handle.Some? then db.handles[h] else IHandle([], 0);
        var p := Prot(db.next + 1, h, g, iface);
        (Database(
           if handle.Some? then db.handleList else db.handleList + [h],
           db.handles[h := was.(protocols := [p] + was.protocols)],
           Put(es, g, Protocols(es, g) + [p], Records(es, g)),
           db.notifies, db.next + 2),
         Success, Some(p))
  }

  /** MmFindProtocolInterface: the GUID must have an entry, and the interface must match. */
  function FindInterface(es: seq<ProtocolEntry>, ps: seq<Prot>, g: Guid, iface: int): (r: Option<Prot>)
    ensures r.Some? ==> r.value in ps && r.value.guid == g && r.value.iface == iface && Find(es, g) < |es|
    ensures r.None? && Find(es, g) < |es| ==> forall p :: p in ps ==> p.guid != g || p.iface != iface
  {
    if Find(es, g) == |es| || ps == [] then None
    else if ps[0].iface == iface && ps[0].guid == g then Some(ps[0])
    else FindInterface(es, ps[1..], g, iface)
  }

  function Previous(ps: seq<Prot>, p: Prot): Option<Prot> {
    var i := IndexOf(ps, p);
    if 0 < i < |ps| then Some(ps[i - 1]) else None
  }

  /** A cursor on the interface that goes is set back by one. */
  function BackUp(n: ProtocolNotify, ps: seq<Prot>, p: Prot): ProtocolNotify {
    if n.position == Some(p) then n.(position := Previous(ps, p)) else n
  }

  function AllBackedUp(notifies: map<nat, ProtocolNotify>, ps: seq<Prot>, p: Prot): map<nat, ProtocolNotify> {
    map k | k in notifies :: BackUp(notifies[k], ps, p)
  }

  /** The handles after an interface has gone: a handle goes with its last one. */
  function Detach(handles: map<nat, IHandle>, h: nat, p: Prot): map<nat, IHandle>
    requires h in handles
  {
    var rest := Without(handles[h].protocols, p);
    if rest == [] then handles - {h} else handles[h := handles[h].(protocols := rest)]
  }

  function Remove(db: Database, h: nat, p: Prot): Database
    requires h in db.handles && Find(db.entries, p.guid) < |db.entries|
  {
    var ps := Protocols(db.entries, p.guid);
    var handles := Detach(db.handles, h, p);
    Database(
      if h in handles then db.handleList else Without(db.handleList, h),
      handles,
      Put(db.entries, p.guid, Without(ps, p), Records(db.entries, p.guid)),
      AllBackedUp(db.notifies, ps, p), db.next)
  }

  /** The record of a GUID with this function. */
  function WithCallback(notifies: map<nat, ProtocolNotify>, ks: seq<nat>, callback: nat): (r: Option<nat>)
    ensures r.Some? ==> r.value in ks && r.value in notifies && notifies[r.value].callback == callback
    ensures r.None? ==> forall k :: k in ks && k in notifies ==> notifies[k].callback != callback
  {
    if ks == [] then None
    else if ks[0] in notifies && notifies[ks[0]].callback == callback then Some(ks[0])
    else WithCallback(notifies, ks[1..], callback)
  }

  function LastOf(ps: seq<Prot>): Option<Prot> {
    if ps == [] then None else Some(ps[|ps| - 1])
  }

  /** MmRegisterProtocolNotify with a function: the record there is, or a new one whose cursor is
      at the end. */
  function Register(db: Database, g: Guid, callback: nat): (Database, nat) {
    var es := WithEntry(db.entries, g);
    var found := WithCallback(db.notifies, Records(es, g), callback);
    if found.Some? then (db.(entries := es), found.value)
    else
      (db.(entries := Put(es, g, Protocols(es, g), Records(es, g) + [db.next]),
           notifies := db.notifies[db.next := ProtocolNotify(g, callback, LastOf(Protocols(es, g)))],
           next := db.next + 1),
       db.next)
  }

  /** MmRegisterProtocolNotify without a function. */
  function Unregister(db: Database, g: Guid, key: nat): (Database, Status) {
    if key in Records(db.entries, g) then
      (db.(entries := Put(db.entries, g, Protocols(db.entries, g), Without(Records(db.entries, g), key)),
           notifies := db.notifies - {key}), Success)
    else (db, NotFound)
  }

  /** What lies behind the cursor. */
  function After(ps: seq<Prot>, position: Option<Prot>): seq<Prot> {
    if position.None? then ps
    else if IndexOf(ps, position.value) < |ps| then ps[IndexOf(ps, position.value) + 1..] else []
  }

  /** The interfaces a registration has still to return. */
  function Pending(db: Database, key: nat): seq<Prot>
    requires key in db.notifies
  {
    After(Protocols(db.entries, db.notifies[key].guid), db.notifies[key].position)
  }

  /** A lookup by registration that succeeds moves the cursor on by one. */
  function Advance(db: Database, key: nat): (Database, Option<Prot>)
    requires key in db.notifies
  {
    var ps := Pending(db, key);
    if ps == [] then (db, None)
    else (db.(notifies := db.notifies[key := db.notifies[key].(position := Some(ps[0]))]), Some(ps[0]))
  }

  /** MmUninstallProtocolInterface. */
  function Uninstall(db: Database, h: nat, g: Guid, iface: int): (Database, Status)
  {
    if h !in db.handles then (db, InvalidParameter)
    else
      var p := FindInterface(db.entries, db.handles[h].protocols, g, iface);
      if p.None? then (db, NotFound) else (Remove(db, h, p.value), Success)
  }

  // ---------- what holds at all times ----------

  ghost predicate Ascending(ps: seq<Prot>) {
    forall i, j :: 0 <= i < j < |ps| ==> ps[i].id < ps[j].id
  }

  /** A handle is listed exactly when it has an interface, and has at most one for each GUID. */
  ghost predicate HandlesOk(list: seq<nat>, handles: map<nat, IHandle>, next: nat) {
    && NoDup(list) && (forall h :: h in list <==> h in handles)
    && (forall h :: h in handles ==> h < next && handles[h].protocols != [] && OnePerGuid(handles[h].protocols))
  }

  ghost predicate OnePerGuid(ps: seq<Prot>) {
    forall i, j :: 0 <= i < j < |ps| ==> ps[i].guid != ps[j].guid
  }

  predicate Held(handles: map<nat, IHandle>, h: nat, p: Prot) {
    h in handles && p in handles[h].protocols
  }

  /** An interface is on its handle's list exactly when it is on its GUID's list. */
  ghost predicate Agree(handles: map<nat, IHandle>, es: seq<ProtocolEntry>) {
    && (forall h, p :: Held(handles, h, p) ==> p.handle == h && p in Protocols(es, p.guid))
    && (forall g, p :: p in Protocols(es, g) ==> p.guid == g && Held(handles, p.handle, p))
  }

  ghost predicate EntriesOk(es: seq<ProtocolEntry>, next: nat) {
    && (forall i, j :: 0 <= i < j < |es| ==> es[i].guid != es[j].guid)
    && (forall g :: Ascending(Protocols(es, g)) && NoDup(Records(es, g)))
    && (forall g, p :: p in Protocols(es, g) ==> p.id < next)
  }

  /** Every record is on the list of its GUID. */
  ghost predicate RecordsOk(notifies: map<nat, ProtocolNotify>, es: seq<ProtocolEntry>) {
    forall g, k :: k in Records(es, g) <==> k in notifies && notifies[k].guid == g
  }

  /** Every cursor is at the head of the list of its GUID or on an interface in it. */
  ghost predicate CursorsOk(notifies: map<nat, ProtocolNotify>, es: seq<ProtocolEntry>) {
    forall k :: k in notifies ==> On(Protocols(es, notifies[k].guid), notifies[k].position)
  }

  ghost predicate On(ps: seq<Prot>, position: Option<Prot>) {
    position.Some? ==> position.value in ps
  }

  ghost predicate NotifiesOk(notifies: map<nat, ProtocolNotify>, es: seq<ProtocolEntry>, next: nat) {
    && RecordsOk(notifies, es) && CursorsOk(notifies, es)
    && (forall k :: k in notifies ==> k < next)
  }

  ghost predicate Ok(db: Database) {
    && HandlesOk(db.handleList, db.handles, db.next)
    && Agree(db.handles, db.entries)
    && EntriesOk(db.entries, db.next)
    && NotifiesOk(db.notifies, db.entries, db.next)
  }

  // ---------- installing ----------

  lemma {:induction false} HandlesInstall(list: seq<nat>, handles: map<nat, IHandle>, next: nat, h: nat, p: Prot,
                                          stamp: nat)
    requires HandlesOk(list, handles, next)
    requires h in handles ==> Lookup(handles[h].protocols, p.guid).None?
    requires h !in handles ==> h == next
    ensures HandlesOk(if h in handles then list else list + [h],
                      handles[h := IHandle([p] + if h in handles then handles[h].protocols else [], stamp)], next + 2)
  {
    hide Lookup;
  }

  lemma {:induction false} AgreeInstall(handles: map<nat, IHandle>, handles': map<nat, IHandle>, es: seq<ProtocolEntry>,
                                        fs: seq<ProtocolEntry>, p: Prot)
    requires Agree(handles, es) && OnlyChanged(es, fs, p.guid) && Protocols(fs, p.guid) == Protocols(es, p.guid) + [p]
    requires forall h, q :: Held(handles', h, q) <==> Held(handles, h, q) || (h == p.handle && q == p)
    ensures Agree(handles', fs)
  {
    hide Protocols, Records, Held;
  }

  lemma {:induction false} HeldInstall(handles: map<nat, IHandle>, p: Prot, stamp: nat)
    ensures var handles' := handles[p.handle :=
        IHandle([p] + if p.handle in handles then handles[p.handle].protocols else [], stamp)];
      forall h, q :: Held(handles', h, q) <==> Held(handles, h, q) || (h == p.handle && q == p)
  {
    var ps := if p.handle in handles then handles[p.handle].protocols else [];
    var handles' := handles[p.handle := IHandle([p] + ps, stamp)];
    forall h, q ensures Held(handles', h, q) <==> Held(handles, h, q) || (h == p.handle && q == p) {
      assert q in [p] + ps <==> q == p || q in ps;
    }
  }

  lemma {:induction false} EntriesInstall(es: seq<ProtocolEntry>, fs: seq<ProtocolEntry>, p: Prot, next: nat)
    requires EntriesOk(es, next) && OnlyChanged(es, fs, p.guid) && p.id == next + 1
    requires Protocols(fs, p.guid) == Protocols(es, p.guid) + [p] && Records(fs, p.guid) == Records(es, p.guid)
    requires forall i, j :: 0 <= i < j < |fs| ==> fs[i].guid != fs[j].guid
    ensures EntriesOk(fs, next + 2)
  {
    hide Protocols, Records;
    forall g ensures Ascending(Protocols(fs, g)) && NoDup(Records(fs, g)) {
      if g == p.guid {
        var ps := Protocols(es, g);
        assert forall i :: 0 <= i < |ps| ==> ps[i] in ps;
      }
    }
  }

  lemma {:induction false} WithEntryOk(es: seq<ProtocolEntry>, g: Guid)
    requires forall i, j :: 0 <= i < j < |es| ==> es[i].guid != es[j].guid
    ensures var r := WithEntry(es, g); forall i, j :: 0 <= i < j < |r| ==> r[i].guid != r[j].guid
  {
  }

  lemma {:induction false} SameAgree(handles: map<nat, IHandle>, es: seq<ProtocolEntry>, fs: seq<ProtocolEntry>)
    requires Agree(handles, es) && SameLists(es, fs)
    ensures Agree(handles, fs)
  {
    hide Protocols, Records;
  }

  lemma {:induction false} SameEntries(es: seq<ProtocolEntry>, fs: seq<ProtocolEntry>, next: nat)
    requires EntriesOk(es, next) && SameLists(es, fs)
    requires forall i, j :: 0 <= i < j < |fs| ==> fs[i].guid != fs[j].guid
    ensures EntriesOk(fs, next)
  {
    hide Protocols, Records, Ascending, NoDup;
  }

  lemma {:induction false} SameNotifies(notifies: map<nat, ProtocolNotify>, es: seq<ProtocolEntry>,
                                        fs: seq<ProtocolEntry>, next: nat)
    requires NotifiesOk(notifies, es, next) && SameLists(es, fs)
    ensures NotifiesOk(notifies, fs, next)
  {
    hide Protocols, Records;
  }

  /** An empty entry more makes no difference. */
  lemma {:induction false} WithEntryKeeps(db: Database, g: Guid)
    requires Ok(db)
    ensures Ok(db.(entries := WithEntry(db.entries, g)))
  {
    var es := WithEntry(db.entries, g);
    WithEntryOk(db.entries, g);
    WithEntryLists(db.entries, g);
    hide SameLists, WithEntry, Agree, HandlesOk, NotifiesOk;
    SameAgree(db.handles, db.entries, es);
    SameEntries(db.entries, es, db.next);
    SameNotifies(db.notifies, db.entries, es, db.next);
  }

  lemma {:induction false} NotifiesInstall(notifies: map<nat, ProtocolNotify>, es: seq<ProtocolEntry>,
                                           fs: seq<ProtocolEntry>, p: Prot, next: nat)
    requires NotifiesOk(notifies, es, next) && OnlyChanged(es, fs, p.guid)
    requires Protocols(fs, p.guid) == Protocols(es, p.guid) + [p] && Records(fs, p.guid) == Records(es, p.guid)
    ensures NotifiesOk(notifies, fs, next + 2)
  {
    hide Protocols, Records;
  }

  lemma {:induction false} PutDistinct(es: seq<ProtocolEntry>, g: Guid, ps: seq<Prot>, ks: seq<nat>)
    requires Find(es, g) < |es| && forall i, j :: 0 <= i < j < |es| ==> es[i].guid != es[j].guid
    ensures var r := Put(es, g, ps, ks); forall i, j :: 0 <= i < j < |r| ==> r[i].guid != r[j].guid
  {
  }

  lemma {:induction false} InstallParts(db: Database, handle: Option<nat>, g: Guid, iface: int)
    requires Install(db, handle, g, iface).1 == Success
    ensures var r := Install(db, handle, g, iface);
      var es, p := WithEntry(db.entries, g),
        Prot(db.next + 1, if handle.Some? then handle.value else db.next, g, iface);
      && r.2 == Some(p)
      && r.0.entries == Put(es, g, Protocols(es, g) + [p], Records(es, g))
      && (db.next !in db.handles ==> p.handle in r.0.handles && r.0.handles == db.handles[p.handle :=
            IHandle([p] + if p.handle in db.handles then db.handles[p.handle].protocols
                    else [], r.0.handles[p.handle].locateRequest)])
      && (handle.Some? ==> p.handle in db.handles && Lookup(db.handles[p.handle].protocols, g).None?)
      && r.0.handleList == (if handle.Some? then db.handleList else db.handleList + [p.handle])
      && r.0.notifies == db.notifies && r.0.next == db.next + 2
  {
    hide Protocols, Records, WithEntry, Put, Lookup;
  }

  lemma {:induction false} InstalledKeeps(db: Database, handle: Option<nat>, g: Guid, iface: int)
    requires Ok(db) && Install(db, handle, g, iface).1 == Success
    ensures Ok(Install(db, handle, g, iface).0)
  {
    var es := WithEntry(db.entries, g);
    assert db.next !in db.handles && forall i, j :: 0 <= i < j < |db.entries| ==>
      db.entries[i].guid != db.entries[j].guid;
    hide Install, WithEntry, Put, Protocols, Records, Ok, Lookup;
    InstallParts(db, handle, g, iface);
    var r, p := Install(db, handle, g, iface).0, Install(db, handle, g, iface).2.value;
    WithEntryOk(db.entries, g);
    WithEntryKeeps(db, g);
    PutLists(es, g, Protocols(es, g) + [p], Records(es, g));
    PutDistinct(es, g, Protocols(es, g) + [p], Records(es, g));
    hide *;
    InstalledLists(db, r, es, p);
  }

  lemma {:induction false} InstalledLists(db: Database, r: Database, es: seq<ProtocolEntry>, p: Prot)
    requires Ok(db.(entries := es)) && p.id == db.next + 1 && r.next == db.next + 2 && r.notifies == db.notifies
    requires OnlyChanged(es, r.entries, p.guid)
    requires Protocols(r.entries, p.guid) == Protocols(es, p.guid) + [p]
    requires Records(r.entries, p.guid) == Records(es, p.guid)
    requires p.handle in r.handles && r.handles == db.handles[p.handle :=
      IHandle([p] + if p.handle in db.handles then db.handles[p.handle].protocols
              else [], r.handles[p.handle].locateRequest)]
    requires r.handleList == if p.handle in db.handles then db.handleList else db.handleList + [p.handle]
    requires p.handle in db.handles ==> Lookup(db.handles[p.handle].protocols, p.guid).None?
    requires p.handle !in db.handles ==> p.handle == db.next
    requires forall i, j :: 0 <= i < j < |r.entries| ==> r.entries[i].guid != r.entries[j].guid
    ensures Ok(r)
  {
    hide Protocols, Records, EntriesOk, NotifiesOk, HandlesOk, Agree, OnlyChanged, Lookup;
    HandlesInstall(db.handleList, db.handles, db.next, p.handle, p, r.handles[p.handle].locateRequest);
    HeldInstall(db.handles, p, r.handles[p.handle].locateRequest);
    AgreeInstall(db.handles, r.handles, es, r.entries, p);
    EntriesInstall(es, r.entries, p, db.next);
    NotifiesInstall(db.notifies, es, r.entries, p, db.next);
  }

  lemma {:induction false} InstallKeeps(db: Database, handle: Option<nat>, g: Guid, iface: int)
    requires Ok(db)
    ensures Ok(Install(db, handle, g, iface).0)
  {
    hide Ok, WithEntry, Put;
    if Install(db, handle, g, iface).1 == Success {
      InstalledKeeps(db, handle, g, iface);
    } else {
      WithEntryKeeps(db, g);
    }
  }

  // ---------- uninstalling ----------

  lemma {:induction false} IndexIs<T(!new)>(s: seq<T>, p: T, i: nat)
    requires NoDup(s) && i < |s| && s[i] == p
    ensures IndexOf(s, p) == i
  {
  }

  lemma {:induction false} WithoutMembers<T(!new)>(s: seq<T>, p: T)
    requires NoDup(s)
    ensures NoDup(Without(s, p))
    ensures forall q :: q in Without(s, p) <==> q in s && q != p
  {
    var i, r := IndexOf(s, p), Without(s, p);
    if i < |s| {
      assert forall j :: 0 <= j < |r| ==> r[j] == s[if j < i then j else j + 1];
      forall q | q in s && q != p ensures q in r {
        var j := IndexOf(s, q);
        assert r[if j < i then j else j - 1] == q;
      }
    }
  }

  lemma {:induction false} WithoutAscending(s: seq<Prot>, p: Prot)
    requires Ascending(s)
    ensures Ascending(Without(s, p))
  {
    var i, r := IndexOf(s, p), Without(s, p);
    if i < |s| {
      assert forall j :: 0 <= j < |r| ==> r[j] == s[if j < i then j else j + 1];
    }
  }

  lemma {:induction false} WithoutOnePerGuid(s: seq<Prot>, p: Prot)
    requires OnePerGuid(s)
    ensures OnePerGuid(Without(s, p))
  {
    var i, r := IndexOf(s, p), Without(s, p);
    if i < |s| {
      assert forall j :: 0 <= j < |r| ==> r[j] == s[if j < i then j else j + 1];
    }
  }

  lemma {:induction false} HandlesRemove(list: seq<nat>, handles: map<nat, IHandle>, next: nat, h: nat, p: Prot)
    requires HandlesOk(list, handles, next) && h in handles
    ensures HandlesOk(if h in Detach(handles, h, p) then list else Without(list, h), Detach(handles, h, p), next)
  {
    WithoutOnePerGuid(handles[h].protocols, p);
    WithoutMembers(list, h);
    hide OnePerGuid, NoDup, Without;
  }

  lemma {:induction false} HeldDetach(handles: map<nat, IHandle>, h: nat, p: Prot)
    requires h in handles && NoDup(handles[h].protocols)
    ensures forall k, q :: Held(Detach(handles, h, p), k, q) <==> Held(handles, k, q) && !(k == h && q == p)
  {
    WithoutMembers(handles[h].protocols, p);
    hide Without, NoDup;
  }

  lemma {:induction false} AgreeRemove(handles: map<nat, IHandle>, handles': map<nat, IHandle>, es: seq<ProtocolEntry>,
                                       fs: seq<ProtocolEntry>, p: Prot)
    requires Agree(handles, es) && OnlyChanged(es, fs, p.guid)
    requires forall q :: q in Protocols(fs, p.guid) <==> q in Protocols(es, p.guid) && q != p
    requires Held(handles, p.handle, p)
    requires forall h, q :: Held(handles', h, q) <==> Held(handles, h, q) && !(h == p.handle && q == p)
    ensures Agree(handles', fs)
  {
    hide Protocols, Records, Held;
  }

  lemma {:induction false} EntriesRemove(es: seq<ProtocolEntry>, fs: seq<ProtocolEntry>, p: Prot, next: nat)
    requires EntriesOk(es, next) && OnlyChanged(es, fs, p.guid)
    requires Protocols(fs, p.guid) == Without(Protocols(es, p.guid), p) && Records(fs, p.guid) == Records(es, p.guid)
    requires forall i, j :: 0 <= i < j < |fs| ==> fs[i].guid != fs[j].guid
    ensures EntriesOk(fs, next)
  {
    AscendingNoDup(Protocols(es, p.guid));
    WithoutMembers(Protocols(es, p.guid), p);
    WithoutAscending(Protocols(es, p.guid), p);
    hide Protocols, Records, Without, NoDup, Ascending;
  }

  lemma {:induction false} AscendingNoDup(ps: seq<Prot>)
    requires Ascending(ps)
    ensures NoDup(ps)
  {
  }

  lemma {:induction false} PreviousStays(ps: seq<Prot>, p: Prot)
    requires NoDup(ps) && Previous(ps, p).Some?
    ensures Previous(ps, p).value in Without(ps, p)
  {
    var i := IndexOf(ps, p);
    WithoutMembers(ps, p);
    assert ps[i - 1] in ps && ps[i - 1] != p;
  }

  lemma {:induction false} CursorRemove(n: ProtocolNotify, ps: seq<Prot>, p: Prot)
    requires NoDup(ps) && On(ps, n.position)
    ensures On(Without(ps, p), BackUp(n, ps, p).position)
  {
    WithoutMembers(ps, p);
    if Previous(ps, p).Some? {
      PreviousStays(ps, p);
    }
  }

  lemma {:induction false} CursorsRemove(notifies: map<nat, ProtocolNotify>, es: seq<ProtocolEntry>,
                                         fs: seq<ProtocolEntry>, p: Prot)
    requires CursorsOk(notifies, es) && OnlyChanged(es, fs, p.guid) && NoDup(Protocols(es, p.guid))
    requires Protocols(fs, p.guid) == Without(Protocols(es, p.guid), p)
    requires forall g, q :: q in Protocols(es, g) ==> q.guid == g
    ensures CursorsOk(AllBackedUp(notifies, Protocols(es, p.guid), p), fs)
  {
    var ps := Protocols(es, p.guid);
    hide Protocols, Records, Without, NoDup, Previous;
    forall k | k in notifies ensures On(Protocols(fs, notifies[k].guid), BackUp(notifies[k], ps, p).position) {
      assert On(Protocols(es, notifies[k].guid), notifies[k].position);
      if notifies[k].guid == p.guid {
        CursorRemove(notifies[k], ps, p);
      }
    }
  }

  lemma {:induction false} RecordsRemove(notifies: map<nat, ProtocolNotify>, es: seq<ProtocolEntry>,
                                         fs: seq<ProtocolEntry>, p: Prot, ps: seq<Prot>)
    requires RecordsOk(notifies, es) && forall g :: Records(fs, g) == Records(es, g)
    ensures RecordsOk(AllBackedUp(notifies, ps, p), fs)
  {
    hide Records, Previous;
  }

  lemma {:induction false} NotifiesRemove(notifies: map<nat, ProtocolNotify>, es: seq<ProtocolEntry>,
                                          fs: seq<ProtocolEntry>, p: Prot, next: nat)
    requires NotifiesOk(notifies, es, next) && OnlyChanged(es, fs, p.guid) && NoDup(Protocols(es, p.guid))
    requires Protocols(fs, p.guid) == Without(Protocols(es, p.guid), p) && Records(fs, p.guid) == Records(es, p.guid)
    requires forall g, q :: q in Protocols(es, g) ==> q.guid == g
    ensures NotifiesOk(AllBackedUp(notifies, Protocols(es, p.guid), p), fs, next)
  {
    CursorsRemove(notifies, es, fs, p);
    hide Protocols, Records, Without, NoDup, Previous, CursorsOk, RecordsOk, BackUp;
    RecordsRemove(notifies, es, fs, p, Protocols(es, p.guid));
  }

  /** What is known of an interface that can be removed. */
  lemma {:induction false} HeldFacts(db: Database, h: nat, p: Prot)
    requires Ok(db) && Held(db.handles, h, p)
    ensures p.handle == h && p in Protocols(db.entries, p.guid) && Find(db.entries, p.guid) < |db.entries|
    ensures NoDup(Protocols(db.entries, p.guid)) && NoDup(db.handles[h].protocols)
    ensures forall g, q :: q in Protocols(db.entries, g) ==> q.guid == g
    ensures HandlesOk(db.handleList, db.handles, db.next) && Agree(db.handles, db.entries)
    ensures EntriesOk(db.entries, db.next) && NotifiesOk(db.notifies, db.entries, db.next)
    ensures forall i, j :: 0 <= i < j < |db.entries| ==> db.entries[i].guid != db.entries[j].guid
  {
    AscendingNoDup(Protocols(db.entries, p.guid));
    GuidsNoDup(db.handles[h].protocols);
    hide NotifiesOk, NoDup, Ascending, OnePerGuid;
  }

  lemma {:induction false} RemoveKeeps(db: Database, h: nat, p: Prot)
    requires Ok(db) && Held(db.handles, h, p)
    ensures Find(db.entries, p.guid) < |db.entries| && Ok(Remove(db, h, p))
  {
    var es, g := db.entries, p.guid;
    HeldFacts(db, h, p);
    var ps := Without(Protocols(es, g), p);
    PutLists(es, g, ps, Records(es, g));
    PutDistinct(es, g, ps, Records(es, g));
    RemoveParts(db, h, p);
    hide *;
    RemovedLists(db, h, p, Put(es, g, ps, Records(es, g)));
  }

  lemma {:induction false} RemoveParts(db: Database, h: nat, p: Prot)
    requires h in db.handles && Find(db.entries, p.guid) < |db.entries|
    ensures var ps, handles := Protocols(db.entries, p.guid), Detach(db.handles, h, p);
      Remove(db, h, p) == Database(
        if h in handles then db.handleList else Without(db.handleList, h), handles,
        Put(db.entries, p.guid, Without(ps, p), Records(db.entries, p.guid)),
        AllBackedUp(db.notifies, ps, p), db.next)
  {
    hide Protocols, Detach, Put, Records, BackUp, Without;
  }

  lemma {:induction false} RemovedLists(db: Database, h: nat, p: Prot, fs: seq<ProtocolEntry>)
    requires Ok(db) && Held(db.handles, h, p) && OnlyChanged(db.entries, fs, p.guid)
    requires Protocols(fs, p.guid) == Without(Protocols(db.entries, p.guid), p)
    requires Records(fs, p.guid) == Records(db.entries, p.guid)
    requires forall i, j :: 0 <= i < j < |fs| ==> fs[i].guid != fs[j].guid
    ensures Held(db.handles, h, p) && h in db.handles
    ensures var ps, handles := Protocols(db.entries, p.guid), Detach(db.handles, h, p);
      Ok(Database(if h in handles then db.handleList else Without(db.handleList, h), handles, fs,
                  AllBackedUp(db.notifies, ps, p), db.next))
  {
    HeldFacts(db, h, p);
    hide Protocols, Records, Without, NoDup, Ascending, OnlyChanged, HandlesOk, Agree, EntriesOk, NotifiesOk, Detach,
      BackUp, Find;
    HandlesRemove(db.handleList, db.handles, db.next, h, p);
    assert Agree(Detach(db.handles, h, p), fs) by {
      HeldDetach(db.handles, h, p);
      WithoutMembers(Protocols(db.entries, p.guid), p);
      AgreeRemove(db.handles, Detach(db.handles, h, p), db.entries, fs, p);
    }
    EntriesRemove(db.entries, fs, p, db.next);
    NotifiesRemove(db.notifies, db.entries, fs, p, db.next);
  }

  lemma {:induction false} GuidsNoDup(ps: seq<Prot>)
    requires OnePerGuid(ps)
    ensures NoDup(ps)
  {
  }

  lemma {:induction false} UninstallKeeps(db: Database, h: nat, g: Guid, iface: int)
    requires Ok(db)
    ensures Ok(Uninstall(db, h, g, iface).0)
  {
    hide Ok, Remove;
    if h in db.handles {
      var p := FindInterface(db.entries, db.handles[h].protocols, g, iface);
      if p.Some? {
        RemoveKeeps(db, h, p.value);
      }
    }
  }

  // ---------- registering and looking up ----------

  ghost predicate OnlyRecords(es: seq<ProtocolEntry>, fs: seq<ProtocolEntry>) {
    && (forall g :: Protocols(fs, g) == Protocols(es, g) && NoDup(Records(fs, g)))
    && (forall i, j :: 0 <= i < j < |fs| ==> fs[i].guid != fs[j].guid)
  }

  /** Changing only the records. */
  lemma {:induction false} RecordsKeep(db: Database, fs: seq<ProtocolEntry>, notifies: map<nat, ProtocolNotify>,
                                       next: nat)
    requires Ok(db) && next >= db.next && NotifiesOk(notifies, fs, next)
    requires OnlyRecords(db.entries, fs)
    ensures Ok(db.(entries := fs, notifies := notifies, next := next))
  {
    hide Protocols, Records, NotifiesOk, Ascending, NoDup, OnePerGuid;
  }

  lemma {:induction false} NewRecord(notifies: map<nat, ProtocolNotify>, es: seq<ProtocolEntry>, fs: seq<ProtocolEntry>,
                                     next: nat, g: Guid, callback: nat)
    requires NotifiesOk(notifies, es, next) && OnlyChanged(es, fs, g)
    requires Protocols(fs, g) == Protocols(es, g) && Records(fs, g) == Records(es, g) + [next]
    ensures NotifiesOk(notifies[next := ProtocolNotify(g, callback, LastOf(Protocols(es, g)))], fs, next + 1)
  {
    hide Protocols, Records;
    var ns := notifies[next := ProtocolNotify(g, callback, LastOf(Protocols(es, g)))];
    assert next !in notifies;
    forall h, k ensures k in Records(fs, h) <==> k in ns && ns[k].guid == h {
      assert k in Records(es, h) <==> k in notifies && notifies[k].guid == h;
    }
    assert CursorsOk(ns, fs) by {
      assert On(Protocols(es, g), LastOf(Protocols(es, g)));
    }
  }

  lemma {:induction false} RegisterKeeps(db: Database, g: Guid, callback: nat)
    requires Ok(db)
    ensures Ok(Register(db, g, callback).0)
  {
    WithEntryKeeps(db, g);
    var es := WithEntry(db.entries, g);
    if WithCallback(db.notifies, Records(es, g), callback).None? {
      var fs := Put(es, g, Protocols(es, g), Records(es, g) + [db.next]);
      var ns := db.notifies[db.next := ProtocolNotify(g, callback, LastOf(Protocols(es, g)))];
      assert Register(db, g, callback).0 == db.(entries := fs, notifies := ns, next := db.next + 1);
      hide *;
      RegisteredKeeps(db, es, g, callback);
    } else {
      assert Register(db, g, callback).0 == db.(entries := es);
      hide *;
    }
  }

  lemma {:induction false} RegisteredKeeps(db: Database, es: seq<ProtocolEntry>, g: Guid, callback: nat)
    requires Ok(db.(entries := es)) && Find(es, g) < |es|
    ensures Ok(db.(entries := Put(es, g, Protocols(es, g), Records(es, g) + [db.next]),
                   notifies := db.notifies[db.next := ProtocolNotify(g, callback, LastOf(Protocols(es, g)))],
                   next := db.next + 1))
  {
    assert EntriesOk(es, db.next) && NotifiesOk(db.notifies, es, db.next) && NoDup(Records(es, g));
    hide *;
    NewNoDup(db.notifies, es, g, db.next);
    PutRecords(es, g, Records(es, g) + [db.next], db.next);
    var fs := Put(es, g, Protocols(es, g), Records(es, g) + [db.next]);
    NewRecord(db.notifies, es, fs, db.next, g, callback);
    RecordsKeep(db.(entries := es), fs,
                db.notifies[db.next := ProtocolNotify(g, callback, LastOf(Protocols(es, g)))], db.next + 1);
  }

  lemma {:induction false} NewNoDup(notifies: map<nat, ProtocolNotify>, es: seq<ProtocolEntry>, g: Guid, next: nat)
    requires NotifiesOk(notifies, es, next) && NoDup(Records(es, g))
    ensures NoDup(Records(es, g) + [next])
  {
    hide Records, CursorsOk;
    var ks := Records(es, g);
    forall i | 0 <= i < |ks| ensures ks[i] != next {
      assert ks[i] in ks;
      assert ks[i] in Records(es, g) <==> ks[i] in notifies && notifies[ks[i]].guid == g;
    }
  }

  lemma {:induction false} RecordGone(notifies: map<nat, ProtocolNotify>, ns: map<nat, ProtocolNotify>,
                                      es: seq<ProtocolEntry>, fs: seq<ProtocolEntry>, next: nat, g: Guid, key: nat)
    requires NotifiesOk(notifies, es, next) && OnlyChanged(es, fs, g) && Protocols(fs, g) == Protocols(es, g)
    requires forall k :: k in Records(fs, g) <==> k in Records(es, g) && k != key
    requires key in notifies && notifies[key].guid == g
    requires forall k :: k in ns <==> k in notifies && k != key
    requires forall k :: k in ns ==> ns[k] == notifies[k]
    ensures NotifiesOk(ns, fs, next)
  {
    hide Protocols, Records;
    assert RecordsOk(ns, fs) by {
      hide CursorsOk;
      forall h, k ensures k in Records(fs, h) <==> k in ns && ns[k].guid == h {
        assert k in Records(es, h) <==> k in notifies && notifies[k].guid == h;
      }
    }
    assert CursorsOk(ns, fs) by {
      hide RecordsOk;
    }
  }

  lemma {:induction false} UnregisteredKeeps(db: Database, g: Guid, key: nat)
    requires Ok(db) && key in Records(db.entries, g)
    ensures Ok(db.(entries := Put(db.entries, g, Protocols(db.entries, g), Without(Records(db.entries, g), key)),
                   notifies := db.notifies - {key}))
  {
    var fs := Put(db.entries, g, Protocols(db.entries, g), Without(Records(db.entries, g), key));
    UnregisteredLists(db, g, key);
    hide *;
    assert Ok(db.(entries := fs, notifies := db.notifies - {key}, next := db.next)) by {
      NotifiesGone(db, fs, g, key);
      RecordsKeep(db, fs, db.notifies - {key}, db.next);
    }
  }

  /** The lists change only in that the record is gone. */
  ghost predicate RecordLess(es: seq<ProtocolEntry>, fs: seq<ProtocolEntry>, g: Guid, key: nat) {
    && OnlyChanged(es, fs, g) && Protocols(fs, g) == Protocols(es, g)
    && forall k :: k in Records(fs, g) <==> k in Records(es, g) && k != key
  }

  lemma {:induction false} UnregisteredLists(db: Database, g: Guid, key: nat)
    requires Ok(db) && key in Records(db.entries, g)
    ensures var fs := Put(db.entries, g, Protocols(db.entries, g), Without(Records(db.entries, g), key));
      RecordLess(db.entries, fs, g, key) && OnlyRecords(db.entries, fs)
  {
    var es := db.entries;
    var ks := Without(Records(es, g), key);
    assert EntriesOk(es, db.next) && NoDup(Records(es, g)) && Find(es, g) < |es|;
    hide *;
    WithoutMembers(Records(es, g), key);
    PutRecords(es, g, ks, db.next);
    LessIs(es, Put(es, g, Protocols(es, g), ks), g, key);
  }

  lemma {:induction false} LessIs(es: seq<ProtocolEntry>, fs: seq<ProtocolEntry>, g: Guid, key: nat)
    requires OnlyChanged(es, fs, g) && Protocols(fs, g) == Protocols(es, g)
    requires forall k :: k in Records(fs, g) <==> k in Records(es, g) && k != key
    ensures RecordLess(es, fs, g, key)
  {
  }

  lemma {:induction false} PutRecords(es: seq<ProtocolEntry>, g: Guid, ks: seq<nat>, next: nat)
    requires EntriesOk(es, next) && NoDup(ks) && Find(es, g) < |es|
    ensures var fs := Put(es, g, Protocols(es, g), ks);
      OnlyRecords(es, fs) && OnlyChanged(es, fs, g) && Protocols(fs, g) == Protocols(es, g) && Records(fs, g) == ks
  {
    hide Protocols, Records, NoDup, Put, Ascending, Find;
    PutLists(es, g, Protocols(es, g), ks);
    PutDistinct(es, g, Protocols(es, g), ks);
  }

  lemma {:induction false} NotifiesGone(db: Database, fs: seq<ProtocolEntry>, g: Guid, key: nat)
    requires Ok(db) && key in Records(db.entries, g) && RecordLess(db.entries, fs, g, key)
    ensures NotifiesOk(db.notifies - {key}, fs, db.next)
  {
    assert NotifiesOk(db.notifies, db.entries, db.next);
    assert key in db.notifies && db.notifies[key].guid == g;
    hide Ok, Protocols, Records, NotifiesOk, OnlyChanged;
    RecordGone(db.notifies, db.notifies - {key}, db.entries, fs, db.next, g, key);
  }

  lemma {:induction false} UnregisterKeeps(db: Database, g: Guid, key: nat)
    requires Ok(db)
    ensures Ok(Unregister(db, g, key).0)
  {
    if key in Records(db.entries, g) {
      hide Ok, Protocols, Records, Put, Without;
      UnregisteredKeeps(db, g, key);
    }
  }

  lemma {:induction false} AfterMembers(ps: seq<Prot>, position: Option<Prot>)
    ensures forall q :: q in After(ps, position) ==> q in ps
  {
  }

  lemma {:induction false} AdvanceKeeps(db: Database, key: nat)
    requires Ok(db) && key in db.notifies
    ensures Ok(Advance(db, key).0)
  {
    AfterMembers(Protocols(db.entries, db.notifies[key].guid), db.notifies[key].position);
    hide Protocols, Records, After, HandlesOk, Agree, EntriesOk, RecordsOk;
    if Pending(db, key) != [] {
      CursorMoves(db.notifies, db.entries, key, Pending(db, key)[0]);
    }
  }

  lemma {:induction false} CursorMoves(notifies: map<nat, ProtocolNotify>, es: seq<ProtocolEntry>, key: nat, p: Prot)
    requires RecordsOk(notifies, es) && CursorsOk(notifies, es)
    requires key in notifies && p in Protocols(es, notifies[key].guid)
    ensures RecordsOk(notifies[key := notifies[key].(position := Some(p))], es)
    ensures CursorsOk(notifies[key := notifies[key].(position := Some(p))], es)
  {
    hide Protocols, Records;
    var ns := notifies[key := notifies[key].(position := Some(p))];
    forall h, k ensures k in Records(es, h) <==> k in ns && ns[k].guid == h {
      assert k in Records(es, h) <==> k in notifies && notifies[k].guid == h;
    }
  }

  // ---------- what each service does to what a registration has still to return ----------

  lemma {:induction false} AfterInstall(ps: seq<Prot>, position: Option<Prot>, p: Prot)
    requires NoDup(ps + [p]) && On(ps, position)
    ensures After(ps + [p], position) == After(ps, position) + [p]
  {
    if position.Some? {
      IndexIs(ps + [p], position.value, IndexOf(ps, position.value));
    }
  }

  lemma {:induction false} AfterRegister(ps: seq<Prot>)
    requires NoDup(ps)
    ensures After(ps, LastOf(ps)) == []
  {
    if ps != [] {
      IndexIs(ps, ps[|ps| - 1], |ps| - 1);
    }
  }

  lemma {:induction false} AfterAdvance(ps: seq<Prot>, position: Option<Prot>)
    requires NoDup(ps) && On(ps, position) && After(ps, position) != []
    ensures After(ps, Some(After(ps, position)[0])) == After(ps, position)[1..]
  {
    var i := if position.None? then 0 else IndexOf(ps, position.value) + 1;
    assert After(ps, position) == ps[i..];
    IndexIs(ps, ps[i], i);
  }

  lemma {:induction false} IndexSplit<T(!new)>(a: seq<T>, p: T, b: seq<T>)
    requires p !in a
    ensures IndexOf(a + [p] + b, p) == |a| && Without(a + [p] + b, p) == a + b
  {
    var s := a + [p] + b;
    assert s[|a|] == p && p in s && forall j :: 0 <= j < |a| ==> s[j] == a[j] && a[j] in a;
    assert s[..|a|] == a && s[|a| + 1..] == b;
  }

  lemma {:induction false} AfterSplit(a: seq<Prot>, q: Prot, b: seq<Prot>)
    requires q !in a
    ensures After(a + [q] + b, Some(q)) == b
  {
    IndexSplit(a, q, b);
    hide IndexOf;
    assert (a + [q] + b)[|a| + 1..] == b;
  }

  /** The cursor that was on the interface that goes is set back, so nothing is skipped. */
  lemma {:induction false} AfterRemove(ps: seq<Prot>, position: Option<Prot>, p: Prot)
    requires NoDup(ps) && On(ps, position) && p in ps
    ensures After(Without(ps, p), if position == Some(p) then Previous(ps, p) else position) ==
      Without(After(ps, position), p)
  {
    var i := IndexOf(ps, p);
    var a, b := ps[..i], ps[i + 1..];
    assert ps == a + [p] + b && p !in a && p !in b;
    IndexSplit(a, p, b);
    if position == Some(p) {
      hide After;
      AfterSplit(a, p, b);
      AfterPrevious(ps, a, p, b);
    } else if position.Some? {
      var j := IndexOf(ps, position.value);
      hide After, Without, IndexOf;
      AfterOther(ps, i, j);
    }
  }

  lemma {:induction false} AfterPrevious(ps: seq<Prot>, a: seq<Prot>, p: Prot, b: seq<Prot>)
    requires NoDup(ps) && ps == a + [p] + b && IndexOf(ps, p) == |a|
    ensures After(a + b, Previous(ps, p)) == b
  {
    var n := |a|;
    if n > 0 {
      var c, q := a[..n - 1], a[n - 1];
      assert forall j :: 0 <= j < n ==> ps[j] == a[j];
      assert a == c + [q] && q !in c && Previous(ps, p) == Some(q);
      hide IndexOf, NoDup, After, Previous;
      AfterSplit(c, q, b);
    } else {
      assert a + b == b;
    }
  }

  lemma {:induction false} AfterOther(ps: seq<Prot>, i: nat, j: nat)
    requires NoDup(ps) && i < |ps| && j < |ps| && i != j
    ensures After(Without(ps, ps[i]), Some(ps[j])) == Without(After(ps, Some(ps[j])), ps[i])
  {
    var lo, hi := if i < j then i else j, if i < j then j else i;
    var a, x, m, y, b := ps[..lo], ps[lo], ps[lo + 1..hi], ps[hi], ps[hi + 1..];
    assert ps == a + [x] + m + [y] + b;
    assert x !in a && y !in a && y !in m && x !in m && x !in b && x != y;
    hide NoDup;
    AfterOtherSplit(ps, a, x, m, y, b, i < j);
  }

  lemma {:induction false} AfterOtherSplit(ps: seq<Prot>, a: seq<Prot>, x: Prot, m: seq<Prot>, y: Prot, b: seq<Prot>,
                                           first: bool)
    requires ps == a + [x] + m + [y] + b && x !in a && y !in a && y !in m && x !in m && x !in b && x != y
    ensures first ==> After(Without(ps, x), Some(y)) == Without(After(ps, Some(y)), x)
    ensures !first ==> After(Without(ps, y), Some(x)) == Without(After(ps, Some(x)), y)
  {
    hide After, Without, IndexOf;
    var t, u, v := m + [y] + b, a + [x] + m, a + m;
    Regroup(a, x, m, y, b);
    assert y !in u && y !in v;
    AfterSplit(u, y, b);
    IndexSplit(a, x, t);
    AfterSplit(v, y, b);
    assert Without(b, x) == b;
    AfterSplit(a, x, t);
    IndexSplit(m, y, b);
    IndexSplit(u, y, b);
    AfterSplit(a, x, m + b);
  }

  lemma {:induction false} Regroup(a: seq<Prot>, x: Prot, m: seq<Prot>, y: Prot, b: seq<Prot>)
    ensures a + [x] + m + [y] + b == a + [x] + (m + [y] + b)
    ensures a + (m + [y] + b) == (a + m) + [y] + b
    ensures (a + [x] + m) + b == a + [x] + (m + b)
  {
  }

  // ---------- runs ----------

  datatype Call =
    | InstallCall(handle: Option<nat>, guid: Guid, iface: int)
    | UninstallCall(user: nat, guid: Guid, iface: int)
    | RegisterCall(guid: Guid, callback: nat)
    | UnregisterCall(guid: Guid, key: nat)
    | LookupCall(key: nat)
    | SearchCall(found: set<nat>, request: nat)

  /** What a search leaves behind: its number on the handles it returns. */
  function Stamp(handles: map<nat, IHandle>, found: set<nat>, request: nat): map<nat, IHandle> {
    map h | h in handles :: if h in found then handles[h].(locateRequest := request) else handles[h]
  }

  /** One call, and the interface it returns when it is a lookup by registration that finds one. */
  function Step(db: Database, c: Call): (Database, Option<Prot>) {
    match c
    case InstallCall(h, g, i) => (Install(db, h, g, i).0, None)
    case UninstallCall(h, g, i) => (Uninstall(db, h, g, i).0, None)
    case RegisterCall(g, f) => (Register(db, g, f).0, None)
    case UnregisterCall(g, k) => (Unregister(db, g, k).0, None)
    case LookupCall(k) => if k in db.notifies then Advance(db, k) else (db, None)
    case SearchCall(found, request) => (db.(handles := Stamp(db.handles, found, request)), None)
  }

  function Run(db: Database, cs: seq<Call>): Database {
    if cs == [] then db else Step(Run(db, cs[..|cs| - 1]), cs[|cs| - 1]).0
  }

  /** What the lookups with one registration return, in order. */
  function Returned(db: Database, cs: seq<Call>, key: nat): seq<Prot> {
    if cs == [] then []
    else
      var before, c := cs[..|cs| - 1], cs[|cs| - 1];
      Returned(db, before, key) + Returns(Run(db, before), c, key)
  }

  /** What a call adds to the returned interfaces of a registration. */
  function Returns(db: Database, c: Call, key: nat): seq<Prot> {
    if c == LookupCall(key) && Step(db, c).1.Some? then [Step(db, c).1.value] else []
  }

  lemma {:induction false} StepKeeps(db: Database, c: Call)
    requires Ok(db)
    ensures Ok(Step(db, c).0)
  {
    hide Ok, Install, Uninstall, Register, Unregister, Advance;
    match c
    case InstallCall(h, g, i) => InstallKeeps(db, h, g, i);
    case UninstallCall(h, g, i) => UninstallKeeps(db, h, g, i);
    case RegisterCall(g, f) => RegisterKeeps(db, g, f);
    case UnregisterCall(g, k) => UnregisterKeeps(db, g, k);
    case LookupCall(k) =>
      if k in db.notifies {
        AdvanceKeeps(db, k);
      }
    case SearchCall(found, request) =>
      StampOnly(db.handles, found, request);
      StampsKeep(db, Stamp(db.handles, found, request), request);
  }

  lemma {:induction false} StampOnly(handles: map<nat, IHandle>, found: set<nat>, request: nat)
    ensures OnlyStamps(handles, Stamp(handles, found, request), request)
  {
  }

  /** Whatever does no more than stamp handles is a search. */
  lemma {:induction false} StampsAreSearch(db: Database, handles': map<nat, IHandle>, request: nat)
    returns (found: set<nat>)
    requires OnlyStamps(db.handles, handles', request)
    ensures db.(handles := handles') == Step(db, SearchCall(found, request)).0
  {
    found := set h | h in handles' && handles'[h] != db.handles[h];
    assert handles' == Stamp(db.handles, found, request);
  }

  const EMPTY := Database([], map[], [], map[], 0)

  /** Whatever is called in whatever order, the two sets of lists agree, a handle is listed
      exactly when it has an interface, with at most one for each GUID, and every cursor is
      where a cursor may be. */
  lemma {:induction false} RunKeeps(db: Database, cs: seq<Call>)
    requires Ok(db) || db == EMPTY
    ensures Ok(Run(db, cs))
  {
    if cs == [] {
    } else {
      RunKeeps(db, cs[..|cs| - 1]);
      StepKeeps(Run(db, cs[..|cs| - 1]), cs[|cs| - 1]);
    }
  }

  // ---------- a registration is a queue ----------

  /** What has been returned and what is pending together: in the order of installation, only
      interfaces younger than the registration, and all of those that are still installed. */
  ghost predicate Queue(installed: seq<Prot>, pending: seq<Prot>, returned: seq<Prot>, key: nat, next: nat) {
    && Ascending(returned + pending)
    && (forall p :: p in returned + pending ==> key < p.id < next)
    && (forall p :: p in pending ==> p in installed)
    && (forall p :: p in installed && key < p.id ==> p in returned + pending)
  }

  ghost predicate Tracked(db: Database, key: nat, returned: seq<Prot>) {
    key in db.notifies &&
    Queue(Protocols(db.entries, db.notifies[key].guid), Pending(db, key), returned, key, db.next)
  }

  lemma {:induction false} QueueInstall(installed: seq<Prot>, pending: seq<Prot>, returned: seq<Prot>, key: nat,
                                        next: nat, p: Prot)
    requires Queue(installed, pending, returned, key, next) && p.id == next + 1 && key < next
    ensures Queue(installed + [p], pending + [p], returned, key, next + 2)
  {
    var all := returned + pending;
    assert returned + (pending + [p]) == all + [p];
    assert forall i :: 0 <= i < |all| ==> all[i] in all;
  }

  lemma {:induction false} QueueRemove(installed: seq<Prot>, pending: seq<Prot>, returned: seq<Prot>, key: nat,
                                       next: nat, p: Prot)
    requires Queue(installed, pending, returned, key, next) && NoDup(installed)
    ensures Queue(Without(installed, p), Without(pending, p), returned, key, next)
  {
    var all := returned + pending;
    PendingAscending(returned, pending);
    AscendingNoDup(pending);
    WithoutMembers(installed, p);
    WithoutMembers(pending, p);
    WithoutTail(returned, pending, p);
    hide Without, NoDup, Ascending;
  }

  lemma {:induction false} PendingAscending(returned: seq<Prot>, pending: seq<Prot>)
    requires Ascending(returned + pending)
    ensures Ascending(pending)
  {
    var all := returned + pending;
    assert forall i :: 0 <= i < |pending| ==> pending[i] == all[|returned| + i];
  }

  lemma {:induction false} DropOne(all: seq<Prot>, n: nat)
    requires Ascending(all) && n < |all|
    ensures Ascending(all[..n] + all[n + 1..])
  {
    var r := all[..n] + all[n + 1..];
    forall i, j | 0 <= i < j < |r| ensures r[i].id < r[j].id {
      assert r[i] == all[if i < n then i else i + 1] && r[j] == all[if j < n then j else j + 1];
    }
  }

  lemma {:induction false} WithoutTail(returned: seq<Prot>, pending: seq<Prot>, p: Prot)
    requires Ascending(returned + pending)
    ensures Ascending(returned + Without(pending, p))
  {
    hide *;
    var i := IndexOf(pending, p);
    WithoutIs(pending, p);
    if i < |pending| {
      DropOne(returned + pending, |returned| + i);
      SliceAcross(returned, pending, i);
    }
  }

  lemma {:induction false} WithoutIs(ps: seq<Prot>, p: Prot)
    ensures var i := IndexOf(ps, p);
      Without(ps, p) == if i < |ps| then ps[..i] + ps[i + 1..] else ps
  {
    hide IndexOf;
  }

  lemma {:induction false} SliceAcross(a: seq<Prot>, b: seq<Prot>, i: nat)
    requires i < |b|
    ensures (a + b)[..|a| + i] + (a + b)[|a| + i + 1..] == a + (b[..i] + b[i + 1..])
  {
  }

  lemma {:induction false} QueueAdvance(installed: seq<Prot>, pending: seq<Prot>, returned: seq<Prot>, key: nat,
                                        next: nat)
    requires Queue(installed, pending, returned, key, next) && pending != []
    ensures Queue(installed, pending[1..], returned + [pending[0]], key, next)
  {
    assert returned + [pending[0]] + pending[1..] == returned + pending;
  }

  lemma {:induction false} QueueLater(installed: seq<Prot>, pending: seq<Prot>, returned: seq<Prot>, key: nat,
                                      next: nat, next': nat)
    requires Queue(installed, pending, returned, key, next) && next <= next'
    ensures Queue(installed, pending, returned, key, next')
  {
    hide Ascending;
  }

  lemma {:induction false} CursorFacts(db: Database, key: nat)
    requires Ok(db) && key in db.notifies
    ensures var ps := Protocols(db.entries, db.notifies[key].guid);
      && key < db.next && On(ps, db.notifies[key].position) && Ascending(ps) && NoDup(ps)
      && (forall p :: p in ps ==> p.guid == db.notifies[key].guid && p.id < db.next)
  {
    AscendingNoDup(Protocols(db.entries, db.notifies[key].guid));
    hide Protocols, Records, Ascending, NoDup, HandlesOk, Held;
  }

  /** What an install does to the lists of a GUID. */
  lemma {:induction false} InstallLists(db: Database, handle: Option<nat>, g: Guid, iface: int, h: Guid)
    ensures var r := Install(db, handle, g, iface);
      && r.0.notifies == db.notifies && db.next <= r.0.next && (r.1 == Success ==> r.2.Some?)
      && Protocols(r.0.entries, h) ==
        Protocols(db.entries, h) + (if r.1 == Success && h == g then [r.2.value] else [])
      && (r.1 == Success ==> r.2.value.id == db.next + 1 && r.0.next == db.next + 2 && r.2.value.guid == g)
  {
    assert Protocols(db.entries, h) + [] == Protocols(db.entries, h);
    var es := WithEntry(db.entries, g);
    hide Protocols, Records, WithEntry, Put, Lookup;
    WithEntryLists(db.entries, g);
    if Install(db, handle, g, iface).1 == Success {
      InstallParts(db, handle, g, iface);
      PutLists(es, g, Protocols(es, g) + [Install(db, handle, g, iface).2.value], Records(es, g));
      hide Install;
    }
  }

  /** Installing an interface puts it at the end of every queue of its GUID. */
  lemma {:induction false} PendingInstall(db: Database, handle: Option<nat>, g: Guid, iface: int, key: nat)
    requires Ok(db) && key in db.notifies
    ensures key in Install(db, handle, g, iface).0.notifies
    ensures var r := Install(db, handle, g, iface);
      Pending(r.0, key) ==
        Pending(db, key) + if r.1 == Success && db.notifies[key].guid == g then [r.2.value] else []
  {
    hide Ok, Install, Protocols, After, NoDup, Ascending;
    InstallLists(db, handle, g, iface, db.notifies[key].guid);
    CursorFacts(db, key);
    var r, ps, position :=
      Install(db, handle, g, iface), Protocols(db.entries, db.notifies[key].guid), db.notifies[key].position;
    assert Pending(r.0, key) == After(Protocols(r.0.entries, db.notifies[key].guid), position);
    assert Pending(db, key) == After(ps, position);
    hide *;
    if r.1 == Success && db.notifies[key].guid == g {
      AppendNoDup(ps, r.2.value, db.next);
      AfterInstall(ps, position, r.2.value);
    } else {
      assert ps + [] == ps && After(ps, position) + [] == After(ps, position);
    }
  }

  lemma {:induction false} AppendNoDup(ps: seq<Prot>, p: Prot, next: nat)
    requires NoDup(ps) && (forall q :: q in ps ==> q.id < next) && next < p.id
    ensures NoDup(ps + [p])
  {
    assert forall i :: 0 <= i < |ps| ==> ps[i] in ps;
  }

  lemma {:induction false} RemoveLists(db: Database, h: nat, p: Prot, key: nat)
    requires Ok(db) && key in db.notifies && Held(db.handles, h, p)
    ensures Find(db.entries, p.guid) < |db.entries| && p in Protocols(db.entries, p.guid)
    ensures var r, g := Remove(db, h, p), db.notifies[key].guid;
      && key in r.notifies && r.notifies[key] == BackUp(db.notifies[key], Protocols(db.entries, p.guid), p)
      && Protocols(r.entries, g) == Without(Protocols(db.entries, g), p) && r.next == db.next
  {
    var g := db.notifies[key].guid;
    HeldFacts(db, h, p);
    PutLists(db.entries, p.guid, Without(Protocols(db.entries, p.guid), p), Records(db.entries, p.guid));
    assert g != p.guid ==> p !in Protocols(db.entries, g);
    hide Ok, Protocols, Records, Without, Detach, BackUp, Held, Put, EntriesOk, NotifiesOk, Agree, HandlesOk, NoDup,
      Find;
  }

  /** Uninstalling one takes it out of every queue it is still in, and out of no other. */
  lemma {:induction false} PendingRemove(db: Database, h: nat, p: Prot, key: nat)
    requires Ok(db) && key in db.notifies && Held(db.handles, h, p)
    ensures Find(db.entries, p.guid) < |db.entries| && key in Remove(db, h, p).notifies
    ensures Pending(Remove(db, h, p), key) == Without(Pending(db, key), p)
  {
    RemoveLists(db, h, p, key);
    CursorFacts(db, key);
    var n := db.notifies[key];
    var ps := Protocols(db.entries, n.guid);
    hide Ok, Protocols, Remove, Without, After, Previous, NoDup, Ascending, IndexOf, Held, Find;
    if n.guid == p.guid {
      AfterRemove(ps, n.position, p);
    } else {
      AfterMembers(ps, n.position);
      assert p !in ps;
    }
  }

  ghost predicate SameProtocols(es: seq<ProtocolEntry>, fs: seq<ProtocolEntry>) {
    forall g :: Protocols(fs, g) == Protocols(es, g)
  }

  /** A new registration has nothing to return. */
  lemma {:induction false} PendingRegistered(db: Database, g: Guid, callback: nat)
    requires Ok(db) && Register(db, g, callback).1 !in db.notifies
    ensures var r := Register(db, g, callback);
      r.1 == db.next && r.1 in r.0.notifies && r.0.notifies[r.1].guid == g && r.0.notifies[r.1].callback == callback &&
      Pending(r.0, r.1) == []
  {
    RegisterFacts(db, g, callback);
    AscendingNoDup(Protocols(db.entries, g));
    hide Ok, Register, Protocols, After, LastOf, NoDup, Ascending;
    AfterRegister(Protocols(db.entries, g));
  }

  /** No other registration notices. */
  lemma {:induction false} PendingRegister(db: Database, g: Guid, callback: nat, key: nat)
    requires Ok(db) && key in db.notifies
    ensures var r := Register(db, g, callback).0;
      key in r.notifies && r.notifies[key] == db.notifies[key] && Pending(r, key) == Pending(db, key) &&
      SameProtocols(db.entries, r.entries) && db.next <= r.next
  {
    hide Ok, Register, Protocols, After, LastOf, NoDup, Ascending;
    RegisterFacts(db, g, callback);
    assert key < db.next by {
      CursorFacts(db, key);
    }
    var r := Register(db, g, callback);
    assert r.0.notifies[key] == db.notifies[key];
    assert Protocols(r.0.entries, db.notifies[key].guid) == Protocols(db.entries, db.notifies[key].guid);
  }

  lemma {:induction false} RegisterFacts(db: Database, g: Guid, callback: nat)
    requires Ok(db)
    ensures var r := Register(db, g, callback);
      && SameProtocols(db.entries, r.0.entries) && db.next <= r.0.next
      && (r.1 in db.notifies ==>
            r.0.notifies == db.notifies && db.notifies[r.1].guid == g && db.notifies[r.1].callback == callback)
      && (r.1 !in db.notifies ==> r.1 == db.next)
      && (r.1 !in db.notifies ==>
            r.0.notifies == db.notifies[r.1 := ProtocolNotify(g, callback, LastOf(Protocols(db.entries, g)))])
  {
    var es := WithEntry(db.entries, g);
    RecordFacts(db, g);
    hide Ok, Protocols, Records, NoDup, WithEntry, WithCallback, LastOf, Put, Find, Register, SameProtocols;
    WithEntryLists(db.entries, g);
    if WithCallback(db.notifies, Records(es, g), callback).None? {
      RegisterNew(db, g, callback);
    } else {
      RegisterOld(db, g, callback);
    }
  }

  lemma {:induction false} RecordFacts(db: Database, g: Guid)
    requires Ok(db)
    ensures forall k :: k in Records(db.entries, g) ==> k in db.notifies && db.notifies[k].guid == g
    ensures forall k :: k in db.notifies ==> k < db.next
  {
    hide Records, Protocols, HandlesOk, Agree, EntriesOk, Ascending;
  }

  lemma {:induction false} RegisterOld(db: Database, g: Guid, callback: nat)
    requires var es := WithEntry(db.entries, g); WithCallback(db.notifies, Records(es, g), callback).Some?
    ensures var es := WithEntry(db.entries, g);
      && Register(db, g, callback) == (db.(entries := es), WithCallback(db.notifies, Records(es, g), callback).value)
      && SameProtocols(db.entries, es)
  {
    hide Protocols, Records, WithEntry, WithCallback, LastOf, Put, Find;
    WithEntryLists(db.entries, g);
  }

  lemma {:induction false} RegisterNew(db: Database, g: Guid, callback: nat)
    requires var es := WithEntry(db.entries, g); WithCallback(db.notifies, Records(es, g), callback).None?
    ensures var r := Register(db, g, callback);
      && SameProtocols(db.entries, r.0.entries) && r.0.next == db.next + 1 && r.1 == db.next
      && r.0.notifies == db.notifies[db.next := ProtocolNotify(g, callback, LastOf(Protocols(db.entries, g)))]
  {
    var es := WithEntry(db.entries, g);
    hide Protocols, Records, WithEntry, WithCallback, LastOf, Put, Find;
    WithEntryLists(db.entries, g);
    PutLists(es, g, Protocols(es, g), Records(es, g) + [db.next]);
  }

  lemma {:induction false} PendingUnregister(db: Database, g: Guid, gone: nat, key: nat)
    requires key in db.notifies && key in Unregister(db, g, gone).0.notifies
    ensures var r := Unregister(db, g, gone).0;
      && r.notifies[key] == db.notifies[key] && r.next == db.next
      && SameProtocols(db.entries, r.entries)
      && Pending(r, key) == Pending(db, key)
  {
    hide Protocols, Records, After, Without, Put, Find;
    if gone in Records(db.entries, g) {
      assert Find(db.entries, g) < |db.entries| by {
        RecordsFound(db.entries, g, gone);
      }
      PutLists(db.entries, g, Protocols(db.entries, g), Without(Records(db.entries, g), gone));
    }
  }

  lemma {:induction false} RecordsFound(es: seq<ProtocolEntry>, g: Guid, k: nat)
    requires k in Records(es, g)
    ensures Find(es, g) < |es|
  {
  }

  /** A lookup takes the oldest pending interface, if there is one, and touches no other queue. */
  lemma {:induction false} PendingAdvance(db: Database, k: nat, key: nat)
    requires Ok(db) && k in db.notifies && key in db.notifies
    ensures var r, pending := Advance(db, k), Pending(db, key);
      && r.0.entries == db.entries && r.0.next == db.next
      && key in r.0.notifies && r.0.notifies[key].guid == db.notifies[key].guid
      && (k != key ==> Pending(r.0, key) == pending)
      && (k == key && pending == [] ==> Pending(r.0, key) == [] && r.1.None?)
      && (k == key && pending != [] ==> Pending(r.0, key) == pending[1..] && r.1 == Some(pending[0]))
  {
    CursorFacts(db, key);
    hide Ok, Protocols, After, NoDup, Ascending;
    if k == key && Pending(db, key) != [] {
      AfterAdvance(Protocols(db.entries, db.notifies[key].guid), db.notifies[key].position);
    }
  }

  lemma {:induction false} TrackedIs(db: Database, key: nat, returned: seq<Prot>, installed: seq<Prot>,
                                     pending: seq<Prot>)
    requires key in db.notifies
    requires Protocols(db.entries, db.notifies[key].guid) == installed && Pending(db, key) == pending
    requires Queue(installed, pending, returned, key, db.next)
    ensures Tracked(db, key, returned)
  {
  }

  lemma {:induction false} TrackedInstall(db: Database, handle: Option<nat>, guid: Guid, iface: int, key: nat,
                                          returned: seq<Prot>)
    requires Ok(db) && Tracked(db, key, returned)
    ensures Tracked(Install(db, handle, guid, iface).0, key, returned)
  {
    CursorFacts(db, key);
    var g := db.notifies[key].guid;
    var r, ps, pending := Install(db, handle, guid, iface), Protocols(db.entries, g), Pending(db, key);
    assert Queue(ps, pending, returned, key, db.next);
    hide *;
    InstallLists(db, handle, guid, iface, g);
    PendingInstall(db, handle, guid, iface, key);
    if r.1 == Success && guid == g {
      QueueInstall(ps, pending, returned, key, db.next, r.2.value);
      TrackedIs(r.0, key, returned, ps + [r.2.value], pending + [r.2.value]);
    } else {
      assert ps + [] == ps && pending + [] == pending;
      QueueLater(ps, pending, returned, key, db.next, r.0.next);
      TrackedIs(r.0, key, returned, ps, pending);
    }
  }

  lemma {:induction false} TrackedRemove(db: Database, h: nat, p: Prot, key: nat, returned: seq<Prot>)
    requires Ok(db) && Tracked(db, key, returned) && Held(db.handles, h, p)
    ensures Find(db.entries, p.guid) < |db.entries| && Tracked(Remove(db, h, p), key, returned)
  {
    CursorFacts(db, key);
    var ps, pending := Protocols(db.entries, db.notifies[key].guid), Pending(db, key);
    assert Queue(ps, pending, returned, key, db.next) && h in db.handles;
    RemoveLists(db, h, p, key);
    assert BackUp(db.notifies[key], Protocols(db.entries, p.guid), p).guid == db.notifies[key].guid;
    hide *;
    PendingRemove(db, h, p, key);
    QueueRemove(ps, pending, returned, key, db.next, p);
    TrackedIs(Remove(db, h, p), key, returned, Without(ps, p), Without(pending, p));
  }

  lemma {:induction false} TrackedUninstall(db: Database, h: nat, g: Guid, iface: int, key: nat, returned: seq<Prot>)
    requires Ok(db) && Tracked(db, key, returned)
    ensures Tracked(Uninstall(db, h, g, iface).0, key, returned)
  {
    hide Ok, Tracked, Remove, FindInterface;
    if h in db.handles {
      var p := FindInterface(db.entries, db.handles[h].protocols, g, iface);
      if p.Some? {
        TrackedRemove(db, h, p.value, key, returned);
      }
    }
  }

  lemma {:induction false} ReturnsLookup(db: Database, k: nat, key: nat)
    requires k in db.notifies
    ensures Returns(db, LookupCall(k), key) == if k == key && Advance(db, k).1.Some? then [Advance(db, k).1.value]
      else []
  {
    hide Advance;
  }

  lemma {:induction false} TrackedTaken(db: Database, key: nat, returned: seq<Prot>)
    requires Ok(db) && Tracked(db, key, returned) && Pending(db, key) != []
    ensures Tracked(Advance(db, key).0, key, returned + [Pending(db, key)[0]])
  {
    var ps, pending := Protocols(db.entries, db.notifies[key].guid), Pending(db, key);
    assert Queue(ps, pending, returned, key, db.next);
    hide *;
    PendingAdvance(db, key, key);
    QueueAdvance(ps, pending, returned, key, db.next);
    TrackedIs(Advance(db, key).0, key, returned + [pending[0]], ps, pending[1..]);
  }

  lemma {:induction false} TrackedPassed(db: Database, k: nat, key: nat, returned: seq<Prot>)
    requires Ok(db) && Tracked(db, key, returned) && k in db.notifies && (k != key || Pending(db, key) == [])
    ensures Tracked(Advance(db, k).0, key, returned)
  {
    var ps, pending := Protocols(db.entries, db.notifies[key].guid), Pending(db, key);
    assert Queue(ps, pending, returned, key, db.next);
    hide *;
    PendingAdvance(db, k, key);
    TrackedIs(Advance(db, k).0, key, returned, ps, pending);
  }

  lemma {:induction false} TrackedLookup(db: Database, k: nat, key: nat, returned: seq<Prot>)
    requires Ok(db) && Tracked(db, key, returned) && k in db.notifies
    ensures Tracked(Advance(db, k).0, key, returned + Returns(db, LookupCall(k), key))
  {
    assert returned + [] == returned && key in db.notifies;
    hide *;
    ReturnsLookup(db, k, key);
    PendingAdvance(db, k, key);
    if k == key && Pending(db, key) != [] {
      TrackedTaken(db, key, returned);
    } else {
      TrackedPassed(db, k, key, returned);
    }
  }

  lemma {:induction false} TrackedRecords(db: Database, r: Database, key: nat, returned: seq<Prot>)
    requires Tracked(db, key, returned) && key in r.notifies && r.notifies[key] == db.notifies[key]
    requires SameProtocols(db.entries, r.entries) && Pending(r, key) == Pending(db, key) && db.next <= r.next
    ensures Tracked(r, key, returned)
  {
    hide Queue, Protocols, Pending;
    QueueLater(Protocols(db.entries, db.notifies[key].guid), Pending(db, key), returned, key, db.next, r.next);
  }

  lemma {:induction false} TrackedStep(db: Database, c: Call, key: nat, returned: seq<Prot>)
    requires Ok(db) && Tracked(db, key, returned) && key in Step(db, c).0.notifies
    ensures Tracked(Step(db, c).0, key, returned + Returns(db, c, key))
  {
    assert returned + [] == returned && key in db.notifies;
    StepIs(db, c);
    ReturnsNothing(db, c, key);
    hide *;
    match c
    case InstallCall(h, g, i) => TrackedInstall(db, h, g, i, key, returned);
    case UninstallCall(h, g, i) => TrackedUninstall(db, h, g, i, key, returned);
    case RegisterCall(g, f) =>
      PendingRegister(db, g, f, key);
      TrackedRecords(db, Register(db, g, f).0, key, returned);
    case UnregisterCall(g, k) =>
      PendingUnregister(db, g, k, key);
      TrackedRecords(db, Unregister(db, g, k).0, key, returned);
    case LookupCall(k) =>
      if k in db.notifies {
        TrackedLookup(db, k, key, returned);
      }
    case SearchCall(found, request) =>
      TrackedSearch(db, Stamp(db.handles, found, request), key, returned);
  }

  lemma {:induction false} StepIs(db: Database, c: Call)
    ensures c.InstallCall? ==> Step(db, c).0 == Install(db, c.handle, c.guid, c.iface).0
    ensures c.UninstallCall? ==> Step(db, c).0 == Uninstall(db, c.user, c.guid, c.iface).0
    ensures c.RegisterCall? ==> Step(db, c).0 == Register(db, c.guid, c.callback).0
    ensures c.UnregisterCall? ==> Step(db, c).0 == Unregister(db, c.guid, c.key).0
    ensures c.LookupCall? ==> Step(db, c).0 == if c.key in db.notifies then Advance(db, c.key).0 else db
    ensures c.SearchCall? ==> Step(db, c).0 == db.(handles := Stamp(db.handles, c.found, c.request))
  {
    hide Install, Uninstall, Register, Unregister, Advance, Stamp;
  }

  lemma {:induction false} ReturnsNothing(db: Database, c: Call, key: nat)
    ensures !c.LookupCall? || c.key !in db.notifies ==> Returns(db, c, key) == []
  {
    hide Install, Uninstall, Register, Unregister, Advance, Stamp;
  }

  /** Stamps on handles are nothing to a registration. */
  lemma {:induction false} TrackedSearch(db: Database, handles': map<nat, IHandle>, key: nat, returned: seq<Prot>)
    requires Tracked(db, key, returned)
    ensures Tracked(db.(handles := handles'), key, returned)
  {
    hide Queue, Protocols, After;
  }

  lemma {:induction false} KeyStays(db: Database, c: Call, key: nat)
    requires Ok(db) && key in Step(db, c).0.notifies && key < db.next
    ensures key in db.notifies && Step(db, c).0.notifies[key].guid == db.notifies[key].guid
  {
    hide Ok, Put, WithEntry, Protocols, Records, Detach, Without, LastOf, Lookup;
    if c.InstallCall? {
      InstallLists(db, c.handle, c.guid, c.iface, c.guid);
      hide Install;
    } else if c.RegisterCall? {
      RegisterFacts(db, c.guid, c.callback);
      hide Register;
    }
  }

  lemma {:induction false} NextGrows(db: Database, c: Call)
    ensures db.next <= Step(db, c).0.next
  {
    hide Put, WithEntry, Protocols, Records, Detach, Without, LastOf, Lookup;
  }

  lemma {:induction false} RunTracked(db: Database, cs: seq<Call>, key: nat)
    requires Ok(db) && Tracked(db, key, []) && key in db.notifies && key in Run(db, cs).notifies
    ensures Tracked(Run(db, cs), key, Returned(db, cs, key)) && key in db.notifies
    ensures Run(db, cs).notifies[key].guid == db.notifies[key].guid
  {
    hide Ok, Tracked, Step, Returns;
    if cs == [] {
    } else {
      var before, c := cs[..|cs| - 1], cs[|cs| - 1];
      RunKeeps(db, before);
      NextRun(db, before, key);
      KeyStays(Run(db, before), c, key);
      RunTracked(db, before, key);
      TrackedStep(Run(db, before), c, key, Returned(db, before, key));
    }
  }

  lemma {:induction false} NextRun(db: Database, cs: seq<Call>, key: nat)
    requires Ok(db) && key in db.notifies
    ensures key < Run(db, cs).next
  {
    hide Ok, Step;
    if cs == [] {
      CursorFacts(db, key);
    } else {
      NextRun(db, cs[..|cs| - 1], key);
      NextGrows(Run(db, cs[..|cs| - 1]), cs[|cs| - 1]);
    }
  }

  lemma {:induction false} QueueStart(installed: seq<Prot>, key: nat, next: nat)
    requires forall p :: p in installed ==> p.id < key
    ensures Queue(installed, [], [], key, next)
  {
  }

  lemma {:induction false} EntriesBound(db: Database, g: Guid)
    requires Ok(db)
    ensures forall p :: p in Protocols(db.entries, g) ==> p.id < db.next
  {
    hide Protocols, Records, HandlesOk, Agree, NotifiesOk, Ascending, NoDup;
  }

  lemma {:induction false} NewTracked(db: Database, g: Guid, callback: nat)
    requires Ok(db) && Register(db, g, callback).1 !in db.notifies
    ensures Tracked(Register(db, g, callback).0, Register(db, g, callback).1, [])
  {
    hide Ok, Register, Protocols, Pending;
    PendingRegistered(db, g, callback);
    RegisterFacts(db, g, callback);
    EntriesBound(db, g);
    var r, ps := Register(db, g, callback), Protocols(db.entries, g);
    assert Protocols(r.0.entries, g) == ps;
    hide *;
    QueueStart(ps, r.1, r.0.next);
    TrackedIs(r.0, r.1, [], ps, []);
  }

  /** A new registration, followed by any calls that leave it registered, is a queue of the
      interfaces installed after it: its lookups return them in the order of installation, each
      once; and every one still installed has been returned or is still pending, not both. */
  lemma {:induction false} RegistrationIsQueue(db: Database, g: Guid, callback: nat, cs: seq<Call>)
    requires Ok(db) && Register(db, g, callback).1 !in db.notifies
    requires Register(db, g, callback).1 in Run(Register(db, g, callback).0, cs).notifies
    ensures var (start, key) := Register(db, g, callback);
      var end, returned := Run(start, cs), Returned(start, cs, key);
      && end.notifies[key].guid == g
      && Ascending(returned + Pending(end, key))
      && (forall p :: p in returned ==> key < p.id)
      && (forall p :: p in Protocols(end.entries, g) && key < p.id <==>
            p in Pending(end, key) || (p in returned && p in Protocols(end.entries, g)))
  {
    var (start, key) := Register(db, g, callback);
    hide Ok, Register, Run, Pending, Protocols, Tracked;
    RegisterKeeps(db, g, callback);
    PendingRegistered(db, g, callback);
    NewTracked(db, g, callback);
    RunTracked(start, cs, key);
    TrackedMeans(Run(start, cs), key, Returned(start, cs, key));
  }

  lemma {:induction false} TrackedMeans(db: Database, key: nat, returned: seq<Prot>)
    requires Tracked(db, key, returned)
    ensures key in db.notifies
    ensures var ps, pending := Protocols(db.entries, db.notifies[key].guid), Pending(db, key);
      && Ascending(returned + pending) && (forall p :: p in returned ==> key < p.id)
      && (forall p :: p in ps && key < p.id <==> p in pending || (p in returned && p in ps))
  {
    hide Protocols, Pending, Ascending;
  }

  // ---------- locating handles by protocol ----------

  /** Goes through the interfaces and returns each handle not yet stamped with this request,
      stamping it. */
  function Visit(handles: map<nat, IHandle>, ps: seq<Prot>, request: nat): (map<nat, IHandle>, seq<nat>)
    decreases |ps|
  {
    if ps == [] then (handles, [])
    else
      var h := ps[0].handle;
      if h in handles && handles[h].locateRequest != request then
        var r := Visit(handles[h := handles[h].(locateRequest := request)], ps[1..], request);
        (r.0, [h] + r.1)
      else Visit(handles, ps[1..], request)
  }

  function Owners(ps: seq<Prot>): (hs: seq<nat>)
    ensures |hs| == |ps| && forall i :: 0 <= i < |ps| ==> hs[i] == ps[i].handle
  {
    seq(|ps|, i requires 0 <= i < |ps| => ps[i].handle)
  }

  /** Nothing but the stamps. */
  ghost predicate OnlyStamps(handles: map<nat, IHandle>, handles': map<nat, IHandle>, request: nat) {
    && handles'.Keys == handles.Keys
    && forall h :: h in handles ==>
      handles'[h] == handles[h] || handles'[h] == handles[h].(locateRequest := request)
  }

  lemma {:induction false} VisitStamps(handles: map<nat, IHandle>, ps: seq<Prot>, request: nat)
    ensures OnlyStamps(handles, Visit(handles, ps, request).0, request)
    decreases |ps|
  {
    if ps != [] {
      var h := ps[0].handle;
      if h in handles && handles[h].locateRequest != request {
        VisitStamps(handles[h := handles[h].(locateRequest := request)], ps[1..], request);
      } else {
        VisitStamps(handles, ps[1..], request);
      }
    }
  }

  /** A search by protocol leaves its number on exactly the handles it returns. */
  lemma {:induction false} VisitIsSearch(handles: map<nat, IHandle>, ps: seq<Prot>, request: nat)
    ensures var (stamped, found) := Visit(handles, ps, request);
      stamped == Stamp(handles, (set h | h in found), request)
    decreases |ps|
  {
    if ps == [] {
      assert Stamp(handles, {}, request) == handles;
    } else {
      var h := ps[0].handle;
      if h in handles && handles[h].locateRequest != request {
        VisitIsSearch(handles[h := handles[h].(locateRequest := request)], ps[1..], request);
        var rest := Visit(handles[h := handles[h].(locateRequest := request)], ps[1..], request).1;
        assert (set k | k in [h] + rest) == {h} + (set k | k in rest);
      } else {
        VisitIsSearch(handles, ps[1..], request);
      }
    }
  }

  lemma {:induction false} StampsKeep(db: Database, handles': map<nat, IHandle>, request: nat)
    requires Ok(db) && OnlyStamps(db.handles, handles', request)
    ensures Ok(db.(handles := handles'))
  {
    assert forall h, p :: Held(handles', h, p) <==> Held(db.handles, h, p);
    hide Protocols, Records, EntriesOk, NotifiesOk, Held, OnePerGuid, NoDup;
  }

  lemma {:induction false} OthersElsewhere(ps: seq<Prot>)
    requires ps != [] && NoDup(Owners(ps))
    ensures NoDup(Owners(ps[1..])) && forall p :: p in ps[1..] ==> p.handle != ps[0].handle
  {
    assert Owners(ps[1..]) == Owners(ps)[1..];
    forall p | p in ps[1..] ensures p.handle != ps[0].handle {
      var i :| 0 <= i < |ps[1..]| && ps[1..][i] == p;
      assert Owners(ps)[i + 1] != Owners(ps)[0];
    }
  }

  lemma {:induction false} VisitAll(handles: map<nat, IHandle>, ps: seq<Prot>, request: nat)
    requires NoDup(Owners(ps))
    requires forall p :: p in ps ==> p.handle in handles && handles[p.handle].locateRequest != request
    ensures Visit(handles, ps, request).1 == Owners(ps)
    decreases |ps|
  {
    if ps != [] {
      var h := ps[0].handle;
      assert Owners(ps) == [h] + Owners(ps[1..]);
      OthersElsewhere(ps);
      hide Owners, NoDup;
      VisitAll(handles[h := handles[h].(locateRequest := request)], ps[1..], request);
    }
  }

  lemma {:induction false} OwnersOnce(db: Database, g: Guid)
    requires Ok(db)
    ensures NoDup(Owners(Protocols(db.entries, g)))
    ensures forall p :: p in Protocols(db.entries, g) ==> p.handle in db.handles
  {
    var ps := Protocols(db.entries, g);
    assert Ascending(ps) && Agree(db.handles, db.entries);
    hide Protocols, Records, HandlesOk, EntriesOk, NotifiesOk;
    forall p | p in ps ensures p.guid == g && Held(db.handles, p.handle, p) {
    }
    forall i, j | 0 <= i < j < |ps| ensures ps[i].handle != ps[j].handle {
      assert ps[i] in ps && ps[j] in ps;
      if ps[i].handle == ps[j].handle {
        SameInterface(db, ps[i], ps[j]);
      }
    }
  }

  lemma {:induction false} SameInterface(db: Database, p: Prot, q: Prot)
    requires Ok(db) && Held(db.handles, p.handle, p) && Held(db.handles, p.handle, q) && p.guid == q.guid
    ensures p == q
  {
    assert OnePerGuid(db.handles[p.handle].protocols);
  }

  lemma {:induction false} VisitMembers(handles: map<nat, IHandle>, ps: seq<Prot>, request: nat)
    ensures var found := Visit(handles, ps, request).1;
      && NoDup(found)
      && forall h :: h in found <==>
        h in Owners(ps) && h in handles && handles[h].locateRequest != request
    decreases |ps|
  {
    if ps != [] {
      var h := ps[0].handle;
      assert Owners(ps) == [h] + Owners(ps[1..]);
      if h in handles && handles[h].locateRequest != request {
        var stamped := handles[h := handles[h].(locateRequest := request)];
        VisitMembers(stamped, ps[1..], request);
        var rest := Visit(stamped, ps[1..], request).1;
        assert forall i :: 0 <= i < |rest| ==> rest[i] in rest;
      } else {
        VisitMembers(handles, ps[1..], request);
      }
    }
  }

  lemma {:induction false} OwnersPresent(db: Database, g: Guid, h: nat)
    requires Ok(db)
    ensures h in Owners(Protocols(db.entries, g)) <==> Present(db, h, g).Some?
  {
    var ps := Protocols(db.entries, g);
    assert Agree(db.handles, db.entries);
    hide Protocols, Ok;
    if h in Owners(ps) {
      var i :| 0 <= i < |ps| && Owners(ps)[i] == h;
      assert ps[i] in ps && Held(db.handles, h, ps[i]) && ps[i].guid == g;
    }
    if Present(db, h, g).Some? {
      var p := Present(db, h, g).value;
      assert Held(db.handles, h, p) && p in ps;
      var i :| 0 <= i < |ps| && ps[i] == p;
      assert Owners(ps)[i] == h;
    }
  }

  /** A search by protocol returns each handle once, and exactly those that have the protocol and
      do not bear the number of this search already. */
  lemma {:induction false} LocateIsExact(db: Database, g: Guid, request: nat)
    requires Ok(db)
    ensures var found := Visit(db.handles, Protocols(db.entries, g), request).1;
      && NoDup(found)
      && forall h :: h in found <==> Present(db, h, g).Some? && db.handles[h].locateRequest != request
  {
    var ps := Protocols(db.entries, g);
    VisitMembers(db.handles, ps, request);
    hide Protocols, Ok, Visit, NoDup;
    forall h ensures h in Owners(ps) <==> Present(db, h, g).Some? {
      OwnersPresent(db, g, h);
    }
  }

  /** With a number no handle bears, none is left out and they come oldest interface first. */
  lemma {:induction false} LocateInOrder(db: Database, g: Guid, request: nat)
    requires Ok(db) && forall h :: h in db.handles ==> db.handles[h].locateRequest != request
    ensures Visit(db.handles, Protocols(db.entries, g), request).1 == Owners(Protocols(db.entries, g))
  {
    OwnersOnce(db, g);
    VisitAll(db.handles, Protocols(db.entries, g), request);
  }
}
