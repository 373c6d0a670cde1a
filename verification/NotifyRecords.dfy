/** The records of those to be notified: one for each function and GUID, told in the order in which
    they were registered; and the order of the handles. */
module NotifyRecords {
  import opened Wrappers
  import opened ProtocolDatabase

  ghost predicate IsRecord(notifies: map<nat, ProtocolNotify>, k: nat, g: Guid, callback: nat) {
    k in notifies && notifies[k].guid == g && notifies[k].callback == callback
  }

  /** A function registered for a GUID already is not registered again: its record is returned, and
      nothing changes. Otherwise there is a new record, behind the others. */
  lemma {:induction false} RegisterIs(db: Database, g: Guid, callback: nat)
    requires Ok(db)
    ensures var (r, key) := Register(db, g, callback);
      && IsRecord(r.notifies, key, g, callback)
      && (if exists k :: IsRecord(db.notifies, k, g, callback) then
            key in db.notifies && r.notifies == db.notifies && SameLists(db.entries, r.entries)
          else
            && key !in db.notifies && key == db.next
            && Records(r.entries, g) == Records(db.entries, g) + [key]
            && OnlyChanged(db.entries, r.entries, g)
            && r.notifies == db.notifies[key := r.notifies[key]])
      && r.handleList == db.handleList && r.next == (if key in db.notifies then db.next else db.next + 1)
  {
    var es := WithEntry(db.entries, g);
    var found := WithCallback(db.notifies, Records(es, g), callback);
    RecordsAre(db);
    WithEntryLists(db.entries, g);
    Found(db, es, g, callback);
    RegisterCases(db, g, callback);
    hide *;
    if found.None? {
      NewIs(db, es, g, callback);
    } else {
      OldIs(db, es, g, callback, found.value);
    }
  }

  lemma {:induction false} RegisterCases(db: Database, g: Guid, callback: nat)
    ensures var es := WithEntry(db.entries, g);
      var found := WithCallback(db.notifies, Records(es, g), callback);
      && Find(es, g) < |es|
      && Register(db, g, callback) ==
        if found.Some? then (db.(entries := es), found.value) else Registered(db, es, g, callback)
  {
    hide Protocols, Records, WithEntry, WithCallback, LastOf, Put, Find;
  }

  function Registered(db: Database, es: seq<ProtocolEntry>, g: Guid, callback: nat): (Database, nat)
    requires Find(es, g) < |es|
  {
    (db.(entries := Put(es, g, Protocols(es, g), Records(es, g) + [db.next]),
         notifies := db.notifies[db.next := ProtocolNotify(g, callback, LastOf(Protocols(es, g)))],
         next := db.next + 1),
     db.next)
  }

  lemma {:induction false} Found(db: Database, es: seq<ProtocolEntry>, g: Guid, callback: nat)
    requires Records(es, g) == Records(db.entries, g)
    requires forall k :: k in Records(db.entries, g) <==> k in db.notifies && db.notifies[k].guid == g
    ensures var found := WithCallback(db.notifies, Records(es, g), callback);
      && (found.Some? <==> exists k :: IsRecord(db.notifies, k, g, callback))
      && (found.Some? ==> IsRecord(db.notifies, found.value, g, callback))
  {
    hide Records;
    var found := WithCallback(db.notifies, Records(es, g), callback);
    if found.Some? {
      assert IsRecord(db.notifies, found.value, g, callback);
    }
  }

  lemma {:induction false} OldIs(db: Database, es: seq<ProtocolEntry>, g: Guid, callback: nat, key: nat)
    requires SameLists(db.entries, es) && IsRecord(db.notifies, key, g, callback)
    ensures var r := db.(entries := es);
      IsRecord(r.notifies, key, g, callback) && key in db.notifies && r.notifies == db.notifies
        && SameLists(db.entries, r.entries) && r.handleList == db.handleList && r.next == db.next
  {
    hide SameLists;
  }

  lemma {:induction false} NewIs(db: Database, es: seq<ProtocolEntry>, g: Guid, callback: nat)
    requires Find(es, g) < |es| && SameLists(db.entries, es) && forall k :: k in db.notifies ==> k < db.next
    ensures var (r, key) := Registered(db, es, g, callback);
      && IsRecord(r.notifies, key, g, callback) && key !in db.notifies && key == db.next
      && Records(r.entries, g) == Records(db.entries, g) + [key]
      && OnlyChanged(db.entries, r.entries, g)
      && r.notifies == db.notifies[key := r.notifies[key]]
      && r.handleList == db.handleList && r.next == db.next + 1
  {
    hide Protocols, Records, LastOf, Put, Find;
    PutLists(es, g, Protocols(es, g), Records(es, g) + [db.next]);
  }

  lemma {:induction false} RecordsAre(db: Database)
    requires Ok(db)
    ensures forall g, k :: k in Records(db.entries, g) <==> k in db.notifies && db.notifies[k].guid == g
    ensures forall k :: k in db.notifies ==> k < db.next
  {
    hide Records, Protocols, HandlesOk, Agree, EntriesOk;
  }

  /** Unregistering takes away that record of the GUID, and answers EFI_NOT_FOUND when it has none
      such. */
  lemma {:induction false} UnregisterIs(db: Database, g: Guid, key: nat)
    requires Ok(db)
    ensures var (r, status) := Unregister(db, g, key);
      if key in db.notifies && db.notifies[key].guid == g then
        && status == Success && r.notifies == db.notifies - {key}
        && Records(r.entries, g) == Without(Records(db.entries, g), key) && OnlyChanged(db.entries, r.entries, g)
        && r.handleList == db.handleList && r.next == db.next
      else status == NotFound && r == db
  {
    RecordsAre(db);
    UnregisterCases(db, g, key);
    if key in Records(db.entries, g) {
      RecordsFound(db.entries, g, key);
      hide *;
      PutLists(db.entries, g, Protocols(db.entries, g), Without(Records(db.entries, g), key));
    } else {
      hide *;
    }
  }

  lemma {:induction false} UnregisterCases(db: Database, g: Guid, key: nat)
    ensures key in Records(db.entries, g) ==> Find(db.entries, g) < |db.entries|
    ensures Unregister(db, g, key) ==
      if key in Records(db.entries, g) then
        (db.(entries := Put(db.entries, g, Protocols(db.entries, g), Without(Records(db.entries, g), key)),
             notifies := db.notifies - {key}), Success)
      else (db, NotFound)
  {
    hide Protocols, Without;
  }

  // ---------- over a run ----------

  ghost predicate Increasing(s: seq<nat>, next: nat) {
    (forall i :: 0 <= i < |s| ==> s[i] < next) && forall i, j :: 0 <= i < j < |s| ==> s[i] < s[j]
  }

  ghost predicate AllIncreasing(es: seq<ProtocolEntry>, next: nat) {
    forall g :: Increasing(Records(es, g), next)
  }

  ghost predicate OneEach(notifies: map<nat, ProtocolNotify>) {
    forall g, f, j, k :: IsRecord(notifies, j, g, f) && IsRecord(notifies, k, g, f) ==> j == k
  }

  /** No function has two records for a GUID; the records of a GUID are in the order in which they
      were registered, and the handles in that in which they were made. */
  ghost predicate InOrder(db: Database) {
    OneEach(db.notifies) && AllIncreasing(db.entries, db.next) && Increasing(db.handleList, db.next)
  }

  lemma {:induction false} WithoutIncreasing(s: seq<nat>, k: nat, next: nat)
    requires Increasing(s, next)
    ensures Increasing(Without(s, k), next)
  {
    var i, r := IndexOf(s, k), Without(s, k);
    if i < |s| {
      assert forall j :: 0 <= j < |r| ==> r[j] == s[if j < i then j else j + 1];
    }
  }

  lemma {:induction false} AppendIncreasing(s: seq<nat>, k: nat, next: nat, more: nat)
    requires Increasing(s, next) && next <= k < more
    ensures Increasing(s + [k], more) && Increasing(s, more)
  {
  }

  lemma {:induction false} StaysInOrder(db: Database, r: Database, g: Guid)
    requires InOrder(db) && db.next <= r.next && OneEach(r.notifies)
    requires forall k :: k != g ==> Records(r.entries, k) == Records(db.entries, k)
    requires Increasing(Records(r.entries, g), r.next) && Increasing(r.handleList, r.next)
    ensures InOrder(r)
  {
    hide Records, OneEach;
  }

  lemma {:induction false} InstallShape(db: Database, handle: Option<nat>, g: Guid, iface: int)
    ensures var r := Install(db, handle, g, iface).0;
      && r.notifies == db.notifies && db.next <= r.next
      && (r.handleList == db.handleList || (r.handleList == db.handleList + [db.next] && db.next < r.next))
      && forall k :: Records(r.entries, k) == Records(db.entries, k)
  {
    var es, h := WithEntry(db.entries, g), if handle.Some? then handle.value else db.next;
    WithEntryLists(db.entries, g);
    SameRecordsPut(db.entries, es, g, Protocols(es, g) + [Prot(db.next + 1, h, g, iface)]);
    InstallCases(db, handle, g, iface);
    hide *;
  }

  lemma {:induction false} SameRecordsPut(es: seq<ProtocolEntry>, fs: seq<ProtocolEntry>, g: Guid, ps: seq<Prot>)
    requires SameLists(es, fs) && Find(fs, g) < |fs|
    ensures forall k :: Records(fs, k) == Records(es, k)
    ensures forall k :: Records(Put(fs, g, ps, Records(fs, g)), k) == Records(es, k)
  {
    hide Protocols, Records, Put, Find;
    PutLists(fs, g, ps, Records(fs, g));
  }

  lemma {:induction false} InstallCases(db: Database, handle: Option<nat>, g: Guid, iface: int)
    ensures var r, es := Install(db, handle, g, iface).0, WithEntry(db.entries, g);
      var h := if handle.Some? then handle.value else db.next;
      && Find(es, g) < |es| && r.notifies == db.notifies
      && r.entries in
           [db.entries, es, Put(es, g, Protocols(es, g) + [Prot(db.next + 1, h, g, iface)], Records(es, g))]
      && ((r.next == db.next && r.handleList == db.handleList)
          || (r.next == db.next + 2 && r.handleList in [db.handleList, db.handleList + [db.next]]))
  {
    hide Protocols, Records, WithEntry, Put, Find, Lookup;
  }

  lemma {:induction false} InstallInOrder(db: Database, handle: Option<nat>, g: Guid, iface: int)
    requires InOrder(db)
    ensures InOrder(Install(db, handle, g, iface).0)
  {
    InstallShape(db, handle, g, iface);
    var r := Install(db, handle, g, iface).0;
    hide Install, Records, OneEach;
    if r.next > db.next {
      AppendIncreasing(db.handleList, db.next, db.next, r.next);
      AppendIncreasing(Records(db.entries, g), db.next, db.next, r.next);
    }
    StaysInOrder(db, r, g);
  }

  lemma {:induction false} UninstallShape(db: Database, h: nat, g: Guid, iface: int)
    requires Ok(db)
    ensures var r := Uninstall(db, h, g, iface).0;
      && r.next == db.next && (r.handleList == db.handleList || r.handleList == Without(db.handleList, h))
      && (forall k :: Records(r.entries, k) == Records(db.entries, k))
      && forall k, f, c :: IsRecord(r.notifies, k, f, c) <==> IsRecord(db.notifies, k, f, c)
  {
    hide Ok, Put, Protocols, Records, Find, Without, Detach, Remove, FindInterface, Previous;
    if h in db.handles {
      var found := FindInterface(db.entries, db.handles[h].protocols, g, iface);
      if found.Some? {
        var p := found.value;
        HeldFacts(db, h, p);
        PutLists(db.entries, g, Without(Protocols(db.entries, g), p), Records(db.entries, g));
        RemoveParts(db, h, p);
      }
    }
  }

  lemma {:induction false} UninstallInOrder(db: Database, h: nat, g: Guid, iface: int)
    requires Ok(db) && InOrder(db)
    ensures InOrder(Uninstall(db, h, g, iface).0)
  {
    UninstallShape(db, h, g, iface);
    WithoutIncreasing(db.handleList, h, db.next);
    var r := Uninstall(db, h, g, iface).0;
    hide Ok, Uninstall, Records, IsRecord, Without;
    StaysInOrder(db, r, g);
  }

  lemma {:induction false} RegisterInOrder(db: Database, g: Guid, callback: nat)
    requires Ok(db) && InOrder(db)
    ensures InOrder(Register(db, g, callback).0)
  {
    RegisterIs(db, g, callback);
    var (r, key) := Register(db, g, callback);
    hide Ok, Register, Records, Protocols;
    if key in db.notifies {
      StaysInOrder(db, r, g);
    } else {
      AppendIncreasing(Records(db.entries, g), key, db.next, r.next);
      AppendIncreasing(db.handleList, key, db.next, r.next);
      OneEachMore(db.notifies, key, r.notifies[key]);
      StaysInOrder(db, r, g);
    }
  }

  lemma {:induction false} OneEachMore(notifies: map<nat, ProtocolNotify>, key: nat, n: ProtocolNotify)
    requires OneEach(notifies) && key !in notifies && forall k :: !IsRecord(notifies, k, n.guid, n.callback)
    ensures OneEach(notifies[key := n])
  {
    var ns := notifies[key := n];
    forall g, f, j, k | IsRecord(ns, j, g, f) && IsRecord(ns, k, g, f) ensures j == k {
      assert j != key ==> IsRecord(notifies, j, g, f);
      assert k != key ==> IsRecord(notifies, k, g, f);
    }
  }

  lemma {:induction false} UnregisterInOrder(db: Database, g: Guid, key: nat)
    requires Ok(db) && InOrder(db)
    ensures InOrder(Unregister(db, g, key).0)
  {
    UnregisterIs(db, g, key);
    WithoutIncreasing(Records(db.entries, g), key, db.next);
    var r := Unregister(db, g, key).0;
    hide Ok, Unregister, Records, Protocols, Without;
    if r != db {
      OneEachLess(db.notifies, key);
      StaysInOrder(db, r, g);
    }
  }

  lemma {:induction false} OneEachLess(notifies: map<nat, ProtocolNotify>, key: nat)
    requires OneEach(notifies)
    ensures OneEach(notifies - {key})
  {
    forall k, g, f ensures IsRecord(notifies - {key}, k, g, f) ==> IsRecord(notifies, k, g, f) {
    }
  }

  lemma {:induction false} OthersInOrder(db: Database, c: Call)
    requires InOrder(db) && (c.LookupCall? || c.SearchCall?)
    ensures InOrder(Step(db, c).0)
  {
    hide Records, Pending, Increasing;
    var r := Step(db, c).0;
    forall k, g, f ensures IsRecord(r.notifies, k, g, f) <==> IsRecord(db.notifies, k, g, f) {
    }
  }

  lemma {:induction false} RunInOrder(cs: seq<Call>)
    ensures InOrder(Run(EMPTY, cs))
    decreases |cs|
  {
    hide InOrder, Ok, Install, Uninstall, Register, Unregister, Advance;
    if cs == [] {
      EmptyInOrder();
    } else {
      var before, c := cs[..|cs| - 1], cs[|cs| - 1];
      RunInOrder(before);
      RunKeeps(EMPTY, before);
      StepInOrder(Run(EMPTY, before), c);
    }
  }

  lemma {:induction false} EmptyInOrder()
    ensures InOrder(EMPTY)
  {
  }

  lemma {:induction false} StepInOrder(db: Database, c: Call)
    requires Ok(db) && InOrder(db)
    ensures InOrder(Step(db, c).0)
  {
    match c
    case InstallCall(h, g, i) => InstallInOrder(db, h, g, i); hide *;
    case UninstallCall(h, g, i) => UninstallInOrder(db, h, g, i); hide *;
    case RegisterCall(g, f) => RegisterInOrder(db, g, f); hide *;
    case UnregisterCall(g, k) => UnregisterInOrder(db, g, k); hide *;
    case _ => OthersInOrder(db, c); hide *;
  }
}
