/** The protocol database as a table: what each handle has for each GUID, whatever lists that is
    kept in, and what each service does to it. */
module ProtocolTable {
  import opened Wrappers
  import opened ProtocolDatabase

  /** What a handle has for a GUID is the one interface on its list with that GUID, which is the one
      on the GUID's list with that handle. */
  lemma {:induction false} PresentIs(db: Database, h: nat, g: Guid, p: Prot)
    requires Ok(db)
    ensures Present(db, h, g) == Some(p) <==> Held(db.handles, h, p) && p.guid == g
    ensures Present(db, h, g) == Some(p) <==> p in Protocols(db.entries, g) && p.handle == h
  {
    assert Agree(db.handles, db.entries);
    hide Ok, Protocols;
    if Present(db, h, g).Some? {
      var q := Present(db, h, g).value;
      assert Held(db.handles, h, q);
      if Held(db.handles, h, p) && p.guid == g {
        SameInterface(db, p, q);
      }
    }
  }

  /** A handle is valid exactly when it has something. */
  lemma {:induction false} HandleHas(db: Database, h: nat)
    requires Ok(db)
    ensures h in db.handles <==> exists g :: Present(db, h, g).Some?
  {
    if h in db.handles {
      assert db.handles[h].protocols != [];
      var p := db.handles[h].protocols[0];
      PresentIs(db, h, p.guid, p);
    }
  }

  /** Two databases agree on what a handle has for a GUID when the same interfaces are held. */
  lemma {:induction false} SamePresent(db: Database, r: Database, h: nat, g: Guid)
    requires Ok(db) && Ok(r)
    requires forall p: Prot :: p.guid == g ==> (Held(r.handles, h, p) <==> Held(db.handles, h, p))
    ensures Present(r, h, g) == Present(db, h, g)
  {
    hide Ok, Held;
    if Present(db, h, g).Some? {
      PresentIs(db, h, g, Present(db, h, g).value);
      PresentIs(r, h, g, Present(db, h, g).value);
    }
    if Present(r, h, g).Some? {
      PresentIs(db, h, g, Present(r, h, g).value);
      PresentIs(r, h, g, Present(r, h, g).value);
    }
  }

  // ---------- installing ----------

  lemma {:induction false} FreshHandle(db: Database)
    requires Ok(db)
    ensures db.next !in db.handles
  {
  }

  lemma {:induction false} InstallAnswers(db: Database, handle: Option<nat>, g: Guid, iface: int)
    requires Ok(db)
    ensures var (r, status, p) := Install(db, handle, g, iface);
      && (status == Success
          <==> handle.None? || (handle.value in db.handles && Present(db, handle.value, g).None?))
      && (status != Success ==> status == InvalidParameter && p.None? && r.handles == db.handles && r.next == db.next)
      && (status == Success ==>
            && p.Some? && p.value.guid == g && p.value.iface == iface
            && p.value.id == db.next + 1 && r.next == db.next + 2
            && (if handle.Some? then p.value.handle == handle.value else p.value.handle !in db.handles))
  {
    FreshHandle(db);
    hide Ok, WithEntry, Put, Protocols, Records, Lookup;
  }

  /** An install is granted exactly for a new handle, or a valid one that has nothing for the GUID;
      then that handle has the interface for it, and nothing else changes. */
  lemma {:induction false} InstallTable(db: Database, handle: Option<nat>, g: Guid, iface: int, h: nat, k: Guid)
    requires Ok(db)
    ensures var (r, status, p) := Install(db, handle, g, iface);
      && (status == Success ==> p.Some?)
      && Present(r, h, k) == if status == Success && h == p.value.handle && k == g then p else Present(db, h, k)
  {
    InstallAnswers(db, handle, g, iface);
    InstallKeeps(db, handle, g, iface);
    var (r, status, p) := Install(db, handle, g, iface);
    if status == Success {
      FreshHandle(db);
      InstallParts(db, handle, g, iface);
      HeldInstall(db.handles, p.value, r.handles[p.value.handle].locateRequest);
      hide *;
      if h == p.value.handle && k == g {
        PresentIs(r, h, k, p.value);
      } else {
        SamePresent(db, r, h, k);
      }
    } else {
      hide Install, Ok;
    }
  }

  // ---------- uninstalling ----------

  lemma {:induction false} UninstallAnswers(db: Database, h: nat, g: Guid, iface: int)
    requires Ok(db)
    ensures Uninstall(db, h, g, iface).1 ==
      if h !in db.handles then InvalidParameter
      else if Present(db, h, g).Some? && Present(db, h, g).value.iface == iface then Success
      else NotFound
    ensures var (r, status) := Uninstall(db, h, g, iface);
      if status == Success then
        var p := Present(db, h, g).value;
        Held(db.handles, h, p) && p.guid == g && Find(db.entries, g) < |db.entries| && r == Remove(db, h, p)
      else r == db
  {
    if h in db.handles {
      var ps := db.handles[h].protocols;
      var found := FindInterface(db.entries, ps, g, iface);
      if found.Some? {
        PresentIs(db, h, g, found.value);
      }
      if Present(db, h, g).Some? {
        PresentIs(db, h, g, Present(db, h, g).value);
        HeldFacts(db, h, Present(db, h, g).value);
      }
    }
    hide Ok, Lookup, Find, Remove;
  }

  /** An uninstall is granted exactly when the handle has that interface for the GUID; then it has
      nothing for it, and nothing else changes. */
  lemma {:induction false} UninstallTable(db: Database, h: nat, g: Guid, iface: int, h': nat, k: Guid)
    requires Ok(db)
    ensures var (r, status) := Uninstall(db, h, g, iface);
      Present(r, h', k) == if status == Success && h' == h && k == g then None else Present(db, h', k)
  {
    UninstallAnswers(db, h, g, iface);
    UninstallKeeps(db, h, g, iface);
    var (r, status) := Uninstall(db, h, g, iface);
    if status == Success {
      var p := Present(db, h, g).value;
      HeldFacts(db, h, p);
      HeldDetach(db.handles, h, p);
      assert r.handles == Detach(db.handles, h, p) by {
        RemoveParts(db, h, p);
        hide Uninstall, Ok, Put, Detach;
      }
      hide *;
      if h' == h && k == g {
        GonePresent(db, r, h, g, p);
      } else {
        SamePresent(db, r, h', k);
      }
    } else {
      hide Uninstall, Ok;
    }
  }

  lemma {:induction false} GonePresent(db: Database, r: Database, h: nat, g: Guid, p: Prot)
    requires Ok(db) && Ok(r) && Held(db.handles, h, p) && p.guid == g
    requires forall k, q :: Held(r.handles, k, q) <==> Held(db.handles, k, q) && !(k == h && q == p)
    ensures Present(r, h, g).None?
  {
    hide *;
    if Present(r, h, g).Some? {
      var q := Present(r, h, g).value;
      PresentIs(r, h, g, q);
      PresentIs(db, h, g, q);
      PresentIs(db, h, g, p);
    }
  }

  // ---------- the other calls, and whole runs ----------

  /** Nothing else changes the table. */
  lemma {:induction false} OthersTable(db: Database, c: Call, h: nat, g: Guid)
    requires !c.InstallCall? && !c.UninstallCall?
    ensures Present(Step(db, c).0, h, g) == Present(db, h, g) && Step(db, c).0.next >= db.next
  {
    hide Lookup, Protocols, Records, Put, WithEntry, WithCallback, Pending;
  }

  /** c takes away what the handle has. */
  predicate Takes(c: Call, p: Prot) {
    c == UninstallCall(p.handle, p.guid, p.iface)
  }

  lemma {:induction false} StepTable(db: Database, c: Call, p: Prot)
    requires Ok(db) && p.id < db.next
    ensures p.id < Step(db, c).0.next
    ensures Present(Step(db, c).0, p.handle, p.guid) == Some(p)
      <==> Present(db, p.handle, p.guid) == Some(p) && !Takes(c, p)
  {
    match c
    case InstallCall(handle, g, iface) =>
      InstallTable(db, handle, g, iface, p.handle, p.guid);
      InstallAnswers(db, handle, g, iface);
      hide Ok, Install, Present;
    case UninstallCall(h, g, iface) =>
      UninstallTable(db, h, g, iface, p.handle, p.guid);
      UninstallAnswers(db, h, g, iface);
      SameNext(db, h, g, iface);
      hide Ok, Uninstall;
    case _ =>
      OthersTable(db, c, p.handle, p.guid);
      hide Ok, Step, Present;
  }

  lemma {:induction false} SameNext(db: Database, h: nat, g: Guid, iface: int)
    ensures Uninstall(db, h, g, iface).0.next == db.next
  {
  }

  lemma {:induction false} KeptUntil(start: Database, p: Prot, cs: seq<Call>)
    requires Ok(start) && p.id < start.next && Present(start, p.handle, p.guid) == Some(p)
    ensures p.id < Run(start, cs).next
    ensures Present(Run(start, cs), p.handle, p.guid) == Some(p) <==> UninstallCall(p.handle, p.guid, p.iface) !in cs
    decreases |cs|
  {
    hide Ok, Present, Step;
    if cs != [] {
      var before, c := cs[..|cs| - 1], cs[|cs| - 1];
      KeptUntil(start, p, before);
      RunKeeps(start, before);
      StepTable(Run(start, before), c, p);
      assert cs == before + [c];
    }
  }

  /** Over any run from an install on: the handle has that interface for the GUID as long as it is
      not uninstalled, and never again after. */
  lemma {:induction false} InstalledUntil(db: Database, handle: Option<nat>, g: Guid, iface: int, cs: seq<Call>)
    requires Ok(db) && Install(db, handle, g, iface).1 == Success
    ensures var (start, _, p) := Install(db, handle, g, iface);
      && p.Some? && p.value.iface == iface && p.value.guid == g
      && (Present(Run(start, cs), p.value.handle, g) == p <==> UninstallCall(p.value.handle, g, iface) !in cs)
  {
    InstallAnswers(db, handle, g, iface);
    InstallKeeps(db, handle, g, iface);
    var (start, _, p) := Install(db, handle, g, iface);
    InstallTable(db, handle, g, iface, p.value.handle, g);
    hide Install, Ok, Present, Run;
    KeptUntil(start, p.value, cs);
  }
}
