/** The handle, notification and locate services as they are written, over lists that are
    searched and changed in place, proved to do what ProtocolDatabase says. */
module ProtocolServices {
  import opened Machine
  import opened Sequences
  import opened Wrappers
  import opened ProtocolDatabase

  datatype SearchType = AllHandles | ByRegisterNotify | ByProtocol | OtherSearch

  /** A call of a notification function. */
  datatype Notification = Notification(callback: nat, guid: Guid, iface: int, handle: nat)

  /** The calls made to announce an interface to some records. */
  function Notifications(notifies: map<nat, ProtocolNotify>, ks: seq<nat>, p: Prot): seq<Notification> {
    if ks == [] then []
    else
      var k := ks[|ks| - 1];
      Notifications(notifies, ks[..|ks| - 1], p) +
      if k in notifies then [Notification(notifies[k].callback, p.guid, p.iface, p.handle)] else []
  }

  lemma {:induction false} NotificationsStep(notifies: map<nat, ProtocolNotify>, ks: seq<nat>, i: nat, p: Prot)
    requires i < |ks| && ks[i] in notifies
    ensures Notifications(notifies, ks[..i + 1], p) ==
      Notifications(notifies, ks[..i], p) + [Notification(notifies[ks[i]].callback, p.guid, p.iface, p.handle)]
  {
    assert ks[..i + 1][..i] == ks[..i];
  }

  /** One call for each record, in the order they were registered. */
  lemma {:induction false} NotificationsExact(notifies: map<nat, ProtocolNotify>, ks: seq<nat>, p: Prot)
    requires forall i :: 0 <= i < |ks| ==> ks[i] in notifies
    ensures |Notifications(notifies, ks, p)| == |ks|
    ensures forall i :: 0 <= i < |ks| ==>
      Notifications(notifies, ks, p)[i] == Notification(notifies[ks[i]].callback, p.guid, p.iface, p.handle)
  {
    if ks != [] {
      NotificationsExact(notifies, ks[..|ks| - 1], p);
    }
  }

  const HANDLE_SIZE: nat := 8

  class Services {
    var gHandleList: seq<nat>
    var handles: map<nat, IHandle>
    var mProtocolDatabase: seq<ProtocolEntry>
    var notifies: map<nat, ProtocolNotify>
    var next: nat
    var mEfiLocateHandleRequest: nat
    /** Every notification call made, in order. */
    var notified: seq<Notification>
    /** How many searches have been made. */
    ghost var requests: nat

    ghost function State(): Database
      reads this`gHandleList, this`handles, this`mProtocolDatabase, this`notifies, this`next
    {
      Database(gHandleList, handles, mProtocolDatabase, notifies, next)
    }

    /** Until the request number wraps round, it is larger than every stamp. */
    ghost predicate Valid()
      reads this
    {
      && Ok(State())
      && mEfiLocateHandleRequest < WORD
      && (requests < WORD ==> mEfiLocateHandleRequest == requests && StampsUpTo(handles, requests))
    }

    constructor ()
      ensures Valid() && State() == EMPTY && requests == 0 && notified == []
    {
      gHandleList, handles, mProtocolDatabase, notifies, next := [], map[], [], map[], 0;
      mEfiLocateHandleRequest, requests, notified := 0, 0, [];
    }

    /** The entry's place in the list; the length of the list when there is none. */
    method SearchEntries(guid: Guid) returns (i: nat)
      ensures i == Find(mProtocolDatabase, guid)
    {
      hide Find;
      i := 0;
      while i < |mProtocolDatabase|
        invariant i <= |mProtocolDatabase|
        invariant forall j :: 0 <= j < i ==> mProtocolDatabase[j].guid != guid
      {
        if mProtocolDatabase[i].guid == guid {
          FindIs(mProtocolDatabase, guid, i);
          return;
        }
        i := i + 1;
      }
    }

    method MmFindProtocolEntry(guid: Guid, create: bool) returns (i: nat)
      modifies this`mProtocolDatabase
      ensures mProtocolDatabase == if create then WithEntry(old(mProtocolDatabase), guid) else old(mProtocolDatabase)
      ensures i == Find(mProtocolDatabase, guid)
    {
      hide Find;
      i := SearchEntries(guid);
      if i == |mProtocolDatabase| && create {
        mProtocolDatabase := mProtocolDatabase + [ProtocolEntry(guid, [], [])];
        FindIs(mProtocolDatabase, guid, i);
      }
    }

    method MmFindProtocolInterface(handle: nat, guid: Guid, iface: int) returns (prot: Option<Prot>)
      requires handle in handles
      ensures prot == FindInterface(mProtocolDatabase, handles[handle].protocols, guid, iface)
    {
      hide Find;
      var entry := SearchEntries(guid);
      prot := None;
      if entry < |mProtocolDatabase| {
        var ps := handles[handle].protocols;
        var i := 0;
        while i < |ps|
          invariant i <= |ps|
          invariant FindInterface(mProtocolDatabase, ps, guid, iface) ==
            FindInterface(mProtocolDatabase, ps[i..], guid, iface)
        {
          if ps[i].iface == iface && ps[i].guid == guid {
            return Some(ps[i]);
          }
          i := i + 1;
        }
      }
    }

    method MmGetProtocolInterface(handle: nat, guid: Guid) returns (prot: Option<Prot>)
      ensures prot == Present(State(), handle, guid)
    {
      if handle !in handles {
        return None;
      }
      var ps := handles[handle].protocols;
      var i := 0;
      while i < |ps|
        invariant i <= |ps| && Lookup(ps, guid) == Lookup(ps[i..], guid)
      {
        if ps[i].guid == guid {
          return Some(ps[i]);
        }
        i := i + 1;
      }
      return None;
    }

    method MmHandleProtocol(handle: nat, guid: Guid) returns (status: Status, iface: Option<int>)
      ensures status == if handle !in handles then InvalidParameter
                        else if Present(State(), handle, guid).None? then Unsupported else Success
      ensures iface == if status == Success then Some(Present(State(), handle, guid).value.iface) else None
    {
      if handle !in handles {
        return InvalidParameter, None;
      }
      var prot := MmGetProtocolInterface(handle, guid);
      if prot.None? {
        return Unsupported, None;
      }
      return Success, Some(prot.value.iface);
    }

    /** Every record of the GUID is told, oldest first. */
    method MmNotifyProtocol(prot: Prot)
      requires Ok(State())
      modifies this`notified
      ensures notified == old(notified) + Notifications(notifies, Records(mProtocolDatabase, prot.guid), prot)
    {
      hide Ok, Notifications, Records;
      ghost var db := State();
      var ks := MmFindRecords(prot.guid);
      var i := 0;
      assert Notifications(notifies, ks[..0], prot) == [] by {
        NoNotifications(notifies, prot);
      }
      while i < |ks|
        invariant i <= |ks| && State() == db
        invariant notified == old(notified) + Notifications(notifies, ks[..i], prot)
      {
        RecordKnown(db, prot.guid, i);
        NotificationsStep(notifies, ks, i, prot);
        notified := notified + [Notification(notifies[ks[i]].callback, prot.guid, prot.iface, prot.handle)];
        i := i + 1;
      }
      assert ks[..i] == ks;
    }

    method MmFindRecords(guid: Guid) returns (ks: seq<nat>)
      ensures ks == Records(mProtocolDatabase, guid)
    {
      hide Find;
      var i := SearchEntries(guid);
      ks := if i < |mProtocolDatabase| then mProtocolDatabase[i].notify else [];
    }

    lemma {:induction false} ValidMeans()
      requires Valid()
      ensures Ok(State()) && mEfiLocateHandleRequest < WORD
      ensures requests < WORD ==> mEfiLocateHandleRequest == requests && StampsUpTo(State().handles, requests)
    {
    }

    lemma {:induction false} ValidIs()
      requires Ok(State()) && mEfiLocateHandleRequest < WORD
      requires requests < WORD ==> mEfiLocateHandleRequest == requests && StampsUpTo(State().handles, requests)
      ensures Valid()
    {
    }

    /** native tells that the interface type is EFI_NATIVE_INTERFACE. */
    method MmInstallProtocolInterfaceNotify(user: Option<nat>, guid: Guid, native: bool, iface: int, notify: bool)
      returns (status: Status, handle: Option<nat>)
      requires Valid()
      modifies this`gHandleList, this`handles, this`mProtocolDatabase, this`next, this`notified
      ensures Valid()
      ensures State() == if native then Install(old(State()), user, guid, iface).0 else old(State())
      ensures status == if native then Install(old(State()), user, guid, iface).1 else InvalidParameter
      ensures handle == if status == Success then Some(Install(old(State()), user, guid, iface).2.value.handle)
        else user
      ensures notified == old(notified) + if status == Success && notify
        then Notifications(notifies, Records(mProtocolDatabase, guid),
                           Install(old(State()), user, guid, iface).2.value) else []
    {
      hide *;
      ValidMeans();
      ghost var db := State();
      InstallKeeps(db, user, guid, iface);
      InstallStamps(db, user, guid, iface, requests);
      InstalledGuid(db, user, guid, iface);
      handle := user;
      if !native {
        ValidIs();
        return InvalidParameter, handle;
      }
      var prot;
      status, prot := InstallInterface(user, guid, iface);
      if status == Success {
        handle := Some(prot.value.handle);
        if notify {
          MmNotifyProtocol(prot.value);
        }
      }
      ValidIs();
    }

    /** The part that changes the lists. */
    method InstallInterface(user: Option<nat>, guid: Guid, iface: int) returns (status: Status, prot: Option<Prot>)
      modifies this`gHandleList, this`handles, this`mProtocolDatabase, this`next
      ensures (State(), status, prot) == Install(old(State()), user, guid, iface)
    {
      ghost var db := State();
      hide Find, Lookup, WithEntry, Install, Present;
      if user.Some? {
        var existing, _ := MmHandleProtocol(user.value, guid);
        if existing == Success {
          InstallRefused(db, user, guid, iface);
          return InvalidParameter, None;
        }
      }
      var entry := MmFindProtocolEntry(guid, true);
      if user.Some? && user.value !in handles {
        InstallUnknown(db, user, guid, iface);
        return InvalidParameter, None;
      }
      InstallAccepted(db, user, guid, iface);
      var h := if user.Some? then user.value else next;
      if user.None? {
        handles := handles[h := IHandle([], 0)];
        gHandleList := gHandleList + [h];
      }
      var p := Prot(next + 1, h, guid, iface);
      next := next + 2;
      handles := handles[h := handles[h].(protocols := [p] + handles[h].protocols)];
      LinkByProtocol(entry, p);
      ghost var was := if user.Some? then db.handles[h] else IHandle([], 0);
      assert handles == db.handles[h := was.(protocols := [p] + was.protocols)];
      return Success, Some(p);
    }

    /** The interface goes to the tail of its GUID's list. */
    method LinkByProtocol(entry: nat, prot: Prot)
      requires entry == Find(mProtocolDatabase, prot.guid) && entry < |mProtocolDatabase|
      modifies this`mProtocolDatabase
      ensures mProtocolDatabase == Put(old(mProtocolDatabase), prot.guid,
        Protocols(old(mProtocolDatabase), prot.guid) + [prot], Records(old(mProtocolDatabase), prot.guid))
    {
      var e := mProtocolDatabase[entry];
      mProtocolDatabase := mProtocolDatabase[entry := ProtocolEntry(prot.guid, e.protocols + [prot], e.notify)];
    }

    /** Sets back the cursors that are on the interface, then takes it off its GUID's list. */
    method MmRemoveInterfaceFromProtocol(handle: nat, guid: Guid, iface: int) returns (prot: Option<Prot>)
      requires Ok(State()) && handle in handles
      modifies this`mProtocolDatabase, this`notifies
      ensures prot == FindInterface(old(mProtocolDatabase), handles[handle].protocols, guid, iface)
      ensures prot.None? ==> State() == old(State())
      ensures prot.Some? ==> Find(old(mProtocolDatabase), guid) < |mProtocolDatabase|
      ensures prot.Some? ==>
        mProtocolDatabase ==
          Put(old(mProtocolDatabase), guid, Without(Protocols(old(mProtocolDatabase), guid), prot.value),
                                 Records(old(mProtocolDatabase), guid))
      ensures prot.Some? ==>
        notifies == AllBackedUp(old(notifies), Protocols(old(mProtocolDatabase), guid), prot.value)
    {
      ghost var db := State();
      hide Ok, FindInterface, Without, Previous;
      prot := MmFindProtocolInterface(handle, guid, iface);
      if prot.Some? {
        var entry := MmFindProtocolEntry(guid, false);
        var e := mProtocolDatabase[entry];
        BackUpCursors(e.protocols, e.notify, prot.value);
        CursorsElsewhere(db, handle, prot.value, notifies);
        mProtocolDatabase :=
          mProtocolDatabase[entry := ProtocolEntry(guid, Without(e.protocols, prot.value), e.notify)];
      }
    }

    /** The loop over the records of the interface's GUID. */
    method BackUpCursors(ps: seq<Prot>, ks: seq<nat>, p: Prot)
      modifies this`notifies
      ensures notifies == BackedUp(old(notifies), ks, ps, p)
    {
      hide BackUp;
      var i := 0;
      assert notifies == BackedUp(old(notifies), ks[..0], ps, p) by {
        BackedUpNone(notifies, ps, p);
      }
      while i < |ks|
        invariant i <= |ks| && notifies == BackedUp(old(notifies), ks[..i], ps, p)
      {
        if ks[i] in notifies && notifies[ks[i]].position == Some(p) {
          notifies := notifies[ks[i] := notifies[ks[i]].(position := Previous(ps, p))];
        }
        BackedUpStep(old(notifies), ks, i, ps, p);
        i := i + 1;
      }
      assert ks[..i] == ks;
    }

    method MmUninstallProtocolInterface(handle: nat, guid: Guid, iface: int) returns (status: Status)
      requires Valid()
      modifies this`gHandleList, this`handles, this`mProtocolDatabase, this`notifies
      ensures Valid()
      ensures (State(), status) == Uninstall(old(State()), handle, guid, iface)
    {
      hide *;
      ValidMeans();
      UninstallKeeps(State(), handle, guid, iface);
      UninstallStamps(State(), handle, guid, iface, requests);
      status := UninstallInterface(handle, guid, iface);
      ValidIs();
    }

    method UninstallInterface(handle: nat, guid: Guid, iface: int) returns (status: Status)
      requires Ok(State())
      modifies this`gHandleList, this`handles, this`mProtocolDatabase, this`notifies
      ensures (State(), status) == Uninstall(old(State()), handle, guid, iface)
    {
      ghost var db := State();
      hide Ok, Uninstall, FindInterface, Put, Without, Protocols, Records, AllBackedUp, Find;
      if handle !in handles {
        UninstallRefused(db, handle, guid, iface);
        return InvalidParameter;
      }
      var prot := MmFindProtocolInterface(handle, guid, iface);
      if prot.None? {
        UninstallRefused(db, handle, guid, iface);
        return NotFound;
      }
      UninstallAccepted(db, handle, guid, iface);
      prot := MmRemoveInterfaceFromProtocol(handle, guid, iface);
      RemoveFromHandle(handle, prot.value);
      return Success;
    }

    /** Takes the interface off its handle's list, and frees the handle if that was the last. */
    method RemoveFromHandle(handle: nat, prot: Prot)
      requires handle in handles
      modifies this`gHandleList, this`handles
      ensures handles == Detach(old(handles), handle, prot)
      ensures gHandleList == if handle in handles then old(gHandleList) else Without(old(gHandleList), handle)
    {
      var rest := Without(handles[handle].protocols, prot);
      handles := handles[handle := handles[handle].(protocols := rest)];
      if rest == [] {
        gHandleList := Without(gHandleList, handle);
        handles := handles - {handle};
      }
    }

    /** With a function: the record there is for it, or a new one. */
    method MmRegisterProtocolNotify(guid: Guid, callback: nat) returns (key: nat)
      requires Valid()
      modifies this`mProtocolDatabase, this`notifies, this`next
      ensures Valid()
      ensures (State(), key) == Register(old(State()), guid, callback)
    {
      hide *;
      ValidMeans();
      RegisterKeeps(State(), guid, callback);
      RegisterHandles(State(), guid, callback);
      key := AddRecord(guid, callback);
      ValidIs();
    }

    method AddRecord(guid: Guid, callback: nat) returns (key: nat)
      modifies this`mProtocolDatabase, this`notifies, this`next
      ensures (State(), key) == Register(old(State()), guid, callback)
    {
      hide WithEntry, WithCallback, Find;
      var entry := MmFindProtocolEntry(guid, true);
      var e := mProtocolDatabase[entry];
      var found := FindRecord(e.notify, callback);
      if found.Some? {
        return found.value;
      }
      key := next;
      notifies := notifies[key := ProtocolNotify(guid, callback, LastOf(e.protocols))];
      next := next + 1;
      mProtocolDatabase := mProtocolDatabase[entry := ProtocolEntry(guid, e.protocols, e.notify + [key])];
    }

    method FindRecord(ks: seq<nat>, callback: nat) returns (key: Option<nat>)
      ensures key == WithCallback(notifies, ks, callback)
    {
      var i := 0;
      while i < |ks|
        invariant i <= |ks|
        invariant WithCallback(notifies, ks, callback) == WithCallback(notifies, ks[i..], callback)
      {
        assert ks[i..][1..] == ks[i + 1..];
        if ks[i] in notifies && notifies[ks[i]].callback == callback {
          return Some(ks[i]);
        }
        i := i + 1;
      }
      return None;
    }

    /** Without a function: the record goes. */
    method MmUnregisterProtocolNotify(guid: Guid, key: nat) returns (status: Status)
      requires Valid()
      modifies this`mProtocolDatabase, this`notifies
      ensures Valid()
      ensures (State(), status) == Unregister(old(State()), guid, key)
    {
      hide *;
      ValidMeans();
      UnregisterKeeps(State(), guid, key);
      UnregisterHandles(State(), guid, key);
      status := RemoveRecord(guid, key);
      ValidIs();
    }

    method RemoveRecord(guid: Guid, key: nat) returns (status: Status)
      modifies this`mProtocolDatabase, this`notifies
      ensures (State(), status) == Unregister(old(State()), guid, key)
    {
      hide Without, Find;
      var entry := MmFindProtocolEntry(guid, false);
      if entry < |mProtocolDatabase| {
        var e := mProtocolDatabase[entry];
        var i := 0;
        while i < |e.notify| && e.notify[i] != key
          invariant i <= |e.notify| && key !in e.notify[..i]
        {
          i := i + 1;
        }
        if i < |e.notify| {
          mProtocolDatabase := mProtocolDatabase[entry := ProtocolEntry(guid, e.protocols, Without(e.notify, key))];
          notifies := notifies - {key};
          return Success;
        }
      }
      return NotFound;
    }

    /** A new request number. */
    method NextRequest()
      requires Valid()
      modifies this`mEfiLocateHandleRequest, this`requests
      ensures Valid() && requests == old(requests) + 1
      ensures requests < WORD ==> forall h :: h in handles ==> handles[h].locateRequest != mEfiLocateHandleRequest
    {
      hide Ok;
      mEfiLocateHandleRequest := if mEfiLocateHandleRequest + 1 == WORD then 0 else mEfiLocateHandleRequest + 1;
      requests := requests + 1;
    }

    predicate Stamped(h: nat)
      reads this`handles, this`mEfiLocateHandleRequest
    {
      h in handles ==> handles[h].locateRequest == mEfiLocateHandleRequest
    }

    /** The next interface whose handle does not bear this request's number; pos is where the
        search goes on. */
    method MmGetNextLocateByProtocol(ps: seq<Prot>, start: nat) returns (found: Option<Prot>, pos: nat)
      requires start <= |ps|
      modifies this`handles
      ensures start <= pos <= |ps| && OnlyStamps(old(handles), handles, mEfiLocateHandleRequest)
      ensures found.Some? ==> start < pos && found == Some(ps[pos - 1]) && !old(Stamped(ps[pos - 1].handle))
      ensures forall j :: start <= j < (if found.Some? then pos - 1 else pos) ==> old(Stamped(ps[j].handle))
      ensures found.None? ==> pos == |ps| && handles == old(handles)
      ensures found.None? ==> Visit(old(handles), ps[start..], mEfiLocateHandleRequest) == (handles, [])
      ensures found.Some? ==>
        var (was, now) := (Visit(old(handles), ps[start..], mEfiLocateHandleRequest),
                           Visit(handles, ps[pos..], mEfiLocateHandleRequest));
        was.0 == now.0 && was.1 == [found.value.handle] + now.1
    {
      hide Visit;
      pos := start;
      while pos < |ps|
        invariant start <= pos <= |ps| && handles == old(handles)
        invariant forall j :: start <= j < pos ==> old(Stamped(ps[j].handle))
        invariant Visit(handles, ps[start..], mEfiLocateHandleRequest) ==
          Visit(handles, ps[pos..], mEfiLocateHandleRequest)
      {
        var h := ps[pos].handle;
        VisitStep(handles, ps[pos..], mEfiLocateHandleRequest);
        assert ps[pos..][1..] == ps[pos + 1..];
        pos := pos + 1;
        if h in handles && handles[h].locateRequest != mEfiLocateHandleRequest {
          handles := handles[h := handles[h].(locateRequest := mEfiLocateHandleRequest)];
          return Some(ps[pos - 1]), pos;
        }
      }
      VisitNone(handles, ps[pos..], mEfiLocateHandleRequest);
      return None, pos;
    }

    /** The next interface of a registration. */
    method MmGetNextLocateByRegisterNotify(key: nat) returns (found: Option<Prot>)
      requires key in notifies
      ensures found == if Pending(State(), key) == [] then None else Some(Pending(State(), key)[0])
    {
      hide Find;
      var n := notifies[key];
      var entry := SearchEntries(n.guid);
      if entry == |mProtocolDatabase| {
        return None;
      }
      var ps := mProtocolDatabase[entry].protocols;
      var link := if n.position.None? then 0 else IndexOf(ps, n.position.value) + 1;
      return if link < |ps| then Some(ps[link]) else None;
    }

    /** Moves the cursor of a registration on. */
    method MoveOn(key: nat, found: Prot)
      requires key in notifies
      modifies this`notifies
      ensures notifies == old(notifies)[key := old(notifies)[key].(position := Some(found))]
    {
      notifies := notifies[key := notifies[key].(position := Some(found))];
    }

    /** With a registration: its next interface, which is then no longer pending. */
    method LocateByRegistration(key: nat) returns (found: Option<Prot>)
      requires Valid() && key in notifies
      modifies this`notifies
      ensures Valid() && (State(), found) == Advance(old(State()), key)
    {
      hide Ok, Advance, Pending, StampsUpTo;
      AdvanceKeeps(State(), key);
      AdvanceIs(State(), key);
      found := MmGetNextLocateByRegisterNotify(key);
      if found.Some? {
        MoveOn(key, found.value);
      }
    }

    /** Without: the oldest interface installed for the GUID. */
    method LocateFirst(guid: Guid) returns (found: Option<Prot>)
      requires Valid()
      modifies this`handles
      ensures Valid() && State() == old(State()).(handles := handles)
      ensures OnlyStamps(old(handles), handles, mEfiLocateHandleRequest)
      ensures (forall h :: h in old(handles) ==> !old(Stamped(h))) ==>
        found == var ps := Protocols(mProtocolDatabase, guid); if ps == [] then None else Some(ps[0])
    {
      StateIs();
      ProtocolsAt(mProtocolDatabase, guid);
      hide *;
      ValidMeans();
      OnlyStampsRefl(handles, mEfiLocateHandleRequest);
      ghost var db := State();
      OwnersOnce(db, guid);
      var entry := SearchEntries(guid);
      if entry == |mProtocolDatabase| {
        return None;
      }
      var ps := mProtocolDatabase[entry].protocols;
      var pos;
      found, pos := MmGetNextLocateByProtocol(ps, 0);
      StampsKeep(db, handles, mEfiLocateHandleRequest);
      StampsBound(db.handles, handles, mEfiLocateHandleRequest, requests);
      StateIs();
      ValidIs();
      assert ps != [] ==> ps[0] in ps;
    }

    lemma {:induction false} StateIs()
      ensures State() == Database(gHandleList, handles, mProtocolDatabase, notifies, next)
    {
    }

    method MmLocateProtocol(guid: Guid, registration: Option<nat>) returns (status: Status, iface: Option<int>)
      requires Valid() && (registration.Some? ==> registration.value in notifies)
      modifies this`handles, this`notifies, this`mEfiLocateHandleRequest, this`requests
      ensures Valid() && requests == old(requests) + 1 && OnlyStamps(old(handles), handles, mEfiLocateHandleRequest)
      ensures status == if iface.Some? then Success else NotFound
      ensures registration.Some? ==>
        var (after, found) := Advance(old(State()), registration.value);
        State() == after && iface == if found.Some? then Some(found.value.iface) else None
      ensures registration.None? ==> State() == old(State()).(handles := handles)
      ensures registration.None? && requests < WORD ==>
        var ps := Protocols(mProtocolDatabase, guid);
        iface == if ps == [] then None else Some(ps[0].iface)
    {
      StateIs();
      hide *;
      NextRequest();
      StateIs();
      OnlyStampsRefl(handles, mEfiLocateHandleRequest);
      NoneStamped();
      var found;
      if registration.None? {
        found := LocateFirst(guid);
      } else {
        found := LocateByRegistration(registration.value);
      }
      StateIs();
      iface := if found.Some? then Some(found.value.iface) else None;
      status := if found.Some? then Success else NotFound;
    }

    lemma {:induction false} NoneStamped()
      ensures (forall h :: h in handles ==> handles[h].locateRequest != mEfiLocateHandleRequest) ==>
        forall h :: h in handles ==> !Stamped(h)
    {
    }

    /** What a search has still to return. */
    ghost function Remaining(how: SearchType, ps: seq<Prot>, key: nat, pos: nat): seq<nat>
      requires how == ByRegisterNotify ==> key in notifies
      reads this
    {
      match how
      case AllHandles => if pos < |gHandleList| then gHandleList[pos..] else []
      case ByRegisterNotify =>
        var pending := Pending(State(), key);
        if pos == 0 && pending != [] then [pending[0].handle] else []
      case ByProtocol => if pos < |ps| then Visit(handles, ps[pos..], mEfiLocateHandleRequest).1 else []
      case OtherSearch => []
    }

    function Bound(how: SearchType, ps: seq<Prot>): nat
      reads this`gHandleList
    {
      match how
      case AllHandles => |gHandleList|
      case ByRegisterNotify => 1
      case ByProtocol => |ps|
      case OtherSearch => 0
    }

    /** One call of the search function of the kind of search. */
    method GetNext(how: SearchType, ps: seq<Prot>, key: nat, pos: nat) returns (handle: Option<nat>, pos': nat)
      requires (how == ByRegisterNotify ==> key in notifies) && pos <= Bound(how, ps)
      modifies this`handles
      ensures OnlyStamps(old(handles), handles, mEfiLocateHandleRequest)
      ensures handle.None? ==> old(Remaining(how, ps, key, pos)) == []
      ensures handle.Some? ==> pos < pos' <= Bound(how, ps)
      ensures handle.Some? ==> old(Remaining(how, ps, key, pos)) == [handle.value] + Remaining(how, ps, key, pos')
    {
      OnlyStampsRefl(handles, mEfiLocateHandleRequest);
      hide Visit, OnlyStamps, Pending;
      handle, pos' := None, pos;
      match how
      case AllHandles =>
        if pos < |gHandleList| {
          handle, pos' := Some(gHandleList[pos]), pos + 1;
          assert gHandleList[pos..] == [gHandleList[pos]] + gHandleList[pos + 1..];
        }
      case ByRegisterNotify =>
        if pos == 0 {
          var found := MmGetNextLocateByRegisterNotify(key);
          if found.Some? {
            handle, pos' := Some(found.value.handle), 1;
            assert [found.value.handle] == [found.value.handle] + [];
          }
        }
      case ByProtocol =>
        var found;
        found, pos' := MmGetNextLocateByProtocol(ps, pos);
        if found.Some? {
          handle := Some(found.value.handle);
          VisitNone(handles, ps[|ps|..], mEfiLocateHandleRequest);
        }
      case OtherSearch =>
    }

    /** The loop that collects the handles, those that fit into the buffer. */
    method Collect(how: SearchType, ps: seq<Prot>, key: nat, bufferSize: nat, buffer: array<nat>)
      returns (resultSize: nat)
      requires (how == ByRegisterNotify ==> key in notifies) && bufferSize <= HANDLE_SIZE * buffer.Length
      modifies this`handles, buffer
      ensures OnlyStamps(old(handles), handles, mEfiLocateHandleRequest)
      ensures resultSize == HANDLE_SIZE * |old(Remaining(how, ps, key, 0))|
      ensures Holds(buffer[..], old(buffer[..]), old(Remaining(how, ps, key, 0)), bufferSize)
    {
      OnlyStampsRefl(handles, mEfiLocateHandleRequest);
      hide OnlyStamps, Remaining, Bound;
      ghost var rest, start, request := Remaining(how, ps, key, 0), handles, mEfiLocateHandleRequest;
      ghost var taken: seq<nat> := [];
      resultSize := 0;
      var resultBuffer := 0;
      var pos, more := 0, true;
      while more
        invariant pos <= Bound(how, ps) && OnlyStamps(start, handles, request)
        invariant rest == if more then Remaining(how, ps, key, pos) else []
        invariant old(Remaining(how, ps, key, 0)) == taken + rest
        invariant resultSize == HANDLE_SIZE * |taken|
        invariant Stored(buffer[..], old(buffer[..]), taken, bufferSize, resultBuffer)
        decreases Bound(how, ps) - pos, more
      {
        ghost var was := handles;
        var handle, pos' := GetNext(how, ps, key, pos);
        OnlyStampsTrans(start, was, handles, request);
        if handle.None? {
          more := false;
        } else {
          rest := Remaining(how, ps, key, pos');
          TakeOne(taken, handle.value, rest);
          StoreOne(buffer[..], old(buffer[..]), taken, bufferSize, resultBuffer, handle.value);
          resultSize := resultSize + HANDLE_SIZE;
          if resultSize <= bufferSize {
            buffer[resultBuffer] := handle.value;
            resultBuffer := resultBuffer + 1;
          }
          taken := taken + [handle.value];
          pos := pos';
        }
      }
    }

    lemma {:induction false} RemainingAll(how: SearchType, ps: seq<Prot>, key: nat)
      requires how == ByRegisterNotify ==> key in notifies
      ensures Remaining(how, ps, key, 0) == Matches(State(), how, ps, key, mEfiLocateHandleRequest)
    {
      VisitNone(handles, [], mEfiLocateHandleRequest);
      hide Visit, Pending;
      assert ps[0..] == ps && gHandleList[0..] == gHandleList;
    }

    /** The search, once its arguments are known to be good. */
    method LocateMatches(how: SearchType, ps: seq<Prot>, key: nat, bufferSize: nat, buffer: array<nat>)
      returns (status: Status, size: nat)
      requires Valid() && bufferSize <= HANDLE_SIZE * buffer.Length
      requires how == ByRegisterNotify ==> key in notifies
      modifies this`handles, this`notifies, this`mEfiLocateHandleRequest, this`requests, buffer
      ensures Valid() && OnlyStamps(old(handles), handles, mEfiLocateHandleRequest) && requests == old(requests) + 1
      ensures requests < WORD ==> forall h :: h in old(handles) ==>
        old(handles)[h].locateRequest != mEfiLocateHandleRequest
      ensures var all := Matches(old(State()), how, ps, key, mEfiLocateHandleRequest);
        && status == Verdict(|all|, bufferSize)
        && size == (if all == [] then bufferSize else HANDLE_SIZE * |all|)
        && Holds(buffer[..], old(buffer[..]), all, bufferSize)
      ensures State() == Moved(old(State()), how, key, status).(handles := handles)
    {
      hide Ok, OnlyStamps, StampsUpTo, Matches, Holds, Visit, Pending, Remaining, Advance, Bound;
      ghost var db := State();
      NextRequest();
      RemainingAll(how, ps, key);
      OnlyStampsRefl(handles, mEfiLocateHandleRequest);
      var resultSize := Collect(how, ps, key, bufferSize, buffer);
      StampsKeep(db, handles, mEfiLocateHandleRequest);
      StampsBound(db.handles, handles, mEfiLocateHandleRequest, requests);
      status, size := Success, bufferSize;
      if resultSize == 0 {
        status := NotFound;
      } else {
        if resultSize > bufferSize {
          status := BufferTooSmall;
        }
        size := resultSize;
        if how == ByRegisterNotify && status == Success {
          AdvanceHandles(db, key, handles);
          var _ := LocateByRegistration(key);
        }
      }
    }

    /** Puts the handles that match into the buffer as far as they fit, and says how large it must
        be for all of them. A registration is moved on only when its handle fits. */
    method MmLocateHandle(how: SearchType, guid: Option<Guid>, key: Option<nat>, bufferSize: nat, buffer: array<nat>)
      returns (status: Status, size: nat)
      requires Valid() && bufferSize <= HANDLE_SIZE * buffer.Length
      requires how == ByRegisterNotify && key.Some? ==> key.value in notifies
      modifies this`handles, this`notifies, this`mEfiLocateHandleRequest, this`requests, buffer
      ensures Valid() && OnlyStamps(old(handles), handles, mEfiLocateHandleRequest)
      ensures old(requests) <= requests <= old(requests) + 1
      ensures status == InvalidParameter
        <==> how == OtherSearch || (how == ByRegisterNotify && key.None?) || (how == ByProtocol && guid.None?)
      ensures status == InvalidParameter <==> BadSearch(how, guid, key)
      ensures BadSearch(how, guid, key) ==> size == bufferSize
      ensures BadSearch(how, guid, key) ==> State() == old(State()) && buffer[..] == old(buffer[..])
      ensures !BadSearch(how, guid, key) ==>
        var all := Listed(old(State()), how, guid, key, mEfiLocateHandleRequest);
        && status == Verdict(|all|, bufferSize)
        && size == (if all == [] then bufferSize else HANDLE_SIZE * |all|)
        && Holds(buffer[..], old(buffer[..]), all, bufferSize)
        && (requests < WORD ==> all == Everything(old(State()), how, guid, key))
        && State() == Moved(old(State()), how, if key.Some? then key.value else 0, status).(handles := handles)
    {
      OnlyStampsRefl(handles, mEfiLocateHandleRequest);
      status, size := InvalidParameter, bufferSize;
      if (how == ByRegisterNotify && key.None?) || how == OtherSearch {
        return;
      }
      var ps: seq<Prot> := [];
      if how == ByProtocol {
        if guid.None? {
          return;
        }
        hide Find;
        var entry := SearchEntries(guid.value);
        if entry == |mProtocolDatabase| {
          VisitNone(handles, [], mEfiLocateHandleRequest);
          NoneHeld(buffer[..], bufferSize);
          return NotFound, size;
        }
        ps := mProtocolDatabase[entry].protocols;
      }
      ghost var db := State();
      status, size := LocateMatches(how, ps, if key.Some? then key.value else 0, bufferSize, buffer);
      hide *;
      ListedIs(db, how, guid, key, ps, mEfiLocateHandleRequest);
    }

    /** A search into a buffer made to measure: it always holds all the handles that match, as
        long as the request number has not wrapped round. */
    method MmLocateHandleBuffer(how: SearchType, guid: Option<Guid>, key: Option<nat>)
      returns (status: Status, numberHandles: nat, buffer: array<nat>)
      requires Valid()
      requires how == ByRegisterNotify && key.Some? ==> key.value in notifies
      modifies this`handles, this`notifies, this`mEfiLocateHandleRequest, this`requests
      ensures Valid() && fresh(buffer) && OnlyHandles(old(handles), handles)
      ensures BadSearch(how, guid, key) ==> status == InvalidParameter && numberHandles == 0 && State() == old(State())
      ensures !BadSearch(how, guid, key) && requests < WORD ==>
        var all := Everything(old(State()), how, guid, key);
        && status == (if all == [] then NotFound else Success)
        && numberHandles == |all| == buffer.Length && buffer[..] == all
        && State() == Moved(old(State()), how, if key.Some? then key.value else 0, status).(handles := handles)
    {
      ghost var db := State();
      buffer := new nat[0];
      numberHandles := 0;
      hide *;
      SameHandles(handles);
      var bufferSize;
      status, bufferSize := MmLocateHandle(how, guid, key, 0, buffer);
      StampsHandles(db.handles, handles, mEfiLocateHandleRequest);
      if !BadSearch(how, guid, key) {
        FirstVerdict(db, handles, how, guid, key, mEfiLocateHandleRequest, status);
      }
      if status != BufferTooSmall {
        return;
      }
      ghost var first := handles;
      status, numberHandles, buffer :=
        FillBuffer(how, guid, key, |Listed(db, how, guid, key, mEfiLocateHandleRequest)|, bufferSize);
      HandlesTwice(db.handles, first, handles);
    }

    /** The second half: a buffer for n handles, and the search again. */
    method FillBuffer(how: SearchType, guid: Option<Guid>, key: Option<nat>, ghost n: nat, bufferSize: nat)
      returns (status: Status, numberHandles: nat, buffer: array<nat>)
      requires Valid() && !BadSearch(how, guid, key) && (how == ByRegisterNotify ==> key.value in notifies)
      requires bufferSize == HANDLE_SIZE * n && n > 0
      modifies this`handles, this`notifies, this`mEfiLocateHandleRequest, this`requests
      ensures Valid() && fresh(buffer) && OnlyHandles(old(handles), handles) && old(requests) <= requests
      ensures requests < WORD && |Everything(old(State()), how, guid, key)| == n ==>
        && status == Success && numberHandles == n == buffer.Length
        && buffer[..] == Everything(old(State()), how, guid, key)
        && State() == Moved(old(State()), how, if key.Some? then key.value else 0, Success).(handles := handles)
    {
      hide Ok, Valid, Listed, Everything, Advance, Moved, Holds, OnlyStamps;
      ghost var db := State();
      SlotsFor(n);
      buffer := new nat[bufferSize / HANDLE_SIZE];
      ghost var empty := buffer[..];
      var size;
      status, size := MmLocateHandle(how, guid, key, bufferSize, buffer);
      StampsHandles(db.handles, handles, mEfiLocateHandleRequest);
      numberHandles := if status == Success then size / HANDLE_SIZE else 0;
      if requests < WORD && |Everything(db, how, guid, key)| == n {
        HoldsAll(buffer[..], empty, Everything(db, how, guid, key));
      }
    }
  }

  lemma {:induction false} SlotsFor(n: nat)
    ensures HANDLE_SIZE * n / HANDLE_SIZE == n
  {
  }

  lemma {:induction false} SameHandles(handles: map<nat, IHandle>)
    ensures OnlyHandles(handles, handles)
  {
  }

  lemma {:induction false} StampsHandles(a: map<nat, IHandle>, b: map<nat, IHandle>, request: nat)
    requires OnlyStamps(a, b, request)
    ensures OnlyHandles(a, b)
  {
  }

  lemma {:induction false} HandlesTwice(a: map<nat, IHandle>, b: map<nat, IHandle>, c: map<nat, IHandle>)
    requires OnlyHandles(a, b) && OnlyHandles(b, c)
    ensures OnlyHandles(a, c)
  {
  }

  /** What a search with no buffer says, and that it leaves as it was. */
  lemma {:induction false} FirstVerdict(db: Database, handles: map<nat, IHandle>, how: SearchType, guid: Option<Guid>,
                                        key: Option<nat>,
                                        request: nat, status: Status)
    requires !BadSearch(how, guid, key) && (how == ByRegisterNotify ==> key.value in db.notifies)
    requires status == Verdict(|Listed(db, how, guid, key, request)|, 0)
    ensures status == if Listed(db, how, guid, key, request) == [] then NotFound else BufferTooSmall
    ensures Everything(db.(handles := handles), how, guid, key) == Everything(db, how, guid, key)
    ensures var k := if key.Some? then key.value else 0;
      && Moved(db, how, k, status) == db
      && (how == ByRegisterNotify ==> k in db.notifies)
      && forall handles', s :: how == ByRegisterNotify && s == Success ==>
        Moved(db.(handles := handles), how, k, s).(handles := handles') == Moved(db, how, k, s).(handles := handles')
  {
    EverythingHandles(db, handles, how, guid, key);
    hide Listed, Everything, Advance;
  }

  predicate BadSearch(how: SearchType, guid: Option<Guid>, key: Option<nat>) {
    how == OtherSearch || (how == ByRegisterNotify && key.None?) || (how == ByProtocol && guid.None?)
  }

  /** The handles that match, ps being the interfaces of the GUID when the search is by protocol. */
  function Matches(db: Database, how: SearchType, ps: seq<Prot>, key: nat, request: nat): seq<nat>
    requires how == ByRegisterNotify ==> key in db.notifies
  {
    match how
    case AllHandles => db.handleList
    case ByRegisterNotify => if Pending(db, key) != [] then [Pending(db, key)[0].handle] else []
    case ByProtocol => Visit(db.handles, ps, request).1
    case OtherSearch => []
  }

  function Listed(db: Database, how: SearchType, guid: Option<Guid>, key: Option<nat>, request: nat): seq<nat>
    requires !BadSearch(how, guid, key) && (how == ByRegisterNotify ==> key.value in db.notifies)
  {
    Matches(db, how, if guid.Some? then Protocols(db.entries, guid.value) else [], if key.Some? then key.value
            else 0, request)
  }

  /** The handles that match, whatever searches were made before. */
  function Everything(db: Database, how: SearchType, guid: Option<Guid>, key: Option<nat>): seq<nat>
    requires !BadSearch(how, guid, key) && (how == ByRegisterNotify ==> key.value in db.notifies)
  {
    match how
    case AllHandles => db.handleList
    case ByRegisterNotify => if Pending(db, key.value) != [] then [Pending(db, key.value)[0].handle] else []
    case ByProtocol => Owners(Protocols(db.entries, guid.value))
    case OtherSearch => []
  }

  /** Each handle once: all there are; or those that have the protocol, oldest interface first; or the
      one whose interface the registration returns next. */
  lemma {:induction false} EverythingIs(db: Database, how: SearchType, guid: Option<Guid>, key: Option<nat>)
    requires Ok(db) && !BadSearch(how, guid, key) && (how == ByRegisterNotify ==> key.value in db.notifies)
    ensures var r := Everything(db, how, guid, key);
      && NoDup(r)
      && (how == AllHandles ==> forall h :: h in r <==> h in db.handles)
      && (how == ByProtocol ==> forall h :: h in r <==> Present(db, h, guid.value).Some?)
      && (how == ByProtocol ==> |r| == |Protocols(db.entries, guid.value)|)
      && (how == ByProtocol ==> forall i :: 0 <= i < |r| ==> r[i] == Protocols(db.entries, guid.value)[i].handle)
      && (how == ByRegisterNotify ==>
            if Pending(db, key.value) == [] then r == [] else r == [Pending(db, key.value)[0].handle])
  {
    if how == ByProtocol {
      OwnersOnce(db, guid.value);
      forall h ensures h in Owners(Protocols(db.entries, guid.value)) <==> Present(db, h, guid.value).Some? {
        OwnersPresent(db, guid.value, h);
      }
    }
    hide Protocols, Present, Pending;
  }

  lemma {:induction false} EverythingHandles(db: Database, handles: map<nat, IHandle>, how: SearchType,
                                             guid: Option<Guid>, key: Option<nat>)
    requires !BadSearch(how, guid, key) && (how == ByRegisterNotify ==> key.value in db.notifies)
    ensures Everything(db.(handles := handles), how, guid, key) == Everything(db, how, guid, key)
    ensures how == ByRegisterNotify ==>
      Advance(db.(handles := handles), key.value).0 == Advance(db, key.value).0.(handles := handles)
  {
    if how == ByRegisterNotify {
      AdvanceHandles(db, key.value, handles);
    }
    hide Protocols, After, Advance;
  }

  /** Only stamps differ. */
  ghost predicate OnlyHandles(handles: map<nat, IHandle>, handles': map<nat, IHandle>) {
    handles'.Keys == handles.Keys && forall h :: h in handles ==> handles'[h].protocols == handles[h].protocols
  }

  lemma {:induction false} HoldsAll(buffer: seq<nat>, was: seq<nat>, all: seq<nat>)
    requires Holds(buffer, was, all, HANDLE_SIZE * |all|) && |buffer| == |all|
    ensures buffer == all
  {
  }

  function Verdict(n: nat, bufferSize: nat): (r: Status)
    ensures r == Success <==> 0 < n && HANDLE_SIZE * n <= bufferSize
    ensures r == NotFound <==> n == 0
    ensures r == BufferTooSmall <==> HANDLE_SIZE * n > bufferSize
  {
    if n == 0 then NotFound else if HANDLE_SIZE * n > bufferSize then BufferTooSmall else Success
  }

  /** A search by registration that succeeds takes the first pending interface. */
  function Moved(db: Database, how: SearchType, key: nat, status: Status): Database
    requires how == ByRegisterNotify && status == Success ==> key in db.notifies
  {
    if how == ByRegisterNotify && status == Success then Advance(db, key).0 else db
  }

  lemma {:induction false} AdvanceHandles(db: Database, key: nat, handles: map<nat, IHandle>)
    requires key in db.notifies
    ensures Advance(db.(handles := handles), key).0 == Advance(db, key).0.(handles := handles)
  {
    hide Protocols, After;
  }

  lemma {:induction false} NoneHeld(buffer: seq<nat>, size: nat)
    ensures Holds(buffer, buffer, [], size)
  {
  }

  lemma {:induction false} ListedIs(db: Database, how: SearchType, guid: Option<Guid>, key: Option<nat>, ps: seq<Prot>,
                                    request: nat)
    requires Ok(db) && !BadSearch(how, guid, key) && (how == ByRegisterNotify ==> key.value in db.notifies)
    requires how == ByProtocol ==> ps == Protocols(db.entries, guid.value)
    ensures Listed(db, how, guid, key, request) == Matches(db, how, ps, if key.Some? then key.value else 0, request)
    ensures (forall h :: h in db.handles ==> db.handles[h].locateRequest != request) ==>
      Listed(db, how, guid, key, request) == Everything(db, how, guid, key)
  {
    if how == ByProtocol && forall h :: h in db.handles ==> db.handles[h].locateRequest != request {
      LocateInOrder(db, guid.value, request);
    }
    hide Ok, Visit, Pending, Protocols;
  }

  /** The buffer has those of all that fit, and is otherwise as it was. */
  ghost predicate Holds(buffer: seq<nat>, was: seq<nat>, all: seq<nat>, size: nat) {
    |buffer| == |was| && forall j :: 0 <= j < |buffer| ==>
      buffer[j] == if HANDLE_SIZE * (j + 1) <= size && j < |all| then all[j] else was[j]
  }

  /** The same in the middle of the loop, with n stored. */
  ghost predicate Stored(buffer: seq<nat>, was: seq<nat>, taken: seq<nat>, size: nat, n: nat) {
    && Holds(buffer, was, taken, size)
    && n <= |taken| && HANDLE_SIZE * n <= size <= HANDLE_SIZE * |buffer|
    && (n < |taken| ==> size < HANDLE_SIZE * (n + 1))
  }

  lemma {:induction false} StoreOne(buffer: seq<nat>, was: seq<nat>, taken: seq<nat>, size: nat, n: nat, h: nat)
    requires Stored(buffer, was, taken, size, n)
    ensures HANDLE_SIZE * (|taken| + 1) <= size ==>
      n < |buffer| && Stored(buffer[n := h], was, taken + [h], size, n + 1)
    ensures HANDLE_SIZE * (|taken| + 1) > size ==> Stored(buffer, was, taken + [h], size, n)
  {
  }

  lemma {:induction false} TakeOne(taken: seq<nat>, h: nat, rest: seq<nat>)
    ensures taken + ([h] + rest) == (taken + [h]) + rest
  {
  }

  lemma {:induction false} OnlyStampsTrans(a: map<nat, IHandle>, b: map<nat, IHandle>, c: map<nat, IHandle>,
                                           request: nat)
    requires OnlyStamps(a, b, request) && OnlyStamps(b, c, request)
    ensures OnlyStamps(a, c, request)
  {
  }

  lemma {:induction false} AdvanceIs(db: Database, key: nat)
    requires key in db.notifies
    ensures var ps := Pending(db, key);
      Advance(db, key) ==
        if ps == [] then (db, None)
        else (db.(notifies := db.notifies[key := db.notifies[key].(position := Some(ps[0]))]), Some(ps[0]))
    ensures Advance(db, key).0.handles == db.handles
  {
    hide Pending;
  }

  lemma {:induction false} StampsBound(handles: map<nat, IHandle>, handles': map<nat, IHandle>, request: nat, n: nat)
    requires OnlyStamps(handles, handles', request)
    ensures StampsUpTo(handles, n) && request <= n ==> StampsUpTo(handles', n)
  {
  }

  lemma {:induction false} VisitStep(handles: map<nat, IHandle>, ps: seq<Prot>, request: nat)
    requires ps != []
    ensures var h := ps[0].handle;
      Visit(handles, ps, request) ==
        if h in handles && handles[h].locateRequest != request then
          var r := Visit(handles[h := handles[h].(locateRequest := request)], ps[1..], request);
          (r.0, [h] + r.1)
        else Visit(handles, ps[1..], request)
  {
  }

  lemma {:induction false} VisitNone(handles: map<nat, IHandle>, ps: seq<Prot>, request: nat)
    requires ps == []
    ensures Visit(handles, ps, request) == (handles, [])
  {
  }

  lemma {:induction false} ProtocolsAt(es: seq<ProtocolEntry>, g: Guid)
    ensures Protocols(es, g) == if Find(es, g) < |es| then es[Find(es, g)].protocols else []
  {
  }

  lemma {:induction false} OnlyStampsRefl(handles: map<nat, IHandle>, request: nat)
    ensures OnlyStamps(handles, handles, request)
  {
  }

  lemma {:induction false} RegisterHandles(db: Database, g: Guid, callback: nat)
    ensures Register(db, g, callback).0.handles == db.handles
  {
  }

  lemma {:induction false} UnregisterHandles(db: Database, g: Guid, key: nat)
    ensures Unregister(db, g, key).0.handles == db.handles
  {
  }

  lemma {:induction false} UninstallRefused(db: Database, h: nat, g: Guid, iface: int)
    ensures h !in db.handles ==> Uninstall(db, h, g, iface) == (db, InvalidParameter)
    ensures h in db.handles && FindInterface(db.entries, db.handles[h].protocols, g, iface).None? ==>
      Uninstall(db, h, g, iface) == (db, NotFound)
  {
  }

  lemma {:induction false} UninstallAccepted(db: Database, h: nat, g: Guid, iface: int)
    requires h in db.handles && FindInterface(db.entries, db.handles[h].protocols, g, iface).Some?
    ensures Find(db.entries, g) < |db.entries|
    ensures var p := FindInterface(db.entries, db.handles[h].protocols, g, iface).value;
      var ps, handles := Protocols(db.entries, g), Detach(db.handles, h, p);
      p.guid == g && Uninstall(db, h, g, iface) == (Database(
        if h in handles then db.handleList else Without(db.handleList, h), handles,
        Put(db.entries, g, Without(ps, p), Records(db.entries, g)),
        AllBackedUp(db.notifies, ps, p), db.next), Success)
  {
    RemoveParts(db, h, FindInterface(db.entries, db.handles[h].protocols, g, iface).value);
    hide FindInterface, Protocols, Records, Detach, Without, Put, AllBackedUp, Remove;
  }

  lemma {:induction false} UninstallStamps(db: Database, h: nat, g: Guid, iface: int, n: nat)
    ensures StampsUpTo(db.handles, n) ==> StampsUpTo(Uninstall(db, h, g, iface).0.handles, n)
  {
    hide FindInterface, Protocols, Records, Put, AllBackedUp, Without;
  }

  function BackedUp(notifies: map<nat, ProtocolNotify>, ks: seq<nat>, ps: seq<Prot>,
                    p: Prot): map<nat, ProtocolNotify> {
    map k | k in notifies :: if k in ks then BackUp(notifies[k], ps, p) else notifies[k]
  }

  lemma {:induction false} BackedUpNone(notifies: map<nat, ProtocolNotify>, ps: seq<Prot>, p: Prot)
    ensures BackedUp(notifies, [], ps, p) == notifies
  {
  }

  lemma {:induction false} BackedUpStep(notifies: map<nat, ProtocolNotify>, ks: seq<nat>, i: nat, ps: seq<Prot>,
                                        p: Prot)
    requires i < |ks|
    ensures var ns := BackedUp(notifies, ks[..i], ps, p);
      BackedUp(notifies, ks[..i + 1], ps, p) ==
        if ks[i] in ns && ns[ks[i]].position == Some(p) then ns[ks[i] := ns[ks[i]].(position := Previous(ps, p))]
          else ns
  {
    hide Previous;
    assert forall k :: k in ks[..i + 1] <==> k in ks[..i] || k == ks[i];
  }

  /** Only records of the interface's own GUID can have their cursor on it. */
  lemma {:induction false} CursorElsewhere(db: Database, h: nat, p: Prot, k: nat)
    requires Ok(db) && Held(db.handles, h, p) && k in db.notifies && db.notifies[k].position == Some(p)
    ensures k in Records(db.entries, p.guid)
  {
    HeldFacts(db, h, p);
    hide Records, Protocols, HandlesOk, Agree, EntriesOk, NoDup, Ok;
    assert On(Protocols(db.entries, db.notifies[k].guid), db.notifies[k].position);
    assert db.notifies[k].guid == p.guid;
    assert k in Records(db.entries, p.guid) <==> k in db.notifies && db.notifies[k].guid == p.guid;
  }

  lemma {:induction false} CursorsElsewhere(db: Database, h: nat, p: Prot, ns: map<nat, ProtocolNotify>)
    requires Ok(db) && Held(db.handles, h, p)
    requires ns == BackedUp(db.notifies, Records(db.entries, p.guid), Protocols(db.entries, p.guid), p)
    ensures ns == AllBackedUp(db.notifies, Protocols(db.entries, p.guid), p)
  {
    hide Records, Protocols, Previous, Ok, Held;
    forall k | k in db.notifies && db.notifies[k].position == Some(p) ensures k in Records(db.entries, p.guid) {
      CursorElsewhere(db, h, p, k);
    }
  }

  lemma {:induction false} NoNotifications(notifies: map<nat, ProtocolNotify>, p: Prot)
    ensures Notifications(notifies, [], p) == []
  {
  }

  lemma {:induction false} InstalledGuid(db: Database, user: Option<nat>, g: Guid, iface: int)
    ensures var r := Install(db, user, g, iface); r.1 == Success ==> r.2.Some? && r.2.value.guid == g
  {
    hide WithEntry, Put, Protocols, Records, Lookup;
  }

  lemma {:induction false} InstallRefused(db: Database, user: Option<nat>, g: Guid, iface: int)
    requires user.Some? && Present(db, user.value, g).Some?
    ensures Install(db, user, g, iface) == (db, InvalidParameter, None)
  {
  }

  lemma {:induction false} InstallUnknown(db: Database, user: Option<nat>, g: Guid, iface: int)
    requires user.Some? && user.value !in db.handles
    ensures Install(db, user, g, iface) == (db.(entries := WithEntry(db.entries, g)), InvalidParameter, None)
  {
    hide WithEntry;
  }

  lemma {:induction false} InstallAccepted(db: Database, user: Option<nat>, g: Guid, iface: int)
    requires user.Some? ==> user.value in db.handles && Present(db, user.value, g).None?
    ensures var es, h := WithEntry(db.entries, g), if user.Some? then user.value else db.next;
      var was, p := if user.Some? then db.handles[h] else IHandle([], 0), Prot(db.next + 1, h, g, iface);
      Install(db, user, g, iface) ==
        (Database(if user.Some? then db.handleList else db.handleList + [h],
                  db.handles[h := was.(protocols := [p] + was.protocols)],
                  Put(es, g, Protocols(es, g) + [p], Records(es, g)), db.notifies, db.next + 2),
         Success, Some(p))
  {
    hide WithEntry, Put, Protocols, Records, Lookup;
  }

  lemma {:induction false} InstallStamps(db: Database, user: Option<nat>, g: Guid, iface: int, n: nat)
    ensures StampsUpTo(db.handles, n) ==> StampsUpTo(Install(db, user, g, iface).0.handles, n)
  {
    hide Lookup, Protocols, Records, WithEntry, Put;
  }

  ghost predicate StampsUpTo(handles: map<nat, IHandle>, n: nat) {
    forall h :: h in handles ==> handles[h].locateRequest <= n
  }

  lemma {:induction false} RecordKnown(db: Database, g: Guid, i: nat)
    requires Ok(db) && i < |Records(db.entries, g)|
    ensures Records(db.entries, g)[i] in db.notifies
  {
    hide Records, Protocols, HandlesOk, Agree, EntriesOk, CursorsOk;
    assert Records(db.entries, g)[i] in Records(db.entries, g);
  }
}
