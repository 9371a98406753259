/**
 The data manager's maps (services/bundlemgr/src/bundle_data_mgr.cpp), updated in place. Every method
 changes the entries of one bundle as the functions of `BundleSlots` say and leaves all others alone.
 */
module BundleDataManager {
  import opened Basics
  import opened InstallStates
  import opened BundleRecords
  import opened BundleSlots
  import opened BundleIds

  function Look<T>(m: map<string, T>, name: string): Option<T> { if name in m then Some(m[name]) else None }

  function Put<T>(m: map<string, T>, name: string, v: Option<T>): map<string, T> {
    if v.Some? then m[name := v.value] else m - {name}
  }

  ghost predicate Restored(m: IdMap, users: map<int, int>, name: string) {
    exists u :: u in users && Decode(u, users[u]) in m && m[Decode(u, users[u])] == name
  }

  ghost predicate Decodes(users: map<int, int>, id: int) { exists u :: u in users && Decode(u, users[u]) == id }

  /** `m` holds the ids of the bundles in `handled`, and no others. */
  ghost predicate RestoredFor(m: IdMap, users: map<string, map<int, int>>, handled: set<string>) {
    && (forall name :: name in handled && name in users && HasUser(users[name]) ==> Restored(m, users[name], name))
    && (forall id :: id in m ==> m[id] in users && Decodes(users[m[id]], id))
  }

  function UsersIn(infos: map<string, Record>): map<string, map<int, int>> {
    map name | name in infos :: infos[name].users
  }

  lemma UsersAt(infos: map<string, Record>)
    ensures UsersIn(infos).Keys == infos.Keys
    ensures forall name :: name in infos ==> UsersIn(infos)[name] == infos[name].users
  {
  }

  lemma RestoreStarts(users: map<string, map<int, int>>)
    ensures RestoredFor(map[], users, {})
  {
  }

  lemma RestoreSkips(m: IdMap, users: map<string, map<int, int>>, handled: set<string>, name: string)
    requires RestoredFor(m, users, handled) && name in users && !HasUser(users[name])
    ensures RestoredFor(m, users, handled + {name})
  {
  }

  lemma RestoreEnds(m: IdMap, users: map<string, map<int, int>>, handled: set<string>)
    requires RestoredFor(m, users, handled) && users.Keys <= handled
    ensures Restores(m, users)
  {
    forall name | name in users && HasUser(users[name])
      ensures Restored(m, users[name], name)
    {
    }
  }

  /** Two bundles never decode to the same id. */
  lemma OneNamePerId(s: BundleIds.State, a: string, b: string, id: int, v: int)
    requires BundleIds.Inv(s) && a in s.users && Decodes(s.users[a], id)
    requires b in s.users && v in s.users[b] && Decode(v, s.users[b][v]) == id
    ensures a == b
  {
    var u :| u in s.users[a] && Decode(u, s.users[a][u]) == id;
    var i :| Owns(s, a, i);
    var j :| Owns(s, b, j);
    OwnerDecodes(s, a, i, u);
    OwnerDecodes(s, b, j, v);
  }

  /** One more bundle; its id cannot be that of another. */
  lemma RestoreStep(s: BundleIds.State, m: IdMap, handled: set<string>, name: string, user: int)
    requires BundleIds.Inv(s) && RestoredFor(m, s.users, handled)
    requires name in s.users && user in s.users[name]
    ensures RestoredFor(m[Decode(user, s.users[name][user]) := name], s.users, handled + {name})
  {
    var id := Decode(user, s.users[name][user]);
    var next := m[id := name];
    if id in m { OneNamePerId(s, m[id], name, id, user); }
    assert Decodes(s.users[name], id) && Restored(next, s.users[name], name);
    forall other | other in handled && other in s.users && HasUser(s.users[other])
      ensures Restored(next, s.users[other], other)
    {
      var u :| u in s.users[other] && Decode(u, s.users[other][u]) in m && m[Decode(u, s.users[other][u])] == other;
      assert Decode(u, s.users[other][u]) in next;
    }
  }

  class BundleDataMgr {
    var installStates: map<string, InstallState>
    var bundleInfos: map<string, Record>
    var bundleIdMap: IdMap

    constructor ()
      ensures installStates == map[] && bundleInfos == map[] && bundleIdMap == map[]
    {
      installStates, bundleInfos, bundleIdMap := map[], map[], map[];
    }

    function SlotOf(name: string): Slot
      reads this`installStates, this`bundleInfos
    {
      Slot(Look(installStates, name), Look(bundleInfos, name))
    }

    /** The entries of `name` are now `s`, and nothing else has changed. */
    twostate predicate OnlySlot(name: string, s: Slot)
      reads this
    {
      installStates == Put(old(installStates), name, s.state) && bundleInfos == Put(old(bundleInfos), name, s.info)
    }

    /** The search through the edges to `state` is `Edge`. */
    method UpdateBundleInstallState(name: string, state: InstallState) returns (ok: bool)
      modifies this
      ensures name == "" ==> !ok && OnlySlot(name, old(SlotOf(name))) && bundleIdMap == old(bundleIdMap)
      ensures name != "" ==>
              ok == Accepts(old(SlotOf(name)), state) && OnlySlot(name, SetState(old(SlotOf(name)), state))
      ensures ok && (state == INSTALL_FAIL || state == UNINSTALL_FAIL || state == UNINSTALL_SUCCESS
                     || state == UPDATING_FAIL) ==>
                name !in installStates && (state != INSTALL_FAIL ==> name !in bundleInfos)
      ensures ok && state != INSTALL_FAIL && state != UNINSTALL_FAIL && state != UNINSTALL_SUCCESS
              && state != UPDATING_FAIL ==>
                installStates == old(installStates)[name := state] && bundleInfos == old(bundleInfos)
      ensures !ok ==> installStates == old(installStates) && bundleInfos == old(bundleInfos)
      ensures name != "" && DeletesRecord(old(SlotOf(name)), state) ==>
              Recycled(old(bundleIdMap), old(bundleInfos)[name].users)
      ensures !(name != "" && DeletesRecord(old(SlotOf(name)), state)) ==> bundleIdMap == old(bundleIdMap)
    {
      if name == "" { return false; }
      if name !in installStates {
        if state == InstallState.INSTALL_START {
          installStates := installStates[name := state];
          return true;
        }
        return false;
      }
      if Edge(installStates[name], state) {
        if IsDeleteDataState(state) {
          installStates := installStates - {name};
          DeleteBundleInfo(name, state);
          return true;
        }
        installStates := installStates[name := state];
        return true;
      }
      ok := false;
    }

    /** The id decoded from the uid of one of the users has been given back. */
    ghost predicate Recycled(before: IdMap, users: map<int, int>)
      reads this`bundleIdMap
    {
      if !HasUser(users) then bundleIdMap == before
      else exists u :: u in users && bundleIdMap == Recycle(before, users, u)
    }

    method DeleteBundleInfo(name: string, state: InstallState)
      modifies `bundleInfos, `bundleIdMap
      ensures bundleInfos == if state == INSTALL_FAIL then old(bundleInfos) else old(bundleInfos) - {name}
      ensures if state != INSTALL_FAIL
              && name in old(bundleInfos) then Recycled(old(bundleIdMap), old(bundleInfos)[name].users)
              else bundleIdMap == old(bundleIdMap)
    {
      if state == INSTALL_FAIL { return; }
      if name in bundleInfos {
        RecycleUidAndGid(bundleInfos[name]);
        bundleInfos := bundleInfos - {name};
      }
    }

    method RecycleUidAndGid(info: Record)
      modifies `bundleIdMap
      ensures Recycled(old(bundleIdMap), info.users)
    {
      if !HasUser(info.users) { return; }
      var user :| user in info.users;
      var bundleId := info.users[user] - user * BASE_USER_RANGE;
      if bundleId !in bundleIdMap { return; }
      bundleIdMap := bundleIdMap - {bundleId};
    }

    method AddInnerBundleInfo(name: string, info: Record, saved: bool) returns (ok: bool)
      modifies `bundleInfos
      ensures name == "" ==> !ok && bundleInfos == old(bundleInfos)
      ensures name != "" ==> OnlySlot(name, BundleSlots.AddInnerBundleInfo(old(SlotOf(name)), info, saved))
      ensures bundleInfos == if ok then old(bundleInfos)[name := info] else old(bundleInfos)
      ensures ok ==> name !in old(bundleInfos) && Look(installStates, name) == Some(InstallState.INSTALL_START)
      ensures ok == (name != "" && saved && CanAddBundle(old(SlotOf(name))))
    {
      if name == "" || name in bundleInfos || name !in installStates { return false; }
      if installStates[name] == InstallState.INSTALL_START {
        if saved {
          bundleInfos := bundleInfos[name := info];
          return true;
        }
      }
      ok := false;
    }

    method AddNewModuleInfo(name: string, newInfo: Hap, copy: Record, saved: bool) returns (ok: bool, next: Record)
      modifies `bundleInfos
      ensures Change(SlotOf(name), next, ok) == BundleSlots.AddNewModuleInfo(old(SlotOf(name)), newInfo, copy, saved)
      ensures OnlySlot(name, SlotOf(name))
      ensures ok <==> saved && name in old(bundleInfos) && Look(installStates, name) == Some(UPDATING_SUCCESS)
      ensures ok ==>
                && bundleInfos == old(bundleInfos)[name := next] && next.enabled
                && next.users == copy.users && next.mark == copy.mark && next.installFree == copy.installFree
                && next.modules == (if newInfo.package in copy.modules then copy.modules
                                    else copy.modules[newInfo.package := ModuleOf(newInfo)])
                && next.version == if HasEntry(copy.modules) && !copy.installFree then copy.version else newInfo.version
      ensures !ok ==> bundleInfos == old(bundleInfos)
    {
      next := copy;
      if name !in bundleInfos || name !in installStates { return false, next; }
      if installStates[name] == UPDATING_SUCCESS {
        if !HasEntry(next.modules) || next.installFree { next := next.(version := newInfo.version); }
        next := AddModule(next, newInfo);
        next := next.(enabled := true);
        if saved {
          bundleInfos := bundleInfos[name := next];
          return true, next;
        }
      }
      ok := false;
    }

    method RemoveModuleInfo(name: string, package: string, copy: Record, saved: bool) returns (ok: bool, next: Record)
      modifies `bundleInfos
      ensures Change(SlotOf(name), next, ok) == BundleSlots.RemoveModuleInfo(old(SlotOf(name)), package, copy, saved)
      ensures OnlySlot(name, SlotOf(name))
      ensures ok <==> name in old(bundleInfos) && name in installStates
      ensures var state := Look(installStates, name);
              bundleInfos
              == if ok && saved && (state == Some(UNINSTALL_START) || state == Some(ROLL_BACK))
                 then old(bundleInfos)[name := copy.(modules := copy.modules - {package}, enabled := true)]
                 else old(bundleInfos)
    {
      next := copy;
      if name !in bundleInfos || name !in installStates { return false, next; }
      if installStates[name] == UNINSTALL_START || installStates[name] == ROLL_BACK {
        next := next.(modules := next.modules - {package});
        next := next.(enabled := true);
        if saved {
          bundleInfos := bundleInfos[name := next];
          return true, next;
        }
      }
      ok := true;
    }

    method UpdateInnerBundleInfo(name: string, newInfo: Record, package: string, copy: Record, saved: bool)
      returns (ok: bool, next: Record)
      modifies `bundleInfos
      ensures Change(SlotOf(name), next, ok)
              == BundleSlots.UpdateInnerBundleInfo(old(SlotOf(name)), newInfo, package, copy, saved)
      ensures OnlySlot(name, SlotOf(name))
      ensures var state := Look(installStates, name);
              ok <==> saved && name in old(bundleInfos)
                      && (state == Some(UPDATING_SUCCESS) || state == Some(ROLL_BACK) || state == Some(USER_CHANGE))
      ensures ok ==>
                && bundleInfos == old(bundleInfos)[name := next] && next.enabled
                && next.users == copy.users && next.mark == copy.mark && next.installFree == copy.installFree
                && next.version == (if HasEntry(newInfo.modules) || !HasEntry(copy.modules) || copy.installFree
                                    then newInfo.version else copy.version)
      ensures !ok ==> bundleInfos == old(bundleInfos)
    {
      hide HasEntry;
      next := copy;
      if name !in bundleInfos || name !in installStates { return false, next; }
      var state := installStates[name];
      if state == UPDATING_SUCCESS || state == ROLL_BACK || state == USER_CHANGE {
        if HasEntry(newInfo.modules) || !HasEntry(next.modules) || next.installFree {
          next := next.(version := newInfo.version);
        }
        next := next.(modules := next.modules - {package});
        next := next.(modules := newInfo.modules + next.modules);
        next := next.(enabled := true);
        assert next == Updated(copy, newInfo, package);
        if !saved { return false, next; }
        bundleInfos := bundleInfos[name := next];
        return true, next;
      }
      ok := false;
    }

    method GetInnerBundleInfo(name: string) returns (info: Option<Record>)
      modifies `bundleInfos
      ensures name != "" ==> OnlySlot(name, Disabled(old(SlotOf(name)))) && info == SlotOf(name).info
      ensures info == None ==> bundleInfos == old(bundleInfos) && (name == "" || name !in bundleInfos)
      ensures info.Some? ==>
                && name in old(bundleInfos) && info.value == old(bundleInfos)[name].(enabled := false)
                && bundleInfos == old(bundleInfos)[name := info.value]
      ensures name == "" ==> info == None && bundleInfos == old(bundleInfos)
    {
      if name == "" || name !in bundleInfos { return None; }
      bundleInfos := bundleInfos[name := bundleInfos[name].(enabled := false)];
      info := Some(bundleInfos[name]);
    }

    method EnableBundle(name: string) returns (ok: bool)
      modifies `bundleInfos
      ensures name != "" ==> OnlySlot(name, Enabled(old(SlotOf(name)))) && ok == old(SlotOf(name)).info.Some?
      ensures if ok then
                name in old(bundleInfos)
                && bundleInfos == old(bundleInfos)[name := old(bundleInfos)[name].(enabled := true)]
              else bundleInfos == old(bundleInfos)
      ensures name == "" ==> !ok && bundleInfos == old(bundleInfos)
    {
      if name == "" || name !in bundleInfos { return false; }
      bundleInfos := bundleInfos[name := bundleInfos[name].(enabled := true)];
      ok := true;
    }

    method AddInnerBundleUserInfo(name: string, user: int, uid: int, saved: bool) returns (ok: bool)
      modifies `bundleInfos
      ensures OnlySlot(name, AddUser(old(SlotOf(name)), user, uid)) && ok == (saved && old(SlotOf(name)).info.Some?)
      ensures name in old(bundleInfos) ==>
                var was := old(bundleInfos)[name];
                bundleInfos == old(bundleInfos)[name := was.(users := was.users[user := uid], enabled := true)]
    {
      if name !in bundleInfos { return false; }
      var info := bundleInfos[name];
      bundleInfos := bundleInfos[name := info.(users := info.users[user := uid], enabled := true)];
      ok := saved;
    }

    method RemoveInnerBundleUserInfo(name: string, user: int, saved: bool) returns (ok: bool)
      modifies `bundleInfos
      ensures OnlySlot(name, BundleSlots.RemoveUser(old(SlotOf(name)), user)) && ok == (saved
              && old(SlotOf(name)).info.Some?)
      ensures name in old(bundleInfos) ==>
                var was := old(bundleInfos)[name];
                bundleInfos == old(bundleInfos)[name := was.(users := was.users - {user}, enabled := true)]
    {
      if name !in bundleInfos { return false; }
      var info := bundleInfos[name];
      bundleInfos := bundleInfos[name := info.(users := info.users - {user}, enabled := true)];
      ok := saved;
    }

    // ---- Ids ----

    /** The greatest id in use (`rbegin` of the ordered map). */
    method LastId() returns (last: int)
      requires exists id :: id in bundleIdMap
      ensures last in bundleIdMap && forall id :: id in bundleIdMap ==> id <= last
    {
      last :| last in bundleIdMap;
      var left := bundleIdMap.Keys;
      while exists k :: k in left
        decreases |left|
        invariant left <= bundleIdMap.Keys && last in bundleIdMap
        invariant forall id :: id in bundleIdMap && id !in left ==> id <= last
      {
        var id :| id in left;
        if last < id { last := id; }
        left := left - {id};
      }
    }

    /** The id that belongs to `name`, if it has one. */
    method FindBundleId(name: string) returns (id: Option<int>)
      ensures id.Some? ==> id.value in bundleIdMap && bundleIdMap[id.value] == name
      ensures id.None? ==> forall k :: k in bundleIdMap ==> bundleIdMap[k] != name
    {
      var left := bundleIdMap.Keys;
      while exists k :: k in left
        decreases |left|
        invariant left <= bundleIdMap.Keys
        invariant forall k :: k in bundleIdMap && k !in left ==> bundleIdMap[k] != name
      {
        var k :| k in left;
        if bundleIdMap[k] == name { return Some(k); }
        left := left - {k};
      }
      id := None;
    }

    method GenerateBundleId(name: string) returns (id: Option<int>)
      requires InRange(bundleIdMap) && Unique(bundleIdMap)
      modifies `bundleIdMap
      ensures Allocation(id, bundleIdMap) == Allocate(old(bundleIdMap), name)
    {
      ghost var ids := bundleIdMap;
      if !exists k :: k in bundleIdMap {
        bundleIdMap := bundleIdMap[BASE_APP_UID := name];
        return Some(BASE_APP_UID);
      }
      id := FindBundleId(name);
      if id.Some? {
        assert FindName(ids, name, BASE_APP_UID).Some?;
        return;
      }
      assert FindName(ids, name, BASE_APP_UID).None?;
      var last := LastId();
      var i := BASE_APP_UID;
      while i < last
        invariant BASE_APP_UID <= i <= last && bundleIdMap == ids
        invariant FindFree(ids, BASE_APP_UID) == FindFree(ids, i)
      {
        if i !in bundleIdMap {
          bundleIdMap := bundleIdMap[i := name];
          return Some(i);
        }
        i := i + 1;
      }
      assert last in ids && FindFree(ids, last) == FindFree(ids, last + 1);
      if last == MAX_APP_UID { return None; }
      assert last + 1 !in ids;
      bundleIdMap := bundleIdMap[last + 1 := name];
      id := Some(last + 1);
    }

    method GenerateUidAndGid(name: string, user: int) returns (uid: Option<int>)
      requires InRange(bundleIdMap) && Unique(bundleIdMap)
      modifies `bundleIdMap
      ensures name == "" ==> uid == None && bundleIdMap == old(bundleIdMap)
      ensures name != "" ==>
                var a := Allocate(old(bundleIdMap), name);
                bundleIdMap == a.ids && uid == if a.id.Some? then Some(UidOf(user, a.id.value)) else None
    {
      if name == "" { return None; }
      var id := GenerateBundleId(name);
      if id == None { return None; }
      uid := Some(user * BASE_USER_RANGE + id.value % BASE_USER_RANGE);
    }

    /**
     The ids after a restart, from the loaded records; `s` is the state of the allocator before it. The
     method's own result feeds `BundleIds.RestartAgrees`.
     */
    method RestoreUidAndGid(ghost s: BundleIds.State)
      requires bundleIdMap == map[] && BundleIds.Inv(s) && s.users == UsersIn(bundleInfos)
      modifies `bundleIdMap
      ensures Restores(bundleIdMap, UsersIn(bundleInfos))
    {
      hide RestoredFor, Restores, BundleIds.Inv, UsersIn;
      var infos := bundleInfos;
      UsersAt(infos);
      ghost var users, handled := UsersIn(infos), {};
      var left := infos.Keys;
      RestoreStarts(users);
      while exists name :: name in left
        decreases |left|
        invariant left <= infos.Keys && handled + left == infos.Keys
        invariant RestoredFor(bundleIdMap, users, handled)
      {
        var name :| name in left;
        if HasUser(infos[name].users) {
          var user :| user in infos[name].users;
          var bundleId := infos[name].users[user] - user * BASE_USER_RANGE;
          RestoreStep(s, bundleIdMap, handled, name, user);
          bundleIdMap := bundleIdMap[bundleId := name];
        } else {
          RestoreSkips(bundleIdMap, users, handled, name);
        }
        handled := handled + {name};
        left := left - {name};
      }
      RestoreEnds(bundleIdMap, users, handled);
    }
  }
}
