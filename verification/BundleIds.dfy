/**
 Bundle ids and uids (services/bundlemgr/src/bundle_data_mgr.cpp:1836-1891, 1958-2006): the allocator as
 functions, and what holds over every run with installs, removals and restarts.
 */
module BundleIds {
  import opened Basics

  const BASE_APP_UID: int := 10000
  const MAX_APP_UID: int := 65535
  const BASE_USER_RANGE: int := 200000

  type IdMap = map<int, string>

  function UidOf(user: int, id: int): int { user * BASE_USER_RANGE + id % BASE_USER_RANGE }

  function Decode(user: int, uid: int): int { uid - user * BASE_USER_RANGE }

  ghost predicate InRange(m: IdMap) { forall id :: id in m ==> BASE_APP_UID <= id <= MAX_APP_UID }

  ghost predicate Unique(m: IdMap) { forall i, j :: i in m && j in m && m[i] == m[j] ==> i == j }

  /** The first id from `i` on that belongs to `name`. */
  function FindName(m: IdMap, name: string, i: int): (r: Option<int>)
    ensures r.Some? ==> i <= r.value <= MAX_APP_UID && r.value in m && m[r.value] == name
    ensures r.None? ==> forall id :: i <= id <= MAX_APP_UID && id in m ==> m[id] != name
    decreases MAX_APP_UID - i
  {
    if i > MAX_APP_UID then None
    else if i in m && m[i] == name then Some(i)
    else FindName(m, name, i + 1)
  }

  /** The first id from `i` on that nobody has. */
  function FindFree(m: IdMap, i: int): (r: Option<int>)
    ensures r.Some? ==> i <= r.value <= MAX_APP_UID && r.value !in m && forall id :: i <= id < r.value ==> id in m
    ensures r.None? ==> forall id :: i <= id <= MAX_APP_UID ==> id in m
    decreases MAX_APP_UID - i
  {
    if i > MAX_APP_UID then None else if i !in m then Some(i) else FindFree(m, i + 1)
  }

  datatype Allocation = Allocation(id: Option<int>, ids: IdMap)

  /** The allocator's rule: an old name keeps its id, a new one gets the least free id. */
  function Allocate(m: IdMap, name: string): Allocation {
    var known := FindName(m, name, BASE_APP_UID);
    if known.Some? then Allocation(known, m)
    else
      var free := FindFree(m, BASE_APP_UID);
      Allocation(free, if free.Some? then m[free.value := name] else m)
  }

  lemma AllocateKeepsMap(m: IdMap, name: string)
    requires InRange(m) && Unique(m)
    ensures InRange(Allocate(m, name).ids) && Unique(Allocate(m, name).ids)
    ensures Allocate(m, name).id.Some? ==>
              var id := Allocate(m, name).id.value; id in Allocate(m, name).ids && Allocate(m, name).ids[id] == name
    ensures Allocate(m, name).id.None? <==>
              (forall id :: BASE_APP_UID <= id <= MAX_APP_UID ==> id in m && m[id] != name)
  {
  }

  // ---- Uids ----

  lemma UidDecodes(user: int, id: int)
    requires 0 <= id < BASE_USER_RANGE
    ensures UidOf(user, id) == user * BASE_USER_RANGE + id && Decode(user, UidOf(user, id)) == id
  {
  }

  lemma UidsDistinct(u: int, i: int, v: int, j: int)
    requires 0 <= i < BASE_USER_RANGE && 0 <= j < BASE_USER_RANGE && UidOf(u, i) == UidOf(v, j)
    ensures u == v && i == j
  {
    UidDecodes(u, i);
    UidDecodes(v, j);
  }

  // ---- Runs ----

  /** `users` is the part of the records the allocator reads: each installed bundle's users with their uids. */
  datatype State = State(ids: IdMap, users: map<string, map<int, int>>)

  predicate HasUser(users: map<int, int>) { exists u :: u in users }

  ghost predicate Owns(s: State, name: string, id: int)
    requires name in s.users
  {
    id in s.ids && s.ids[id] == name && forall u :: u in s.users[name] ==> s.users[name][u] == UidOf(u, id)
  }

  ghost predicate Inv(s: State) {
    && InRange(s.ids) && Unique(s.ids)
    && forall name :: name in s.users && HasUser(s.users[name]) ==> exists id :: Owns(s, name, id)
  }

  datatype Step =
    | Add(name: string, user: int, recorded: bool)   // GenerateUidAndGid; not recorded when the install fails later
    | RemoveUser(name: string, user: int)
    | Delete(name: string, user: int)                // DeleteBundleInfo; `user` is the first in the record
    | Restart                                        // RestoreUidAndGid on the loaded records

  function UsersOf(s: State, name: string): map<int, int> { if name in s.users then s.users[name] else map[] }

  /** `RecycleUidAndGid`, decoding the id from the uid of `user`. */
  function Recycle(m: IdMap, users: map<int, int>, user: int): IdMap {
    if user in users then m - {Decode(user, users[user])} else m
  }

  /** The map `RestoreUidAndGid` builds: every bundle with a user under the id decoded from it. */
  ghost predicate Restores(m: IdMap, users: map<string, map<int, int>>) {
    && (forall name :: name in users && HasUser(users[name]) ==>
          exists u :: u in users[name] && Decode(u, users[name][u]) in m && m[Decode(u, users[name][u])] == name)
    && (forall id :: id in m ==>
          m[id] in users && exists u :: u in users[m[id]] && Decode(u, users[m[id]][u]) == id)
  }

  ghost predicate Next(s: State, step: Step, t: State) {
    match step
    case Add(name, user, recorded) =>
      var a := Allocate(s.ids, name);
      t == State(a.ids, if a.id.None? || !recorded then s.users
                        else s.users[name := UsersOf(s, name)[user := UidOf(user, a.id.value)]])
    case RemoveUser(name, user) => name in s.users && t == s.(users := s.users[name := s.users[name] - {user}])
    case Delete(name, user) =>
      && name in s.users && (user in s.users[name] || !HasUser(s.users[name]))
      && t == State(Recycle(s.ids, s.users[name], user), s.users - {name})
    case Restart => t.users == s.users && Restores(t.ids, s.users)
  }

  lemma OwnerDecodes(s: State, name: string, id: int, u: int)
    requires InRange(s.ids) && name in s.users && Owns(s, name, id) && u in s.users[name]
    ensures Decode(u, s.users[name][u]) == id
  {
    UidDecodes(u, id);
  }

  lemma AddKeepsInv(s: State, step: Step, t: State)
    requires Inv(s) && step.Add? && Next(s, step, t)
    ensures Inv(t)
  {
    AllocateKeepsMap(s.ids, step.name);
    var a := Allocate(s.ids, step.name);
    forall name | name in t.users && HasUser(t.users[name])
      ensures exists id :: Owns(t, name, id)
    {
      if name == step.name && a.id.Some? && step.recorded {
        assert Owns(t, name, a.id.value) by {
          if HasUser(UsersOf(s, name)) {
            var id :| Owns(s, name, id);
            assert id == a.id.value;
          }
        }
      } else {
        var id :| Owns(s, name, id);
        assert Owns(t, name, id);
      }
    }
  }

  lemma RemoveUserKeepsInv(s: State, step: Step, t: State)
    requires Inv(s) && step.RemoveUser? && Next(s, step, t)
    ensures Inv(t)
  {
    forall name | name in t.users && HasUser(t.users[name])
      ensures exists id :: Owns(t, name, id)
    {
      assert HasUser(s.users[name]);
      var id :| Owns(s, name, id);
      assert Owns(t, name, id);
    }
  }

  /** A user joins those of the bundle, with the uid of its id, exactly when there is an id and it is recorded. */
  lemma AddAddsOneUser(s: State, name: string, user: int, recorded: bool, t: State)
    requires Next(s, Add(name, user, recorded), t)
    ensures forall other :: other != name ==>
              (other in t.users <==> other in s.users) && (other in s.users ==> t.users[other] == s.users[other])
    ensures var id := Allocate(s.ids, name).id;
            if id.Some? && recorded then
              && name in t.users && user in t.users[name] && t.users[name][user] == UidOf(user, id.value)
              && t.users[name].Keys == {user} + (if name in s.users then s.users[name].Keys else {})
              && forall u :: name in s.users && u in s.users[name] && u != user ==> t.users[name][u] == s.users[name][u]
            else t.users == s.users
  {
  }

  /** Removing a user takes that user from that bundle, and gives no id back. */
  lemma RemoveTakesOneUser(s: State, name: string, user: int, t: State)
    requires Next(s, RemoveUser(name, user), t)
    ensures t.ids == s.ids && name in t.users && t.users.Keys == s.users.Keys && user !in t.users[name]
    ensures forall u :: u in s.users[name] && u != user ==> u in t.users[name] && t.users[name][u] == s.users[name][u]
    ensures forall other :: other in s.users && other != name ==> t.users[other] == s.users[other]
  {
  }

  /** Deleting a bundle frees its id and no other; a bundle that has no user keeps its id taken. */
  lemma DeleteFreesExactly(s: State, step: Step, t: State)
    requires Inv(s) && step.Delete? && Next(s, step, t)
    ensures Inv(t)
    ensures HasUser(s.users[step.name]) ==>
              forall id :: id in t.ids <==> id in s.ids && s.ids[id] != step.name
    ensures !HasUser(s.users[step.name]) ==> t.ids == s.ids
    ensures forall id :: id in t.ids ==> t.ids[id] == s.ids[id]
  {
    if HasUser(s.users[step.name]) {
      var mine :| Owns(s, step.name, mine);
      OwnerDecodes(s, step.name, mine, step.user);
      assert t.ids == s.ids - {mine};
    }
    forall name | name in t.users && HasUser(t.users[name])
      ensures exists id :: Owns(t, name, id)
    {
      var id :| Owns(s, name, id);
      assert Owns(t, name, id);
    }
  }

  /** The map rebuilt at a restart agrees with the old one on every bundle that has a user, and has nothing else. */
  lemma RestartAgrees(s: State, m: IdMap)
    requires Inv(s) && Restores(m, s.users)
    ensures Inv(State(m, s.users))
    ensures forall id :: id in m <==> id in s.ids && s.ids[id] in s.users && HasUser(s.users[s.ids[id]])
    ensures forall id :: id in m ==> m[id] == s.ids[id]
  {
    forall id | id in m
      ensures id in s.ids && s.ids[id] == m[id] && m[id] in s.users && HasUser(s.users[m[id]])
    {
      var u :| u in s.users[m[id]] && Decode(u, s.users[m[id]][u]) == id;
      var own :| Owns(s, m[id], own);
      OwnerDecodes(s, m[id], own, u);
    }
    forall name | name in s.users && HasUser(s.users[name])
      ensures exists id :: Owns(State(m, s.users), name, id) && Owns(s, name, id)
    {
      var id :| Owns(s, name, id);
      var u :| u in s.users[name] && Decode(u, s.users[name][u]) in m && m[Decode(u, s.users[name][u])] == name;
      OwnerDecodes(s, name, id, u);
      assert Owns(State(m, s.users), name, id);
    }
  }

  lemma NextKeepsInv(s: State, step: Step, t: State)
    requires Inv(s) && Next(s, step, t)
    ensures Inv(t)
  {
    match step
    case Add(_, _, _) => AddKeepsInv(s, step, t);
    case RemoveUser(_, _) => RemoveUserKeepsInv(s, step, t);
    case Delete(_, _) => DeleteFreesExactly(s, step, t);
    case Restart => RestartAgrees(s, t.ids); assert t == State(t.ids, s.users);
  }

  ghost predicate Run(states: seq<State>, steps: seq<Step>) {
    && |states| == |steps| + 1 && states[0] == State(map[], map[])
    && forall i :: 0 <= i < |steps| ==> Next(states[i], steps[i], states[i + 1])
  }

  lemma {:induction false} ReachableInv(states: seq<State>, steps: seq<Step>, k: nat)
    requires Run(states, steps) && k < |states|
    ensures Inv(states[k])
  {
    if k > 0 {
      ReachableInv(states, steps, k - 1);
      NextKeepsInv(states[k - 1], steps[k - 1], states[k]);
    }
  }

  /**
   In every reachable state: ids are in range and unique per name; all users of a bundle have uids that
   encode one id, the bundle's; and no two users of any bundles share a uid.
   */
  lemma UidsAreSound(states: seq<State>, steps: seq<Step>, k: nat, a: string, u: int, b: string, v: int)
    requires Run(states, steps) && k < |states|
    requires var s := states[k]; a in s.users && u in s.users[a] && b in s.users && v in s.users[b]
    ensures var s := states[k]; var id := Decode(u, s.users[a][u]);
            && InRange(s.ids) && Unique(s.ids) && id in s.ids && s.ids[id] == a
            && forall w :: w in s.users[a] ==> s.users[a][w] == UidOf(w, id)
    ensures states[k].users[a][u] == states[k].users[b][v] ==> a == b && u == v
  {
    ReachableInv(states, steps, k);
    var s := states[k];
    var i :| Owns(s, a, i);
    var j :| Owns(s, b, j);
    OwnerDecodes(s, a, i, u);
    if s.users[a][u] == s.users[b][v] { UidsDistinct(u, i, v, j); }
  }

  /**
   In every reachable state an allocation gives a known name its id and a new name the least free id of
   the range, and fails if and only if every id of the range belongs to another name.
   */
  lemma AllocationIsExact(states: seq<State>, steps: seq<Step>, k: nat, name: string)
    requires Run(states, steps) && k < |states|
    ensures var m, a := states[k].ids, Allocate(states[k].ids, name);
            match a.id
            case None => a.ids == m && forall id :: BASE_APP_UID <= id <= MAX_APP_UID ==> id in m && m[id] != name
            case Some(id) =>
              && BASE_APP_UID <= id <= MAX_APP_UID && id in a.ids && a.ids[id] == name
              && (if id in m then a.ids == m && m[id] == name
                  else a.ids == m[id := name] && (forall i :: i in m ==> m[i] != name)
                       && forall i :: BASE_APP_UID <= i < id ==> i in m)
  {
    ReachableInv(states, steps, k);
    AllocateKeepsMap(states[k].ids, name);
  }
}
