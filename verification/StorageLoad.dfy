/**
 Loading the stored bundles at boot (services/bundlemgr/src/bundle_data_storage_database.cpp:48-93, 268-277):
 each entry goes through recovery, what survives is kept in memory and stored under its own name. Calls
 into storage and installd succeed here; `ExceptionHandler` says what a failed or cut repair means.
 */
module StorageLoad {
  import opened Basics
  import opened BundleRecords
  import opened DurableCalls
  import opened CrashRecovery

  /** A stored value that parses, or one that does not. */
  datatype Entry = Corrupt | Stored(name: string, record: Record)

  /** Every bundle has a directory of its own. */
  function RootOf(name: string): Root { [name] }

  /** The code directories of one bundle. */
  function Part(code: map<Dir, Code>, root: Root): map<Dir, Code> {
    map d | d in code && d.root == root :: code[d]
  }

  /** What recovery makes of one bundle taken by itself. */
  function RecoverAlone(name: string, r: Record, code: map<Dir, Code>): Recovered {
    Recover(Durable(Some(r), Part(code, RootOf(name))), RootOf(name))
  }

  /** Recovery of one bundle sees its own directory only. */
  lemma RecoverSeesItsPart(name: string, r: Record, code: map<Dir, Code>)
    ensures var o := Recover(Durable(Some(r), code), RootOf(name));
            && o.loaded == RecoverAlone(name, r, code).loaded
            && o.durable.store == RecoverAlone(name, r, code).durable.store
            && Part(o.durable.code, RootOf(name)) == RecoverAlone(name, r, code).durable.code
  {
    var root, p := RootOf(name), r.mark.package;
    PartOfRemoval(code, root, root);
    PartOfModuleRemoval(code, root, root, p, true);
    PartOfModuleRemoval(code, root, root, p, false);
    PartOfRename(code, root, root, p);
    hide Part, Renamed, RemoveRoot, RenameSucceeds;
  }

  /** It touches no other. */
  lemma RecoverSparesOthers(name: string, r: Record, code: map<Dir, Code>, other: string)
    requires other != name
    ensures Part(Recover(Durable(Some(r), code), RootOf(name)).durable.code, RootOf(other)) == Part(code, RootOf(other))
  {
    var root, p := RootOf(name), r.mark.package;
    assert root[0] == name && RootOf(other)[0] == other;
    PartOfRemoval(code, root, RootOf(other));
    PartOfModuleRemoval(code, root, RootOf(other), p, true);
    PartOfModuleRemoval(code, root, RootOf(other), p, false);
    PartOfRename(code, root, RootOf(other), p);
    hide Part, Renamed, RemoveRoot, RenameSucceeds;
  }

  lemma PartOfRemoval(code: map<Dir, Code>, root: Root, other: Root)
    ensures Part(RemoveRoot(code, root), root) == RemoveRoot(Part(code, root), root)
    ensures other != root ==> Part(RemoveRoot(code, root), other) == Part(code, other)
  {
  }

  lemma PartOfModuleRemoval(code: map<Dir, Code>, root: Root, other: Root, p: string, tmp: bool)
    ensures Part(code - {Dir(root, p, tmp)}, root) == Part(code, root) - {Dir(root, p, tmp)}
    ensures other != root ==> Part(code - {Dir(root, p, tmp)}, other) == Part(code, other)
  {
  }

  lemma PartOfRename(code: map<Dir, Code>, root: Root, other: Root, p: string)
    ensures RenameSucceeds(code, root, p) == RenameSucceeds(Part(code, root), root, p)
    ensures Part(Renamed(code, root, p), root) == Renamed(Part(code, root), root, p)
    ensures other != root ==> Part(Renamed(code, root, p), other) == Part(code, other)
  {
  }

  type Store = map<string, Entry>

  /** What is kept in memory of a stored bundle. */
  function Loaded(name: string, r: Record, code: map<Dir, Code>): Option<Record> { RecoverAlone(name, r, code).loaded }

  ghost predicate DistinctNames(store: Store) {
    forall j, k :: j in store && k in store && store[j].Stored? && store[k].Stored? ==>
      (store[j].name == store[k].name ==> j == k)
  }

  /** No entry sits under the name of another bundle. */
  ghost predicate OwnKeys(store: Store) {
    forall j, k :: j in store && k in store && store[k].Stored? && store[k].name == j ==> j == k
  }

  /** An entry loaded from a key that is not its name is stored anew. */
  predicate Rekeyed(store: Store, code: map<Dir, Code>, k: string)
    requires k in store
  {
    store[k].Stored? && Loaded(store[k].name, store[k].record, code).Some? && k != store[k].name
  }

  /** Memory after the entries in `handled`. */
  ghost predicate InfosFor(infos: map<string, Record>, store: Store, code: map<Dir, Code>, handled: set<string>) {
    && (forall k :: k in handled && k in store && store[k].Stored? ==>
          Look(infos, store[k].name) == Loaded(store[k].name, store[k].record, code))
    && (forall n :: n in infos ==> exists k :: k in handled && k in store && store[k].Stored? && store[k].name == n)
  }

  function Look(infos: map<string, Record>, n: string): Option<Record> { if n in infos then Some(infos[n]) else None }

  /** The code directories: those of the handled entries repaired, those still to come untouched. */
  ghost predicate CodeFor(now: map<Dir, Code>, store: Store, code: map<Dir, Code>, handled: set<string>) {
    forall k :: k in store && store[k].Stored? ==>
      var n := store[k].name;
      Part(now, RootOf(n)) == if k in handled then RecoverAlone(n, store[k].record, code).durable.code
                              else Part(code, RootOf(n))
  }

  /** Does the first loop delete the entry under key `k`? */
  predicate Deletes(store: Store, code: map<Dir, Code>, k: string)
    requires k in store
  {
    store[k] == Corrupt || (k == store[k].name && Loaded(k, store[k].record, code) == None)
  }

  /** Storage after the first loop has handled some entries. */
  ghost predicate StoreFor(now: Store, store: Store, code: map<Dir, Code>, handled: set<string>) {
    && now.Keys <= store.Keys
    && forall k :: k in store ==>
          if k in handled && Deletes(store, code, k) then k !in now else k in now && now[k] == store[k]
  }

  ghost predicate UpdatesFor(updates: Store, store: Store, code: map<Dir, Code>, handled: set<string>) {
    && (forall k :: k in updates <==> k in handled && k in store && Rekeyed(store, code, k))
    && (forall k :: k in updates ==>
          updates[k] == Stored(store[k].name, Loaded(store[k].name, store[k].record, code).value))
  }

  // ---- One entry ----

  lemma CodeStep(now: map<Dir, Code>, store: Store, code: map<Dir, Code>, handled: set<string>, k: string)
    requires CodeFor(now, store, code, handled) && DistinctNames(store)
    requires k in store && k !in handled && store[k].Stored?
    ensures var n, r := store[k].name, store[k].record;
            var o := Recover(Durable(Some(r), now), RootOf(n));
            && o.loaded == Loaded(n, r, code)
            && CodeFor(o.durable.code, store, code, handled + {k})
  {
    var n, r := store[k].name, store[k].record;
    var o := Recover(Durable(Some(r), now), RootOf(n));
    RecoverSeesItsPart(n, r, now);
    assert Part(now, RootOf(n)) == Part(code, RootOf(n));
    assert RecoverAlone(n, r, now) == RecoverAlone(n, r, code);
    forall j | j in store && store[j].Stored? && j != k
      ensures Part(o.durable.code, RootOf(store[j].name)) == Part(now, RootOf(store[j].name))
    {
      RecoverSparesOthers(n, r, now, store[j].name);
    }
    hide Recover, Part;
  }

  lemma InfosStep(infos: map<string, Record>, store: Store, code: map<Dir, Code>, handled: set<string>, k: string)
    requires InfosFor(infos, store, code, handled) && DistinctNames(store) && k in store && k !in handled
    ensures store[k].Stored? ==> store[k].name !in infos
    ensures store[k] == Corrupt ==> InfosFor(infos, store, code, handled + {k})
    ensures store[k].Stored? ==>
              var n, l := store[k].name, Loaded(store[k].name, store[k].record, code);
              InfosFor(if l.Some? then infos[n := l.value] else infos, store, code, handled + {k})
  {
    hide Loaded;
  }

  lemma StoreStep(now: Store, store: Store, code: map<Dir, Code>, handled: set<string>, k: string)
    requires StoreFor(now, store, code, handled) && OwnKeys(store) && k in store && k !in handled
    ensures store[k] == Corrupt ==> StoreFor(now - {k}, store, code, handled + {k})
    ensures store[k].Stored? ==>
              var n, l := store[k].name, Loaded(store[k].name, store[k].record, code);
              StoreFor(if l.Some? then now else now - {n}, store, code, handled + {k})
  {
    hide Loaded;
  }

  lemma UpdatesStep(updates: Store, store: Store, code: map<Dir, Code>, handled: set<string>, k: string)
    requires UpdatesFor(updates, store, code, handled) && k in store && k !in handled
    ensures !Rekeyed(store, code, k) ==> UpdatesFor(updates, store, code, handled + {k})
    ensures Rekeyed(store, code, k) ==>
              var n, r := store[k].name, store[k].record;
              UpdatesFor(updates[k := Stored(n, Loaded(n, r, code).value)], store, code, handled + {k})
  {
    hide Loaded;
  }

  /** The result for one stored bundle. */
  ghost predicate EntrySettled(k: string, e: Entry, code: map<Dir, Code>, now: Store) {
    match e
    case Corrupt => k !in now
    case Stored(n, r) =>
      (match Loaded(n, r, code)
       case Some(x) => n in now && now[n] == Stored(n, if k == n then r else x) && (k != n ==> k !in now)
       // a bundle to be deleted goes only if it sits under its own name
       case None => if k == n then k !in now else k in now && now[k] == e)
  }

  class BundleDataStorageDatabase {
    var store: Store
    var code: map<Dir, Code>

    /** `HandleInvalidBundle` and the deletion it asks for, which goes by name and not by key. */
    method HandleInvalidBundle(name: string, r: Record) returns (loaded: Option<Record>)
      modifies this
      ensures var o := Recover(Durable(Some(r), old(code)), RootOf(name));
              loaded == o.loaded && code == o.durable.code
      ensures store == if loaded.Some? then old(store) else old(store) - {name}
    {
      var o := Recover(Durable(Some(r), code), RootOf(name));
      loaded, code := o.loaded, o.durable.code;
      if loaded == None { store := store - {name}; }
    }

    method SaveEntries(all: Store) returns (infos: map<string, Record>)
      requires store == all && DistinctNames(all) && OwnKeys(all)
      modifies this
      ensures InfosFor(infos, all, old(code), all.Keys)
      ensures CodeFor(code, all, old(code), all.Keys)
      ensures forall k :: k in all ==> EntrySettled(k, all[k], old(code), store)
      ensures forall q :: q in store ==> q in all || q in infos
    {
      hide Recover, Loaded, InfosFor, CodeFor, StoreFor, UpdatesFor, DistinctNames, OwnKeys, Deletes, EntrySettled;
      ghost var first, handled := code, {};
      var updates: Store := map[];
      infos := map[];
      LoadStarts(all, first);
      var left := all.Keys;
      while exists k :: k in left
        decreases |left|
        invariant left <= all.Keys && handled + left == all.Keys && handled !! left
        invariant InfosFor(infos, all, first, handled)
        invariant CodeFor(code, all, first, handled)
        invariant StoreFor(store, all, first, handled)
        invariant UpdatesFor(updates, all, first, handled)
      {
        var k :| k in left;
        InfosStep(infos, all, first, handled, k);
        StoreStep(store, all, first, handled, k);
        UpdatesStep(updates, all, first, handled, k);
        match all[k] {
          case Corrupt =>
            CodeSkips(code, all, first, handled, k);
            store := store - {k};
          case Stored(n, r) =>
            CodeStep(code, all, first, handled, k);
            var loaded := HandleInvalidBundle(n, r);
            if loaded.Some? {
              if n !in infos { infos := infos[n := loaded.value]; }
              if k != n { updates := updates[k := Stored(n, loaded.value)]; }
            }
        }
        handled := handled + {k};
        left := left - {k};
      }
      assert handled == all.Keys;
      UpdateDataBase(updates, all, first);
      InfosHoldUpdates(infos, updates, all, first);
    }

    /** Each re-keyed entry is saved under its name, then its old key is deleted. */
    method UpdateDataBase(updates: Store, ghost all: Store, ghost first: map<Dir, Code>)
      requires StoreFor(store, all, first, all.Keys) && UpdatesFor(updates, all, first, all.Keys)
      requires DistinctNames(all) && OwnKeys(all)
      modifies `store
      ensures forall k :: k in all ==> EntrySettled(k, all[k], first, store)
      ensures forall q :: q in store ==> q in all || exists k :: k in updates && updates[k].name == q
    {
      hide Loaded, DistinctNames, OwnKeys, Deletes, StoreFor, UpdatesFor, Rekeyed, RekeyedFor, EntrySettled;
      ghost var before, done := store, {};
      var left := updates.Keys;
      RekeyStarts(before, all, first, updates);
      while exists k :: k in left
        decreases |left|
        invariant left <= updates.Keys && done + left == updates.Keys && done !! left
        invariant RekeyedFor(store, before, updates, done)
      {
        var k :| k in left;
        RekeyStep(store, before, all, first, updates, done, k);
        store := store[updates[k].name := updates[k]];
        store := store - {k};
        done := done + {k};
        left := left - {k};
      }
      assert done == updates.Keys;
      RekeyEnds(store, before, all, first, updates);
    }
  }

  /** Storage while entries are moved to their names. */
  ghost predicate RekeyedFor(now: Store, before: Store, updates: Store, done: set<string>) {
    && (forall k :: k in done && k in updates && updates[k].Stored? ==>
          k !in now && updates[k].name in now && now[updates[k].name] == updates[k])
    && (forall q :: q in before && q !in done ==> q in now && now[q] == before[q])
    && (forall q :: q in now ==>
          q in before || exists k :: k in done && k in updates && updates[k].Stored? && updates[k].name == q)
  }

  lemma LoadStarts(all: Store, code: map<Dir, Code>)
    ensures InfosFor(map[], all, code, {}) && CodeFor(code, all, code, {}) && StoreFor(all, all, code, {})
    ensures UpdatesFor(map[], all, code, {})
  {
    hide Loaded;
  }

  lemma CodeSkips(now: map<Dir, Code>, store: Store, code: map<Dir, Code>, handled: set<string>, k: string)
    requires CodeFor(now, store, code, handled) && k in store && store[k] == Corrupt
    ensures CodeFor(now, store, code, handled + {k})
  {
    hide Recover, Part;
  }

  lemma RekeyStarts(before: Store, all: Store, code: map<Dir, Code>, updates: Store)
    requires UpdatesFor(updates, all, code, all.Keys)
    ensures RekeyedFor(before, before, updates, {})
    ensures forall k :: k in updates ==> updates[k].Stored?
  {
    hide Loaded;
  }

  lemma RekeyStep(now: Store, before: Store, all: Store, code: map<Dir, Code>, updates: Store, done: set<string>,
                   k: string)
    requires RekeyedFor(now, before, updates, done) && UpdatesFor(updates, all, code, all.Keys)
    requires StoreFor(before, all, code, all.Keys) && DistinctNames(all) && OwnKeys(all)
    requires k in updates && k !in done && updates[k].Stored? && done <= updates.Keys
    ensures RekeyedFor(now[updates[k].name := updates[k]] - {k}, before, updates, done + {k})
  {
    NameIsNew(before, all, code, updates, k);
    forall j | j in done && j in updates
      ensures updates[j].Stored? && updates[j].name != updates[k].name && updates[j].name != k && updates[k].name != j
    {
      NameIsNew(before, all, code, updates, j);
      assert all[j].name == updates[j].name && all[k].name == updates[k].name;
    }
    hide StoreFor, UpdatesFor, DistinctNames, OwnKeys, RekeyedFor;
    RekeyOne(now, before, updates, done, k);
  }

  lemma NameIsNew(before: Store, all: Store, code: map<Dir, Code>, updates: Store, k: string)
    requires UpdatesFor(updates, all, code, all.Keys) && StoreFor(before, all, code, all.Keys) && OwnKeys(all)
            && k in updates
    ensures updates[k].Stored? && k in all && all[k].Stored? && all[k].name == updates[k].name
    ensures updates[k].name != k && updates[k].name !in all && updates[k].name !in before
  {
    hide Loaded, Deletes;
  }

  lemma RekeyOne(now: Store, before: Store, updates: Store, done: set<string>, k: string)
    requires RekeyedFor(now, before, updates, done)
    requires k in updates && k !in done && updates[k].Stored? && updates[k].name != k && updates[k].name !in before
    requires forall j :: j in done && j in updates ==>
               updates[j].Stored? && updates[j].name != updates[k].name && updates[j].name != k && updates[k].name != j
    ensures RekeyedFor(now[updates[k].name := updates[k]] - {k}, before, updates, done + {k})
  {
  }

  lemma RekeyEnds(now: Store, before: Store, all: Store, code: map<Dir, Code>, updates: Store)
    requires RekeyedFor(now, before, updates, updates.Keys) && UpdatesFor(updates, all, code, all.Keys)
    requires StoreFor(before, all, code, all.Keys) && DistinctNames(all) && OwnKeys(all)
    ensures forall k :: k in all ==> EntrySettled(k, all[k], code, now)
    ensures forall q :: q in now ==> q in all || exists k :: k in updates && updates[k].name == q
  {
    hide Loaded;
    forall k | k in all
      ensures EntrySettled(k, all[k], code, now)
    {
      EntryEnds(now, before, all, code, updates, k);
    }
  }

  lemma EntryEnds(now: Store, before: Store, all: Store, code: map<Dir, Code>, updates: Store, k: string)
    requires RekeyedFor(now, before, updates, updates.Keys) && UpdatesFor(updates, all, code, all.Keys)
    requires StoreFor(before, all, code, all.Keys) && DistinctNames(all) && OwnKeys(all) && k in all
    ensures EntrySettled(k, all[k], code, now)
  {
    hide Loaded;
  }

  lemma InfosHoldUpdates(infos: map<string, Record>, updates: Store, all: Store, code: map<Dir, Code>)
    requires InfosFor(infos, all, code, all.Keys) && UpdatesFor(updates, all, code, all.Keys)
    ensures forall k :: k in updates ==> updates[k].Stored? && updates[k].name in infos
  {
    hide Loaded;
  }

  // ---- A second boot ----

  /** Recovering a record again, over the directories the first recovery left, loads the same. */
  lemma LoadsTheSameAgain(name: string, r: Record, code: map<Dir, Code>, now: map<Dir, Code>)
    requires Part(now, RootOf(name)) == RecoverAlone(name, r, code).durable.code
    ensures Loaded(name, r, now) == Loaded(name, r, code)
  {
  }

  lemma RepairedLoadsItself(name: string, r: Record, code: map<Dir, Code>, now: map<Dir, Code>)
    requires Loaded(name, r, code).Some?
    requires Part(now, RootOf(name)) == RecoverAlone(name, r, code).durable.code
    ensures Loaded(name, Loaded(name, r, code).value, now) == Loaded(name, r, code)
  {
  }

  /**
   A second boot: every entry the first load left loads to what is in memory already, and every bundle in
   memory has an entry under its name.
   */
  lemma SecondLoadAgrees(all: Store, code: map<Dir, Code>, infos: map<string, Record>, now: Store,
                         nowCode: map<Dir, Code>, q: string)
    requires InfosFor(infos, all, code, all.Keys) && CodeFor(nowCode, all, code, all.Keys)
    requires forall k :: k in all ==> EntrySettled(k, all[k], code, now)
    requires forall k :: k in now ==> k in all || k in infos
    requires q in now || q in infos
    ensures q in infos ==> q in now && now[q].Stored? && now[q].name == q
    ensures q in now ==> now[q].Stored? && Loaded(now[q].name, now[q].record, nowCode) == Look(infos, now[q].name)
  {
    hide Recover, Loaded, RecoverAlone;
    if q in infos {
      var k :| k in all && all[k].Stored? && all[k].name == q;
      assert EntrySettled(k, all[k], code, now);
      LoadsTheSameAgain(q, all[k].record, code, nowCode);
      RepairedLoadsItself(q, all[k].record, code, nowCode);
    } else {
      assert EntrySettled(q, all[q], code, now);
      if all[q].Stored? { LoadsTheSameAgain(all[q].name, all[q].record, code, nowCode); }
    }
  }
}
