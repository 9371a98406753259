/**
 `BundleExceptionHandler::HandleInvalidBundle` (services/bundlemgr/src/bundle_exception_handler.cpp:40-116)
 with every call into installd and storage free to fail, and what an interrupted or failed repair means
 for the next boot.
 */
module ExceptionHandler {
  import opened Basics
  import opened BundleRecords
  import opened DurableCalls
  import opened CrashRecovery

  /** The durable calls a repair makes when they all succeed. */
  function RecoveryCalls(r: Record): seq<Call> {
    var p := r.mark.package;
    match r.mark.status
    case INSTALL_FINISH => []
    case INSTALL_START => [RemoveBundleDir, Erase]
    case UPDATING_EXISTED_START => [RemoveModuleDir(p, true)]
    case UPDATING_NEW_START => [RemoveModuleDir(p, false)]
    case UNINSTALL_BUNDLE_START => [RemoveBundleDir, Erase]
    case UNINSTALL_PACKAGE_START => if IsOnlyModule(r, p) then [RemoveBundleDir, Erase] else [RemoveModuleDir(p, false)]
    case UPDATING_FINISH => [Rename(p)]
    case UNKNOWN_STATUS => []
  }

  lemma UnrollOne(d: Durable, root: Root, c: Call, m: Durable)
    ensures Cut(d, root, [c], m) <==> Mid(d, root, c, m)
    ensures DoAll(d, root, [c]) == Do(d, root, c)
  {
    assert [c] + [] == [c];
    Unroll(d, root, c, [], m);
  }

  lemma UnrollTwo(d: Durable, root: Root, a: Call, b: Call, m: Durable)
    ensures Cut(d, root, [a, b], m) <==> Mid(d, root, a, m) || Mid(Do(d, root, a), root, b, m)
    ensures DoAll(d, root, [a, b]) == Do(Do(d, root, a), root, b)
  {
    assert [a] + [b] == [a, b];
    Unroll(d, root, a, [b], m);
    UnrollOne(Do(d, root, a), root, b, m);
  }

  lemma RemovedTwice(code: map<Dir, Code>, m: map<Dir, Code>, root: Root)
    requires m == code || m == RemoveRoot(code, root) || PartlyRemoved(code, m, root)
    ensures RemoveRoot(m, root) == RemoveRoot(code, root)
  {
  }

  lemma BundleRepairCut(d: Durable, root: Root, m: Durable)
    requires d.store.Some? && RecoveryCalls(d.store.value) == [RemoveBundleDir, Erase]
    requires Cut(d, root, [RemoveBundleDir, Erase], m)
    ensures SeenAfterBoot(m, root) == SeenAfterBoot(d, root)
    ensures DoAll(d, root, RecoveryCalls(d.store.value)) == Recover(d, root).durable
  {
    UnrollTwo(d, root, RemoveBundleDir, Erase, m);
    RemovedTwice(d.code, m.code, root);
  }

  lemma ModuleRepairCut(d: Durable, root: Root, p: string, tmp: bool, m: Durable)
    requires d.store.Some? && RecoveryCalls(d.store.value) == [RemoveModuleDir(p, tmp)]
    requires Cut(d, root, [RemoveModuleDir(p, tmp)], m)
    ensures SeenAfterBoot(m, root) == SeenAfterBoot(d, root)
    ensures DoAll(d, root, RecoveryCalls(d.store.value)) == Recover(d, root).durable
  {
    UnrollOne(d, root, RemoveModuleDir(p, tmp), m);
    assert m.store == d.store && m.code - {Dir(root, p, tmp)} == d.code - {Dir(root, p, tmp)};
  }

  lemma RenamedTwice(code: map<Dir, Code>, root: Root, p: string)
    requires Dir(root, p, true) in code
    ensures var dir := Dir(root, p, false);
            && Renamed(code[dir := Partial], root, p) == Renamed(code, root, p)
            && Renamed(code - {dir}, root, p) == Renamed(code, root, p)
            && Renamed(Renamed(code, root, p), root, p) == Renamed(code, root, p)
            && RenameSucceeds(Renamed(code, root, p), root, p)
  {
  }

  lemma RenameRepairCut(d: Durable, root: Root, p: string, m: Durable)
    requires d.store.Some? && d.store.value.mark == InstallMark(p, UPDATING_FINISH)
    requires Cut(d, root, [Rename(p)], m)
    ensures SeenAfterBoot(m, root) == SeenAfterBoot(d, root)
    ensures DoAll(d, root, RecoveryCalls(d.store.value)) == Recover(d, root).durable
  {
    UnrollOne(d, root, Rename(p), m);
    if Dir(root, p, true) in d.code { RenamedTwice(d.code, root, p); }
  }

  /**
   A repair may itself be cut by a power failure at any of its steps: the next repair loads and leaves
   what the undisturbed one would have. No assumption is made on the state the first boot found.
   */
  lemma RepairIsCrashConsistent(d: Durable, root: Root, m: Durable)
    requires d.store.Some? && Cut(d, root, RecoveryCalls(d.store.value), m)
    ensures SeenAfterBoot(m, root) == SeenAfterBoot(d, root)
    ensures DoAll(d, root, RecoveryCalls(d.store.value)) == Recover(d, root).durable
  {
    var r := d.store.value;
    var p := r.mark.package;
    match r.mark.status
    case INSTALL_FINISH =>
    case UNKNOWN_STATUS =>
    case INSTALL_START => BundleRepairCut(d, root, m);
    case UNINSTALL_BUNDLE_START => BundleRepairCut(d, root, m);
    case UPDATING_EXISTED_START => ModuleRepairCut(d, root, p, true, m);
    case UPDATING_NEW_START => ModuleRepairCut(d, root, p, false, m);
    case UNINSTALL_PACKAGE_START =>
      if IsOnlyModule(r, p) { BundleRepairCut(d, root, m); } else { ModuleRepairCut(d, root, p, false, m); }
    case UPDATING_FINISH => RenameRepairCut(d, root, p, m);
  }

  class BundleExceptionHandler {
    const root: Root
    var durable: Durable
    /** Some call has failed. */
    ghost var faulty: bool

    constructor (root: Root, durable: Durable)
      ensures this.root == root && this.durable == durable && !faulty
    {
      this.root, this.durable, faulty := root, durable, false;
    }

    /** A directory or storage call: done, or failed without an effect. */
    method Perform(c: Call) returns (ok: bool)
      modifies this
      ensures faulty == (old(faulty) || !ok)
      ensures durable == if ok then Do(old(durable), root, c) else old(durable)
    {
      ok := *;
      if ok { durable := Do(durable, root, c); } else { faulty := true; }
    }

    /** `RemoveBundleAndDataDir`: code first, then data; the data directories are not modelled. */
    method RemoveBundleAndDataDir(c: Call) returns (ok: bool)
      modifies this
      ensures faulty == (old(faulty) || !ok)
      ensures durable == Do(old(durable), root, c) || (!ok && durable == old(durable))
    {
      ok := Perform(c);
      if ok {
        ok := *;
        if !ok { faulty := true; }
      }
    }

    /** Renaming fails when neither directory is there, and may fail otherwise. */
    method RenameModuleDir(p: string) returns (ok: bool)
      modifies this
      ensures ok ==> RenameSucceeds(old(durable).code, root, p) && durable == Do(old(durable), root, Rename(p))
      ensures !ok ==> durable == old(durable)
      ensures faulty == (old(faulty) || (!ok && RenameSucceeds(old(durable).code, root, p)))
    {
      ok := false;
      if RenameSucceeds(durable.code, root, p) { ok := Perform(Rename(p)); }
    }

    /** What a repair promises even when calls fail. */
    ghost predicate Harmless(before: Durable, info: Record, next: Record, isBundleValid: bool)
      reads this
    {
      // the next boot ends where an undisturbed repair would have ended
      && SeenAfterBoot(durable, root) == SeenAfterBoot(before, root)
      // the stored record is deleted or left alone
      && (durable.store == before.store || (durable.store == None && !isBundleValid))
      // a record that is kept is unchanged, or repaired
      && (isBundleValid ==> next == info || next.mark == InstallMark(info.mark.package, INSTALL_FINISH))
    }

    /** The directory a repair is about is as the repaired record wants it. */
    predicate RepairDone(info: Record, next: Record)
      reads this
    {
      var tmp, dir := Dir(root, info.mark.package, true), Dir(root, info.mark.package, false);
      match info.mark.status
      case UPDATING_EXISTED_START => next == Repaired(info) && tmp !in durable.code
      case UPDATING_NEW_START => next == Repaired(info) && dir !in durable.code
      case UNINSTALL_PACKAGE_START => next == Repaired(DropModule(info, info.mark.package)) && dir !in durable.code
      case UPDATING_FINISH =>
        && next == info.(mark := InstallMark(info.mark.package, INSTALL_FINISH))
        && tmp !in durable.code && dir in durable.code
      case _ => false
    }

    method HandleInvalidBundle(info: Record) returns (next: Record, isBundleValid: bool)
      requires durable.store == Some(info)
      modifies this
      ensures old(faulty) ==> faulty
      ensures !faulty ==> Recovered(durable, if isBundleValid then Some(next) else None) == Recover(old(durable), root)
      ensures Harmless(old(durable), info, next, isBundleValid)
      ensures isBundleValid && next != info ==> RepairDone(info, next)
    {
      next, isBundleValid := info, true;
      var mark, ok := info.mark, false;
      var p := mark.package;
      if mark.status == INSTALL_FINISH { return; }
      if mark.status == INSTALL_START || mark.status == UNINSTALL_BUNDLE_START {
        isBundleValid := RemoveBundle();
      } else if mark.status == UPDATING_EXISTED_START {
        ok := Perform(RemoveModuleDir(p, true));
        assert durable.code - {Dir(root, p, true)} == old(durable).code - {Dir(root, p, true)};
        if ok { next := Repaired(info); }
      } else if mark.status == UPDATING_NEW_START {
        ok := RemoveBundleAndDataDir(RemoveModuleDir(p, false));
        assert durable.code - {Dir(root, p, false)} == old(durable).code - {Dir(root, p, false)};
        if ok { next := Repaired(info); }
      } else if mark.status == UNINSTALL_PACKAGE_START {
        next, isBundleValid := FinishModuleRemoval(info);
      } else if mark.status == UPDATING_FINISH {
        if Dir(root, p, true) in durable.code { RenamedTwice(durable.code, root, p); }
        ok := RenameModuleDir(p);
        if ok { next := info.(mark := InstallMark(p, INSTALL_FINISH)); }
      }
    }

    /** The whole bundle goes: directories first, then the stored record. */
    method RemoveBundle() returns (isBundleValid: bool)
      requires durable.store.Some?
      modifies this
      ensures old(faulty) ==> faulty
      ensures !faulty ==> !isBundleValid && durable == Durable(None, RemoveRoot(old(durable).code, root))
      ensures RemoveRoot(durable.code, root) == RemoveRoot(old(durable).code, root)
      ensures durable.store == old(durable).store
              || (durable == Durable(None, RemoveRoot(old(durable).code, root)) && !isBundleValid)
    {
      isBundleValid := true;
      ghost var code := durable.code;
      var ok := RemoveBundleAndDataDir(RemoveBundleDir);
      RemovedTwice(code, durable.code, root);
      if ok {
        ok := Perform(Erase);
        isBundleValid := false;
      }
    }

    /** The module removal is completed; should removing the whole bundle fail, the module alone is tried. */
    method FinishModuleRemoval(info: Record) returns (next: Record, isBundleValid: bool)
      requires durable.store == Some(info) && info.mark.status == UNINSTALL_PACKAGE_START
      modifies this
      ensures old(faulty) ==> faulty
      ensures !faulty ==> Recovered(durable, if isBundleValid then Some(next) else None) == Recover(old(durable), root)
      ensures Harmless(old(durable), info, next, isBundleValid)
      ensures isBundleValid && next != info ==> RepairDone(info, next)
    {
      next, isBundleValid := info, true;
      var p := info.mark.package;
      ghost var code := durable.code;
      if IsOnlyModule(info, p) {
        isBundleValid := RemoveBundle();
        if !isBundleValid { return; }
      }
      var ok := RemoveBundleAndDataDir(RemoveModuleDir(p, false));
      if IsOnlyModule(info, p) {
        assert RemoveRoot(durable.code, root) == RemoveRoot(code, root);
      } else {
        assert durable.code - {Dir(root, p, false)} == code - {Dir(root, p, false)};
      }
      if ok { next := Repaired(DropModule(info, p)); }
    }
  }
}
