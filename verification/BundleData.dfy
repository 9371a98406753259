/** The install states of a bundle and the edges between them (services/bundlemgr/src/bundle_data_mgr.cpp:1398-1432). */
module InstallStates {
  datatype InstallState =
    | INSTALL_START | INSTALL_SUCCESS | INSTALL_FAIL
    | UNINSTALL_START | UNINSTALL_SUCCESS | UNINSTALL_FAIL
    | UPDATING_START | UPDATING_SUCCESS | UPDATING_FAIL
    | ROLL_BACK | USER_CHANGE

  /** `InitStateTransferMap`: may a bundle in state `from` enter state `to`? */
  predicate Edge(from: InstallState, to: InstallState) {
    match to
    case INSTALL_START => false
    case INSTALL_SUCCESS =>
      from.INSTALL_START? || from.UPDATING_START? || from.UPDATING_SUCCESS? || from.UNINSTALL_START?
      || from.ROLL_BACK? || from.USER_CHANGE?
    case INSTALL_FAIL => from.INSTALL_START?
    case UNINSTALL_START => from.INSTALL_SUCCESS? || from.INSTALL_START? || from.UPDATING_SUCCESS? || from.USER_CHANGE?
    case UNINSTALL_SUCCESS => from.UNINSTALL_START?
    case UNINSTALL_FAIL => from.UNINSTALL_START?
    case UPDATING_START => from.INSTALL_SUCCESS? || from.INSTALL_START? || from.UPDATING_SUCCESS? || from.USER_CHANGE?
    case UPDATING_SUCCESS => from.UPDATING_START? || from.USER_CHANGE?
    case UPDATING_FAIL => from.UPDATING_START? || from.INSTALL_START?
    case ROLL_BACK => from.UPDATING_START? || from.UPDATING_SUCCESS?
    case USER_CHANGE => from.INSTALL_SUCCESS? || from.UPDATING_SUCCESS? || from.UPDATING_START?
  }

  /** The same table by the state left: what may come next. */
  lemma NextStates(from: InstallState, to: InstallState)
    ensures Edge(from, to) <==>
            match from
            case INSTALL_START =>
              to.INSTALL_SUCCESS? || to.INSTALL_FAIL? || to.UNINSTALL_START? || to.UPDATING_START? || to.UPDATING_FAIL?
            case INSTALL_SUCCESS => to.UNINSTALL_START? || to.UPDATING_START? || to.USER_CHANGE?
            case UPDATING_START =>
              to.INSTALL_SUCCESS? || to.UPDATING_SUCCESS? || to.UPDATING_FAIL? || to.ROLL_BACK? || to.USER_CHANGE?
            case UPDATING_SUCCESS =>
              to.INSTALL_SUCCESS? || to.UNINSTALL_START? || to.UPDATING_START? || to.ROLL_BACK? || to.USER_CHANGE?
            case UNINSTALL_START => to.INSTALL_SUCCESS? || to.UNINSTALL_SUCCESS? || to.UNINSTALL_FAIL?
            case ROLL_BACK => to.INSTALL_SUCCESS?
            case USER_CHANGE =>
              to.INSTALL_SUCCESS? || to.UNINSTALL_START? || to.UPDATING_START? || to.UPDATING_SUCCESS?
            case _ => false
  {
  }

  predicate IsDeleteDataState(s: InstallState) {
    s.INSTALL_FAIL? || s.UNINSTALL_FAIL? || s.UNINSTALL_SUCCESS? || s.UPDATING_FAIL?
  }
}

/** The stored description of a bundle, as far as the install transaction reads or writes it. */
module BundleRecords {
  datatype InstallExceptionStatus =
    | INSTALL_START | INSTALL_FINISH | UPDATING_EXISTED_START | UPDATING_NEW_START | UPDATING_FINISH
    | UNINSTALL_BUNDLE_START | UNINSTALL_PACKAGE_START | UNKNOWN_STATUS

  /** The note written to storage before the disk is touched. */
  datatype InstallMark = InstallMark(package: string, status: InstallExceptionStatus)

  /** A module remembers the version of the package it was extracted from. */
  datatype Module = Module(version: nat, isEntry: bool)

  /** `users` maps a user to the uid the bundle runs under for that user. */
  datatype Record = Record(version: nat, modules: map<string, Module>, users: map<int, int>,
                           mark: InstallMark, enabled: bool, installFree: bool)

  /** One package file of an install request; `free` is its entry-installation-free flag. */
  datatype Hap = Hap(package: string, version: nat, isEntry: bool, free: bool)

  predicate HasEntry(modules: map<string, Module>) {
    exists p :: p in modules && modules[p].isEntry
  }

  predicate IsOnlyModule(r: Record, package: string) {
    r.modules.Keys == {package}
  }

  function SetMark(r: Record, package: string, status: InstallExceptionStatus): Record {
    r.(mark := InstallMark(package, status))
  }

  function DropModule(r: Record, package: string): Record {
    r.(modules := r.modules - {package})
  }

  function ModuleOf(h: Hap): Module { Module(h.version, h.isEntry) }

  /** The record of a freshly parsed package. */
  function RecordOf(h: Hap): Record {
    Record(h.version, map[h.package := ModuleOf(h)], map[], InstallMark("", UNKNOWN_STATUS), true, h.free)
  }

  /** `AddModuleInfo`: entries already present stay as they are. */
  function AddModule(r: Record, h: Hap): Record {
    if h.package in r.modules then r else r.(modules := r.modules[h.package := ModuleOf(h)])
  }

  /** `UpdateModuleInfo`: `package` is taken out, then every module of `source` not present is added. */
  function MergeModules(modules: map<string, Module>, source: map<string, Module>, package: string)
    : map<string, Module>
  {
    source + (modules - {package})
  }

  /** Only `package` is replaced; the other modules stay, and those that were missing come in. */
  lemma MergeReplacesOne(modules: map<string, Module>, source: map<string, Module>, package: string)
    ensures var merged := MergeModules(modules, source, package);
            && merged.Keys == modules.Keys - {package} + source.Keys
            && forall p :: p in merged ==>
                 merged[p] == if p in modules && p != package then modules[p] else source[p]
  {
  }
}

/**
 The entries `BundleDataMgr` keeps for one bundle name, and its operations on them as functions.
 `saved` is the outcome of the write to storage that an operation makes.
 */
module BundleSlots {
  import opened Basics
  import opened InstallStates
  import opened BundleRecords

  datatype Slot = Slot(state: Option<InstallState>, info: Option<Record>)

  predicate Accepts(s: Slot, to: InstallState) {
    match s.state
    case None => to == InstallState.INSTALL_START
    case Some(from) => Edge(from, to)
  }

  /** `UpdateBundleInstallState`. A delete state is never stored: it removes the entries instead. */
  function SetState(s: Slot, to: InstallState): Slot {
    if !Accepts(s, to) then s
    else if IsDeleteDataState(to) then Slot(None, if to == INSTALL_FAIL then s.info else None)
    else s.(state := Some(to))
  }

  /** Does this state change delete the stored record? */
  predicate DeletesRecord(s: Slot, to: InstallState) {
    Accepts(s, to) && IsDeleteDataState(to) && to != INSTALL_FAIL && s.info.Some?
  }

  /** The result of an operation that also rewrites the caller's copy of the record. */
  datatype Change = Change(slot: Slot, copy: Record, ok: bool)

  predicate CanAddBundle(s: Slot) { s.info == None && s.state == Some(InstallState.INSTALL_START) }

  function AddInnerBundleInfo(s: Slot, r: Record, saved: bool): Slot {
    if CanAddBundle(s) && saved then s.(info := Some(r)) else s
  }

  /** The new-module rewrite: the version follows only when no entry module pins it. */
  function WithNewModule(r: Record, h: Hap): Record {
    var based := if !HasEntry(r.modules) || r.installFree then r.(version := h.version) else r;
    AddModule(based, h).(enabled := true)
  }

  function AddNewModuleInfo(s: Slot, h: Hap, copy: Record, saved: bool): Change {
    if s.info == None || s.state != Some(UPDATING_SUCCESS) then Change(s, copy, false)
    else
      var r := WithNewModule(copy, h);
      if saved then Change(s.(info := Some(r)), r, true) else Change(s, r, false)
  }

  /** Reports success even when nothing was removed or saved. */
  function RemoveModuleInfo(s: Slot, package: string, copy: Record, saved: bool): Change {
    if s.info == None || s.state == None then Change(s, copy, false)
    else if s.state != Some(UNINSTALL_START) && s.state != Some(ROLL_BACK) then Change(s, copy, true)
    else
      var r := DropModule(copy, package).(enabled := true);
      Change(if saved then s.(info := Some(r)) else s, r, true)
  }

  /** The module-update rewrite, also used to put an old record back during rollback. */
  function Updated(r: Record, source: Record, package: string): Record {
    var based := if HasEntry(source.modules) || !HasEntry(r.modules) || r.installFree
                 then r.(version := source.version) else r;
    based.(modules := MergeModules(r.modules, source.modules, package), enabled := true)
  }

  predicate CanUpdate(s: Slot) {
    s.info.Some? && (s.state == Some(UPDATING_SUCCESS) || s.state == Some(ROLL_BACK) || s.state == Some(USER_CHANGE))
  }

  function UpdateInnerBundleInfo(s: Slot, source: Record, package: string, copy: Record, saved: bool): Change {
    if !CanUpdate(s) then Change(s, copy, false)
    else
      var r := Updated(copy, source, package);
      if saved then Change(s.(info := Some(r)), r, true) else Change(s, r, false)
  }

  /** `GetInnerBundleInfo` leaves the bundle disabled. */
  function Disabled(s: Slot): Slot {
    if s.info.Some? then s.(info := Some(s.info.value.(enabled := false))) else s
  }

  function Enabled(s: Slot): Slot {
    if s.info.Some? then s.(info := Some(s.info.value.(enabled := true))) else s
  }

  function AddUser(s: Slot, user: int, uid: int): Slot {
    if s.info == None then s
    else s.(info := Some(s.info.value.(users := s.info.value.users[user := uid], enabled := true)))
  }

  function RemoveUser(s: Slot, user: int): Slot {
    if s.info == None then s
    else s.(info := Some(s.info.value.(users := s.info.value.users - {user}, enabled := true)))
  }

  /** What holds between operations: a bundle has a record exactly when it has a state. */
  predicate Paired(s: Slot) { s.state.Some? <==> s.info.Some? }

  // ---- Runs of the data manager on one bundle ----

  datatype Operation =
    | ToState(to: InstallState)
    | AddBundle(record: Record, saved: bool)
    | AddModule_(hap: Hap, copy: Record, saved: bool)
    | RemoveModule(package: string, copy: Record, saved: bool)
    | UpdateModule(source: Record, package: string, copy: Record, saved: bool)
    | Enable | Disable
    | UserAdded(user: int, uid: int) | UserRemoved(user: int)

  function Step(s: Slot, op: Operation): Slot {
    match op
    case ToState(to) => SetState(s, to)
    case AddBundle(r, saved) => AddInnerBundleInfo(s, r, saved)
    case AddModule_(h, copy, saved) => AddNewModuleInfo(s, h, copy, saved).slot
    case RemoveModule(p, copy, saved) => RemoveModuleInfo(s, p, copy, saved).slot
    case UpdateModule(source, p, copy, saved) => UpdateInnerBundleInfo(s, source, p, copy, saved).slot
    case Enable => Enabled(s)
    case Disable => Disabled(s)
    case UserAdded(u, uid) => AddUser(s, u, uid)
    case UserRemoved(u) => RemoveUser(s, u)
  }

  /** No delete state is stored, and a record without a state is impossible. */
  predicate Sound(s: Slot) {
    && (s.state.Some? ==> !IsDeleteDataState(s.state.value))
    && (s.info.Some? ==> s.state.Some?)
  }

  predicate AlwaysSound(s: Slot, ops: seq<Operation>)
    decreases |ops|
  {
    Sound(s) && (ops == [] || AlwaysSound(Step(s, ops[0]), ops[1..]))
  }

  /** The one request that breaks the pairing: reporting a failed install of a bundle already recorded. */
  predicate Orphans(s: Slot, op: Operation) {
    op == ToState(INSTALL_FAIL) && s.state == Some(InstallState.INSTALL_START) && s.info.Some?
  }

  predicate NeverOrphans(s: Slot, ops: seq<Operation>)
    decreases |ops|
  {
    ops == [] || (!Orphans(s, ops[0]) && NeverOrphans(Step(s, ops[0]), ops[1..]))
  }

  lemma StepIsSound(s: Slot, op: Operation)
    requires Sound(s)
    ensures Sound(Step(s, op)) <==> !Orphans(s, op)
    ensures Step(s, op).state.Some? ==> !IsDeleteDataState(Step(s, op).state.value)
  {
  }

  /** A run stays sound at every point if and only if it never orphans a record. */
  lemma {:induction false} SoundRuns(s: Slot, ops: seq<Operation>)
    requires Sound(s)
    ensures AlwaysSound(s, ops) <==> NeverOrphans(s, ops)
    decreases |ops|
  {
    if ops != [] {
      StepIsSound(s, ops[0]);
      if Sound(Step(s, ops[0])) { SoundRuns(Step(s, ops[0]), ops[1..]); }
    }
  }

  datatype Landmark = Begun | Deleted

  /** The accepted install starts and the accepted deletions of a run, in order. */
  function Landmarks(s: Slot, ops: seq<Operation>): seq<Landmark>
    decreases |ops|
  {
    if ops == [] then []
    else
      var rest := Landmarks(Step(s, ops[0]), ops[1..]);
      if ops[0].ToState? && Accepts(s, ops[0].to) then
        if ops[0].to == InstallState.INSTALL_START then [Begun] + rest
        else if IsDeleteDataState(ops[0].to) then [Deleted] + rest
        else rest
      else rest
  }

  predicate Alternating(marks: seq<Landmark>, first: Landmark) {
    marks == [] || (marks[0] == first && Alternating(marks[1..], if first == Begun then Deleted else Begun))
  }

  /** Install starts and deletions strictly alternate, a start first for a bundle without a state. */
  lemma {:induction false} StartsAndDeletionsAlternate(s: Slot, ops: seq<Operation>)
    requires s.state.Some? ==> !IsDeleteDataState(s.state.value)
    ensures Alternating(Landmarks(s, ops), if s.state == None then Begun else Deleted)
    decreases |ops|
  {
    if ops != [] {
      StartsAndDeletionsAlternate(Step(s, ops[0]), ops[1..]);
      var rest, marks := Landmarks(Step(s, ops[0]), ops[1..]), Landmarks(s, ops);
      assert marks == rest || (|marks| > 0 && marks[1..] == rest);
    }
  }
}
