/** Path names as the file system reads them: repeated separators count once. */
module Paths {
  const SEPARATOR: char := '/'

  /** `current` is the component being read. */
  function Components(path: string, current: string): seq<string>
    decreases |path|
  {
    if path == "" then (if current == "" then [] else [current])
    else if path[0] == SEPARATOR then (if current == "" then [] else [current]) + Components(path[1..], "")
    else Components(path[1..], current + [path[0]])
  }

  predicate PlainName(name: string) { name != "" && SEPARATOR !in name }

  lemma {:induction false} PlainNameIsOneComponent(name: string, current: string)
    requires SEPARATOR !in name
    ensures Components(name, current) == if current + name == "" then [] else [current + name]
    decreases |name|
  {
    if name == "" {
      assert current + name == current;
    } else {
      PlainNameIsOneComponent(name[1..], current + [name[0]]);
      assert current + [name[0]] + name[1..] == current + name;
    }
  }

  /** Joined behind a separator, the name is a component of its own. */
  lemma {:induction false} JoinedBehindSeparator(base: string, name: string, current: string)
    requires PlainName(name) && base != "" && base[|base| - 1] == SEPARATOR
    ensures Components(base + name, current) == Components(base, current) + [name]
    decreases |base|
  {
    assert (base + name)[0] == base[0] && (base + name)[1..] == base[1..] + name;
    var done := if current == "" then [] else [current];
    if |base| == 1 {
      PlainNameIsOneComponent(name, "");
      assert "" + name == name && base[1..] + name == name;
    } else if base[0] == SEPARATOR {
      JoinedBehindSeparator(base[1..], name, "");
    } else {
      JoinedBehindSeparator(base[1..], name, current + [base[0]]);
    }
  }

  /** Joined directly, it only lengthens the last component. */
  lemma {:induction false} JoinedDirectly(base: string, name: string, current: string)
    requires PlainName(name) && base != "" && base[|base| - 1] != SEPARATOR
    ensures |Components(base + name, current)| == |Components(base, current)|
    decreases |base|
  {
    assert (base + name)[0] == base[0] && (base + name)[1..] == base[1..] + name;
    if |base| == 1 {
      PlainNameIsOneComponent(name, current + [base[0]]);
      assert base[1..] + name == name && base[1..] == "";
    } else if base[0] == SEPARATOR {
      JoinedDirectly(base[1..], name, "");
    } else {
      JoinedDirectly(base[1..], name, current + [base[0]]);
    }
  }

  /** `Constants::BUNDLE_CODE_DIR`. */
  const BUNDLE_CODE_DIR: string := "/data/app/el1/bundle/public"

  /** Where `CreateBundleCodeDir` puts a bundle's code. */
  function InstallRoot(base: string, name: string): seq<string> { Components(base + "/" + name, "") }

  /** Where `HandleInvalidBundle` looks for it. */
  function RecoveryRoot(base: string, name: string): seq<string> { Components(base + name, "") }

  /** The two joins name the same directory exactly when the constant ends with a separator. */
  lemma RootsAgree(base: string, name: string)
    requires PlainName(name) && base != ""
    ensures InstallRoot(base, name) == RecoveryRoot(base, name) <==> base[|base| - 1] == SEPARATOR
  {
    JoinedBehindSeparator(base + "/", name, "");
    SeparatorEndsComponent(base, "");
    if base[|base| - 1] == SEPARATOR {
      JoinedBehindSeparator(base, name, "");
    } else {
      JoinedDirectly(base, name, "");
    }
  }

  lemma {:induction false} SeparatorEndsComponent(base: string, current: string)
    ensures Components(base + "/", current) == Components(base, current)
    decreases |base|
  {
    if base == "" {
      assert base + "/" == "/";
      assert Components("", "") == [];
    } else {
      assert (base + "/")[0] == base[0] && (base + "/")[1..] == base[1..] + "/";
      SeparatorEndsComponent(base[1..], if base[0] == SEPARATOR then "" else current + [base[0]]);
    }
  }
}

/**
 The calls that reach storage or the code directories, and what a power cut in the middle of one
 leaves behind. One bundle; directories are keyed by the bundle's root, the package and the
 temporary suffix.
 */
module DurableCalls {
  import opened Basics
  import opened BundleRecords

  type Root = seq<string>
  datatype Dir = Dir(root: Root, package: string, tmp: bool)

  /** Half-written and half-deleted directories are not told apart. */
  datatype Code = Partial | Full(version: nat)

  datatype Durable = Durable(store: Option<Record>, code: map<Dir, Code>)

  datatype Call =
    | Save(record: Record)                                     // SaveStorageBundleInfo
    | Erase                                                    // DeleteStorageBundleInfo
    | MakeBundleDir                                            // CreateBundleDir: an old directory is removed first
    | Extract(package: string, tmp: bool, version: nat)        // ExtractModuleFiles
    | RemoveBundleDir                                          // RemoveDir of the bundle's root
    | RemoveModuleDir(package: string, tmp: bool)              // RemoveDir of one module's directory
    | Rename(package: string)                                  // RenameModuleDir from the temporary name

  function RemoveRoot(code: map<Dir, Code>, root: Root): map<Dir, Code> {
    map d | d in code && d.root != root :: code[d]
  }

  /** `InstalldOperator::RenameDir`: nothing to do when the source is gone and the target is there. */
  function Renamed(code: map<Dir, Code>, root: Root, package: string): map<Dir, Code> {
    var source, target := Dir(root, package, true), Dir(root, package, false);
    if source in code then (code - {source})[target := code[source]] else code
  }

  predicate RenameSucceeds(code: map<Dir, Code>, root: Root, package: string) {
    Dir(root, package, true) in code || Dir(root, package, false) in code
  }

  /** The completed effect of a call. */
  function Do(d: Durable, root: Root, c: Call): Durable {
    match c
    case Save(r) => d.(store := Some(r))
    case Erase => d.(store := None)
    case MakeBundleDir => d.(code := RemoveRoot(d.code, root))
    case Extract(p, tmp, v) => d.(code := d.code[Dir(root, p, tmp) := Full(v)])
    case RemoveBundleDir => d.(code := RemoveRoot(d.code, root))
    case RemoveModuleDir(p, tmp) => d.(code := d.code - {Dir(root, p, tmp)})
    case Rename(p) => d.(code := Renamed(d.code, root, p))
  }

  /** Directories of the root may be gone or half gone; the others are untouched. */
  ghost predicate PartlyRemoved(code: map<Dir, Code>, m: map<Dir, Code>, root: Root) {
    && m.Keys <= code.Keys
    && forall d :: d in code ==> if d.root == root then d in m ==> m[d] == code[d] || m[d] == Partial
                                 else d in m && m[d] == code[d]
  }

  /** `m` may be found on the device when the power fails during call `c`. */
  ghost predicate Mid(d: Durable, root: Root, c: Call, m: Durable) {
    m == d || m == Do(d, root, c) ||
    match c
    case Save(_) => false
    case Erase => false
    case MakeBundleDir => m.store == d.store && PartlyRemoved(d.code, m.code, root)
    case RemoveBundleDir => m.store == d.store && PartlyRemoved(d.code, m.code, root)
    case Extract(p, tmp, _) => m == d.(code := d.code[Dir(root, p, tmp) := Partial])
    case RemoveModuleDir(p, tmp) => Dir(root, p, tmp) in d.code && m == d.(code := d.code[Dir(root, p, tmp) := Partial])
    case Rename(p) =>
      // the old directory is deleted before the new one takes its name
      && Dir(root, p, true) in d.code
      && (m == d.(code := d.code[Dir(root, p, false) := Partial]) || m == d.(code := d.code - {Dir(root, p, false)}))
  }

  /** `m` may be found after a cut anywhere in a sequence of calls. */
  ghost predicate Cut(d: Durable, root: Root, calls: seq<Call>, m: Durable)
    decreases |calls|
  {
    if calls == [] then m == d
    else Mid(d, root, calls[0], m) || Cut(Do(d, root, calls[0]), root, calls[1..], m)
  }

  function DoAll(d: Durable, root: Root, calls: seq<Call>): Durable
    decreases |calls|
  {
    if calls == [] then d else DoAll(Do(d, root, calls[0]), root, calls[1..])
  }

  /** Directory calls can be cut halfway: at any point of a removal, in an extraction, and on both sides of a rename. */
  lemma HalfwayIsPossible(d: Durable, root: Root, p: string, tmp: bool, v: nat, left: map<Dir, Code>)
    ensures Mid(d, root, Extract(p, tmp, v), d.(code := d.code[Dir(root, p, tmp) := Partial]))
    ensures Dir(root, p, tmp) in d.code ==>
              Mid(d, root, RemoveModuleDir(p, tmp), d.(code := d.code[Dir(root, p, tmp) := Partial]))
    ensures Dir(root, p, true) in d.code ==>
              && Mid(d, root, Rename(p), d.(code := d.code[Dir(root, p, false) := Partial]))
              && Mid(d, root, Rename(p), d.(code := d.code - {Dir(root, p, false)}))
    ensures left.Keys <= d.code.Keys
            && (forall x :: x in d.code && x.root != root ==> x in left && left[x] == d.code[x])
            && (forall x :: x in left && x.root == root ==> left[x] == d.code[x] || left[x] == Partial) ==>
              Mid(d, root, RemoveBundleDir, d.(code := left)) && Mid(d, root, MakeBundleDir, d.(code := left))
  {
  }
}

/**
 Boot-time repair (services/bundlemgr/src/bundle_exception_handler.cpp:40-89), with its directory calls
 succeeding, and the crash consistency of the single-package operations.
 */
module CrashRecovery {
  import opened Basics
  import opened BundleRecords
  import opened DurableCalls
  import opened Paths

  /** `loaded` is what `LoadAllData` keeps in memory for the bundle. */
  datatype Recovered = Recovered(durable: Durable, loaded: Option<Record>)

  function Repaired(r: Record): Record {
    r.(mark := InstallMark(r.mark.package, INSTALL_FINISH), enabled := true)
  }

  /** `HandleInvalidBundle` working on directory `root`. */
  function Recover(d: Durable, root: Root): Recovered {
    match d.store
    case None => Recovered(d, None)
    case Some(r) =>
      var p := r.mark.package;
      match r.mark.status
      case INSTALL_FINISH => Recovered(d, Some(r))
      case INSTALL_START => Recovered(Durable(None, RemoveRoot(d.code, root)), None)
      case UPDATING_EXISTED_START => Recovered(d.(code := d.code - {Dir(root, p, true)}), Some(Repaired(r)))
      case UPDATING_NEW_START => Recovered(d.(code := d.code - {Dir(root, p, false)}), Some(Repaired(r)))
      case UNINSTALL_BUNDLE_START => Recovered(Durable(None, RemoveRoot(d.code, root)), None)
      case UNINSTALL_PACKAGE_START =>
        if IsOnlyModule(r, p) then Recovered(Durable(None, RemoveRoot(d.code, root)), None)
        else Recovered(d.(code := d.code - {Dir(root, p, false)}), Some(Repaired(DropModule(r, p))))
      case UPDATING_FINISH =>
        if RenameSucceeds(d.code, root, p) then
          Recovered(d.(code := Renamed(d.code, root, p)), Some(r.(mark := InstallMark(p, INSTALL_FINISH))))
        else Recovered(d, Some(r))
      case UNKNOWN_STATUS => Recovered(d, Some(r))
  }

  /** What the rest of the system sees: the loaded record without its mark, and the code directories. */
  datatype View = View(record: Option<Record>, code: map<Dir, Code>)

  function Unmarked(r: Record): Record { r.(mark := InstallMark("", UNKNOWN_STATUS)) }

  function Seen(o: Recovered): View {
    View(if o.loaded.Some? then Some(Unmarked(o.loaded.value)) else None, o.durable.code)
  }

  function SeenAfterBoot(d: Durable, root: Root): View { Seen(Recover(d, root)) }

  /** The directories a record describes. */
  function CodeOf(r: Record, root: Root): map<Dir, Code> {
    map p | p in r.modules :: Dir(root, p, false) := Full(r.modules[p].version)
  }

  /** The record the next boot loads. */
  function Held(d: Durable, root: Root): Option<Record> { Recover(d, root).loaded }

  /**
   A bundle at rest: the next boot changes nothing, and it loads either no bundle and finds no code, or an enabled
   record whose code is exactly on disk. The stored mark may still be that of an operation repaired before.
   */
  predicate AtRest(d: Durable, root: Root) {
    && Recover(d, root).durable == d
    && match Held(d, root)
       case None => d.code == map[]
       case Some(r) => r.enabled && d.code == CodeOf(r, root)
  }

  /** At rest, with record `r` in memory; only its mark may differ from the one the next boot would load. */
  predicate RestsWith(d: Durable, root: Root, r: Record) {
    AtRest(d, root) && Held(d, root).Some? && Unmarked(Held(d, root).value) == Unmarked(r)
  }

  // ---- The calls of the single-package operations ----

  /** First install: mark, directory, code, record; the closing rename finds nothing to do. */
  function InstallCalls(marked: Record, done: Record, p: string, version: nat): seq<Call> {
    [Save(marked), MakeBundleDir, Extract(p, false, version), Save(done), Rename(p)]
  }

  function MarkedFor(r: Record, p: string, status: InstallExceptionStatus): Record {
    SetMark(r.(enabled := false), p, status)
  }

  function UpdateCalls(r: Record, updated: Record, p: string, version: nat): seq<Call> {
    [Save(MarkedFor(r, p, UPDATING_EXISTED_START)), Extract(p, true, version), Save(updated), Rename(p)]
  }

  function AddCalls(r: Record, extended: Record, p: string, version: nat): seq<Call> {
    [Save(MarkedFor(r, p, UPDATING_NEW_START)), Extract(p, false, version), Save(extended), Rename(p)]
  }

  /** The record a module uninstall leaves. */
  function LeftWithout(r: Record, p: string): Record { SetMark(DropModule(r, p), p, INSTALL_FINISH) }

  function UninstallModuleCalls(r: Record, p: string): seq<Call> {
    var marked := MarkedFor(r, p, UNINSTALL_PACKAGE_START);
    if IsOnlyModule(r, p) then [Save(marked), RemoveBundleDir, Erase]
    else [Save(marked), RemoveModuleDir(p, false), Save(LeftWithout(r, p))]
  }

  function UninstallBundleCalls(r: Record): seq<Call> {
    [Save(MarkedFor(r, "", UNINSTALL_BUNDLE_START)), RemoveBundleDir, Erase]
  }

  /** One of the two outcomes, and a second boot changes nothing. */
  ghost predicate Consistent(m: Durable, root: Root, pre: Durable, post: Durable) {
    && (SeenAfterBoot(m, root) == SeenAfterBoot(pre, root) || SeenAfterBoot(m, root) == SeenAfterBoot(post, root))
    && Recover(Recover(m, root).durable, root) == Recover(m, root)
  }

  lemma RestSeen(d: Durable, root: Root)
    requires AtRest(d, root)
    ensures SeenAfterBoot(d, root).code == d.code && Consistent(d, root, d, d)
  {
  }

  lemma RestsSeen(d: Durable, root: Root, r: Record)
    requires RestsWith(d, root, r)
    ensures SeenAfterBoot(d, root) == View(Some(Unmarked(r)), d.code)
    ensures r.enabled && d.code == CodeOf(r, root)
  {
    assert CodeOf(Unmarked(r), root) == CodeOf(r, root);
    assert CodeOf(Unmarked(Held(d, root).value), root) == d.code;
  }

  /** No operation is under way. */
  predicate Closed(s: InstallExceptionStatus) { s == INSTALL_FINISH || s == UPDATING_FINISH || s == UNKNOWN_STATUS }

  /** Whatever a boot loads has such a mark. */
  lemma LoadedIsClosed(d: Durable, root: Root)
    ensures Held(d, root).Some? ==> Closed(Held(d, root).value.mark.status)
  {
  }

  /** A saved record with such a mark and its code rest together. */
  lemma SavedRests(r: Record, root: Root)
    requires r.enabled && Closed(r.mark.status)
    ensures RestsWith(Durable(Some(r), CodeOf(r, root)), root, r)
  {
    var d := Durable(Some(r), CodeOf(r, root));
    assert Dir(root, r.mark.package, true) !in d.code;
    assert CodeOf(r.(mark := InstallMark(r.mark.package, INSTALL_FINISH)), root) == d.code;
  }

  lemma Unroll(d: Durable, root: Root, c: Call, rest: seq<Call>, m: Durable)
    ensures Cut(d, root, [c] + rest, m) <==> Mid(d, root, c, m) || Cut(Do(d, root, c), root, rest, m)
    ensures DoAll(d, root, [c] + rest) == DoAll(Do(d, root, c), root, rest)
  {
    assert ([c] + rest)[0] == c && ([c] + rest)[1..] == rest;
  }

  lemma Unroll3(d: Durable, root: Root, a: Call, b: Call, c: Call, m: Durable)
    ensures var d1 := Do(d, root, a); var d2 := Do(d1, root, b);
            && (Cut(d, root, [a, b, c], m) <==> Mid(d, root, a, m) || Mid(d1, root, b, m) || Mid(d2, root, c, m))
            && DoAll(d, root, [a, b, c]) == Do(d2, root, c)
  {
    var d1 := Do(d, root, a);
    var d2 := Do(d1, root, b);
    assert [a] + [b, c] == [a, b, c] && [b] + [c] == [b, c] && [c] + [] == [c];
    Unroll(d, root, a, [b, c], m);
    Unroll(d1, root, b, [c], m);
    Unroll(d2, root, c, [], m);
  }

  lemma Unroll4(d: Durable, root: Root, a: Call, b: Call, c: Call, e: Call, m: Durable)
    ensures var d1 := Do(d, root, a); var d2 := Do(d1, root, b); var d3 := Do(d2, root, c);
            && (Cut(d, root, [a, b, c, e], m)
                <==> Mid(d, root, a, m) || Mid(d1, root, b, m) || Mid(d2, root, c, m) || Mid(d3, root, e, m))
            && DoAll(d, root, [a, b, c, e]) == Do(d3, root, e)
  {
    assert [a] + [b, c, e] == [a, b, c, e];
    Unroll(d, root, a, [b, c, e], m);
    Unroll3(Do(d, root, a), root, b, c, e, m);
  }

  /** Removing the root of a bundle at rest, wholly or in part, leaves nothing that recovery would keep. */
  lemma RemovalEmpties(r: Record, root: Root, m: map<Dir, Code>)
    requires PartlyRemoved(CodeOf(r, root), m, root)
    ensures RemoveRoot(CodeOf(r, root), root) == map[] && RemoveRoot(m, root) == map[]
  {
  }

  lemma Unroll5(d: Durable, root: Root, a: Call, b: Call, c: Call, e: Call, f: Call, m: Durable)
    ensures var d1 := Do(d, root, a); var d2 := Do(d1, root, b); var d3 := Do(d2, root, c); var d4 := Do(d3, root, e);
            && (Cut(d, root, [a, b, c, e, f], m)
                <==> Mid(d, root, a, m) || Mid(d1, root, b, m) || Mid(d2, root, c, m) || Mid(d3, root, e, m)
                     || Mid(d4, root, f, m))
            && DoAll(d, root, [a, b, c, e, f]) == Do(d4, root, f)
  {
    assert [a] + [b, c, e, f] == [a, b, c, e, f];
    Unroll(d, root, a, [b, c, e, f], m);
    Unroll4(Do(d, root, a), root, b, c, e, f, m);
  }

  // ---- Each operation: every cut recovers to one of its two ends ----

  lemma BundleUninstallIsCrashConsistent(d: Durable, root: Root, r: Record, m: Durable)
    requires RestsWith(d, root, r)
    requires Cut(d, root, UninstallBundleCalls(r), m)
    ensures DoAll(d, root, UninstallBundleCalls(r)) == Durable(None, map[])
    ensures Consistent(m, root, d, DoAll(d, root, UninstallBundleCalls(r)))
  {
    RestsSeen(d, root, r);
    Unroll3(d, root, Save(MarkedFor(r, "", UNINSTALL_BUNDLE_START)), RemoveBundleDir, Erase, m);
    RemovalEmpties(r, root, d.code);
    if PartlyRemoved(d.code, m.code, root) { RemovalEmpties(r, root, m.code); }
    assert RemoveRoot(map[], root) == map[];
  }

  lemma OnlyModuleUninstall(d: Durable, root: Root, r: Record, p: string, m: Durable)
    requires RestsWith(d, root, r) && IsOnlyModule(r, p)
    requires Cut(d, root, UninstallModuleCalls(r, p), m)
    ensures DoAll(d, root, UninstallModuleCalls(r, p)) == Durable(None, map[])
    ensures Consistent(m, root, d, DoAll(d, root, UninstallModuleCalls(r, p)))
  {
    RestsSeen(d, root, r);
    Unroll3(d, root, Save(MarkedFor(r, p, UNINSTALL_PACKAGE_START)), RemoveBundleDir, Erase, m);
    RemovalEmpties(r, root, d.code);
    if PartlyRemoved(d.code, m.code, root) { RemovalEmpties(r, root, m.code); }
    assert RemoveRoot(map[], root) == map[];
  }

  /** Recovery from an interrupted module removal finishes it. */
  lemma DirRemoved(m: Durable, root: Root, marked: Record, left: Record, code: map<Dir, Code>)
    requires m.store == Some(marked) && marked.mark.status == UNINSTALL_PACKAGE_START
    requires !IsOnlyModule(marked, marked.mark.package)
    requires Unmarked(left) == Unmarked(DropModule(marked, marked.mark.package).(enabled := true))
    requires m.code - {Dir(root, marked.mark.package, false)} == code && Dir(root, marked.mark.package, false) !in code
    ensures SeenAfterBoot(m, root) == View(Some(Unmarked(left)), code)
    ensures Recover(Recover(m, root).durable, root) == Recover(m, root)
  {
    assert code - {Dir(root, marked.mark.package, false)} == code;
  }

  lemma OneOfManyUninstall(d: Durable, root: Root, r: Record, p: string, m: Durable)
    requires RestsWith(d, root, r) && p in r.modules && !IsOnlyModule(r, p)
    requires Cut(d, root, UninstallModuleCalls(r, p), m)
    ensures RestsWith(DoAll(d, root, UninstallModuleCalls(r, p)), root, LeftWithout(r, p))
    ensures Consistent(m, root, d, DoAll(d, root, UninstallModuleCalls(r, p)))
  {
    var dir, marked, left := Dir(root, p, false), MarkedFor(r, p, UNINSTALL_PACKAGE_START), LeftWithout(r, p);
    var post := Durable(Some(left), d.code - {dir});
    RestsSeen(d, root, r);
    assert CodeOf(left, root) == d.code - {dir};
    Unroll3(d, root, Save(marked), RemoveModuleDir(p, false), Save(left), m);
    RestSeen(d, root);
    SavedRests(left, root);
    RestsSeen(post, root, left);
    if m != d && m != post {
      assert m.store == Some(marked) && m.code - {dir} == d.code - {dir};
      DirRemoved(m, root, marked, left, d.code - {dir});
    }
  }

  lemma ModuleUninstallIsCrashConsistent(d: Durable, root: Root, r: Record, p: string, m: Durable)
    requires RestsWith(d, root, r) && p in r.modules
    requires Cut(d, root, UninstallModuleCalls(r, p), m)
    ensures var post := DoAll(d, root, UninstallModuleCalls(r, p));
            && (if IsOnlyModule(r, p) then post == Durable(None, map[]) else RestsWith(post, root, LeftWithout(r, p)))
            && Consistent(m, root, d, post)
  {
    if IsOnlyModule(r, p) {
      OnlyModuleUninstall(d, root, r, p, m);
    } else {
      OneOfManyUninstall(d, root, r, p, m);
    }
  }

  /** The record that announces a first install, and the one that ends it. */
  predicate IsInstallOf(marked: Record, done: Record, p: string, module_: Module) {
    && marked.mark == InstallMark(p, INSTALL_START)
    && done.mark == InstallMark(p, INSTALL_FINISH) && done.enabled && done.modules == map[p := module_]
  }

  lemma InstallIsCrashConsistent(d: Durable, root: Root, marked: Record, done: Record, p: string, module_: Module,
                                 m: Durable)
    requires AtRest(d, root) && d.store == None && IsInstallOf(marked, done, p, module_)
    requires Cut(d, root, InstallCalls(marked, done, p, module_.version), m)
    ensures RestsWith(DoAll(d, root, InstallCalls(marked, done, p, module_.version)), root, done)
    ensures Consistent(m, root, d, DoAll(d, root, InstallCalls(marked, done, p, module_.version)))
  {
    var dir := Dir(root, p, false);
    Unroll5(d, root, Save(marked), MakeBundleDir, Extract(p, false, module_.version), Save(done), Rename(p), m);
    assert RemoveRoot(map[], root) == map[];
    assert RemoveRoot(map[dir := Partial], root) == map[];
    assert RemoveRoot(map[dir := Full(module_.version)], root) == map[];
    assert CodeOf(done, root) == map[dir := Full(module_.version)];
    SavedRests(done, root);
  }

  function OtherRoots(code: map<Dir, Code>, root: Root): map<Dir, Code> {
    map d | d in code && d.root != root :: code[d]
  }

  /**
   A first install over what an uninstall left behind when directories could not be removed: it ends with exactly the
   code of its record, and a cut once its mark is saved recovers to that end or to no trace of the bundle.
   */
  lemma InstallClearsLeftovers(d: Durable, root: Root, marked: Record, done: Record, p: string, module_: Module,
                               m: Durable)
    requires d.store == None && IsInstallOf(marked, done, p, module_)
    requires Cut(Durable(Some(marked), d.code), root, InstallCalls(marked, done, p, module_.version)[1..], m)
    ensures var post := DoAll(d, root, InstallCalls(marked, done, p, module_.version));
            && post.store == Some(done) && OtherRoots(post.code, root) == OtherRoots(d.code, root)
            && (forall x :: x in post.code && x.root == root ==> x == Dir(root, p, false))
            && Dir(root, p, false) in post.code && post.code[Dir(root, p, false)] == Full(module_.version)
            && var o := Recover(m, root);
               && OtherRoots(o.durable.code, root) == OtherRoots(d.code, root)
               && if m == post then o.loaded == Some(done) && o.durable == post
                  else o.loaded == None && o.durable.store == None && forall x :: x in o.durable.code ==> x.root != root
  {
    var e, dir := Durable(Some(marked), d.code), Dir(root, p, false);
    var calls := InstallCalls(marked, done, p, module_.version);
    assert calls == [Save(marked)] + calls[1..];
    Unroll(d, root, Save(marked), calls[1..], m);
    assert calls[1..] == [MakeBundleDir, Extract(p, false, module_.version), Save(done), Rename(p)];
    Unroll4(e, root, MakeBundleDir, Extract(p, false, module_.version), Save(done), Rename(p), m);
    var cleared := RemoveRoot(d.code, root);
    assert forall x :: x in cleared ==> x.root != root;
    assert Dir(root, p, true) !in cleared[dir := Full(module_.version)];
    assert Renamed(cleared[dir := Full(module_.version)], root, p) == cleared[dir := Full(module_.version)];
    assert OtherRoots(cleared[dir := Full(module_.version)], root) == OtherRoots(d.code, root);
    if m.store == Some(marked) {
      assert forall x: Dir :: x.root != root ==>
          (x in m.code <==> x in d.code) && (x in m.code ==> m.code[x] == d.code[x]);
      assert RemoveRoot(m.code, root) == RemoveRoot(d.code, root);
    }
  }

  /** The record `ProcessModuleUpdate` saves: module `p` replaced, the others kept, marked as updated. */
  predicate IsUpdateOf(updated: Record, r: Record, p: string, module_: Module) {
    && updated.modules == r.modules[p := module_] && updated.enabled
    && updated.mark == InstallMark(p, UPDATING_FINISH)
  }

  /** Recovery from a marked update or addition takes the staged directory away. */
  lemma StagingRemoved(m: Durable, root: Root, marked: Record, dir: Dir, code: map<Dir, Code>)
    requires m.store == Some(marked)
    requires || (marked.mark.status == UPDATING_EXISTED_START && dir == Dir(root, marked.mark.package, true))
             || (marked.mark.status == UPDATING_NEW_START && dir == Dir(root, marked.mark.package, false))
    requires m.code - {dir} == code
    ensures SeenAfterBoot(m, root) == View(Some(Unmarked(marked.(enabled := true))), code)
    ensures Recover(Recover(m, root).durable, root) == Recover(m, root)
  {
    assert code - {dir} == code;
  }

  /** Recovery from a finished update gives the staged directory its name. */
  lemma StagingPromoted(m: Durable, root: Root, updated: Record, code: map<Dir, Code>)
    requires m.store == Some(updated) && updated.mark.status == UPDATING_FINISH
    requires RenameSucceeds(m.code, root, updated.mark.package) && Renamed(m.code, root, updated.mark.package) == code
    ensures SeenAfterBoot(m, root) == View(Some(Unmarked(updated)), code)
    ensures Recover(Recover(m, root).durable, root) == Recover(m, root)
  {
    var p := updated.mark.package;
    assert Dir(root, p, true) !in code && Dir(root, p, false) in code;
  }

  lemma StagedRename(code: map<Dir, Code>, root: Root, p: string, v: nat)
    requires Dir(root, p, true) !in code
    ensures var dir, staged := Dir(root, p, false), code[Dir(root, p, true) := Full(v)];
            && Renamed(staged, root, p) == code[dir := Full(v)]
            && Renamed(staged[dir := Partial], root, p) == code[dir := Full(v)]
            && Renamed(staged - {dir}, root, p) == code[dir := Full(v)]
            && Renamed(code[dir := Full(v)], root, p) == code[dir := Full(v)]
  {
  }

  /** The states an update passes through: old code with or without a staging directory, then the new record. */
  lemma UpdatePhases(d: Durable, root: Root, r: Record, updated: Record, p: string, v: nat, m: Durable)
    requires d.code == CodeOf(r, root) && p in r.modules
    requires Cut(d, root, UpdateCalls(r, updated, p, v), m)
    ensures var dir, tmp := Dir(root, p, false), Dir(root, p, true);
            var renamed := d.code[dir := Full(v)];
            && DoAll(d, root, UpdateCalls(r, updated, p, v)) == Durable(Some(updated), renamed)
            && (|| m == d
                || (m.store == Some(MarkedFor(r, p, UPDATING_EXISTED_START)) && m.code - {tmp} == d.code)
                || (m.store == Some(updated) && RenameSucceeds(m.code, root, p) && Renamed(m.code, root, p) == renamed))
  {
    var dir, tmp := Dir(root, p, false), Dir(root, p, true);
    var marked, staged := MarkedFor(r, p, UPDATING_EXISTED_START), d.code[tmp := Full(v)];
    Unroll4(d, root, Save(marked), Extract(p, true, v), Save(updated), Rename(p), m);
    assert tmp !in d.code && dir in d.code;
    assert d.code - {tmp} == d.code == d.code[tmp := Partial] - {tmp} == staged - {tmp};
    StagedRename(d.code, root, p, v);
  }

  lemma UpdateIsCrashConsistent(d: Durable, root: Root, r: Record, updated: Record, p: string, module_: Module,
                                m: Durable)
    requires RestsWith(d, root, r) && p in r.modules && IsUpdateOf(updated, r, p, module_)
    requires Cut(d, root, UpdateCalls(r, updated, p, module_.version), m)
    ensures RestsWith(DoAll(d, root, UpdateCalls(r, updated, p, module_.version)), root, updated)
    ensures Consistent(m, root, d, DoAll(d, root, UpdateCalls(r, updated, p, module_.version)))
  {
    var v := module_.version;
    var renamed := d.code[Dir(root, p, false) := Full(v)];
    RestsSeen(d, root, r);
    UpdatePhases(d, root, r, updated, p, v, m);
    assert CodeOf(updated, root) == renamed;
    SavedRests(updated, root);
    RestSeen(d, root);
    RestsSeen(Durable(Some(updated), renamed), root, updated);
    if m != d {
      if m.store == Some(updated) {
        StagingPromoted(m, root, updated, renamed);
      } else {
        StagingRemoved(m, root, MarkedFor(r, p, UPDATING_EXISTED_START), Dir(root, p, true), d.code);
      }
    }
  }

  predicate IsExtensionOf(extended: Record, r: Record, p: string, module_: Module) {
    && extended.modules == r.modules[p := module_] && extended.enabled
    && extended.mark == InstallMark(p, INSTALL_FINISH)
  }

  lemma WithoutNew(code: map<Dir, Code>, dir: Dir, v: nat)
    requires dir !in code
    ensures code - {dir} == code && code[dir := Partial] - {dir} == code && code[dir := Full(v)] - {dir} == code
  {
  }

  lemma AddPhases(d: Durable, root: Root, r: Record, extended: Record, p: string, v: nat, m: Durable)
    requires d.code == CodeOf(r, root) && p !in r.modules
    requires Cut(d, root, AddCalls(r, extended, p, v), m)
    ensures var dir := Dir(root, p, false);
            var added := Durable(Some(extended), d.code[dir := Full(v)]);
            && DoAll(d, root, AddCalls(r, extended, p, v)) == added
            && (m == d || m == added
                || (m.store == Some(MarkedFor(r, p, UPDATING_NEW_START)) && m.code - {dir} == d.code))
  {
    var dir := Dir(root, p, false);
    Unroll4(d, root, Save(MarkedFor(r, p, UPDATING_NEW_START)), Extract(p, false, v), Save(extended), Rename(p), m);
    WithoutNew(d.code, dir, v);
    assert Dir(root, p, true) !in d.code;
    assert Renamed(d.code[dir := Full(v)], root, p) == d.code[dir := Full(v)];
  }

  lemma AddedRests(d: Durable, root: Root, r: Record, extended: Record, p: string, module_: Module)
    requires d.code == CodeOf(r, root) && IsExtensionOf(extended, r, p, module_)
    ensures RestsWith(Durable(Some(extended), d.code[Dir(root, p, false) := Full(module_.version)]), root, extended)
  {
    assert CodeOf(extended, root) == d.code[Dir(root, p, false) := Full(module_.version)];
    SavedRests(extended, root);
  }

  lemma AddIsCrashConsistent(d: Durable, root: Root, r: Record, extended: Record, p: string, module_: Module,
                             m: Durable)
    requires RestsWith(d, root, r) && p !in r.modules && IsExtensionOf(extended, r, p, module_)
    requires Cut(d, root, AddCalls(r, extended, p, module_.version), m)
    ensures RestsWith(DoAll(d, root, AddCalls(r, extended, p, module_.version)), root, extended)
    ensures Consistent(m, root, d, DoAll(d, root, AddCalls(r, extended, p, module_.version)))
  {
    hide Cut, DoAll, AddCalls;
    var v, dir := module_.version, Dir(root, p, false);
    var added := Durable(Some(extended), d.code[dir := Full(v)]);
    RestsSeen(d, root, r);
    AddPhases(d, root, r, extended, p, v, m);
    AddedRests(d, root, r, extended, p, module_);
    RestSeen(d, root);
    RestsSeen(added, root, extended);
    if m != d && m != added {
      StagingRemoved(m, root, MarkedFor(r, p, UPDATING_NEW_START), dir, d.code);
    }
  }

  // ---- Runs of operations and power cuts ----

  /** An operation on one package or on the whole bundle, with the records it saves. */
  datatype Operation =
    | Install(marked: Record, done: Record, package: string, module_: Module)
    | Update(updated: Record, package: string, module_: Module)
    | Add(extended: Record, package: string, module_: Module)
    | UninstallModule(package: string)
    | UninstallBundle

  predicate Applies(o: Operation, memory: Option<Record>) {
    match o
    case Install(marked, done, p, x) => memory.None? && IsInstallOf(marked, done, p, x)
    case Update(updated, p, x) => memory.Some? && p in memory.value.modules && IsUpdateOf(updated, memory.value, p, x)
    case Add(extended, p, x) =>
      memory.Some? && p !in memory.value.modules && IsExtensionOf(extended, memory.value, p, x)
    case UninstallModule(p) => memory.Some? && p in memory.value.modules
    case UninstallBundle => memory.Some?
  }

  function OperationCalls(o: Operation, memory: Option<Record>): seq<Call>
    requires Applies(o, memory)
  {
    match o
    case Install(marked, done, p, x) => InstallCalls(marked, done, p, x.version)
    case Update(updated, p, x) => UpdateCalls(memory.value, updated, p, x.version)
    case Add(extended, p, x) => AddCalls(memory.value, extended, p, x.version)
    case UninstallModule(p) => UninstallModuleCalls(memory.value, p)
    case UninstallBundle => UninstallBundleCalls(memory.value)
  }

  /** The record in memory once the operation is complete. */
  function MemoryAfter(o: Operation, memory: Option<Record>): Option<Record>
    requires Applies(o, memory)
  {
    match o
    case Install(_, done, _, _) => Some(done)
    case Update(updated, _, _) => Some(updated)
    case Add(extended, _, _) => Some(extended)
    case UninstallModule(p) => if IsOnlyModule(memory.value, p) then None else Some(LeftWithout(memory.value, p))
    case UninstallBundle => None
  }

  datatype Device = Device(durable: Durable, memory: Option<Record>)

  predicate Rests(s: Device, root: Root) {
    match s.memory
    case None => s.durable == Durable(None, map[])
    case Some(r) => RestsWith(s.durable, root, r)
  }

  function Completed(s: Device, root: Root, o: Operation): Device
    requires Applies(o, s.memory)
  {
    Device(DoAll(s.durable, root, OperationCalls(o, s.memory)), MemoryAfter(o, s.memory))
  }

  function Booted(m: Durable, root: Root): Device { Device(Recover(m, root).durable, Recover(m, root).loaded) }

  /** The operation runs to its end, or the power is cut somewhere in it and the device boots. */
  ghost predicate OperationStep(s: Device, root: Root, o: Operation, t: Device) {
    && Applies(o, s.memory)
    && (t == Completed(s, root, o)
        || exists m :: Cut(s.durable, root, OperationCalls(o, s.memory), m) && t == Booted(m, root))
  }

  lemma OperationIsCrashConsistent(s: Device, root: Root, o: Operation, m: Durable)
    requires Rests(s, root) && Applies(o, s.memory)
    requires Cut(s.durable, root, OperationCalls(o, s.memory), m)
    ensures Rests(Completed(s, root, o), root)
    ensures Consistent(m, root, s.durable, Completed(s, root, o).durable)
  {
    hide Cut, DoAll, Consistent;
    match o
    case Install(marked, done, p, x) => InstallIsCrashConsistent(s.durable, root, marked, done, p, x, m);
    case Update(updated, p, x) => UpdateIsCrashConsistent(s.durable, root, s.memory.value, updated, p, x, m);
    case Add(extended, p, x) => AddIsCrashConsistent(s.durable, root, s.memory.value, extended, p, x, m);
    case UninstallModule(p) => ModuleUninstallIsCrashConsistent(s.durable, root, s.memory.value, p, m);
    case UninstallBundle => BundleUninstallIsCrashConsistent(s.durable, root, s.memory.value, m);
  }

  lemma {:induction false} EndIsCut(d: Durable, root: Root, calls: seq<Call>)
    ensures Cut(d, root, calls, DoAll(d, root, calls))
    decreases |calls|
  {
    if calls != [] { EndIsCut(Do(d, root, calls[0]), root, calls[1..]); }
  }

  /** A consistent recovery leaves the device at rest again. */
  lemma BootedRests(m: Durable, root: Root, pre: Device, post: Device)
    requires Rests(pre, root) && Rests(post, root) && Consistent(m, root, pre.durable, post.durable)
    ensures Rests(Booted(m, root), root)
    ensures SeenAfterBoot(Booted(m, root).durable, root) == SeenAfterBoot(m, root)
  {
    var like := if SeenAfterBoot(m, root) == SeenAfterBoot(pre.durable, root) then pre else post;
    if like.memory.Some? {
      RestsSeen(like.durable, root, like.memory.value);
      var o := Recover(m, root);
      assert Unmarked(o.loaded.value) == Unmarked(like.memory.value);
      assert CodeOf(Unmarked(o.loaded.value), root) == CodeOf(o.loaded.value, root);
      assert CodeOf(Unmarked(like.memory.value), root) == CodeOf(like.memory.value, root);
    }
  }

  predicate OneOf(v: View, pre: Durable, post: Durable, root: Root) {
    v == SeenAfterBoot(pre, root) || v == SeenAfterBoot(post, root)
  }

  predicate AllOrNothing(s: Device, root: Root, o: Operation, t: Device) {
    && Applies(o, s.memory)
    && OneOf(SeenAfterBoot(t.durable, root), s.durable, Completed(s, root, o).durable, root)
  }

  lemma StepIsAtomic(s: Device, root: Root, o: Operation, t: Device)
    requires Rests(s, root) && OperationStep(s, root, o, t)
    ensures Rests(t, root) && AllOrNothing(s, root, o, t)
  {
    hide Cut, DoAll, Recover, Rests;
    var calls := OperationCalls(o, s.memory);
    var m :| Cut(s.durable, root, calls, m) && (t == Completed(s, root, o) || t == Booted(m, root)) by {
      EndIsCut(s.durable, root, calls);
    }
    OperationIsCrashConsistent(s, root, o, m);
    if t != Completed(s, root, o) { BootedRests(m, root, s, Completed(s, root, o)); }
  }

  /**
   Every operation is all or nothing, in any run of operations and power cuts, with the boots in between: the bundle
   is at rest after each step, and a boot would see it as it was before the step or as the step was to leave it.
   */
  lemma {:induction false} RunsAreAtomic(states: seq<Device>, root: Root, operations: seq<Operation>, k: nat)
    requires |states| == |operations| + 1 && Rests(states[0], root)
    requires forall i :: 0 <= i < |operations| ==> OperationStep(states[i], root, operations[i], states[i + 1])
    requires k <= |operations|
    ensures Rests(states[k], root)
    ensures k < |operations| ==> AllOrNothing(states[k], root, operations[k], states[k + 1])
    decreases k
  {
    hide Rests, OperationStep, AllOrNothing;
    if k > 0 {
      RunsAreAtomic(states, root, operations, k - 1);
      StepIsAtomic(states[k - 1], root, operations[k - 1], states[k]);
    }
    if k < |operations| {
      assert OperationStep(states[k], root, operations[k], states[k + 1]);
      StepIsAtomic(states[k], root, operations[k], states[k + 1]);
    }
  }

  // ---- The directory recovery really works on ----

  /** Nothing on disk belongs to another root. */
  predicate Within(code: map<Dir, Code>, root: Root) {
    forall d :: d in code ==> d.root == root
  }

  lemma {:induction false} CutsStayWithin(d: Durable, root: Root, calls: seq<Call>, m: Durable)
    requires Within(d.code, root) && Cut(d, root, calls, m)
    ensures Within(m.code, root)
    decreases |calls|
  {
    if calls != [] && !Mid(d, root, calls[0], m) { CutsStayWithin(Do(d, root, calls[0]), root, calls[1..], m); }
  }

  /** Recovery would find the disk as it wants it. */
  predicate NothingToRepair(m: Durable, root: Root) {
    Recover(m, root).durable.code == m.code
  }

  /** Recovering in another directory loads the same record and leaves the code as the crash left it. */
  lemma ElsewhereRepairsNothing(m: Durable, root: Root, other: Root)
    requires Within(m.code, root) && other != root
    ensures SeenAfterBoot(m, other) == SeenAfterBoot(m, root).(code := m.code)
  {
    assert RemoveRoot(m.code, other) == m.code;
    if m.store.Some? {
      var p := m.store.value.mark.package;
      assert m.code - {Dir(other, p, true)} == m.code;
      assert m.code - {Dir(other, p, false)} == m.code;
    }
  }

  lemma SeenCodeFollowsRecord(d: Durable, root: Root)
    requires AtRest(d, root)
    ensures var v := SeenAfterBoot(d, root);
            v.code == if v.record.Some? then CodeOf(v.record.value, root) else map[]
  {
    if Held(d, root).Some? {
      assert CodeOf(Unmarked(Held(d, root).value), root) == CodeOf(Held(d, root).value, root);
    }
  }

  /**
   For one state `m` that recovery in the right directory makes consistent: recovery in the directory derived
   from `base` makes it consistent if and only if the two are the same or the crash left nothing to repair.
   */
  lemma DerivedRecoveryOf(base: string, name: string, m: Durable, pre: Durable, post: Durable)
    requires PlainName(name) && base != ""
    requires var root := InstallRoot(base, name);
             && AtRest(pre, root) && AtRest(post, root) && Within(m.code, root) && Consistent(m, root, pre, post)
    ensures OneOf(SeenAfterBoot(m, RecoveryRoot(base, name)), pre, post, InstallRoot(base, name))
            <==> base[|base| - 1] == SEPARATOR || NothingToRepair(m, InstallRoot(base, name))
  {
    var root, other := InstallRoot(base, name), RecoveryRoot(base, name);
    RootsAgree(base, name);
    if other != root {
      ElsewhereRepairsNothing(m, root, other);
      SeenCodeFollowsRecord(pre, root);
      SeenCodeFollowsRecord(post, root);
    }
  }

  /** The state between saving the updated record and renaming the new code. */
  function StagedUpdate(d: Durable, root: Root, updated: Record, p: string, v: nat): Durable {
    Durable(Some(updated), d.code[Dir(root, p, true) := Full(v)])
  }

  lemma StagedUpdateNeedsRepair(d: Durable, root: Root, r: Record, updated: Record, p: string, v: nat)
    requires updated.mark == InstallMark(p, UPDATING_FINISH)
    ensures var m := StagedUpdate(d, root, updated, p, v);
            Cut(d, root, UpdateCalls(r, updated, p, v), m) && !NothingToRepair(m, root)
  {
    var m, tmp := StagedUpdate(d, root, updated, p, v), Dir(root, p, true);
    Unroll4(d, root, Save(MarkedFor(r, p, UPDATING_EXISTED_START)), Extract(p, true, v), Save(updated), Rename(p), m);
    assert tmp in m.code;
    assert tmp !in Renamed(m.code, root, p);
    assert Recover(m, root).durable.code == Renamed(m.code, root, p);
  }

  /** Bundle removal has nothing to repair in a bundle without modules; every other operation has. */
  predicate LeavesNoCode(o: Operation, memory: Option<Record>)
    requires Applies(o, memory)
  {
    o.UninstallBundle? && memory.value.modules == map[]
  }

  /** A cut of the operation that recovery has to repair. */
  function CutInTheMiddle(s: Device, root: Root, o: Operation): Durable
    requires Applies(o, s.memory)
  {
    var d := s.durable;
    match o
    case Install(marked, _, p, x) => Durable(Some(marked), map[Dir(root, p, false) := Full(x.version)])
    case Update(updated, p, x) => StagedUpdate(d, root, updated, p, x.version)
    case Add(_, p, x) =>
      Durable(Some(MarkedFor(s.memory.value, p, UPDATING_NEW_START)), d.code[Dir(root, p, false) := Full(x.version)])
    case UninstallModule(p) => d.(store := Some(MarkedFor(s.memory.value, p, UNINSTALL_PACKAGE_START)))
    case UninstallBundle => d.(store := Some(MarkedFor(s.memory.value, "", UNINSTALL_BUNDLE_START)))
  }

  lemma MiddleNeedsRepair(s: Device, root: Root, o: Operation)
    requires Rests(s, root) && Applies(o, s.memory) && !LeavesNoCode(o, s.memory)
    ensures Cut(s.durable, root, OperationCalls(o, s.memory), CutInTheMiddle(s, root, o))
    ensures !NothingToRepair(CutInTheMiddle(s, root, o), root)
  {
    var d, m := s.durable, CutInTheMiddle(s, root, o);
    if s.memory.Some? { RestsSeen(d, root, s.memory.value); }
    match o
    case Install(marked, done, p, x) =>
      Unroll5(d, root, Save(marked), MakeBundleDir, Extract(p, false, x.version), Save(done), Rename(p), m);
      assert Dir(root, p, false) in m.code;
    case Update(updated, p, x) => StagedUpdateNeedsRepair(d, root, s.memory.value, updated, p, x.version);
    case Add(extended, p, x) =>
      Unroll4(d, root, Save(MarkedFor(s.memory.value, p, UPDATING_NEW_START)), Extract(p, false, x.version),
              Save(extended), Rename(p), m);
      assert Dir(root, p, false) in m.code;
    case UninstallModule(p) =>
      var marked := Save(MarkedFor(s.memory.value, p, UNINSTALL_PACKAGE_START));
      assert Dir(root, p, false) in m.code;
      if IsOnlyModule(s.memory.value, p) {
        Unroll3(d, root, marked, RemoveBundleDir, Erase, m);
      } else {
        Unroll3(d, root, marked, RemoveModuleDir(p, false), Save(LeftWithout(s.memory.value, p)), m);
      }
    case UninstallBundle =>
      var p :| p in s.memory.value.modules;
      Unroll3(d, root, Save(MarkedFor(s.memory.value, "", UNINSTALL_BUNDLE_START)), RemoveBundleDir, Erase, m);
      assert Dir(root, p, false) in m.code;
  }

  lemma RestsWithin(s: Device, root: Root)
    requires Rests(s, root)
    ensures Within(s.durable.code, root) && AtRest(s.durable, root)
  {
    if s.memory.Some? { RestsSeen(s.durable, root, s.memory.value); }
  }

  lemma EmptyBundleRemoval(s: Device, root: Root, m: Durable)
    requires Rests(s, root) && s.memory.Some? && s.memory.value.modules == map[]
    requires Cut(s.durable, root, UninstallBundleCalls(s.memory.value), m)
    ensures NothingToRepair(m, root)
  {
    var r := s.memory.value;
    RestsSeen(s.durable, root, r);
    Unroll3(s.durable, root, Save(MarkedFor(r, "", UNINSTALL_BUNDLE_START)), RemoveBundleDir, Erase, m);
    assert m.code == map[] == RemoveRoot(map[], root);
  }

  /**
   The exact condition, for every operation: wherever it is cut, recovery in the directory derived from `base`
   loads one of its two ends, if and only if `base` ends with a separator. The one exception is removing a bundle
   that has no modules.
   */
  lemma DerivedRecoveryIsConsistentIff(base: string, name: string, s: Device, o: Operation)
    requires PlainName(name) && base != ""
    requires Rests(s, InstallRoot(base, name)) && Applies(o, s.memory)
    ensures var root := InstallRoot(base, name);
            (forall m :: Cut(s.durable, root, OperationCalls(o, s.memory), m) ==>
                OneOf(SeenAfterBoot(m, RecoveryRoot(base, name)), s.durable, Completed(s, root, o).durable, root))
            <==> base[|base| - 1] == SEPARATOR || LeavesNoCode(o, s.memory)
  {
    hide Cut, DoAll, Consistent, Recover, NothingToRepair, InstallRoot, RecoveryRoot;
    var root := InstallRoot(base, name);
    var calls, post := OperationCalls(o, s.memory), Completed(s, root, o).durable;
    forall m | Cut(s.durable, root, calls, m)
      ensures OneOf(SeenAfterBoot(m, RecoveryRoot(base, name)), s.durable, post, root) <==>
              base[|base| - 1] == SEPARATOR || NothingToRepair(m, root)
    {
      OperationIsCrashConsistent(s, root, o, m);
      RestsWithin(s, root);
      RestsWithin(Completed(s, root, o), root);
      CutsStayWithin(s.durable, root, calls, m);
      DerivedRecoveryOf(base, name, m, s.durable, post);
    }
    if LeavesNoCode(o, s.memory) {
      forall m | Cut(s.durable, root, calls, m)
        ensures NothingToRepair(m, root)
      {
        EmptyBundleRemoval(s, root, m);
      }
    } else {
      MiddleNeedsRepair(s, root, o);
    }
  }

  /**
   With the constant as it stands, a crash between saving an updated record and renaming the new code
   boots with the new record over the old code: neither the old state nor the new one.
   */
  lemma UpdateWindowIsNotRepaired(d: Durable, name: string, r: Record, updated: Record, p: string, module_: Module)
    requires PlainName(name) && p in r.modules && IsUpdateOf(updated, r, p, module_)
    requires RestsWith(d, InstallRoot(BUNDLE_CODE_DIR, name), r)
    ensures var root := InstallRoot(BUNDLE_CODE_DIR, name);
            var calls := UpdateCalls(r, updated, p, module_.version);
            var m := StagedUpdate(d, root, updated, p, module_.version);
            && Cut(d, root, calls, m)
            && !OneOf(SeenAfterBoot(m, RecoveryRoot(BUNDLE_CODE_DIR, name)), d, DoAll(d, root, calls), root)
  {
    var root, v := InstallRoot(BUNDLE_CODE_DIR, name), module_.version;
    var m, calls := StagedUpdate(d, root, updated, p, v), UpdateCalls(r, updated, p, v);
    StagedUpdateNeedsRepair(d, root, r, updated, p, v);
    UpdateIsCrashConsistent(d, root, r, updated, p, module_, m);
    RestsWithin(Device(d, Some(r)), root);
    CutsStayWithin(d, root, calls, m);
    DerivedRecoveryOf(BUNDLE_CODE_DIR, name, m, d, DoAll(d, root, calls));
    assert BUNDLE_CODE_DIR[|BUNDLE_CODE_DIR| - 1] == 'c';
  }
}
