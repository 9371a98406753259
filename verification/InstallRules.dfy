/**
 What an undisturbed install request does to the record of a bundle, as functions
 (services/bundlemgr/src/base_bundle_installer.cpp:294-423, 1032-1248, 1750-1850), and the version laws
 that follow.
 */
module InstallRules {
  import opened Basics
  import opened BundleRecords
  import opened BundleSlots
  import opened DurableCalls
  import opened CrashRecovery

  datatype InstallFlag = NORMAL | REPLACE_EXISTING | FREE_INSTALL

  datatype ErrCode =
    | ERR_OK | SERVICE_ERROR | STATE_ERROR | TYPE_ERROR | VERSION_DOWNGRADE | VERSION_NOT_COMPATIBLE
    | VERSIONCODE_NOT_SAME | INVALID_NUMBER_OF_ENTRY_HAP | ALREADY_EXIST | ENTRY_ALREADY_EXIST
    | ZERO_USER_WITH_NO_SINGLETON | USER_NOT_EXIST | USER_NOT_INSTALL_HAP | MISSING_INSTALLED_BUNDLE
    | MISSING_INSTALLED_MODULE | PARAM_ERROR | INTERNAL_ERROR | KILLING_APP_ERROR
    | PERMISSION_ERROR | DIR_APL_ERROR | FOREIGN_ERROR

  datatype Verdict<+T> = Ok(value: T) | Err(code: ErrCode)

  /** What stays fixed while the packages of one request are processed. */
  datatype Terms = Terms(version: nat, isReplace: bool, installedInUser: bool)

  /** The installer's copy of the record, the durable calls made so far, and the renames still to do. */
  datatype Progress = Progress(record: Record, calls: seq<Call>, renames: seq<Call>)

  function UpdatedRecord(r: Record, h: Hap): Record {
    Updated(SetMark(r, h.package, UPDATING_FINISH), RecordOf(h), h.package)
  }

  function ExtendedRecord(r: Record, h: Hap): Record {
    WithNewModule(SetMark(r, h.package, INSTALL_FINISH), h)
  }

  /** The branch that only adds a user and leaves the module as it is. */
  predicate OnlyCreatesUser(r: Record, h: Hap, t: Terms) {
    h.package in r.modules && t.version == r.version && !t.isReplace
  }

  function UpdateStep(p: Progress, h: Hap): Progress {
    var r := p.record;
    Progress(UpdatedRecord(r, h),
             p.calls + [Save(SetMark(r, h.package, UPDATING_EXISTED_START)), Extract(h.package, true, h.version),
                        Save(UpdatedRecord(r, h))],
             p.renames + [Rename(h.package)])
  }

  function AddStep(p: Progress, h: Hap): Progress {
    var r := p.record;
    Progress(ExtendedRecord(r, h),
             p.calls + [Save(SetMark(r, h.package, UPDATING_NEW_START)), Extract(h.package, false, h.version),
                        Save(ExtendedRecord(r, h))],
             p.renames + [Rename(h.package)])
  }

  /** One package of the request (`ProcessBundleUpdateStatus`). */
  function StepHap(p: Progress, h: Hap, t: Terms): Verdict<Progress> {
    if h.package == "" then Err(PARAM_ERROR)
    else if OnlyCreatesUser(p.record, h, t) then (if t.installedInUser then Err(ALREADY_EXIST) else Ok(p))
    else if h.package in p.record.modules then Ok(UpdateStep(p, h))
    else if h.isEntry && HasEntry(p.record.modules) then Err(ENTRY_ALREADY_EXIST)
    else Ok(AddStep(p, h))
  }

  function Fold(p: Progress, haps: seq<Hap>, t: Terms): Verdict<Progress>
    decreases |haps|
  {
    if haps == [] then Ok(p)
    else match StepHap(p, haps[0], t)
         case Err(code) => Err(code)
         case Ok(q) => Fold(q, haps[1..], t)
  }

  predicate ContainEntry(haps: seq<Hap>) { exists i :: 0 <= i < |haps| && haps[i].isEntry }

  predicate TypeDiffers(r: Record, haps: seq<Hap>) { exists i :: 0 <= i < |haps| && haps[i].free != r.installFree }

  /** `CheckVersionCompatibility`. */
  function VersionError(r: Record, containEntry: bool, version: nat): ErrCode {
    if version < r.version then VERSION_DOWNGRADE
    else if version > r.version && !r.installFree && HasEntry(r.modules) && !containEntry then VERSION_NOT_COMPATIBLE
    else ERR_OK
  }

  function PackagesOf(haps: seq<Hap>): set<string> { set h | h in haps :: h.package }

  /** What `UninstallLowerVersionFeature` leaves. */
  function Kept(modules: map<string, Module>, packages: set<string>): map<string, Module> {
    map p | p in modules && p in packages :: modules[p]
  }

  function Start(r: Record): Progress { Progress(r, [], []) }

  /** The record once every package of the request has been processed. */
  function Merged(prior: Option<Record>, haps: seq<Hap>, t: Terms): Verdict<Progress>
    requires haps != []
  {
    match prior
    case None => Fold(Start(RecordOf(haps[0])), haps[1..], t.(installedInUser := true))
    case Some(r) =>
      if TypeDiffers(r, haps) then Err(TYPE_ERROR)
      else if VersionError(r, ContainEntry(haps), t.version) != ERR_OK then
        Err(VersionError(r, ContainEntry(haps), t.version))
      else Fold(Start(r), haps, t)
  }

  /** The modules left when the packages outside a request of a higher version are removed. */
  function WithoutOld(modules: map<string, Module>, prior: Option<Record>, haps: seq<Hap>, version: nat)
    : map<string, Module>
  {
    if prior.Some? && version > prior.value.version then Kept(modules, PackagesOf(haps)) else modules
  }

  /** A whole request, when nothing outside the installer fails. */
  function Outcome(prior: Option<Record>, haps: seq<Hap>, t: Terms): Verdict<Record>
    requires haps != []
  {
    match Merged(prior, haps, t)
    case Err(code) => Err(code)
    case Ok(p) => Ok(p.record.(modules := WithoutOld(p.record.modules, prior, haps, t.version)))
  }

  // ---- The fold looks at the version, the modules and the type of a record only ----

  predicate SameContent(a: Record, b: Record) {
    a.version == b.version && a.modules == b.modules && a.installFree == b.installFree
  }

  lemma UpdateSameContent(p: Progress, q: Progress, h: Hap)
    requires SameContent(p.record, q.record)
    ensures SameContent(UpdateStep(p, h).record, UpdateStep(q, h).record)
  {
  }

  lemma AddSameContent(p: Progress, q: Progress, h: Hap)
    requires SameContent(p.record, q.record)
    ensures SameContent(AddStep(p, h).record, AddStep(q, h).record)
  {
  }

  lemma StepSameContent(p: Progress, q: Progress, h: Hap, t: Terms)
    requires SameContent(p.record, q.record)
    ensures StepHap(p, h, t).Ok? == StepHap(q, h, t).Ok?
    ensures if StepHap(p, h, t).Ok? then SameContent(StepHap(p, h, t).value.record, StepHap(q, h, t).value.record)
            else StepHap(p, h, t).code == StepHap(q, h, t).code
  {
    UpdateSameContent(p, q, h);
    AddSameContent(p, q, h);
    if h.package == "" || OnlyCreatesUser(p.record, h, t) {
    } else if h.package in p.record.modules {
      assert StepHap(p, h, t) == Ok(UpdateStep(p, h)) && StepHap(q, h, t) == Ok(UpdateStep(q, h));
    }
  }

  lemma {:induction false} FoldSameContent(p: Progress, q: Progress, haps: seq<Hap>, t: Terms)
    requires SameContent(p.record, q.record)
    ensures Fold(p, haps, t).Ok? == Fold(q, haps, t).Ok?
    ensures if Fold(p, haps, t).Ok? then SameContent(Fold(p, haps, t).value.record, Fold(q, haps, t).value.record)
            else Fold(p, haps, t).code == Fold(q, haps, t).code
    decreases |haps|
  {
    if haps != [] {
      StepSameContent(p, q, haps[0], t);
      if StepHap(p, haps[0], t).Ok? {
        FoldSameContent(StepHap(p, haps[0], t).value, StepHap(q, haps[0], t).value, haps[1..], t);
      }
    }
  }

  lemma MergedSameContent(a: Record, b: Record, haps: seq<Hap>, t: Terms)
    requires haps != [] && SameContent(a, b)
    ensures Merged(Some(a), haps, t).Ok? == Merged(Some(b), haps, t).Ok?
    ensures if Merged(Some(a), haps, t).Ok? then
              SameContent(Merged(Some(a), haps, t).value.record, Merged(Some(b), haps, t).value.record)
            else Merged(Some(a), haps, t).code == Merged(Some(b), haps, t).code
  {
    FoldSameContent(Start(a), Start(b), haps, t);
  }

  // ---- Versions ----

  predicate SameVersion(haps: seq<Hap>, version: nat) {
    forall i :: 0 <= i < |haps| ==> haps[i].version == version
  }

  predicate Homogeneous(r: Record) {
    forall p :: p in r.modules ==> r.modules[p].version == r.version
  }

  /** The module of `h` is older than the bundle, and the request will not touch it. */
  predicate Stale(r: Record, h: Hap, t: Terms) {
    OnlyCreatesUser(r, h, t) && r.modules[h.package].version != t.version
  }

  /** The request passes by a module of another version. */
  predicate PassesByStale(p: Progress, haps: seq<Hap>, t: Terms)
    decreases |haps|
  {
    haps != [] && (Stale(p.record, haps[0], t)
                   || (StepHap(p, haps[0], t).Ok? && PassesByStale(StepHap(p, haps[0], t).value, haps[1..], t)))
  }

  /** Packages outside the request keep their module. */
  ghost predicate OthersKept(r: Record, was: Record, packages: set<string>) {
    && was.modules.Keys <= r.modules.Keys && r.modules.Keys <= was.modules.Keys + packages
    && forall p :: p in was.modules && p !in packages ==> r.modules[p] == was.modules[p]
  }

  lemma OthersKeptTrans(a: Record, b: Record, c: Record, x: set<string>, y: set<string>)
    requires OthersKept(b, a, x) && OthersKept(c, b, y)
    ensures OthersKept(c, a, x + y)
  {
  }

  lemma StepKeepsOthers(p: Progress, h: Hap, t: Terms)
    requires StepHap(p, h, t).Ok?
    ensures OthersKept(StepHap(p, h, t).value.record, p.record, {h.package})
    ensures h.package in StepHap(p, h, t).value.record.modules
    ensures StepHap(p, h, t).value.record.installFree == p.record.installFree
    ensures StepHap(p, h, t).value.record.users == p.record.users
  {
  }

  lemma PackagesOfRest(haps: seq<Hap>)
    requires haps != []
    ensures PackagesOf(haps) == {haps[0].package} + PackagesOf(haps[1..])
  {
    assert haps == [haps[0]] + haps[1..];
  }

  lemma {:induction false} FoldKeepsOthers(p: Progress, haps: seq<Hap>, t: Terms)
    requires Fold(p, haps, t).Ok?
    ensures OthersKept(Fold(p, haps, t).value.record, p.record, PackagesOf(haps))
    ensures PackagesOf(haps) <= Fold(p, haps, t).value.record.modules.Keys
    ensures Fold(p, haps, t).value.record.installFree == p.record.installFree
    ensures Fold(p, haps, t).value.record.users == p.record.users
    decreases |haps|
  {
    if haps != [] {
      var q := StepHap(p, haps[0], t).value;
      StepKeepsOthers(p, haps[0], t);
      FoldKeepsOthers(q, haps[1..], t);
      OthersKeptTrans(p.record, q.record, Fold(p, haps, t).value.record, {haps[0].package}, PackagesOf(haps[1..]));
      PackagesOfRest(haps);
    }
  }

  /** Which step makes the bundle version follow the package. */
  predicate Lifts(r: Record, h: Hap) { h.isEntry || r.installFree || !HasEntry(r.modules) }

  lemma StepVersion(p: Progress, h: Hap, t: Terms)
    requires StepHap(p, h, t).Ok? && h.version == t.version && p.record.version <= t.version
    ensures var r := StepHap(p, h, t).value.record;
            r.version == if p.record.version == t.version || Lifts(p.record, h) then t.version else p.record.version
    ensures var r := StepHap(p, h, t).value.record;
            if OnlyCreatesUser(p.record, h, t) then r == p.record else r.modules[h.package].version == t.version
  {
  }

  lemma {:induction false} FoldVersion(p: Progress, haps: seq<Hap>, t: Terms)
    requires Fold(p, haps, t).Ok? && SameVersion(haps, t.version) && p.record.version <= t.version
    requires p.record.version == t.version || ContainEntry(haps)
             || (haps != [] && (p.record.installFree || !HasEntry(p.record.modules)))
    ensures Fold(p, haps, t).value.record.version == t.version
    decreases |haps|
  {
    if haps != [] {
      var q := StepHap(p, haps[0], t).value;
      StepVersion(p, haps[0], t);
      assert SameVersion(haps[1..], t.version);
      if q.record.version != t.version {
        var i :| 0 <= i < |haps| && haps[i].isEntry;
        assert haps[1..][i - 1].isEntry;
      }
      FoldVersion(q, haps[1..], t);
    }
  }

  /** A module passed by stays as old as it was, to the end of the request. */
  lemma {:induction false} StaleStays(p: Progress, haps: seq<Hap>, t: Terms, x: string)
    requires Fold(p, haps, t).Ok? && !t.isReplace && p.record.version == t.version && SameVersion(haps, t.version)
    requires x in p.record.modules
    ensures var r := Fold(p, haps, t).value.record; x in r.modules && r.modules[x] == p.record.modules[x]
    decreases |haps|
  {
    if haps != [] {
      var q := StepHap(p, haps[0], t).value;
      StepVersion(p, haps[0], t);
      StepKeepsOthers(p, haps[0], t);
      assert SameVersion(haps[1..], t.version);
      StaleStays(q, haps[1..], t, x);
    }
  }

  /** Every package handled so far is at the request's version, and so is the whole bundle once at that version. */
  ghost predicate Fresh(r: Record, handled: set<string>, version: nat) {
    forall p :: p in handled ==> p in r.modules && r.modules[p].version == version
  }

  lemma {:induction false} FoldIsFresh(p: Progress, haps: seq<Hap>, t: Terms, handled: set<string>)
    requires Fold(p, haps, t).Ok? && SameVersion(haps, t.version) && p.record.version <= t.version
    requires Fresh(p.record, handled, t.version)
    ensures Fresh(Fold(p, haps, t).value.record, handled + PackagesOf(haps), t.version) <==> !PassesByStale(p, haps, t)
    decreases |haps|
  {
    if haps == [] {
      assert handled + PackagesOf(haps) == handled;
    } else {
      var h, q := haps[0], StepHap(p, haps[0], t).value;
      StepVersion(p, h, t);
      StepKeepsOthers(p, h, t);
      assert SameVersion(haps[1..], t.version);
      PackagesOfRest(haps);
      if Stale(p.record, h, t) {
        StaleStays(p, haps, t, h.package);
        assert h.package in PackagesOf(haps);
      } else {
        FoldIsFresh(q, haps[1..], t, handled + {h.package});
        assert handled + {h.package} + PackagesOf(haps[1..]) == handled + PackagesOf(haps);
      }
    }
  }

  /** Does the request leave a module of another version behind? */
  predicate LeavesStale(prior: Option<Record>, haps: seq<Hap>, t: Terms) {
    prior.Some? && PassesByStale(Start(prior.value), haps, t)
  }

  lemma {:induction false} NothingPassedBy(p: Progress, haps: seq<Hap>, t: Terms)
    requires Fold(p, haps, t).Ok? && (t.isReplace || t.installedInUser)
    ensures !PassesByStale(p, haps, t)
    decreases |haps|
  {
    if haps != [] { NothingPassedBy(StepHap(p, haps[0], t).value, haps[1..], t); }
  }

  /** What the whole request leaves, package by package. */
  lemma FirstInstall(haps: seq<Hap>, t: Terms)
    requires haps != [] && SameVersion(haps, t.version) && Outcome(None, haps, t).Ok?
    ensures var r := Outcome(None, haps, t).value;
            r.version == t.version && Homogeneous(r) && r.modules.Keys == PackagesOf(haps)
  {
    var h, rest, u := haps[0], haps[1..], t.(installedInUser := true);
    var p := Start(RecordOf(h));
    assert SameVersion(rest, t.version);
    PackagesOfRest(haps);
    FoldKeepsOthers(p, rest, u);
    FoldVersion(p, rest, u);
    FoldIsFresh(p, rest, u, {h.package});
    NothingPassedBy(p, rest, u);
  }

  lemma UpdateRequest(prior: Record, haps: seq<Hap>, t: Terms)
    requires haps != [] && SameVersion(haps, t.version) && Homogeneous(prior) && Outcome(Some(prior), haps, t).Ok?
    ensures var r := Outcome(Some(prior), haps, t).value;
            && r.version == t.version >= prior.version
            && (Homogeneous(r) <==> !LeavesStale(Some(prior), haps, t))
            && r.modules.Keys == if t.version > prior.version
                    then PackagesOf(haps) else prior.modules.Keys + PackagesOf(haps)
  {
    var p := Fold(Start(prior), haps, t).value;
    FoldKeepsOthers(Start(prior), haps, t);
    FoldVersion(Start(prior), haps, t);
    FoldIsFresh(Start(prior), haps, t, {});
    assert {} + PackagesOf(haps) == PackagesOf(haps);
    var r := Outcome(Some(prior), haps, t).value;
    if t.version > prior.version {
      assert r.modules.Keys == PackagesOf(haps);
    } else {
      assert r == p.record && p.record.modules.Keys == prior.modules.Keys + PackagesOf(haps);
    }
  }

  /**
   Versions: after a successful request the bundle has the request's version, never a lower one than
   before; a higher version leaves exactly the packages of the request; and all modules share the bundle's
   version if and only if the request passed by no stale module.
   */
  lemma VersionsAfterInstall(prior: Option<Record>, haps: seq<Hap>, t: Terms)
    requires haps != [] && SameVersion(haps, t.version) && Outcome(prior, haps, t).Ok?
    requires prior.Some? ==> Homogeneous(prior.value)
    ensures var r := Outcome(prior, haps, t).value;
            && r.version == t.version
            && (prior.Some? ==> prior.value.version <= r.version)
            && (Homogeneous(r) <==> !LeavesStale(prior, haps, t))
            && r.modules.Keys == if prior.Some? && prior.value.version == t.version
                                 then prior.value.modules.Keys + PackagesOf(haps) else PackagesOf(haps)
  {
    if prior.None? { FirstInstall(haps, t); } else { UpdateRequest(prior.value, haps, t); }
  }

  lemma {:induction false} NothingStaleAmongEqual(p: Progress, haps: seq<Hap>, t: Terms)
    requires Fold(p, haps, t).Ok? && SameVersion(haps, t.version)
    requires Homogeneous(p.record) && p.record.version == t.version
    ensures !PassesByStale(p, haps, t)
    decreases |haps|
  {
    if haps != [] {
      StepVersion(p, haps[0], t);
      StepKeepsOthers(p, haps[0], t);
      assert SameVersion(haps[1..], t.version);
      NothingStaleAmongEqual(StepHap(p, haps[0], t).value, haps[1..], t);
    }
  }

  lemma MergedVersion(prior: Option<Record>, haps: seq<Hap>, t: Terms)
    requires haps != [] && SameVersion(haps, t.version) && Merged(prior, haps, t).Ok?
    ensures Merged(prior, haps, t).value.record.version == t.version
  {
    if prior.None? {
      assert SameVersion(haps[1..], t.version);
      FoldVersion(Start(RecordOf(haps[0])), haps[1..], t.(installedInUser := true));
    } else {
      FoldVersion(Start(prior.value), haps, t);
    }
  }

  /** Stale modules need the normal flag, a user new to the bundle, a higher version and a second package. */
  lemma StaleNeeds(prior: Option<Record>, haps: seq<Hap>, t: Terms)
    requires haps != [] && Outcome(prior, haps, t).Ok? && LeavesStale(prior, haps, t)
    requires SameVersion(haps, t.version) && Homogeneous(prior.value)
    ensures !t.isReplace && !t.installedInUser && prior.value.version < t.version && |haps| > 1
  {
    if t.isReplace || t.installedInUser {
      NothingPassedBy(Start(prior.value), haps, t);
    } else if prior.value.version == t.version {
      NothingStaleAmongEqual(Start(prior.value), haps, t);
    } else if |haps| == 1 {
      var p := Start(prior.value);
      assert !Stale(p.record, haps[0], t) && StepHap(p, haps[0], t).Ok?;
      assert !PassesByStale(StepHap(p, haps[0], t).value, haps[1..], t);
      assert false;
    }
  }

  /** A request that does leave one: two feature modules of version 1, both requested at version 2. */
  lemma StaleExample(r: Record, haps: seq<Hap>)
    requires r.version == 1 && !r.installFree
    requires r.modules == map["a" := Module(1, false), "b" := Module(1, false)]
    requires haps == [Hap("a", 2, false, false), Hap("b", 2, false, false)]
    ensures var o := Outcome(Some(r), haps, Terms(2, false, false));
            o.Ok? && o.value.version == 2 && o.value.modules == map["a" := Module(2, false), "b" := Module(1, false)]
  {
    var t := Terms(2, false, false);
    var p := Start(r);
    var q := UpdateStep(p, haps[0]);
    assert StepHap(p, haps[0], t) == Ok(q) && q.record.version == 2;
    assert q.record.modules == map["a" := Module(2, false), "b" := Module(1, false)];
    assert haps[1..][0] == haps[1] && haps[1..][1..] == [];
    assert Fold(q, haps[1..], t) == Ok(q);
    assert haps[0] in haps && haps[1] in haps;
    assert Kept(q.record.modules, PackagesOf(haps)) == q.record.modules;
  }

  // ---- Which requests are accepted ----

  lemma VersionCheckIsExact(r: Record, containEntry: bool, version: nat)
    ensures VersionError(r, containEntry, version) == ERR_OK
            <==> r.version <= version
                 && (version == r.version || r.installFree || containEntry || !HasEntry(r.modules))
    ensures version < r.version ==> VersionError(r, containEntry, version) == VERSION_DOWNGRADE
    ensures r.version < version && !r.installFree && !containEntry && HasEntry(r.modules) ==>
              VersionError(r, containEntry, version) == VERSION_NOT_COMPATIBLE
  {
  }

  /**
   A request of one package for an installed bundle: it is accepted if and only if its type is that of the bundle, its
   version is compatible, it has a name, a second entry is not brought in, and it does not repeat an installed
   package for a user who has it; each refusal has its code.
   */
  lemma SingleRequestAcceptedIff(r: Record, h: Hap, t: Terms)
    requires t.version == h.version
    ensures var o := Outcome(Some(r), [h], t);
            var compatible := r.version <= h.version
                && (h.version == r.version || r.installFree || h.isEntry || !HasEntry(r.modules));
            var secondEntry := h.package !in r.modules && h.isEntry && HasEntry(r.modules);
            var repeated := h.package in r.modules && h.version == r.version && !t.isReplace && t.installedInUser;
            && (o.Ok? <==> h.free == r.installFree && compatible && h.package != "" && !secondEntry && !repeated)
            && (h.free != r.installFree ==> o == Verdict.Err(TYPE_ERROR))
            && (h.free == r.installFree && compatible && h.package == "" ==> o == Verdict.Err(PARAM_ERROR))
            && (h.free == r.installFree && compatible && h.package != "" && secondEntry ==>
                  o == Verdict.Err(ENTRY_ALREADY_EXIST))
            && (h.free == r.installFree && h.package != "" && repeated ==> o == Verdict.Err(ALREADY_EXIST))
  {
    hide HasEntry, WithNewModule, Updated;
    assert [h][0] == h && [h][1..] == [];
    assert TypeDiffers(r, [h]) <==> h.free != r.installFree;
    assert ContainEntry([h]) <==> h.isEntry;
    assert Fold(Start(r), [h], t) == StepHap(Start(r), h, t);
    VersionCheckIsExact(r, h.isEntry, h.version);
  }

  predicate OneEntryAtMost(haps: seq<Hap>) {
    forall i, j :: 0 <= i < j < |haps| ==> !(haps[i].isEntry && haps[j].isEntry)
  }

  predicate DistinctPackages(haps: seq<Hap>) {
    forall i, j :: 0 <= i < j < |haps| ==> haps[i].package != haps[j].package
  }

  predicate AllNamed(haps: seq<Hap>) { forall i :: 0 <= i < |haps| ==> haps[i].package != "" }

  /** Packages that are all new to the bundle are accepted if they have names and leave it with one entry at most. */
  lemma {:induction false} NewPackagesAcceptedIff(p: Progress, haps: seq<Hap>, t: Terms)
    requires DistinctPackages(haps) && forall i :: 0 <= i < |haps| ==> haps[i].package !in p.record.modules
    ensures Fold(p, haps, t).Ok?
            <==> AllNamed(haps) && OneEntryAtMost(haps) && !(HasEntry(p.record.modules) && ContainEntry(haps))
    decreases |haps|
  {
    if haps != [] {
      var h, rest := haps[0], haps[1..];
      assert haps == [h] + rest;
      assert AllNamed(haps) <==> h.package != "" && AllNamed(rest);
      assert OneEntryAtMost(haps) <==> OneEntryAtMost(rest) && !(h.isEntry && ContainEntry(rest)) by {
        if h.isEntry && ContainEntry(rest) {
          var i :| 0 <= i < |rest| && rest[i].isEntry;
          assert haps[i + 1].isEntry;
        }
      }
      assert ContainEntry(haps) <==> h.isEntry || ContainEntry(rest) by {
        if i :| 0 <= i < |rest| && rest[i].isEntry { assert haps[i + 1].isEntry; }
      }
      if h.package != "" && !(h.isEntry && HasEntry(p.record.modules)) {
        var q := AddStep(p, h);
        assert StepHap(p, h, t) == Ok(q);
        AddedEntry(p, h);
        NewPackagesAcceptedIff(q, rest, t);
      }
    }
  }

  lemma AddedEntry(p: Progress, h: Hap)
    requires h.package !in p.record.modules
    ensures AddStep(p, h).record.modules == p.record.modules[h.package := ModuleOf(h)]
    ensures HasEntry(AddStep(p, h).record.modules) <==> HasEntry(p.record.modules) || h.isEntry
  {
    var m := AddStep(p, h).record.modules;
    assert m == p.record.modules[h.package := ModuleOf(h)];
    if x :| x in p.record.modules && p.record.modules[x].isEntry { assert m[x].isEntry; }
    if h.isEntry { assert m[h.package].isEntry; }
  }

  /** A first install of distinct packages is accepted if and only if they bring one entry at most and have names. */
  lemma FirstInstallAcceptedIff(haps: seq<Hap>, t: Terms)
    requires haps != [] && DistinctPackages(haps)
    ensures Outcome(None, haps, t).Ok? <==> AllNamed(haps[1..]) && OneEntryAtMost(haps)
  {
    var p, rest := Start(RecordOf(haps[0])), haps[1..];
    assert haps == [haps[0]] + rest;
    NewPackagesAcceptedIff(p, rest, t.(installedInUser := true));
    assert HasEntry(p.record.modules) <==> haps[0].isEntry by {
      if haps[0].isEntry { assert p.record.modules[haps[0].package].isEntry; }
    }
    assert OneEntryAtMost(haps) <==> OneEntryAtMost(rest) && !(haps[0].isEntry && ContainEntry(rest)) by {
      if haps[0].isEntry && ContainEntry(rest) {
        var i :| 0 <= i < |rest| && rest[i].isEntry;
        assert haps[i + 1].isEntry;
      }
    }
  }

  /** Replacing installed packages is accepted, however many there are. */
  lemma {:induction false} ReplacementAccepted(p: Progress, haps: seq<Hap>, t: Terms)
    requires AllNamed(haps) && forall i :: 0 <= i < |haps| ==> haps[i].package in p.record.modules
    requires t.isReplace || !t.installedInUser
    ensures Fold(p, haps, t).Ok?
    decreases |haps|
  {
    if haps != [] {
      StepKeepsOthers(p, haps[0], t);
      ReplacementAccepted(StepHap(p, haps[0], t).value, haps[1..], t);
    }
  }

  /** So every such request of the bundle's type and a compatible version succeeds. */
  lemma UpgradeAccepted(r: Record, haps: seq<Hap>, t: Terms)
    requires haps != [] && AllNamed(haps) && forall i :: 0 <= i < |haps| ==> haps[i].package in r.modules
    requires forall i :: 0 <= i < |haps| ==> haps[i].free == r.installFree
    requires t.isReplace || !t.installedInUser
    requires r.version <= t.version
    requires || t.version == r.version || r.installFree || !HasEntry(r.modules)
             || exists i :: 0 <= i < |haps| && haps[i].isEntry
    ensures Outcome(Some(r), haps, t).Ok?
  {
    ReplacementAccepted(Start(r), haps, t);
    VersionCheckIsExact(r, ContainEntry(haps), t.version);
  }

  // ---- The calls of a one-package request are the footprints whose crashes are repaired ----

  /** Replacing a module makes exactly the calls of `UpdateCalls`, with a record for `UpdateIsCrashConsistent`. */
  lemma UpdateFootprint(r: Record, h: Hap, t: Terms, past: seq<Call>)
    requires r.enabled && h.package != "" && h.package in r.modules && !OnlyCreatesUser(r, h, t)
    ensures var o := Fold(Progress(r.(enabled := false), past, []), [h], t);
            && o.Ok?
            && o.value.calls + o.value.renames == past + UpdateCalls(r, o.value.record, h.package, h.version)
            && IsUpdateOf(o.value.record, r, h.package, ModuleOf(h))
  {
    var p := Progress(r.(enabled := false), past, []);
    var q := UpdateStep(p, h);
    assert [h][1..] == [] && StepHap(p, h, t) == Ok(q) && Fold(q, [], t) == Ok(q);
    assert q.record.modules == r.modules[h.package := ModuleOf(h)];
    assert SetMark(r.(enabled := false), h.package, UPDATING_EXISTED_START)
           == MarkedFor(r, h.package, UPDATING_EXISTED_START);
    assert q.calls + q.renames == past + UpdateCalls(r, q.record, h.package, h.version);
  }

  /** The same for a module that is new to the bundle. */
  lemma AddFootprint(r: Record, h: Hap, t: Terms, past: seq<Call>)
    requires r.enabled && h.package != "" && h.package !in r.modules && !(h.isEntry && HasEntry(r.modules))
    ensures var o := Fold(Progress(r.(enabled := false), past, []), [h], t);
            && o.Ok?
            && o.value.calls + o.value.renames == past + AddCalls(r, o.value.record, h.package, h.version)
            && IsExtensionOf(o.value.record, r, h.package, ModuleOf(h))
  {
    var p := Progress(r.(enabled := false), past, []);
    var q := AddStep(p, h);
    assert [h][1..] == [] && StepHap(p, h, t) == Ok(q) && Fold(q, [], t) == Ok(q);
    assert q.calls + q.renames == past + AddCalls(r, q.record, h.package, h.version);
  }

  /** The calls of earlier requests stay in front and change nothing. */
  lemma {:induction false} FoldFromPast(past: seq<Call>, p: Progress, haps: seq<Hap>, t: Terms)
    ensures Fold(p.(calls := past + p.calls), haps, t)
            == match Fold(p, haps, t) case Err(code) => Err(code) case Ok(q) => Ok(q.(calls := past + q.calls))
    decreases |haps|
  {
    if haps != [] {
      var h := haps[0];
      StepFromPast(past, p, h, t);
      if StepHap(p, h, t).Ok? { FoldFromPast(past, StepHap(p, h, t).value, haps[1..], t); }
    }
  }

  lemma StepFromPast(past: seq<Call>, p: Progress, h: Hap, t: Terms)
    ensures StepHap(p.(calls := past + p.calls), h, t)
            == match StepHap(p, h, t) case Err(code) => Err(code) case Ok(q) => Ok(q.(calls := past + q.calls))
  {
    assert UpdateStep(p.(calls := past + p.calls), h).calls == past + UpdateStep(p, h).calls;
    assert AddStep(p.(calls := past + p.calls), h).calls == past + AddStep(p, h).calls;
  }

  lemma RestsAtRest(d: Durable, root: Root, r: Record)
    requires RestsWith(d, root, r)
    ensures AtRest(d, root)
  {
  }

  lemma NoCalls(d: Durable, root: Root, m: Durable)
    requires Cut(d, root, [], m)
    ensures m == d && DoAll(d, root, []) == d
  {
  }

  /**
   A request with one package for an installed bundle is crash consistent, whichever of its branches it
   takes: wherever its durable calls are cut, recovery loads the bundle as it was or as it was to be.
   */
  lemma OnePackageRequestIsCrashConsistent(d: Durable, root: Root, r: Record, h: Hap, t: Terms, m: Durable)
    requires RestsWith(d, root, r) && Fold(Start(r.(enabled := false)), [h], t).Ok?
    requires var q := Fold(Start(r.(enabled := false)), [h], t).value;
             Cut(d, root, q.calls + q.renames, m)
    ensures var q := Fold(Start(r.(enabled := false)), [h], t).value;
            var post := DoAll(d, root, q.calls + q.renames);
            && (if OnlyCreatesUser(r, h, t) then post == d else RestsWith(post, root, q.record))
            && Consistent(m, root, d, post)
  {
    hide Cut, DoAll, Consistent, AtRest, Recover, RestsWith;
    var p := Start(r.(enabled := false));
    RestsSeen(d, root, r);
    assert [h][0] == h && [h][1..] == [];
    if OnlyCreatesUser(r, h, t) {
      assert Fold(p, [h], t) == Ok(p);
      assert p.calls + p.renames == [];
      NoCalls(d, root, m);
      RestSeen(d, root) by { RestsAtRest(d, root, r); }
    } else if h.package in r.modules {
      UpdateFootprint(r, h, t, []);
      var q := Fold(p, [h], t).value;
      assert q.calls + q.renames == UpdateCalls(r, q.record, h.package, h.version);
      UpdateIsCrashConsistent(d, root, r, q.record, h.package, ModuleOf(h), m);
    } else {
      AddFootprint(r, h, t, []);
      var q := Fold(p, [h], t).value;
      assert q.calls + q.renames == AddCalls(r, q.record, h.package, h.version);
      AddIsCrashConsistent(d, root, r, q.record, h.package, ModuleOf(h), m);
    }
  }
}
