/**
 The installer (services/bundlemgr/src/base_bundle_installer.cpp) working on the entries of one bundle.
 Calls into storage, installd, the permission manager and the process killer may fail at any point.
 */
module Installer {
  import opened Basics
  import opened InstallStates
  import opened BundleRecords
  import opened BundleSlots
  import opened DurableCalls
  import opened CrashRecovery
  import opened InstallRules
  import opened CrashLimits

  const INVALID_UID: int := -1

  /** The bundle is gone or installed and enabled. */
  predicate Settled(s: Slot) {
    && Paired(s)
    && (s.state == None || s.state == Some(InstallState.INSTALL_SUCCESS))
    && (s.info.Some? ==> s.info.value.enabled)
  }

  predicate Agree(a: map<string, Module>, b: map<string, Module>, p: string) {
    (p in a <==> p in b) && (p in a ==> a[p] == b[p])
  }

  ghost predicate AgreeExcept(a: map<string, Module>, b: map<string, Module>, packages: set<string>) {
    forall p :: p !in packages ==> Agree(a, b, p)
  }

  predicate Updating(s: Slot) { s.state == Some(UPDATING_START) || s.state == Some(UPDATING_SUCCESS) }

  /** A state that the update of a package may start from. */
  predicate CanUpdating(s: Slot) { Accepts(s, UPDATING_START) }

  /** Every code except the one on which a failed request is left without a rollback. */
  type RollbackCode = c: ErrCode | c != ZERO_USER_WITH_NO_SINGLETON witness ERR_OK

  function WithUser(r: Record, user: int, uid: int): Record { r.(users := r.users[user := uid]) }

  lemma UpdateTouchesOne(r: Record, h: Hap)
    ensures AgreeExcept(UpdatedRecord(r, h).modules, r.modules, {h.package}) && UpdatedRecord(r, h).users == r.users
  {
  }

  lemma AddTouchesOne(r: Record, h: Hap)
    ensures AgreeExcept(ExtendedRecord(r, h).modules, r.modules, {h.package}) && ExtendedRecord(r, h).users == r.users
  {
  }

  /** Putting a module back closes its package; `open` lists those that may still differ from `base`. */
  lemma MergeCloses(m: map<string, Module>, base: map<string, Module>, p: string, open: set<string>)
    requires p in base
    ensures AgreeExcept(m, base, open) ==> AgreeExcept(MergeModules(m, base, p), base, open - {p})
  {
    if AgreeExcept(m, base, open) {
      forall q | q !in open - {p}
        ensures Agree(MergeModules(m, base, p), base, q)
      {
        if q != p { assert Agree(m, base, q); }
      }
    }
  }

  lemma DropCloses(m: map<string, Module>, base: map<string, Module>, p: string, open: set<string>)
    requires p !in base
    ensures AgreeExcept(m, base, open) ==> AgreeExcept(m - {p}, base, open - {p})
  {
    if AgreeExcept(m, base, open) {
      forall q | q !in open - {p}
        ensures Agree(m - {p}, base, q)
      {
        if q != p { assert Agree(m, base, q); }
      }
    }
  }

  lemma AgreeTrans(a: map<string, Module>, b: map<string, Module>, c: map<string, Module>, x: set<string>,
          y: set<string>)
    requires AgreeExcept(a, b, x) && AgreeExcept(b, c, y) && x <= y
    ensures AgreeExcept(a, c, y)
  {
    forall p | p !in y
      ensures Agree(a, c, p)
    {
      assert Agree(a, b, p) && Agree(b, c, p);
    }
  }

  lemma FoldOfNone(p: Progress, haps: seq<Hap>, first: nat, t: Terms)
    requires first <= |haps|
    ensures Fold(p, haps[first..first], t) == Ok(p)
  {
  }

  /** The fold goes on by package `i`, or ends with its verdict. */
  lemma FoldNext(p: Progress, haps: seq<Hap>, first: nat, i: nat, t: Terms)
    requires first <= i < |haps| && Fold(p, haps[first..i], t).Ok?
    ensures var step := StepHap(Fold(p, haps[first..i], t).value, haps[i], t);
            && Fold(p, haps[first..i + 1], t) == step
            && (step.Err? ==> Fold(p, haps[first..], t) == step)
  {
    var done, last := haps[first..i], [haps[i]];
    assert haps[first..i + 1] == done + last && haps[first..] == done + haps[i..];
    FoldAppended(p, done, last, t);
    FoldAppended(p, done, haps[i..], t);
    assert last[1..] == [] && haps[i..][0] == haps[i];
  }

  lemma {:induction false} FoldAppended(p: Progress, a: seq<Hap>, b: seq<Hap>, t: Terms)
    requires Fold(p, a, t).Ok?
    ensures Fold(p, a + b, t) == Fold(Fold(p, a, t).value, b, t)
    decreases |a|
  {
    if a == [] {
      assert a + b == b;
    } else {
      assert (a + b)[0] == a[0] && (a + b)[1..] == a[1..] + b;
      FoldAppended(StepHap(p, a[0], t).value, a[1..], b, t);
    }
  }

  predicate ListsFirst(packages: seq<string>, haps: seq<Hap>, n: nat) {
    |packages| == n <= |haps| && forall k :: 0 <= k < n ==> packages[k] == haps[k].package
  }

  lemma ListsAll(packages: seq<string>, haps: seq<Hap>)
    requires ListsFirst(packages, haps, |haps|)
    ensures Elements(packages) == PackagesOf(haps)
  {
    forall x | x in PackagesOf(haps)
      ensures x in packages
    {
      var k :| 0 <= k < |haps| && haps[k].package == x;
      assert packages[k] == x;
    }
  }

  lemma VecOfNone(haps: seq<Hap>)
    requires haps != []
    ensures !ListsFirst([], haps, |haps|) && Elements([]) == {}
  {
  }

  lemma RenamesGrow(packages: seq<string>, p: string)
    ensures RenamesOf(packages + [p]) == RenamesOf(packages) + [Rename(p)]
  {
    assert (packages + [p])[..|packages|] == packages;
  }

  lemma RenamesPrefix(packages: seq<string>, i: nat)
    requires i <= |packages|
    ensures RenamesOf(packages[..0]) == []
    ensures i < |packages| ==> RenamesOf(packages[..i + 1]) == RenamesOf(packages[..i]) + [Rename(packages[i])]
  {
    if i < |packages| {
      assert packages[..i + 1] == packages[..i] + [packages[i]];
      RenamesGrow(packages[..i], packages[i]);
    }
  }

  lemma {:induction false} RenamesJoin(p: string, packages: seq<string>)
    ensures RenamesOf([p] + packages) == [Rename(p)] + RenamesOf(packages)
    decreases |packages|
  {
    if packages == [] {
      assert [p] + packages == [p] && [p][..0] == [];
    } else {
      var k := |packages| - 1;
      assert ([p] + packages)[..k + 1] == [p] + packages[..k];
      RenamesJoin(p, packages[..k]);
    }
  }

  lemma NothingYet(r: Record, packages: set<string>)
    ensures RenamesOf([]) == [] && AgreeExcept(r.modules, r.modules, packages)
  {
  }

  lemma UpdatingGoesOn()
    ensures forall s: Slot :: s.state == Some(UPDATING_SUCCESS) || s.state == Some(InstallState.INSTALL_START) ==>
            CanUpdating(s)
  {
  }

  /** An `InnerBundleInfo` nothing has been read into. */
  const BLANK: Record := Record(0, map[], map[], InstallMark("", UNKNOWN_STATUS), true, false)

  /** Where the update loop starts from. */
  function LoopStart(s: Slot, calls: seq<Call>): Progress
    requires s.info.Some?
  {
    Progress(s.info.value.(enabled := false), calls, [])
  }

  /** The record a request starts from: a user who is new to the bundle has been added and saved. */
  predicate JoinedBy(prior: Record, start: Record, user: int) {
    if user in prior.users then start == prior.(enabled := false)
    else user in start.users && start == prior.(users := prior.users[user := start.users[user]], enabled := true)
  }

  /** What a request did besides its result: the mark of a first install, the record after a new user or the first
      package, the lower-version modules removed, how far the only package of a failed request came, and whether it was
      a rename that failed. */
  datatype Course = Course(marked: Record, start: Record, order: seq<string>, reached: Option<Reached>, renaming: bool)

  /** The durable calls of an undisturbed success, in order, and the record it leaves. */
  ghost predicate Performed(c: Course, prior: Option<Record>, haps: seq<Hap>, user: int, t: Terms, before: seq<Call>,
                            now: seq<Call>, after: Option<Record>)
    requires haps != []
  {
    match prior
    case Some(r) =>
      && JoinedBy(r, c.start, user)
      && Elements(c.order) == (if t.version > r.version then r.modules.Keys - PackagesOf(haps) else {})
      && var folded := Fold(Start(c.start.(enabled := false)), haps, t);
         && folded.Ok?
         && now == before + (if user in r.users then [] else [Save(c.start)]) + RequestCalls(c.start, haps, t, c.order)
         && after == Some(DropAll(folded.value.record, c.order).(enabled := true))
    case None =>
      && FirstMark(c.marked, haps[0]) && FirstRecord(c.start, haps[0], user)
      && var u := t.(installedInUser := true);
         var folded := Fold(Start(c.start.(enabled := false)), haps[1..], u);
         && folded.Ok?
         && now == before + FreshCalls(c.marked, c.start, haps, u)
         && after == Some(folded.value.record.(enabled := true))
  }

  /** The loop went through all packages, from the record `c.start` on, to progress `q`. */
  ghost predicate Looped(c: Course, prior: Option<Record>, haps: seq<Hap>, user: int, t: Terms, before: seq<Call>,
                         q: Progress)
    requires haps != []
  {
    var copy := c.start.(enabled := false);
    match prior
    case Some(r) =>
      && JoinedBy(r, c.start, user)
      && Fold(Progress(copy, before + (if user in r.users then [] else [Save(c.start)]), []), haps, t) == Ok(q)
    case None =>
      && FirstMark(c.marked, haps[0]) && FirstRecord(c.start, haps[0], user)
      && Fold(Progress(copy, before + FirstCalls(c.marked, c.start, haps[0]), []), haps[1..],
              t.(installedInUser := true)) == Ok(q)
  }

  /** All packages were done, so that only a rename can have failed. */
  ghost predicate AllDone(c: Course, prior: Option<Record>, haps: seq<Hap>, user: int, t: Terms, before: seq<Call>,
                          now: seq<Call>)
    requires haps != []
  {
    exists q :: Looped(c, prior, haps, user, t, before, q) && q.calls <= now
  }

  /** With the renames and the removals that follow, the loop has performed the request. */
  lemma LoopedPerforms(c: Course, prior: Option<Record>, haps: seq<Hap>, user: int, t: Terms, before: seq<Call>,
                       q: Progress, order: seq<string>)
    requires haps != [] && Looped(c, prior, haps, user, t, before, q)
    requires Elements(order) == if prior.Some? && t.version > prior.value.version
                                then q.record.modules.Keys - PackagesOf(haps) else {}
    ensures var first := if prior.None? then [Rename(haps[0].package)] else [];
            Performed(c.(order := order), prior, haps, user, t, before,
                      q.calls + first + q.renames + RemovalCalls(q.record, order),
                      Some(DropAll(q.record, order).(enabled := true)))
  {
    hide Fold, PackagesOf, FirstMark, FirstRecord;
    match prior
    case Some(r) =>
      var past := before + if user in r.users then [] else [Save(c.start)];
      RequestMade(c.start, past, haps, t, q, order);
      assert c.start.modules == r.modules && q.calls + [] == q.calls;
    case None =>
      NoElements(order);
      var p := Start(c.start.(enabled := false));
      var past := before + FirstCalls(c.marked, c.start, haps[0]);
      assert past + p.calls == past;
      FoldFromPast(past, p, haps[1..], t.(installedInUser := true));
  }

  lemma JoinedLoops(c: Course, prior: Record, haps: seq<Hap>, user: int, t: Terms, before: seq<Call>, now: seq<Call>)
    requires haps != [] && !prior.enabled
    requires if user in prior.users then c.start == prior && now == before
             else && user in c.start.users && now == before + [Save(c.start)]
                  && c.start == WithUser(prior, user, c.start.users[user]).(enabled := true)
    ensures JoinedBy(prior, c.start, user)
    ensures forall q, r :: Fold(Progress(c.start.(enabled := false), now, []), haps, t) == Ok(q)
                           ==> Looped(c.(reached := r), Some(prior), haps, user, t, before, q)
  {
    assert before + [] == before;
  }

  lemma LoopedIgnoresEnabled(prior: Record, haps: seq<Hap>, user: int, t: Terms, before: seq<Call>)
    requires haps != []
    ensures forall c, q :: Looped(c, Some(prior.(enabled := false)), haps, user, t, before, q)
                           ==> Looped(c, Some(prior), haps, user, t, before, q)
  {
  }

  lemma LoopedUsers(c: Course, prior: Option<Record>, haps: seq<Hap>, user: int, t: Terms, before: seq<Call>,
                    q: Progress)
    requires haps != [] && Looped(c, prior, haps, user, t, before, q)
    ensures prior.Some? ==> q.record.users.Keys == prior.value.users.Keys + {user}
    ensures PackagesOf(haps) <= q.record.modules.Keys
  {
    hide Fold;
    if prior.Some? {
      var past := before + if user in prior.value.users then [] else [Save(c.start)];
      FoldKeepsOthers(Progress(c.start.(enabled := false), past, []), haps, t);
    } else {
      var past := before + FirstCalls(c.marked, c.start, haps[0]);
      FoldKeepsOthers(Progress(c.start.(enabled := false), past, []), haps[1..], t.(installedInUser := true));
      PackagesOfRest(haps);
    }
  }

  lemma LoopedIsDone(c: Course, d: Course, prior: Option<Record>, haps: seq<Hap>, user: int, t: Terms,
                     before: seq<Call>, q: Progress, now: seq<Call>)
    requires haps != [] && Looped(c, prior, haps, user, t, before, q) && q.calls <= now
    requires d.marked == c.marked && d.start == c.start
    ensures AllDone(d, prior, haps, user, t, before, now) && Looped(d, prior, haps, user, t, before, q)
  {
    assert Looped(d, prior, haps, user, t, before, q);
  }

  lemma DoneStays(c: Course, prior: Option<Record>, haps: seq<Hap>, user: int, t: Terms, before: seq<Call>,
                  now: seq<Call>, later: seq<Call>)
    requires haps != [] && AllDone(c, prior, haps, user, t, before, now) && now <= later
    ensures AllDone(c, prior, haps, user, t, before, later)
  {
    var q :| Looped(c, prior, haps, user, t, before, q) && q.calls <= now;
    assert Looped(c, prior, haps, user, t, before, q);
  }

  lemma LoopedInUser(c: Course, prior: Record, haps: seq<Hap>, user: int, t: Terms, before: seq<Call>, q: Progress)
    requires haps != [] && user in prior.users && Looped(c, Some(prior), haps, user, t, before, q)
    ensures Fold(Progress(prior.(enabled := false), before, []), haps, t) == Ok(q)
  {
    assert before + [] == before;
  }

  /** For a first install of one package the calls are `InstallCalls`. */
  lemma PerformedOne(c: Course, haps: seq<Hap>, user: int, t: Terms, before: seq<Call>, now: seq<Call>,
                     after: Option<Record>)
    requires |haps| == 1 && Performed(c, None, haps, user, t, before, now, after)
    ensures after == Some(c.start) && FirstMark(c.marked, haps[0]) && FirstRecord(c.start, haps[0], user)
    ensures now == before + InstallCalls(c.marked, c.start, haps[0].package, haps[0].version)
  {
    assert haps[1..] == [];
  }

  /** What the loop has called, with the renames and the removals that follow, is what the request calls. */
  lemma RequestMade(prior: Record, past: seq<Call>, haps: seq<Hap>, t: Terms, q: Progress, order: seq<string>)
    requires Fold(Progress(prior.(enabled := false), past, []), haps, t) == Ok(q)
    ensures var folded := Fold(Start(prior.(enabled := false)), haps, t); folded.Ok? && folded.value.record == q.record
    ensures q.calls + q.renames + RemovalCalls(q.record, order) == past + RequestCalls(prior, haps, t, order)
    ensures q.record.modules.Keys - PackagesOf(haps) == prior.modules.Keys - PackagesOf(haps)
  {
    hide Fold;
    var p := Start(prior.(enabled := false));
    assert past + p.calls == past;
    FoldFromPast(past, p, haps, t);
    FoldKeepsOthers(p, haps, t);
  }

  /** How far a first install may have come. */
  predicate Beginning(s: Slot) {
    && (Paired(s) || s == Slot(Some(InstallState.INSTALL_START), None))
    && (s.state == None || s.state == Some(InstallState.INSTALL_START) || Updating(s))
  }

  /** The state in which rollback leaves a bundle. */
  function RolledBackState(s: Option<InstallState>): Option<InstallState> {
    if s == Some(UPDATING_START) || s == Some(UPDATING_SUCCESS) then Some(ROLL_BACK) else s
  }

  lemma RollsBackOnce(s: Slot)
    ensures SetState(s, ROLL_BACK).state == RolledBackState(s.state)
    ensures RolledBackState(RolledBackState(s.state)) == RolledBackState(s.state)
    ensures s.state == Some(InstallState.INSTALL_SUCCESS) ==> RolledBackState(s.state) == s.state
  {
  }

  lemma ShrinksBy(haps: seq<Hap>, i: nat)
    requires i < |haps|
    ensures haps[i].package in PackagesOf(haps)
    ensures PackagesOf(haps[..i + 1]) == PackagesOf(haps[..i]) + {haps[i].package}
  {
    assert haps[i] in haps;
    assert haps[..i + 1] == haps[..i] + [haps[i]];
  }

  lemma AgreeEverywhere(a: map<string, Module>, b: map<string, Module>, open: set<string>)
    requires AgreeExcept(a, b, open) && open == {}
    ensures a == b
  {
    forall p
      ensures (p in a <==> p in b) && (p in a ==> a[p] == b[p])
    {
      assert Agree(a, b, p);
    }
  }

  lemma NothingDropped(order: seq<string>, keys: set<string>, wanted: set<string>, left: set<string>)
    requires Elements(order) == keys - left - wanted && keys <= wanted
    ensures order == []
  {
    assert keys - left - wanted == {};
    NoElements(order);
  }

  lemma NoElements(order: seq<string>)
    ensures order == [] <==> Elements(order) == {}
  {
    if order != [] { assert order[0] in Elements(order); }
  }

  /** The calls of the removals do not depend on whether the record they start from is enabled. */
  lemma {:induction false} RemovalIgnoresEnabled(r: Record, enabled: bool, order: seq<string>)
    ensures RemovalCalls(r.(enabled := enabled), order) == RemovalCalls(r, order)
    ensures order != [] ==> DropAll(r.(enabled := enabled), order) == DropAll(r, order)
    ensures DropAll(r.(enabled := enabled), order).(enabled := true) == DropAll(r, order).(enabled := true)
    decreases |order|
  {
    if order != [] {
      var k := |order| - 1;
      RemovalIgnoresEnabled(r, enabled, order[..k]);
      assert Dropped(DropAll(r.(enabled := enabled), order[..k]), order[k])
             == Dropped(DropAll(r, order[..k]), order[k]);
    }
  }

  lemma NothingRemoved(r: Record)
    ensures DropAll(r, []) == r && RemovalCalls(r, []) == [] && Elements([]) == {}
  {
  }

  lemma GrowsBy(order: seq<string>, p: string)
    ensures Elements(order + [p]) == Elements(order) + {p}
  {
  }

  /** The directory of module `p` was removed between the calls `before` and `now`. */
  ghost predicate DirGone(before: seq<Call>, now: seq<Call>, p: string) {
    exists k :: |before| <= k < |now| && now[k] == RemoveModuleDir(p, false)
  }

  /** Modules may only have gone from `was`, none of them in `kept`, and only after their directories. */
  ghost predicate GoneWithCode(was: map<string, Module>, now: map<string, Module>, kept: set<string>, before: seq<Call>,
                               after: seq<Call>)
  {
    && now.Keys <= was.Keys
    && forall p :: p in was && p !in now ==> p !in kept && DirGone(before, after, p)
  }

  lemma NoneGone(was: map<string, Module>, kept: set<string>, before: seq<Call>)
    ensures GoneWithCode(was, was, kept, before, before)
  {
  }

  lemma OneMoreGone(was: map<string, Module>, then_: map<string, Module>, now: map<string, Module>, kept: set<string>,
                    p: string, before: seq<Call>, mid: seq<Call>, later: seq<Call>)
    requires GoneWithCode(was, then_, kept, before, mid) && before <= mid <= later && p !in kept
    requires now == then_ || (now == then_ - {p} && DirGone(mid, later, p))
    ensures GoneWithCode(was, now, kept, before, later)
  {
    GoneLater(was, then_, kept, before, mid, later);
    if now != then_ {
      var k :| |mid| <= k < |later| && later[k] == RemoveModuleDir(p, false);
      assert DirGone(before, later, p);
    }
  }

  lemma FewerGone(was: map<string, Module>, then_: map<string, Module>, now: map<string, Module>, kept: set<string>,
                  before: seq<Call>, after: seq<Call>)
    requires GoneWithCode(was, then_, kept, before, after) && then_.Keys <= now.Keys <= was.Keys
    ensures GoneWithCode(was, now, kept, before, after)
  {
  }

  lemma GoneLater(was: map<string, Module>, now: map<string, Module>, kept: set<string>, before: seq<Call>,
                  after: seq<Call>, later: seq<Call>)
    requires GoneWithCode(was, now, kept, before, after) && before <= after <= later
    ensures GoneWithCode(was, now, kept, before, later)
  {
    forall p | p in was && p !in now
      ensures DirGone(before, later, p)
    {
      var k :| |before| <= k < |after| && after[k] == RemoveModuleDir(p, false);
      assert later[k] == RemoveModuleDir(p, false);
    }
  }

  lemma KeepAll(modules: map<string, Module>, packages: set<string>)
    ensures Kept(modules, modules.Keys + packages) == modules
  {
  }

  /** Going on to the next module: one outside the request is dropped, one of the request stays. */
  lemma KeptShrinks(modules: map<string, Module>, left: set<string>, packages: set<string>, p: string)
    requires p in left && left <= modules.Keys
    ensures Kept(modules, left - {p} + packages)
            == if p in packages then Kept(modules, left + packages) else Kept(modules, left + packages) - {p}
  {
  }

  /** The data manager has both entries of the bundle or none, and no delete state. */
  predicate Known(s: Slot) { Paired(s) && (s.state.Some? ==> !IsDeleteDataState(s.state.value)) }

  /** The module is the bundle's only one, and other users have the bundle. */
  predicate StaysUninstalling(s: Slot, package: string) {
    s.info.Some? && IsOnlyModule(s.info.value, package) && |s.info.value.users| > 1
  }

  /** What taking back a first install comes to, by the state in which it failed. */
  lemma FreshRollback(s: Slot)
    requires Beginning(s)
    ensures SetState(s, UPDATING_FAIL) == if s.state == Some(UPDATING_SUCCESS) then s else Slot(None, None)
  {
  }

  /** The entries of a new bundle once its first package is recorded and the second has been extracted. */
  function SecondExtracted(r: Record): Slot {
    var recorded := Step(Step(Slot(None, None), ToState(InstallState.INSTALL_START)), AddBundle(r, true));
    Step(Step(recorded, ToState(UPDATING_START)), ToState(UPDATING_SUCCESS))
  }

  /** Three packages, the last failing before its extraction: the bundle goes, though the second was recorded. */
  lemma FailingThirdPackage(r: Record, h: Hap)
    requires h.package !in r.modules
    ensures var second := Step(SecondExtracted(r), AddModule_(h, r, true));
            var failed := Step(second, ToState(UPDATING_START));
            && failed.info.Some? && h.package in failed.info.value.modules
            && Step(failed, ToState(UPDATING_FAIL)) == Slot(None, None)
  {
  }

  /** Two packages, the second failing after its extraction: the bundle stays, with the first package only. */
  lemma FailingSecondPackage(r: Record, h: Hap)
    requires h.package !in r.modules && r.enabled
    ensures var failed := Step(SecondExtracted(r), AddModule_(h, r, false));
            var undone := Step(failed, ToState(UPDATING_FAIL));
            Step(Step(undone, Enable), ToState(InstallState.INSTALL_SUCCESS))
            == Slot(Some(InstallState.INSTALL_SUCCESS), Some(r))
  {
  }

  /**
   Removing the only module for one of several users leaves the bundle in UNINSTALL_START, from which neither an
   update nor another uninstall may start.
   */
  lemma UninstallingForever(r: Record, package: string, user: int)
    requires StaysUninstalling(Slot(Some(InstallState.INSTALL_SUCCESS), Some(r)), package)
    ensures var installed := Slot(Some(InstallState.INSTALL_SUCCESS), Some(r));
            var begun := Step(Step(installed, Disable), ToState(UNINSTALL_START));
            var left := Step(begun, UserRemoved(user));
            && left.info.Some? && !Settled(left)
            && !Accepts(left, UPDATING_START) && !Accepts(left, UNINSTALL_START)
  {
  }

  lemma InstalledMayUpdate(s: Slot)
    requires s.state == Some(InstallState.INSTALL_SUCCESS)
    ensures CanUpdating(s)
  {
  }

  /** Dropping a module from the marked record leaves what dropping it from the enabled one would. */
  lemma DropsMarked(info: Record, package: string)
    ensures var marked, left := SetMark(info, package, UNINSTALL_PACKAGE_START),
                LeftWithout(info.(enabled := true), package);
            && SetMark(DropModule(marked, package).(enabled := true), package, INSTALL_FINISH) == left
            && left.modules == info.modules - {package} && left.users == info.users && left.version == info.version
  {
  }

  lemma MayUninstall(s: Slot)
    requires s.state == Some(UPDATING_SUCCESS) || s.state == Some(InstallState.INSTALL_START)
    ensures Accepts(s, UNINSTALL_START)
  {
  }

  /** The packages of a request belong together. */
  predicate Acceptable(haps: seq<Hap>) { haps != [] && OneEntryAtMost(haps) && SameVersion(haps, haps[0].version) }

  /** What a first install stores before touching the disk, and what it records at the end. */
  predicate FirstMark(marked: Record, h: Hap) {
    SameContent(marked, RecordOf(h)) && marked.mark == InstallMark(h.package, InstallExceptionStatus.INSTALL_START)
  }

  predicate FirstRecord(r: Record, h: Hap, user: int) {
    SameContent(r, RecordOf(h)) && r.enabled && user in r.users && r.mark == InstallMark(h.package, INSTALL_FINISH)
  }

  // ---- Where a request stopped ----

  /** Codes of failures that come after the code of a package was extracted. */
  predicate Late(code: ErrCode) { code == PERMISSION_ERROR || code == DIR_APL_ERROR }

  /**
   Package `h` failed with `code` after getting as far as `reached`: the entries and the durable calls then, from those
   at its start. Without a name it fails before anything.
   */
  predicate FailedIn(reached: Reached, code: ErrCode, s: Slot, entry: Option<InstallState>, h: Hap, prior: Record,
                     before: seq<Call>, now: seq<Call>)
  {
    if h.package == "" then s == Slot(entry, Some(prior)) && now == before && code == PARAM_ERROR
    else
      && s == Slot(Some(if IsStaged(reached) then UPDATING_SUCCESS else UPDATING_START),
                   Some(if reached.Recorded? then SavedRecord(prior, h) else prior))
      && now == before + PackageCalls(prior, h, reached)
      && if Late(code) then IsStaged(reached) else !reached.Recorded?
  }

  predicate IsWrite(c: Call) { c.Save? || c.Extract? }

  /** How many records and packages of code the calls have written. */
  function Writes(calls: seq<Call>): nat {
    if calls == [] then 0 else Writes(calls[..|calls| - 1]) + if IsWrite(calls[|calls| - 1]) then 1 else 0
  }

  lemma WritesGrow(calls: seq<Call>, c: Call)
    ensures Writes(calls + [c]) == Writes(calls) + if IsWrite(c) then 1 else 0
  {
    assert (calls + [c])[..|calls|] == calls;
  }

  lemma {:induction false} WritesAdd(a: seq<Call>, b: seq<Call>)
    ensures Writes(a + b) == Writes(a) + Writes(b)
    decreases |b|
  {
    if b == [] {
      assert a + b == a;
    } else {
      var k := |b| - 1;
      assert a + b == (a + b[..k]) + [b[k]];
      WritesGrow(a + b[..k], b[k]);
      WritesAdd(a, b[..k]);
    }
  }

  lemma PackageWrites(r: Record, h: Hap, reached: Reached)
    ensures Writes(PackageCalls(r, h, reached))
            == match reached case NotMarked => 0 case Marked => 1 case Staged(_) => 2 case Recorded => 3
  {
    var there := h.package in r.modules;
    var mark := Save(SetMark(r, h.package, if there then UPDATING_EXISTED_START else UPDATING_NEW_START));
    var extract := Extract(h.package, there, h.version);
    WritesGrow([], mark);
    WritesGrow([mark], extract);
    WritesGrow([mark, extract], RemoveModuleDir(h.package, false));
    WritesGrow([mark, extract], Save(SavedRecord(r, h)));
    assert [] + [mark] == [mark] && [mark] + [extract] == [mark, extract];
    assert [mark, extract] + [Save(SavedRecord(r, h))] == [mark, extract, Save(SavedRecord(r, h))];
  }

  /** A package of an update by a user who has the bundle makes three writes. */
  lemma {:induction false} FoldWrites(p: Progress, haps: seq<Hap>, t: Terms)
    requires t.installedInUser && Fold(p, haps, t).Ok?
    ensures Writes(Fold(p, haps, t).value.calls) == Writes(p.calls) + 3 * |haps|
    decreases |haps|
  {
    if haps != [] {
      var h, q := haps[0], StepHap(p, haps[0], t).value;
      assert q == if h.package in p.record.modules then UpdateStep(p, h) else AddStep(p, h);
      assert q.calls == p.calls + PackageCalls(p.record, h, Recorded);
      WritesAdd(p.calls, PackageCalls(p.record, h, Recorded));
      PackageWrites(p.record, h, Recorded);
      FoldWrites(q, haps[1..], t);
    }
  }

  /** How many packages a first install had done when it failed with `code` after `writes` writes. */
  function PackagesDone(writes: int, code: ErrCode): int { (if Late(code) then writes - 2 else writes) / 3 }

  /**
   Had the package that failed, or else the last one, reached UPDATING_SUCCESS? Three writes a package, and for the one
   that failed, its mark, its code and perhaps its record, say where a first install stopped.
   */
  predicate PastExtraction(haps: seq<Hap>, writes: int, code: ErrCode) {
    var at := PackagesDone(writes, code);
    && |haps| > 1 && at >= 1
    && (at >= |haps| || if haps[at].package == "" then at > 1 else writes - 3 * at >= 2)
  }

  /**
   The count tells exactly where a first install stopped: `at` packages were done, the first one with the calls in `p`,
   and the next failed as `reached` says, or no package failed.
   */
  lemma CountTellsWhere(haps: seq<Hap>, t: Terms, p: Progress, at: nat, q: Progress, reached: Reached, code: ErrCode,
                        s: Slot, entry: Option<InstallState>, base: nat, now: seq<Call>)
    requires t.installedInUser && 1 <= at <= |haps| && Fold(p, haps[1..at], t) == Ok(q) && Writes(p.calls) == base + 3
    requires if at == |haps| then Writes(now) == Writes(q.calls) && !Late(code)
             else FailedIn(reached, code, s, entry, haps[at], q.record, q.calls, now)
    ensures PackagesDone(Writes(now) - base, code) == at
    ensures PastExtraction(haps, Writes(now) - base, code)
            <==> |haps| > 1 && (at == |haps| || if haps[at].package == "" then at > 1 else IsStaged(reached))
  {
    hide Writes, Fold, PackageCalls, SavedRecord;
    FoldWrites(p, haps[1..at], t);
    if at < |haps| && haps[at].package != "" {
      WritesAdd(q.calls, PackageCalls(q.record, haps[at], reached));
      PackageWrites(q.record, haps[at], reached);
    }
  }

  /** The state in which a first install stopped, told by the count. */
  lemma StoppedFresh(haps: seq<Hap>, t: Terms, p: Progress, at: nat, q: Progress, reached: Reached, code: ErrCode,
                     s: Slot, entry: Option<InstallState>, base: nat, now: seq<Call>)
    requires t.installedInUser && 1 <= at < |haps| && Fold(p, haps[1..at], t) == Ok(q) && Writes(p.calls) == base + 3
    requires entry == Some(InstallState.INSTALL_START)
    requires FailedIn(reached, code, s, if at == 1 then entry else Some(UPDATING_SUCCESS), haps[at], q.record, q.calls,
                      now)
    ensures s.state == Some(UPDATING_SUCCESS) <==> PastExtraction(haps, Writes(now) - base, code)
  {
    CountTellsWhere(haps, t, p, at, q, reached, code, s, if at == 1 then entry else Some(UPDATING_SUCCESS), base, now);
  }

  lemma StoppedAfterAll(haps: seq<Hap>, writes: int, code: ErrCode)
    requires haps != [] && writes == 3 * |haps| && !Late(code)
    ensures PastExtraction(haps, writes, code) <==> |haps| > 1
  {
  }

  /** When the only rename fails, the package had been recorded. */
  lemma RenamedNone(prior: Record, haps: seq<Hap>, t: Terms, q: Progress, toRename: seq<string>, past: seq<Call>,
                    s: Slot, entry: Option<InstallState>, installed: set<string>, dirs: set<string>)
    requires |haps| == 1 && t.installedInUser && Fold(Progress(prior, past, []), haps, t) == Ok(q)
    requires q.renames == RenamesOf(toRename) && (toRename != [] ==> haps[0].package in dirs)
    requires s == Slot(Some(UPDATING_SUCCESS), Some(q.record))
    requires installed == PackagesOf(haps) * prior.modules.Keys
    ensures |toRename| == 1
    ensures StoppedUpdate(Some(Recorded), s, entry, prior, haps[0], past, q.calls, installed, dirs)
  {
    hide RenamesOf, PackageCalls, SavedRecord, Fold;
    var h := haps[0];
    SingleFold(prior, haps, t, past);
    assert h in haps;
    assert forall p :: p in PackagesOf(haps) ==> p == h.package;
    RenameCount(toRename);
  }

  lemma SingleFold(prior: Record, haps: seq<Hap>, t: Terms, past: seq<Call>)
    requires |haps| == 1 && t.installedInUser && Fold(Progress(prior, past, []), haps, t).Ok?
    ensures var q := Fold(Progress(prior, past, []), haps, t).value;
            && q.record == SavedRecord(prior, haps[0]) && |q.renames| == 1
            && q.calls == past + PackageCalls(prior, haps[0], Recorded)
  {
    hide UpdatedRecord, ExtendedRecord;
    var h, p := haps[0], Progress(prior, past, []);
    var q := if h.package in prior.modules then UpdateStep(p, h) else AddStep(p, h);
    assert StepHap(p, h, t) == Ok(q);
    assert haps[1..] == [];
  }

  lemma {:induction false} RenameCount(packages: seq<string>)
    ensures |RenamesOf(packages)| == |packages|
    decreases |packages|
  {
    if packages != [] { RenameCount(packages[..|packages| - 1]); }
  }

  /** The calls of a package that is new to the bundle, written out. */
  lemma AddedPackageCalls(p: Progress, prior: Record, h: Hap)
    requires h.package !in prior.modules && p.record == prior
    ensures var marked := SetMark(prior, h.package, UPDATING_NEW_START);
            var mark, extract := Save(marked), Extract(h.package, false, h.version);
            && PackageCalls(prior, h, NotMarked) == [] && PackageCalls(prior, h, Marked) == [mark]
            && PackageCalls(prior, h, Staged(false)) == [mark, extract]
            && PackageCalls(prior, h, Staged(true)) == [mark, extract, RemoveModuleDir(h.package, false)]
            && AddStep(p, h).record == ExtendedRecord(prior, h) == ExtendedRecord(marked, h)
            && AddStep(p, h).calls == p.calls + [mark, extract, Save(ExtendedRecord(prior, h))]
  {
  }

  /** The calls of an update up to its extraction, written out. */
  lemma UpdatedPackageCalls(prior: Record, h: Hap)
    requires h.package in prior.modules
    ensures var mark := Save(SetMark(prior, h.package, UPDATING_EXISTED_START));
            && PackageCalls(prior, h, NotMarked) == [] && PackageCalls(prior, h, Marked) == [mark]
            && PackageCalls(prior, h, Staged(false)) == [mark, Extract(h.package, true, h.version)]
  {
  }

  lemma UpdateStepCalls(p: Progress, h: Hap)
    requires h.package in p.record.modules
    ensures UpdateStep(p, h).record == UpdatedRecord(p.record, h)
    ensures UpdateStep(p, h).record == UpdatedRecord(SetMark(p.record, h.package, UPDATING_EXISTED_START), h)
    ensures UpdateStep(p, h).calls == p.calls + PackageCalls(p.record, h, Recorded)
    ensures PackageCalls(p.record, h, Staged(false)) + [Save(UpdatedRecord(p.record, h))]
            == PackageCalls(p.record, h, Recorded)
  {
  }

  /** What a request makes of an installed bundle, from any copy of its record with the same content. */
  lemma MergedFromFold(prior: Record, p: Progress, haps: seq<Hap>, t: Terms)
    requires haps != [] && SameContent(prior, p.record)
    ensures var refusal := if TypeDiffers(prior, haps) then TYPE_ERROR
                           else VersionError(prior, ContainEntry(haps), t.version);
            var merged, folded := Merged(Some(prior), haps, t), Fold(p, haps, t);
            if refusal != ERR_OK then merged == Verdict.Err(refusal)
            else match folded
                 case Err(code) => merged == folded
                 case Ok(q) => merged.Ok? && SameContent(q.record, merged.value.record)
  {
    hide Fold;
    FoldSameContent(Start(prior), p, haps, t);
  }

  /** The same for a first install, from the record of its first package on. */
  lemma MergedFromFirst(p: Progress, haps: seq<Hap>, t: Terms)
    requires haps != [] && SameContent(RecordOf(haps[0]), p.record)
    ensures var merged, folded := Merged(None, haps, t), Fold(p, haps[1..], t.(installedInUser := true));
            match folded
            case Err(code) => merged == folded
            case Ok(q) => merged.Ok? && SameContent(q.record, merged.value.record)
  {
    FoldSameContent(Start(RecordOf(haps[0])), p, haps[1..], t.(installedInUser := true));
  }

  lemma FailedIsStopped(reached: Reached, code: ErrCode, s: Slot, entry: Option<InstallState>, prior: Record, h: Hap,
                        before: seq<Call>, now: seq<Call>, installed: set<string>, dirs: set<string>)
    requires h.package != "" && FailedIn(reached, code, s, entry, h, prior, before, now)
    requires (h.package in installed <==> h.package in prior.modules) && (h.package in dirs <==> IsStaged(reached))
    ensures StoppedUpdate(Some(reached), s, entry, prior, h, before, now, installed, dirs)
  {
  }

  lemma NotBegun(s: Slot, prior: Record, h: Hap, now: seq<Call>, installed: set<string>, dirs: set<string>)
    ensures h.package !in installed && h.package !in dirs ==>
              StoppedUpdate(None, s, s.state, prior, h, now, now, installed, dirs)
  {
  }

  lemma SinglePackage(haps: seq<Hap>)
    requires |haps| == 1
    ensures PackagesOf(haps) == {haps[0].package}
  {
    assert haps[0] in haps;
  }

  lemma StoppedAtOnce(haps: seq<Hap>)
    ensures forall code :: !PastExtraction(haps, 0, code)
    ensures |haps| <= 1 ==> forall writes, code :: !PastExtraction(haps, writes, code)
  {
  }

  lemma StoppedInFirst(haps: seq<Hap>, writes: int, code: ErrCode)
    requires 0 <= writes <= 2 && (Late(code) ==> writes == 2)
    ensures !PastExtraction(haps, writes, code)
  {
  }

  /** What the rollback calls where a request of one package stopped; both together are `RolledBackCalls`. */
  lemma RolledBack(reached: Option<Reached>, stopped: Slot, before: Slot, h: Hap, oldInfo: Record, past: seq<Call>,
                   made: seq<Call>, installed: set<string>, dirs: set<string>)
    requires before.state == Some(InstallState.INSTALL_SUCCESS) && before.info.Some?
    requires SameContent(oldInfo, before.info.value)
    requires var prior := before.info.value.(enabled := false);
             StoppedUpdate(reached, stopped, before.state, prior, h, past, made, installed, dirs)
    ensures reached.None? ==>
              h.package !in installed && h.package !in dirs && made == past && stopped.state == before.state
    ensures reached.Some? ==>
              && Updating(stopped) && stopped.info.Some? && (h.package in installed <==> h.package in oldInfo.modules)
              && var removal := if h.package in installed then [RemoveModuleDir(h.package, true)]
                                else if h.package in dirs then [RemoveModuleDir(h.package, false)] else [];
                 made + removal + [Save(PutBack(stopped.info.value.(enabled := false), oldInfo, h.package))]
                 == past + RolledBackCalls(before.info.value, h, reached.value)
  {
    if reached.Some? {
      var prior := before.info.value.(enabled := false);
      PutBackContent(stopped.info.value.(enabled := false), oldInfo, prior, h.package);
      assert RolledBackCalls(before.info.value, h, reached.value)
             == PackageCalls(prior, h, reached.value) + RollbackCalls(prior, h, reached.value);
    }
  }

  lemma PutBackContent(info: Record, a: Record, b: Record, package: string)
    requires SameContent(a, b)
    ensures PutBack(info, a, package) == PutBack(info, b, package)
  {
  }

  /** The calls of the first package of a first install. */
  function FirstCalls(marked: Record, first: Record, h: Hap): seq<Call> {
    [Save(marked), MakeBundleDir, Extract(h.package, false, h.version), Save(first)]
  }

  lemma FirstWrites(before: seq<Call>, marked: Record, h: Hap, done: Record)
    ensures Writes(before + [Save(marked), MakeBundleDir, Extract(h.package, false, h.version), Save(done)])
            == Writes(before) + 3
  {
    var a, b, c := before + [Save(marked)], before + [Save(marked), MakeBundleDir],
        before + [Save(marked), MakeBundleDir, Extract(h.package, false, h.version)];
    WritesGrow(before, Save(marked));
    WritesGrow(a, MakeBundleDir);
    WritesGrow(b, Extract(h.package, false, h.version));
    WritesGrow(c, Save(done));
    assert a + [MakeBundleDir] == b && b + [Extract(h.package, false, h.version)] == c;
    assert c + [Save(done)]
           == before + [Save(marked), MakeBundleDir, Extract(h.package, false, h.version), Save(done)];
  }

  /**
   A request of one package for an installed bundle stopped: before the package began, or in it or after it as
   `reached` says. `made` are its calls, `installed` and `dirs` what it noted for its rollback.
   */
  predicate StoppedUpdate(reached: Option<Reached>, s: Slot, entry: Option<InstallState>, prior: Record, h: Hap,
                          before: seq<Call>, now: seq<Call>, installed: set<string>, dirs: set<string>)
  {
    match reached
    case None => s.state == entry && now == before && h.package !in installed && h.package !in dirs
    case Some(x) =>
      && s == Slot(Some(if IsStaged(x) then UPDATING_SUCCESS else UPDATING_START),
                   Some(if x.Recorded? then SavedRecord(prior, h) else prior))
      && now == before + PackageCalls(prior, h, x)
      && (h.package in installed <==> h.package in prior.modules)
      && (h.package in dirs <==> IsStaged(x))
  }

  datatype Request =
    | Install(user: int, haps: seq<Hap>, flag: InstallFlag, noSkipsKill: bool)
    | Uninstall(user: int, keepData: bool, noSkipsKill: bool)
    | UninstallModule(user: int, package: string, keepData: bool, noSkipsKill: bool)

  /** A request served: the entries before and after, its result, and whether every call it made succeeded. */
  datatype Served = Served(before: Slot, request: Request, result: ErrCode, undisturbed: bool, after: Slot)

  /**
   What a request makes of the entries. An install settles them, an uninstall does unless it is cut short; a success
   has done what was asked, and a request of a settled bundle gets the verdict it deserves when nothing else fails.
   */
  predicate Follows(x: Served) {
    var before, after := x.before, x.after;
    match x.request
    case Install(user, haps, flag, _) =>
      && (Settled(after) || after == before)
      && (x.result == ERR_OK ==>
            && Acceptable(haps) && after.info.Some? && after.info.value.version == haps[0].version
            && user in after.info.value.users && PackagesOf(haps) <= after.info.value.modules.Keys)
      && (x.undisturbed && Settled(before) && Acceptable(haps) ==>
            var t := Terms(haps[0].version, flag != NORMAL, before.info.Some? && user in before.info.value.users);
            match Outcome(before.info, haps, t)
            case Ok(r) => x.result == ERR_OK && after.info.Some? && after.info.value.modules == r.modules
            case Err(code) => x.result == code)
    case Uninstall(user, _, _) =>
      && (Settled(before) ==> Settled(after) || after.state == Some(UNINSTALL_START))
      && (x.result == ERR_OK ==>
            && before.info.Some? && user in before.info.value.users
            && (after.info.Some? <==> |before.info.value.users| > 1)
            && (after.info.Some? ==> after.info.value.users == before.info.value.users - {user}))
      && (x.undisturbed && Settled(before) ==>
            x.result == if before.info.None? then MISSING_INSTALLED_BUNDLE
                        else if user !in before.info.value.users then USER_NOT_INSTALL_HAP else ERR_OK)
    case UninstallModule(user, package, _, _) =>
      && (Settled(before) ==>
            Settled(after) || (after.state == Some(UNINSTALL_START) && StaysUninstalling(before, package)))
      && (x.result == ERR_OK ==> before.info.Some? && package in before.info.value.modules)
      && (x.undisturbed && Settled(before) && x.result == ERR_OK ==>
            if !IsOnlyModule(before.info.value, package)
            then after.info.Some? && after.info.value.modules == before.info.value.modules - {package}
            else if |before.info.value.users| <= 1 then after == Slot(None, None)
            else after.info.Some? && after.info.value.users == before.info.value.users - {user})
      && (x.undisturbed && Settled(before) ==>
            x.result == if package == "" then PARAM_ERROR
                        else if before.info.None? then MISSING_INSTALLED_BUNDLE
                        else if user !in before.info.value.users then USER_NOT_INSTALL_HAP
                        else if package !in before.info.value.modules then MISSING_INSTALLED_MODULE else ERR_OK)
  }

  /** Request `k` was served after those before it, and did what it should. */
  predicate ServedInTurn(history: seq<Served>, requests: seq<Request>, start: Slot, k: nat)
    requires k < |history| <= |requests|
  {
    && history[k].request == requests[k]
    && history[k].before == (if k == 0 then start else history[k - 1].after)
    && Known(history[k].before) && Follows(history[k])
  }

  class BaseBundleInstaller {
    var slot: Slot
    var userId: int
    var versionCode: nat
    var isAppExist: bool
    var isContainEntry: bool
    var isFeatureNeedUninstall: bool
    var hasInstalledInUser: bool
    var installedModules: set<string>
    var uninstallModuleVec: seq<string>
    /** The packages of the request whose `modulePath` is set, which extracting them does. */
    var moduleDirs: set<string>

    /** The storage and directory calls that succeeded, in order. */
    ghost var calls: seq<Call>
    /** How many calls into other components have failed, and how many of them were to save a record. */
    ghost var faults: nat
    ghost var failedSaves: nat

    constructor (slot: Slot, userId: int)
      ensures this.slot == slot && this.userId == userId && Reset() && calls == [] && faults == 0 && failedSaves == 0
    {
      this.slot, this.userId := slot, userId;
      versionCode, isAppExist, isContainEntry, isFeatureNeedUninstall, hasInstalledInUser := 0, false, false, false,
              false;
      installedModules, uninstallModuleVec, moduleDirs := {}, [], {};
      calls, faults, failedSaves := [], 0, 0;
    }

    /** What `ResetInstallProperties` establishes. */
    predicate Reset()
      reads this
    {
      && !isAppExist && !isContainEntry && !isFeatureNeedUninstall && !hasInstalledInUser
      && installedModules == {} && uninstallModuleVec == [] && moduleDirs == {}
    }

    // ---- Calls into other components ----

    /** A call whose effect is not modelled. */
    method Attempt() returns (ok: bool)
      modifies `faults
      ensures faults == old(faults) + if ok then 0 else 1
    {
      ok := *;
      if !ok { faults := faults + 1; }
    }

    method Perform(c: Call) returns (ok: bool)
      modifies `calls, `faults, `failedSaves
      ensures faults == old(faults) + if ok then 0 else 1
      ensures failedSaves == old(failedSaves) + if !ok && c.Save? then 1 else 0
      ensures calls == if ok then old(calls) + [c] else old(calls)
    {
      ok := *;
      if ok {
        calls := calls + [c];
      } else {
        faults := faults + 1;
        if c.Save? { failedSaves := failedSaves + 1; }
      }
    }

    /** The counts only grow, and a failed save is a failed call. */
    twostate predicate Counting()
      reads this`faults, this`failedSaves
    {
      0 <= failedSaves - old(failedSaves) <= faults - old(faults)
    }

    /** Every call made since has succeeded. */
    twostate predicate Undisturbed()
      reads this`faults
    {
      faults == old(faults)
    }

    /** Nothing has failed since, or one call has where otherwise all would have gone well. */
    twostate predicate OneFault(otherwise: bool)
      reads this`faults
    {
      faults == old(faults) || (faults == old(faults) + 1 && otherwise)
    }

    // ---- The data manager, for this bundle ----

    /**
     A failure to delete the stored record is only logged. The installer never reports a failed install for a
     bundle that is already recorded, which would leave the record without a state.
     */
    method UpdateBundleInstallState(to: InstallState) returns (ok: bool)
      requires !Orphans(slot, ToState(to))
      modifies `slot, `calls, `faults, `failedSaves
      ensures slot == SetState(old(slot), to) && ok == Accepts(old(slot), to)
      ensures Counting() && faults <= old(faults) + 1 && failedSaves == old(failedSaves)
      ensures calls == old(calls) || calls == old(calls) + [Erase]
      ensures !DeletesRecord(old(slot), to) ==> Undisturbed() && calls == old(calls)
      ensures Undisturbed() ==> calls == old(calls) + if DeletesRecord(old(slot), to) then [Erase] else []
    {
      ok := Accepts(slot, to);
      if DeletesRecord(slot, to) { var erased := Perform(Erase); }
      slot := SetState(slot, to);
    }

    method AddInnerBundleInfo(info: Record) returns (ok: bool)
      modifies `slot, `calls, `faults, `failedSaves
      ensures slot == BundleSlots.AddInnerBundleInfo(old(slot), info, ok) && (ok ==> CanAddBundle(old(slot)))
      ensures faults == old(faults) + (if CanAddBundle(old(slot)) && !ok then 1 else 0)
      ensures failedSaves == old(failedSaves) + (if CanAddBundle(old(slot)) && !ok then 1 else 0)
      ensures calls == if ok then old(calls) + [Save(info)] else old(calls)
    {
      ok := CanAddBundle(slot);
      if ok { ok := Perform(Save(info)); }
      slot := BundleSlots.AddInnerBundleInfo(slot, info, ok);
    }

    predicate CanAddModule(s: Slot) { s.info.Some? && s.state == Some(UPDATING_SUCCESS) }

    method AddNewModuleInfo(h: Hap, copy: Record) returns (ok: bool, next: Record)
      modifies `slot, `calls, `faults, `failedSaves
      ensures BundleSlots.AddNewModuleInfo(old(slot), h, copy, ok) == Change(slot, next, ok)
      ensures faults == old(faults) + (if CanAddModule(old(slot)) && !ok then 1 else 0)
      ensures failedSaves == old(failedSaves) + (if CanAddModule(old(slot)) && !ok then 1 else 0)
      ensures calls == if ok then old(calls) + [Save(next)] else old(calls)
    {
      ok := CanAddModule(slot);
      if ok { ok := Perform(Save(WithNewModule(copy, h))); }
      var change := BundleSlots.AddNewModuleInfo(slot, h, copy, ok);
      slot, next := change.slot, change.copy;
    }

    method UpdateInnerBundleInfo(source: Record, package: string, copy: Record) returns (ok: bool, next: Record)
      modifies `slot, `calls, `faults, `failedSaves
      ensures BundleSlots.UpdateInnerBundleInfo(old(slot), source, package, copy, ok) == Change(slot, next, ok)
      ensures faults == old(faults) + (if CanUpdate(old(slot)) && !ok then 1 else 0)
      ensures failedSaves == old(failedSaves) + (if CanUpdate(old(slot)) && !ok then 1 else 0)
      ensures calls == if ok then old(calls) + [Save(next)] else old(calls)
    {
      ok := CanUpdate(slot);
      if ok { ok := Perform(Save(Updated(copy, source, package))); }
      var change := BundleSlots.UpdateInnerBundleInfo(slot, source, package, copy, ok);
      slot, next := change.slot, change.copy;
    }

    predicate CanRemoveModule(s: Slot) {
      s.info.Some? && (s.state == Some(UNINSTALL_START) || s.state == Some(ROLL_BACK))
    }

    /** `saved` tells a removal from the successes reported without one. */
    method RemoveModuleInfo(package: string, copy: Record) returns (ok: bool, next: Record, ghost saved: bool)
      modifies `slot, `calls, `faults, `failedSaves
      ensures BundleSlots.RemoveModuleInfo(old(slot), package, copy, saved) == Change(slot, next, ok)
      ensures faults == old(faults) + (if CanRemoveModule(old(slot)) && !saved then 1 else 0)
      ensures failedSaves == old(failedSaves) + (if CanRemoveModule(old(slot)) && !saved then 1 else 0)
      ensures saved ==> CanRemoveModule(old(slot))
      ensures calls == if saved then old(calls) + [Save(next)] else old(calls)
    {
      var wrote := CanRemoveModule(slot);
      if wrote { wrote := Perform(Save(DropModule(copy, package).(enabled := true))); }
      var change := BundleSlots.RemoveModuleInfo(slot, package, copy, wrote);
      slot, next, ok, saved := change.slot, change.copy, change.ok, wrote;
    }

    /** A copy of the record, which stays behind disabled. */
    method GetInnerBundleInfo() returns (info: Option<Record>)
      modifies `slot
      ensures slot == Disabled(old(slot)) && info == slot.info
    {
      slot := Disabled(slot);
      info := slot.info;
    }

    method ExtractModule(h: Hap, tmp: bool) returns (ok: bool)
      modifies `calls, `faults, `failedSaves, `moduleDirs
      ensures faults == old(faults) + (if ok then 0 else 1) && failedSaves == old(failedSaves)
      ensures calls == if ok then old(calls) + [Extract(h.package, tmp, h.version)] else old(calls)
      ensures moduleDirs == old(moduleDirs) + if ok then {h.package} else {}
    {
      hide Writes;
      ok := Perform(Extract(h.package, tmp, h.version));
      if ok { moduleDirs := moduleDirs + {h.package}; }
    }

    // ---- One package of an update ----

    /** `p` is the progress of the request so far; its record is the installer's copy `prior`. */
    method ProcessNewModuleInstall(h: Hap, prior: Record, ghost p: Progress)
      returns (result: RollbackCode, next: Record, ghost reached: Reached)
      requires slot == Slot(Some(UPDATING_START), Some(prior)) && p.record == prior
      requires h.package !in prior.modules && h.package != ""
      modifies `slot, `calls, `faults, `failedSaves, `moduleDirs
      ensures Counting() && moduleDirs == old(moduleDirs) + if IsStaged(reached) then {h.package} else {}
      ensures Updating(slot) && (slot.info == old(slot).info || slot.info == Some(ExtendedRecord(prior, h)))
      ensures result != ERR_OK ==> FailedIn(reached, result, slot, old(slot).state, h, prior, old(calls), calls)
      // the guard takes the new directory away
      ensures result != ERR_OK && reached.Staged? && faults == old(faults) + 1 ==> reached.cleared
      ensures result == ERR_OK ==>
                && Undisturbed() && !(h.isEntry && HasEntry(prior.modules)) && IsStaged(reached)
                && next == AddStep(p, h).record && slot == Slot(Some(UPDATING_SUCCESS), Some(next))
                && (p.calls == old(calls) ==> calls == AddStep(p, h).calls)
      ensures Undisturbed() ==> result == if h.isEntry && HasEntry(prior.modules) then ENTRY_ALREADY_EXIST else ERR_OK
    {
      hide HasEntry, WithNewModule, Edge, ExtendedRecord, PackageCalls;
      AddedPackageCalls(p, prior, h);
      next, reached := prior, NotMarked;
      var ok := Attempt();
      if !ok { return FOREIGN_ERROR, next, reached; }
      if h.isEntry && HasEntry(prior.modules) { return ENTRY_ALREADY_EXIST, next, reached; }
      if prior.version == h.version {
        ok := Attempt();
        if !ok { return FOREIGN_ERROR, next, reached; }
      }
      next := SetMark(prior, h.package, UPDATING_NEW_START);
      ok := Perform(Save(next));
      if !ok { return INTERNAL_ERROR, next, reached; }
      reached := Marked;
      ok := ExtractModule(h, false);
      if !ok { return FOREIGN_ERROR, next, reached; }
      reached := Staged(false);
      result, next := RecordNewModule(h, next);
      if result != ERR_OK {
        // the guard
        ok := Perform(RemoveModuleDir(h.package, false));
        reached := Staged(ok);
      }
    }

    /** The part of `ProcessNewModuleInstall` during which its guard would remove the new directory. */
    method RecordNewModule(h: Hap, prior: Record) returns (result: RollbackCode, next: Record)
      requires slot.info.Some? && slot.state == Some(UPDATING_START)
      modifies `slot, `calls, `faults, `failedSaves
      ensures Counting() && slot.state == Some(UPDATING_SUCCESS)
      ensures if result == ERR_OK then slot.info == Some(ExtendedRecord(prior, h)) else slot.info == old(slot).info
      ensures result == ERR_OK ==> Undisturbed() && next == ExtendedRecord(prior, h) && slot.info == Some(next)
      ensures calls == if result == ERR_OK then old(calls) + [Save(next)] else old(calls)
      ensures Undisturbed() ==> result == ERR_OK
    {
      next, result := prior, SERVICE_ERROR;
      var ok := UpdateBundleInstallState(UPDATING_SUCCESS);
      if !ok { return; }
      next := SetMark(prior, h.package, INSTALL_FINISH);
      ok := Attempt();
      if !ok { return PERMISSION_ERROR, next; }
      ok, next := AddNewModuleInfo(h, next);
      if !ok { return SERVICE_ERROR, next; }
      result := ERR_OK;
    }

    /** `onlyUser` is the flag `SetOnlyCreateBundleUser` leaves on the package. */
    method ProcessModuleUpdate(h: Hap, prior: Record, isReplace: bool, noSkipsKill: bool, ghost p: Progress)
      returns (result: RollbackCode, next: Record, onlyUser: bool, ghost reached: Reached)
      requires slot == Slot(Some(UPDATING_START), Some(prior)) && p.record == prior
      requires h.package in prior.modules && h.package != ""
      modifies `slot, `calls, `faults, `failedSaves, `moduleDirs
      ensures Counting() && moduleDirs == old(moduleDirs) + if IsStaged(reached) then {h.package} else {}
      ensures Updating(slot) && (slot.info == old(slot).info || slot.info == Some(UpdatedRecord(prior, h)))
      ensures result != ERR_OK ==> FailedIn(reached, result, slot, old(slot).state, h, prior, old(calls), calls)
      ensures result == ERR_OK ==>
                && Undisturbed() && slot.state == Some(UPDATING_SUCCESS)
                && onlyUser == (versionCode == prior.version && !isReplace) && (onlyUser ==> !hasInstalledInUser)
                && if onlyUser then next == prior && slot.info == old(slot).info && calls == old(calls)
                   else next == UpdateStep(p, h).record && slot.info == Some(next) && IsStaged(reached)
                        && (p.calls == old(calls) ==> calls == UpdateStep(p, h).calls)
      ensures Undisturbed() ==>
                result == if versionCode == prior.version && !isReplace && hasInstalledInUser
                          then ALREADY_EXIST else ERR_OK
    {
      hide UpdatedRecord, HasEntry, PackageCalls, UpdateStep;
      UpdatedPackageCalls(prior, h);
      UpdateStepCalls(p, h);
      next, onlyUser, reached := prior, false, NotMarked;
      var ok := Attempt();
      if !ok { return FOREIGN_ERROR, next, onlyUser, reached; }
      if versionCode == prior.version {
        ok := Attempt();
        if !ok { return FOREIGN_ERROR, next, onlyUser, reached; }
        if !isReplace {
          if hasInstalledInUser { return ALREADY_EXIST, next, onlyUser, reached; }
          onlyUser, result := true, STATE_ERROR;
          ok := UpdateBundleInstallState(UPDATING_SUCCESS);
          if ok { result := ERR_OK; }
          return;
        }
      }
      result, next, reached := StageModule(h, prior, noSkipsKill);
      if result != ERR_OK { return; }
      result, next, reached := RecordUpdatedModule(h, next);
    }

    /** The middle of `ProcessModuleUpdate`: the bundle is stopped, marked, and the new code put beside the old. */
    method StageModule(h: Hap, prior: Record, noSkipsKill: bool)
      returns (result: RollbackCode, next: Record, ghost reached: Reached)
      requires h.package in prior.modules
      modifies `calls, `faults, `failedSaves, `moduleDirs
      ensures Counting() && moduleDirs == old(moduleDirs) + if IsStaged(reached) then {h.package} else {}
      ensures Undisturbed() <==> result == ERR_OK
      ensures calls == old(calls) + PackageCalls(prior, h, reached)
      ensures if result == ERR_OK
              then reached == Staged(false) && next == SetMark(prior, h.package, UPDATING_EXISTED_START)
              else !IsStaged(reached) && !Late(result)
    {
      hide PackageCalls;
      UpdatedPackageCalls(prior, h);
      next, reached := prior, NotMarked;
      var ok;
      if noSkipsKill {
        ok := Attempt();
        if !ok { return INTERNAL_ERROR, next, reached; }
      }
      next := SetMark(prior, h.package, UPDATING_EXISTED_START);
      ok := Perform(Save(next));
      if !ok { return INTERNAL_ERROR, next, reached; }
      reached := Marked;
      ok := ExtractModule(h, true);
      if ok { reached := Staged(false); }
      return if ok then ERR_OK else FOREIGN_ERROR, next, reached;
    }

    /** The rest of `ProcessModuleUpdate`, from the state change on. */
    method RecordUpdatedModule(h: Hap, prior: Record)
      returns (result: RollbackCode, next: Record, ghost reached: Reached)
      requires slot.info.Some? && slot.state == Some(UPDATING_START)
      modifies `slot, `calls, `faults, `failedSaves
      ensures Counting() && slot.state == Some(UPDATING_SUCCESS)
      ensures reached == Staged(false) || reached == Recorded
      ensures slot.info == if reached.Recorded? then Some(UpdatedRecord(prior, h)) else old(slot).info
      ensures calls == old(calls) + if reached.Recorded? then [Save(UpdatedRecord(prior, h))] else []
      ensures result == ERR_OK ==> next == UpdatedRecord(prior, h) && reached.Recorded?
      ensures result != ERR_OK ==> (Late(result) <==> reached.Recorded?)
      ensures Undisturbed() <==> result == ERR_OK
    {
      hide HasEntry;
      next, result, reached := prior, SERVICE_ERROR, Staged(false);
      var ok := UpdateBundleInstallState(UPDATING_SUCCESS);
      if !ok { return; }
      next := SetMark(prior, h.package, UPDATING_FINISH);
      ok, next := UpdateInnerBundleInfo(RecordOf(h), h.package, next);
      if !ok { return SERVICE_ERROR, next, reached; }
      reached := Recorded;
      ok := Attempt();
      if !ok { return PERMISSION_ERROR, next, reached; }
      ok := Attempt();
      if !ok { return DIR_APL_ERROR, next, reached; }
      result := ERR_OK;
    }

    function TermsOf(isReplace: bool): Terms
      reads this
    {
      Terms(versionCode, isReplace, hasInstalledInUser)
    }

    /** The installer's copy and the record in memory are one. */
    predicate InStep(copy: Record)
      reads this`slot
    {
      slot.info == Some(copy)
    }

    method ProcessBundleUpdateStatus(h: Hap, prior: Record, isReplace: bool, noSkipsKill: bool, ghost p: Progress)
      returns (result: RollbackCode, next: Record, onlyUser: bool, ghost reached: Reached)
      requires InStep(prior) && p.record == prior
      modifies `slot, `calls, `faults, `failedSaves, `moduleDirs, `uninstallModuleVec
      ensures Counting()
      ensures slot.info.Some? && AgreeExcept(slot.info.value.modules, prior.modules, {h.package})
      ensures slot.info.value.users == prior.users
      ensures slot == old(slot) || Updating(slot)
      ensures moduleDirs == old(moduleDirs) + if IsStaged(reached) then {h.package} else {}
      ensures result != ERR_OK && CanUpdating(old(slot)) ==>
                FailedIn(reached, result, slot, old(slot).state, h, prior, old(calls), calls)
      ensures Undisturbed() && CanUpdating(old(slot)) ==>
                match StepHap(p, h, TermsOf(isReplace)) case Ok(_) => result == ERR_OK case Err(code) => result == code
      ensures result == ERR_OK ==>
                && Undisturbed() && StepHap(p, h, TermsOf(isReplace)).Ok?
                && var q := StepHap(p, h, TermsOf(isReplace)).value;
                   && next == q.record && InStep(next) && slot.state == Some(UPDATING_SUCCESS)
                   && q.renames == p.renames + (if onlyUser then [] else [Rename(h.package)])
                   && (onlyUser || IsStaged(reached)) && (p.calls == old(calls) ==> calls == q.calls)
      ensures result == ERR_OK && isFeatureNeedUninstall ==> uninstallModuleVec == old(uninstallModuleVec) + [h.package]
      ensures !isFeatureNeedUninstall ==> uninstallModuleVec == old(uninstallModuleVec)
    {
      next, onlyUser, reached := prior, false, NotMarked;
      if h.package == "" { return PARAM_ERROR, next, onlyUser, reached; }
      if isFeatureNeedUninstall { uninstallModuleVec := uninstallModuleVec + [h.package]; }
      var ok := UpdateBundleInstallState(UPDATING_START);
      if !ok { return STATE_ERROR, next, onlyUser, reached; }
      ok := Attempt();
      if !ok { return FOREIGN_ERROR, next, onlyUser, reached; }
      result, next, onlyUser, reached := ProcessModule(h, prior, isReplace, noSkipsKill, p);
    }

    /** The two cases of `ProcessBundleUpdateStatus`: the module is there, or it is new. */
    method ProcessModule(h: Hap, prior: Record, isReplace: bool, noSkipsKill: bool, ghost p: Progress)
      returns (result: RollbackCode, next: Record, onlyUser: bool, ghost reached: Reached)
      requires InStep(prior) && p.record == prior && slot.state == Some(UPDATING_START) && h.package != ""
      modifies `slot, `calls, `faults, `failedSaves, `moduleDirs
      ensures Counting()
      ensures Updating(slot) && slot.info.Some? && AgreeExcept(slot.info.value.modules, prior.modules, {h.package})
      ensures slot.info.value.users == prior.users
      ensures moduleDirs == old(moduleDirs) + if IsStaged(reached) then {h.package} else {}
      ensures result != ERR_OK ==> FailedIn(reached, result, slot, old(slot).state, h, prior, old(calls), calls)
      ensures Undisturbed() ==>
                match StepHap(p, h, TermsOf(isReplace)) case Ok(_) => result == ERR_OK case Err(code) => result == code
      ensures result == ERR_OK ==>
                && Undisturbed() && StepHap(p, h, TermsOf(isReplace)).Ok?
                && var q := StepHap(p, h, TermsOf(isReplace)).value;
                   && next == q.record && InStep(next) && slot.state == Some(UPDATING_SUCCESS)
                   && q.renames == p.renames + (if onlyUser then [] else [Rename(h.package)])
                   && (onlyUser || IsStaged(reached)) && (p.calls == old(calls) ==> calls == q.calls)
    {
      hide FailedIn, HasEntry, Agree, Updated, WithNewModule;
      UpdateTouchesOne(prior, h);
      AddTouchesOne(prior, h);
      NothingYet(prior, {h.package});
      if h.package in prior.modules {
        result, next, onlyUser, reached := ProcessModuleUpdate(h, prior, isReplace, noSkipsKill, p);
        if result == ERR_OK {
          assert StepHap(p, h, TermsOf(isReplace)) == if onlyUser then Ok(p) else Ok(UpdateStep(p, h));
        }
      } else {
        result, next, reached := ProcessNewModuleInstall(h, prior, p);
        onlyUser := false;
        if result == ERR_OK { assert StepHap(p, h, TermsOf(isReplace)) == Ok(AddStep(p, h)); }
      }
    }

    /** `uninstallModuleVec` lists the packages handled so far, when the others are to be removed. */
    predicate VecLists(haps: seq<Hap>, n: nat)
      reads this
    {
      if isFeatureNeedUninstall then ListsFirst(uninstallModuleVec, haps, n) else uninstallModuleVec == []
    }

    /** The body of the update loop, for package `i`; `base` is the module map the loop started from. */
    method UpdateHap(haps: seq<Hap>, i: nat, prior: Record, isReplace: bool, noSkipsKill: bool,
                     ghost p: Progress, ghost t: Terms, ghost base: map<string, Module>)
      returns (result: RollbackCode, next: Record, onlyUser: bool, ghost q: Progress, ghost reached: Reached)
      requires i < |haps| && InStep(prior) && p.record == prior && AgreeExcept(prior.modules, base, PackagesOf(haps))
      requires VecLists(haps, i) && t == TermsOf(isReplace) && p.calls == calls
      modifies `slot, `calls, `faults, `failedSaves, `moduleDirs, `uninstallModuleVec
      ensures Counting() && moduleDirs == old(moduleDirs) + if IsStaged(reached) then {haps[i].package} else {}
      ensures slot.info.Some? && AgreeExcept(slot.info.value.modules, base, PackagesOf(haps))
      ensures slot.info.value.users == prior.users
      ensures slot == old(slot) || Updating(slot)
      ensures result != ERR_OK && CanUpdating(old(slot)) ==>
                FailedIn(reached, result, slot, old(slot).state, haps[i], prior, old(calls), calls)
      ensures if result == ERR_OK then Undisturbed() && StepHap(p, haps[i], t) == Ok(q)
              else !Undisturbed() || !CanUpdating(old(slot)) || StepHap(p, haps[i], t) == Verdict.Err(result)
      ensures result == ERR_OK ==>
                && next == q.record && InStep(next) && slot.state == Some(UPDATING_SUCCESS)
                && q.renames == p.renames + (if onlyUser then [] else [Rename(haps[i].package)])
                && (onlyUser || IsStaged(reached)) && calls == q.calls
      ensures result == ERR_OK || !isFeatureNeedUninstall ==> VecLists(haps, i + 1)
    {
      hide FailedIn, UpdateStep, AddStep, OnlyCreatesUser, HasEntry;
      assert haps[i] in haps;
      result, next, onlyUser, reached := ProcessBundleUpdateStatus(haps[i], prior, isReplace, noSkipsKill, p);
      AgreeTrans(slot.info.value.modules, prior.modules, base, {haps[i].package}, PackagesOf(haps));
      q := p;
      if result == ERR_OK { q := StepHap(p, haps[i], t).value; }
    }

    /**
     The update loop of `InnerProcessBundleInstall` over the packages from `first` on. `toRename` lists the
     packages not flagged as creating a user only. `at` packages were done when the loop ended, with progress `q`; the
     next one got as far as `reached`.
     */
    method UpdateHaps(haps: seq<Hap>, first: nat, prior: Record, isReplace: bool, noSkipsKill: bool,
                      ghost p: Progress, ghost t: Terms)
      returns (result: RollbackCode, toRename: seq<string>, ghost q: Progress, ghost at: nat, ghost reached: Reached)
      requires first <= |haps| && InStep(prior) && p.record == prior
      requires p.renames == [] && VecLists(haps, first) && t == TermsOf(isReplace) && p.calls == calls
      modifies `slot, `calls, `faults, `failedSaves, `moduleDirs, `uninstallModuleVec
      ensures Counting()
      ensures slot.info.Some? && AgreeExcept(slot.info.value.modules, prior.modules, PackagesOf(haps))
      ensures slot.info.value.users == prior.users
      ensures slot == old(slot) || Updating(slot)
      ensures first == |haps| ==> slot == old(slot) && result == ERR_OK
      ensures first <= at <= |haps| && (result == ERR_OK <==> at == |haps|)
      ensures Fold(p, haps[first..at], t) == Ok(q)
      ensures result == ERR_OK ==>
                && Undisturbed() && InStep(q.record) && q.renames == RenamesOf(toRename) && calls == q.calls
                && (if first == |haps| then slot == old(slot) else slot.state == Some(UPDATING_SUCCESS))
      ensures result != ERR_OK && CanUpdating(old(slot)) ==>
                && FailedIn(reached, result, slot, if at == first then old(slot).state else Some(UPDATING_SUCCESS),
                            haps[at], q.record, q.calls, calls)
                && (at == first ==>
                      moduleDirs == old(moduleDirs) + if IsStaged(reached) then {haps[at].package} else {})
                && (!Undisturbed() || Fold(p, haps[first..], t) == Verdict.Err(result))
      ensures result == ERR_OK ==> forall p :: p in toRename ==> p in moduleDirs && p in PackagesOf(haps)
      ensures result == ERR_OK || !isFeatureNeedUninstall ==> VecLists(haps, |haps|)
    {
      hide Edge, Agree, RenamesOf, ListsFirst, StepHap, Fold, FailedIn;
      result, toRename, at, reached := ERR_OK, [], first, NotMarked;
      var i, next := first, prior;
      q := p;
      NothingYet(p.record, PackagesOf(haps));
      UpdatingGoesOn();
      FoldOfNone(p, haps, first, t);
      while i < |haps|
        invariant first <= i <= |haps| && result == ERR_OK && i == at
        invariant Undisturbed() && failedSaves == old(failedSaves)
        invariant q.record == next && InStep(next) && next.users == prior.users
        invariant q.renames == RenamesOf(toRename) && calls == q.calls
        invariant Fold(p, haps[first..i], t) == Ok(q)
        invariant AgreeExcept(next.modules, prior.modules, PackagesOf(haps))
        invariant if i == first then slot == old(slot) else slot.state == Some(UPDATING_SUCCESS)
        invariant VecLists(haps, i)
        invariant i == first ==> moduleDirs == old(moduleDirs)
        invariant forall p :: p in toRename ==> p in moduleDirs && p in PackagesOf(haps)
      {
        var onlyUser;
        ghost var done := q;
        result, next, onlyUser, q, reached := UpdateHap(haps, i, next, isReplace, noSkipsKill, q, t, prior.modules);
        FoldNext(p, haps, first, i, t);
        if result != ERR_OK {
          q := done;
          return;
        }
        if !onlyUser {
          RenamesGrow(toRename, haps[i].package);
          toRename := toRename + [haps[i].package];
        }
        i := i + 1;
        at := i;
      }
    }

    // ---- First install ----

    /** `CreateBundleAndDataDir`: the code directory, then a uid and the data directory of the user. */
    method CreateBundleAndDataDir(info: Record) returns (result: RollbackCode, next: Record)
      modifies `calls, `faults, `failedSaves
      ensures Counting()
      ensures Undisturbed() <==> result == ERR_OK
      ensures result == ERR_OK ==> calls == old(calls) + [MakeBundleDir]
      ensures old(calls) <= calls
      ensures result != ERR_OK && faults == old(faults) + 1 && calls != old(calls) ==>
                calls == old(calls) + [MakeBundleDir, RemoveBundleDir]
      ensures Writes(calls) == Writes(old(calls)) && !Late(result)
      ensures if result == ERR_OK then exists uid :: next == WithUser(info, userId, uid) else next == info
    {
      hide Writes;
      next := info;
      WritesGrow(calls, MakeBundleDir);
      var ok := Perform(MakeBundleDir);
      if !ok { return FOREIGN_ERROR, next; }
      ok := Attempt();
      if !ok {
        WritesGrow(calls, RemoveBundleDir);
        ok := Perform(RemoveBundleDir);
        return FOREIGN_ERROR, next;
      }
      var uid: int := *;
      next := WithUser(info, userId, uid);
      result := ERR_OK;
    }

    /** Between the guards of `ProcessBundleInstallStatus`; `created` says whether the second one was set. */
    method InstallGuarded(h: Hap, marked: Record) returns (result: RollbackCode, created: bool)
      requires slot == Slot(Some(InstallState.INSTALL_START), None)
      requires FirstMark(marked, h) && marked.enabled && userId in marked.users
      modifies `slot, `calls, `faults, `failedSaves, `moduleDirs
      ensures Counting()
      ensures Undisturbed() <==> result == ERR_OK
      ensures result == ERR_OK ==>
                && slot.state == Some(InstallState.INSTALL_START) && slot.info.Some?
                && FirstRecord(slot.info.value, h, userId)
                && calls == old(calls) + [MakeBundleDir, Extract(h.package, false, h.version), Save(slot.info.value)]
      ensures old(calls) <= calls
      ensures result != ERR_OK && !created && faults == old(faults) + 1 && calls != old(calls) ==>
                calls == old(calls) + [MakeBundleDir, RemoveBundleDir]
      ensures created ==> old(calls) + [MakeBundleDir] <= calls
      ensures result != ERR_OK ==> slot == old(slot) || slot == Slot(None, None)
      ensures result != ERR_OK ==>
                var writes := Writes(calls) - Writes(old(calls)); 0 <= writes <= 1 && (Late(result) ==> writes == 1)
    {
      hide Writes, Edge;
      created := false;
      var info;
      result, info := CreateBundleAndDataDir(marked);
      if result != ERR_OK { return; }
      created := true;
      result := ExtractAndRecord(h, info);
    }

    /** The last part of a first install: the code, the permissions and the record. */
    method ExtractAndRecord(h: Hap, marked: Record) returns (result: RollbackCode)
      requires slot == Slot(Some(InstallState.INSTALL_START), None)
      requires FirstMark(marked, h) && marked.enabled && userId in marked.users
      modifies `slot, `calls, `faults, `failedSaves, `moduleDirs
      ensures Counting() && old(calls) <= calls
      ensures Undisturbed() <==> result == ERR_OK
      ensures result == ERR_OK ==>
                && slot.state == Some(InstallState.INSTALL_START) && slot.info.Some?
                && FirstRecord(slot.info.value, h, userId)
                && calls == old(calls) + [Extract(h.package, false, h.version), Save(slot.info.value)]
      ensures result != ERR_OK ==> slot == old(slot) || slot == Slot(None, None)
      ensures result != ERR_OK ==>
                var writes := Writes(calls) - Writes(old(calls)); 0 <= writes <= 1 && (Late(result) ==> writes == 1)
    {
      hide Writes;
      WritesGrow(calls, Extract(h.package, false, h.version));
      var ok := ExtractModule(h, false);
      if !ok { return FOREIGN_ERROR; }
      var info := SetMark(marked, h.package, INSTALL_FINISH);
      ok := Attempt();
      if !ok { return PERMISSION_ERROR; }
      result := ERR_OK;
      ok := AddInnerBundleInfo(info);
      if !ok {
        ok := UpdateBundleInstallState(UNINSTALL_START);
        ok := UpdateBundleInstallState(UNINSTALL_SUCCESS);
        result := SERVICE_ERROR;
      }
    }

    method ProcessBundleInstallStatus(h: Hap) returns (result: RollbackCode, ghost marked: Record)
      requires slot.info == None && Paired(slot)
      modifies `slot, `calls, `faults, `failedSaves, `moduleDirs
      ensures Counting()
      ensures Undisturbed() <==> result == ERR_OK
      ensures result == ERR_OK ==>
                && slot.state == Some(InstallState.INSTALL_START) && slot.info.Some?
                && FirstRecord(slot.info.value, h, userId) && FirstMark(marked, h)
                && calls == old(calls) + [Save(marked), MakeBundleDir, Extract(h.package, false, h.version),
                                          Save(slot.info.value)]
      // once the mark is saved, a failure takes the state and the directory back
      ensures result != ERR_OK && calls != old(calls) ==> slot == Slot(None, None)
      ensures result != ERR_OK && faults == old(faults) + 1 && calls != old(calls)
              && calls != old(calls) + [Save(marked)] ==>
                calls != [] && calls[|calls| - 1] == RemoveBundleDir
      ensures result != ERR_OK ==> slot == Slot(None, None) || slot == Slot(Some(InstallState.INSTALL_START), None)
      ensures result != ERR_OK ==>
                var writes := Writes(calls) - Writes(old(calls)); 0 <= writes <= 2 && (Late(result) ==> writes == 2)
    {
      hide Writes;
      var info := SetMark(WithUser(RecordOf(h), userId, INVALID_UID), h.package, InstallExceptionStatus.INSTALL_START);
      marked := info;
      var ok := Attempt();
      if !ok { return FOREIGN_ERROR, marked; }
      result := STATE_ERROR;
      ok := UpdateBundleInstallState(InstallState.INSTALL_START);
      if !ok { return; }
      WritesGrow(calls, Save(info));
      ok := Perform(Save(info));
      if !ok { return INTERNAL_ERROR, marked; }
      var created;
      result, created := InstallGuarded(h, info);
      if result != ERR_OK {
        // the guards, the last one set first
        WritesGrow(calls, RemoveBundleDir);
        if created { ok := Perform(RemoveBundleDir); }
        ok := UpdateBundleInstallState(INSTALL_FAIL);
      }
    }

    // ---- An existing bundle ----

    /** `CheckHapModleOrType`. */
    method CheckHapModuleOrType(prior: Record, haps: seq<Hap>) returns (result: RollbackCode)
      modifies `faults
      ensures Counting()
      ensures result == ERR_OK ==> Undisturbed() && !TypeDiffers(prior, haps)
      ensures failedSaves == old(failedSaves)
      ensures Undisturbed() ==> result == if TypeDiffers(prior, haps) then TYPE_ERROR else ERR_OK
    {
      var i := 0;
      while i < |haps|
        invariant 0 <= i <= |haps| && Undisturbed()
        invariant forall k :: 0 <= k < i ==> haps[k].free == prior.installFree
      {
        var ok := Attempt();
        if !ok { return STATE_ERROR; }
        if haps[i].free != prior.installFree { return TYPE_ERROR; }
        i := i + 1;
      }
      result := ERR_OK;
    }

    method CheckVersionCompatibility(prior: Record) returns (result: RollbackCode)
      modifies `isFeatureNeedUninstall
      ensures result == VersionError(prior, isContainEntry, versionCode)
      ensures result == ERR_OK
              <==> prior.version <= versionCode
                   && (versionCode == prior.version || prior.installFree || isContainEntry || !HasEntry(prior.modules))
      ensures result != ERR_OK ==> result == if versionCode < prior.version then VERSION_DOWNGRADE
                                             else VERSION_NOT_COMPATIBLE
      ensures isFeatureNeedUninstall == (old(isFeatureNeedUninstall) || (result == ERR_OK
              && versionCode > prior.version))
    {
      if prior.installFree {
        if versionCode < prior.version { return VERSION_DOWNGRADE; }
      } else if HasEntry(prior.modules) {
        if isContainEntry && versionCode < prior.version { return VERSION_DOWNGRADE; }
        if !isContainEntry && versionCode > prior.version { return VERSION_NOT_COMPATIBLE; }
        if !isContainEntry && versionCode < prior.version { return VERSION_DOWNGRADE; }
      } else if versionCode < prior.version {
        return VERSION_DOWNGRADE;
      }
      if versionCode > prior.version { isFeatureNeedUninstall := true; }
      result := ERR_OK;
    }

    /** `RemoveBundleUserData`, called by a guard: the copy loses the user once its data directory is gone. */
    method RemoveBundleUserData(info: Record, keepData: bool) returns (result: RollbackCode, next: Record)
      modifies `slot, `calls, `faults, `failedSaves
      ensures Counting()
      ensures slot == old(slot) || slot == RemoveUser(old(slot), userId)
      ensures next == info || next == info.(users := info.users - {userId})
      ensures userId !in info.users ==> slot == old(slot) && next == info && calls == old(calls) && Undisturbed()
      ensures slot.state == old(slot).state && (slot.info.Some? <==> old(slot).info.Some?)
      ensures slot.info.Some? && slot != old(slot) ==>
                var was := old(slot).info.value;
                slot.info.value == was.(users := was.users - {userId}, enabled := true)
      ensures result != INTERNAL_ERROR && old(calls) <= calls
      ensures result == ERR_OK ==>
              slot == RemoveUser(old(slot), userId) && next == info.(users := info.users - {userId})
      ensures Undisturbed() ==> result == if userId !in info.users then USER_NOT_EXIST
                                    else if old(slot.info).None? then SERVICE_ERROR else ERR_OK
      ensures result == ERR_OK ==> Undisturbed() && calls == old(calls) + [Save(slot.info.value)]
    {
      next := info;
      if userId !in info.users { return USER_NOT_EXIST, next; }
      var ok;
      if !keepData {
        ok := Attempt();
        if !ok { return FOREIGN_ERROR, next; }
      }
      next := info.(users := info.users - {userId});
      if slot.info == None { return SERVICE_ERROR, next; }
      slot := RemoveUser(slot, userId);
      ok := Perform(Save(slot.info.value));
      return if ok then ERR_OK else SERVICE_ERROR, next;
    }

    /** Adding a user to an installed bundle, with the guard that takes the user out again. */
    method AddUserToBundle(prior: Record) returns (result: RollbackCode, next: Record)
      requires slot.info.Some? && SameContent(prior, slot.info.value)
      modifies `slot, `calls, `faults, `failedSaves
      ensures Counting()
      ensures slot.state == old(slot).state && slot.info.Some?
      ensures SameContent(slot.info.value, prior) && SameContent(next, prior)
      ensures result == ERR_OK ==>
                && userId in slot.info.value.users && userId in next.users
                && calls == old(calls) + [Save(slot.info.value)]
                && slot.info.value
                   == WithUser(old(slot).info.value, userId, slot.info.value.users[userId]).(enabled := true)
      // the guard, if its calls succeed
      ensures result != ERR_OK && faults == old(faults) + 1 ==>
                slot.info.value.users == old(slot).info.value.users - {userId}
      ensures Undisturbed() <==> result == ERR_OK
    {
      next := WithUser(prior, userId, INVALID_UID);
      result := ERR_OK;
      var ok := Attempt();
      if !ok {
        result := FOREIGN_ERROR;
      } else {
        ok := Attempt();
        if !ok {
          result := FOREIGN_ERROR;
        } else {
          var uid: int := *;
          next := WithUser(prior, userId, uid);
          slot := AddUser(slot, userId, uid);
          ok := Perform(Save(slot.info.value));
          if !ok { result := SERVICE_ERROR; }
        }
      }
      if result != ERR_OK {
        var ignored;
        ignored, next := RemoveBundleUserData(next, false);
      }
    }

    method NoteInstalledModules(prior: Record, haps: seq<Hap>)
      modifies `installedModules
      ensures installedModules == old(installedModules) + (PackagesOf(haps) * prior.modules.Keys)
    {
      var i := 0;
      while i < |haps|
        invariant 0 <= i <= |haps|
        invariant installedModules == old(installedModules) + (PackagesOf(haps[..i]) * prior.modules.Keys)
      {
        assert haps[..i + 1] == haps[..i] + [haps[i]];
        if haps[i].package in prior.modules { installedModules := installedModules + {haps[i].package}; }
        i := i + 1;
      }
      assert haps[..i] == haps;
    }

    // ---- The request ----

    /** The checks and preparations for a bundle that is already installed. */
    method PrepareExisting(haps: seq<Hap>, prior: Record) returns (result: RollbackCode, oldInfo: Record)
      requires slot.info.Some? && SameContent(prior, slot.info.value) && prior.users == slot.info.value.users
      requires !isFeatureNeedUninstall && installedModules == {}
      modifies `slot, `calls, `faults, `failedSaves, `isFeatureNeedUninstall, `hasInstalledInUser, `installedModules
      ensures Counting()
      ensures slot.state == old(slot).state && slot.info.Some?
      ensures SameContent(slot.info.value, prior) && SameContent(oldInfo, prior)
      ensures result != ERR_OK && userId in prior.users ==>
                slot == old(slot) && calls == old(calls) && installedModules == old(installedModules)
      ensures result != ERR_OK && faults <= old(faults) + 1 ==> slot.info.value.users == prior.users
      ensures result == ERR_OK ==>
                && Undisturbed() && !TypeDiffers(prior, haps)
                && VersionError(prior, isContainEntry, versionCode) == ERR_OK
                && userId in slot.info.value.users && hasInstalledInUser == (userId in prior.users)
                && (hasInstalledInUser ==> slot == old(slot) && calls == old(calls) && oldInfo == prior)
                && (!hasInstalledInUser ==>
                      && userId in oldInfo.users && calls == old(calls) + [Save(slot.info.value)]
                      && slot.info.value
                         == WithUser(old(slot).info.value, userId, slot.info.value.users[userId]).(enabled := true))
                && isFeatureNeedUninstall == (versionCode > prior.version)
                && installedModules == PackagesOf(haps) * prior.modules.Keys
      ensures Undisturbed() ==>
                result == if TypeDiffers(prior, haps)
                        then TYPE_ERROR else VersionError(prior, isContainEntry, versionCode)
    {
      oldInfo := prior;
      result := CheckHapModuleOrType(prior, haps);
      if result != ERR_OK { return; }
      result := CheckVersionCompatibility(prior);
      if result != ERR_OK { return; }
      hasInstalledInUser := userId in prior.users;
      if !hasInstalledInUser {
        result, oldInfo := AddUserToBundle(prior);
        if result != ERR_OK { return; }
      }
      NoteInstalledModules(prior, haps);
    }

    /**
     From the second reading of the record on: the update loop, and the guard that takes a new user out again.
     `at`, `q` and `reached` as for the loop.
     */
    method ApplyHaps(haps: seq<Hap>, first: nat, oldInfo: Record, isReplace: bool, noSkipsKill: bool, ghost t: Terms)
      returns (result: RollbackCode, nextOld: Record, toRename: seq<string>, ghost q: Progress, ghost at: nat,
               ghost reached: Reached)
      requires first <= |haps| && slot.info.Some? && VecLists(haps, first) && t == TermsOf(isReplace)
      modifies `slot, `calls, `faults, `failedSaves, `moduleDirs, `uninstallModuleVec
      ensures Counting()
      ensures slot.info.Some? && AgreeExcept(slot.info.value.modules, old(slot).info.value.modules, PackagesOf(haps))
      ensures (slot.state == old(slot).state && slot.info.value.modules == old(slot).info.value.modules)
              || (Updating(slot) && first < |haps|)
      ensures SameContent(nextOld, oldInfo)
      // a failure takes a new user out again, if the guard's own calls succeed
      ensures result == ERR_OK || (hasInstalledInUser && isAppExist) ==>
                slot.info.value.users == old(slot).info.value.users
      ensures result != ERR_OK && !hasInstalledInUser && userId in oldInfo.users
              && userId in old(slot).info.value.users
              && OneFault(Fold(LoopStart(old(slot), old(calls)), haps[first..], t).Ok?) && CanUpdating(old(slot)) ==>
                slot.info.value.users == old(slot).info.value.users - {userId}
      ensures first <= at <= |haps| && (result == ERR_OK ==> at == |haps|)
      ensures result != ERR_OK && userId in old(slot).info.value.users ==> at < |haps|
      ensures Fold(LoopStart(old(slot), old(calls)), haps[first..at], t) == Ok(q)
      ensures result == ERR_OK ==>
                && Undisturbed() && InStep(q.record) && q.renames == RenamesOf(toRename) && VecLists(haps, |haps|)
                && (if first == |haps| then slot == Disabled(old(slot)) else slot.state == Some(UPDATING_SUCCESS))
                && calls == q.calls
      ensures result != ERR_OK && CanUpdating(old(slot)) && userId in old(slot).info.value.users ==>
                !Undisturbed() || Fold(LoopStart(old(slot), old(calls)), haps[first..], t) == Verdict.Err(result)
      ensures result != ERR_OK && CanUpdating(old(slot)) && userId in old(slot).info.value.users
              && (userId !in oldInfo.users || (hasInstalledInUser && isAppExist)) ==>
                && FailedIn(reached, result, slot, if at == first then old(slot).state else Some(UPDATING_SUCCESS),
                            haps[at], q.record, q.calls, calls)
                && (at == first ==>
                      moduleDirs == old(moduleDirs) + if IsStaged(reached) then {haps[at].package} else {})
      ensures result == ERR_OK ==> forall p :: p in toRename ==> p in moduleDirs && p in PackagesOf(haps)
      ensures result != ERR_OK && !isFeatureNeedUninstall ==> VecLists(haps, |haps|)
    {
      hide Edge, Agree, RenamesOf, ListsFirst, StepHap, Fold, FailedIn;
      nextOld, toRename, at, reached := oldInfo, [], first, NotMarked;
      q := LoopStart(slot, calls);
      NothingYet(slot.info.value, PackagesOf(haps));
      FoldOfNone(q, haps, first, t);
      var info := GetInnerBundleInfo();
      if userId !in info.value.users { return USER_NOT_EXIST, nextOld, toRename, q, at, reached; }
      result, toRename, q, at, reached := UpdateHaps(haps, first, info.value, isReplace, noSkipsKill, q, t);
      if result != ERR_OK && (!hasInstalledInUser || !isAppExist) {
        var ignored;
        ignored, nextOld := RemoveBundleUserData(oldInfo, false);
      }
    }

    /** The failures that leave a rollback something to do, for a bundle that was installed with modules `base`. */
    ghost predicate RollbackReady(haps: seq<Hap>, state: Option<InstallState>, base: map<string, Module>)
      reads this`slot, this`installedModules
    {
      && slot.info.Some?
      && ((slot.state == state && slot.info.value.modules == base)
          || (Updating(slot) && AgreeExcept(slot.info.value.modules, base, PackagesOf(haps))
              && installedModules == PackagesOf(haps) * base.Keys))
    }

    method InstallOnExisting(haps: seq<Hap>, prior: Record, isReplace: bool, noSkipsKill: bool)
      returns (result: RollbackCode, oldInfo: Record, toRename: seq<string>, ghost q: Progress,
               ghost course: Course)
      requires haps != [] && slot.info == Some(prior) && !prior.enabled
      requires isAppExist && !isFeatureNeedUninstall && installedModules == {} && uninstallModuleVec == []
      requires moduleDirs == {} && isContainEntry == ContainEntry(haps)
      modifies `slot, `calls, `faults, `failedSaves, `isFeatureNeedUninstall, `hasInstalledInUser, `installedModules,
              `moduleDirs, `uninstallModuleVec
      ensures Counting() && !course.renaming
      ensures SameContent(oldInfo, prior)
      ensures oldInfo.modules == prior.modules && RollbackReady(haps, old(slot).state, prior.modules)
      ensures var t := Terms(versionCode, isReplace, userId in prior.users);
              if result == ERR_OK then
                && Merged(Some(prior), haps, t).Ok?
                && InStep(q.record) && SameContent(q.record, Merged(Some(prior), haps, t).value.record)
                && userId in q.record.users && slot.state == Some(UPDATING_SUCCESS)
                && isFeatureNeedUninstall == (versionCode > prior.version)
                && VecLists(haps, |haps|) && q.renames == RenamesOf(toRename)
                && Undisturbed() && calls == q.calls
                && Looped(course, Some(prior), haps, userId, t, old(calls), q)
              else !Undisturbed() || !CanUpdating(old(slot)) || Merged(Some(prior), haps, t) == Verdict.Err(result)
      // a failure leaves the users as they were
      ensures result != ERR_OK && CanUpdating(old(slot))
              && OneFault(Merged(Some(prior), haps, Terms(versionCode, isReplace, userId in prior.users)).Ok?) ==>
                slot.info.value.users == prior.users
      ensures |haps| == 1 && haps[0].package != "" && userId in prior.users && CanUpdating(old(slot)) ==>
                (if result == ERR_OK then toRename != [] ==> haps[0].package in moduleDirs
                 else StoppedUpdate(course.reached, slot, old(slot).state, prior, haps[0], old(calls), calls,
                                    installedModules, moduleDirs))
                && (result == ERR_OK ==> installedModules == PackagesOf(haps) * prior.modules.Keys)
    {
      hide Edge, StepHap, RenamesOf, Agree, HasEntry, Updated, Fold, Merged, TypeDiffers, VersionError, FailedIn,
           StoppedUpdate, ContainEntry, PackagesOf, Looped, JoinedBy, AgreeExcept;
      toRename, q, course := [], Start(prior), Course(BLANK, prior, [], None, false);
      MergedFromFold(prior, q, haps, Terms(versionCode, isReplace, userId in prior.users));
      result, oldInfo := PrepareExisting(haps, prior);
      if result != ERR_OK {
        NotBegun(slot, prior, haps[0], calls, installedModules, moduleDirs);
        return;
      }
      result, oldInfo, toRename, q, course := UpdateExisting(haps, prior, oldInfo, isReplace, noSkipsKill, old(calls));
    }

    /** The rest of `InstallOnExisting`, from the second reading of the record on. */
    method UpdateExisting(haps: seq<Hap>, prior: Record, was: Record, isReplace: bool, noSkipsKill: bool,
                          ghost past: seq<Call>)
      returns (result: RollbackCode, oldInfo: Record, toRename: seq<string>, ghost q: Progress,
               ghost course: Course)
      requires haps != [] && slot.info.Some? && SameContent(prior, slot.info.value) && SameContent(prior, was)
      requires userId in slot.info.value.users && hasInstalledInUser == (userId in prior.users) && isAppExist
      requires userId in prior.users ==> slot.info == Some(prior) && !prior.enabled
      requires userId in was.users && !TypeDiffers(prior, haps)
      requires VersionError(prior, ContainEntry(haps), versionCode) == ERR_OK
      requires !prior.enabled && if userId in prior.users then calls == past
               else && calls == past + [Save(slot.info.value)]
                    && slot.info.value == WithUser(prior, userId, slot.info.value.users[userId]).(enabled := true)
      requires installedModules == PackagesOf(haps) * prior.modules.Keys && moduleDirs == {} && VecLists(haps, 0)
      modifies `slot, `calls, `faults, `failedSaves, `moduleDirs, `uninstallModuleVec
      ensures Counting() && SameContent(oldInfo, prior) && !course.renaming
      ensures RollbackReady(haps, old(slot).state, prior.modules)
      ensures result != ERR_OK && CanUpdating(old(slot))
              && OneFault(Merged(Some(prior), haps, TermsOf(isReplace)).Ok?) ==>
                slot.info.value.users == prior.users
      ensures var merged := Merged(Some(prior), haps, TermsOf(isReplace));
              if result == ERR_OK then
                && merged.Ok? && InStep(q.record) && SameContent(q.record, merged.value.record)
                && userId in q.record.users && slot.state == Some(UPDATING_SUCCESS)
                && VecLists(haps, |haps|) && q.renames == RenamesOf(toRename) && Undisturbed() && calls == q.calls
                && Looped(course, Some(prior), haps, userId, TermsOf(isReplace), past, q)
              else !Undisturbed() || !CanUpdating(old(slot)) || merged == Verdict.Err(result)
      ensures |haps| == 1 && haps[0].package != "" && userId in prior.users && CanUpdating(old(slot)) ==>
                if result == ERR_OK then toRename != [] ==> haps[0].package in moduleDirs
                else StoppedUpdate(course.reached, slot, old(slot).state, prior, haps[0], old(calls), calls,
                                   installedModules, moduleDirs)
    {
      hide Edge, StepHap, RenamesOf, Agree, HasEntry, Updated, Fold, FailedIn, StoppedUpdate, PackagesOf,
           Looped, JoinedBy, Merged, TypeDiffers, VersionError, ContainEntry;
      ghost var p := LoopStart(slot, calls);
      course := Course(BLANK, slot.info.value, [], None, false);
      MergedFromFold(prior, p, haps, TermsOf(isReplace));
      JoinedLoops(course, prior, haps, userId, TermsOf(isReplace), past, calls);
      ghost var at, point;
      result, oldInfo, toRename, q, at, point := ApplyHaps(haps, 0, was, isReplace, noSkipsKill, TermsOf(isReplace));
      course := course.(reached := Some(point));
      assert haps[0..|haps|] == haps;
      assert haps[0..] == haps;
      if |haps| == 1 { SinglePackage(haps); }
      if result == ERR_OK {
        FoldKeepsOthers(p, haps, TermsOf(isReplace));
        assert toRename != [] ==> toRename[0] in PackagesOf(haps);
      } else if |haps| == 1 && haps[0].package != "" && userId in prior.users && CanUpdating(old(slot)) {
        FoldOfNone(p, haps, 0, TermsOf(isReplace));
        FailedIsStopped(point, result, slot, old(slot).state, prior, haps[0], old(calls), calls, installedModules,
                        moduleDirs);
      }
    }

    method InstallFresh(haps: seq<Hap>, isReplace: bool, noSkipsKill: bool)
      returns (result: RollbackCode, oldInfo: Record, toRename: seq<string>, ghost q: Progress, ghost course: Course)
      requires haps != [] && slot.info == None && Paired(slot)
      requires !isAppExist && !isFeatureNeedUninstall && uninstallModuleVec == []
      modifies `slot, `calls, `faults, `failedSaves, `hasInstalledInUser, `moduleDirs, `uninstallModuleVec
      ensures Counting() && !course.renaming
      ensures Beginning(slot) && uninstallModuleVec == []
      ensures result != ERR_OK ==>
                (slot.state == Some(UPDATING_SUCCESS) <==>
                 PastExtraction(haps, Writes(calls) - Writes(old(calls)), result))
      ensures result == ERR_OK ==> Writes(calls) - Writes(old(calls)) == 3 * |haps|
      ensures |haps| == 1 ==> !Updating(slot)
      ensures var t := Terms(versionCode, isReplace, false);
              if result == ERR_OK then
                && Merged(None, haps, t).Ok? && Undisturbed()
                && InStep(q.record) && SameContent(q.record, Merged(None, haps, t).value.record)
                && userId in q.record.users
                && slot.state == Some(if |haps| == 1 then InstallState.INSTALL_START else UPDATING_SUCCESS)
                && [Rename(haps[0].package)] + q.renames == RenamesOf(toRename)
                && Looped(course, None, haps, userId, t, old(calls), q) && calls == q.calls
              else !Undisturbed() || Merged(None, haps, t) == Verdict.Err(result)
    {
      hide Edge, RenamesOf, StepHap, Agree, FailedIn, Writes, Fold, Merged, PastExtraction, WithNewModule,
           FirstMark;
      toRename, oldInfo, q, course := [], BLANK, Start(BLANK), Course(BLANK, BLANK, [], None, false);
      ghost var marked;
      result, marked := ProcessBundleInstallStatus(haps[0]);
      if result != ERR_OK {
        StoppedInFirst(haps, Writes(calls) - Writes(old(calls)), result);
        return;
      }
      course := Course(marked, slot.info.value, [], None, false);
      FirstWrites(old(calls), marked, haps[0], slot.info.value);
      hasInstalledInUser := true;
      ghost var t, p, entry := TermsOf(isReplace), LoopStart(slot, calls), slot.state;
      UpdatingGoesOn();
      var more;
      ghost var at, reached;
      result, oldInfo, more, q, at, reached := ApplyHaps(haps, 1, oldInfo, isReplace, noSkipsKill, t);
      toRename := [haps[0].package] + more;
      RenamesJoin(haps[0].package, more);
      MergedFromFirst(p, haps, Terms(versionCode, isReplace, false));
      FoldOfNone(p, haps, 1, t);
      assert haps[1..|haps|] == haps[1..];
      if result == ERR_OK {
        FoldKeepsOthers(p, haps[1..], t);
        FoldWrites(p, haps[1..], t);
      } else {
        StoppedFresh(haps, t, p, at, q, reached, result, slot, entry, Writes(old(calls)), calls);
      }
    }

    /** A request starts with the fields reset, apart from what the checks of its packages have set. */
    predicate Ready(haps: seq<Hap>)
      reads this
    {
      && haps != [] && !isAppExist && !isFeatureNeedUninstall && !hasInstalledInUser
      && installedModules == {} && uninstallModuleVec == [] && moduleDirs == {}
      && isContainEntry == ContainEntry(haps) && SameVersion(haps, versionCode)
    }

    /** The terms a request is judged by, given the record found. */
    function RequestTerms(prior: Option<Record>, isReplace: bool): Terms
      reads this
    {
      Terms(versionCode, isReplace, prior.Some? && userId in prior.value.users)
    }

    /** A request of one package for a bundle that the user has. */
    predicate SingleUpdate(haps: seq<Hap>, s: Slot)
      reads this
    {
      && |haps| == 1 && haps[0].package != ""
      && s.state == Some(InstallState.INSTALL_SUCCESS) && s.info.Some? && userId in s.info.value.users
    }

    method InnerProcessBundleInstall(haps: seq<Hap>, isReplace: bool, noSkipsKill: bool)
      returns (result: ErrCode, oldInfo: Record, toRename: seq<string>, ghost q: Progress, ghost course: Course)
      requires Ready(haps) && Paired(slot)
      modifies this
      ensures userId == old(userId) && versionCode == old(versionCode) && !course.renaming
      ensures Counting()
      ensures result == ZERO_USER_WITH_NO_SINGLETON ==> slot == old(slot) && calls == old(calls)
      ensures result != ZERO_USER_WITH_NO_SINGLETON ==> isAppExist == old(slot.info).Some?
      ensures result != ZERO_USER_WITH_NO_SINGLETON && isAppExist ==>
                var base := old(slot.info).value.modules;
                && SameContent(oldInfo, old(slot.info).value)
                && oldInfo.modules == base && RollbackReady(haps, old(slot).state, base)
      ensures result != ZERO_USER_WITH_NO_SINGLETON && !isAppExist ==>
                && Beginning(slot) && (|haps| == 1 ==> !Updating(slot))
                && (result != ERR_OK ==>
                      (slot.state == Some(UPDATING_SUCCESS) <==>
                       PastExtraction(haps, Writes(calls) - Writes(old(calls)), result)))
      ensures var prior, t := old(slot.info), RequestTerms(old(slot.info), isReplace);
              if result == ERR_OK then
                && Merged(prior, haps, t).Ok? && Undisturbed()
                && InStep(q.record) && SameContent(q.record, Merged(prior, haps, t).value.record)
                && userId in q.record.users
                && (slot.state == Some(UPDATING_SUCCESS) || slot.state == Some(InstallState.INSTALL_START))
                && (if isAppExist && versionCode > prior.value.version then ListsFirst(uninstallModuleVec, haps, |haps|)
                    else uninstallModuleVec == [])
              else
                || !Undisturbed() || (prior.Some? && !CanUpdating(old(slot)))
                || Merged(prior, haps, t) == Verdict.Err(result)
      ensures result != ERR_OK && result != ZERO_USER_WITH_NO_SINGLETON && isAppExist && CanUpdating(old(slot))
              && OneFault(Merged(old(slot.info), haps, RequestTerms(old(slot.info), isReplace)).Ok?) ==>
                slot.info.value.users == old(slot).info.value.users
      ensures result == ERR_OK ==>
                && Looped(course, old(slot.info), haps, userId, RequestTerms(old(slot.info), isReplace), old(calls), q)
                && calls == q.calls
                && RenamesOf(toRename) == (if isAppExist then [] else [Rename(haps[0].package)]) + q.renames
      ensures result == ERR_OK && !isAppExist ==>
                && Writes(calls) - Writes(old(calls)) == 3 * |haps|
                && slot.state == Some(if |haps| == 1 then InstallState.INSTALL_START else UPDATING_SUCCESS)
      ensures result != ZERO_USER_WITH_NO_SINGLETON && SingleUpdate(haps, old(slot)) ==>
                (if result == ERR_OK then toRename != [] ==> haps[0].package in moduleDirs
                 else StoppedUpdate(course.reached, slot, old(slot).state, old(slot).info.value.(enabled := false),
                                    haps[0], old(calls), calls, installedModules, moduleDirs))
                && (result == ERR_OK ==> installedModules == PackagesOf(haps) * old(slot).info.value.modules.Keys)
    {
      hide Edge, StepHap, RenamesOf, ListsFirst, Agree, Fold, HasEntry, StoppedUpdate, Writes, PastExtraction,
           Looped, RollbackReady, PackagesOf, AgreeExcept, Merged, Beginning;
      if slot.state == Some(InstallState.INSTALL_SUCCESS) { InstalledMayUpdate(slot); }
      oldInfo, toRename, q, course := BLANK, [], Start(BLANK), Course(BLANK, BLANK, [], None, false);
      var ok := Attempt();
      if !ok { return ZERO_USER_WITH_NO_SINGLETON, oldInfo, toRename, q, course; }
      var found := GetInnerBundleInfo();
      isAppExist := found.Some?;
      if isAppExist {
        LoopedIgnoresEnabled(old(slot).info.value, haps, userId, RequestTerms(found, isReplace), old(calls));
        MergedSameContent(old(slot).info.value, found.value, haps, RequestTerms(found, isReplace));
        result, oldInfo, toRename, q, course := InstallOnExisting(haps, found.value, isReplace, noSkipsKill);
      } else {
        result, oldInfo, toRename, q, course := InstallFresh(haps, isReplace, noSkipsKill);
      }
    }

    // ---- Rollback ----

    /** `RollBackMoudleInfo`: the old module comes back, if the state allows it and the save succeeds. */
    method RollBackModuleInfo(package: string, oldInfo: Record) returns (ghost saved: bool)
      requires slot.info.Some?
      modifies `slot, `calls, `faults, `failedSaves
      ensures Counting()
      ensures slot.info.Some? && slot.state == SetState(old(slot), ROLL_BACK).state
      ensures slot.info.value.users == old(slot).info.value.users
      ensures slot.info.value.modules
              == if saved then MergeModules(old(slot).info.value.modules, oldInfo.modules, package)
                 else old(slot).info.value.modules
      ensures saved ==>
              slot.state == Some(ROLL_BACK) || slot.state == Some(UPDATING_SUCCESS) || slot.state == Some(USER_CHANGE)
      ensures slot.state == Some(ROLL_BACK) ==> (saved <==> failedSaves == old(failedSaves))
      ensures var info := old(slot).info.value.(enabled := false);
              calls == old(calls) + if saved then [Save(Updated(info, oldInfo, package))] else []
      ensures slot.state == Some(InstallState.INSTALL_SUCCESS) ==> !saved
    {
      hide HasEntry;
      var info := GetInnerBundleInfo();
      var ok := UpdateBundleInstallState(ROLL_BACK);
      var next;
      ok, next := UpdateInnerBundleInfo(oldInfo, package, info.value);
      saved := ok;
    }

    /** `RemoveInfo` with a package. */
    method RemoveInfo(package: string) returns (ghost saved: bool)
      requires slot.info.Some?
      modifies `slot, `calls, `faults, `failedSaves
      ensures Counting()
      ensures slot.info.Some? && slot.state == SetState(old(slot), ROLL_BACK).state
      ensures slot.info.value.users == old(slot).info.value.users
      ensures slot.info.value.modules == if saved then old(slot).info.value.modules - {package}
                                         else old(slot).info.value.modules
      ensures saved ==> slot.state == Some(ROLL_BACK) || slot.state == Some(UNINSTALL_START)
      ensures slot.state == Some(ROLL_BACK) ==> (saved <==> failedSaves == old(failedSaves))
      ensures var info := old(slot).info.value.(enabled := false);
              calls == old(calls) + if saved then [Save(DropModule(info, package).(enabled := true))] else []
    {
      var info := GetInnerBundleInfo();
      var ok := UpdateBundleInstallState(ROLL_BACK);
      var next;
      ok, next, saved := RemoveModuleInfo(package, info.value);
    }

    /** The directory a rollback removes. */
    function RemovalOf(h: Hap): seq<Call>
      reads this
    {
      if h.package in installedModules then [RemoveModuleDir(h.package, true)]
      else if h.package in moduleDirs then [RemoveModuleDir(h.package, false)] else []
    }

    /** Rollback of one package: unless its save fails, it agrees with `oldInfo` again. */
    method RollBackHap(h: Hap, oldInfo: Record, ghost open: set<string>)
      requires slot.info.Some?
      modifies `slot, `calls, `faults, `failedSaves
      ensures Counting() && old(calls) <= calls
      ensures slot.info.Some? && slot.state == SetState(old(slot), ROLL_BACK).state
      ensures slot.info.value.users == old(slot).info.value.users
      ensures slot.state == Some(InstallState.INSTALL_SUCCESS) ==>
              slot.info.value.modules == old(slot).info.value.modules
      ensures slot.state == Some(ROLL_BACK) && failedSaves == old(failedSaves)
              && (h.package in installedModules <==> h.package in oldInfo.modules)
              && AgreeExcept(old(slot).info.value.modules, oldInfo.modules, open) ==>
                AgreeExcept(slot.info.value.modules, oldInfo.modules, open - {h.package})
      ensures slot.state == Some(ROLL_BACK) && failedSaves != old(failedSaves) ==>
                slot.info.value.modules == old(slot).info.value.modules
      ensures Undisturbed() && slot.state == Some(ROLL_BACK)
              && (h.package in installedModules <==> h.package in oldInfo.modules) ==>
                calls == old(calls) + RemovalOf(h)
                         + [Save(PutBack(old(slot).info.value.(enabled := false), oldInfo, h.package))]
      ensures slot.state == Some(InstallState.INSTALL_SUCCESS) && RemovalOf(h) == [] ==> calls == old(calls)
    {
      hide HasEntry, Edge;
      ghost var before := slot.info.value.modules;
      var ok;
      ghost var saved;
      if h.package in installedModules {
        ok := Perform(RemoveModuleDir(h.package, true));
        saved := RollBackModuleInfo(h.package, oldInfo);
        if saved && h.package in oldInfo.modules { MergeCloses(before, oldInfo.modules, h.package, open); }
      } else {
        // without a `modulePath` there is nothing to remove, and installd refuses the call
        if h.package in moduleDirs { ok := Perform(RemoveModuleDir(h.package, false)); }
        saved := RemoveInfo(h.package);
        if saved && h.package !in oldInfo.modules { DropCloses(before, oldInfo.modules, h.package, open); }
      }
    }

    /**
     `RollBack` of a request: unless one of its own saves fails, the modules are those of `oldInfo` again. Taking
     back a first install only asks for a state change.
     */
    method RollBack(haps: seq<Hap>, oldInfo: Record)
      requires haps != [] && (isAppExist ==> slot.info.Some?)
      modifies `slot, `calls, `faults, `failedSaves
      ensures Counting() && old(calls) <= calls
      ensures !isAppExist ==>
                && slot == SetState(old(slot), UPDATING_FAIL)
                && Writes(calls) == Writes(old(calls))
                && (Undisturbed() ==> old(calls) + [RemoveBundleDir] <= calls)
      ensures isAppExist ==>
                && slot.info.Some? && slot.state == RolledBackState(old(slot).state)
                && slot.info.value.users == old(slot).info.value.users
      ensures isAppExist && old(slot).state == Some(InstallState.INSTALL_SUCCESS) ==>
                slot.info.value.modules == old(slot).info.value.modules
      ensures isAppExist && failedSaves == old(failedSaves) && Updating(old(slot))
              && installedModules == PackagesOf(haps) * oldInfo.modules.Keys
              && AgreeExcept(old(slot).info.value.modules, oldInfo.modules, PackagesOf(haps)) ==>
                slot.info.value.modules == oldInfo.modules
      // a single package is restored only so, unless it had not changed
      ensures isAppExist && |haps| == 1 && failedSaves != old(failedSaves) && Updating(old(slot)) ==>
                slot.info.value.modules == old(slot).info.value.modules
      ensures isAppExist && |haps| == 1 && Undisturbed() && Updating(old(slot))
              && (haps[0].package in installedModules <==> haps[0].package in oldInfo.modules) ==>
                calls == old(calls) + RemovalOf(haps[0])
                         + [Save(PutBack(old(slot).info.value.(enabled := false), oldInfo, haps[0].package))]
      ensures isAppExist && |haps| == 1 && old(slot).state == Some(InstallState.INSTALL_SUCCESS)
              && RemovalOf(haps[0]) == [] ==>
                calls == old(calls)
    {
      hide HasEntry, Edge, Agree, PutBack, Writes;
      if !isAppExist {
        RollBackFresh();
        return;
      }
      var preInfo := GetInnerBundleInfo();
      RollsBackOnce(slot);
      ghost var base := slot.info.value.modules;
      ghost var matched := installedModules == PackagesOf(haps) * oldInfo.modules.Keys;
      ghost var agreed := AgreeExcept(base, oldInfo.modules, PackagesOf(haps));
      ghost var open := PackagesOf(haps);
      var i := 0;
      while i < |haps|
        invariant 0 <= i <= |haps| && Counting() && old(calls) <= calls
        invariant slot.info.Some? && slot.info.value.users == old(slot).info.value.users
        invariant slot.state == if i == 0 then old(slot).state else RolledBackState(old(slot).state)
        invariant old(slot).state == Some(InstallState.INSTALL_SUCCESS) ==> slot.info.value.modules == base
        invariant open == PackagesOf(haps) - PackagesOf(haps[..i])
        invariant Updating(old(slot)) && matched && agreed && failedSaves == old(failedSaves) ==>
                AgreeExcept(slot.info.value.modules, oldInfo.modules, open)
        invariant i == 0 ==>
                && slot.info.value == old(slot).info.value.(enabled := false) && calls == old(calls)
                && failedSaves == old(failedSaves)
        invariant i == 1 && failedSaves != old(failedSaves) && Updating(old(slot)) ==> slot.info.value.modules == base
        invariant (i == 1 && Undisturbed() && Updating(old(slot))
                   && (haps[0].package in installedModules <==> haps[0].package in oldInfo.modules)) ==>
                  calls == old(calls) + RemovalOf(haps[0])
                           + [Save(PutBack(old(slot).info.value.(enabled := false), oldInfo, haps[0].package))]
        invariant i == 1 && old(slot).state == Some(InstallState.INSTALL_SUCCESS) && RemovalOf(haps[0]) == [] ==>
                  calls == old(calls)
      {
        ShrinksBy(haps, i);
        RollsBackOnce(slot);
        RollBackHap(haps[i], oldInfo, open);
        open := open - {haps[i].package};
        i := i + 1;
      }
      assert haps[..i] == haps;
      if Updating(old(slot)) && matched && agreed && failedSaves == old(failedSaves) {
        AgreeEverywhere(slot.info.value.modules, oldInfo.modules, open);
      }
      // the permissions are updated last; nothing depends on it
      var ok := Attempt();
    }

    /** The branch of `RollBack` for a bundle that was not there before. */
    method RollBackFresh()
      modifies `slot, `calls, `faults, `failedSaves
      ensures Counting() && old(calls) <= calls && slot == SetState(old(slot), UPDATING_FAIL)
      ensures Writes(calls) == Writes(old(calls))
      ensures Undisturbed() ==> old(calls) + [RemoveBundleDir] <= calls
    {
      hide Edge, Writes;
      WritesGrow(calls, RemoveBundleDir);
      var ok := Perform(RemoveBundleDir);
      ok := Attempt();
      ok := Attempt();
      WritesGrow(calls, Erase);
      ok := UpdateBundleInstallState(UPDATING_FAIL);
    }

    // ---- After the packages ----

    method RenameModuleDirs(toRename: seq<string>) returns (result: ErrCode)
      modifies `calls, `faults, `failedSaves
      ensures Counting() && old(calls) <= calls
      ensures Undisturbed() <==> result == ERR_OK
      ensures result == ERR_OK ==> calls == old(calls) + RenamesOf(toRename)
      ensures result != ZERO_USER_WITH_NO_SINGLETON && !Late(result)
      ensures Writes(calls) == Writes(old(calls))
      ensures result != ERR_OK && |toRename| == 1 ==> calls == old(calls)
      ensures toRename == [] ==> result == ERR_OK
    {
      hide RenamesOf, Writes;
      var i := 0;
      RenamesPrefix(toRename, 0);
      while i < |toRename|
        invariant 0 <= i <= |toRename| && Undisturbed() && failedSaves == old(failedSaves)
        invariant calls == old(calls) + RenamesOf(toRename[..i]) && Writes(calls) == Writes(old(calls))
        invariant i == 0 ==> calls == old(calls)
      {
        RenamesPrefix(toRename, i);
        WritesGrow(calls, Rename(toRename[i]));
        var ok := Perform(Rename(toRename[i]));
        if !ok { return FOREIGN_ERROR; }
        i := i + 1;
      }
      assert toRename[..i] == toRename;
      result := ERR_OK;
    }

    /**
     Its result is not looked at; a module whose directory stays is kept, with those still to come. `order`
     is the order in which the others went.
     */
    method UninstallLowerVersionFeature(packages: seq<string>) returns (ghost order: seq<string>)
      requires slot.info.Some?
      modifies `slot, `calls, `faults, `failedSaves
      ensures Counting()
      ensures slot.info.Some? && (slot.state == old(slot).state || slot.state == Some(UNINSTALL_START))
      ensures slot.info.value.version == old(slot).info.value.version
              && slot.info.value.users == old(slot).info.value.users
      // whatever fails, no package of the request goes, and no module before its directory
      ensures old(calls) <= calls
      ensures GoneWithCode(old(slot).info.value.modules, slot.info.value.modules, Elements(packages), old(calls), calls)
      ensures Accepts(old(slot), UNINSTALL_START) && Undisturbed() ==>
                && slot.info.value.modules == Kept(old(slot).info.value.modules, Elements(packages))
                && Elements(order) == old(slot).info.value.modules.Keys - Elements(packages)
                && calls == old(calls) + RemovalCalls(old(slot).info.value.(enabled := false), order)
                && slot.info == Some(DropAll(old(slot).info.value.(enabled := false), order))
      ensures Undisturbed() && (forall p :: p in old(slot).info.value.modules ==> p in packages) ==>
                calls == old(calls) && slot.info == Disabled(old(slot)).info
    {
      hide HasEntry, Edge, DropAll, RemovalCalls, Kept, Dropped, GoneWithCode, DirGone;
      order := [];
      var found := GetInnerBundleInfo();
      var info := found.value;
      var ok := UpdateBundleInstallState(UNINSTALL_START);
      ghost var wanted, base := Elements(packages), info;
      KeepAll(info.modules, wanted);
      NoneGone(base.modules, wanted, calls);
      NothingRemoved(base);
      if !ok { return; }
      ok := Attempt();
      var left := info.modules.Keys;
      while left != {}
        invariant left <= base.modules.Keys && Counting()
        invariant slot.state == Some(UNINSTALL_START) && slot.info.Some? && old(calls) <= calls
        invariant info.modules.Keys <= slot.info.value.modules.Keys <= base.modules.Keys
        invariant GoneWithCode(base.modules, info.modules, wanted, old(calls), calls)
        invariant info.version == slot.info.value.version == base.version
        invariant info.users == slot.info.value.users == base.users
        invariant Undisturbed() ==> slot.info.value.modules == info.modules == Kept(base.modules, left + wanted)
        invariant Undisturbed() ==> info == DropAll(base, order) && calls == old(calls) + RemovalCalls(base, order)
        invariant Undisturbed() ==> Elements(order) == base.modules.Keys - left - wanted
        invariant Undisturbed() ==> slot.info == Some(info)
      {
        var package :| package in left;
        KeptShrinks(base.modules, left, wanted, package);
        if package !in packages {
          ghost var was, then_ := info.modules, calls;
          ok, info := RemoveLowerModule(info, package);
          OneMoreGone(base.modules, was, info.modules, wanted, package, old(calls), then_, calls);
          FewerGone(base.modules, info.modules, slot.info.value.modules, wanted, old(calls), calls);
          if !ok { return; }
          RemovalGrows(base, order, package);
          GrowsBy(order, package);
          order := order + [package];
        }
        left := left - {package};
      }
      FewerGone(base.modules, info.modules, slot.info.value.modules, wanted, old(calls), calls);
      assert left + wanted == wanted;
      if Undisturbed() && base.modules.Keys <= wanted { NothingDropped(order, base.modules.Keys, wanted, left); }
      ok := Attempt();
    }

    /** One module of `UninstallLowerVersionFeature`. */
    method RemoveLowerModule(info: Record, package: string) returns (ok: bool, next: Record)
      requires slot.info.Some? && slot.state == Some(UNINSTALL_START)
      requires info.version == slot.info.value.version && info.users == slot.info.value.users
      modifies `slot, `calls, `faults, `failedSaves
      ensures Counting()
      ensures slot.state == Some(UNINSTALL_START) && slot.info.Some?
      ensures next.version == slot.info.value.version == info.version
              && next.users == slot.info.value.users == info.users
      ensures old(calls) <= calls
      ensures next.modules == info.modules
              || (next.modules == info.modules - {package} && DirGone(old(calls), calls, package))
      ensures slot.info.value.modules == old(slot).info.value.modules || slot.info.value.modules == next.modules
      ensures Undisturbed() ==>
                && ok && next == Dropped(info, package) && slot.info == Some(next)
                && next.modules == info.modules - {package}
                && calls == old(calls) + [RemoveModuleDir(package, false), Save(next)]
    {
      next := info;
      ok := Perform(RemoveModuleDir(package, false));
      if !ok { return; }
      ok := Attempt();
      if !ok { return; }
      ghost var saved;
      ok, next, saved := RemoveModuleInfo(package, info);
      assert calls[|old(calls)|] == RemoveModuleDir(package, false);
    }

    /** The two guards of `ProcessBundleInstall`, run on every way out. */
    method RunGuards()
      requires Known(slot)
      modifies `slot, `calls, `faults, `failedSaves
      ensures Settled(slot) && slot.info == Enabled(old(slot)).info
      ensures Undisturbed() && failedSaves == old(failedSaves) && calls == old(calls)
    {
      slot := Enabled(slot);
      var ok := UpdateBundleInstallState(InstallState.INSTALL_SUCCESS);
    }

    /** The body between the guards, without the rollback: the packages, then the renames. */
    method ApplyRequest(haps: seq<Hap>, isReplace: bool, noSkipsKill: bool)
      returns (result: ErrCode, oldInfo: Record, ghost q: Progress, ghost course: Course)
      requires Ready(haps) && Paired(slot)
      modifies this
      ensures userId == old(userId) && versionCode == old(versionCode)
      ensures Counting()
      ensures result == ZERO_USER_WITH_NO_SINGLETON ==> slot == old(slot) && calls == old(calls)
      ensures result != ZERO_USER_WITH_NO_SINGLETON ==> isAppExist == old(slot.info).Some?
      ensures result != ZERO_USER_WITH_NO_SINGLETON && isAppExist ==>
                var base := old(slot.info).value.modules;
                && SameContent(oldInfo, old(slot.info).value)
                && slot.info.Some? && oldInfo.modules == base && RollbackReady(haps, old(slot).state, base)
      ensures result != ZERO_USER_WITH_NO_SINGLETON && !isAppExist ==>
                && Beginning(slot) && (|haps| == 1 ==> !Updating(slot))
                && (result != ERR_OK ==>
                      (slot.state == Some(UPDATING_SUCCESS) <==>
                       PastExtraction(haps, Writes(calls) - Writes(old(calls)), result)))
      ensures var prior, t := old(slot.info), RequestTerms(old(slot.info), isReplace);
              if result == ERR_OK then
                && Merged(prior, haps, t).Ok? && Undisturbed()
                && InStep(q.record) && SameContent(q.record, Merged(prior, haps, t).value.record)
                && userId in q.record.users
                && (slot.state == Some(UPDATING_SUCCESS) || slot.state == Some(InstallState.INSTALL_START))
                && (if isAppExist && versionCode > prior.value.version then ListsFirst(uninstallModuleVec, haps, |haps|)
                    else uninstallModuleVec == [])
              else
                || !Undisturbed() || (prior.Some? && !CanUpdating(old(slot)))
                || Merged(prior, haps, t) == Verdict.Err(result)
      ensures result == ERR_OK ==>
                && Looped(course, old(slot.info), haps, userId, RequestTerms(old(slot.info), isReplace), old(calls), q)
                && calls == q.calls + (if isAppExist then [] else [Rename(haps[0].package)]) + q.renames
      ensures result == ERR_OK ==> PackagesOf(haps) <= q.record.modules.Keys
      // a failure leaves the users as they were, but a new one stays when a rename fails
      ensures result == ERR_OK || result == ZERO_USER_WITH_NO_SINGLETON ==> !course.renaming
      ensures course.renaming ==>
                AllDone(course, old(slot.info), haps, userId, RequestTerms(old(slot.info), isReplace), old(calls),
                        calls)
      ensures result != ERR_OK && result != ZERO_USER_WITH_NO_SINGLETON && isAppExist && CanUpdating(old(slot))
              && OneFault(Merged(old(slot.info), haps, RequestTerms(old(slot.info), isReplace)).Ok?) ==>
                slot.info.value.users.Keys
                == old(slot).info.value.users.Keys + if course.renaming then {userId} else {}
      ensures result != ERR_OK && result != ZERO_USER_WITH_NO_SINGLETON && SingleUpdate(haps, old(slot)) ==>
                StoppedUpdate(course.reached, slot, old(slot).state, old(slot).info.value.(enabled := false), haps[0],
                              old(calls), calls, installedModules, moduleDirs)
    {
      hide Edge, StepHap, RenamesOf, ListsFirst, Agree, Fold, HasEntry, StoppedUpdate, Writes, PastExtraction,
           Looped, AllDone, Merged;
      var toRename;
      result, oldInfo, toRename, q, course := InnerProcessBundleInstall(haps, isReplace, noSkipsKill);
      if result != ERR_OK { return; }
      LoopedUsers(course, old(slot.info), haps, userId, RequestTerms(old(slot.info), isReplace), old(calls), q);
      result, course := FinishRequest(haps, toRename, RequestTerms(old(slot.info), isReplace), old(slot), old(calls), q,
                                      course);
    }

    /** The renames of `ApplyRequest`; `before` and `past` are the entries and the calls at the start of the request. */
    method FinishRequest(haps: seq<Hap>, toRename: seq<string>, ghost t: Terms, ghost before: Slot,
                         ghost past: seq<Call>, ghost q: Progress, ghost looped: Course)
      returns (result: ErrCode, ghost course: Course)
      requires haps != [] && Looped(looped, before.info, haps, userId, t, past, q) && calls == q.calls
      requires RenamesOf(toRename) == (if isAppExist then [] else [Rename(haps[0].package)]) + q.renames
      requires isAppExist == before.info.Some?
      requires !isAppExist ==> Writes(calls) - Writes(past) == 3 * |haps|
      requires SingleUpdate(haps, before) ==>
                 && t.installedInUser && slot == Slot(Some(UPDATING_SUCCESS), Some(q.record))
                 && (toRename != [] ==> haps[0].package in moduleDirs)
                 && installedModules == PackagesOf(haps) * before.info.value.modules.Keys
      modifies `calls, `faults, `failedSaves
      ensures Counting() && result != ZERO_USER_WITH_NO_SINGLETON
      ensures Undisturbed() <==> result == ERR_OK
      ensures course.renaming <==> result != ERR_OK
      ensures result == ERR_OK ==>
                && Looped(course, before.info, haps, userId, t, past, q)
                && calls == q.calls + (if isAppExist then [] else [Rename(haps[0].package)]) + q.renames
      ensures AllDone(course, before.info, haps, userId, t, past, calls)
      ensures result != ERR_OK && !isAppExist ==>
                (PastExtraction(haps, Writes(calls) - Writes(past), result) <==> |haps| > 1)
      ensures result != ERR_OK && SingleUpdate(haps, before) ==>
                StoppedUpdate(course.reached, slot, before.state, before.info.value.(enabled := false), haps[0], past,
                              calls, installedModules, moduleDirs)
    {
      hide Edge, RenamesOf, Fold, StoppedUpdate, Writes, PastExtraction, Looped, AllDone, PackagesOf;
      result := RenameModuleDirs(toRename);
      course := looped.(renaming := result != ERR_OK);
      if result != ERR_OK && !isAppExist { StoppedAfterAll(haps, Writes(calls) - Writes(past), result); }
      if result != ERR_OK && SingleUpdate(haps, before) {
        LoopedInUser(looped, before.info.value, haps, userId, t, past, q);
        course := course.(reached := Some(Recorded));
        RenamedNone(before.info.value.(enabled := false), haps, t, q, toRename, past, slot, before.state,
                    installedModules, moduleDirs);
      }
      LoopedIsDone(looped, course, before.info, haps, userId, t, past, q, calls);
    }

    /** Taking back a failed request. */
    method UndoRequest(haps: seq<Hap>, oldInfo: Record, ghost before: Slot, ghost reached: Option<Reached>,
                       ghost past: seq<Call>)
      requires haps != [] && Known(before)
      requires isAppExist == before.info.Some?
      requires isAppExist ==> oldInfo.modules == before.info.value.modules
                              && RollbackReady(haps, before.state, before.info.value.modules)
      requires SingleUpdate(haps, before) ==>
                 && SameContent(oldInfo, before.info.value)
                 && StoppedUpdate(reached, slot, before.state, before.info.value.(enabled := false), haps[0], past,
                                  calls, installedModules, moduleDirs)
      requires !isAppExist ==> Beginning(slot)
      modifies `slot, `calls, `faults, `failedSaves
      ensures Counting() && old(calls) <= calls
      ensures Known(slot)
      requires isAppExist ==> slot.info.Some?
      ensures isAppExist ==> slot.info.Some? && slot.info.value.users == old(slot).info.value.users
      ensures isAppExist && failedSaves == old(failedSaves) && before.state == Some(InstallState.INSTALL_SUCCESS) ==>
                slot.info.value.modules == before.info.value.modules
      ensures !isAppExist ==>
                && slot == (if old(slot).state == Some(UPDATING_SUCCESS) then old(slot) else Slot(None, None))
                && Writes(calls) == Writes(old(calls))
      ensures Undisturbed() && SingleUpdate(haps, before) ==>
                calls == past + match reached
                         case None => []
                         case Some(x) => RolledBackCalls(before.info.value, haps[0], x)
    {
      hide StoppedUpdate, RolledBackCalls, PutBack;
      if !isAppExist { FreshRollback(slot); }
      RollsBackOnce(slot);
      if SingleUpdate(haps, before) {
        RolledBack(reached, slot, before, haps[0], oldInfo, past, calls, installedModules, moduleDirs);
      }
      RollBack(haps, oldInfo);
    }

    /** The last step of a successful request, when the version has risen; `order` lists the modules that go. */
    method RemoveOldModules(haps: seq<Hap>) returns (ghost order: seq<string>)
      requires slot.info.Some?
      requires slot.state == Some(UPDATING_SUCCESS) || slot.state == Some(InstallState.INSTALL_START)
      requires uninstallModuleVec == [] || ListsFirst(uninstallModuleVec, haps, |haps|)
      modifies `slot, `calls, `faults, `failedSaves
      ensures Counting()
      ensures slot.info.Some? && Known(slot)
      ensures slot.info.value.version == old(slot).info.value.version
      ensures slot.info.value.users == old(slot).info.value.users
      ensures GoneWithCode(old(slot).info.value.modules, slot.info.value.modules, PackagesOf(haps), old(calls), calls)
      ensures uninstallModuleVec == [] ==> slot == old(slot) && order == [] && calls == old(calls)
      ensures Undisturbed() ==>
                && slot.info.value.modules == (if uninstallModuleVec == [] then old(slot).info.value.modules
                                               else Kept(old(slot).info.value.modules, PackagesOf(haps)))
                && Elements(order) == (if uninstallModuleVec == [] then {}
                                       else old(slot).info.value.modules.Keys - PackagesOf(haps))
                && calls == old(calls) + RemovalCalls(old(slot).info.value, order)
                && slot.info.value.(enabled := true) == DropAll(old(slot).info.value, order).(enabled := true)
    {
      hide Edge, Kept, RemovalCalls;
      order := [];
      NothingRemoved(slot.info.value);
      if uninstallModuleVec != [] {
        ListsAll(uninstallModuleVec, haps);
        MayUninstall(slot);
        order := UninstallLowerVersionFeature(uninstallModuleVec);
        RemovalIgnoresEnabled(old(slot).info.value, false, order);
      }
    }

    /** The end of a request whose packages are all in place: lower versions go, and it has been performed. */
    method Conclude(haps: seq<Hap>, ghost t: Terms, ghost prior: Option<Record>, ghost past: seq<Call>,
                    ghost q: Progress, ghost looped: Course)
      returns (ghost course: Course)
      requires haps != [] && Looped(looped, prior, haps, userId, t, past, q) && slot.info == Some(q.record)
      requires slot.state == Some(UPDATING_SUCCESS) || slot.state == Some(InstallState.INSTALL_START)
      requires calls == q.calls + (if prior.Some? then [] else [Rename(haps[0].package)]) + q.renames
      requires if prior.Some? && t.version > prior.value.version then ListsFirst(uninstallModuleVec, haps, |haps|)
               else uninstallModuleVec == []
      requires PackagesOf(haps) <= q.record.modules.Keys && !looped.renaming
      modifies `slot, `calls, `faults, `failedSaves
      ensures Counting() && slot.info.Some? && Known(slot) && !course.renaming
      ensures slot.info.value.version == q.record.version && slot.info.value.users == q.record.users
      ensures PackagesOf(haps) <= slot.info.value.modules.Keys
      ensures Undisturbed() ==>
                && slot.info.value.modules == WithoutOld(q.record.modules, prior, haps, t.version)
                && Performed(course, prior, haps, userId, t, past, calls, Some(slot.info.value.(enabled := true)))
    {
      hide Edge, Elements, Fold, RemovalCalls, DropAll, ListsFirst, Looped, Performed, Kept, PackagesOf;
      ghost var order := RemoveOldModules(haps);
      course := looped;
      if faults == old(faults) {
        VecOfNone(haps);
        LoopedPerforms(looped, prior, haps, userId, t, past, q, order);
        course := looped.(order := order);
      }
    }

    /**
     `ProcessBundleInstall` from the point where its guards are set.
     */
    method InstallWithGuards(haps: seq<Hap>, isReplace: bool, noSkipsKill: bool)
      returns (result: ErrCode, ghost course: Course)
      requires Ready(haps) && Known(slot)
      modifies this
      ensures userId == old(userId) && versionCode == old(versionCode) && Counting()
      // every way out settles the bundle
      ensures Settled(slot)
      // success
      ensures result == ERR_OK ==>
                && Merged(old(slot.info), haps, RequestTerms(old(slot.info), isReplace)).Ok? && slot.info.Some?
                && slot.info.value.version
                   == Merged(old(slot.info), haps, RequestTerms(old(slot.info), isReplace)).value.record.version
                && userId in slot.info.value.users && PackagesOf(haps) <= slot.info.value.modules.Keys
      ensures result == ERR_OK && Undisturbed() ==>
                slot.info.value.modules
                == Outcome(old(slot.info), haps, RequestTerms(old(slot.info), isReplace)).value.modules
      // the verdict, when nothing else fails
      ensures Undisturbed() && Settled(old(slot)) ==>
                match Outcome(old(slot.info), haps, RequestTerms(old(slot.info), isReplace))
                case Ok(_) => result == ERR_OK
                case Err(code) => result == code
      // a failed update is undone if no save failed, and if only one call failed, or none, beside a sound request
      ensures result != ERR_OK && failedSaves == old(failedSaves)
              && old(slot).state == Some(InstallState.INSTALL_SUCCESS) && old(slot).info.Some? ==>
                slot.info.Some? && slot.info.value.modules == old(slot).info.value.modules
      ensures result != ERR_OK && faults <= old(faults) + 1
              && Outcome(old(slot.info), haps, RequestTerms(old(slot.info), isReplace)).Ok?
              && old(slot).state == Some(InstallState.INSTALL_SUCCESS) && old(slot).info.Some? ==>
                slot.info.Some? && slot.info.value.modules == old(slot).info.value.modules
      // the users stay, too, but for a new one when a rename fails
      ensures course.renaming ==>
                AllDone(course, old(slot.info), haps, userId, RequestTerms(old(slot.info), isReplace), old(calls),
                        calls)
      ensures result != ERR_OK && old(slot).state == Some(InstallState.INSTALL_SUCCESS) && old(slot).info.Some?
              && OneFault(Outcome(old(slot.info), haps, RequestTerms(old(slot.info), isReplace)).Ok?) ==>
                slot.info.Some? && slot.info.value.users.Keys
                                   == old(slot).info.value.users.Keys + if course.renaming then {userId} else {}
      // a failed first install is kept exactly when it stopped past an extraction
      ensures result != ERR_OK && old(slot).info.None? ==>
                (slot.info.Some? <==> PastExtraction(haps, Writes(calls) - Writes(old(calls)), result))
      // the durable calls of a failed request of one package, its rollback included, when at most one call failed
      ensures result != ERR_OK && SingleUpdate(haps, old(slot))
              && (Undisturbed() || (faults == old(faults) + 1
                  && Outcome(old(slot.info), haps, RequestTerms(old(slot.info), isReplace)).Ok?)) ==>
                calls == old(calls) + match course.reached
                         case None => []
                         case Some(x) => RolledBackCalls(old(slot).info.value, haps[0], x)
      // the durable calls of an undisturbed success and the record it leaves
      ensures result == ERR_OK && Undisturbed() ==>
                Performed(course, old(slot.info), haps, userId, RequestTerms(old(slot.info), isReplace), old(calls),
                          calls, slot.info)
    {
      hide Edge, StepHap, RenamesOf, Agree, AgreeExcept, Fold, HasEntry, Merged, Kept, RollbackReady, Elements,
           RemovalCalls, RequestCalls, InstallCalls, FirstMark, FirstRecord, ContainEntry, StoppedUpdate, Writes,
           PastExtraction, RolledBackCalls, PutBack, PackagesOf,
           Looped, Performed, DropAll, AllDone;
      ghost var before, t := slot, RequestTerms(slot.info, isReplace);
      if slot.state == Some(InstallState.INSTALL_SUCCESS) { InstalledMayUpdate(slot); }
      var oldInfo;
      ghost var q;
      result, oldInfo, q, course := ApplyRequest(haps, isReplace, noSkipsKill);
      if result == ZERO_USER_WITH_NO_SINGLETON {
        course := course.(reached := None);
        StoppedAtOnce(haps);
      } else if result != ERR_OK {
        ghost var made := calls;
        UndoRequest(haps, oldInfo, before, course.reached, old(calls));
        if course.renaming { DoneStays(course, before.info, haps, userId, t, old(calls), made, calls); }
      } else {
        course := Conclude(haps, t, before.info, old(calls), q, course);
      }
      RunGuards();
    }

    /** `ParseHapFiles`, as far as it looks for entry packages. */
    method ParseHapFiles(haps: seq<Hap>) returns (result: ErrCode)
      requires !isContainEntry
      modifies `isContainEntry, `faults
      ensures Counting()
      ensures result == ERR_OK ==> Undisturbed()
      ensures result == ERR_OK ==> isContainEntry == ContainEntry(haps) && OneEntryAtMost(haps)
      ensures Undisturbed() ==> result == if OneEntryAtMost(haps) then ERR_OK else INVALID_NUMBER_OF_ENTRY_HAP
    {
      var i := 0;
      while i < |haps|
        invariant 0 <= i <= |haps| && Undisturbed()
        invariant isContainEntry <==> exists k :: 0 <= k < i && haps[k].isEntry
        invariant forall j, k :: 0 <= j < k < i ==> !(haps[j].isEntry && haps[k].isEntry)
      {
        var ok := Attempt();
        if !ok { return FOREIGN_ERROR; }
        if haps[i].isEntry {
          if isContainEntry { return INVALID_NUMBER_OF_ENTRY_HAP; }
          isContainEntry := true;
        }
        i := i + 1;
      }
      result := ERR_OK;
    }

    /** `CheckAppLabelInfo`: the request's version is that of its first package, and of all. */
    method CheckAppLabelInfo(haps: seq<Hap>) returns (result: ErrCode)
      requires haps != []
      modifies `versionCode, `faults
      ensures Counting()
      ensures versionCode == haps[0].version
      ensures result == ERR_OK ==> Undisturbed()
      ensures result == ERR_OK ==> SameVersion(haps, versionCode)
      ensures Undisturbed() ==> result == if SameVersion(haps, versionCode) then ERR_OK else VERSIONCODE_NOT_SAME
    {
      versionCode := haps[0].version;
      var i := 0;
      while i < |haps|
        invariant 0 <= i <= |haps| && Undisturbed() && versionCode == haps[0].version
        invariant forall k :: 0 <= k < i ==> haps[k].version == versionCode
      {
        if versionCode != haps[i].version { return VERSIONCODE_NOT_SAME; }
        var ok := Attempt();
        if !ok { return FOREIGN_ERROR; }
        i := i + 1;
      }
      result := ERR_OK;
    }

    method ProcessBundleInstall(haps: seq<Hap>, flag: InstallFlag, noSkipsKill: bool)
      returns (result: ErrCode, ghost course: Course)
      requires Reset() && Known(slot)
      modifies this
      ensures userId == old(userId) && Counting()
      ensures Known(slot) && (Settled(slot) || slot == old(slot))
      ensures result == ERR_OK ==>
                && Acceptable(haps) && slot.info.Some? && slot.info.value.version == haps[0].version
                && userId in slot.info.value.users && PackagesOf(haps) <= slot.info.value.modules.Keys
      ensures result == ERR_OK && Undisturbed() ==>
                && Outcome(old(slot.info), haps, Requested(haps, flag, old(slot.info))).Ok?
                && slot.info.value.modules
                   == Outcome(old(slot.info), haps, Requested(haps, flag, old(slot.info))).value.modules
      ensures Undisturbed() && Settled(old(slot)) && Acceptable(haps) ==>
                match Outcome(old(slot.info), haps, Requested(haps, flag, old(slot.info)))
                case Ok(_) => result == ERR_OK
                case Err(code) => result == code
      ensures Undisturbed() && !Acceptable(haps) ==>
                && slot == old(slot) && calls == old(calls)
                && result == if haps == [] then PARAM_ERROR
                             else if !OneEntryAtMost(haps) then INVALID_NUMBER_OF_ENTRY_HAP else VERSIONCODE_NOT_SAME
      // the durable calls of an undisturbed success and the record it leaves
      ensures result == ERR_OK && Undisturbed() ==>
                Performed(course, old(slot.info), haps, userId, Requested(haps, flag, old(slot.info)), old(calls),
                          calls, slot.info)
      // a failed request leaves the modules as they were
      ensures result != ERR_OK && failedSaves == old(failedSaves)
              && old(slot).state == Some(InstallState.INSTALL_SUCCESS) && old(slot).info.Some? ==>
                slot.info.Some? && slot.info.value.modules == old(slot).info.value.modules
      ensures result != ERR_OK && haps != [] && faults <= old(faults) + 1
              && Outcome(old(slot.info), haps, Requested(haps, flag, old(slot.info))).Ok?
              && old(slot).state == Some(InstallState.INSTALL_SUCCESS) && old(slot).info.Some? ==>
                slot.info.Some? && slot.info.value.modules == old(slot).info.value.modules
      ensures course.renaming ==>
                && haps != []
                && AllDone(course, old(slot.info), haps, userId, Requested(haps, flag, old(slot.info)), old(calls),
                           calls)
      ensures result != ERR_OK && old(slot).state == Some(InstallState.INSTALL_SUCCESS) && old(slot).info.Some?
              && haps != [] && OneFault(Outcome(old(slot.info), haps, Requested(haps, flag, old(slot.info))).Ok?) ==>
                slot.info.Some? && slot.info.value.users.Keys
                                   == old(slot).info.value.users.Keys + if course.renaming then {userId} else {}
      // a failed first install
      ensures result != ERR_OK && old(slot) == Slot(None, None) ==>
                (slot.info.Some? <==> PastExtraction(haps, Writes(calls) - Writes(old(calls)), result))
      ensures result != ERR_OK && old(slot) == Slot(None, None) && |haps| == 1 ==> slot == Slot(None, None)
    {
      hide Edge, Fold, HasEntry, Kept, Merged, ContainEntry, Writes, RolledBackCalls, PastExtraction,
           Performed, AllDone;
      course := Course(BLANK, BLANK, [], None, false);
      StoppedAtOnce(haps);
      result := CheckRequest(haps);
      if result != ERR_OK { return; }
      ghost var prior, t := slot.info, Requested(haps, flag, slot.info);
      if Merged(prior, haps, t).Ok? { MergedVersion(prior, haps, t); }
      result, course :=
        InstallWithGuards(haps, flag == REPLACE_EXISTING || flag == FREE_INSTALL, noSkipsKill);
    }

    /** What `ProcessBundleInstall` checks before it sets its guards. */
    method CheckRequest(haps: seq<Hap>) returns (result: ErrCode)
      requires !isContainEntry
      modifies `isContainEntry, `versionCode, `faults
      ensures Counting()
      ensures result == ERR_OK ==>
                && Acceptable(haps) && Undisturbed()
                && isContainEntry == ContainEntry(haps) && versionCode == haps[0].version
      ensures Undisturbed() ==>
                result == if haps == [] then PARAM_ERROR else if !OneEntryAtMost(haps) then INVALID_NUMBER_OF_ENTRY_HAP
                          else if !SameVersion(haps, haps[0].version) then VERSIONCODE_NOT_SAME else ERR_OK
    {
      hide ContainEntry;
      var ok := Attempt();
      if !ok { return USER_NOT_EXIST; }
      if haps == [] { return PARAM_ERROR; }
      ok := Attempt();
      if !ok { return FOREIGN_ERROR; }
      result := ParseHapFiles(haps);
      if result != ERR_OK { return; }
      result := CheckAppLabelInfo(haps);
    }

    /** The terms of a request, seen before it is made. */
    function Requested(haps: seq<Hap>, flag: InstallFlag, prior: Option<Record>): Terms
      requires haps != []
      reads this
    {
      Terms(haps[0].version, flag != NORMAL, prior.Some? && userId in prior.value.users)
    }

    // ---- Uninstall ----

    /** The bundle is forgotten even when its directories could not be removed. */
    method RemoveBundle(keepData: bool) returns (result: ErrCode)
      requires slot.state == Some(UNINSTALL_START) && slot.info.Some?
      modifies `slot, `calls, `faults, `failedSaves
      ensures Counting()
      ensures slot == Slot(None, None) && result != INTERNAL_ERROR && old(calls) <= calls
      ensures failedSaves == old(failedSaves)
      ensures result == ERR_OK ==> old(calls) + [RemoveBundleDir] <= calls && faults <= old(faults) + 2
      ensures Undisturbed() ==> result == ERR_OK && calls == old(calls) + [RemoveBundleDir, Erase]
    {
      var ok := Perform(RemoveBundleDir);
      if ok && !keepData { ok := Attempt(); }
      if !ok {
        ok := UpdateBundleInstallState(UNINSTALL_FAIL);
        return FOREIGN_ERROR;
      }
      result := SERVICE_ERROR;
      ok := UpdateBundleInstallState(UNINSTALL_SUCCESS);
      if !ok { return; }
      ok := Attempt();
      result := ERR_OK;
    }

    /** Uninstalling a bundle, or taking one of several users out of it. */
    method ProcessBundleUninstall(keepData: bool, noSkipsKill: bool) returns (result: ErrCode)
      requires Known(slot)
      modifies `slot, `calls, `faults, `failedSaves, `versionCode
      ensures Counting()
      ensures Known(slot)
      // settled again, except exactly when the mark could not be saved
      ensures Settled(old(slot)) && old(slot).info.Some? && |old(slot).info.value.users| <= 1 ==>
                (slot.state == Some(UNINSTALL_START) <==> failedSaves == old(failedSaves) + 1)
      ensures Settled(old(slot)) ==>
                if result == INTERNAL_ERROR
                then slot.state == Some(UNINSTALL_START) && failedSaves == old(failedSaves) + 1
                else Settled(slot)
      ensures result == ERR_OK ==>
                && old(slot).info.Some? && userId in old(slot).info.value.users
                && if |old(slot).info.value.users| > 1
                   then
                     // only this user goes
                     && slot.state == old(slot).state && slot.info.Some?
                     && calls == old(calls) + [Save(slot.info.value)]
                     && slot.info.value == old(slot).info.value.(users := old(slot).info.value.users - {userId},
                                                                 enabled := true)
                   else slot == Slot(None, None)
      // a success with one user marked the bundle and removed its directory; the erasure and the token may have failed
      ensures result == ERR_OK && |old(slot).info.value.users| <= 1 ==>
                && old(calls) + UninstallBundleCalls(old(slot).info.value)[..2] <= calls
                && faults <= old(faults) + 2
      ensures result == ERR_OK && |old(slot).info.value.users| > 1 ==> Undisturbed()
      ensures old(slot).info.Some? && result != USER_NOT_EXIST ==> versionCode == old(slot).info.value.version
      // a failure forgets the bundle, or leaves all of it but perhaps the user
      ensures result != ERR_OK && slot != Slot(None, None) && old(slot).info.Some? ==>
                var was := old(slot).info.value.(enabled := true);
                && slot.info.Some?
                && (|| slot.info.value.(enabled := true) == was
                    || slot.info.value == was.(users := was.users - {userId}))
      ensures Undisturbed() && Settled(old(slot)) ==>
                result == if old(slot).info.None? then MISSING_INSTALLED_BUNDLE
                          else if userId !in old(slot).info.value.users then USER_NOT_INSTALL_HAP else ERR_OK
      ensures Undisturbed() && result == ERR_OK && |old(slot).info.value.users| <= 1 ==>
                calls == old(calls) + UninstallBundleCalls(old(slot).info.value)
    {
      var ok := Attempt();
      if !ok { return USER_NOT_EXIST; }
      var found := GetInnerBundleInfo();
      if found == None { return MISSING_INSTALLED_BUNDLE; }
      versionCode := found.value.version;
      result := UninstallFound(found.value, keepData, noSkipsKill);
      // the guard
      slot := Enabled(slot);
    }

    method UninstallFound(info: Record, keepData: bool, noSkipsKill: bool) returns (result: ErrCode)
      requires slot.info == Some(info) && !info.enabled && Known(slot)
      modifies `slot, `calls, `faults, `failedSaves
      ensures Counting()
      ensures if result == INTERNAL_ERROR then
                slot == old(slot).(state := Some(UNINSTALL_START)) && failedSaves == old(failedSaves) + 1
              else
                || slot == Slot(None, None) || slot == RemoveUser(old(slot), userId) || slot == old(slot)
                || slot == old(slot).(state := Some(InstallState.INSTALL_SUCCESS))
      ensures old(slot).state == Some(InstallState.INSTALL_SUCCESS) && |info.users| <= 1 ==>
                (slot.state == Some(UNINSTALL_START) <==> failedSaves == old(failedSaves) + 1)
      ensures result == ERR_OK ==>
                && userId in info.users
                && slot == (if |info.users| > 1 then RemoveUser(old(slot), userId) else Slot(None, None))
                && (|info.users| > 1 ==> slot.info.Some? && calls == old(calls) + [Save(slot.info.value)])
      ensures result == ERR_OK && |info.users| <= 1 ==>
                && old(calls) + [Save(SetMark(info, "", UNINSTALL_BUNDLE_START)), RemoveBundleDir] <= calls
                && faults <= old(faults) + 2
      ensures result == ERR_OK && |info.users| > 1 ==> Undisturbed()
      ensures Undisturbed() && old(slot).state == Some(InstallState.INSTALL_SUCCESS) ==>
                result == if userId !in info.users then USER_NOT_INSTALL_HAP else ERR_OK
      ensures Undisturbed() && result == ERR_OK && |info.users| <= 1 ==>
                calls == old(calls) + UninstallBundleCalls(info)
    {
      if userId !in info.users { return USER_NOT_INSTALL_HAP; }
      var ok := Attempt();
      if !ok { return FOREIGN_ERROR; }
      if |info.users| > 1 {
        var next;
        result, next := RemoveBundleUserData(info, keepData);
        return;
      }
      ok := UpdateBundleInstallState(UNINSTALL_START);
      if !ok { return SERVICE_ERROR; }
      if noSkipsKill {
        ok := Attempt();
        if !ok {
          ok := UpdateBundleInstallState(InstallState.INSTALL_SUCCESS);
          return KILLING_APP_ERROR;
        }
      }
      ok := Perform(Save(SetMark(info, "", UNINSTALL_BUNDLE_START)));
      if !ok { return INTERNAL_ERROR; }
      result := RemoveBundle(keepData);
    }

    /** Uninstalling one module. */
    method ProcessModuleUninstall(package: string, keepData: bool, noSkipsKill: bool) returns (result: ErrCode)
      requires Known(slot)
      modifies `slot, `calls, `faults, `failedSaves, `versionCode
      ensures Counting()
      ensures Known(slot)
      // settled again, except exactly when the removal of the only module began while other users have the bundle
      ensures Settled(old(slot)) ==>
                if StaysUninstalling(old(slot), package) && calls != old(calls) then slot.state == Some(UNINSTALL_START)
                else Settled(slot)
      ensures Settled(old(slot)) && result == ERR_OK ==> (Settled(slot) <==> !StaysUninstalling(old(slot), package))
      ensures result == ERR_OK ==> old(slot).info.Some? && package in old(slot).info.value.modules
      ensures result == ERR_OK && IsOnlyModule(old(slot).info.value, package) && |old(slot).info.value.users| <= 1 ==>
                slot == Slot(None, None)
      // the only module of several users: this user goes, the module stays
      ensures result == ERR_OK && IsOnlyModule(old(slot).info.value, package) && |old(slot).info.value.users| > 1 ==>
                && slot.info.Some? && slot.info.value.modules == old(slot).info.value.modules
                && slot.info.value.users == old(slot).info.value.users - {userId}
                && slot.info.value.version == old(slot).info.value.version
                && calls == old(calls) + [Save(MarkedFor(old(slot).info.value, package, UNINSTALL_PACKAGE_START)),
                                          Save(slot.info.value)]
      // one of several modules of several users: it leaves the record, its code stays
      ensures result == ERR_OK && Undisturbed() && Settled(old(slot)) && |old(slot).info.value.users| > 1
              && !IsOnlyModule(old(slot).info.value, package) ==>
                calls == old(calls) + [Save(MarkedFor(old(slot).info.value, package, UNINSTALL_PACKAGE_START)),
                                       Save(LeftWithout(old(slot).info.value, package))]
      ensures result == ERR_OK && Undisturbed() && !IsOnlyModule(old(slot).info.value, package) ==>
                slot.info.Some? && slot.info.value.modules == old(slot).info.value.modules - {package}
                && slot.info.value.users == old(slot).info.value.users
                && slot.info.value.version == old(slot).info.value.version
      ensures old(slot).info.Some? && package != "" && result != USER_NOT_EXIST ==>
                versionCode == old(slot).info.value.version
      ensures Undisturbed() && Settled(old(slot)) ==>
                result == if package == "" then PARAM_ERROR
                          else if old(slot).info.None? then MISSING_INSTALLED_BUNDLE
                          else if userId !in old(slot).info.value.users then USER_NOT_INSTALL_HAP
                          else if package !in old(slot).info.value.modules then MISSING_INSTALLED_MODULE else ERR_OK
      ensures Undisturbed() && result == ERR_OK && Settled(old(slot)) && |old(slot).info.value.users| <= 1 ==>
                calls == old(calls) + UninstallModuleCalls(old(slot).info.value, package)
    {
      if package == "" { return PARAM_ERROR; }
      var ok := Attempt();
      if !ok { return USER_NOT_EXIST; }
      var found := GetInnerBundleInfo();
      if found == None { return MISSING_INSTALLED_BUNDLE; }
      versionCode := found.value.version;
      var enableGuard, stateGuard;
      result, enableGuard, stateGuard := UninstallModuleFound(found.value, package, keepData, noSkipsKill);
      if stateGuard { ok := UpdateBundleInstallState(InstallState.INSTALL_SUCCESS); }
      if enableGuard { slot := Enabled(slot); }
    }

    /** The two flags say which guards are left to run. */
    method UninstallModuleFound(info: Record, package: string, keepData: bool, noSkipsKill: bool)
      returns (result: ErrCode, enableGuard: bool, stateGuard: bool)
      requires slot.info == Some(info) && !info.enabled && Known(slot)
      modifies `slot, `calls, `faults, `failedSaves
      ensures Counting()
      ensures stateGuard ==> enableGuard && slot.state == Some(UNINSTALL_START) && slot.info.Some?
      ensures enableGuard && !stateGuard ==> slot == old(slot)
      ensures !enableGuard ==> old(calls) < calls
      ensures enableGuard && IsOnlyModule(info, package) ==> calls == old(calls) && result != ERR_OK
      ensures !enableGuard ==>
                && !stateGuard && IsOnlyModule(info, package)
                && if |info.users| <= 1 then slot == Slot(None, None)
                   else slot.state == Some(UNINSTALL_START) && slot.info.Some?
                           && slot.info.value.modules == info.modules
      ensures result == ERR_OK && !enableGuard && |info.users| > 1 ==>
                && slot.info.value.users == info.users - {userId} && slot.info.value.version == info.version
                && calls == old(calls) + [Save(SetMark(info, package, UNINSTALL_PACKAGE_START)), Save(slot.info.value)]
      ensures result == ERR_OK && Undisturbed() && stateGuard && |info.users| > 1 ==>
                calls == old(calls) + [Save(SetMark(info, package, UNINSTALL_PACKAGE_START)),
                                       Save(LeftWithout(info.(enabled := true), package))]
      ensures result == ERR_OK ==> package in info.modules && (stateGuard <==> !IsOnlyModule(info, package))
                                   && (!stateGuard ==> !enableGuard)
      ensures result == ERR_OK && Undisturbed() && stateGuard ==>
                && slot.info.value.modules == info.modules - {package}
                && slot.info.value.users == info.users && slot.info.value.version == info.version
      ensures Undisturbed() && old(slot).state == Some(InstallState.INSTALL_SUCCESS) ==>
                result == if userId !in info.users then USER_NOT_INSTALL_HAP
                          else if package !in info.modules then MISSING_INSTALLED_MODULE else ERR_OK
      ensures Undisturbed() && result == ERR_OK && |info.users| <= 1 ==>
                calls == old(calls) + UninstallModuleCalls(info.(enabled := true), package)
    {
      hide Edge, LeftWithout;
      DropsMarked(info, package);
      enableGuard := true;
      result, stateGuard := BeginModuleUninstall(info, package, noSkipsKill);
      if result != ERR_OK { return; }
      var marked := SetMark(info, package, UNINSTALL_PACKAGE_START);
      if IsOnlyModule(info, package) {
        enableGuard, stateGuard := false, false;
        result := RemoveOnlyModule(marked, keepData);
      } else {
        result := RemoveOneModule(marked, package, keepData);
      }
    }

    /** The checks of a module uninstall, its state and its mark; `begun` says whether the state was entered. */
    method BeginModuleUninstall(info: Record, package: string, noSkipsKill: bool) returns (result: ErrCode, begun: bool)
      requires slot.info == Some(info) && Known(slot)
      modifies `slot, `calls, `faults, `failedSaves
      ensures Counting()
      ensures slot == if begun then Slot(Some(UNINSTALL_START), Some(info)) else old(slot)
      ensures result == ERR_OK ==> begun && userId in info.users && package in info.modules
      ensures calls == if result == ERR_OK
                       then old(calls) + [Save(SetMark(info, package, UNINSTALL_PACKAGE_START))] else old(calls)
      ensures Undisturbed() && old(slot).state == Some(InstallState.INSTALL_SUCCESS) ==>
                result == if userId !in info.users then USER_NOT_INSTALL_HAP
                          else if package !in info.modules then MISSING_INSTALLED_MODULE else ERR_OK
    {
      begun := false;
      if userId !in info.users { return USER_NOT_INSTALL_HAP, begun; }
      var ok := Attempt();
      if !ok { return FOREIGN_ERROR, begun; }
      if package !in info.modules { return MISSING_INSTALLED_MODULE, begun; }
      ok := UpdateBundleInstallState(UNINSTALL_START);
      if !ok { return SERVICE_ERROR, begun; }
      begun := true;
      if noSkipsKill {
        ok := Attempt();
        if !ok { return KILLING_APP_ERROR, begun; }
      }
      ok := Perform(Save(SetMark(info, package, UNINSTALL_PACKAGE_START)));
      return if ok then ERR_OK else INTERNAL_ERROR, begun;
    }

    /** The last module takes the bundle with it, or only the user when there are several. */
    method RemoveOnlyModule(info: Record, keepData: bool) returns (result: ErrCode)
      requires slot.info.Some? && slot.state == Some(UNINSTALL_START) && userId in info.users
      modifies `slot, `calls, `faults, `failedSaves
      ensures Counting() && old(calls) <= calls
      ensures if |info.users| == 1 then slot == Slot(None, None)
              else slot == old(slot) || slot == RemoveUser(old(slot), userId)
      ensures Undisturbed() ==> result == ERR_OK
      ensures result == ERR_OK && |info.users| != 1 ==>
                && slot.info.value == old(slot).info.value.(users := old(slot).info.value.users - {userId},
                                                            enabled := true)
                && slot.state == old(slot).state && calls == old(calls) + [Save(slot.info.value)]
      ensures Undisturbed() && |info.users| == 1 ==> calls == old(calls) + [RemoveBundleDir, Erase]
    {
      if |info.users| == 1 {
        result := RemoveBundle(keepData);
      } else {
        var next;
        result, next := RemoveBundleUserData(info, keepData);
      }
    }

    method RemoveOneModule(info: Record, package: string, keepData: bool) returns (result: ErrCode)
      requires slot.info.Some? && slot.state == Some(UNINSTALL_START)
      modifies `slot, `calls, `faults, `failedSaves
      ensures Counting()
      ensures slot.info.Some? && slot.state == Some(UNINSTALL_START)
      ensures Undisturbed() ==>
                var left := SetMark(DropModule(info, package).(enabled := true), package, INSTALL_FINISH);
                && result == ERR_OK && slot.info == Some(left)
                && calls == old(calls) + if |info.users| == 1
                        then [RemoveModuleDir(package, false), Save(left)] else [Save(left)]
    {
      var ok := true;
      if |info.users| == 1 {
        ok := Perform(RemoveModuleDir(package, false));
        if ok { ok := Attempt(); }
      } else if !keepData {
        ok := Attempt();
      }
      if !ok { return FOREIGN_ERROR; }
      ghost var saved;
      var next := SetMark(info, package, INSTALL_FINISH);
      ok, next, saved := RemoveModuleInfo(package, next);
      return if ok then ERR_OK else SERVICE_ERROR;
    }

    // ---- Runs ----

    method ResetInstallProperties()
      modifies this
      ensures Reset() && userId == old(userId) && slot == old(slot)
      ensures calls == old(calls) && Undisturbed() && failedSaves == old(failedSaves)
    {
      versionCode, isAppExist, isContainEntry := 0, false, false;
      isFeatureNeedUninstall, hasInstalledInUser := false, false;
      installedModules, uninstallModuleVec, moduleDirs := {}, [], {};
    }

    /** Any run of requests about this bundle, one at a time; `history` says what each did. */
    method Serve(requests: seq<Request>) returns (ghost history: seq<Served>)
      requires Known(slot)
      modifies this
      ensures Known(slot) && |history| == |requests|
      ensures slot == if requests == [] then old(slot) else history[|requests| - 1].after
      ensures forall k :: 0 <= k < |requests| ==> ServedInTurn(history, requests, old(slot), k)
    {
      hide Follows;
      history := [];
      var i := 0;
      while i < |requests|
        invariant 0 <= i <= |requests| && |history| == i && Known(slot)
        invariant slot == if i == 0 then old(slot) else history[i - 1].after
        invariant forall k :: 0 <= k < i ==> ServedInTurn(history, requests, old(slot), k)
      {
        ghost var before, failed := slot, faults;
        ResetInstallProperties();
        userId := requests[i].user;
        var result := ServeOne(requests[i]);
        ghost var served := Served(before, requests[i], result, faults == failed, slot);
        ghost var longer := history + [served];
        forall k | 0 <= k < |longer|
          ensures ServedInTurn(longer, requests, old(slot), k)
        {
          assert k < i ==> ServedInTurn(history, requests, old(slot), k);
        }
        history := longer;
        i := i + 1;
      }
    }

    method ServeOne(r: Request) returns (result: ErrCode)
      requires Known(slot) && Reset() && userId == r.user
      modifies this
      ensures Known(slot) && Follows(Served(old(slot), r, result, Undisturbed(), slot))
    {
      hide PastExtraction, Outcome, UninstallModuleCalls, UninstallBundleCalls, Performed, AllDone;
      ghost var course;
      match r {
        case Install(_, haps, flag, noSkipsKill) => result, course := ProcessBundleInstall(haps, flag, noSkipsKill);
        case Uninstall(_, keepData, noSkipsKill) => result := ProcessBundleUninstall(keepData, noSkipsKill);
        case UninstallModule(_, package, keepData, noSkipsKill) =>
          result := ProcessModuleUninstall(package, keepData, noSkipsKill);
      }
    }
  }
}
