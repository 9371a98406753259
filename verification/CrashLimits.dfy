/**
 Where crash consistency ends: the two stretches of durable calls that no install mark covers, the
 removal of lower-version modules after an update (services/bundlemgr/src/base_bundle_installer.cpp:1808-1850)
 and the rollback of a recorded update (base_bundle_installer.cpp:594-640).
 */
module CrashLimits {
  import opened Basics
  import opened BundleRecords
  import opened BundleSlots
  import opened DurableCalls
  import opened CrashRecovery
  import opened InstallRules

  function Elements(packages: seq<string>): set<string> { set p | p in packages }

  function Dropped(r: Record, p: string): Record { DropModule(r, p).(enabled := true) }

  /** The record once the modules in `order` are removed. */
  function DropAll(r: Record, order: seq<string>): Record
    decreases |order|
  {
    if order == [] then r else Dropped(DropAll(r, order[..|order| - 1]), order[|order| - 1])
  }

  /** The calls that remove them one by one: the directory, then the record. */
  function RemovalCalls(r: Record, order: seq<string>): seq<Call>
    decreases |order|
  {
    if order == [] then []
    else RemovalCalls(r, order[..|order| - 1]) + [RemoveModuleDir(order[|order| - 1], false), Save(DropAll(r, order))]
  }

  lemma RemovalGrows(r: Record, order: seq<string>, p: string)
    ensures DropAll(r, order + [p]) == Dropped(DropAll(r, order), p)
    ensures RemovalCalls(r, order + [p])
            == RemovalCalls(r, order) + [RemoveModuleDir(p, false), Save(Dropped(DropAll(r, order), p))]
  {
    assert (order + [p])[..|order|] == order;
  }

  lemma {:induction false} RemovalStarts(r: Record, order: seq<string>) returns (rest: seq<Call>)
    requires order != []
    ensures RemovalCalls(r, order) == [RemoveModuleDir(order[0], false)] + rest
    decreases |order|
  {
    var k := |order| - 1;
    if k == 0 {
      assert order[..0] == [];
      rest := [Save(DropAll(r, order))];
    } else {
      var front := RemovalStarts(r, order[..k]);
      rest := front + [RemoveModuleDir(order[k], false), Save(DropAll(r, order))];
    }
  }

  lemma {:induction false} DroppedModules(r: Record, order: seq<string>)
    ensures DropAll(r, order).modules == r.modules - Elements(order)
    ensures DropAll(r, order).mark == r.mark
    decreases |order|
  {
    if order != [] {
      var k := |order| - 1;
      DroppedModules(r, order[..k]);
      assert order == order[..k] + [order[k]];
      assert Elements(order) == Elements(order[..k]) + {order[k]};
    }
  }

  // ---- Sequences of calls ----

  lemma {:induction false} DoAppended(d: Durable, root: Root, a: seq<Call>, b: seq<Call>)
    ensures DoAll(d, root, a + b) == DoAll(DoAll(d, root, a), root, b)
    decreases |a|
  {
    if a == [] {
      assert a + b == b;
    } else {
      assert (a + b)[0] == a[0] && (a + b)[1..] == a[1..] + b;
      DoAppended(Do(d, root, a[0]), root, a[1..], b);
    }
  }

  lemma DoLast(d: Durable, root: Root, calls: seq<Call>, c: Call)
    ensures DoAll(d, root, calls + [c]) == Do(DoAll(d, root, calls), root, c)
  {
    DoAppended(d, root, calls, [c]);
    Unroll(DoAll(d, root, calls), root, c, [], d);
    assert [c] + [] == [c];
  }

  lemma {:induction false} CutAppended(d: Durable, root: Root, a: seq<Call>, b: seq<Call>, m: Durable)
    requires Cut(DoAll(d, root, a), root, b, m)
    ensures Cut(d, root, a + b, m)
    decreases |a|
  {
    if a == [] {
      assert a + b == b;
    } else {
      assert (a + b)[0] == a[0] && (a + b)[1..] == a[1..] + b;
      CutAppended(Do(d, root, a[0]), root, a[1..], b, m);
    }
  }

  lemma {:induction false} StoreAfterRemoval(d: Durable, root: Root, r: Record, order: seq<string>)
    requires d.store == Some(r)
    ensures DoAll(d, root, RemovalCalls(r, order)).store == Some(DropAll(r, order))
    decreases |order|
  {
    if order != [] {
      var k := |order| - 1;
      StoreAfterRemoval(d, root, r, order[..k]);
      var last := [RemoveModuleDir(order[k], false), Save(DropAll(r, order))];
      DoAppended(d, root, RemovalCalls(r, order[..k]), last);
      var c, save, front := last[0], last[1], DoAll(d, root, RemovalCalls(r, order[..k]));
      assert last == [c] + [save] && [save] == [save] + [];
      Unroll(front, root, c, [save], front);
      Unroll(Do(front, root, c), root, save, [], front);
    }
  }

  // ---- Removal of lower versions ----

  predicate FinishedMark(s: InstallExceptionStatus) { s == UPDATING_FINISH || s == INSTALL_FINISH }

  /** A record with a finished mark is loaded with the modules it has. */
  lemma FinishedLoadsItsModules(m: Durable, root: Root)
    requires m.store.Some? && FinishedMark(m.store.value.mark.status)
    ensures Recover(m, root).loaded.Some? && Recover(m, root).loaded.value.modules == m.store.value.modules
    ensures SeenAfterBoot(m, root).record.Some? && SeenAfterBoot(m, root).record.value.modules == m.store.value.modules
  {
  }

  /** Recovery does not bring the removed directory back. */
  lemma WindowCode(mid: Durable, root: Root, r: Record, p: string)
    requires RestsWith(mid, root, r) && mid.store == Some(r) && p != r.mark.package
    requires FinishedMark(r.mark.status)
    ensures Dir(root, p, false) !in SeenAfterBoot(Do(mid, root, RemoveModuleDir(p, false)), root).code
  {
    RestsSeen(mid, root, r);
    assert Dir(root, r.mark.package, true) !in mid.code;
  }

  /**
   The window: after the directory of the first module to go is removed and before its record is. `mid`
   is the state after the update itself, with record `q`.
   */
  lemma RemovalWindow(d: Durable, root: Root, r: Record, calls: seq<Call>, mid: Durable, q: Record, order: seq<string>)
    requires RestsWith(d, root, r) && mid == DoAll(d, root, calls)
    requires RestsWith(mid, root, q) && mid.store == Some(q) && FinishedMark(q.mark.status)
    requires order != [] && order[0] in r.modules && order[0] in q.modules && order[0] != q.mark.package
    ensures !CrashConsistent(d, root, calls + RemovalCalls(q, order))
  {
    var p, all := order[0], calls + RemovalCalls(q, order);
    var c := RemoveModuleDir(p, false);
    var m := Do(mid, root, c);
    var rest := RemovalStarts(q, order);
    assert Cut(mid, root, [c] + rest, m) by { Unroll(mid, root, c, rest, m); }
    CutAppended(d, root, calls, [c] + rest, m);
    DoAppended(d, root, calls, RemovalCalls(q, order));
    StoreAfterRemoval(mid, root, q, order);
    DroppedModules(q, order);
    FinishedLoadsItsModules(m, root);
    FinishedLoadsItsModules(DoAll(d, root, all), root);
    assert p in Elements(order);
    RestsSeen(d, root, r);
    WindowCode(mid, root, q, p);
    assert Dir(root, p, false) in d.code;
    assert !Consistent(m, root, d, DoAll(d, root, all));
  }

  /** The durable calls of a request, with the modules removed afterwards in `order`. */
  function RequestCalls(r: Record, haps: seq<Hap>, t: Terms, order: seq<string>): seq<Call>
    requires Fold(Start(r.(enabled := false)), haps, t).Ok?
  {
    var q := Fold(Start(r.(enabled := false)), haps, t).value;
    q.calls + q.renames + RemovalCalls(q.record, order)
  }

  /** The durable calls of a first install: those of its first package, of the others, and the renames. */
  function FreshCalls(marked: Record, first: Record, haps: seq<Hap>, t: Terms): seq<Call>
    requires haps != [] && Fold(Start(first.(enabled := false)), haps[1..], t).Ok?
  {
    var h, q := haps[0], Fold(Start(first.(enabled := false)), haps[1..], t).value;
    [Save(marked), MakeBundleDir, Extract(h.package, false, h.version), Save(first)]
    + q.calls + [Rename(h.package)] + q.renames
  }

  /** Every cut of the calls recovers to one of the two ends. */
  ghost predicate CrashConsistent(d: Durable, root: Root, calls: seq<Call>) {
    forall m :: Cut(d, root, calls, m) ==> Consistent(m, root, d, DoAll(d, root, calls))
  }

  /** The state in which an update or addition itself ends. */
  lemma RequestEnds(d: Durable, root: Root, r: Record, h: Hap, t: Terms)
    requires RestsWith(d, root, r) && Fold(Start(r.(enabled := false)), [h], t).Ok? && !OnlyCreatesUser(r, h, t)
    ensures var q := Fold(Start(r.(enabled := false)), [h], t).value;
            var mid := DoAll(d, root, q.calls + q.renames);
            && RestsWith(mid, root, q.record) && mid.store == Some(q.record)
            && q.record.mark.package == h.package && FinishedMark(q.record.mark.status)
            && r.modules.Keys <= q.record.modules.Keys
  {
    hide Cut, Consistent, AtRest, Recover, RestsWith;
    RestsSeen(d, root, r);
    var q := Fold(Start(r.(enabled := false)), [h], t).value;
    assert [h][0] == h && [h][1..] == [];
    var mid := DoAll(d, root, q.calls + q.renames);
    EndIsCut(d, root, q.calls + q.renames);
    OnePackageRequestIsCrashConsistent(d, root, r, h, t, mid);
    if h.package in r.modules {
      UpdateFootprint(r, h, t, []);
      assert q.calls + q.renames == UpdateCalls(r, q.record, h.package, h.version);
      Unroll4(d, root, Save(MarkedFor(r, h.package, UPDATING_EXISTED_START)), Extract(h.package, true, h.version),
              Save(q.record), Rename(h.package), mid);
    } else {
      AddFootprint(r, h, t, []);
      assert q.calls + q.renames == AddCalls(r, q.record, h.package, h.version);
      Unroll4(d, root, Save(MarkedFor(r, h.package, UPDATING_NEW_START)), Extract(h.package, false, h.version),
              Save(q.record), Rename(h.package), mid);
    }
  }

  /** Without removals the request is consistent, with the first of them it is not. */
  lemma RequestIsConsistentUnlessItRemoves(d: Durable, root: Root, r: Record, h: Hap, t: Terms, order: seq<string>)
    requires RestsWith(d, root, r) && Fold(Start(r.(enabled := false)), [h], t).Ok?
    requires order != [] ==> !OnlyCreatesUser(r, h, t)
    requires forall k :: 0 <= k < |order| ==> order[k] in r.modules && order[k] != h.package
    ensures CrashConsistent(d, root, RequestCalls(r, [h], t, order)) <==> order == []
  {
    hide Cut, DoAll, Consistent, RestsWith, Fold, OnlyCreatesUser;
    var q := Fold(Start(r.(enabled := false)), [h], t).value;
    var calls := q.calls + q.renames;
    if order == [] {
      assert RequestCalls(r, [h], t, order) == calls;
      forall m | Cut(d, root, calls, m)
        ensures Consistent(m, root, d, DoAll(d, root, calls))
      {
        OnePackageRequestIsCrashConsistent(d, root, r, h, t, m);
      }
    } else {
      RequestEnds(d, root, r, h, t);
      RemovalWindow(d, root, r, calls, DoAll(d, root, calls), q.record, order);
    }
  }

  /**
   The exact condition for a request of one package for an installed bundle, with `order` listing what
   `UninstallLowerVersionFeature` removes: the request is crash consistent if and only if its version is not higher,
   or the bundle has no other module.
   */
  lemma RequestIsCrashConsistentIff(d: Durable, root: Root, r: Record, h: Hap, t: Terms, order: seq<string>)
    requires RestsWith(d, root, r) && t.version == h.version && Fold(Start(r.(enabled := false)), [h], t).Ok?
    requires Elements(order) == if h.version > r.version then r.modules.Keys - {h.package} else {}
    ensures CrashConsistent(d, root, RequestCalls(r, [h], t, order))
            <==> h.version <= r.version || r.modules.Keys <= {h.package}
  {
    forall k | 0 <= k < |order|
      ensures order[k] in r.modules && order[k] != h.package
    {
      assert order[k] in Elements(order);
    }
    RequestIsConsistentUnlessItRemoves(d, root, r, h, t, order);
    if order == [] { assert Elements(order) == {}; }
  }

  // ---- Rollback ----

  /** The calls of an update that fails once its record is saved, and of the rollback that follows. */
  function RolledBackUpdateCalls(r: Record, updated: Record, restored: Record, p: string, v: nat): seq<Call> {
    [Save(MarkedFor(r, p, UPDATING_EXISTED_START)), Extract(p, true, v), Save(updated),
     RemoveModuleDir(p, true), Save(restored)]
  }

  /** A finished record over code that matches some record: recovery moves nothing. */
  lemma NothingStaged(m: Durable, root: Root, r: Record)
    requires m.store.Some? && FinishedMark(m.store.value.mark.status) && m.code == CodeOf(r, root)
    ensures SeenAfterBoot(m, root) == View(Some(Unmarked(m.store.value)), m.code)
  {
    assert Dir(root, m.store.value.mark.package, true) !in m.code;
  }

  /**
   The rollback of an update is never crash consistent: it removes the staged directory while the record still
   announces a finished update. Cut in the middle of the removal, recovery gives the half-deleted directory the
   module's name, over the good code, whatever record the rollback was going to save.
   */
  lemma RollbackWindow(d: Durable, root: Root, r: Record, updated: Record, restored: Record, p: string,
                       module_: Module)
    requires RestsWith(d, root, r) && p in r.modules && IsUpdateOf(updated, r, p, module_)
    requires FinishedMark(restored.mark.status)
    ensures var m := Durable(Some(updated), d.code[Dir(root, p, true) := Partial]);
            var calls := RolledBackUpdateCalls(r, updated, restored, p, module_.version);
            && Cut(d, root, calls, m)
            && SeenAfterBoot(m, root).code == d.code[Dir(root, p, false) := Partial]
            && !CrashConsistent(d, root, calls)
  {
    hide Cut, DoAll, RestsWith;
    var tmp, v := Dir(root, p, true), module_.version;
    var m, calls := Durable(Some(updated), d.code[tmp := Partial]), RolledBackUpdateCalls(r, updated, restored, p, v);
    RestsSeen(d, root, r);
    assert tmp !in d.code;
    assert d.code[tmp := Full(v)][tmp := Partial] == m.code && d.code[tmp := Full(v)] - {tmp} == d.code;
    Unroll5(d, root, Save(MarkedFor(r, p, UPDATING_EXISTED_START)), Extract(p, true, v), Save(updated),
            RemoveModuleDir(p, true), Save(restored), m);
    assert Renamed(m.code, root, p) == d.code[Dir(root, p, false) := Partial];
    NothingStaged(Durable(Some(restored), d.code), root, r);
    assert d.code[Dir(root, p, false)] == Full(r.modules[p].version);
    assert !Consistent(m, root, d, DoAll(d, root, calls));
  }

  /** The calls of an addition that fails once its record is saved, and of the rollback that follows. */
  function RolledBackAddCalls(r: Record, extended: Record, restored: Record, p: string, v: nat): seq<Call> {
    [Save(MarkedFor(r, p, UPDATING_NEW_START)), Extract(p, false, v), Save(extended),
     RemoveModuleDir(p, false), Save(restored)]
  }

  /**
   Nor is the rollback of an addition: once the directory is removed, a crash boots with a record of the module
   and no code for it.
   */
  lemma AddRollbackWindow(d: Durable, root: Root, r: Record, extended: Record, restored: Record, p: string,
                          module_: Module)
    requires RestsWith(d, root, r) && p !in r.modules && IsExtensionOf(extended, r, p, module_)
    requires FinishedMark(restored.mark.status) && p !in restored.modules
    ensures var m := Durable(Some(extended), d.code);
            var calls := RolledBackAddCalls(r, extended, restored, p, module_.version);
            && Cut(d, root, calls, m)
            && SeenAfterBoot(m, root) == View(Some(Unmarked(extended)), d.code)
            && !CrashConsistent(d, root, calls)
  {
    hide Recover, RestsWith, Cut, DoAll;
    var dir, v := Dir(root, p, false), module_.version;
    var m, calls := Durable(Some(extended), d.code), RolledBackAddCalls(r, extended, restored, p, v);
    RestsSeen(d, root, r);
    WithoutNew(d.code, dir, v);
    Unroll5(d, root, Save(MarkedFor(r, p, UPDATING_NEW_START)), Extract(p, false, v), Save(extended),
            RemoveModuleDir(p, false), Save(restored), m);
    NothingStaged(m, root, r);
    NothingStaged(Durable(Some(restored), d.code), root, r);
    assert p in Unmarked(extended).modules && p !in Unmarked(restored).modules && p !in Unmarked(r).modules;
    assert !Consistent(m, root, d, DoAll(d, root, calls));
  }

  // ---- Rollback of one package ----

  /** How far the processing of a package came; `cleared` when a guard took the new directory away again. */
  datatype Reached = NotMarked | Marked | Staged(cleared: bool) | Recorded

  predicate IsStaged(reached: Reached) { reached.Staged? || reached.Recorded? }

  /** The record saved for package `h` of a request. */
  function SavedRecord(r: Record, h: Hap): Record {
    if h.package in r.modules then UpdatedRecord(r, h) else ExtendedRecord(r, h)
  }

  /** The calls of a package that got that far; `r` is the installer's copy of the record. */
  function PackageCalls(r: Record, h: Hap, reached: Reached): seq<Call> {
    var there := h.package in r.modules;
    var mark := Save(SetMark(r, h.package, if there then UPDATING_EXISTED_START else UPDATING_NEW_START));
    var extract := Extract(h.package, there, h.version);
    match reached
    case NotMarked => []
    case Marked => [mark]
    case Staged(cleared) => [mark, extract] + if cleared && !there then [RemoveModuleDir(h.package, false)] else []
    case Recorded => [mark, extract, Save(SavedRecord(r, h))]
  }

  /** The record a rollback saves for one package, from the one in memory. */
  function PutBack(info: Record, old_: Record, package: string): Record {
    if package in old_.modules then Updated(info, old_, package) else DropModule(info, package).(enabled := true)
  }

  /** The rollback of that package; installd refuses to remove a directory that was never extracted. */
  function RollbackCalls(r: Record, h: Hap, reached: Reached): seq<Call> {
    var info := if reached.Recorded? then SavedRecord(r, h) else r;
    (if h.package in r.modules then [RemoveModuleDir(h.package, true)]
     else if IsStaged(reached) then [RemoveModuleDir(h.package, false)] else [])
    + [Save(PutBack(info.(enabled := false), r, h.package))]
  }

  /** A request of one package that fails after getting that far, with its rollback. */
  function RolledBackCalls(r: Record, h: Hap, reached: Reached): seq<Call> {
    var copy := r.(enabled := false);
    PackageCalls(copy, h, reached) + RollbackCalls(copy, h, reached)
  }

  lemma PutBackUnrecorded(r: Record, package: string)
    requires r.enabled
    ensures PutBack(r.(enabled := false), r.(enabled := false), package) == r
  {
    if package in r.modules {
      assert MergeModules(r.modules, r.modules, package) == r.modules;
    } else {
      assert r.modules - {package} == r.modules;
    }
  }

  predicate OnlyStages(calls: seq<Call>, package: string, tmp: bool) {
    forall c :: c in calls ==>
      c == RemoveModuleDir(package, tmp) || (c.Extract? && c.package == package && c.tmp == tmp)
  }

  /** While only the staged directory changes, a cut leaves the old record and all other code. */
  lemma {:induction false} StagingCuts(d: Durable, root: Root, package: string, tmp: bool, calls: seq<Call>,
                                       end: Record, m: Durable)
    requires OnlyStages(calls, package, tmp)
    requires Cut(d, root, calls + [Save(end)], m)
    ensures var dir := Dir(root, package, tmp);
            || (m.store == d.store && m.code - {dir} == d.code - {dir})
            || m == DoAll(d, root, calls + [Save(end)])
    decreases |calls|
  {
    if calls == [] {
      assert calls + [Save(end)] == [Save(end)] + [];
      Unroll(d, root, Save(end), [], m);
    } else {
      var c, rest := calls[0], calls[1..];
      assert calls + [Save(end)] == [c] + (rest + [Save(end)]);
      assert c in calls && forall x :: x in rest ==> x in calls;
      Unroll(d, root, c, rest + [Save(end)], m);
      if !Mid(d, root, c, m) { StagingCuts(Do(d, root, c), root, package, tmp, rest, end, m); }
    }
  }

  lemma {:induction false} StagingTouchesOne(d: Durable, root: Root, package: string, tmp: bool, calls: seq<Call>)
    requires OnlyStages(calls, package, tmp)
    ensures DoAll(d, root, calls).code - {Dir(root, package, tmp)} == d.code - {Dir(root, package, tmp)}
    decreases |calls|
  {
    if calls != [] {
      var c := calls[0];
      assert c in calls && forall x :: x in calls[1..] ==> x in calls;
      StagingTouchesOne(Do(d, root, c), root, package, tmp, calls[1..]);
    }
  }

  lemma EndsWithout(d: Durable, root: Root, package: string, tmp: bool, calls: seq<Call>)
    requires OnlyStages(calls, package, tmp) && calls != [] && calls[|calls| - 1].RemoveModuleDir?
    ensures Dir(root, package, tmp) !in DoAll(d, root, calls).code
  {
    hide DoAll;
    var front, c := calls[..|calls| - 1], calls[|calls| - 1];
    assert calls == front + [c] && c in calls;
    DoLast(d, root, front, c);
  }

  lemma DoNothing(d: Durable, root: Root)
    ensures DoAll(d, root, []) == d
  {
  }

  lemma StagingEnds(d: Durable, root: Root, package: string, tmp: bool, calls: seq<Call>, end: Record)
    requires OnlyStages(calls, package, tmp) && Dir(root, package, tmp) !in d.code
    requires calls != [] ==> calls[|calls| - 1].RemoveModuleDir?
    ensures DoAll(d, root, calls + [Save(end)]) == Durable(Some(end), d.code)
  {
    hide DoAll;
    var dir, staged := Dir(root, package, tmp), DoAll(d, root, calls);
    DoLast(d, root, calls, Save(end));
    StagingTouchesOne(d, root, package, tmp, calls);
    if calls == [] {
      DoNothing(d, root);
    } else {
      EndsWithout(d, root, package, tmp, calls);
      assert staged.code == staged.code - {dir};
    }
    assert d.code == d.code - {dir};
  }

  /** Under the mark of an update or addition, staging and unstaging are repaired, whatever becomes of the staging. */
  lemma MarkedRollbackIsConsistent(d: Durable, root: Root, r: Record, p: string, tmp: bool, calls: seq<Call>)
    requires RestsWith(d, root, r) && Closed(r.mark.status) && (tmp || p !in r.modules)
    requires OnlyStages(calls, p, tmp) && (calls != [] ==> calls[|calls| - 1].RemoveModuleDir?)
    ensures var mark := Save(MarkedFor(r, p, if tmp then UPDATING_EXISTED_START else UPDATING_NEW_START));
            CrashConsistent(d, root, [mark] + (calls + [Save(r)]))
  {
    hide Cut, DoAll, RestsWith, OnlyStages;
    var marked := MarkedFor(r, p, if tmp then UPDATING_EXISTED_START else UPDATING_NEW_START);
    var rest, dir, e := calls + [Save(r)], Dir(root, p, tmp), d.(store := Some(marked));
    RestsSeen(d, root, r);
    assert dir !in d.code;
    assert d.code - {dir} == d.code;
    StagingEnds(e, root, p, tmp, calls, r);
    var post := Durable(Some(r), d.code);
    SavedRests(r, root);
    RestsSeen(post, root, r);
    assert DoAll(d, root, [Save(marked)] + rest) == post by { Unroll(d, root, Save(marked), rest, d); }
    forall m | Cut(d, root, [Save(marked)] + rest, m)
      ensures Consistent(m, root, d, post)
    {
      Unroll(d, root, Save(marked), rest, m);
      if m == d {
        RestSeen(d, root) by { RestsAtRest(d, root, r); }
      } else if m == post {
        RestSeen(post, root) by { RestsAtRest(post, root, r); }
      } else {
        if m != e { StagingCuts(e, root, p, tmp, calls, r, m); }
        StagingRemoved(m, root, marked, dir, d.code);
      }
    }
  }

  /** A rollback before the mark is saved only puts the same record back. */
  lemma UnmarkedRollbackIsConsistent(d: Durable, root: Root, r: Record, h: Hap)
    requires RestsWith(d, root, r) && Closed(r.mark.status)
    ensures CrashConsistent(d, root, RolledBackCalls(r, h, NotMarked))
  {
    hide RestsWith;
    RestsSeen(d, root, r);
    PutBackUnrecorded(r, h.package);
    var tmp, post := Dir(root, h.package, true), Durable(Some(r), d.code);
    assert tmp !in d.code;
    assert d.code - {tmp} == d.code;
    SavedRests(r, root);
    RestsSeen(post, root, r);
    RestSeen(d, root) by { RestsAtRest(d, root, r); }
    RestSeen(post, root) by { RestsAtRest(post, root, r); }
    var calls := RolledBackCalls(r, h, NotMarked);
    var c := RemoveModuleDir(h.package, true);
    forall m
      ensures Cut(d, root, calls, m) ==> m == d || m == post
      ensures DoAll(d, root, calls) == post
    {
      Unroll(d, root, Save(r), [], m);
      Unroll(d, root, c, [Save(r)], m);
      assert [Save(r)] + [] == [Save(r)] && [] + [Save(r)] == [Save(r)];
      assert calls == if h.package in r.modules then [c] + [Save(r)] else [Save(r)];
    }
  }

  lemma SavedAndPutBack(r: Record, h: Hap)
    requires h.package != ""
    ensures var saved := SavedRecord(r.(enabled := false), h);
            var restored := PutBack(saved.(enabled := false), r.(enabled := false), h.package);
            && FinishedMark(restored.mark.status)
            && if h.package in r.modules then IsUpdateOf(saved, r, h.package, ModuleOf(h))
               else IsExtensionOf(saved, r, h.package, ModuleOf(h)) && h.package !in restored.modules
  {
    var saved := SavedRecord(r.(enabled := false), h);
    assert saved.modules == r.modules[h.package := ModuleOf(h)];
  }

  /** Once the new record is saved, both rollbacks have a window. */
  lemma RecordedRollbackIsNot(d: Durable, root: Root, r: Record, h: Hap)
    requires RestsWith(d, root, r) && h.package != ""
    ensures !CrashConsistent(d, root, RolledBackCalls(r, h, Recorded))
  {
    hide RestsWith, CrashConsistent, Cut, SavedRecord, PutBack;
    var copy, p := r.(enabled := false), h.package;
    var saved := SavedRecord(copy, h);
    var restored := PutBack(saved.(enabled := false), copy, p);
    SavedAndPutBack(r, h);
    if p in r.modules {
      RollbackWindow(d, root, r, saved, restored, p, ModuleOf(h));
      assert RolledBackCalls(r, h, Recorded) == RolledBackUpdateCalls(r, saved, restored, p, h.version);
    } else {
      AddRollbackWindow(d, root, r, saved, restored, p, ModuleOf(h));
      assert RolledBackCalls(r, h, Recorded) == RolledBackAddCalls(r, saved, restored, p, h.version);
    }
  }

  /**
   The exact condition for a failed request of one package, update or addition, wherever it failed: with its rollback
   it is crash consistent if and only if the new record had not been saved.
   */
  lemma RolledBackIsConsistentIff(d: Durable, root: Root, r: Record, h: Hap, reached: Reached)
    requires RestsWith(d, root, r) && Closed(r.mark.status) && h.package != ""
    ensures CrashConsistent(d, root, RolledBackCalls(r, h, reached)) <==> !reached.Recorded?
  {
    hide RestsWith, CrashConsistent;
    if reached.Recorded? {
      RecordedRollbackIsNot(d, root, r, h);
    } else if reached.NotMarked? {
      UnmarkedRollbackIsConsistent(d, root, r, h);
    } else {
      RestsSeen(d, root, r);
      PutBackUnrecorded(r, h.package);
      var there, p := h.package in r.modules, h.package;
      var extract, remove := Extract(p, there, h.version), RemoveModuleDir(p, there);
      var calls := if reached.Marked? then (if there then [remove] else [])
                   else if reached.cleared && !there then [extract, remove, remove] else [extract, remove];
      MarkedRollbackIsConsistent(d, root, r, p, there, calls);
      var mark := Save(MarkedFor(r, p, if there then UPDATING_EXISTED_START else UPDATING_NEW_START));
      assert RolledBackCalls(r, h, reached) == [mark] + (calls + [Save(r)]);
    }
  }

  // ---- A failed rename among several ----

  function CodeAt(d: Durable, x: Dir): Option<Code> {
    if x in d.code then Some(d.code[x]) else None
  }

  /** The calls on directories only. */
  function DirectoryCalls(calls: seq<Call>): seq<Call>
    decreases |calls|
  {
    if calls == [] then []
    else (if calls[0].Save? || calls[0].Erase? then [] else [calls[0]]) + DirectoryCalls(calls[1..])
  }

  /** The code of a package in `there` is staged, that of another is put in its place at once. */
  function ExtractsOf(packages: seq<string>, there: set<string>, v: nat): seq<Call> {
    if packages == [] then []
    else
      var p := packages[|packages| - 1];
      ExtractsOf(packages[..|packages| - 1], there, v) + [Extract(p, p in there, v)]
  }

  function RenamesOf(packages: seq<string>): seq<Call> {
    if packages == [] then [] else RenamesOf(packages[..|packages| - 1]) + [Rename(packages[|packages| - 1])]
  }

  /** What the rollback of the packages does to the directories. */
  function UnstagesOf(packages: seq<string>, there: set<string>): seq<Call> {
    if packages == [] then []
    else
      var p := packages[|packages| - 1];
      UnstagesOf(packages[..|packages| - 1], there) + [RemoveModuleDir(p, p in there)]
  }

  lemma {:induction false} SavesTouchNoCode(d: Durable, e: Durable, root: Root, calls: seq<Call>)
    requires d.code == e.code
    ensures DoAll(d, root, calls).code == DoAll(e, root, DirectoryCalls(calls)).code
    decreases |calls|
  {
    if calls != [] {
      var c, rest := calls[0], calls[1..];
      if c.Save? || c.Erase? {
        assert DirectoryCalls(calls) == DirectoryCalls(rest);
        SavesTouchNoCode(Do(d, root, c), e, root, rest);
      } else {
        Unroll(e, root, c, DirectoryCalls(rest), e);
        SavesTouchNoCode(Do(d, root, c), Do(e, root, c), root, rest);
      }
    }
  }

  lemma LastOf(packages: seq<string>)
    requires packages != []
    ensures var front, p := packages[..|packages| - 1], packages[|packages| - 1];
            forall x :: x in packages <==> x in front || x == p
  {
    assert packages == packages[..|packages| - 1] + [packages[|packages| - 1]];
  }

  lemma {:induction false} ExtractedCode(d: Durable, root: Root, packages: seq<string>, there: set<string>, v: nat)
    ensures forall x :: CodeAt(DoAll(d, root, ExtractsOf(packages, there, v)), x)
                        == if x.root == root && x.package in packages && (x.tmp <==> x.package in there)
                           then Some(Full(v)) else CodeAt(d, x)
    decreases |packages|
  {
    if packages != [] {
      var front, p := packages[..|packages| - 1], packages[|packages| - 1];
      LastOf(packages);
      ExtractedCode(d, root, front, there, v);
      DoLast(d, root, ExtractsOf(front, there, v), Extract(p, p in there, v));
    }
  }

  /** The code of the package is staged, or it is in place and nothing is. */
  predicate Renamable(d: Durable, root: Root, p: string, v: nat) {
    || CodeAt(d, Dir(root, p, true)) == Some(Full(v))
    || (CodeAt(d, Dir(root, p, true)) == None && CodeAt(d, Dir(root, p, false)) == Some(Full(v)))
  }

  lemma {:induction false} RenamedCode(d: Durable, root: Root, packages: seq<string>, v: nat)
    requires forall p :: p in packages ==> Renamable(d, root, p, v)
    ensures forall x :: CodeAt(DoAll(d, root, RenamesOf(packages)), x)
                        == if x.root == root && x.package in packages then (if x.tmp then None else Some(Full(v)))
                           else CodeAt(d, x)
    decreases |packages|
  {
    if packages != [] {
      var front, p := packages[..|packages| - 1], packages[|packages| - 1];
      LastOf(packages);
      RenamedCode(d, root, front, v);
      DoLast(d, root, RenamesOf(front), Rename(p));
      var before := DoAll(d, root, RenamesOf(front));
      assert Renamable(d, root, p, v) && Renamable(before, root, p, v);
    }
  }

  lemma {:induction false} UnstagedCode(d: Durable, root: Root, packages: seq<string>, there: set<string>)
    ensures forall x :: CodeAt(DoAll(d, root, UnstagesOf(packages, there)), x)
                        == if x.root == root && x.package in packages && (x.tmp <==> x.package in there) then None
                           else CodeAt(d, x)
    decreases |packages|
  {
    if packages != [] {
      var front, p := packages[..|packages| - 1], packages[|packages| - 1];
      LastOf(packages);
      UnstagedCode(d, root, front, there);
      DoLast(d, root, UnstagesOf(front, there), RemoveModuleDir(p, p in there));
    }
  }

  /** All packages of a request are extracted, the first `done` of them are renamed, and then the rollback runs. */
  predicate FailsAtRename(calls: seq<Call>, packages: seq<string>, there: set<string>, done: nat, v: nat)
    requires done <= |packages|
  {
    DirectoryCalls(calls)
    == ExtractsOf(packages, there, v) + RenamesOf(packages[..done]) + UnstagesOf(packages, there)
  }

  lemma CallsInThree(d: Durable, root: Root, packages: seq<string>, there: set<string>, done: nat, v: nat,
                     calls: seq<Call>)
    requires done <= |packages| && FailsAtRename(calls, packages, there, done, v)
    ensures var renamed := DoAll(DoAll(d, root, ExtractsOf(packages, there, v)), root, RenamesOf(packages[..done]));
            DoAll(d, root, calls).code == DoAll(renamed, root, UnstagesOf(packages, there)).code
  {
    SavesTouchNoCode(d, d, root, calls);
    DoAppended(d, root, ExtractsOf(packages, there, v) + RenamesOf(packages[..done]), UnstagesOf(packages, there));
    DoAppended(d, root, ExtractsOf(packages, there, v), RenamesOf(packages[..done]));
  }

  lemma CodeAfterFailedRename(d: Durable, root: Root, r: Record, packages: seq<string>, done: nat, v: nat,
                              calls: seq<Call>)
    requires d.code == CodeOf(r, root)
    requires done <= |packages| && FailsAtRename(calls, packages, r.modules.Keys, done, v)
    ensures forall x :: CodeAt(DoAll(d, root, calls), x)
                        == if x.root == root && !x.tmp && x.package in packages[..done] && x.package in r.modules
                           then Some(Full(v)) else CodeAt(d, x)
  {
    hide DoAll, FailsAtRename, ExtractsOf, RenamesOf, UnstagesOf, DirectoryCalls;
    var there := r.modules.Keys;
    var staged := DoAll(d, root, ExtractsOf(packages, there, v));
    var renamed := DoAll(staged, root, RenamesOf(packages[..done]));
    var end := DoAll(renamed, root, UnstagesOf(packages, there));
    ExtractedCode(d, root, packages, there, v);
    forall p | p in packages[..done]
      ensures Renamable(staged, root, p, v)
    {
      assert p !in there ==> Dir(root, p, true) !in d.code;
    }
    RenamedCode(staged, root, packages[..done], v);
    UnstagedCode(renamed, root, packages, there);
    assert DoAll(d, root, calls).code == end.code by { CallsInThree(d, root, packages, there, done, v, calls); }
    forall x
      ensures CodeAt(DoAll(d, root, calls), x)
              == if x.root == root && !x.tmp && x.package in packages[..done] && x.package in r.modules
                 then Some(Full(v)) else CodeAt(d, x)
    {
      assert CodeAt(DoAll(d, root, calls), x) == CodeAt(end, x);
      if x.tmp || x.package !in there { assert x !in d.code; }
    }
  }

  lemma SameCode(d: Durable, e: Durable)
    requires forall x :: CodeAt(d, x) == CodeAt(e, x)
    ensures d.code == e.code
  {
    forall x
      ensures (x in d.code <==> x in e.code) && (x in d.code ==> d.code[x] == e.code[x])
    {
      assert CodeAt(d, x) == CodeAt(e, x);
    }
  }

  /**
   Rollback does not take finished renames back. When a rename fails, the disk agrees with the restored record if and
   only if every installed package renamed before is reinstalled at the version it had.
   */
  lemma FailedRenameAgreesIff(d: Durable, root: Root, r: Record, packages: seq<string>, done: nat, v: nat,
                              calls: seq<Call>)
    requires d.code == CodeOf(r, root)
    requires done <= |packages| && FailsAtRename(calls, packages, r.modules.Keys, done, v)
    ensures DoAll(d, root, calls).code == CodeOf(r, root)
            <==> forall p :: p in packages[..done] && p in r.modules ==> r.modules[p].version == v
  {
    hide DoAll, FailsAtRename;
    var end := DoAll(d, root, calls);
    CodeAfterFailedRename(d, root, r, packages, done, v, calls);
    forall p | p in packages[..done] && p in r.modules
      ensures CodeAt(end, Dir(root, p, false)) == Some(Full(v))
      ensures CodeAt(d, Dir(root, p, false)) == Some(Full(r.modules[p].version))
    {
    }
    if forall p :: p in packages[..done] && p in r.modules ==> r.modules[p].version == v {
      forall x
        ensures CodeAt(end, x) == CodeAt(d, x)
      {
      }
      SameCode(end, d);
    }
  }
}
