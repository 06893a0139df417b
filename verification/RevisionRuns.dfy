/** Whole runs of component events: edits by users, and handlings during which any request may fail. */
module RevisionRuns {
  import opened Wrappers
  import opened Kube
  import opened Sets
  import opened Names
  import opened Revisions

  // ---------- the invariant ----------

  function LatestNumber(c: Component): int {
    if c.latest.None? then 0 else c.latest.value.number
  }

  ghost predicate StoredWell(w: World, name: string)
    requires name in w.store
  {
    var r := w.store[name];
    && 1 <= r.number <= w.highest && name == ConstructRevisionName(w.component.name, r.number)
    && r.data.Some? && r.data.value.name == w.component.name && r.data.value.latest == Some(Revision(name, r.number))
  }

  /** The highest number ever stored is the latest one or, after a status update that failed, one more; in
      that case the extra revision is there to stay. */
  ghost predicate Inv(w: World) {
    var l := LatestNumber(w.component);
    && 0 <= l && (w.component.latest.Some? ==> l >= 1)
    && (w.component.latest.Some? ==> w.component.latest.value.name == ConstructRevisionName(w.component.name, l))
    && (w.highest == l || w.highest == l + 1)
    && (w.highest == l + 1 ==> ConstructRevisionName(w.component.name, l + 1) in w.store)
    && forall name :: name in w.store ==> StoredWell(w, name)
  }

  /** A revision was stored but the component's status never learnt of it. */
  predicate Stuck(w: World) {
    w.highest == LatestNumber(w.component) + 1
  }

  lemma DiffNumber(w: World, getFails: bool)
    requires Inv(w)
    ensures Diff(w.component, w.store, getFails).1 == LatestNumber(w.component)
  {
    if w.component.latest.Some? && w.component.latest.value.name in w.store {
      var name := w.component.latest.value.name;
      assert StoredWell(w, name);
      RevisionNamesOfOneComponent(w.component.name, w.store[name].number, LatestNumber(w.component));
    }
  }

  // ---------- runs ----------

  datatype Event = Edit(spec: Spec) | Handle(f: Faults, apps: seq<seq<string>>)

  ghost predicate Step(w: World, after: World, event: Event, returned: bool, limit: int) {
    match event
    case Edit(spec) => after == w.(component := w.component.(spec := spec)) && !returned
    case Handle(f, apps) => Handled(w, after, returned, limit, f, apps)
  }

  datatype Run = Run(worlds: seq<World>, events: seq<Event>, returned: seq<bool>)

  ghost predicate StepAt(run: Run, limit: int, t: nat)
    requires |run.worlds| == |run.events| + 1 && |run.returned| == |run.events|
  {
    t < |run.events| ==> Step(run.worlds[t], run.worlds[t + 1], run.events[t], run.returned[t], limit)
  }

  ghost predicate IsRun(run: Run, limit: int) {
    && |run.worlds| == |run.events| + 1 && |run.returned| == |run.events|
    && run.worlds[0].component.latest.None? && run.worlds[0].store == map[] && run.worlds[0].highest == 0
    && forall t: nat {:trigger StepAt(run, limit, t)} :: StepAt(run, limit, t)
  }

  // ---------- one handling ----------

  /** What a handling stores, if it stores anything: the number after the latest, which was never used. */
  lemma HandlingStoresTheNext(w: World, after: World, created: bool, limit: int, f: Faults, apps: seq<seq<string>>)
    requires Inv(w) && Handled(w, after, created, limit, f, apps) && after != w
    ensures var next := LatestNumber(w.component) + 1;
            && !Stuck(w) && after.highest == next == w.highest + 1
            && after.component.name == w.component.name && after.component.spec == w.component.spec
            && (created ==> after.component.latest == Some(Revision(ConstructRevisionName(w.component.name, next), next)))
            && (forall name :: name in after.store ==>
                  if name == ConstructRevisionName(w.component.name, next) then
                    after.store[name] == Stored(next, Some(w.component.(latest := Some(Revision(name, next)))))
                  else name in w.store && after.store[name] == w.store[name])
  {
    DiffNumber(w, f.getFails);
  }

  lemma HandledKeepsInv(w: World, after: World, created: bool, limit: int, f: Faults, apps: seq<seq<string>>)
    requires Inv(w) && Handled(w, after, created, limit, f, apps)
    ensures Inv(after) && after.component.name == w.component.name
    ensures LatestNumber(w.component) <= LatestNumber(after.component) && w.highest <= after.highest
  {
    if after != w {
      HandlingStoresTheNext(w, after, created, limit, f, apps);
      DiffNumber(w, f.getFails);
      forall name | name in after.store ensures StoredWell(after, name) {
        if name in w.store { assert StoredWell(w, name); }
      }
    }
  }

  lemma StepKeepsInv(w: World, after: World, event: Event, returned: bool, limit: int)
    requires Inv(w) && Step(w, after, event, returned, limit)
    ensures Inv(after) && after.component.name == w.component.name
    ensures LatestNumber(w.component) <= LatestNumber(after.component) && w.highest <= after.highest
  {
    match event {
      case Edit(_) => assert forall name :: name in w.store ==> (StoredWell(w, name) <==> StoredWell(after, name));
      case Handle(f, apps) => HandledKeepsInv(w, after, returned, limit, f, apps);
    }
  }

  /** In every reachable state the highest number ever stored is the latest one or the latest plus one. */
  lemma {:induction false} RunKeepsInv(run: Run, limit: int, t: nat)
    requires IsRun(run, limit) && t < |run.worlds|
    ensures Inv(run.worlds[t]) && run.worlds[t].component.name == run.worlds[0].component.name
    ensures LatestNumber(run.worlds[t].component) <= run.worlds[t].highest <= LatestNumber(run.worlds[t].component) + 1
  {
    if t > 0 {
      RunKeepsInv(run, limit, t - 1);
      assert StepAt(run, limit, t - 1);
      StepKeepsInv(run.worlds[t - 1], run.worlds[t], run.events[t - 1], run.returned[t - 1], limit);
    }
  }

  /** LatestRevision never goes back. */
  lemma {:induction false} LatestOnlyGrows(run: Run, limit: int, s: nat, t: nat)
    requires IsRun(run, limit) && s <= t < |run.worlds|
    ensures LatestNumber(run.worlds[s].component) <= LatestNumber(run.worlds[t].component)
    ensures run.worlds[s].highest <= run.worlds[t].highest
    decreases t
  {
    if s < t {
      LatestOnlyGrows(run, limit, s, t - 1);
      RunKeepsInv(run, limit, t - 1);
      assert StepAt(run, limit, t - 1);
      StepKeepsInv(run.worlds[t - 1], run.worlds[t], run.events[t - 1], run.returned[t - 1], limit);
    }
  }

  lemma SpecKeptByStep(w: World, after: World, event: Event, returned: bool, limit: int, name: string)
    requires Inv(w) && Step(w, after, event, returned, limit) && name in after.store
    ensures if name in w.store then after.store[name] == w.store[name]
            else after.store[name].number == w.highest + 1
  {
    if event.Handle? && after != w {
      HandlingStoresTheNext(w, after, returned, limit, event.f, event.apps);
      DiffNumber(w, event.f.getFails);
    }
  }

  lemma NumberOf(w: World, name: string)
    requires Inv(w) && name in w.store
    ensures 1 <= w.store[name].number <= w.highest && w.store[name].data.Some?
    ensures name == ConstructRevisionName(w.component.name, w.store[name].number)
  {
    assert StoredWell(w, name);
  }

  lemma SameNumber(v: World, w: World, name: string)
    requires Inv(v) && Inv(w) && v.component.name == w.component.name && name in v.store && name in w.store
    ensures v.store[name].number == w.store[name].number
  {
    NumberOf(v, name);
    NumberOf(w, name);
    RevisionNamesOfOneComponent(v.component.name, v.store[name].number, w.store[name].number);
  }

  /** A name that was there at some time, and is there after a step, was there just before it. */
  lemma StillBound(v: World, w: World, after: World, event: Event, returned: bool, limit: int, name: string)
    requires Inv(v) && Inv(w) && Inv(after) && v.component.name == after.component.name && v.highest <= w.highest
    requires Step(w, after, event, returned, limit) && name in v.store && name in after.store
    ensures name in w.store && after.store[name] == w.store[name]
  {
    SameNumber(v, after, name);
    NumberOf(v, name);
    SpecKeptByStep(w, after, event, returned, limit, name);
  }

  lemma InvInRun(run: Run, limit: int, s: nat, t: nat)
    requires IsRun(run, limit) && s <= t < |run.events|
    ensures Inv(run.worlds[s]) && Inv(run.worlds[t]) && Inv(run.worlds[t + 1])
    ensures run.worlds[s].component.name == run.worlds[t + 1].component.name && run.worlds[s].highest <= run.worlds[t].highest
    ensures Step(run.worlds[t], run.worlds[t + 1], run.events[t], run.returned[t], limit)
  {
    RunKeepsInv(run, limit, s);
    RunKeepsInv(run, limit, t);
    RunKeepsInv(run, limit, t + 1);
    LatestOnlyGrows(run, limit, s, t);
    assert StepAt(run, limit, t);
  }

  lemma StillBoundInRun(run: Run, limit: int, s: nat, t: nat, name: string)
    requires IsRun(run, limit) && s <= t < |run.events| && name in run.worlds[s].store && name in run.worlds[t + 1].store
    ensures name in run.worlds[t].store && run.worlds[t + 1].store[name] == run.worlds[t].store[name]
  {
    InvInRun(run, limit, s, t);
    StillBound(run.worlds[s], run.worlds[t], run.worlds[t + 1], run.events[t], run.returned[t], limit, name);
  }

  /** What was bound at s is, at t, either unchanged or gone, and a name that is gone stays gone. */
  lemma {:induction false} BoundForGood(run: Run, limit: int, s: nat, t: nat, name: string)
    requires IsRun(run, limit) && s <= t < |run.worlds| && name in run.worlds[s].store && name in run.worlds[t].store
    ensures run.worlds[t].store[name] == run.worlds[s].store[name]
    decreases t
  {
    if s < t {
      StillBoundInRun(run, limit, s, t - 1, name);
      BoundForGood(run, limit, s, t - 1, name);
    }
  }

  /** A revision name once bound to a spec is never bound to another: not while it is stored, and not after a
      cleanup has removed it. */
  lemma NamesAreNeverRebound(run: Run, limit: int, s: nat, t: nat, name: string)
    requires IsRun(run, limit) && s < |run.worlds| && t < |run.worlds|
    requires name in run.worlds[s].store && name in run.worlds[t].store
    ensures run.worlds[s].store[name].data.Some? && run.worlds[t].store[name].data.Some?
    ensures run.worlds[s].store[name].data.value.spec == run.worlds[t].store[name].data.value.spec
  {
    RunKeepsInv(run, limit, s);
    NumberOf(run.worlds[s], name);
    if s <= t { BoundForGood(run, limit, s, t, name); } else { BoundForGood(run, limit, t, s, name); }
  }

  // ---------- cleanup ----------

  lemma UnpinnedSize(store: Store, pinned: set<string>)
    ensures |Unpinned(store, pinned)| >= |store| - |pinned|
  {
    assert store.Keys == Unpinned(store, pinned) + (store.Keys * pinned);
    SubsetSize(store.Keys * pinned, pinned);
  }

  lemma DeletedSize(before: Store, after: Store)
    requires after.Keys <= before.Keys
    ensures |after| == |before| - |Deleted(before, after)|
  {
    assert before.Keys == after.Keys + Deleted(before, after);
  }

  /** Of a cleanup: the newest revision survives, even one that is interrupted, if the limit is at least 1. */
  lemma NewestSurvives(before: Store, after: Store, pinned: set<string>, limit: int, f: Faults, newest: string)
    requires CleanedUp(before, after, pinned, limit, f) && limit >= 1
    requires newest in before
    requires forall name :: name in before && name != newest ==> before[name].number < before[newest].number
    ensures newest in after
  {
    if newest !in after {
      assert newest in Deleted(before, after);
      UnpinnedSize(before, pinned);
      assert forall s :: s in Unpinned(after, pinned) ==> s in before && s != newest;
      assert Unpinned(after, pinned) == {};
      assert Unpinned(before, pinned) <= Deleted(before, after);
      SubsetSize(Unpinned(before, pinned), Deleted(before, after));
    }
  }

  /** A cleanup that works to the end leaves at most limit revisions beside the pinned names. */
  lemma CleanupBounds(before: Store, after: Store, pinned: set<string>, limit: int, f: Faults)
    requires CleanedUp(before, after, pinned, limit, f) && limit >= 0 && !f.listFails && f.deletes.None?
    ensures |after| <= limit + |pinned|
  {
    UnpinnedSize(before, pinned);
    DeletedSize(before, after);
  }

  function NamesUpTo(c: string, n: nat): (names: set<string>)
    ensures |names| <= n
  {
    if n == 0 then {} else NamesUpTo(c, n - 1) + {ConstructRevisionName(c, n)}
  }

  lemma {:induction false} InNamesUpTo(c: string, n: nat, k: nat)
    requires 1 <= k <= n
    ensures ConstructRevisionName(c, k) in NamesUpTo(c, n)
  {
    if k < n { InNamesUpTo(c, n - 1, k); }
  }

  lemma StoreIsSmall(w: World)
    requires Inv(w)
    ensures |w.store| <= w.highest
  {
    forall name | name in w.store ensures name in NamesUpTo(w.component.name, w.highest) {
      assert StoredWell(w, name);
      InNamesUpTo(w.component.name, w.highest, w.store[name].number);
    }
    SubsetSize(w.store.Keys, NamesUpTo(w.component.name, w.highest));
  }

  lemma NextIsNewest(w: World, name: string)
    requires Inv(w) && !Stuck(w)
    requires name in w.store
    ensures w.store[name].number < LatestNumber(w.component) + 1
    ensures name != ConstructRevisionName(w.component.name, LatestNumber(w.component) + 1)
  {
    assert StoredWell(w, name);
    RevisionNamesOfOneComponent(w.component.name, w.store[name].number, LatestNumber(w.component) + 1);
  }

  /** The store between a creation and its cleanup. */
  function WithNext(w: World): Store {
    WithRevision(w, LatestNumber(w.component) + 1)
  }

  ghost predicate DistinctNumbers(store: Store) {
    forall d, s :: d in store && s in store && d != s ==> store[d].number != store[s].number
  }

  lemma NumbersAreDistinct(w: World)
    requires Inv(w) && !Stuck(w)
    ensures DistinctNumbers(WithNext(w))
  {
    forall d, s | d in w.store && s in w.store && d != s ensures w.store[d].number != w.store[s].number {
      NumberOf(w, d);
      NumberOf(w, s);
    }
    forall name | name in w.store ensures w.store[name].number < LatestNumber(w.component) + 1 {
      NextIsNewest(w, name);
    }
  }

  /** A handling that returns true has stored the number after the latest, under a name that was free. */
  lemma CreationStores(w: World, after: World, limit: int, f: Faults, apps: seq<seq<string>>)
    requires Inv(w) && Handled(w, after, true, limit, f, apps)
    ensures StoredNext(w, after, true, limit, f, apps, LatestNumber(w.component) + 1)
    ensures !Stuck(w) && ConstructRevisionName(w.component.name, LatestNumber(w.component) + 1) !in w.store
  {
    DiffNumber(w, f.getFails);
  }

  lemma NextIsNewestOfAll(w: World)
    requires Inv(w) && !Stuck(w)
    ensures var next := LatestNumber(w.component) + 1;
            forall name :: name in WithNext(w) && name != ConstructRevisionName(w.component.name, next) ==>
              WithNext(w)[name].number < next
  {
    forall name | name in w.store ensures w.store[name].number < LatestNumber(w.component) + 1 {
      NextIsNewest(w, name);
    }
  }

  ghost predicate Spares(before: Store, after: Store, pinned: set<string>, newest: string) {
    && Deleted(before, after) !! pinned && newest in after
    && forall d, s :: d in Deleted(before, after) && s in Unpinned(after, pinned) ==>
         before[d].number < after[s].number
  }

  lemma CleanupSpares(before: Store, after: Store, pinned: set<string>, limit: int, f: Faults, newest: string)
    requires CleanedUp(before, after, pinned, limit, f) && limit >= 1 && newest in before && DistinctNumbers(before)
    requires forall name :: name in before && name != newest ==> before[name].number < before[newest].number
    ensures Spares(before, after, pinned, newest)
  {
    NewestSurvives(before, after, pinned, limit, f, newest);
  }

  /** Every creation, cleaned up or spared by the gate, keeps the history bounded unless its cleanup fails. */
  lemma HistoryIsBounded(w: World, after: World, limit: int, f: Faults, apps: seq<seq<string>>)
    requires Inv(w) && Handled(w, after, true, limit, f, apps) && limit >= 0
    requires !f.listFails && f.deletes.None?
    ensures |after.store| <= limit + |Pinned(apps)|
  {
    CreationStores(w, after, limit, f, apps);
    HandledKeepsInv(w, after, true, limit, f, apps);
    if limit < LatestNumber(w.component) + 1 {
      CleanupBounds(WithNext(w), after.store, Pinned(apps), limit, f);
    } else {
      StoreIsSmall(after);
    }
  }

  /** And whether or not the cleanup fails on the way: nothing pinned is deleted, nor the revision just
      created, and what is deleted is older than every unpinned revision that survives. */
  lemma CleanupSparesThePinnedAndTheNewest(w: World, after: World, limit: int, f: Faults, apps: seq<seq<string>>)
    requires Inv(w) && Handled(w, after, true, limit, f, apps) && limit >= 1
    ensures Spares(WithNext(w), after.store, Pinned(apps), ConstructRevisionName(w.component.name, LatestNumber(w.component) + 1))
  {
    CreationStores(w, after, limit, f, apps);
    NextIsNewestOfAll(w);
    NumbersAreDistinct(w);
    var next := LatestNumber(w.component) + 1;
    if limit < next {
      CleanupSpares(WithNext(w), after.store, Pinned(apps), limit, f, ConstructRevisionName(w.component.name, next));
    }
  }

  // ---------- what a handling that returns true means ----------

  predicate LatestIsStored(w: World) {
    && w.component.latest.Some? && w.component.latest.value.name in w.store
    && w.store[w.component.latest.value.name].data.Some?
    && w.store[w.component.latest.value.name].data.value.spec == w.component.spec
  }

  /** With a limit of at least 1, a handling that returns true leaves the component's own spec stored under
      its latest revision. */
  lemma TrueMeansStored(w: World, after: World, limit: int, f: Faults, apps: seq<seq<string>>)
    requires Inv(w) && Handled(w, after, true, limit, f, apps) && limit >= 1
    ensures LatestIsStored(after)
  {
    DiffNumber(w, f.getFails);
    CleanupSparesThePinnedAndTheNewest(w, after, limit, f, apps);
    HandlingStoresTheNext(w, after, true, limit, f, apps);
  }

  ghost predicate AlwaysStored(limit: int) {
    forall w, after, f, apps :: Inv(w) && Handled(w, after, true, limit, f, apps) ==> LatestIsStored(after)
  }

  /** With no limit above 0, the cleanup deletes the revision that was just created. */
  lemma NewestIsDeleted(w: World, limit: int, f: Faults) returns (after: World)
    requires w.component.latest.None? && w.store == map[] && w.highest == 0 && limit < 1
    requires f == Faults(false, Works, Works, false, None)
    ensures Handled(w, after, true, limit, f, []) && !LatestIsStored(after)
  {
    after := World(Promoted(w.component, 1), map[], 1);
    var stored, name := WithRevision(w, 1), ConstructRevisionName(w.component.name, 1);
    assert stored.Keys == {name} && |stored| == 1;
    assert Unpinned(stored, {}) == {name} == Deleted(stored, map[]);
    assert CleanedUp(stored, map[], {}, limit, f);
    assert StoredNext(w, after, true, limit, f, [], 1);
  }

  /** A lower limit does not do. */
  lemma LimitMustBePositive(limit: int)
    ensures AlwaysStored(limit) <==> limit >= 1
  {
    if limit >= 1 {
      forall w, after, f, apps | Inv(w) && Handled(w, after, true, limit, f, apps) ensures LatestIsStored(after) {
        TrueMeansStored(w, after, limit, f, apps);
      }
    } else {
      var f := Faults(false, Works, Works, false, None);
      var w := World(Component("c", "s", None), map[], 0);
      var after := NewestIsDeleted(w, limit, f);
      assert Inv(w);
    }
  }

  // ---------- when a revision is called for ----------

  /** The latest revision can be read and unpacked, and holds the spec the component has now. */
  predicate UpToDate(w: World, getFails: bool) {
    && w.component.latest.Some? && !getFails && w.component.latest.value.name in w.store
    && var latest := w.store[w.component.latest.value.name];
       latest.data.Some? && latest.data.value.spec == w.component.spec
  }

  lemma DiffersExactlyWhen(w: World, getFails: bool)
    ensures Diff(w.component, w.store, getFails).0 <==> !UpToDate(w, getFails)
  {
  }

  /** A component whose latest revision holds its spec is left alone, whatever fails. */
  lemma UpToDateIsLeftAlone(w: World, after: World, created: bool, limit: int, f: Faults, apps: seq<seq<string>>)
    requires Handled(w, after, created, limit, f, apps) && UpToDate(w, f.getFails)
    ensures after == w && !created
  {
    DiffersExactlyWhen(w, f.getFails);
  }

  /** Any other gets its revision, if no request fails and the handler is not stuck: one whose spec has changed, one
      without a latest revision, and one whose latest revision cannot be read or unpacked. */
  lemma StoresExactlyWhenNotUpToDate(w: World, after: World, created: bool, limit: int, f: Faults, apps: seq<seq<string>>)
    requires Inv(w) && !Stuck(w) && Handled(w, after, created, limit, f, apps) && f.create.Works? && f.status.Works?
    ensures created <==> !UpToDate(w, f.getFails)
    ensures after.highest == w.highest + if UpToDate(w, f.getFails) then 0 else 1
    ensures created && limit >= 1 ==> LatestIsStored(after) && UpToDate(after, false)
  {
    DiffersExactlyWhen(w, f.getFails);
    DiffNumber(w, f.getFails);
    NextNameIsTakenExactlyWhenStuck(w);
    if created && limit >= 1 { TrueMeansStored(w, after, limit, f, apps); }
  }

  /** An edited component gets exactly one new revision, however often it is handled afterwards without failures. */
  lemma EditGetsOneRevision(w: World, spec: Spec, first: World, second: World, limit: int, apps: seq<seq<string>>, a: bool, b: bool)
    requires Inv(w) && !Stuck(w) && limit >= 1 && UpToDate(w, false) && spec != w.component.spec
    requires var f := Faults(false, Works, Works, false, None);
             && Handled(w.(component := w.component.(spec := spec)), first, a, limit, f, apps)
             && Handled(first, second, b, limit, f, apps)
    ensures a && !b && second == first && first.highest == w.highest + 1
    ensures LatestIsStored(first) && first.component.spec == spec
  {
    var edited, f := w.(component := w.component.(spec := spec)), Faults(false, Works, Works, false, None);
    StepKeepsInv(w, edited, Edit(spec), false, limit);
    StoresExactlyWhenNotUpToDate(edited, first, a, limit, f, apps);
    HandledKeepsInv(edited, first, a, limit, f, apps);
    HandlingStoresTheNext(edited, first, a, limit, f, apps);
    UpToDateIsLeftAlone(first, second, b, limit, f, apps);
  }

  // ---------- the state without progress ----------

  /** The name of the next revision is taken exactly when the handler is stuck. */
  lemma NextNameIsTakenExactlyWhenStuck(w: World)
    requires Inv(w)
    ensures ConstructRevisionName(w.component.name, LatestNumber(w.component) + 1) in w.store <==> Stuck(w)
  {
    var name := ConstructRevisionName(w.component.name, LatestNumber(w.component) + 1);
    if name in w.store {
      NumberOf(w, name);
      RevisionNamesOfOneComponent(w.component.name, w.store[name].number, LatestNumber(w.component) + 1);
    }
  }

  /** If no request fails, a changed component gets its revision exactly when the handler is not stuck. */
  lemma ProgressExactlyWhenNotStuck(w: World, after: World, created: bool, limit: int, f: Faults, apps: seq<seq<string>>)
    requires Inv(w) && Handled(w, after, created, limit, f, apps)
    requires f.create.Works? && f.status.Works? && !UpToDate(w, f.getFails)
    ensures created <==> !Stuck(w)
  {
    DiffersExactlyWhen(w, f.getFails);
    DiffNumber(w, f.getFails);
    NextNameIsTakenExactlyWhenStuck(w);
  }

  /** The handler gets stuck exactly by storing a revision and not hearing that its status update worked: either the
      create took effect although an error came back, or the status update was turned down. */
  lemma GetsStuckExactlyWhen(w: World, after: World, created: bool, limit: int, f: Faults, apps: seq<seq<string>>)
    requires Inv(w) && !Stuck(w) && Handled(w, after, created, limit, f, apps)
    ensures Stuck(after) <==>
              !UpToDate(w, f.getFails) && !f.create.Rejected? && (f.create.Lost? || f.status.Rejected?)
  {
    DiffersExactlyWhen(w, f.getFails);
    DiffNumber(w, f.getFails);
    NextNameIsTakenExactlyWhenStuck(w);
  }

  /** A run that ends stuck after a single handling: a new component, whose revision is stored and whose status update
      is turned down. */
  lemma RunsGetStuck(name: string, spec: Spec, limit: int) returns (run: Run)
    ensures IsRun(run, limit) && |run.events| == 1
    ensures Stuck(run.worlds[1]) && ConstructRevisionName(name, 1) in run.worlds[1].store && !run.returned[0]
  {
    var w := World(Component(name, spec, None), map[], 0);
    var f := Faults(false, Works, Rejected, false, None);
    var after := World(w.component, WithRevision(w, 1), 1);
    assert StoredNext(w, after, false, limit, f, [], 1);
    run := Run([w, after], [Handle(f, [])], [false]);
    forall t: nat ensures StepAt(run, limit, t) {}
    assert Inv(w);
    GetsStuckExactlyWhen(w, after, false, limit, f, []);
  }

  lemma StuckStep(w: World, after: World, event: Event, returned: bool, limit: int)
    requires Inv(w) && Stuck(w) && Step(w, after, event, returned, limit)
    ensures Stuck(after) && after.store == w.store && !returned
  {
    if event.Handle? {
      DiffNumber(w, event.f.getFails);
    }
  }

  lemma StuckInRun(run: Run, limit: int, t: nat)
    requires IsRun(run, limit) && t < |run.events| && Stuck(run.worlds[t])
    ensures Stuck(run.worlds[t + 1]) && run.worlds[t + 1].store == run.worlds[t].store && !run.returned[t]
  {
    RunKeepsInv(run, limit, t);
    assert StepAt(run, limit, t);
    StuckStep(run.worlds[t], run.worlds[t + 1], run.events[t], run.returned[t], limit);
  }

  /** Once a revision is stored whose status update failed, no later handling creates anything. */
  lemma {:induction false} StuckForEver(run: Run, limit: int, s: nat, t: nat)
    requires IsRun(run, limit) && s <= t < |run.worlds| && Stuck(run.worlds[s])
    ensures Stuck(run.worlds[t]) && run.worlds[t].store == run.worlds[s].store
    ensures forall u :: s <= u < t ==> !run.returned[u]
    decreases t
  {
    if s < t {
      StuckForEver(run, limit, s, t - 1);
      StuckInRun(run, limit, t - 1);
    }
  }
}
