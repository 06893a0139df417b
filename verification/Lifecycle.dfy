/** Whole lives of an application: reconciles that may fail anywhere, edits of its spec, its deletion, and
    everybody else. */
module Lifecycle {
  import opened Wrappers
  import opened Kube
  import opened Cluster
  import opened AppStatus
  import opened Apply
  import opened Rendering
  import opened Reconcile
  import opened RenderedFacts
  import opened ScopeMembership
  import opened GarbageCollection
  import ScopeRetries

  /** An edit may change anything of the application but its name and UID. */
  datatype Event = Round(env: Env) | Edit(spec: AppSpec) | Delete | Others

  /** Others may do anything to objects and definitions, and write texts into the status; in scopes they may
      do anything but add references to our workloads. */
  ghost predicate ByOthers(w: World, v: World, ours: set<Key>) {
    && v.app == w.app.(status := v.app.status)
    && |v.app.status| == |w.app.status|
    && (forall i :: 0 <= i < |w.app.status| ==> SameRefs(v.app.status[i], w.app.status[i]))
    && (forall k, x :: x in ours ==> Held(v.server, k, x) <= Held(w.server, k, x))
  }

  /** Deletion waits for the finalizer, if there is one. */
  function Deleting(app: App): App {
    if app.finalizer then app.(deleting := true) else app.(alive := false)
  }

  predicate AllOurs(ws: seq<Rendered>, ours: set<Key>) {
    forall i :: 0 <= i < |ws| ==> ws[i].manifest.key in ours
  }

  /** A round renders only workloads that are among ours. */
  ghost predicate OnlyOurs(env: Env, w: World, ours: set<Key>) {
    RenderFor(env, w.app, Tick(w.server)).Some? ==> AllOurs(RenderFor(env, w.app, Tick(w.server)).value, ours)
  }

  ghost predicate Step(w: World, v: World, e: Event, ours: set<Key>) {
    match e
    case Round(env) => OnlyOurs(env, w, ours) && v == Reconciled(env, w)
    case Edit(spec) => spec.uid == w.app.spec.uid && spec.name == w.app.spec.name && v == w.(app := w.app.(spec := spec))
    case Delete => v == w.(app := Deleting(w.app))
    case Others => ByOthers(w, v, ours)
  }

  /** A new application: nothing recorded, and no scope refers to its workloads. */
  ghost predicate IsNew(w: World, ours: set<Key>) {
    && w.app.alive && !w.app.deleting && !w.app.finalizer && w.app.status == []
    && forall k, x :: x in ours ==> Held(w.server, k, x) == 0
  }

  ghost predicate StepAt(worlds: seq<World>, events: seq<Event>, ours: set<Key>, t: nat)
    requires |worlds| == |events| + 1
  {
    t < |events| ==> Step(worlds[t], worlds[t + 1], events[t], ours)
  }

  ghost predicate IsLife(worlds: seq<World>, events: seq<Event>, ours: set<Key>) {
    && |worlds| == |events| + 1 && IsNew(worlds[0], ours)
    && forall t: nat {:trigger StepAt(worlds, events, ours, t)} :: StepAt(worlds, events, ours, t)
  }

  // ---------- the invariant ----------

  /** A scope refers to one of our workloads only while the application carries the finalizer, or after the
      application is gone and for pairs that its last status did not record; never twice; and the status records
      no UIDs. */
  ghost predicate Inv(w: World, ours: set<Key>) {
    && Bare(w.app.status)
    && (forall k, x :: x in ours ==> Held(w.server, k, x) <= 1)
    && (w.app.alive && !w.app.finalizer ==> forall k, x :: x in ours ==> Held(w.server, k, x) == 0)
    && (!w.app.alive ==> forall k, x :: x in ours && StatusPair(w.app.status, x, k) ==> Held(w.server, k, x) == 0)
  }

  lemma {:induction false} DereferenceOnlyLoses(c: Config, status: seq<WorkloadStatus>, ws: seq<Rendered>, s: Server)
    ensures forall k, x :: Held(Dereference(c, status, ws, s).server, k, x) <= Held(s, k, x)
    decreases |status|
  {
    if status != [] {
      var x, leaving := status[0].reference.key, ToLeave(status[0], ws);
      var p := RemoveScopes(c, x, leaving, s);
      RemoveSeveral(c, x, leaving, s);
      DereferenceOnlyLoses(c, status[1..], ws, p.server);
      forall k, y ensures Held(Dereference(c, status, ws, s).server, k, y) <= Held(s, k, y) {
        assert Held(p.server, k, y) <= Held(s, k, y);
      }
    }
  }

  /** Applying adds a reference at most where there was none, and only to a scope something is rendered into. */
  lemma AppliedHolds(c: Config, status: seq<WorkloadStatus>, ws: seq<Rendered>, s: Server, k: Key, x: Key)
    requires Fresh(ws, s)
    ensures var h := Held(Applied(c, status, ws, s).server, k, x);
            h <= Held(s, k, x) || (h == 1 && RenderedPair(ws, x, k))
  {
    if ws != [] {
      var p := ApplyWorkloads(c, ws, s);
      AddWorkloads(c, ws, s, s, ws);
      AddingCounts(s, p.server, ws, k, x);
      DereferenceOnlyLoses(c, status, ws, p.server);
    }
  }

  /** Collecting and writing the status are nothing to the scopes. */
  lemma SyncedScopes(env: Env, app: App, s: Server, ws: seq<Rendered>)
    ensures Synced(env, app, s, ws).server.scopes == Applied(ConfigFor(env, app), app.status, ws, s).server.scopes
  {
    CollectEffect(env.net, Eligible(app.status, RenderedRefs(ws)), Applied(ConfigFor(env, app), app.status, ws, s).server);
  }

  lemma SyncScopes(env: Env, app: App, s: Server)
    ensures var ws := RenderFor(env, app, s);
            Sync(env, app, s).server.scopes
              == (if ws.None? then s else Applied(ConfigFor(env, app), app.status, ws.value, s).server).scopes
  {
    var ws := RenderFor(env, app, s);
    if ws.Some? { SyncedScopes(env, app, s, ws.value); }
  }

  lemma SyncHolds(env: Env, app: App, s: Server, k: Key, x: Key)
    ensures var h := Held(Sync(env, app, s).server, k, x);
            h <= Held(s, k, x) || (h == 1 && HasScopes(app.spec))
  {
    SyncScopes(env, app, s);
    var ws := RenderFor(env, app, s);
    if ws.Some? {
      RenderedScopes(env, app, s);
      AppliedHolds(ConfigFor(env, app), app.status, ws.value, s, k, x);
    }
  }

  lemma SyncKeepsInv(env: Env, w: World, ours: set<Key>)
    requires Inv(w, ours) && w.app.alive && (w.app.finalizer || !HasScopes(w.app.spec))
    ensures var v := Sync(env, w.app, Tick(w.server));
            forall k, x :: x in ours ==> Held(v.server, k, x) <= 1 && (!w.app.finalizer ==> Held(v.server, k, x) == 0)
  {
    var s := Tick(w.server);
    var v := Sync(env, w.app, s);
    HeldByScopes(w.server, s);
    forall k, x | x in ours ensures Held(v.server, k, x) <= 1 && (!w.app.finalizer ==> Held(v.server, k, x) == 0) {
      SyncHolds(env, w.app, s, k, x);
    }
  }

  lemma RoundKeepsInv(env: Env, w: World, ours: set<Key>)
    requires Inv(w, ours)
    ensures Inv(Reconciled(env, w), ours)
  {
    var v := Reconciled(env, w);
    ReconcileKeepsBare(env, w);
    if env.net(w.server.clock) == Works && w.app.alive {
      if w.app.deleting {
        FinishKeepsInv(env, w, ours);
      } else if w.app.finalizer || !HasScopes(w.app.spec) {
        SyncKeepsInv(env, w, ours);
      } else {
        HeldByScopes(w.server, v.server);
      }
    } else {
      HeldByScopes(w.server, v.server);
    }
  }

  lemma FinishKeepsInv(env: Env, w: World, ours: set<Key>)
    requires Inv(w, ours) && w.app.alive
    ensures var v := Finish(env, w.app, Tick(w.server));
            && (forall k, x :: x in ours ==> Held(v.server, k, x) <= Held(w.server, k, x))
            && (!v.app.alive ==> forall k, x :: x in ours && StatusPair(w.app.status, x, k) ==> Held(v.server, k, x) == 0)
            && v.app.status == w.app.status && (v.app.finalizer || !v.app.alive || !w.app.finalizer)
  {
    var s, v := Tick(w.server), Finish(env, w.app, Tick(w.server));
    HeldByScopes(w.server, s);
    if w.app.finalizer {
      var p := DereferenceAll(ConfigFor(env, w.app), w.app.status, s);
      FinalizeIsExact(ConfigFor(env, w.app), w.app.status, s);
      HeldByScopes(p.server, v.server);
    } else {
      HeldByScopes(s, v.server);
    }
  }

  lemma HeldByScopes(s: Server, t: Server)
    requires s.scopes == t.scopes
    ensures forall k, x :: Held(s, k, x) == Held(t, k, x)
  {
  }

  lemma StepKeepsInv(w: World, v: World, e: Event, ours: set<Key>)
    requires Inv(w, ours) && Step(w, v, e, ours)
    ensures Inv(v, ours)
  {
    match e {
      case Round(env) => RoundKeepsInv(env, w, ours);
      case Edit(_) =>
      case Delete =>
      case Others =>
        forall r | Tracked(v.app.status, r) ensures r.uid == "" { TextsKeepTracked(w.app.status, v.app.status, r); }
        forall x, k | StatusPair(v.app.status, x, k) ensures StatusPair(w.app.status, x, k) {
          TextsKeepPairs(w.app.status, v.app.status, x, k);
        }
    }
  }

  lemma TextsKeepTracked(a: seq<WorkloadStatus>, b: seq<WorkloadStatus>, r: TypedReference)
    requires |a| == |b| && forall i :: 0 <= i < |a| ==> SameRefs(b[i], a[i])
    ensures Tracked(a, r) <==> Tracked(b, r)
    ensures Spared(a, r) <==> Spared(b, r)
  {
    forall i | 0 <= i < |a| ensures TracksTrait(a[i].traits, r) <==> TracksTrait(b[i].traits, r) {
      assert SameRefs(b[i], a[i]);
    }
  }

  lemma TextsKeepPairs(a: seq<WorkloadStatus>, b: seq<WorkloadStatus>, x: Key, k: Key)
    requires |a| == |b| && forall i :: 0 <= i < |a| ==> SameRefs(b[i], a[i])
    ensures StatusPair(b, x, k) <==> StatusPair(a, x, k)
  {
    forall i | 0 <= i < |a| ensures b[i].reference == a[i].reference && b[i].scopes == a[i].scopes {
      assert SameRefs(b[i], a[i]);
      assert b[i].(status := "", traits := []).reference == a[i].(status := "", traits := []).reference;
      assert b[i].(status := "", traits := []).scopes == a[i].(status := "", traits := []).scopes;
    }
  }

  lemma {:induction false} LifeKeepsInv(worlds: seq<World>, events: seq<Event>, ours: set<Key>, t: nat)
    requires IsLife(worlds, events, ours) && t < |worlds|
    ensures Inv(worlds[t], ours)
  {
    if t > 0 {
      LifeKeepsInv(worlds, events, ours, t - 1);
      assert StepAt(worlds, events, ours, t - 1);
      StepKeepsInv(worlds[t - 1], worlds[t], events[t - 1], ours);
    }
  }

  // ---------- finalizer safety ----------

  /** In every reachable state a scope refers to a workload of this application only if the application carries
      the finalizer, or is gone without ever having recorded that pair in its last status. */
  lemma FinalizerSafety(worlds: seq<World>, events: seq<Event>, ours: set<Key>, t: nat, x: Key, k: Key)
    requires IsLife(worlds, events, ours) && t < |worlds|
    requires x in ours && Held(worlds[t].server, k, x) > 0
    ensures var app := worlds[t].app;
            (app.alive && app.finalizer) || (!app.alive && !StatusPair(app.status, x, k))
  {
    LifeKeepsInv(worlds, events, ours, t);
  }

  /** Only a reconcile of a deleted application drops the finalizer, and only after every recorded workload has
      left its recorded scope; a reference the status does not record is left as it is. */
  lemma FinalizerIsDroppedWhenClean(env: Env, w: World, ours: set<Key>)
    requires Inv(w, ours) && w.app.finalizer && !Reconciled(env, w).app.finalizer
    ensures var v := Reconciled(env, w);
            && w.app.deleting && !v.app.alive
            && (forall x, k :: x in ours && StatusPair(w.app.status, x, k) ==> Held(v.server, k, x) == 0)
            && (forall x, k :: !StatusPair(w.app.status, x, k) ==> Held(v.server, k, x) == Held(w.server, k, x))
  {
    FinishIsExact(env, w, ours);
  }

  lemma FinishIsExact(env: Env, w: World, ours: set<Key>)
    requires Inv(w, ours) && w.app.finalizer && !Finish(env, w.app, Tick(w.server)).app.finalizer
    ensures var v := Finish(env, w.app, Tick(w.server));
            && !v.app.alive
            && (forall x, k :: x in ours && StatusPair(w.app.status, x, k) ==> Held(v.server, k, x) == 0)
            && (forall x, k :: !StatusPair(w.app.status, x, k) ==> Held(v.server, k, x) == Held(w.server, k, x))
  {
    var s, v := Tick(w.server), Finish(env, w.app, Tick(w.server));
    var p := DereferenceAll(ConfigFor(env, w.app), w.app.status, s);
    HeldByScopes(w.server, s);
    FinalizeIsExact(ConfigFor(env, w.app), w.app.status, s);
    HeldByScopes(p.server, v.server);
  }

  /** On a network that works, a deleted application is let go exactly when every recorded scope can be left;
      on any error it keeps the finalizer. */
  lemma DeletionExactlyWhen(env: Env, w: World)
    requires Quiet(env.net) && w.app.alive && w.app.deleting && w.app.finalizer
    ensures var app := Reconciled(env, w).app;
            && app.finalizer == app.alive
            && (!app.alive <==> forall x, k :: StatusPair(w.app.status, x, k) ==> Leavable(w.server, k))
  {
    var s := Tick(w.server);
    FinalizeSucceedsExactlyWhen(ConfigFor(env, w.app), w.app.status, s);
    assert forall k :: Leavable(s, k) <==> Leavable(w.server, k);
  }

  /** Every reference of ours is recorded. */
  ghost predicate Persisted(w: World, ours: set<Key>) {
    forall x, k :: x in ours && Held(w.server, k, x) > 0 ==> StatusPair(w.app.status, x, k)
  }

  /** Nothing is left behind exactly when everything was recorded. */
  lemma DeletionLeavesNothingExactlyWhen(env: Env, w: World, ours: set<Key>)
    requires Inv(w, ours) && w.app.alive && w.app.finalizer && !Reconciled(env, w).app.alive
    ensures (forall x, k :: x in ours ==> Held(Reconciled(env, w).server, k, x) == 0) <==> Persisted(w, ours)
  {
    var v := Reconciled(env, w);
    FinalizerIsDroppedWhenClean(env, w, ours);
    if forall x, k :: x in ours ==> Held(v.server, k, x) == 0 {
      forall x, k | x in ours && Held(w.server, k, x) > 0 ensures StatusPair(w.app.status, x, k) {
        assert Held(v.server, k, x) == 0;
      }
    } else {
      var x, k :| x in ours && Held(v.server, k, x) != 0;
      assert !StatusPair(w.app.status, x, k) && Held(w.server, k, x) > 0;
    }
  }

  lemma RejectedStatus(env: Env, w: World, ws: seq<Rendered>, x: Key, k: Key)
    requires w.app.alive && !w.app.deleting && w.app.finalizer && w.app.status == []
    requires RenderFor(env, w.app, Tick(w.server)) == Some(ws) && Synced(env, w.app, Tick(w.server), ws).result == Done
    requires env.net(w.server.clock) == Works && env.net(Synced(env, w.app, Tick(w.server), ws).server.clock) == Rejected
    requires RenderedPair(ws, x, k) && Asks(w.server, k)
    ensures Reconciled(env, w).app == w.app && Held(Reconciled(env, w).server, k, x) > 0
  {
    var s := Tick(w.server);
    var c := ConfigFor(env, w.app);
    RenderedScopes(env, w.app, s);
    AddWorkloads(c, ws, s, s, ws);
    var p := ApplyWorkloads(c, ws, s);
    RenderedIsHeld(p.server, ws, x, k);
    CollectEffect(env.net, Eligible(w.app.status, RenderedRefs(ws)), p.server);
    HeldByScopes(p.server, Reconciled(env, w).server);
  }

  lemma NothingRecordedNothingRemoved(env: Env, w: World)
    requires Quiet(env.net) && w.app.alive && w.app.deleting && w.app.finalizer && w.app.status == []
    ensures !Reconciled(env, w).app.alive && Reconciled(env, w).server.scopes == w.server.scopes
  {
    assert DereferenceAll(ConfigFor(env, w.app), [], Tick(w.server)) == Progress(Tick(w.server), Done);
  }

  /** Not everything is always recorded: when the status of the first successful reconcile cannot be written and
      the application is then deleted, it goes while its workloads stay in their scopes. */
  lemma UnrecordedReferencesStay(env: Env, w: World, finish: Env, ws: seq<Rendered>, x: Key, k: Key)
    requires w.app.alive && !w.app.deleting && w.app.finalizer && w.app.status == []
    requires RenderFor(env, w.app, Tick(w.server)) == Some(ws) && Synced(env, w.app, Tick(w.server), ws).result == Done
    requires env.net(w.server.clock) == Works && env.net(Synced(env, w.app, Tick(w.server), ws).server.clock) == Rejected
    requires RenderedPair(ws, x, k) && Asks(w.server, k) && Quiet(finish.net)
    ensures var v := Reconciled(env, w);
            var u := Reconciled(finish, v.(app := Deleting(v.app)));
            !u.app.alive && Held(u.server, k, x) > 0
  {
    RejectedStatus(env, w, ws, x, k);
    var v := Reconciled(env, w);
    var d := v.(app := Deleting(v.app));
    NothingRecordedNothingRemoved(finish, d);
    HeldByScopes(d.server, Reconciled(finish, d).server);
  }

  // ---------- tracked or deleted ----------

  /** Step t is a reconcile that drops r, and the object is gone afterwards or r is that of a workload named
      after a revision. */
  ghost predicate DroppedAt(worlds: seq<World>, events: seq<Event>, r: TypedReference, t: nat)
    requires |worlds| == |events| + 1
  {
    && t < |events| && events[t].Round?
    && Tracked(worlds[t].app.status, r) && !Tracked(worlds[t + 1].app.status, r)
    && (r.key !in worlds[t + 1].server.objects || Spared(worlds[t].app.status, r))
  }

  /** Whatever fails in between, a reference that was recorded and no longer is was dropped by a reconcile that
      left the object deleted, or is exempt as a revision workload. */
  lemma {:induction false} TrackedOrDeleted(worlds: seq<World>, events: seq<Event>, ours: set<Key>, r: TypedReference, a: nat, b: nat)
    requires IsLife(worlds, events, ours) && a <= b < |worlds|
    requires Tracked(worlds[a].app.status, r) && !Tracked(worlds[b].app.status, r)
    ensures exists t :: a <= t < b && DroppedAt(worlds, events, r, t)
    decreases b - a
  {
    var w, v := worlds[a], worlds[a + 1];
    LifeKeepsInv(worlds, events, ours, a);
    if Tracked(v.app.status, r) {
      TrackedOrDeleted(worlds, events, ours, r, a + 1, b);
      var t :| a + 1 <= t < b && DroppedAt(worlds, events, r, t);
    } else {
      assert StepAt(worlds, events, ours, a);
      match events[a] {
        case Round(env) => UntrackedIsGone(env, w, r);
        case Edit(_) =>
        case Delete =>
        case Others => TextsKeepTracked(w.app.status, v.app.status, r);
      }
      assert DroppedAt(worlds, events, r, a);
    }
  }

  /** No reconcile of any life deletes an object it renders. */
  lemma RenderedObjectsStay(worlds: seq<World>, events: seq<Event>, ours: set<Key>, t: nat, env: Env, ws: seq<Rendered>, k: Key)
    requires IsLife(worlds, events, ours) && t < |events| && events[t] == Round(env)
    requires RenderFor(env, worlds[t].app, Tick(worlds[t].server)) == Some(ws) && Renders(ws, k)
    ensures Find(Synced(env, worlds[t].app, Tick(worlds[t].server), ws).server.objects, k)
         == Find(Applied(ConfigFor(env, worlds[t].app), worlds[t].app.status, ws, Tick(worlds[t].server)).server.objects, k)
  {
    LifeKeepsInv(worlds, events, ours, t);
    RenderedIsNeverCollected(env, worlds[t].app, Tick(worlds[t].server), ws, k);
  }

  // ---------- failures, then success ----------

  lemma AccountIgnoresTime(s: Server, t: Server, ours: set<Key>, status: seq<WorkloadStatus>, ws: seq<Rendered>)
    requires Accounted(s, ours, status, ws) && s.scopes == t.scopes
    ensures Accounted(t, ours, status, ws)
  {
    HeldByScopes(s, t);
  }

  /** The round applied and collected everything, and its status reached the server. */
  predicate Succeeded(env: Env, w: World, ws: seq<Rendered>) {
    var p := Synced(env, w.app, Tick(w.server), ws);
    env.net(w.server.clock) == Works && p.result == Done && env.net(p.server.clock) != Rejected
  }

  /** A round that gets as far as rendering. */
  predicate Syncing(env: Env, w: World) {
    env.net(w.server.clock) == Works && w.app.alive && !w.app.deleting && (w.app.finalizer || !HasScopes(w.app.spec))
  }

  /** The round renders ws, all of it ours and nothing twice. */
  ghost predicate RoundRenders(env: Env, w: World, ws: seq<Rendered>, ours: set<Key>) {
    RenderFor(env, w.app, Tick(w.server)) == Some(ws) && DistinctWorkloads(ws) && AllOurs(ws, ours)
  }

  lemma AppliedKeepsAccount(env: Env, w: World, ours: set<Key>, ws: seq<Rendered>)
    requires Syncing(env, w) && RoundRenders(env, w, ws, ours) && Accounted(w.server, ours, w.app.status, ws)
    ensures var s := Tick(w.server);
            && Fresh(ws, s) && Accounted(s, ours, w.app.status, ws)
            && Accounted(Reconciled(env, w).server, ours, w.app.status, ws)
            && Synced(env, w.app, s, ws).server.scopes == Applied(ConfigFor(env, w.app), w.app.status, ws, s).server.scopes
  {
    var s, v := Tick(w.server), Reconciled(env, w);
    var c := ConfigFor(env, w.app);
    AccountIgnoresTime(w.server, s, ours, w.app.status, ws);
    RenderedScopes(env, w.app, s);
    FailedApplyKeepsAccount(c, w.app.status, ws, s, ours);
    var p := Applied(c, w.app.status, ws, s);
    CollectEffect(env.net, Eligible(w.app.status, RenderedRefs(ws)), p.server);
    AccountIgnoresTime(p.server, v.server, ours, w.app.status, ws);
  }

  /** Every rendered pair is recorded. */
  ghost predicate Covers(status: seq<WorkloadStatus>, ws: seq<Rendered>) {
    forall x, k :: RenderedPair(ws, x, k) ==> StatusPair(status, x, k)
  }

  /** A round that renders ws keeps the account however it ends; one that succeeds records exactly the rendered
      pairs, and no other reference is left. */
  lemma RoundKeepsAccount(env: Env, w: World, ours: set<Key>, ws: seq<Rendered>)
    requires Syncing(env, w) && RoundRenders(env, w, ws, ours) && Accounted(w.server, ours, w.app.status, ws)
    ensures var v := Reconciled(env, w);
            && v.app == w.app.(status := v.app.status)
            && Accounted(v.server, ours, v.app.status, ws)
            && (Covers(w.app.status, ws) || Succeeded(env, w, ws) ==> Covers(v.app.status, ws))
            && (Succeeded(env, w, ws) ==> Persisted(v, ours))
  {
    var s, v := Tick(w.server), Reconciled(env, w);
    var c := ConfigFor(env, w.app);
    AppliedKeepsAccount(env, w, ours, ws);
    if Succeeded(env, w, ws) {
      var p := Applied(c, w.app.status, ws, s);
      SuccessLeavesOnlyRendered(c, w.app.status, ws, s, ours);
      HeldByScopes(p.server, v.server);
      forall x, k ensures StatusPair(v.app.status, x, k) <==> RenderedPair(ws, x, k) {
        RenderedPairsAreRecorded(ws, w.app.status, x, k);
      }
      RecordedWorkloadsAreOurs(ws, w.app.status, ours);
    }
  }

  lemma RecordedWorkloadsAreOurs(ws: seq<Rendered>, previous: seq<WorkloadStatus>, ours: set<Key>)
    requires AllOurs(ws, ours)
    ensures var status := Patched(StatusesOf(ws), previous); forall i :: 0 <= i < |status| ==> status[i].reference.key in ours
  {
    PatchKeepsReferences(StatusesOf(ws), previous);
    var status := Patched(StatusesOf(ws), previous);
    forall i | 0 <= i < |status| ensures status[i].reference.key in ours {
      assert SameRefs(status[i], StatusesOf(ws)[i]);
    }
  }

  lemma SuccessLeavesOnlyRendered(c: Config, status: seq<WorkloadStatus>, ws: seq<Rendered>, s: Server, ours: set<Key>)
    requires DistinctWorkloads(ws) && Fresh(ws, s) && Accounted(s, ours, status, ws)
    requires Applied(c, status, ws, s).result == Done
    ensures forall x, k :: x in ours && Held(Applied(c, status, ws, s).server, k, x) > 0 ==> RenderedPair(ws, x, k)
  {
    var p := ApplyWorkloads(c, ws, s);
    var t := Applied(c, status, ws, s).server;
    AddWorkloads(c, ws, s, s, ws);
    DereferenceEffect(c, status, ws, p.server);
    forall x, k | x in ours && Held(t, k, x) > 0 ensures RenderedPair(ws, x, k) {
      AddingCounts(s, p.server, ws, k, x);
      assert Held(s, k, x) <= 1 && Held(t, k, x) <= Held(p.server, k, x);
      assert StatusPair(status, x, k) || RenderedPair(ws, x, k);
    }
  }

  lemma RenderedPairsAreRecorded(ws: seq<Rendered>, previous: seq<WorkloadStatus>, x: Key, k: Key)
    ensures StatusPair(Patched(StatusesOf(ws), previous), x, k) <==> RenderedPair(ws, x, k)
  {
    var before, status := StatusesOf(ws), Patched(StatusesOf(ws), previous);
    PatchKeepsReferences(before, previous);
    forall i | 0 <= i < |ws|
      ensures status[i].reference.key == ws[i].manifest.key
      ensures HasRef(status[i].scopes, k) <==> HasScope(ws[i].scopes, k)
    {
      assert SameRefs(status[i], before[i]);
      assert status[i].scopes == before[i].scopes && |before[i].scopes| == |ws[i].scopes|;
      assert forall j :: 0 <= j < |ws[i].scopes| ==> before[i].scopes[j].reference.key == ws[i].scopes[j].key;
    }
  }

  // ---------- rounds of one spec, with everybody else in between ----------

  /** The round renders nothing, or the same workloads into the same scopes as first. */
  ghost predicate RendersLike(env: Env, w: World, first: seq<Rendered>, ours: set<Key>) {
    RenderFor(env, w.app, Tick(w.server)).Some? ==>
      var ws := RenderFor(env, w.app, Tick(w.server)).value;
      DistinctWorkloads(ws) && AllOurs(ws, ours) && ScopeRetries.SamePairs(first, ws)
  }

  /** A retry, or a step of somebody else. */
  ghost predicate Retry(w: World, e: Event, first: seq<Rendered>, ours: set<Key>) {
    match e
    case Round(env) => RendersLike(env, w, first, ours)
    case Others => true
    case _ => false
  }

  /** What retrying keeps: the application is not being deleted, and its references are accounted for; once every
      rendered pair is recorded, that stays so. */
  ghost predicate OnAccount(w: World, first: seq<Rendered>, ours: set<Key>) {
    !w.app.deleting && Accounted(w.server, ours, w.app.status, first)
  }

  lemma SamePairsAccount(s: Server, ours: set<Key>, status: seq<WorkloadStatus>, ws: seq<Rendered>, vs: seq<Rendered>)
    requires Accounted(s, ours, status, ws) && AllOurs(vs, ours)
    requires forall x, k :: RenderedPair(ws, x, k) <==> RenderedPair(vs, x, k)
    ensures Accounted(s, ours, status, vs)
  {
    forall x, k | x in ours ensures Held(s, k, x) <= 1 && (Held(s, k, x) == 1 ==> StatusPair(status, x, k) || RenderedPair(vs, x, k)) {
      assert RenderedPair(ws, x, k) <==> RenderedPair(vs, x, k);
    }
  }

  lemma OthersKeepAccount(w: World, v: World, first: seq<Rendered>, ours: set<Key>)
    requires ByOthers(w, v, ours) && OnAccount(w, first, ours)
    ensures OnAccount(v, first, ours) && (Covers(w.app.status, first) ==> Covers(v.app.status, first))
  {
    forall x, k ensures StatusPair(v.app.status, x, k) <==> StatusPair(w.app.status, x, k) {
      TextsKeepPairs(w.app.status, v.app.status, x, k);
    }
    forall i | 0 <= i < |v.app.status| ensures v.app.status[i].reference.key in ours {
      assert SameRefs(v.app.status[i], w.app.status[i]);
      assert v.app.status[i].(status := "", traits := []).reference == w.app.status[i].(status := "", traits := []).reference;
    }
    forall x, k | x in ours
      ensures Held(v.server, k, x) <= 1
           && (Held(v.server, k, x) == 1 ==> StatusPair(v.app.status, x, k) || RenderedPair(first, x, k))
    {
      assert Held(v.server, k, x) <= Held(w.server, k, x);
    }
  }

  /** The round gets as far as rendering, and succeeds. */
  predicate SucceedsIn(env: Env, w: World) {
    && Syncing(env, w) && RenderFor(env, w.app, Tick(w.server)).Some?
    && Succeeded(env, w, RenderFor(env, w.app, Tick(w.server)).value)
  }

  lemma RoundKeepsOnAccount(env: Env, w: World, first: seq<Rendered>, ours: set<Key>)
    requires RendersLike(env, w, first, ours) && OnAccount(w, first, ours) && AllOurs(first, ours)
    ensures var v := Reconciled(env, w);
            && OnAccount(v, first, ours) && (Covers(w.app.status, first) ==> Covers(v.app.status, first))
            && (SucceedsIn(env, w) ==> Covers(v.app.status, first))
  {
    var v := Reconciled(env, w);
    if Syncing(env, w) && RenderFor(env, w.app, Tick(w.server)).Some? {
      var ws := RenderFor(env, w.app, Tick(w.server)).value;
      assert forall x, k :: RenderedPair(first, x, k) <==> RenderedPair(ws, x, k);
      SamePairsAccount(w.server, ours, w.app.status, first, ws);
      RoundKeepsAccount(env, w, ours, ws);
      SamePairsAccount(v.server, ours, v.app.status, ws, first);
    } else {
      AccountIgnoresTime(w.server, v.server, ours, w.app.status, first);
    }
  }

  ghost predicate SucceedsAt(worlds: seq<World>, events: seq<Event>, t: nat)
    requires |worlds| == |events| + 1
  {
    t < |events| && events[t].Round? && SucceedsIn(events[t].env, worlds[t])
  }

  ghost predicate RetryAt(worlds: seq<World>, events: seq<Event>, t: nat, first: seq<Rendered>, ours: set<Key>)
    requires |worlds| == |events| + 1
  {
    t < |events| && Retry(worlds[t], events[t], first, ours)
  }

  ghost predicate RetriesBetween(worlds: seq<World>, events: seq<Event>, a: nat, b: nat, first: seq<Rendered>, ours: set<Key>)
    requires |worlds| == |events| + 1
  {
    b <= |events| && forall t: nat {:trigger RetryAt(worlds, events, t, first, ours)} :: a <= t < b ==> RetryAt(worlds, events, t, first, ours)
  }

  lemma RetryStep(worlds: seq<World>, events: seq<Event>, ours: set<Key>, first: seq<Rendered>, t: nat)
    requires IsLife(worlds, events, ours) && AllOurs(first, ours)
    requires RetryAt(worlds, events, t, first, ours) && OnAccount(worlds[t], first, ours)
    ensures OnAccount(worlds[t + 1], first, ours)
    ensures Covers(worlds[t].app.status, first) || SucceedsAt(worlds, events, t) ==> Covers(worlds[t + 1].app.status, first)
  {
    assert StepAt(worlds, events, ours, t);
    match events[t] {
      case Round(env) => RoundKeepsOnAccount(env, worlds[t], first, ours);
      case Others => OthersKeepAccount(worlds[t], worlds[t + 1], first, ours);
      case Edit(_) =>
      case Delete =>
    }
  }

  lemma {:induction false} RetriesStayOnAccount(
    worlds: seq<World>, events: seq<Event>, ours: set<Key>, first: seq<Rendered>, a: nat, b: nat)
    requires IsLife(worlds, events, ours) && a <= b && AllOurs(first, ours)
    requires RetriesBetween(worlds, events, a, b, first, ours) && OnAccount(worlds[a], first, ours)
    ensures OnAccount(worlds[b], first, ours)
    ensures Covers(worlds[a].app.status, first) ==> Covers(worlds[b].app.status, first)
    decreases b
  {
    if a < b {
      RetriesStayOnAccount(worlds, events, ours, first, a, b - 1);
      assert RetryAt(worlds, events, b - 1, first, ours);
      RetryStep(worlds, events, ours, first, b - 1);
    }
  }

  lemma RetriesWithin(worlds: seq<World>, events: seq<Event>, ours: set<Key>, first: seq<Rendered>, a: nat, b: nat, c: nat, d: nat)
    requires |worlds| == |events| + 1 && a <= b <= c <= d && RetriesBetween(worlds, events, a, d, first, ours)
    ensures RetriesBetween(worlds, events, b, c, first, ours)
  {
  }

  /** From the round that succeeds on, every rendered pair is recorded. */
  lemma CoveredSinceSuccess(
    worlds: seq<World>, events: seq<Event>, ours: set<Key>, first: seq<Rendered>, a: nat, t: nat, b: nat)
    requires IsLife(worlds, events, ours) && a <= t < b && AllOurs(first, ours)
    requires RetriesBetween(worlds, events, a, b, first, ours) && OnAccount(worlds[a], first, ours)
    requires SucceedsAt(worlds, events, t)
    ensures OnAccount(worlds[b], first, ours) && Covers(worlds[b].app.status, first)
  {
    RetriesWithin(worlds, events, ours, first, a, a, t, b);
    RetriesStayOnAccount(worlds, events, ours, first, a, t);
    assert RetryAt(worlds, events, t, first, ours);
    RetryStep(worlds, events, ours, first, t);
    RetriesWithin(worlds, events, ours, first, a, t + 1, b, b);
    RetriesStayOnAccount(worlds, events, ours, first, t + 1, b);
  }

  /** However many rounds of a spec failed, before and after, and whatever others did in between: once one round
      has succeeded, every reference is recorded. */
  lemma SuccessRecordsEverything(
    worlds: seq<World>, events: seq<Event>, ours: set<Key>, first: seq<Rendered>, a: nat, t: nat, b: nat)
    requires IsLife(worlds, events, ours) && a <= t < b && AllOurs(first, ours)
    requires RetriesBetween(worlds, events, a, b, first, ours) && OnAccount(worlds[a], first, ours)
    requires SucceedsAt(worlds, events, t)
    ensures Persisted(worlds[b], ours)
  {
    CoveredSinceSuccess(worlds, events, ours, first, a, t, b);
    CoveredIsPersisted(worlds[b], first, ours);
  }

  lemma CoveredIsPersisted(w: World, first: seq<Rendered>, ours: set<Key>)
    requires OnAccount(w, first, ours) && Covers(w.app.status, first)
    ensures Persisted(w, ours)
  {
    forall x, k | x in ours && Held(w.server, k, x) > 0 ensures StatusPair(w.app.status, x, k) {
      assert StatusPair(w.app.status, x, k) || RenderedPair(first, x, k);
    }
  }

  // ---------- deleting what is recorded ----------

  /** While the application is there every reference is recorded; once it is gone there is none. */
  ghost predicate Clean(w: World, ours: set<Key>) {
    && (w.app.alive ==> Persisted(w, ours) && (w.app.deleting || !w.app.finalizer))
    && (!w.app.alive ==> forall x, k :: x in ours ==> Held(w.server, k, x) == 0)
  }

  lemma DeletionIsClean(w: World, ours: set<Key>)
    requires Inv(w, ours) && (w.app.alive ==> Persisted(w, ours)) && (!w.app.alive ==> Clean(w, ours))
    ensures Clean(w.(app := Deleting(w.app)), ours)
  {
  }

  lemma CleanRound(env: Env, w: World, ours: set<Key>)
    requires Inv(w, ours) && Clean(w, ours) && w.app.deleting
    ensures Clean(Reconciled(env, w), ours)
  {
    var v, s := Reconciled(env, w), Tick(w.server);
    if env.net(w.server.clock) == Works && w.app.alive {
      FinishKeepsInv(env, w, ours);
      forall x, k | x in ours && Held(v.server, k, x) > 0 ensures v.app.alive && StatusPair(v.app.status, x, k) {
        assert Held(v.server, k, x) <= Held(w.server, k, x);
      }
    } else {
      HeldByScopes(w.server, v.server);
    }
  }

  lemma CleanStep(w: World, v: World, e: Event, ours: set<Key>)
    requires Inv(w, ours) && Step(w, v, e, ours) && Clean(w, ours) && (w.app.deleting || !w.app.alive)
    ensures Clean(v, ours) && (v.app.deleting || !v.app.alive)
  {
    match e {
      case Round(env) =>
        if w.app.deleting { CleanRound(env, w, ours); } else { HeldByScopes(w.server, v.server); }
      case Edit(_) =>
      case Delete =>
      case Others =>
        forall x, k ensures StatusPair(v.app.status, x, k) <==> StatusPair(w.app.status, x, k) {
          TextsKeepPairs(w.app.status, v.app.status, x, k);
        }
    }
  }

  lemma {:induction false} DeletedStaysClean(worlds: seq<World>, events: seq<Event>, ours: set<Key>, b: nat, c: nat)
    requires IsLife(worlds, events, ours) && b < c < |worlds| && events[b].Delete?
    requires worlds[b].app.alive && Persisted(worlds[b], ours)
    ensures Clean(worlds[c], ours) && (worlds[c].app.deleting || !worlds[c].app.alive)
    decreases c
  {
    LifeKeepsInv(worlds, events, ours, c - 1);
    assert StepAt(worlds, events, ours, c - 1);
    if c == b + 1 {
      DeletionIsClean(worlds[b], ours);
    } else {
      DeletedStaysClean(worlds, events, ours, b, c - 1);
      CleanStep(worlds[c - 1], worlds[c], events[c - 1], ours);
    }
  }

  /** Deleting the application after a round of its spec has succeeded leaves nothing behind: however many rounds
      failed before or after it, whatever others do in between, and however often finalizing fails, once the
      application is gone no scope refers to its workloads. */
  lemma SuccessMakesDeletionClean(
    worlds: seq<World>, events: seq<Event>, ours: set<Key>, first: seq<Rendered>, a: nat, t: nat, b: nat, c: nat, x: Key, k: Key)
    requires IsLife(worlds, events, ours) && a <= t < b < c < |worlds| && AllOurs(first, ours)
    requires RetriesBetween(worlds, events, a, b, first, ours) && OnAccount(worlds[a], first, ours)
    requires SucceedsAt(worlds, events, t) && events[b].Delete? && worlds[b].app.alive
    requires !worlds[c].app.alive && x in ours
    ensures Held(worlds[c].server, k, x) == 0
  {
    SuccessRecordsEverything(worlds, events, ours, first, a, t, b);
    DeletedStaysClean(worlds, events, ours, b, c);
  }
}
