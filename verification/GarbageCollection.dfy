/** What a reconcile collects: nothing that is rendered, and everything that drops out of the status. */
module GarbageCollection {
  import opened Wrappers
  import opened Kube
  import opened Names
  import opened Cluster
  import opened AppStatus
  import opened Apply
  import opened Reconcile

  // ---------- references ----------

  predicate TracksTrait(ts: seq<WorkloadTrait>, r: TypedReference) {
    exists j :: 0 <= j < |ts| && ts[j].reference == r
  }

  predicate TracksAsWorkload(status: seq<WorkloadStatus>, r: TypedReference) {
    exists i :: 0 <= i < |status| && status[i].reference == r
  }

  predicate TracksAsTrait(status: seq<WorkloadStatus>, r: TypedReference) {
    exists i :: 0 <= i < |status| && TracksTrait(status[i].traits, r)
  }

  /** The reference of some workload or trait in the status. */
  predicate Tracked(status: seq<WorkloadStatus>, r: TypedReference) {
    TracksAsWorkload(status, r) || TracksAsTrait(status, r)
  }

  /** A recorded workload that is named after a revision of its component. */
  predicate Spared(status: seq<WorkloadStatus>, r: TypedReference) {
    exists i :: 0 <= i < |status| && status[i].reference == r && IsRevisionWorkload(status[i].componentName, r.key.name)
  }

  /** A recorded workload that is not. */
  predicate Unspared(status: seq<WorkloadStatus>, r: TypedReference) {
    exists i :: 0 <= i < |status| && status[i].reference == r && !IsRevisionWorkload(status[i].componentName, r.key.name)
  }

  /** No recorded reference carries a UID. */
  ghost predicate Bare(status: seq<WorkloadStatus>) {
    forall r :: Tracked(status, r) ==> r.uid == ""
  }

  predicate RendersTrait(ts: seq<RenderedTrait>, k: Key) {
    exists j :: 0 <= j < |ts| && ts[j].manifest.key == k
  }

  predicate Renders(ws: seq<Rendered>, k: Key) {
    exists i :: 0 <= i < |ws| && (ws[i].manifest.key == k || RendersTrait(ws[i].traits, k))
  }

  lemma {:induction false} RenderedRefsAre(ws: seq<Rendered>, r: TypedReference)
    ensures r in RenderedRefs(ws) <==> r.uid == "" && Renders(ws, r.key)
  {
    if ws != [] {
      var n := |ws| - 1;
      RenderedRefsAre(ws[..n], r);
      TraitRefsAre(ws[n].traits, r);
      assert Renders(ws, r.key) <==> Renders(ws[..n], r.key) || ws[n].manifest.key == r.key || RendersTrait(ws[n].traits, r.key) by {
        if i :| 0 <= i < n && (ws[..n][i].manifest.key == r.key || RendersTrait(ws[..n][i].traits, r.key)) {
          assert ws[i] == ws[..n][i];
        }
        if i :| 0 <= i < n && (ws[i].manifest.key == r.key || RendersTrait(ws[i].traits, r.key)) {
          assert ws[i] == ws[..n][i];
        }
      }
    }
  }

  lemma TraitRefsAre(ts: seq<RenderedTrait>, r: TypedReference)
    ensures r in TraitRefs(ts) <==> r.uid == "" && RendersTrait(ts, r.key)
  {
    if j :| 0 <= j < |ts| && ts[j].manifest.key == r.key {
      assert Reference(ts[j].manifest.key) in TraitRefs(ts);
    }
  }

  // ---------- what is eligible ----------

  /** A reference to k that is recorded, would be collected, and is not among those kept. */
  predicate Discarded(status: seq<WorkloadStatus>, kept: set<TypedReference>, r: TypedReference) {
    (Unspared(status, r) || TracksAsTrait(status, r)) && r !in kept
  }

  lemma {:induction false} EligibleTraitsAre(ts: seq<WorkloadTrait>, kept: set<TypedReference>, k: Key)
    ensures k in EligibleTraits(ts, kept) <==> exists j :: 0 <= j < |ts| && ts[j].reference.key == k && ts[j].reference !in kept
  {
    if ts != [] {
      var n := |ts| - 1;
      EligibleTraitsAre(ts[..n], kept, k);
      if j :| 0 <= j < n && ts[..n][j].reference.key == k && ts[..n][j].reference !in kept { assert ts[j] == ts[..n][j]; }
      if j :| 0 <= j < n && ts[j].reference.key == k && ts[j].reference !in kept { assert ts[j] == ts[..n][j]; }
    }
  }

  /** Entry st contributes k. */
  predicate Yields(st: WorkloadStatus, kept: set<TypedReference>, k: Key) {
    || (st.reference.key == k && st.reference !in kept && !IsRevisionWorkload(st.componentName, k.name))
    || exists j :: 0 <= j < |st.traits| && st.traits[j].reference.key == k && st.traits[j].reference !in kept
  }

  lemma {:induction false} EligibleIs(status: seq<WorkloadStatus>, kept: set<TypedReference>, k: Key)
    ensures k in Eligible(status, kept) <==> exists i :: 0 <= i < |status| && Yields(status[i], kept, k)
  {
    if status != [] {
      var n := |status| - 1;
      EligibleIs(status[..n], kept, k);
      EligibleTraitsAre(status[n].traits, kept, k);
      assert k in Eligible(status, kept) <==> k in Eligible(status[..n], kept) || Yields(status[n], kept, k);
      if i :| 0 <= i < n && Yields(status[..n][i], kept, k) { assert status[i] == status[..n][i]; }
      if i :| 0 <= i < n && Yields(status[i], kept, k) { assert status[i] == status[..n][i]; }
    }
  }

  /** An object is eligible exactly when some recorded reference to it is discarded. */
  lemma EligibleExactly(status: seq<WorkloadStatus>, kept: set<TypedReference>, k: Key)
    ensures k in Eligible(status, kept) <==> exists r: TypedReference :: r.key == k && Discarded(status, kept, r)
  {
    EligibleIs(status, kept, k);
    if i :| 0 <= i < |status| && Yields(status[i], kept, k) {
      var st := status[i];
      if st.reference.key == k && st.reference !in kept && !IsRevisionWorkload(st.componentName, k.name) {
        assert Discarded(status, kept, st.reference);
      } else {
        var j :| 0 <= j < |st.traits| && st.traits[j].reference.key == k && st.traits[j].reference !in kept;
        assert TracksTrait(st.traits, st.traits[j].reference);
        assert Discarded(status, kept, st.traits[j].reference);
      }
    }
    if r: TypedReference :| r.key == k && Discarded(status, kept, r) {
      DiscardedYields(status, kept, r);
    }
  }

  lemma DiscardedYields(status: seq<WorkloadStatus>, kept: set<TypedReference>, r: TypedReference)
    requires Discarded(status, kept, r)
    ensures exists i :: 0 <= i < |status| && Yields(status[i], kept, r.key)
  {
    if Unspared(status, r) {
      var i :| 0 <= i < |status| && status[i].reference == r && !IsRevisionWorkload(status[i].componentName, r.key.name);
      assert Yields(status[i], kept, r.key);
    } else {
      var i :| 0 <= i < |status| && TracksTrait(status[i].traits, r);
      assert Yields(status[i], kept, r.key);
    }
  }

  /** Collection deletes an object that is rendered exactly when the status records it with a UID: references
      are compared whole, and rendered ones have none. */
  lemma RenderedIsCollectedExactlyWhen(status: seq<WorkloadStatus>, ws: seq<Rendered>, k: Key)
    requires Renders(ws, k)
    ensures k in Eligible(status, RenderedRefs(ws)) <==>
              exists r: TypedReference :: r.key == k && r.uid != "" && (Unspared(status, r) || TracksAsTrait(status, r))
  {
    EligibleExactly(status, RenderedRefs(ws), k);
    forall r: TypedReference { RenderedRefsAre(ws, r); }
    if r: TypedReference :| r.key == k && Discarded(status, RenderedRefs(ws), r) {
      RenderedRefsAre(ws, r);
      assert r.uid != "";
    }
    if r: TypedReference :| r.key == k && r.uid != "" && (Unspared(status, r) || TracksAsTrait(status, r)) {
      RenderedRefsAre(ws, r);
      assert Discarded(status, RenderedRefs(ws), r);
    }
  }

  // ---------- collecting ----------

  lemma {:induction false} CollectEffect(net: Network, ks: seq<Key>, s: Server)
    ensures var p := Collect(net, ks, s);
            && p.server.scopes == s.scopes && p.server.definitions == s.definitions
            && (forall k :: k !in ks ==> Find(p.server.objects, k) == Find(s.objects, k))
            && (forall k :: k in p.server.objects ==> k in s.objects && p.server.objects[k] == s.objects[k])
            && (p.result == Done ==> forall k :: k in ks ==> k !in p.server.objects)
    decreases |ks|
  {
    if ks != [] {
      CollectEffect(net, ks[1..], DeleteObject(net, s, ks[0]).server);
    }
  }

  // ---------- the status that is written ----------

  lemma RecordedKeys(ws: seq<Rendered>, previous: seq<WorkloadStatus>, i: nat)
    requires i < |ws|
    ensures var st := Patched(StatusesOf(ws), previous)[i];
            && st.reference == Reference(ws[i].manifest.key) && |st.traits| == |ws[i].traits|
            && forall j :: 0 <= j < |ws[i].traits| ==> st.traits[j].reference == Reference(ws[i].traits[j].manifest.key)
  {
    PatchKeepsReferences(StatusesOf(ws), previous);
    var st, own := Patched(StatusesOf(ws), previous)[i], StatusOf(ws[i]);
    assert SameRefs(st, own);
    forall j | 0 <= j < |ws[i].traits| ensures st.traits[j].reference == Reference(ws[i].traits[j].manifest.key) {
      assert st.traits[j].(status := "").reference == own.traits[j].(status := "").reference;
    }
  }

  lemma StatusTracksTheRendered(ws: seq<Rendered>, previous: seq<WorkloadStatus>, r: TypedReference)
    ensures Tracked(Patched(StatusesOf(ws), previous), r) <==> r.uid == "" && Renders(ws, r.key)
  {
    var status := Patched(StatusesOf(ws), previous);
    forall i | 0 <= i < |ws|
      ensures status[i].reference == r <==> r.uid == "" && ws[i].manifest.key == r.key
      ensures TracksTrait(status[i].traits, r) <==> r.uid == "" && RendersTrait(ws[i].traits, r.key)
    {
      RecordedKeys(ws, previous, i);
    }
  }

  lemma OnlySyncChangesStatus(env: Env, w: World)
    requires Reconciled(env, w).app.status != w.app.status
    ensures Reconciled(env, w) == Sync(env, w.app, Tick(w.server))
  {
    FinishKeepsStatus(env, w.app, Tick(w.server));
  }

  lemma FinishKeepsStatus(env: Env, app: App, s: Server)
    ensures Finish(env, app, s).app.status == app.status
  {
  }

  lemma SyncChangesStatus(env: Env, app: App, s: Server)
    requires Sync(env, app, s).app.status != app.status
    ensures RenderFor(env, app, s).Some?
    ensures var ws := RenderFor(env, app, s).value;
            var p := Synced(env, app, s, ws);
            && p.result == Done && Sync(env, app, s).server == Tick(p.server)
            && Sync(env, app, s).app.status == Patched(StatusesOf(ws), app.status)
  {
  }

  /** How a reconcile may change the recorded workloads: not at all, or, having applied and collected, to those
      just rendered. */
  lemma StatusChangesOnlyOnSuccess(env: Env, w: World) returns (ws: seq<Rendered>, s: Server)
    requires Reconciled(env, w).app.status != w.app.status
    ensures s == Tick(w.server) && RenderFor(env, w.app, s) == Some(ws) && Synced(env, w.app, s, ws).result == Done
    ensures var v := Reconciled(env, w);
            v.app.status == Patched(StatusesOf(ws), w.app.status) && v.server == Tick(Synced(env, w.app, s, ws).server)
  {
    s := Tick(w.server);
    OnlySyncChangesStatus(env, w);
    SyncChangesStatus(env, w.app, s);
    ws := RenderFor(env, w.app, s).value;
  }

  /** A reference leaves the status only in a reconcile after which the object is gone, unless it is that of a
      workload named after a revision. */
  lemma UntrackedIsGone(env: Env, w: World, r: TypedReference)
    requires Tracked(w.app.status, r) && !Tracked(Reconciled(env, w).app.status, r) && r.uid == ""
    ensures r.key !in Reconciled(env, w).server.objects || Spared(w.app.status, r)
  {
    var ws, s := StatusChangesOnlyOnSuccess(env, w);
    StatusTracksTheRendered(ws, w.app.status, r);
    RenderedRefsAre(ws, r);
    var p := Applied(ConfigFor(env, w.app), w.app.status, ws, s);
    CollectEffect(env.net, Eligible(w.app.status, RenderedRefs(ws)), p.server);
    if !Spared(w.app.status, r) {
      TrackedIsSparedOrNot(w.app.status, r);
      EligibleExactly(w.app.status, RenderedRefs(ws), r.key);
      assert Discarded(w.app.status, RenderedRefs(ws), r);
    }
  }

  lemma TrackedIsSparedOrNot(status: seq<WorkloadStatus>, r: TypedReference)
    ensures TracksAsWorkload(status, r) ==> Spared(status, r) || Unspared(status, r)
  {
    if TracksAsWorkload(status, r) {
      var i :| 0 <= i < |status| && status[i].reference == r;
      assert IsRevisionWorkload(status[i].componentName, r.key.name) || !IsRevisionWorkload(status[i].componentName, r.key.name);
    }
  }

  /** While the status records no UIDs, collection leaves everything that is rendered as it was applied. */
  lemma RenderedIsNeverCollected(env: Env, app: App, s: Server, ws: seq<Rendered>, k: Key)
    requires Bare(app.status) && Renders(ws, k)
    ensures Find(Synced(env, app, s, ws).server.objects, k)
         == Find(Applied(ConfigFor(env, app), app.status, ws, s).server.objects, k)
  {
    var p := Applied(ConfigFor(env, app), app.status, ws, s);
    CollectEffect(env.net, Eligible(app.status, RenderedRefs(ws)), p.server);
    RenderedIsCollectedExactlyWhen(app.status, ws, k);
    forall r | Unspared(app.status, r) || TracksAsTrait(app.status, r) ensures r.uid == "" {
      assert Tracked(app.status, r);
    }
  }

  lemma ReconcileKeepsBare(env: Env, w: World)
    requires Bare(w.app.status)
    ensures Bare(Reconciled(env, w).app.status)
  {
    if Reconciled(env, w).app.status != w.app.status {
      var ws, s := StatusChangesOnlyOnSuccess(env, w);
      forall r | Tracked(Reconciled(env, w).app.status, r) ensures r.uid == "" {
        StatusTracksTheRendered(ws, w.app.status, r);
      }
    }
  }
}
