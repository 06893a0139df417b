/** Objects that somebody else controls: an Apply leaves them as they are and ends in an error. */
module Ownership {
  import opened Wrappers
  import opened Kube
  import opened Cluster
  import opened AppStatus
  import opened Apply
  import opened ApplyOnce
  import opened Reconcile
  import opened ScopeMembership
  import opened GarbageCollection
  import opened Lifecycle
  import opened DependencyReconcile

  /** Object k is there and has a controlling owner other than the application of this UID. */
  predicate Foreign(s: Server, k: Key, uid: string) {
    k in s.objects && s.objects[k].body.owner.Some? && s.objects[k].body.owner.value != uid
  }

  // ---------- one object ----------

  lemma ObjectIsRefused(c: Config, m: Manifest, patching: bool, s: Server, k: Key)
    requires Foreign(s, k, c.uid)
    ensures Find(ApplyObject(c, m, patching, s).server.objects, k) == Find(s.objects, k)
    ensures m.key == k ==> ApplyObject(c, m, patching, s).result != Done
  {
  }

  /** On a network that works, an object is refused exactly when somebody else controls it: one without a controlling
      owner is taken over, and the application's own is written or skipped. */
  lemma RefusedExactlyWhen(c: Config, m: Manifest, patching: bool, s: Server)
    requires Quiet(c.net)
    ensures ApplyObject(c, m, patching, s).result == Done <==> !Foreign(s, m.key, c.uid)
    ensures Foreign(s, m.key, c.uid) ==> ApplyObject(c, m, patching, s).server.objects == s.objects
    ensures !Foreign(s, m.key, c.uid) ==> m.key in ApplyObject(c, m, patching, s).server.objects
  {
  }

  // ---------- everything that is rendered ----------

  lemma {:induction false} TraitsAreRefused(c: Config, ts: seq<RenderedTrait>, s: Server, k: Key)
    requires Foreign(s, k, c.uid)
    ensures Find(ApplyTraits(c, ts, s).server.objects, k) == Find(s.objects, k)
    ensures HandsTrait(ts, k) ==> ApplyTraits(c, ts, s).result != Done
    decreases |ts|
  {
    if ts != [] {
      var p := if ts[0].hasDep then Progress(s, Done) else ApplyObject(c, ts[0].manifest, false, s);
      ObjectIsRefused(c, ts[0].manifest, false, s, k);
      if p.result == Done {
        TraitsAreRefused(c, ts[1..], p.server, k);
        if j :| 0 < j < |ts| && !ts[j].hasDep && ts[j].manifest.key == k { assert ts[1..][j - 1] == ts[j]; }
      }
    }
  }

  lemma WorkloadIsRefused(c: Config, w: Rendered, s: Server, k: Key)
    requires Foreign(s, k, c.uid)
    ensures Find(ApplyWorkload(c, w, s).server.objects, k) == Find(s.objects, k)
    ensures HandsIn(w, k) ==> ApplyWorkload(c, w, s).result != Done
  {
    var p := if w.hasDep then Progress(s, Done) else ApplyObject(c, w.manifest, true, s);
    ObjectIsRefused(c, w.manifest, true, s, k);
    if p.result == Done {
      TraitsAreRefused(c, w.traits, p.server, k);
      ScopesLeaveObjects(c, w.manifest.key, w.scopes, ApplyTraits(c, w.traits, p.server).server);
    }
  }

  lemma {:induction false} WorkloadsAreRefused(c: Config, ws: seq<Rendered>, s: Server, k: Key)
    requires Foreign(s, k, c.uid)
    ensures Find(ApplyWorkloads(c, ws, s).server.objects, k) == Find(s.objects, k)
    ensures Hands(ws, k) ==> ApplyWorkloads(c, ws, s).result != Done
    decreases |ws|
  {
    if ws != [] {
      var p := ApplyWorkload(c, ws[0], s);
      WorkloadIsRefused(c, ws[0], s, k);
      HandsFirstOrRest(ws, k);
      if p.result == Done { WorkloadsAreRefused(c, ws[1..], p.server, k); }
    }
  }

  /** However the requests fare, an Apply leaves an object of somebody else's exactly as it was, and if it is handed
      anything under that key it ends in an error. */
  lemma ForeignObjectsStay(c: Config, status: seq<WorkloadStatus>, ws: seq<Rendered>, s: Server, k: Key)
    requires Foreign(s, k, c.uid)
    ensures Find(Applied(c, status, ws, s).server.objects, k) == Find(s.objects, k)
    ensures Hands(ws, k) ==> Applied(c, status, ws, s).result != Done
  {
    WorkloadsAreRefused(c, ws, s, k);
    DereferenceLeavesObjects(c, status, ws, ApplyWorkloads(c, ws, s).server);
  }

  // ---------- a whole reconcile ----------

  /** Nothing is recorded under this key. */
  ghost predicate Unrecorded(status: seq<WorkloadStatus>, k: Key) {
    forall r :: Tracked(status, r) ==> r.key != k
  }

  /** A reconcile that is handed somebody else's object leaves it alone and does not complete, and what is recorded
      stays recorded. */
  lemma ReconcileGivesUp(env: Env, w: World, k: Key)
    requires Syncing(env, w) && RenderFor(env, w.app, Tick(w.server)).Some?
    requires Foreign(w.server, k, w.app.spec.uid) && Hands(RenderFor(env, w.app, Tick(w.server)).value, k)
    ensures !CompletesIn(env, w) && Reconciled(env, w).app == w.app
    ensures Find(Reconciled(env, w).server.objects, k) == Find(w.server.objects, k)
  {
    var ws := RenderFor(env, w.app, Tick(w.server)).value;
    ForeignObjectsStay(ConfigFor(env, w.app), w.app.status, ws, Tick(w.server), k);
  }

  lemma UnrecordedIsNotEligible(status: seq<WorkloadStatus>, kept: set<TypedReference>, k: Key)
    requires Unrecorded(status, k)
    ensures k !in Eligible(status, kept)
  {
    EligibleExactly(status, kept, k);
  }

  /** Whatever a reconcile does and however it ends, an object of somebody else's that the application has not recorded
      stays exactly as it was. */
  lemma ReconcileLeavesForeign(env: Env, w: World, k: Key)
    requires Foreign(w.server, k, w.app.spec.uid) && Unrecorded(w.app.status, k)
    ensures Find(Reconciled(env, w).server.objects, k) == Find(w.server.objects, k)
  {
    if Syncing(env, w) && RenderFor(env, w.app, Tick(w.server)).Some? {
      var ws := RenderFor(env, w.app, Tick(w.server)).value;
      var p := Applied(ConfigFor(env, w.app), w.app.status, ws, Tick(w.server));
      ForeignObjectsStay(ConfigFor(env, w.app), w.app.status, ws, Tick(w.server), k);
      UnrecordedIsNotEligible(w.app.status, RenderedRefs(ws), k);
      CollectEffect(env.net, Eligible(w.app.status, RenderedRefs(ws)), p.server);
      ReconciledObjects(env, w, ws);
    } else {
      NotSyncingLeavesObjects(env, w);
    }
  }
}
