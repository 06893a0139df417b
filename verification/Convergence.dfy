/** An unchanged spec: through rounds that fail anywhere, every round draws the same objects, so that everything is
    applied in the end. */
module Convergence {
  import opened Wrappers
  import opened Kube
  import opened Cluster
  import opened AppStatus
  import opened Apply
  import opened ApplyOnce
  import opened Rendering
  import opened Reconcile
  import opened RenderedFacts
  import opened GarbageCollection
  import opened Lifecycle
  import opened Gating
  import opened Stability
  import opened DependencyReconcile
  import ApplyOnceRuns
  import Dependencies
  import DependencyRounds
  import Headers
  import Revisions
  import ScopeMembership
  import ScopeRetries
  import Trees

  // ---------- what is drawn ----------

  predicate AllSameNames(ds: seq<Rendered>, es: seq<Rendered>) {
    |ds| == |es| && forall i :: 0 <= i < |ds| ==> SameNames(ds[i], es[i])
  }

  lemma SameNamesTwice(ds: seq<Rendered>, es: seq<Rendered>, fs: seq<Rendered>)
    requires AllSameNames(ds, es) && AllSameNames(es, fs)
    ensures AllSameNames(ds, fs)
  {
    forall i | 0 <= i < |ds| ensures SameNames(ds[i], fs[i]) {
      assert SameNames(ds[i], es[i]) && SameNames(es[i], fs[i]);
    }
  }

  /** What is drawn from a basis before dependencies are handled. */
  function DrawnFrom(b: Basis): Option<seq<Rendered>> {
    RenderAll(b.cat, b.spec, b.status, b.server, b.spec.components)
  }

  lemma EntryDraws(b: Basis, e: ComponentEntry, d: Rendered)
    requires RenderEntry(b.cat, b.spec, b.status, b.server, e) == Some(d)
    ensures DrawsEntry(b, e, d)
  {
  }

  lemma DrawnDraws(b: Basis, ds: seq<Rendered>)
    requires DrawnFrom(b) == Some(ds)
    ensures Draws(b, ds)
  {
    RenderedEntries(b.cat, b.spec, b.status, b.server, b.spec.components);
    forall i | 0 <= i < |ds| ensures DrawsEntry(b, b.spec.components[i], ds[i]) {
      EntryDraws(b, b.spec.components[i], ds[i]);
    }
  }

  /** Dependency handling changes no name that its inputs are not declared to fill. */
  lemma GatedKeepsNames(env: Env, app: App, s: Server, ws: seq<Rendered>) returns (ds: seq<Rendered>)
    requires RenderFor(env, app, s) == Some(ws) && WellFormedSpec(app.spec.components)
    ensures DrawnFrom(BasisOf(env, app, s)) == Some(ds) && AllSameNames(ds, ws)
  {
    ds := GatedRound(env, app, s);
    forall i | 0 <= i < |ds| ensures SameNames(ds[i], ws[i]) {
      assert GatedAs(app.spec.components[i], ds[i], ws[i]);
      forall j | 0 <= j < |ds[i].traits| ensures ds[i].traits[j].manifest.key == ws[i].traits[j].manifest.key {
        assert KeptBy(app.spec.components[i].traits[j].inputs, ds[i].traits[j].manifest, ws[i].traits[j].manifest);
      }
    }
  }

  // ---------- drawing again before anything new is recorded ----------

  predicate SameRecords(a: seq<WorkloadStatus>, b: seq<WorkloadStatus>) {
    |a| == |b| && forall i :: 0 <= i < |a| ==> SameRefs(b[i], a[i])
  }

  lemma {:induction false} TextsKeepWorkloadName(a: seq<WorkloadStatus>, b: seq<WorkloadStatus>, component: string)
    requires SameRecords(a, b)
    ensures RecordedWorkloadName(a, component) == RecordedWorkloadName(b, component)
  {
    if a != [] {
      var n := |a| - 1;
      assert SameRefs(b[n], a[n]);
      assert a[n].(status := "", traits := []).componentName == b[n].(status := "", traits := []).componentName;
      assert a[n].(status := "", traits := []).reference == b[n].(status := "", traits := []).reference;
      TextsKeepWorkloadName(a[..n], b[..n], component);
    }
  }

  /** The key a drawn workload's component has its workload recorded under. */
  function RecordedKey(status: seq<WorkloadStatus>, d: Rendered): Key {
    d.manifest.key.(name := RecordedWorkloadName(status, d.componentName))
  }

  /** What the labels of the object a workload is recorded under have to do with its name: carrying the revision's label
      it keeps the name, and another object does not take it over. */
  predicate LabelStands(status: seq<WorkloadStatus>, s: Server, t: Server, d: Rendered) {
    && LabelKept(s, t, d)
    && (RecordedKey(status, d) != d.manifest.key && Labelled(t, RecordedKey(status, d), d.revisionName) ==>
          Labelled(s, RecordedKey(status, d), d.revisionName))
  }

  lemma InstanceAgain(d: Draft, enabled: bool, c: Revisions.Component, revision: string,
                      before: seq<WorkloadStatus>, s: Server, after: seq<WorkloadStatus>, t: Server, name: string)
    requires c.latest.Some? ==> revision == c.latest.value.name
    requires RecordedWorkloadName(before, c.name) == RecordedWorkloadName(after, c.name)
    requires InstanceName(d, enabled, c, ExistingWorkload(before, s, c.name, d)) == Some(name)
    requires var k, r := Key(d.apiVersion, d.kind, name), Key(d.apiVersion, d.kind, RecordedWorkloadName(before, c.name));
             && (Labelled(s, k, revision) ==> Labelled(t, k, revision))
             && (r != k && Labelled(t, r, revision) ==> Labelled(s, r, revision))
    ensures InstanceName(d, enabled, c, ExistingWorkload(after, t, c.name, d)) == Some(name)
  {
  }

  lemma WorkloadBeforeRecorded(b: Basis, ws: seq<Rendered>, c: Basis, vs: seq<Rendered>, i: nat)
    requires Draws(b, ws) && Draws(c, vs) && WellStored(b.cat) && i < |ws| && Dependencies.KeepsKey(b.spec.components[i].inputs)
    requires b.cat == c.cat && b.spec == c.spec && SameRecords(b.status, c.status)
    requires LabelStands(b.status, b.server, c.server, ws[i])
    ensures ws[i].manifest.key == vs[i].manifest.key
  {
    var e := b.spec.components[i];
    var d, comp, enabled := NamedWorkload(b, e, ws[i]);
    var d2, comp2, enabled2 := NamedWorkload(c, e, vs[i]);
    WellKnown(b.cat, e);
    EnabledByDefinitions(b.cat, b.spec, b.status, c.status, ComponentOf(e), ws[i].revisionName, e.traits);
    TextsKeepWorkloadName(b.status, c.status, comp.name);
    InstanceAgain(d, enabled, comp, ws[i].revisionName, b.status, b.server, c.status, c.server, ws[i].manifest.key.name);
  }

  lemma TraitsBeforeRecorded(b: Basis, e: ComponentEntry, w: Rendered, c: Basis, v: Rendered)
    requires DrawsEntry(b, e, w) && DrawsEntry(c, e, v) && TraitsKeepKeys(e)
    requires b.cat == c.cat && SameRecords(b.status, c.status)
    ensures |w.traits| == |v.traits|
    ensures forall j :: 0 <= j < |w.traits| ==> w.traits[j].manifest.key == v.traits[j].manifest.key
  {
    TraitShape(b, e, w);
    TraitShape(c, e, v);
    forall j | 0 <= j < |w.traits| ensures w.traits[j].manifest.key == v.traits[j].manifest.key {
      assert TraitNamed(b, e, w, j) && TraitNamed(c, e, v, j);
      var ct := e.traits[j];
      TextsKeepTraitName(b.status, c.status, ComponentOf(e), ct.draft.apiVersion, ct.draft.kind);
    }
  }

  /** As long as the status records the same names, the same names are drawn. */
  lemma DrawnBeforeRecorded(b: Basis, ws: seq<Rendered>, c: Basis, vs: seq<Rendered>)
    requires Draws(b, ws) && Draws(c, vs) && WellStored(b.cat) && WellFormedSpec(b.spec.components)
    requires b.cat == c.cat && b.spec == c.spec && SameRecords(b.status, c.status)
    requires forall i :: 0 <= i < |ws| ==> LabelStands(b.status, b.server, c.server, ws[i])
    ensures AllSameNames(ws, vs)
  {
    forall i | 0 <= i < |ws| ensures SameNames(ws[i], vs[i]) {
      var e := b.spec.components[i];
      EntryShape(b, e, ws[i]);
      EntryShape(c, e, vs[i]);
      TraitsBeforeRecorded(b, e, ws[i], c, vs[i]);
      assert LabelStands(b.status, b.server, c.server, ws[i]);
      WorkloadBeforeRecorded(b, ws, c, vs, i);
    }
  }

  // ---------- a stretch of one spec ----------

  /** A stretch of a life begins in this world, under this catalogue, and this is what is drawn in it. */
  datatype Plan = Plan(cat: Catalogue, first: World, names: seq<Rendered>)

  function FirstBasis(p: Plan): Basis {
    Basis(p.cat, p.first.app.spec, p.first.app.status, Tick(p.first.server))
  }

  function EntriesOf(p: Plan): seq<ComponentEntry> {
    p.first.app.spec.components
  }

  /** A well-formed spec that can be drawn; no workload shares its object, none has its labels filled in, and nothing
      takes over the key another workload is recorded under. */
  ghost predicate IsPlan(p: Plan) {
    && DrawnFrom(FirstBasis(p)) == Some(p.names) && WellStored(p.cat) && WellFormedSpec(EntriesOf(p))
    && (forall i :: 0 <= i < |p.names| ==> KeepsItsLabels(EntriesOf(p), p.names, i))
    && forall i :: 0 <= i < |p.names| ==> LeftAlone(p, p.names[i])
  }

  predicate LeftAlone(p: Plan, d: Rendered) {
    var k := RecordedKey(p.first.app.status, d);
    k != d.manifest.key ==> !Renders(p.names, k)
  }

  predicate LabelsStand(p: Plan, s: Server, t: Server) {
    forall i :: 0 <= i < |p.names| ==> LabelStands(p.first.app.status, s, t, p.names[i])
  }

  /** Nothing new has been recorded since the beginning. */
  predicate Unrecorded(p: Plan, w: World) {
    SameRecords(p.first.app.status, w.app.status) && LabelsStand(p, p.first.server, w.server)
  }

  /** The names that are drawn have been recorded at some point, from this basis. */
  ghost predicate RecordedFrom(p: Plan, w: World, b: Basis, ws: seq<Rendered>) {
    && b.cat == p.cat && b.spec == p.first.app.spec && Draws(b, ws) && AllSameNames(p.names, ws)
    && Records(w.app.status, ws) && forall i :: 0 <= i < |ws| ==> LabelKept(b.server, w.server, ws[i])
  }

  ghost predicate Recalls(p: Plan, w: World) {
    exists b: Basis, ws: seq<Rendered> :: RecordedFrom(p, w, b, ws)
  }

  ghost predicate OnPlan(p: Plan, w: World) {
    w.app.spec == p.first.app.spec && (Unrecorded(p, w) || Recalls(p, w))
  }

  lemma FirstIsOnPlan(p: Plan, w: World)
    requires w == p.first
    ensures OnPlan(p, w)
  {
  }

  lemma UnrecordedDraws(p: Plan, w: World, c: Basis, ds: seq<Rendered>)
    requires IsPlan(p) && Unrecorded(p, w) && Draws(FirstBasis(p), p.names) && Draws(c, ds)
    requires c.cat == p.cat && c.spec == p.first.app.spec && c.status == w.app.status && c.server.objects == w.server.objects
    ensures AllSameNames(p.names, ds)
  {
    var b := FirstBasis(p);
    forall i | 0 <= i < |p.names| ensures LabelStands(b.status, b.server, c.server, p.names[i]) {
      assert LabelStands(p.first.app.status, p.first.server, w.server, p.names[i]);
    }
    DrawnBeforeRecorded(b, p.names, c, ds);
  }

  lemma RecordedDraws(p: Plan, w: World, b: Basis, ws: seq<Rendered>, c: Basis, ds: seq<Rendered>)
    requires IsPlan(p) && RecordedFrom(p, w, b, ws) && Draws(c, ds)
    requires c.cat == p.cat && c.spec == p.first.app.spec && c.status == w.app.status && c.server.objects == w.server.objects
    ensures AllSameNames(p.names, ds)
  {
    forall i | 0 <= i < |ws| ensures LabelKept(b.server, c.server, ws[i]) {
      assert LabelKept(b.server, w.server, ws[i]);
    }
    AllRenderedAgainAlike(b, ws, c, ds);
    SameNamesTwice(p.names, ws, ds);
  }

  /** On the plan its names of the plan are drawn, if anything is. */
  lemma OnPlanDraws(p: Plan, w: World, ds: seq<Rendered>)
    requires IsPlan(p) && OnPlan(p, w)
    requires DrawnFrom(Basis(p.cat, w.app.spec, w.app.status, Tick(w.server))) == Some(ds)
    ensures AllSameNames(p.names, ds)
  {
    var c := Basis(p.cat, w.app.spec, w.app.status, Tick(w.server));
    DrawnDraws(FirstBasis(p), p.names);
    DrawnDraws(c, ds);
    if Unrecorded(p, w) {
      UnrecordedDraws(p, w, c, ds);
    } else {
      var b: Basis, ws: seq<Rendered> :| RecordedFrom(p, w, b, ws);
      RecordedDraws(p, w, b, ws, c, ds);
    }
  }

  // ---------- labels, however an Apply ends ----------

  predicate TraitsBring(ts: seq<RenderedTrait>, k: Key, revision: string) {
    forall j :: 0 <= j < |ts| ==> Brings(ts[j].manifest, k, revision)
  }

  predicate AllBring(ws: seq<Rendered>, k: Key, revision: string) {
    forall i :: 0 <= i < |ws| ==> Brings(ws[i].manifest, k, revision) && TraitsBring(ws[i].traits, k, revision)
  }

  lemma ObjectKeepsLabel(c: Config, m: Manifest, patching: bool, s: Server, k: Key, revision: string)
    requires Labelled(s, k, revision) && Brings(m, k, revision)
    ensures Labelled(ApplyObject(c, m, patching, s).server, k, revision)
  {
  }

  lemma {:induction false} TraitsKeepLabel(c: Config, ts: seq<RenderedTrait>, s: Server, k: Key, revision: string)
    requires Labelled(s, k, revision) && TraitsBring(ts, k, revision)
    ensures Labelled(ApplyTraits(c, ts, s).server, k, revision)
    decreases |ts|
  {
    if ts != [] {
      var p := if ts[0].hasDep then Progress(s, Done) else ApplyObject(c, ts[0].manifest, false, s);
      assert Brings(ts[0].manifest, k, revision);
      ObjectKeepsLabel(c, ts[0].manifest, false, s, k, revision);
      if p.result == Done { TraitsKeepLabel(c, ts[1..], p.server, k, revision); }
    }
  }

  lemma WorkloadKeepsLabel(c: Config, w: Rendered, s: Server, k: Key, revision: string)
    requires Labelled(s, k, revision) && Brings(w.manifest, k, revision) && TraitsBring(w.traits, k, revision)
    ensures Labelled(ApplyWorkload(c, w, s).server, k, revision)
  {
    var p := if w.hasDep then Progress(s, Done) else ApplyObject(c, w.manifest, true, s);
    ObjectKeepsLabel(c, w.manifest, true, s, k, revision);
    if p.result == Done {
      TraitsKeepLabel(c, w.traits, p.server, k, revision);
      ScopesLeaveObjects(c, w.manifest.key, w.scopes, ApplyTraits(c, w.traits, p.server).server);
    }
  }

  lemma {:induction false} WorkloadsKeepLabel(c: Config, ws: seq<Rendered>, s: Server, k: Key, revision: string)
    requires Labelled(s, k, revision) && AllBring(ws, k, revision)
    ensures Labelled(ApplyWorkloads(c, ws, s).server, k, revision)
    decreases |ws|
  {
    if ws != [] {
      var p := ApplyWorkload(c, ws[0], s);
      assert Brings(ws[0].manifest, k, revision) && TraitsBring(ws[0].traits, k, revision);
      WorkloadKeepsLabel(c, ws[0], s, k, revision);
      if p.result == Done { WorkloadsKeepLabel(c, ws[1..], p.server, k, revision); }
    }
  }

  /** A rendered workload that carries its revision's label keeps it through an Apply, wherever that stops. */
  lemma ApplyKeepsLabel(c: Config, status: seq<WorkloadStatus>, ws: seq<Rendered>, s: Server, k: Key, revision: string)
    requires Labelled(s, k, revision) && AllBring(ws, k, revision)
    ensures Labelled(Applied(c, status, ws, s).server, k, revision)
  {
    WorkloadsKeepLabel(c, ws, s, k, revision);
    DereferenceLeavesObjects(c, status, ws, ApplyWorkloads(c, ws, s).server);
  }

  lemma RenderedBring(env: Env, app: App, s: Server, ws: seq<Rendered>, i: nat)
    requires RenderFor(env, app, s) == Some(ws) && KeepsItsLabels(app.spec.components, ws, i)
    ensures AllBring(ws, ws[i].manifest.key, ws[i].revisionName)
  {
    forall l | 0 <= l < |ws|
      ensures Brings(ws[l].manifest, ws[i].manifest.key, ws[i].revisionName)
      ensures TraitsBring(ws[l].traits, ws[i].manifest.key, ws[i].revisionName)
    {
      assert Offers(ws[l], ws[l].manifest);
      OfferedBrings(env, app, s, ws, i, l, ws[l].manifest);
      forall j | 0 <= j < |ws[l].traits| ensures Brings(ws[l].traits[j].manifest, ws[i].manifest.key, ws[i].revisionName) {
        assert Offers(ws[l], ws[l].traits[j].manifest);
        OfferedBrings(env, app, s, ws, i, l, ws[l].traits[j].manifest);
      }
    }
  }

  lemma KeepsItsLabelsAlike(es: seq<ComponentEntry>, ds: seq<Rendered>, ws: seq<Rendered>, i: nat)
    requires KeepsItsLabels(es, ds, i) && AllSameNames(ds, ws)
    ensures KeepsItsLabels(es, ws, i)
  {
    forall l | 0 <= l < |ws|
      ensures |es[l].traits| == |ws[l].traits|
      ensures ApplyOnceRuns.Contains(ws[l], ws[i].manifest.key) ==> ApplyOnceRuns.Contains(ds[l], ds[i].manifest.key)
    {
      assert SameNames(ds[l], ws[l]) && SameNames(ds[i], ws[i]);
      if RendersTrait(ws[l].traits, ws[i].manifest.key) {
        var j :| 0 <= j < |ws[l].traits| && ws[l].traits[j].manifest.key == ws[i].manifest.key;
        assert ds[l].traits[j].manifest.key == ds[i].manifest.key;
        assert RendersTrait(ds[l].traits, ds[i].manifest.key);
      }
    }
    assert SameNames(ds[i], ws[i]);
  }

  // ---------- a round of the stretch ----------

  lemma RendersAlike(ds: seq<Rendered>, ws: seq<Rendered>, k: Key)
    requires AllSameNames(ds, ws) && Renders(ws, k)
    ensures Renders(ds, k)
  {
    var i :| 0 <= i < |ws| && (ws[i].manifest.key == k || RendersTrait(ws[i].traits, k));
    assert SameNames(ds[i], ws[i]);
    if RendersTrait(ws[i].traits, k) {
      var j :| 0 <= j < |ws[i].traits| && ws[i].traits[j].manifest.key == k;
      assert ds[i].traits[j].manifest.key == k;
      assert RendersTrait(ds[i].traits, k);
    }
  }

  lemma HandedIsRendered(ws: seq<Rendered>, k: Key)
    requires Hands(ws, k)
    ensures Renders(ws, k)
  {
    var i :| 0 <= i < |ws| && HandsIn(ws[i], k);
    if HandsTrait(ws[i].traits, k) {
      var j :| 0 <= j < |ws[i].traits| && !ws[i].traits[j].hasDep && ws[i].traits[j].manifest.key == k;
      assert RendersTrait(ws[i].traits, k);
    }
  }

  lemma RoundKeepsLabel(env: Env, w: World, ws: seq<Rendered>, i: nat)
    requires Bare(w.app.status) && Syncing(env, w) && RenderFor(env, w.app, Tick(w.server)) == Some(ws)
    requires KeepsItsLabels(w.app.spec.components, ws, i)
    ensures LabelKept(w.server, Reconciled(env, w).server, ws[i])
  {
    var k, revision := ws[i].manifest.key, ws[i].revisionName;
    if Labelled(w.server, k, revision) {
      RenderedBring(env, w.app, Tick(w.server), ws, i);
      ApplyKeepsLabel(ConfigFor(env, w.app), w.app.status, ws, Tick(w.server), k, revision);
      SyncObjects(env, w, ws, k);
    }
  }

  /** What the plan draws, and what the round renders. */
  lemma RoundOfPlan(p: Plan, env: Env, w: World, ws: seq<Rendered>)
    requires IsPlan(p) && OnPlan(p, w) && env.cat == p.cat && RenderFor(env, w.app, Tick(w.server)) == Some(ws)
    ensures AllSameNames(p.names, ws)
  {
    var ds := GatedKeepsNames(env, w.app, Tick(w.server), ws);
    OnPlanDraws(p, w, ds);
    SameNamesTwice(p.names, ds, ws);
  }

  lemma RoundStands(p: Plan, env: Env, w: World, ws: seq<Rendered>, i: nat)
    requires IsPlan(p) && w.app.spec == p.first.app.spec && Bare(w.app.status) && Syncing(env, w)
    requires RenderFor(env, w.app, Tick(w.server)) == Some(ws) && AllSameNames(p.names, ws) && i < |p.names|
    ensures LabelStands(p.first.app.status, w.server, Reconciled(env, w).server, p.names[i])
  {
    var k := RecordedKey(p.first.app.status, p.names[i]);
    assert SameNames(p.names[i], ws[i]) && KeepsItsLabels(EntriesOf(p), p.names, i) && LeftAlone(p, p.names[i]);
    KeepsItsLabelsAlike(EntriesOf(p), p.names, ws, i);
    RoundKeepsLabel(env, w, ws, i);
    if k != p.names[i].manifest.key && k in Reconciled(env, w).server.objects {
      if Hands(ws, k) {
        HandedIsRendered(ws, k);
        RendersAlike(p.names, ws, k);
      }
      UnhandedStays(env, w, k);
    }
  }

  lemma RoundLetsLabelsStand(p: Plan, env: Env, w: World)
    requires IsPlan(p) && OnPlan(p, w) && Bare(w.app.status) && env.cat == p.cat
    ensures LabelsStand(p, w.server, Reconciled(env, w).server)
  {
    if Syncing(env, w) && RenderFor(env, w.app, Tick(w.server)).Some? {
      var ws := RenderFor(env, w.app, Tick(w.server)).value;
      RoundOfPlan(p, env, w, ws);
      forall i | 0 <= i < |p.names| ensures LabelStands(p.first.app.status, w.server, Reconciled(env, w).server, p.names[i]) {
        RoundStands(p, env, w, ws, i);
      }
    } else {
      NotSyncingLeavesObjects(env, w);
    }
  }

  lemma StandsTwice(p: Plan, s: Server, t: Server, u: Server)
    requires LabelsStand(p, s, t) && LabelsStand(p, t, u)
    ensures LabelsStand(p, s, u)
  {
    forall i | 0 <= i < |p.names| ensures LabelStands(p.first.app.status, s, u, p.names[i]) {
      assert LabelStands(p.first.app.status, s, t, p.names[i]) && LabelStands(p.first.app.status, t, u, p.names[i]);
    }
  }

  lemma SameRecordsTwice(a: seq<WorkloadStatus>, b: seq<WorkloadStatus>, c: seq<WorkloadStatus>)
    requires SameRecords(a, b) && SameRecords(b, c)
    ensures SameRecords(a, c)
  {
    forall i | 0 <= i < |a| ensures SameRefs(c[i], a[i]) {
      assert SameRefs(b[i], a[i]) && SameRefs(c[i], b[i]);
      forall j | 0 <= j < |c[i].traits| ensures c[i].traits[j].(status := "") == a[i].traits[j].(status := "") {
        assert c[i].traits[j].(status := "") == b[i].traits[j].(status := "");
      }
    }
  }

  /** While the names in the status stay and the labels stand, a world stays on the plan. */
  lemma StaysOnPlan(p: Plan, w: World, v: World)
    requires OnPlan(p, w) && v.app.spec == w.app.spec && SameRecords(w.app.status, v.app.status) && LabelsStand(p, w.server, v.server)
    ensures OnPlan(p, v)
  {
    if Unrecorded(p, w) {
      SameRecordsTwice(p.first.app.status, w.app.status, v.app.status);
      StandsTwice(p, p.first.server, w.server, v.server);
    } else {
      var b: Basis, ws: seq<Rendered> :| RecordedFrom(p, w, b, ws);
      RecordsKeptByTexts(w.app.status, v.app.status, ws);
      forall i | 0 <= i < |ws| ensures LabelKept(b.server, v.server, ws[i]) {
        assert LabelStands(p.first.app.status, w.server, v.server, p.names[i]) && SameNames(p.names[i], ws[i]);
        assert LabelKept(b.server, w.server, ws[i]);
      }
      assert RecordedFrom(p, v, b, ws);
    }
  }

  lemma RecordedNow(p: Plan, w: World, v: World, b: Basis, ws: seq<Rendered>)
    requires b.cat == p.cat && b.spec == p.first.app.spec && b.server.objects == w.server.objects && Draws(b, ws)
    requires AllSameNames(p.names, ws) && LabelsStand(p, w.server, v.server) && Records(v.app.status, ws)
    ensures Recalls(p, v)
  {
    forall i | 0 <= i < |ws| ensures LabelKept(b.server, v.server, ws[i]) {
      assert LabelStands(p.first.app.status, w.server, v.server, p.names[i]) && SameNames(p.names[i], ws[i]);
    }
    assert RecordedFrom(p, v, b, ws);
  }

  /** A round that changes the status records what it renders. */
  lemma ChangeRecords(env: Env, w: World) returns (ws: seq<Rendered>)
    requires Reconciled(env, w).app.status != w.app.status
    ensures RenderFor(env, w.app, Tick(w.server)) == Some(ws) && Records(Reconciled(env, w).app.status, ws)
  {
    var rendered, s := StatusChangesOnlyOnSuccess(env, w);
    ws := rendered;
    PatchKeepsReferences(StatusesOf(ws), w.app.status);
  }

  /** A round that writes the status records the names of the plan. */
  lemma RecordingStaysOnPlan(p: Plan, env: Env, w: World)
    requires IsPlan(p) && OnPlan(p, w) && Bare(w.app.status) && env.cat == p.cat
    requires Reconciled(env, w).app.status != w.app.status
    ensures Recalls(p, Reconciled(env, w))
  {
    var ws := ChangeRecords(env, w);
    RoundOfPlan(p, env, w, ws);
    RoundDraws(env, w.app, Tick(w.server));
    RoundLetsLabelsStand(p, env, w);
    RecordedNow(p, w, Reconciled(env, w), BasisOf(env, w.app, Tick(w.server)), ws);
  }

  lemma RoundKeepsSpec(env: Env, w: World)
    ensures Reconciled(env, w).app.spec == w.app.spec
  {
  }

  /** However it ends, a round stays on the plan. */
  lemma RoundStaysOnPlan(p: Plan, env: Env, w: World)
    requires IsPlan(p) && OnPlan(p, w) && Bare(w.app.status) && env.cat == p.cat
    ensures OnPlan(p, Reconciled(env, w))
  {
    RoundKeepsSpec(env, w);
    if Reconciled(env, w).app.status == w.app.status {
      RoundLetsLabelsStand(p, env, w);
      StaysOnPlan(p, w, Reconciled(env, w));
    } else {
      RecordingStaysOnPlan(p, env, w);
    }
  }

  // ---------- whole stretches ----------

  /** Rounds under the catalogue of the plan, however they end, and others who let the labels stand. */
  ghost predicate Undisturbed(p: Plan, w: World, v: World, e: Event) {
    match e
    case Round(env) => env.cat == p.cat
    case Others => LabelsStand(p, w.server, v.server)
    case _ => false
  }

  ghost predicate UndisturbedAt(p: Plan, worlds: seq<World>, events: seq<Event>, t: nat)
    requires |worlds| == |events| + 1
  {
    t < |events| && Undisturbed(p, worlds[t], worlds[t + 1], events[t])
  }

  ghost predicate UndisturbedBetween(p: Plan, worlds: seq<World>, events: seq<Event>, a: nat, b: nat)
    requires |worlds| == |events| + 1
  {
    b <= |events| && forall t: nat {:trigger UndisturbedAt(p, worlds, events, t)} :: a <= t < b ==> UndisturbedAt(p, worlds, events, t)
  }

  lemma StepStaysOnPlan(p: Plan, worlds: seq<World>, events: seq<Event>, ours: set<Key>, t: nat)
    requires IsLife(worlds, events, ours) && IsPlan(p) && UndisturbedAt(p, worlds, events, t) && OnPlan(p, worlds[t])
    ensures OnPlan(p, worlds[t + 1])
  {
    StepInLife(worlds, events, ours, t);
    match events[t] {
      case Round(env) => RoundStaysOnPlan(p, env, worlds[t]);
      case Others => StaysOnPlan(p, worlds[t], worlds[t + 1]);
      case Edit(_) =>
      case Delete =>
    }
  }

  lemma {:induction false} StepByStep(holds: nat -> bool, a: nat, t: nat)
    requires a <= t && holds(a) && forall n: nat :: a <= n < t && holds(n) ==> holds(n + 1)
    ensures holds(t)
    decreases t
  {
    if a < t { StepByStep(holds, a, t - 1); }
  }

  ghost predicate OnPlanAt(p: Plan, worlds: seq<World>, t: nat) {
    t < |worlds| && OnPlan(p, worlds[t])
  }

  lemma NextOnPlan(p: Plan, worlds: seq<World>, events: seq<Event>, ours: set<Key>, a: nat, t: nat, b: nat)
    requires IsLife(worlds, events, ours) && IsPlan(p) && a <= t < b && UndisturbedBetween(p, worlds, events, a, b)
    ensures OnPlanAt(p, worlds, t) ==> OnPlanAt(p, worlds, t + 1)
  {
    if OnPlanAt(p, worlds, t) {
      assert UndisturbedAt(p, worlds, events, t);
      StepStaysOnPlan(p, worlds, events, ours, t);
    }
  }

  lemma StretchIsOnPlan(p: Plan, worlds: seq<World>, events: seq<Event>, ours: set<Key>, a: nat, t: nat, b: nat)
    requires IsLife(worlds, events, ours) && IsPlan(p) && a <= t <= b && UndisturbedBetween(p, worlds, events, a, b)
    requires p.first == worlds[a]
    ensures OnPlan(p, worlds[t])
  {
    FirstIsOnPlan(p, worlds[a]);
    assert OnPlanAt(p, worlds, a);
    forall n: nat | a <= n < t ensures OnPlanAt(p, worlds, n) ==> OnPlanAt(p, worlds, n + 1) {
      NextOnPlan(p, worlds, events, ours, a, n, b);
    }
    StepByStep((n: nat) => OnPlanAt(p, worlds, n), a, t);
    assert OnPlanAt(p, worlds, t);
  }

  /** As long as the spec stays the same, and whatever fails, every round that renders anything renders the same names:
      those drawn at the beginning. */
  lemma UnchangedSpecRendersTheSame(p: Plan, worlds: seq<World>, events: seq<Event>, ours: set<Key>, a: nat, t: nat, b: nat)
    requires IsLife(worlds, events, ours) && IsPlan(p) && a <= t < b && UndisturbedBetween(p, worlds, events, a, b) && p.first == worlds[a]
    requires events[t].Round? && RenderFor(events[t].env, worlds[t].app, Tick(worlds[t].server)).Some?
    ensures AllSameNames(p.names, RenderFor(events[t].env, worlds[t].app, Tick(worlds[t].server)).value)
  {
    StretchIsOnPlan(p, worlds, events, ours, a, t, b);
    assert UndisturbedAt(p, worlds, events, t);
    RoundOfPlan(p, events[t].env, worlds[t], RenderFor(events[t].env, worlds[t].app, Tick(worlds[t].server)).value);
  }

  // ---------- one graph ----------

  function PlanGraph(p: Plan): seq<Dependencies.Component>
    requires Aligned(EntriesOf(p), p.names)
  {
    GraphOf(EntriesOf(p), p.names)
  }

  lemma SameNode(d: Manifest, e: Manifest, inputs: seq<Dependencies.DataInput>, outputs: seq<Dependencies.DataOutput>)
    requires d.key == e.key
    ensures DependencyRounds.SameNode(NodeOf(d, inputs, outputs), NodeOf(e, inputs, outputs))
  {
    Trees.ReadsBack(d.key, d.body);
    Trees.ReadsBack(e.key, e.body);
  }

  lemma SameNamesSameGraph(es: seq<ComponentEntry>, ds: seq<Rendered>, fs: seq<Rendered>)
    requires Aligned(es, ds) && Aligned(es, fs) && AllSameNames(ds, fs)
    ensures DependencyRounds.SameGraph(GraphOf(es, ds), GraphOf(es, fs))
  {
    var g, h := GraphOf(es, ds), GraphOf(es, fs);
    forall i | 0 <= i < |es|
      ensures DependencyRounds.SameNode(g[i].workload, h[i].workload) && DependencyRounds.SameNodes(g[i].traits, h[i].traits)
    {
      assert SameNames(ds[i], fs[i]);
      SameNode(ds[i].manifest, fs[i].manifest, es[i].inputs, es[i].outputs);
      forall j | 0 <= j < |es[i].traits| ensures DependencyRounds.SameNode(g[i].traits[j], h[i].traits[j]) {
        SameNode(ds[i].traits[j].manifest, fs[i].traits[j].manifest, es[i].traits[j].inputs, es[i].traits[j].outputs);
      }
    }
  }

  lemma OnPlanDrawsGraph(p: Plan, env: Env, w: World)
    requires IsPlan(p) && OnPlan(p, w) && env.cat == p.cat
    ensures DrawsGraph(env, w, PlanGraph(p))
  {
    var drawn := RenderAll(env.cat, w.app.spec, w.app.status, Tick(w.server), w.app.spec.components);
    if drawn.Some? {
      OnPlanDraws(p, w, drawn.value);
      SameNamesSameGraph(EntriesOf(p), p.names, drawn.value);
    }
  }

  /** An unchanged spec draws one graph. */
  lemma UnchangedSpecDrawsOneGraph(p: Plan, worlds: seq<World>, events: seq<Event>, ours: set<Key>, a: nat, b: nat)
    requires IsLife(worlds, events, ours) && IsPlan(p) && a <= b && UndisturbedBetween(p, worlds, events, a, b) && p.first == worlds[a]
    ensures GraphBetween(worlds, events, a, b, PlanGraph(p))
  {
    forall t: nat | a <= t < b ensures GraphStepAt(worlds, events, t, PlanGraph(p)) {
      StretchIsOnPlan(p, worlds, events, ours, a, t, b);
      assert UndisturbedAt(p, worlds, events, t);
      if events[t].Round? { OnPlanDrawsGraph(p, events[t].env, worlds[t]); }
    }
  }

  lemma {:induction false} NodesKeepKeys(app: seq<Dependencies.Component>)
    requires forall i :: 0 <= i < |app| ==> Dependencies.KeepsKey(app[i].workload.inputs)
    requires forall i, j :: 0 <= i < |app| && 0 <= j < |app[i].traits| ==> Dependencies.KeepsKey(app[i].traits[j].inputs)
    ensures DependencyRounds.KeepsKeys(app)
  {
    if app != [] {
      NodesKeepKeys(app[1..]);
      var nodes, d := Dependencies.Nodes(app), 1 + |app[0].traits|;
      forall n | 0 <= n < |nodes| ensures Dependencies.KeepsKey(nodes[n].inputs) {
        if 0 < n < d {
          assert nodes[n] == app[0].traits[n - 1];
        } else if n >= d {
          assert nodes[n] == Dependencies.Nodes(app[1..])[n - d];
        }
      }
    }
  }

  lemma PlanKeepsKeys(p: Plan)
    requires IsPlan(p)
    ensures DependencyRounds.KeepsKeys(PlanGraph(p))
  {
    var es := EntriesOf(p);
    forall i | 0 <= i < |es| ensures Dependencies.KeepsKey(es[i].inputs) && TraitsKeepKeys(es[i]) {
      assert OnlyOneFor(es, i);
    }
    NodesKeepKeys(PlanGraph(p));
  }

  /** The keys at a component's position among the nodes. */
  lemma KeysAt(nodes: seq<Dependencies.Node>, o: nat, e: ComponentEntry, d: Rendered)
    requires |e.traits| == |d.traits| && IsAt(nodes, o, GraphComponent(e, d))
    ensures d.manifest.key in DependencyRounds.KeysOf(nodes)
    ensures forall j :: 0 <= j < |d.traits| ==> d.traits[j].manifest.key in DependencyRounds.KeysOf(nodes)
  {
    var c := GraphComponent(e, d);
    Trees.ReadsBack(d.manifest.key, d.manifest.body);
    forall j | 0 <= j < |d.traits| ensures d.traits[j].manifest.key in DependencyRounds.KeysOf(nodes) {
      Trees.ReadsBack(d.traits[j].manifest.key, d.traits[j].manifest.body);
      assert nodes[o + 1..o + 1 + |c.traits|][j] == nodes[o + 1 + j];
      assert Headers.KeyOf(nodes[o + 1 + j].content) == d.traits[j].manifest.key;
    }
  }

  /** What is rendered is an object of the graph. */
  lemma RenderedIsNode(es: seq<ComponentEntry>, ds: seq<Rendered>, k: Key)
    requires Aligned(es, ds) && Renders(ds, k)
    ensures k in DependencyRounds.KeysOf(Dependencies.Nodes(GraphOf(es, ds)))
  {
    var i :| 0 <= i < |ds| && (ds[i].manifest.key == k || RendersTrait(ds[i].traits, k));
    NodeAt(es, ds, i);
    KeysAt(Dependencies.Nodes(GraphOf(es, ds)), Offset(ds, i), es[i], ds[i]);
  }

  // ---------- the same workloads in the same scopes ----------

  lemma ScopesDrawn(b: Basis, e: ComponentEntry, w: Rendered)
    requires DrawsEntry(b, e, w)
    ensures |w.scopes| == |e.scopes| && forall j :: 0 <= j < |e.scopes| ==> w.scopes[j].key == e.scopes[j]
  {
    ScopesAreRead(b.server, e.scopes);
  }

  lemma HasScopeAlike(b: Basis, w: Rendered, c: Basis, v: Rendered, e: ComponentEntry, k: Key)
    requires DrawsEntry(b, e, w) && DrawsEntry(c, e, v) && HasScope(w.scopes, k)
    ensures HasScope(v.scopes, k)
  {
    ScopesDrawn(b, e, w);
    ScopesDrawn(c, e, v);
    var j :| 0 <= j < |w.scopes| && w.scopes[j].key == k;
    assert v.scopes[j].key == k;
  }

  lemma PairsAlike(b: Basis, ws: seq<Rendered>, c: Basis, vs: seq<Rendered>, x: Key, k: Key)
    requires Draws(b, ws) && Draws(c, vs) && b.spec == c.spec && AllSameNames(ws, vs) && ScopeMembership.RenderedPair(ws, x, k)
    ensures ScopeMembership.RenderedPair(vs, x, k)
  {
    var i :| 0 <= i < |ws| && ws[i].manifest.key == x && HasScope(ws[i].scopes, k);
    HasScopeAlike(b, ws[i], c, vs[i], b.spec.components[i], k);
    assert SameNames(ws[i], vs[i]);
  }

  lemma AllSameNamesBack(ds: seq<Rendered>, es: seq<Rendered>)
    requires AllSameNames(ds, es)
    ensures AllSameNames(es, ds)
  {
    forall i | 0 <= i < |ds| ensures SameNames(es[i], ds[i]) {
      assert SameNames(ds[i], es[i]);
    }
  }

  /** The round renders and applies; the network works, nobody else controls the objects, and the scopes can be joined
      and left. */
  ghost predicate SoundRound(env: Env, w: World) {
    && Syncing(env, w) && RenderFor(env, w.app, Tick(w.server)).Some?
    && ScopeRetries.WellFormed(AttemptOf(env, w), w.app.status)
  }

  lemma SoundIsWellFormed(p: Plan, env: Env, w: World)
    requires IsPlan(p) && OnPlan(p, w) && env.cat == p.cat && SoundRound(env, w)
    ensures WellFormedRound(env, w, p.names)
  {
    var ws := RenderFor(env, w.app, Tick(w.server)).value;
    var b, c := FirstBasis(p), BasisOf(env, w.app, Tick(w.server));
    DrawnDraws(b, p.names);
    RoundDraws(env, w.app, Tick(w.server));
    RoundOfPlan(p, env, w, ws);
    AllSameNamesBack(p.names, ws);
    forall x, k ensures ScopeMembership.RenderedPair(p.names, x, k) <==> ScopeMembership.RenderedPair(ws, x, k) {
      if ScopeMembership.RenderedPair(p.names, x, k) { PairsAlike(b, p.names, c, ws, x, k); }
      if ScopeMembership.RenderedPair(ws, x, k) { PairsAlike(c, ws, b, p.names, x, k); }
    }
  }

  // ---------- everything is applied ----------

  /** Sound rounds, and others who leave scopes as they are, let the labels stand and delete none of the objects. */
  ghost predicate CalmAt(p: Plan, worlds: seq<World>, events: seq<Event>, t: nat)
    requires |worlds| == |events| + 1 && Aligned(EntriesOf(p), p.names)
  {
    && UndisturbedAt(p, worlds, events, t)
    && (events[t].Round? ==> SoundRound(events[t].env, worlds[t]))
    && (events[t].Others? ==>
          && ScopeMembership.ScopesAlike(worlds[t].server, worlds[t + 1].server)
          && SparesAt(worlds, events, t, PlanGraph(p)))
  }

  ghost predicate CalmBetween(p: Plan, worlds: seq<World>, events: seq<Event>, a: nat, b: nat)
    requires |worlds| == |events| + 1 && Aligned(EntriesOf(p), p.names)
  {
    b <= |events| && forall t: nat {:trigger CalmAt(p, worlds, events, t)} :: a <= t < b ==> CalmAt(p, worlds, events, t)
  }

  lemma CalmIsUndisturbed(p: Plan, worlds: seq<World>, events: seq<Event>, a: nat, b: nat)
    requires |worlds| == |events| + 1 && Aligned(EntriesOf(p), p.names) && CalmBetween(p, worlds, events, a, b)
    ensures UndisturbedBetween(p, worlds, events, a, b) && SparedBetween(worlds, events, a, b, PlanGraph(p))
  {
    forall t: nat | a <= t < b ensures UndisturbedAt(p, worlds, events, t) && SparesAt(worlds, events, t, PlanGraph(p)) {
      assert CalmAt(p, worlds, events, t);
    }
  }

  lemma CalmIsSteady(p: Plan, worlds: seq<World>, events: seq<Event>, ours: set<Key>, a: nat, b: nat)
    requires IsLife(worlds, events, ours) && IsPlan(p) && a <= b && CalmBetween(p, worlds, events, a, b) && p.first == worlds[a]
    ensures SteadyBetween(worlds, events, a, b, p.names)
  {
    CalmIsUndisturbed(p, worlds, events, a, b);
    forall t: nat | a <= t < b ensures SteadyAt(worlds, events, t, p.names) {
      assert CalmAt(p, worlds, events, t);
      StretchIsOnPlan(p, worlds, events, ours, a, t, b);
      if events[t].Round? { SoundIsWellFormed(p, events[t].env, worlds[t]); }
    }
  }

  /** Reconciles converge: while a well-formed acyclic spec stays the same, its sources are filled, and nothing else goes
      wrong, every workload and trait that it draws is in place after as many rounds as it has objects, plus one for each
      scope reference that was lacking. */
  lemma EverythingIsApplied(p: Plan, worlds: seq<World>, events: seq<Event>, ours: set<Key>, a: nat, b: nat)
    requires IsLife(worlds, events, ours) && IsPlan(p) && a <= b && CalmBetween(p, worlds, events, a, b) && p.first == worlds[a]
    requires DependencyRounds.Acyclic(PlanGraph(p)) && FilledBetween(worlds, events, a, b, PlanGraph(p))
    requires RoundsBetween(events, a, b) >= |Dependencies.Nodes(PlanGraph(p))| + |LackingIn(p.names, worlds[a].server)|
    ensures forall k :: Renders(p.names, k) ==> k in worlds[b].server.objects
  {
    CalmIsUndisturbed(p, worlds, events, a, b);
    UnchangedSpecDrawsOneGraph(p, worlds, events, ours, a, b);
    CalmIsSteady(p, worlds, events, ours, a, b);
    PlanKeepsKeys(p);
    GraphIsApplied(worlds, events, ours, a, b, PlanGraph(p), p.names);
    forall k | Renders(p.names, k) ensures k in worlds[b].server.objects {
      RenderedIsNode(EntriesOf(p), p.names, k);
    }
  }
}
