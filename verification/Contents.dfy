/** What rendered objects say: their drafts, and the values of their inputs, up to what Apply creates. */
module Contents {
  import opened Wrappers
  import opened Kube
  import opened Labels
  import opened FieldPaths
  import opened Trees
  import opened Dependencies
  import opened Gating
  import Apply
  import AppStatus
  import ApplyOnce
  import Cluster
  import Drawing = Rendering
  import DependencyReconcile
  import Reconcile
  import RenderedFacts
  import Revisions

  /** What a path leads to in an object's content. */
  function In(content: Cluster.Fields, p: Path): Finding {
    Walk(Object(content), p)
  }

  /** A path into an object's content, beside its type and metadata. */
  predicate Inward(p: Path) {
    p != [] && p[0] !in RESERVED
  }

  lemma TreeHolds(k: Key, b: Cluster.Body, p: Path)
    requires Inward(p)
    ensures Get(TreeOf(k, b), p) == In(b.content, p)
  {
  }

  lemma ReadHolds(v: Value, p: Path)
    requires Inward(p) && v.Object?
    ensures In(BodyOf(v).content, p) == Get(v, p)
  {
  }

  // ---------- one object through the gate ----------

  lemma {:induction false} FillStaysObject(obj: Value, paths: seq<Path>, v: Value)
    requires obj.Object? && FillAll(obj, paths, v).Some?
    ensures FillAll(obj, paths, v).value.Object?
    decreases |paths|
  {
    if paths != [] { FillStaysObject(FillOne(obj, paths[0], v).value, paths[1..], v); }
  }

  lemma {:induction false} InputsLeaveObject(inputs: seq<DataInput>, sources: Sources, obj: Value, snap: Snapshot, ac: Value)
    requires obj.Object? && !HandleInputs(inputs, sources, obj, snap, ac).Broken?
    ensures HandleInputs(inputs, sources, obj, snap, ac).obj.Object?
    decreases |inputs|
  {
    if inputs != [] {
      var next, r := FillFrom(inputs[0], sources, obj, snap, ac), SourceReading(inputs[0], sources, snap, ac);
      OneInput(inputs[0], sources, obj, snap, ac);
      if next != obj { FillStaysObject(obj, inputs[0].toFieldPaths, r.value); }
      if HandleInput(inputs[0], sources, obj, snap, ac).Filled? { InputsLeaveObject(inputs[1..], sources, next, snap, ac); }
    }
  }

  /** No input is declared to fill anything at, above or below the path. */
  predicate Untouched(inputs: seq<DataInput>, p: Path) {
    KeepsPaths(inputs, [p])
  }

  lemma GateKeepsContent(m: Apply.Manifest, inputs: seq<DataInput>, outputs: seq<DataOutput>, g: Gated, sources: Sources, snap: Snapshot, ac: Value, p: Path)
    requires IsGate(NodeOf(m, inputs, outputs), g, sources, snap, ac) && Inward(p) && Untouched(inputs, p)
    ensures In(ReadManifest(g.content).body.content, p) == In(m.body.content, p)
  {
    var t := TreeOf(m.key, m.body);
    InputsLeaveObject(inputs, sources, t, snap, ac);
    PathsKept(m, inputs, outputs, g, sources, snap, ac, [p]);
    assert Get(g.content, [p][0]) == Get(t, [p][0]);
    TreeHolds(m.key, m.body, p);
    ReadHolds(g.content, p);
  }

  lemma GateFillsIn(
    m: Apply.Manifest, inputs: seq<DataInput>, outputs: seq<DataOutput>, g: Gated, sources: Sources, snap: Snapshot, ac: Value, k: nat, j: nat, v: Value)
    requires IsGate(NodeOf(m, inputs, outputs), g, sources, snap, ac) && !g.hasDep
    requires k < |inputs| && j < |inputs[k].toFieldPaths| && Inward(inputs[k].toFieldPaths[j]) && Alone(inputs, k, j)
    requires HandsOn(inputs[k], sources, snap, ac, v)
    ensures var p := inputs[k].toFieldPaths[j];
            In(ReadManifest(g.content).body.content, p) == Found(Filling(In(m.body.content, p), v))
  {
    var t, p := TreeOf(m.key, m.body), inputs[k].toFieldPaths[j];
    InputsLeaveObject(inputs, sources, t, snap, ac);
    InputIsFilledIn(inputs, sources, t, snap, ac, k, j, v);
    TreeHolds(m.key, m.body, p);
    ReadHolds(g.content, p);
  }

  // ---------- what an object is to say ----------

  /** The keys of own, except the controller's, with their values; and those of the application that own has not. */
  ghost predicate TakesOver(labels: Labelling, own: Labelling, app: Labelling, controllers: set<string>) {
    forall key :: key !in controllers ==>
      (key in labels <==> key in own || key in app)
      && (key in labels ==> labels[key] == if key in own then own[key] else app[key])
  }

  /** m says what d says, wherever no input is declared to fill it, and has d's labels and annotations before the
      application's. */
  ghost predicate SaysAs(app: Drawing.AppSpec, d: Drawing.Draft, m: Apply.Manifest, inputs: seq<DataInput>) {
    && (forall p :: Inward(p) && Untouched(inputs, p) ==> In(m.body.content, p) == In(d.content, p))
    && (KeepsStamp(inputs) ==>
          && TakesOver(m.body.labels, d.labels, app.labels, {APP_NAME, APP_COMPONENT, APP_COMPONENT_REVISION, RESOURCE_TYPE})
          && TakesOver(m.body.annotations, d.annotations, app.annotations, {APP_GENERATION}))
  }

  /** And where an input's target path stands apart from the others, it holds what the source holds. */
  ghost predicate FilledAs(d: Drawing.Draft, m: Apply.Manifest, inputs: seq<DataInput>, sources: Sources, snap: Snapshot, ac: Value) {
    forall k, j, v | 0 <= k < |inputs| && 0 <= j < |inputs[k].toFieldPaths| && HandsOn(inputs[k], sources, snap, ac, v)
      && Inward(inputs[k].toFieldPaths[j]) && Alone(inputs, k, j) ::
      In(m.body.content, inputs[k].toFieldPaths[j]) == Found(Filling(In(d.content, inputs[k].toFieldPaths[j]), v))
  }

  /** As drawn: the whole content of the draft, and its labels and annotations under the controller's. */
  ghost predicate DrawnAs(app: Drawing.AppSpec, d: Drawing.Draft, m: Apply.Manifest) {
    && m.body.content == d.content
    && TakesOver(m.body.labels, d.labels, app.labels, {APP_NAME, APP_COMPONENT, APP_COMPONENT_REVISION, RESOURCE_TYPE})
    && TakesOver(m.body.annotations, d.annotations, app.annotations, {APP_GENERATION})
  }

  lemma GatedSays(
    app: Drawing.AppSpec, d: Drawing.Draft, m: Apply.Manifest, inputs: seq<DataInput>, outputs: seq<DataOutput>, g: Gated,
    sources: Sources, snap: Snapshot, ac: Value)
    requires DrawnAs(app, d, m) && IsGate(NodeOf(m, inputs, outputs), g, sources, snap, ac)
    ensures SaysAs(app, d, ReadManifest(g.content), inputs)
    ensures !g.hasDep ==> FilledAs(d, ReadManifest(g.content), inputs, sources, snap, ac)
  {
    var n := ReadManifest(g.content);
    ObjectKept(m, inputs, outputs, g, sources, snap, ac);
    forall p | Inward(p) && Untouched(inputs, p) ensures In(n.body.content, p) == In(d.content, p) {
      GateKeepsContent(m, inputs, outputs, g, sources, snap, ac, p);
    }
    if !g.hasDep {
      forall k, j, v | 0 <= k < |inputs| && 0 <= j < |inputs[k].toFieldPaths| && HandsOn(inputs[k], sources, snap, ac, v)
        && Inward(inputs[k].toFieldPaths[j]) && Alone(inputs, k, j)
        ensures In(n.body.content, inputs[k].toFieldPaths[j]) == Found(Filling(In(d.content, inputs[k].toFieldPaths[j]), v))
      {
        GateFillsIn(m, inputs, outputs, g, sources, snap, ac, k, j, v);
      }
    }
  }

  // ---------- a round ----------

  /** The component an entry asks for: the one stored in the revision it is pinned to, or else the one of its name. */
  predicate AsksFor(cat: Drawing.Catalogue, e: Drawing.ComponentEntry, c: Revisions.Component) {
    if e.revisionName != "" then e.revisionName in cat.revisions && cat.revisions[e.revisionName].data == Some(c)
    else e.componentName in cat.components && cat.components[e.componentName] == c
  }

  /** The workload of the component's spec, with the entry's parameters. */
  ghost predicate DrawnFor(cat: Drawing.Catalogue, e: Drawing.ComponentEntry, d: Drawing.Draft) {
    exists c :: AsksFor(cat, e, c) && cat.draw(c.spec, e.parameters) == Some(d)
  }

  lemma ManifestSays(app: Drawing.AppSpec, d: Drawing.Draft, name: string, component: string, revision: string, resourceType: string)
    ensures DrawnAs(app, d, Drawing.Manifested(app, d, name, component, revision, resourceType))
  {
  }

  lemma EntryIsDrawn(cat: Drawing.Catalogue, app: Drawing.AppSpec, status: seq<AppStatus.WorkloadStatus>, s: Cluster.Server, e: Drawing.ComponentEntry)
    returns (d: Drawing.Draft)
    requires Drawing.RenderEntry(cat, app, status, s, e).Some?
    ensures var w := Drawing.RenderEntry(cat, app, status, s, e).value;
            && DrawnFor(cat, e, d) && DrawnAs(app, d, w.manifest)
            && forall j :: 0 <= j < |w.traits| ==> DrawnAs(app, e.traits[j].draft, w.traits[j].manifest)
  {
    var w := Drawing.RenderEntry(cat, app, status, s, e).value;
    var c := Drawing.GetComponent(cat, e).value.0;
    d := cat.draw(c.spec, e.parameters).value;
    assert AsksFor(cat, e, c);
    ManifestSays(app, d, w.manifest.key.name, w.componentName, w.revisionName, WORKLOAD_RESOURCE);
    RenderedFacts.RenderedTraitsOf(cat, app, status, w.componentName, w.revisionName, e.traits);
    forall j | 0 <= j < |w.traits| ensures DrawnAs(app, e.traits[j].draft, w.traits[j].manifest) {
      ManifestSays(app, e.traits[j].draft, w.traits[j].manifest.key.name, w.componentName, w.revisionName, TRAIT_RESOURCE);
    }
  }

  /** The sources of a round: every output declared by what it draws. */
  function SourcesIn(env: Reconcile.Env, app: Reconcile.App, s: Cluster.Server): Sources
    requires Reconcile.RenderFor(env, app, s).Some?
  {
    SourcesOf(GraphOf(app.spec.components, DependencyReconcile.DrawnOf(env, app, s)))
  }

  /** A trait has become t. */
  ghost predicate TraitBecomesAs(app: Drawing.AppSpec, ct: Drawing.ComponentTrait, t: Apply.RenderedTrait, sources: Sources, snap: Snapshot, ac: Value) {
    SaysAs(app, ct.draft, t.manifest, ct.inputs) && (!t.hasDep ==> FilledAs(ct.draft, t.manifest, ct.inputs, sources, snap, ac))
  }

  /** Entry e has become w. */
  ghost predicate BecomesAs(app: Drawing.AppSpec, d: Drawing.Draft, e: Drawing.ComponentEntry, w: Apply.Rendered, sources: Sources, snap: Snapshot, ac: Value) {
    && |w.traits| == |e.traits| && SaysAs(app, d, w.manifest, e.inputs)
    && (!w.hasDep ==> FilledAs(d, w.manifest, e.inputs, sources, snap, ac))
    && forall j :: 0 <= j < |w.traits| ==> TraitBecomesAs(app, e.traits[j], w.traits[j], sources, snap, ac)
  }

  lemma RegainedTraitSays(
    app: Drawing.AppSpec, e: Drawing.ComponentEntry, w: Apply.Rendered, own: seq<Gated>, sources: Sources, snap: Snapshot, ac: Value, j: nat)
    requires |e.traits| == |w.traits| && GatesOf(GraphComponent(e, w), own, sources, snap, ac)
    requires j < |w.traits| && DrawnAs(app, e.traits[j].draft, w.traits[j].manifest)
    ensures SaysAs(app, e.traits[j].draft, ReadManifest(own[1 + j].content), e.traits[j].inputs)
    ensures !own[1 + j].hasDep ==> FilledAs(e.traits[j].draft, ReadManifest(own[1 + j].content), e.traits[j].inputs, sources, snap, ac)
  {
    assert IsGate(GraphComponent(e, w).traits[j], own[1 + j], sources, snap, ac);
    GatedSays(app, e.traits[j].draft, w.traits[j].manifest, e.traits[j].inputs, e.traits[j].outputs, own[1 + j], sources, snap, ac);
  }

  lemma RegainedSays(
    app: Drawing.AppSpec, d: Drawing.Draft, e: Drawing.ComponentEntry, w: Apply.Rendered, own: seq<Gated>, sources: Sources, snap: Snapshot, ac: Value)
    requires |e.traits| == |w.traits| && GatesOf(GraphComponent(e, w), own, sources, snap, ac)
    requires DrawnAs(app, d, w.manifest) && forall j :: 0 <= j < |w.traits| ==> DrawnAs(app, e.traits[j].draft, w.traits[j].manifest)
    ensures BecomesAs(app, d, e, Regained(w, own), sources, snap, ac)
  {
    var r := Regained(w, own);
    GatedSays(app, d, w.manifest, e.inputs, e.outputs, own[0], sources, snap, ac);
    forall j | 0 <= j < |w.traits|
      ensures TraitBecomesAs(app, e.traits[j], r.traits[j], sources, snap, ac)
    {
      RegainedTraitSays(app, e, w, own, sources, snap, ac, j);
    }
  }

  /** Whenever a round renders anything, each workload says what the draft of its component and parameters says, and each
      trait what its author wrote, at every path that no input is declared to fill; and what is not held back holds, at
      the target paths of its inputs, the values of their sources. */
  lemma RenderedSaysWhatIsDrawn(env: Reconcile.Env, app: Reconcile.App, s: Cluster.Server, i: nat) returns (d: Drawing.Draft)
    requires Reconcile.RenderFor(env, app, s).Some? && i < |Reconcile.RenderFor(env, app, s).value|
    ensures i < |app.spec.components| && DrawnFor(env.cat, app.spec.components[i], d)
    ensures BecomesAs(app.spec, d, app.spec.components[i], Reconcile.RenderFor(env, app, s).value[i],
                      SourcesIn(env, app, s), SnapshotOf(s, env.unreadable), env.tree)
  {
    var es, drawn, snap := app.spec.components, DependencyReconcile.DrawnOf(env, app, s), SnapshotOf(s, env.unreadable);
    RenderedFacts.RenderedEntries(env.cat, app.spec, app.status, s, es);
    d := EntryIsDrawn(env.cat, app.spec, app.status, s, es[i]);
    var own := GatedAt(es, drawn, snap, env.tree, i);
    RegainedSays(app.spec, d, es[i], drawn[i], own, SourcesIn(env, app, s), snap, env.tree);
  }

  // ---------- what a patch does ----------

  /** What the patch says is so afterwards. */
  lemma {:induction false} PatchSays(t: Value, patch: Value, p: Path)
    requires Walk(patch, p).Found? && !Walk(patch, p).value.Object? && !Walk(patch, p).value.Null?
    ensures Walk(Cluster.MergePatch(t, patch), p) == Walk(patch, p)
    decreases |p|
  {
    if p != [] {
      PatchSays(if t.Object? && p[0] in t.fields then t.fields[p[0]] else Null, patch.fields[p[0]], p[1..]);
    }
  }

  /** What it says nothing about stays. */
  lemma {:induction false} PatchKeeps(t: Value, patch: Value, p: Path)
    requires Walk(patch, p).NotFound? && Walk(t, p).Found?
    ensures Walk(Cluster.MergePatch(t, patch), p) == Walk(t, p)
    decreases |p|
  {
    if p[0] in patch.fields {
      PatchKeeps(t.fields[p[0]], patch.fields[p[0]], p[1..]);
    }
  }

  /** What it says is null is gone. */
  lemma {:induction false} PatchDeletes(t: Value, patch: Value, p: Path)
    requires p != [] && Walk(patch, p) == Found(Null)
    ensures Walk(Cluster.MergePatch(t, patch), p).NotFound?
    decreases |p|
  {
    if |p| > 1 {
      PatchDeletes(if t.Object? && p[0] in t.fields then t.fields[p[0]] else Null, patch.fields[p[0]], p[1..]);
    }
  }

  /** The keys of added with their values, and the others as before. */
  predicate Overlaid(labels: Labelling, was: Labelling, added: Labelling) {
    && labels.Keys == was.Keys + added.Keys
    && forall key :: key in labels ==> labels[key] == if key in added then added[key] else was[key]
  }

  /** After a patch the object says what was rendered, and as before where nothing was rendered. */
  ghost predicate PatchedAs(b: Cluster.Body, was: Cluster.Body, m: Cluster.Body) {
    && b.owner == m.owner && Overlaid(b.labels, was.labels, m.labels) && Overlaid(b.annotations, was.annotations, m.annotations)
    && (forall p :: In(m.content, p).Found? && !In(m.content, p).value.Object? && !In(m.content, p).value.Null? ==>
          In(b.content, p) == In(m.content, p))
    && (forall p :: In(m.content, p).NotFound? && In(was.content, p).Found? ==> In(b.content, p) == In(was.content, p))
    && (forall p :: p != [] && In(m.content, p) == Found(Null) ==> In(b.content, p).NotFound?)
  }

  lemma MergedIsPatched(was: Cluster.Body, m: Cluster.Body)
    ensures PatchedAs(Cluster.Merged(was, m), was, m)
  {
    var t, patch := Object(was.content), Object(m.content);
    assert Cluster.MergePatch(t, patch).Object?;
    forall p | Walk(patch, p).Found? && !Walk(patch, p).value.Object? && !Walk(patch, p).value.Null?
      ensures Walk(Cluster.MergePatch(t, patch), p) == Walk(patch, p)
    {
      PatchSays(t, patch, p);
    }
    forall p | Walk(patch, p).NotFound? && Walk(t, p).Found? ensures Walk(Cluster.MergePatch(t, patch), p) == Walk(t, p) {
      PatchKeeps(t, patch, p);
    }
    forall p | p != [] && Walk(patch, p) == Found(Null) ensures Walk(Cluster.MergePatch(t, patch), p).NotFound? {
      PatchDeletes(t, patch, p);
    }
  }

  // ---------- what Apply makes of an object ----------

  /** Absent before, the object is what was rendered. Present before, and unless resources are applied only once and it
      carries its stamp already, it is one version on: a trait is what was rendered, a workload is patched with it. */
  ghost predicate AppliedAs(once: bool, h: ApplyOnce.Handed, was: Option<Cluster.Obj>, now: Option<Cluster.Obj>) {
    match was
    case None => now.Some? && now.value.body == h.manifest.body
    case Some(o) =>
      if once && Apply.SameStamp(o.body, h.manifest.body) then now == was
      else
        && now.Some? && now.value.version == o.version + 1
        && (h.patching ==> PatchedAs(now.value.body, o.body, h.manifest.body))
        && (!h.patching ==> now.value.body == h.manifest.body)
  }

  ghost predicate ObjectIsAppliedAs(once: bool, h: ApplyOnce.Handed, s: Cluster.Server, t: Cluster.Server) {
    AppliedAs(once, h, Find(s.objects, h.manifest.key), Find(t.objects, h.manifest.key))
  }

  /** After an Apply that succeeds every object that was handed over is so. */
  lemma EveryObjectIsAppliedAs(c: Apply.Config, status: seq<AppStatus.WorkloadStatus>, ws: seq<Apply.Rendered>, s: Cluster.Server, h: ApplyOnce.Handed)
    requires Apply.Applied(c, status, ws, s).result == Cluster.Done && ApplyOnce.DistinctKeys(ApplyOnce.HandedOver(ws))
    requires h in ApplyOnce.HandedOver(ws)
    ensures ObjectIsAppliedAs(c.once, h, s, Apply.Applied(c, status, ws, s).server)
  {
    ApplyOnce.EveryObjectGetsItsOutcome(c, status, ws, s);
    var n :| 0 <= n < |ApplyOnce.HandedOver(ws)| && ApplyOnce.HandedOver(ws)[n] == h;
    if h.manifest.key in s.objects { MergedIsPatched(s.objects[h.manifest.key].body, h.manifest.body); }
  }

  // ---------- what a round applies ----------

  lemma {:induction false} TraitIsHanded(ts: seq<Apply.RenderedTrait>, j: nat)
    requires j < |ts| && !ts[j].hasDep
    ensures ApplyOnce.Handed(ts[j].manifest, false) in ApplyOnce.HandedTraits(ts)
  {
    if j > 0 { TraitIsHanded(ts[1..], j - 1); }
  }

  lemma {:induction false} HandedAmong(ws: seq<Apply.Rendered>, i: nat)
    requires i < |ws|
    ensures !ws[i].hasDep ==> ApplyOnce.Handed(ws[i].manifest, true) in ApplyOnce.HandedOver(ws)
    ensures forall j :: 0 <= j < |ws[i].traits| && !ws[i].traits[j].hasDep ==>
              ApplyOnce.Handed(ws[i].traits[j].manifest, false) in ApplyOnce.HandedOver(ws)
  {
    if i > 0 {
      HandedAmong(ws[1..], i - 1);
    } else {
      forall j | 0 <= j < |ws[0].traits| && !ws[0].traits[j].hasDep
        ensures ApplyOnce.Handed(ws[0].traits[j].manifest, false) in ApplyOnce.HandedOver(ws)
      {
        TraitIsHanded(ws[0].traits, j);
      }
    }
  }

  /** And an Apply that succeeds creates, patches and replaces with exactly that. */
  lemma AppliedAsDrawn(env: Reconcile.Env, app: Reconcile.App, s: Cluster.Server, i: nat) returns (d: Drawing.Draft)
    requires Reconcile.RenderFor(env, app, s).Some? && i < |Reconcile.RenderFor(env, app, s).value|
    requires var ws := Reconcile.RenderFor(env, app, s).value;
             && Apply.Applied(Reconcile.ConfigFor(env, app), app.status, ws, s).result == Cluster.Done
             && ApplyOnce.DistinctKeys(ApplyOnce.HandedOver(ws))
    ensures i < |app.spec.components| && DrawnFor(env.cat, app.spec.components[i], d)
    ensures var w := Reconcile.RenderFor(env, app, s).value[i];
            var t := Apply.Applied(Reconcile.ConfigFor(env, app), app.status, Reconcile.RenderFor(env, app, s).value, s).server;
            && BecomesAs(app.spec, d, app.spec.components[i], w, SourcesIn(env, app, s), SnapshotOf(s, env.unreadable), env.tree)
            && (!w.hasDep ==> ObjectIsAppliedAs(env.once, ApplyOnce.Handed(w.manifest, true), s, t))
            && forall j :: 0 <= j < |w.traits| && !w.traits[j].hasDep ==>
                 ObjectIsAppliedAs(env.once, ApplyOnce.Handed(w.traits[j].manifest, false), s, t)
  {
    var ws := Reconcile.RenderFor(env, app, s).value;
    var c := Reconcile.ConfigFor(env, app);
    d := RenderedSaysWhatIsDrawn(env, app, s, i);
    HandedAmong(ws, i);
    if !ws[i].hasDep {
      EveryObjectIsAppliedAs(c, app.status, ws, s, ApplyOnce.Handed(ws[i].manifest, true));
    }
    var t := Apply.Applied(c, app.status, ws, s).server;
    forall j | 0 <= j < |ws[i].traits| && !ws[i].traits[j].hasDep
      ensures ObjectIsAppliedAs(env.once, ApplyOnce.Handed(ws[i].traits[j].manifest, false), s, t)
    {
      EveryObjectIsAppliedAs(c, app.status, ws, s, ApplyOnce.Handed(ws[i].traits[j].manifest, false));
    }
  }
}
