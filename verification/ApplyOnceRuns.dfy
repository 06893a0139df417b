/** Apply-once-only over whole lives: what others wrote into an object stands. */
module ApplyOnceRuns {
  import opened Wrappers
  import opened Kube
  import opened Labels
  import opened Cluster
  import opened Apply
  import opened Rendering
  import opened Reconcile
  import opened RenderedFacts
  import opened ApplyOnce
  import opened ScopeMembership
  import opened GarbageCollection
  import opened Lifecycle
  import opened Gating
  import FieldPaths
  import Headers
  import Trees

  /** Object k appears in w as the workload or one of its traits. */
  predicate Contains(w: Rendered, k: Key) {
    w.manifest.key == k || RendersTrait(w.traits, k)
  }

  /** None of the inputs of w's objects that go by k is declared to fill labels or annotations. */
  predicate KeepsStampOf(e: ComponentEntry, w: Rendered, k: Key)
    requires |e.traits| == |w.traits|
  {
    && (w.manifest.key == k ==> KeepsStamp(e.inputs))
    && forall j :: 0 <= j < |w.traits| && w.traits[j].manifest.key == k ==> KeepsStamp(e.traits[j].inputs)
  }

  /** Whoever renders k does so for this component and revision, and does not fill its labels or annotations. */
  ghost predicate RenderedFor(es: seq<ComponentEntry>, ws: seq<Rendered>, k: Key, component: string, revision: string) {
    && Aligned(es, ws) && Renders(ws, k)
    && forall i :: 0 <= i < |ws| && Contains(ws[i], k) ==>
         && ws[i].componentName == component && ws[i].revisionName == revision
         && KeepsStampOf(es[i], ws[i], k)
  }

  /** The stamp a rendered object gets depends on the application's name and generation, and on the component
      and its revision. */
  lemma RenderedAgrees(env: Env, app: App, s: Server, ws: seq<Rendered>, k: Key, component: string, revision: string)
    requires RenderFor(env, app, s) == Some(ws) && RenderedFor(app.spec.components, ws, k, component, revision)
    ensures AllAgree(ws, k, StampValues(app.spec.generation, revision, component, app.spec.name))
  {
    RenderedObjectsAreStamped(env, app, s);
    var stamp, es := StampValues(app.spec.generation, revision, component, app.spec.name), app.spec.components;
    forall i | 0 <= i < |ws|
      ensures Agrees(ws[i].manifest, k, stamp)
      ensures forall j :: 0 <= j < |ws[i].traits| ==> Agrees(ws[i].traits[j].manifest, k, stamp)
    {
      if Contains(ws[i], k) {
        assert KeepsStampOf(es[i], ws[i], k);
      }
      forall j | 0 <= j < |ws[i].traits| ensures Agrees(ws[i].traits[j].manifest, k, stamp) {
        if ws[i].traits[j].manifest.key == k { assert Contains(ws[i], k) && KeepsStampOf(es[i], ws[i], k); }
      }
    }
  }

  /** After a fill of its labels an object is marked only if the source says so itself. */
  lemma FilledLabelsMark(m: Manifest, fields: Fields) returns (filled: Manifest)
    ensures FieldPaths.FillAll(Trees.TreeOf(m.key, m.body), [Headers.LABELS], FieldPaths.Object(fields)).Some?
    ensures filled == ReadManifest(FieldPaths.FillAll(Trees.TreeOf(m.key, m.body), [Headers.LABELS], FieldPaths.Object(fields)).value)
    ensures filled.key == m.key
    ensures MarkedForOnce(filled.body.labels) <==>
              Headers.AllTexts(fields) && RESOURCE_TYPE in fields && fields[RESOURCE_TYPE].text in {WORKLOAD_RESOURCE, TRAIT_RESOURCE}
  {
    var v := Trees.FillReplacesLabels(m.key, m.body, fields);
    filled := ReadManifest(v);
  }

  /** An object that is not marked is written by every Apply that reaches it, whatever stamp it carries. */
  lemma UnmarkedIsWritten(c: Config, m: Manifest, patching: bool, s: Server)
    requires Quiet(c.net) && m.key in s.objects && Controllable(s.objects[m.key].body, c.uid) && !MarkedForOnce(m.body.labels)
    ensures var after := ApplyObject(c, m, patching, s).server.objects;
            m.key in after && after[m.key].version == s.objects[m.key].version + 1
  {
  }

  /** What an input that fills metadata.labels does to apply-once-only: the object is marked only if the source says
      so itself, and an object that is not marked is written again by every Apply that reaches it, whatever stamp it
      carries in the cluster. */
  lemma FilledLabelsEndApplyOnce(c: Config, m: Manifest, fields: Fields, patching: bool, s: Server) returns (filled: Manifest)
    requires Quiet(c.net) && c.once && m.key in s.objects && Controllable(s.objects[m.key].body, c.uid)
    ensures FieldPaths.FillAll(Trees.TreeOf(m.key, m.body), [Headers.LABELS], FieldPaths.Object(fields)).Some?
    ensures filled == ReadManifest(FieldPaths.FillAll(Trees.TreeOf(m.key, m.body), [Headers.LABELS], FieldPaths.Object(fields)).value)
    ensures filled.key == m.key
    ensures MarkedForOnce(filled.body.labels) <==>
              Headers.AllTexts(fields) && RESOURCE_TYPE in fields && fields[RESOURCE_TYPE].text in {WORKLOAD_RESOURCE, TRAIT_RESOURCE}
    ensures !MarkedForOnce(filled.body.labels) ==>
              var after := ApplyObject(c, filled, patching, s).server.objects;
              m.key in after && after[m.key].version == s.objects[m.key].version + 1
  {
    filled := FilledLabelsMark(m, fields);
    if !MarkedForOnce(filled.body.labels) {
      UnmarkedIsWritten(c, filled, patching, s);
    }
  }

  lemma DeletionLeavesObjects(env: Env, w: World)
    requires w.app.deleting
    ensures Reconciled(env, w).server.objects == w.server.objects
  {
    var s := Tick(w.server);
    FinalizeIsDereferenceOfNothing(ConfigFor(env, w.app), w.app.status, s);
    DereferenceLeavesObjects(ConfigFor(env, w.app), w.app.status, [], s);
  }

  /** The round applies only once, and if it renders anything it renders k, for this component and revision. */
  ghost predicate KeepsTo(env: Env, w: World, k: Key, stamp: StampValues) {
    && env.once && w.app.spec.generation == stamp.generation && w.app.spec.name == stamp.app
    && (RenderFor(env, w.app, Tick(w.server)).Some? ==>
          RenderedFor(w.app.spec.components, RenderFor(env, w.app, Tick(w.server)).value, k, stamp.component, stamp.revision))
  }

  /** A reconcile, however it ends, leaves an object alone that carries the stamp it would get. */
  lemma ReconcileLeavesObject(env: Env, w: World, k: Key, stamp: StampValues)
    requires Bare(w.app.status) && Carries(w.server, k, stamp) && KeepsTo(env, w, k, stamp)
    ensures Untouched(w.server, Reconciled(env, w).server, k)
  {
    var s := Tick(w.server);
    if w.app.deleting {
      DeletionLeavesObjects(env, w);
    } else if RenderFor(env, w.app, s).Some? {
      var ws := RenderFor(env, w.app, s).value;
      RenderedAgrees(env, w.app, s, ws, k, stamp.component, stamp.revision);
      ApplyLeavesObject(ConfigFor(env, w.app), w.app.status, ws, s, k, stamp);
      RenderedIsNeverCollected(env, w.app, s, ws, k);
    }
  }

  /** A step that keeps k's stamp: a round as above, an edit or deletion, or others keeping the stamp. */
  ghost predicate StampKept(w: World, v: World, e: Event, k: Key, stamp: StampValues) {
    && (e.Round? ==> KeepsTo(e.env, w, k, stamp))
    && (e.Others? ==> Carries(v.server, k, stamp))
  }

  lemma StepLeavesObject(w: World, v: World, e: Event, ours: set<Key>, k: Key, stamp: StampValues)
    requires Step(w, v, e, ours) && Bare(w.app.status) && Carries(w.server, k, stamp) && StampKept(w, v, e, k, stamp)
    ensures Carries(v.server, k, stamp) && (!e.Others? ==> Untouched(w.server, v.server, k))
  {
    if e.Round? {
      ReconcileLeavesObject(e.env, w, k, stamp);
    }
  }

  /** While the application's generation and the component's revision stay the same, any number of reconciles
      leaves an object exactly as others leave it, as long as they keep its stamp. */
  lemma {:induction false} ObjectsStandAsOthersLeaveThem(
    worlds: seq<World>, events: seq<Event>, ours: set<Key>, a: nat, b: nat, k: Key, stamp: StampValues)
    requires IsLife(worlds, events, ours) && a <= b < |worlds| && Carries(worlds[a].server, k, stamp)
    requires forall t :: a <= t < b ==> StampKept(worlds[t], worlds[t + 1], events[t], k, stamp)
    ensures Carries(worlds[b].server, k, stamp)
    ensures forall t :: a <= t < b && !events[t].Others? ==> Untouched(worlds[t].server, worlds[t + 1].server, k)
  {
    if a < b {
      ObjectsStandAsOthersLeaveThem(worlds, events, ours, a, b - 1, k, stamp);
      LifeKeepsInv(worlds, events, ours, b - 1);
      assert StepAt(worlds, events, ours, b - 1);
      StepLeavesObject(worlds[b - 1], worlds[b], events[b - 1], ours, k, stamp);
    }
  }
}
