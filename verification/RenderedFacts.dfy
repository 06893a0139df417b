/** What can be relied on in whatever is rendered, whatever dependency handling then holds back or fills in. */
module RenderedFacts {
  import opened Wrappers
  import opened Kube
  import opened Labels
  import opened Cluster
  import opened AppStatus
  import opened Apply
  import opened Rendering
  import opened ScopeMembership
  import opened Reconcile
  import opened Gating
  import Dependencies

  // ---------- rendering, entry by entry ----------

  lemma {:induction false} RenderedEntry(cat: Catalogue, app: AppSpec, status: seq<WorkloadStatus>, s: Server, es: seq<ComponentEntry>, i: nat)
    requires RenderAll(cat, app, status, s, es).Some? && i < |es|
    ensures RenderEntry(cat, app, status, s, es[i]) == Some(RenderAll(cat, app, status, s, es).value[i])
  {
    if i < |es| - 1 {
      RenderedEntry(cat, app, status, s, es[..|es| - 1], i);
    }
  }

  lemma RenderedEntries(cat: Catalogue, app: AppSpec, status: seq<WorkloadStatus>, s: Server, es: seq<ComponentEntry>)
    requires RenderAll(cat, app, status, s, es).Some?
    ensures var ws := RenderAll(cat, app, status, s, es).value;
            && |ws| == |es|
            && forall i :: 0 <= i < |es| ==> RenderEntry(cat, app, status, s, es[i]) == Some(ws[i])
  {
    var ws := RenderAll(cat, app, status, s, es).value;
    forall i | 0 <= i < |es| ensures RenderEntry(cat, app, status, s, es[i]) == Some(ws[i]) {
      RenderedEntry(cat, app, status, s, es, i);
    }
  }

  lemma {:induction false} RenderedTraitsOf(
    cat: Catalogue, app: AppSpec, status: seq<WorkloadStatus>, component: string, revision: string, cts: seq<ComponentTrait>)
    requires RenderTraits(cat, app, status, component, revision, cts).Some?
    ensures var r := RenderTraits(cat, app, status, component, revision, cts).value;
            && |r.traits| == |cts|
            && forall j :: 0 <= j < |cts| ==>
                 RenderTrait(cat, app, status, component, revision, cts[j]).Some?
                 && RenderTrait(cat, app, status, component, revision, cts[j]).value.0 == r.traits[j]
  {
    if cts != [] {
      var n := |cts| - 1;
      RenderedTraitsOf(cat, app, status, component, revision, cts[..n]);
      var before := RenderTraits(cat, app, status, component, revision, cts[..n]).value;
      var r := RenderTraits(cat, app, status, component, revision, cts).value;
      forall j | 0 <= j < |cts|
        ensures RenderTrait(cat, app, status, component, revision, cts[j]).Some?
             && RenderTrait(cat, app, status, component, revision, cts[j]).value.0 == r.traits[j]
      {
        if j < n { assert cts[..n][j] == cts[j] && r.traits[j] == before.traits[j]; }
      }
    }
  }

  /** The definition of the trait is known and enables revisions. */
  predicate Enables(cat: Catalogue, ct: ComponentTrait) {
    && cat.definitionName(ct.draft).Some? && cat.definitionName(ct.draft).value in cat.definitions
    && cat.definitions[cat.definitionName(ct.draft).value].revisionEnabled
  }

  /** Revisions are enabled for a workload exactly when some definition of its traits says so, wherever it comes in the
      list. */
  lemma {:induction false} EnabledExactlyWhen(
    cat: Catalogue, app: AppSpec, status: seq<WorkloadStatus>, component: string, revision: string, cts: seq<ComponentTrait>)
    requires RenderTraits(cat, app, status, component, revision, cts).Some?
    ensures RenderTraits(cat, app, status, component, revision, cts).value.revisionEnabled <==>
              exists j :: 0 <= j < |cts| && Enables(cat, cts[j])
  {
    if cts != [] {
      var n := |cts| - 1;
      EnabledExactlyWhen(cat, app, status, component, revision, cts[..n]);
      if j :| 0 <= j < n && Enables(cat, cts[..n][j]) { assert Enables(cat, cts[j]); }
      if j :| 0 <= j < n && Enables(cat, cts[j]) { assert Enables(cat, cts[..n][j]); }
    }
  }

  lemma {:induction false} ScopesAreRead(s: Server, keys: seq<Key>)
    requires ReadScopes(s, keys).Some?
    ensures var copies := ReadScopes(s, keys).value;
            && |copies| == |keys| && FreshCopies(copies, s)
            && forall j :: 0 <= j < |keys| ==> copies[j].key == keys[j]
  {
    if keys != [] {
      ScopesAreRead(s, keys[..|keys| - 1]);
    }
  }

  lemma GatedRound(env: Env, app: App, s: Server) returns (drawn: seq<Rendered>)
    requires RenderFor(env, app, s).Some?
    ensures RenderAll(env.cat, app.spec, app.status, s, app.spec.components) == Some(drawn)
    ensures var ws, es := RenderFor(env, app, s).value, app.spec.components;
            && |drawn| == |ws| == |es|
            && forall i :: 0 <= i < |drawn| ==>
                 && RenderEntry(env.cat, app.spec, app.status, s, es[i]) == Some(drawn[i])
                 && |es[i].traits| == |drawn[i].traits| && GatedAs(es[i], drawn[i], ws[i])
  {
    drawn := RenderAll(env.cat, app.spec, app.status, s, app.spec.components).value;
    RenderedEntries(env.cat, app.spec, app.status, s, app.spec.components);
    GateKeeps(app.spec.components, drawn, SnapshotOf(s, env.unreadable), env.tree);
  }

  /** What a round draws its workloads from. */
  datatype Basis = Basis(cat: Catalogue, spec: AppSpec, status: seq<WorkloadStatus>, server: Server)

  function BasisOf(env: Env, app: App, s: Server): Basis {
    Basis(env.cat, app.spec, app.status, s)
  }

  /** Entry e is drawn, and w is what dependency handling makes of it. */
  predicate DrawsEntry(b: Basis, e: ComponentEntry, w: Rendered) {
    var drawn := RenderEntry(b.cat, b.spec, b.status, b.server, e);
    drawn.Some? && |e.traits| == |drawn.value.traits| && GatedAs(e, drawn.value, w)
  }

  predicate Draws(b: Basis, ws: seq<Rendered>) {
    |ws| == |b.spec.components| && forall i :: 0 <= i < |ws| ==> DrawsEntry(b, b.spec.components[i], ws[i])
  }

  lemma RoundDraws(env: Env, app: App, s: Server)
    requires RenderFor(env, app, s).Some?
    ensures Draws(BasisOf(env, app, s), RenderFor(env, app, s).value)
  {
    var drawn := GatedRound(env, app, s);
  }

  lemma EntryScopes(cat: Catalogue, app: AppSpec, status: seq<WorkloadStatus>, s: Server, e: ComponentEntry)
    requires RenderEntry(cat, app, status, s, e).Some?
    ensures var copies := RenderEntry(cat, app, status, s, e).value.scopes; FreshCopies(copies, s) && |copies| == |e.scopes|
  {
    ScopesAreRead(s, e.scopes);
  }

  lemma ListedScopes(spec: AppSpec, ws: seq<Rendered>, x: Key, k: Key)
    requires |ws| == |spec.components| && forall i :: 0 <= i < |ws| ==> |ws[i].scopes| == |spec.components[i].scopes|
    requires RenderedPair(ws, x, k)
    ensures HasScopes(spec)
  {
    var i :| 0 <= i < |ws| && ws[i].manifest.key == x && HasScope(ws[i].scopes, k);
    assert spec.components[i].scopes != [];
  }

  /** Every copy of a scope is fresh, and only an application that has scopes renders anything into one. */
  lemma RenderedScopes(env: Env, app: App, s: Server)
    requires RenderFor(env, app, s).Some?
    ensures var ws := RenderFor(env, app, s).value;
            Fresh(ws, s) && forall x, k :: RenderedPair(ws, x, k) ==> HasScopes(app.spec)
  {
    var drawn := GatedRound(env, app, s);
    var ws := RenderFor(env, app, s).value;
    forall i | 0 <= i < |ws| ensures FreshCopies(ws[i].scopes, s) && |ws[i].scopes| == |app.spec.components[i].scopes| {
      assert GatedAs(app.spec.components[i], drawn[i], ws[i]);
      EntryScopes(env.cat, app.spec, app.status, s, app.spec.components[i]);
    }
    forall x, k | RenderedPair(ws, x, k) ensures HasScopes(app.spec) {
      ListedScopes(app.spec, ws, x, k);
    }
  }

  /** The controller's own stamp, marked for applying only once. */
  predicate Stamps(app: AppSpec, w: Rendered, m: Manifest) {
    && StampOf(m.body.labels, m.body.annotations) == StampValues(app.generation, w.revisionName, w.componentName, app.name)
    && MarkedForOnce(m.body.labels)
  }

  /** The label of the component's revision. */
  predicate BearsRevision(m: Manifest, revision: string) {
    APP_COMPONENT_REVISION in m.body.labels && m.body.labels[APP_COMPONENT_REVISION] == revision
  }

  /** What the controller puts on an object, each part unless the object's inputs are declared to fill it. */
  predicate Marks(app: AppSpec, w: Rendered, m: Manifest, resourceType: string, inputs: seq<Dependencies.DataInput>) {
    && (KeepsLabels(inputs) ==> BearsRevision(m, w.revisionName) && Lookup(m.body.labels, RESOURCE_TYPE) == resourceType)
    && (KeepsStamp(inputs) ==> Stamps(app, w, m))
    && (KeepsOwner(inputs) ==> m.body.owner == Some(app.uid))
  }

  /** Every rendered object carries the controller's own stamp and revision label, whatever labels and annotations the
      component, the trait and the application bring, and is controlled by the application. An input takes away no
      more than what it is declared to fill. */
  lemma RenderedObjectsAreStamped(env: Env, app: App, s: Server)
    requires RenderFor(env, app, s).Some?
    ensures var ws, es := RenderFor(env, app, s).value, app.spec.components;
            && |ws| == |es|
            && forall i :: 0 <= i < |ws| ==>
              && |ws[i].traits| == |es[i].traits| && Marks(app.spec, ws[i], ws[i].manifest, "WORKLOAD", es[i].inputs)
              && forall j :: 0 <= j < |ws[i].traits| ==> Marks(app.spec, ws[i], ws[i].traits[j].manifest, "TRAIT", es[i].traits[j].inputs)
  {
    var drawn := GatedRound(env, app, s);
    var ws, es := RenderFor(env, app, s).value, app.spec.components;
    forall i | 0 <= i < |ws|
      ensures |ws[i].traits| == |es[i].traits| && Marks(app.spec, ws[i], ws[i].manifest, "WORKLOAD", es[i].inputs)
      ensures forall j :: 0 <= j < |ws[i].traits| ==> Marks(app.spec, ws[i], ws[i].traits[j].manifest, "TRAIT", es[i].traits[j].inputs)
    {
      assert GatedAs(es[i], drawn[i], ws[i]);
      EntryIsStamped(env.cat, app.spec, app.status, s, es[i]);
      MarksStay(app.spec, es[i], drawn[i], ws[i]);
    }
  }

  predicate MarksAll(app: AppSpec, w: Rendered, m: Manifest, resourceType: string) {
    && Stamps(app, w, m) && BearsRevision(m, w.revisionName) && m.body.owner == Some(app.uid)
    && Lookup(m.body.labels, RESOURCE_TYPE) == resourceType
  }

  lemma MarksStay(app: AppSpec, e: ComponentEntry, drawn: Rendered, w: Rendered)
    requires |e.traits| == |drawn.traits| && GatedAs(e, drawn, w)
    requires MarksAll(app, drawn, drawn.manifest, "WORKLOAD") && forall j :: 0 <= j < |drawn.traits| ==> MarksAll(app, drawn, drawn.traits[j].manifest, "TRAIT")
    ensures Marks(app, w, w.manifest, "WORKLOAD", e.inputs)
    ensures forall j :: 0 <= j < |w.traits| ==> Marks(app, w, w.traits[j].manifest, "TRAIT", e.traits[j].inputs)
  {
    forall j | 0 <= j < |w.traits| ensures Marks(app, w, w.traits[j].manifest, "TRAIT", e.traits[j].inputs) {
      assert KeptBy(e.traits[j].inputs, drawn.traits[j].manifest, w.traits[j].manifest);
      assert MarksAll(app, drawn, drawn.traits[j].manifest, "TRAIT");
    }
  }

  lemma ManifestIsStamped(app: AppSpec, d: Draft, name: string, component: string, revision: string, resourceType: string)
    requires resourceType == WORKLOAD_RESOURCE || resourceType == TRAIT_RESOURCE
    ensures var m := Manifested(app, d, name, component, revision, resourceType);
            && StampOf(m.body.labels, m.body.annotations) == StampValues(app.generation, revision, component, app.name)
            && MarkedForOnce(m.body.labels) && BearsRevision(m, revision) && m.body.owner == Some(app.uid)
            && Lookup(m.body.labels, RESOURCE_TYPE) == resourceType
  {
    StampsAreTheControllers(d.labels, app.labels, d.annotations, app.annotations, app.name, component, revision, app.generation, resourceType);
  }

  lemma TraitIsStamped(cat: Catalogue, app: AppSpec, status: seq<WorkloadStatus>, w: Rendered, ct: ComponentTrait)
    requires RenderTrait(cat, app, status, w.componentName, w.revisionName, ct).Some?
    ensures MarksAll(app, w, RenderTrait(cat, app, status, w.componentName, w.revisionName, ct).value.0.manifest, "TRAIT")
  {
    var t := RenderTrait(cat, app, status, w.componentName, w.revisionName, ct).value.0;
    ManifestIsStamped(app, ct.draft, t.manifest.key.name, w.componentName, w.revisionName, TRAIT_RESOURCE);
  }

  lemma EntryIsStamped(cat: Catalogue, app: AppSpec, status: seq<WorkloadStatus>, s: Server, e: ComponentEntry)
    requires RenderEntry(cat, app, status, s, e).Some?
    ensures var w := RenderEntry(cat, app, status, s, e).value;
            && MarksAll(app, w, w.manifest, "WORKLOAD")
            && forall j :: 0 <= j < |w.traits| ==> MarksAll(app, w, w.traits[j].manifest, "TRAIT")
  {
    var w := RenderEntry(cat, app, status, s, e).value;
    var c, revision := GetComponent(cat, e).value.0, GetComponent(cat, e).value.1;
    var d := cat.draw(c.spec, e.parameters).value;
    ManifestIsStamped(app, d, w.manifest.key.name, w.componentName, w.revisionName, WORKLOAD_RESOURCE);
    RenderedTraitsOf(cat, app, status, w.componentName, w.revisionName, e.traits);
    forall j | 0 <= j < |w.traits| ensures MarksAll(app, w, w.traits[j].manifest, "TRAIT") {
      TraitIsStamped(cat, app, status, w, e.traits[j]);
    }
  }
}
